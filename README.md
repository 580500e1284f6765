# Rent modal listing wizard

A model of the listing-creation wizard of the rental site's "Airbnb your home!"
modal (`RentModal`). The wizard shows six numbered steps: CATEGORY, LOCATION,
INFO, IMAGES, DESCRIPTION and PRICE, numbered 0 to 5. The primary button says
"Next" and advances the step. On PRICE it says "CREATE" and sends the form to
the listing endpoint instead. The secondary button says "BACK" and goes one step
back; on CATEGORY it has neither label nor action. A successful creation resets
the form to its defaults, returns to CATEGORY and closes the modal. A failed one
changes nothing but the loading flag.

The handlers `onNext` and `onBack` add or subtract one with no check. That the
step stays within 0..5 follows only from how they are wired: Back is not handed
to the modal on CATEGORY, and `onNext` is only called when the step is not
PRICE. The model proves that every run of the events the modal can deliver
keeps the step in range. It also shows that each of the two wiring checks is
needed.

- `rent_modal.dfy`, module `RentModal`: the step constants, the field values and
  their defaults, the two button labels, the component's state as a value, one
  transition function per handler, runs of events, and the invariant lemmas.
- `rent_wizard.dfy`, module `RentWizard`: class `RentWizard`, the component
  with its fields updated in place by one method per handler. The
  postconditions of `SetCustomValue`, `OnBack`, `OnSubmit` and `Complete`
  equate the new state with `Apply` for the matching event, so the lemmas about
  runs cover every sequence of calls to those four. `OnNext` has no event of its
  own: the component reaches it only from `onSubmit`, in the branch where the
  step is not PRICE (`RentModal.tsx` lines 92-93), and called anywhere else it
  could leave the range.

The state holds, beside the step, the loading flag and the form values:
`isOpen`, the rent modal's open flag; `pending`, the number of listing requests
whose outcome has not arrived; and `posted`, the request bodies sent so far. The
outcome of a request is an input to `Complete`.

## Model

| member | source | states |
|---|---|---|
| `RentModal.Defaults` | yongsu-airbnb-clone/app/components/modals/RentModal.tsx:46-56 | the form is created with exactly the nine fields, and only `location` defaults to null |
| `RentModal.Initial` | yongsu-airbnb-clone/app/components/modals/RentModal.tsx:35-56 | a mounted wizard is on CATEGORY, not loading, with every field at its default, nothing sent and the open flag it was given; it satisfies the invariant |
| `RentModal.ActionLabel` | yongsu-airbnb-clone/app/components/modals/RentModal.tsx:115-122 | the primary label is "CREATE" exactly when the step is PRICE, and "Next" otherwise |
| `RentModal.SecondaryActionLabel` | yongsu-airbnb-clone/app/components/modals/RentModal.tsx:124-131 | the secondary label is absent exactly when the step is CATEGORY, and "BACK" otherwise |
| `RentModal.BackWired` | yongsu-airbnb-clone/app/components/modals/RentModal.tsx:273 | Back is handed to the modal off CATEGORY, and from a wizard step a wired Back lands on a wizard step |
| `RentModal.BackWiredIffSecondaryLabel` | yongsu-airbnb-clone/app/components/modals/RentModal.tsx:273 | Back is wired as the secondary action exactly when the secondary label is present |
| `RentModal.WithField` | yongsu-airbnb-clone/app/components/modals/RentModal.tsx:74-80 | after setting field `id` to `v`, `id` holds `v`, the field names gain only `id`, and every other field keeps its value |
| `RentModal.EditsCommute` | yongsu-airbnb-clone/app/components/modals/RentModal.tsx:74-80 | edits of two different fields give the same form in either order |
| `RentModal.LastEditWins` | yongsu-airbnb-clone/app/components/modals/RentModal.tsx:74-80 | a second edit of a field overwrites the first |
| `RentModal.AfterNext` | yongsu-airbnb-clone/app/components/modals/RentModal.tsx:86-88 | `onNext` raises the step by one and changes nothing else |
| `RentModal.AfterBack` | yongsu-airbnb-clone/app/components/modals/RentModal.tsx:82-84 | `onBack` lowers the step by one, and `onNext` undoes it exactly |
| `RentModal.AfterSubmit` | yongsu-airbnb-clone/app/components/modals/RentModal.tsx:90-99 | `onSubmit` sends exactly one request on PRICE and none on any other step, and keeps the invariant |
| `RentModal.AfterComplete` | yongsu-airbnb-clone/app/components/modals/RentModal.tsx:100-112 | a settled request ends loading, leaves one fewer request in flight, sends nothing, and keeps the invariant |
| `RentModal.SubmitBeforePrice` | yongsu-airbnb-clone/app/components/modals/RentModal.tsx:86-94 | submitting before PRICE raises the step by exactly one, sends nothing, and leaves loading, values and the open flag unchanged |
| `RentModal.SubmitAtPrice` | yongsu-airbnb-clone/app/components/modals/RentModal.tsx:96-99 | submitting on PRICE starts loading, sends the current values once and stays on PRICE with the values and the open flag unchanged |
| `RentModal.SuccessResetsWizard` | yongsu-airbnb-clone/app/components/modals/RentModal.tsx:100-112 | on success the values return to the defaults, the step to CATEGORY, the modal closes and loading ends; one fewer request is in flight and nothing is sent |
| `RentModal.FailureKeepsForm` | yongsu-airbnb-clone/app/components/modals/RentModal.tsx:107-112 | on failure the step, the values and the open flag are unchanged and loading ends |
| `RentModal.BackUndoesAdvance` | yongsu-airbnb-clone/app/components/modals/RentModal.tsx:82-94 | Back after a Submit that only advanced restores the state exactly |
| `RentModal.SubmitUndoesBack` | yongsu-airbnb-clone/app/components/modals/RentModal.tsx:82-94 | on a valid state where Back is offered, Submit after Back restores the state exactly |
| `RentModal.Enabled` | yongsu-airbnb-clone/app/components/modals/RentModal.tsx:270-273 | Back can be delivered exactly when the secondary button is labelled, and a completion exactly while a request is in flight |
| `RentModal.Apply` | yongsu-airbnb-clone/app/components/modals/RentModal.tsx:74-113 | only a submit on PRICE sends anything, and what it sends is the current values; an edit sets its field and keeps the step |
| `RentModal.ApplyKeepsInvariant` | yongsu-airbnb-clone/app/components/modals/RentModal.tsx:82-113 | every event the modal can deliver keeps the step in 0..5 and loading only while a request is in flight |
| `RentModal.RunKeepsInvariant` | yongsu-airbnb-clone/app/components/modals/RentModal.tsx:82-113 | every sequence of deliverable events keeps that invariant |
| `RentModal.ReachableStepInRange` | yongsu-airbnb-clone/app/components/modals/RentModal.tsx:21-28 | from mounting on, every reachable step is between CATEGORY and PRICE |
| `RentModal.UnwiredBackLeavesRange` | yongsu-airbnb-clone/app/components/modals/RentModal.tsx:273 | Back on CATEGORY is not deliverable, and if it ran it would set the step to -1 |
| `RentModal.UnguardedNextLeavesRange` | yongsu-airbnb-clone/app/components/modals/RentModal.tsx:92-93 | `onNext` on PRICE would leave the range, so the guard in `onSubmit` is needed |
| `RentWizard.RentWizard.constructor` | yongsu-airbnb-clone/app/components/modals/RentModal.tsx:35-56 | a new component is in the initial state: CATEGORY, not loading, default values |
| `RentWizard.RentWizard.SetCustomValue` | yongsu-airbnb-clone/app/components/modals/RentModal.tsx:74-80 | the form store becomes `WithField` of the old one; the step is unchanged and the invariant kept |
| `RentWizard.RentWizard.OnNext` | yongsu-airbnb-clone/app/components/modals/RentModal.tsx:86-88 | the step rises by one with no check; the invariant survives only if the step was not PRICE |
| `RentWizard.RentWizard.OnBack` | yongsu-airbnb-clone/app/components/modals/RentModal.tsx:82-84 | called only while Back is wired, it lowers the step by one and keeps the invariant |
| `RentWizard.RentWizard.OnSubmit` | yongsu-airbnb-clone/app/components/modals/RentModal.tsx:90-99 | before PRICE it advances and sends nothing; on PRICE it starts loading and sends the current values; the invariant is kept |
| `RentWizard.RentWizard.Complete` | yongsu-airbnb-clone/app/components/modals/RentModal.tsx:98-112 | on success: defaults, CATEGORY and closed; on failure: step, values and open flag unchanged; loading ends either way |

## Left out

- The account menu component is not part of this model: its only logic is flipping its own open flag.
- Rendering: the headings, the per-step body content and the modal chrome are presentation only.
- The dynamically imported map widget and the memoisation of labels and map are bundling and rendering concerns.
- The HTTP request, the toasts, the router refresh and the modal store are side effects outside the component. A request is recorded in `posted`, its outcome is the argument of `Complete`, and closing is the `isOpen` flag.
- Field validation by the form library is not modelled. A `Submit` event stands for a submission that passed validation and reached `onSubmit`. The dirty, touched and error flags that `setValue` also sets are left out.
- Field values: numbers are integers, so fractional prices and coordinates are not represented. Dotted field paths in `setValue` are not modelled; an id names a top-level field.
- Edits are allowed at every step, a superset of what each step's widgets can set; the invariants hold either way.
- React's asynchronous, batched state updates are not modelled: each handler's updates take effect at once and in order. Overlapping submissions are modelled through `pending`, but the finer interleavings of their callbacks are not.
- ReachableStepInRange rests on that atomicity. The guard in `onSubmit` reads the step of the last render, while `onNext` applies a functional update. So two submits handled before a re-render on DESCRIPTION would both pass the guard and leave the step at 6. This follows from reading the code; nothing was executed.
- Closing the modal with its close button is not an event of the model. In the component that close keeps the step and the values, so reopening resumes the wizard where it was. Only a successful creation changes `isOpen`.
- Submit, Back and Edit are enabled whether or not the modal is open, which is a superset of what a user can do; the invariants hold either way.
