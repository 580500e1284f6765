/**
  The listing-creation wizard of the rent modal, as values.

  The wizard walks through six numbered steps, from CATEGORY (0) to PRICE (5).
  Its state is the current step, a loading flag, the form's field values, and,
  for the effects the component has on the world, whether the modal is open,
  how many listing requests are still in flight and which request bodies were
  sent. Each event handler of the component is one function from state to
  state; `Enabled` says which events the rendered modal can deliver, and the
  lemmas at the end show that every run of enabled events keeps the step
  inside 0..5, although neither `onNext` nor `onBack` checks it.
 */
module RentModal {

  datatype Option<T> = None | Some(value: T)

  // The STEPS enum. The component keeps the step as a plain number and moves it
  // with +1 and -1, so it is an int here and nothing in its type bounds it.
  const CATEGORY: int := 0
  const LOCATION: int := 1
  const INFO: int := 2
  const IMAGES: int := 3
  const DESCRIPTION: int := 4
  const PRICE: int := 5

  /** One of the six wizard steps. */
  predicate IsStep(step: int) {
    CATEGORY <= step <= PRICE
  }

  /** A form field's value: the fields hold strings, counters, a country record or null. */
  datatype Value =
    | Null
    | Text(text: string)
    | Number(n: int)
    | Record(fields: map<string, Value>)

  /** The names of the nine fields the form is created with. */
  const FieldNames: set<string> :=
    {"category", "location", "guestCount", "roomCount", "bathroomCount",
     "imageSrc", "price", "title", "description"}

  /** The form's default values; `reset()` also restores exactly these. */
  function Defaults(): (d: map<string, Value>)
    ensures d.Keys == FieldNames
    ensures forall id | id in d :: (d[id] == Null) == (id == "location")
  {
    map[
      "category" := Text(""),
      "location" := Null,
      "guestCount" := Number(1),
      "roomCount" := Number(1),
      "bathroomCount" := Number(1),
      "imageSrc" := Text(""),
      "price" := Number(1),
      "title" := Text(""),
      "description" := Text("")
    ]
  }

  /** The primary button's label: it creates the listing on the last step only. */
  function ActionLabel(step: int): (caption: string)
    ensures caption == "CREATE" <==> step == PRICE
    ensures caption != "CREATE" ==> caption == "Next"
  {
    if step == PRICE then "CREATE" else "Next"
  }

  /** The secondary button's label, absent on the first step. */
  function SecondaryActionLabel(step: int): (caption: Option<string>)
    ensures caption == None <==> step == CATEGORY
    ensures caption != None ==> caption == Some("BACK")
  {
    if step == CATEGORY then None else Some("BACK")
  }

  /**
    Whether the modal is handed `onBack` as its secondary action. Wherever it
    is, one step back from a wizard step is still a wizard step.
   */
  predicate BackWired(step: int): (wired: bool)
    ensures wired && IsStep(step) ==> IsStep(step - 1)
  {
    step != CATEGORY
  }

  /** The secondary button has a label exactly when it has an action behind it. */
  lemma BackWiredIffSecondaryLabel(step: int)
    ensures BackWired(step) <==> SecondaryActionLabel(step).Some?
  {
  }

  /** The form store after `setValue(id, v)`: field `id` holds `v`, every other field is kept. */
  function WithField(values: map<string, Value>, id: string, v: Value): (r: map<string, Value>)
    ensures id in r && r[id] == v
    ensures r.Keys == values.Keys + {id}
    ensures forall k | k in values && k != id :: r[k] == values[k]
  {
    values[id := v]
  }

  /** Edits of two different fields do not interfere, whichever comes first. */
  lemma EditsCommute(values: map<string, Value>, id1: string, v1: Value, id2: string, v2: Value)
    requires id1 != id2
    ensures WithField(WithField(values, id1, v1), id2, v2)
         == WithField(WithField(values, id2, v2), id1, v1)
  {
  }

  /** A second edit of the same field overwrites the first. */
  lemma LastEditWins(values: map<string, Value>, id: string, v1: Value, v2: Value)
    ensures WithField(WithField(values, id, v1), id, v2) == WithField(values, id, v2)
  {
  }

  /**
    The component's state. `pending` counts the listing requests whose outcome
    has not arrived yet; `posted` lists, oldest first, the bodies sent to the
    listing endpoint; `isOpen` is the rent modal's open flag.
   */
  datatype State = State(
    step: int,
    isLoading: bool,
    values: map<string, Value>,
    isOpen: bool,
    pending: nat,
    posted: seq<map<string, Value>>)

  /** The invariant the wiring keeps: a real step, and loading only while a request is out. */
  predicate Invariant(s: State) {
    IsStep(s.step) && (s.isLoading ==> s.pending > 0)
  }

  /** The state when the component mounts. */
  function Initial(isOpen: bool): (s: State)
    ensures Invariant(s)
    ensures s.step == CATEGORY && !s.isLoading && s.values == Defaults()
    ensures s.pending == 0 && s.posted == [] && s.isOpen == isOpen
  {
    State(CATEGORY, false, Defaults(), isOpen, 0, [])
  }

  /** `onNext`: one step forward, unguarded; nothing but the step changes. */
  function AfterNext(s: State): (t: State)
    ensures t.step == s.step + 1
    ensures t.isLoading == s.isLoading && t.values == s.values && t.isOpen == s.isOpen
    ensures t.pending == s.pending && t.posted == s.posted
  {
    s.(step := s.step + 1)
  }

  /** `onBack`: one step back, unguarded; `onNext` undoes it. */
  function AfterBack(s: State): (t: State)
    ensures t.step == s.step - 1
    ensures AfterNext(t) == s
  {
    s.(step := s.step - 1)
  }

  /**
    `onSubmit`, reached once the form has passed validation. It sends one
    request on PRICE and none elsewhere, and on its own keeps the invariant.
   */
  function AfterSubmit(s: State): (t: State)
    ensures |t.posted| == |s.posted| + (if s.step == PRICE then 1 else 0)
    ensures Invariant(s) ==> Invariant(t)
  {
    if s.step != PRICE then
      AfterNext(s)
    else
      s.(isLoading := true, pending := s.pending + 1, posted := s.posted + [s.values])
  }

  /**
    The outcome of one in-flight listing request arrives. On success the form is
    reset, the wizard returns to CATEGORY and the modal closes; on failure only a
    toast is shown; in both cases loading ends.
   */
  function AfterComplete(s: State, success: bool): (t: State)
    requires s.pending > 0
    ensures !t.isLoading && t.pending == s.pending - 1 && t.posted == s.posted
    ensures Invariant(s) ==> Invariant(t)
  {
    var settled := s.(isLoading := false, pending := s.pending - 1);
    if success then settled.(values := Defaults(), step := CATEGORY, isOpen := false)
    else settled
  }

  /** Submitting on a step before PRICE moves exactly one step on and touches nothing else. */
  lemma SubmitBeforePrice(s: State)
    requires s.step != PRICE
    ensures AfterSubmit(s).step == s.step + 1
    ensures AfterSubmit(s).isLoading == s.isLoading && AfterSubmit(s).values == s.values
    ensures AfterSubmit(s).posted == s.posted && AfterSubmit(s).pending == s.pending
    ensures AfterSubmit(s).isOpen == s.isOpen
  {
  }

  /** Submitting on PRICE sends the current values once, starts loading and stays on PRICE. */
  lemma SubmitAtPrice(s: State)
    requires s.step == PRICE
    ensures AfterSubmit(s).isLoading
    ensures AfterSubmit(s).posted == s.posted + [s.values]
    ensures AfterSubmit(s).pending == s.pending + 1
    ensures AfterSubmit(s).step == PRICE && AfterSubmit(s).values == s.values
    ensures AfterSubmit(s).isOpen == s.isOpen
  {
  }

  /** A successful creation brings the form back to the state it was mounted in, closed. */
  lemma SuccessResetsWizard(s: State)
    requires s.pending > 0
    ensures var t := AfterComplete(s, true);
      t.step == CATEGORY && t.values == Initial(false).values && !t.isOpen && !t.isLoading
    ensures var t := AfterComplete(s, true);
      t.posted == s.posted && t.pending == s.pending - 1
  {
  }

  /** A failed creation leaves the step and the values as they are, and ends loading. */
  lemma FailureKeepsForm(s: State)
    requires s.pending > 0
    ensures var t := AfterComplete(s, false);
      t.step == s.step && t.values == s.values && t.isOpen == s.isOpen && !t.isLoading
  {
  }

  /** Back undoes a Submit that only advanced. */
  lemma BackUndoesAdvance(s: State)
    requires s.step != PRICE
    ensures AfterBack(AfterSubmit(s)) == s
  {
  }

  /** On a valid state where Back is offered, Submit undoes it. */
  lemma SubmitUndoesBack(s: State)
    requires Invariant(s) && BackWired(s.step)
    ensures AfterSubmit(AfterBack(s)) == s
  {
  }

  /** What the user and the network can do to the wizard. */
  datatype Event =
    | Submit                     // primary button, after the form validated
    | Back                       // secondary button
    | Complete(success: bool)    // one listing request settles
    | Edit(id: string, v: Value) // a widget calls setCustomValue

  /**
    Whether the rendered modal can deliver the event: Back only when `onBack`
    is wired as the secondary action, a completion only while a request is out.
   */
  predicate Enabled(s: State, e: Event): (enabled: bool)
    ensures e.Back? ==> (enabled <==> SecondaryActionLabel(s.step).Some?)
    ensures e.Complete? ==> (enabled <==> s.pending > 0)
  {
    match e
    case Submit => true
    case Back => BackWired(s.step)
    case Complete(_) => s.pending > 0
    case Edit(_, _) => true
  }

  /**
    The handler's effect, with no check of its own. Only a submit on PRICE
    sends anything, and only a successful completion or a step move changes
    the step.
   */
  function Apply(s: State, e: Event): (t: State)
    ensures t.posted == s.posted || (e.Submit? && s.step == PRICE && t.posted == s.posted + [s.values])
    ensures e.Edit? ==> t.step == s.step && e.id in t.values && t.values[e.id] == e.v
  {
    match e
    case Submit => AfterSubmit(s)
    case Back => AfterBack(s)
    case Complete(success) => if s.pending > 0 then AfterComplete(s, success) else s
    case Edit(id, v) => s.(values := WithField(s.values, id, v))
  }

  function Run(s: State, events: seq<Event>): State
    decreases |events|
  {
    if events == [] then s else Run(Apply(s, events[0]), events[1..])
  }

  /** Every event of the run is enabled when it happens. */
  predicate Allowed(s: State, events: seq<Event>)
    decreases |events|
  {
    events == [] || (Enabled(s, events[0]) && Allowed(Apply(s, events[0]), events[1..]))
  }

  /** One enabled event keeps the invariant. */
  lemma ApplyKeepsInvariant(s: State, e: Event)
    requires Invariant(s) && Enabled(s, e)
    ensures Invariant(Apply(s, e))
  {
  }

  /** Every run of enabled events keeps the invariant. */
  lemma {:induction false} RunKeepsInvariant(s: State, events: seq<Event>)
    requires Invariant(s) && Allowed(s, events)
    ensures Invariant(Run(s, events))
    decreases |events|
  {
    if events != [] {
      ApplyKeepsInvariant(s, events[0]);
      RunKeepsInvariant(Apply(s, events[0]), events[1..]);
    }
  }

  /** From mounting on, the step stays within CATEGORY..PRICE whatever the user does. */
  lemma {:induction false} ReachableStepInRange(isOpen: bool, events: seq<Event>)
    requires Allowed(Initial(isOpen), events)
    ensures CATEGORY <= Run(Initial(isOpen), events).step <= PRICE
  {
    RunKeepsInvariant(Initial(isOpen), events);
  }

  /** Without the wiring, Back on the first step would leave the range. */
  lemma UnwiredBackLeavesRange(isOpen: bool)
    ensures !Allowed(Initial(isOpen), [Back])
    ensures Run(Initial(isOpen), [Back]).step == CATEGORY - 1
  {
  }

  /** Without the guard in `onSubmit`, `onNext` on the last step would leave the range. */
  lemma UnguardedNextLeavesRange(s: State)
    requires s.step == PRICE
    ensures !IsStep(AfterNext(s).step)
  {
  }
}
