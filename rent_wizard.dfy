/**
  The rent modal component as an object whose handlers update its state in place.

  Each handler is a method over the component's fields. The postconditions of
  `SetCustomValue`, `OnBack`, `OnSubmit` and `Complete` equate the new state with
  `Apply` of module RentModal for the matching event, so every property proved
  there about runs of enabled events holds of every sequence of calls to those
  four. `OnNext` has no event of its own: the component reaches it only from
  `OnSubmit`, in the branch where the step is not PRICE, and its contract says
  the invariant survives only there.
 */
module RentWizard {
  import opened RentModal

  class RentWizard {
    var step: int
    var isLoading: bool
    var values: map<string, Value>
    var isOpen: bool
    var pending: nat
    var posted: seq<map<string, Value>>

    /** The component's state as a value. */
    function Snapshot(): State
      reads this
    {
      State(step, isLoading, values, isOpen, pending, posted)
    }

    predicate Valid()
      reads this
    {
      Invariant(Snapshot())
    }

    /** Mounting: step CATEGORY, not loading, every field at its default. */
    constructor (isOpen: bool)
      ensures Valid()
      ensures Snapshot() == Initial(isOpen)
      ensures step == CATEGORY && !isLoading && values == Defaults()
    {
      step := CATEGORY;
      isLoading := false;
      values := Defaults();
      this.isOpen := isOpen;
      pending := 0;
      posted := [];
    }

    /** `setCustomValue`: sets one field and leaves every other field as it was. */
    method SetCustomValue(id: string, v: Value)
      requires Valid()
      modifies this
      ensures Valid()
      ensures Snapshot() == Apply(old(Snapshot()), Edit(id, v))
      ensures values == WithField(old(values), id, v) && step == old(step)
    {
      values := values[id := v];
    }

    /** `onNext`: one step forward; it checks nothing itself. */
    method OnNext()
      modifies this
      ensures Snapshot() == AfterNext(old(Snapshot()))
      ensures step == old(step) + 1
      ensures old(Valid()) && old(step) != PRICE ==> Valid()
    {
      step := step + 1;
    }

    /** `onBack`, which the modal can call only when it is wired as the secondary action. */
    method OnBack()
      requires Valid() && BackWired(step)
      modifies this
      ensures Valid()
      ensures Snapshot() == Apply(old(Snapshot()), Back)
      ensures step == old(step) - 1
    {
      step := step - 1;
    }

    /**
      `handleSubmit(onSubmit)` once validation has passed: before PRICE it only
      advances; on PRICE it starts loading and sends the current values.
     */
    method OnSubmit()
      requires Valid()
      modifies this
      ensures Valid()
      ensures Snapshot() == Apply(old(Snapshot()), Submit)
      ensures old(step) != PRICE ==> step == old(step) + 1 && posted == old(posted)
      ensures old(step) == PRICE ==> isLoading && posted == old(posted) + [old(values)]
    {
      if step != PRICE {
        OnNext();
        return;
      }
      isLoading := true;
      pending := pending + 1;
      posted := posted + [values];
    }

    /**
      The request started by `onSubmit` settles: `then` on success (reset the
      form, back to CATEGORY, close the modal), `catch` on failure, and
      `finally` in both cases (loading ends).
     */
    method Complete(success: bool)
      requires Valid() && pending > 0
      modifies this
      ensures Valid()
      ensures Snapshot() == Apply(old(Snapshot()), RentModal.Complete(success))
      ensures !isLoading
      ensures success ==> step == CATEGORY && values == Defaults() && !isOpen
      ensures !success ==> step == old(step) && values == old(values) && isOpen == old(isOpen)
    {
      pending := pending - 1;
      if success {
        values := Defaults();
        step := CATEGORY;
        isOpen := false;
      }
      isLoading := false;
    }
  }
}
