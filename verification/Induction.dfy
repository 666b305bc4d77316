/** A property of the stages of a run, given what each stage says about the next. */
module Induction {

  /** If each stage where the property holds hands it on exactly when the step is sound, the property
      holds at every stage exactly when all steps are sound. */
  lemma {:induction false} HoldsThroughoutIff(holds: nat -> bool, sound: nat -> bool, n: nat)
    requires holds(0)
    requires forall i | 0 <= i < n && holds(i) :: holds(i + 1) <==> sound(i)
    ensures (forall i | 0 <= i <= n :: holds(i)) <==> (forall i | 0 <= i < n :: sound(i))
  {
    if n > 0 {
      HoldsThroughoutIff(holds, sound, n - 1);
      assert holds(n - 1) ==> (holds(n) <==> sound(n - 1));
    }
  }
}
