/** Finite runs of a state machine, as the list of the actions taken, newest outermost. An
    action that is not enabled leaves the state alone, so every trace denotes a run. */
module Traces {
  datatype Trace<A> = Start | Then(before: Trace<A>, action: A)

  /** `longer` continues `t`. */
  predicate Extends<A(==)>(longer: Trace<A>, t: Trace<A>) {
    longer == t || (longer.Then? && Extends(longer.before, t))
  }

  /** A name no member of a finite set has. */
  lemma {:induction false} FreshNat(used: set<nat>) returns (unused: nat)
    ensures unused !in used && forall u | u in used :: u < unused
    decreases |used|
  {
    if used == {} {
      unused := 0;
    } else {
      var top :| top in used;
      var rest := FreshNat(used - {top});
      unused := if rest > top then rest else top + 1;
      forall u | u in used ensures u < unused {
        if u != top { assert u in used - {top}; }
      }
    }
  }
}
