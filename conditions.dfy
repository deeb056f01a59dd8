/**
 * FlowCondition: a boolean predicate that is re-evaluated on every call, and
 * the short-circuit conjunction that FlowAction computes over a list of them.
 *
 * In the engine a condition is a closure over variables of the caller; here
 * that captured state is an explicit argument of type `S`.
 */
module Conditions {

  /** A FlowCondition: nothing is cached, every check applies the predicate anew. */
  type Condition<-S> = S -> bool

  /** FlowCondition.IsSatisfied: invoke the wrapped predicate. */
  function IsSatisfied<S>(c: Condition<S>, s: S): (r: bool)
    ensures r <==> AllHold([c], s)
  {
    assert [c][0] == c;
    c(s)
  }

  /** The conjunction of a condition list in state `s`; the empty list holds. */
  predicate AllHold<S>(conds: seq<Condition<S>>, s: S)
  {
    forall i | 0 <= i < |conds| :: conds[i](s)
  }

  /**
   * The `foreach` loop shared by CanExecute, CanContinue and UntilSatisfied:
   * check the conditions in order and return false at the first one that
   * fails. `evaluated` counts the predicates that were invoked, so the
   * contract also says that none after the first failing one is evaluated.
   */
  method Evaluate<S>(conds: seq<Condition<S>>, s: S) returns (ok: bool, evaluated: nat)
    ensures ok <==> AllHold(conds, s)
    ensures evaluated <= |conds|
    ensures ok ==> evaluated == |conds|
    ensures !ok ==> 0 < evaluated && !conds[evaluated - 1](s)
    ensures forall i :: 0 <= i < evaluated - 1 ==> conds[i](s)
  {
    evaluated := 0;
    while evaluated < |conds|
      invariant evaluated <= |conds|
      invariant forall i :: 0 <= i < evaluated ==> conds[i](s)
    {
      var holds := IsSatisfied(conds[evaluated], s);
      evaluated := evaluated + 1;
      if !holds {
        return false, evaluated;
      }
    }
    return true, evaluated;
  }

  /** A one-element list holds exactly when its condition does. */
  lemma AllHoldOne<S>(c: Condition<S>)
    ensures forall s :: AllHold([c], s) <==> c(s)
  {
    forall s
      ensures AllHold([c], s) <==> c(s)
    {
      assert [c][0] == c;
    }
  }
}
