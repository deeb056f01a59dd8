/**
 * FlowAction: one step of a flow. It holds three condition lists (execute,
 * continue, until), the user action, a per-step completion hook that is
 * stored but never invoked, and the `IsExecuted` flag.
 */
module Actions {
  import opened Wrappers
  import opened Conditions

  /** The value of a FlowAction's fields. */
  datatype Step<!S> = Step(
    executeConditions: seq<Condition<S>>,
    continueConditions: seq<Condition<S>>,
    untilConditions: seq<Condition<S>>,
    body: Option<S -> S>,
    completion: Option<S -> S>,
    executed: bool)

  /** Two steps agree on everything but their `executed` flag. */
  ghost predicate SameConfig<S>(a: Step<S>, b: Step<S>)
  {
    a.(executed := false) == b.(executed := false)
  }

  /** `action?.Invoke()`: a null delegate does nothing. */
  function Fire<S>(action: Option<S -> S>, s: S): (r: S)
    ensures action.None? ==> r == s
    ensures action.Some? ==> r == action.value(s)
  {
    match action
    case Some(f) => f(s)
    case None => s
  }

  /** A freshly constructed FlowAction. */
  function NewStep<S>(body: Option<S -> S>): (st: Step<S>)
    ensures st.body == body && !st.executed
    ensures st.executeConditions == st.continueConditions == st.untilConditions == []
  {
    Step([], [], [], body, None, false)
  }

  /** True when the continue fast path of FlowAction.Execute is taken. */
  predicate ContinueGate<S>(st: Step<S>, s: S): (r: bool)
    ensures st.continueConditions == [] ==> !r
    ensures r <==> st.continueConditions != [] && forall i :: 0 <= i < |st.continueConditions| ==> st.continueConditions[i](s)
  {
    AllHold(st.continueConditions, s) && |st.continueConditions| > 0
  }

  /**
   * FlowAction.Execute: the step value and the user state after one call.
   * The body runs at most once, and only when the fast path is not taken and
   * every execute condition holds; afterwards the step is executed exactly
   * when every until condition holds in the new state (so always, when the
   * until list is empty). The assignment of the fast path is always
   * overwritten by the final one.
   */
  function ExecuteStep<S>(st: Step<S>, s: S): (r: (Step<S>, S))
    ensures SameConfig(r.0, st)
    ensures r.0.executed <==> AllHold(st.untilConditions, r.1)
    ensures r.1 == s || (st.body.Some? && r.1 == st.body.value(s))
    ensures r.1 != s ==> !ContinueGate(st, s) && AllHold(st.executeConditions, s)
  {
    var s1 :=
      if ContinueGate(st, s) then s
      else if AllHold(st.executeConditions, s) then Fire(st.body, s)
      else s;
    (st.(executed := if |st.untilConditions| > 0 then AllHold(st.untilConditions, s1) else true), s1)
  }

  /**
   * With an empty continue list the fast path is dead: the body runs exactly
   * when every execute condition holds.
   */
  lemma ExecuteWithoutContinue<S>(st: Step<S>, s: S)
    requires st.continueConditions == []
    ensures ExecuteStep(st, s).1 == if AllHold(st.executeConditions, s) then Fire(st.body, s) else s
  {
  }

  /**
   * A step whose execute conditions fail and that has no until conditions
   * is marked executed without running its body.
   */
  lemma SkippedStepFinishes<S>(st: Step<S>, s: S)
    requires st.continueConditions == [] && st.untilConditions == []
    requires !AllHold(st.executeConditions, s)
    ensures ExecuteStep(st, s) == (st.(executed := true), s)
  {
  }

  class FlowAction<S> {
    var executeConditions: seq<Condition<S>>
    var continueConditions: seq<Condition<S>>
    var untilConditions: seq<Condition<S>>
    var executeAction: Option<S -> S>
    var completionAction: Option<S -> S>
    var isExecuted: bool

    ghost function Model(): Step<S>
      reads this
    {
      Step(executeConditions, continueConditions, untilConditions,
           executeAction, completionAction, isExecuted)
    }

    constructor (execute: Option<S -> S>)
      ensures Model() == NewStep(execute)
    {
      executeConditions := [];
      continueConditions := [];
      untilConditions := [];
      executeAction := execute;
      completionAction := None;
      isExecuted := false;
    }

    /** One call of the step: see ExecuteStep. */
    method Execute(s: S) returns (s': S)
      modifies this
      ensures (Model(), s') == ExecuteStep(old(Model()), s)
    {
      s' := s;
      var canContinue := CanContinue(s);
      if canContinue && |continueConditions| > 0 {
        isExecuted := true;
      } else {
        var canExecute := CanExecute(s);
        if canExecute {
          s' := Fire(executeAction, s);
        }
      }
      if |untilConditions| > 0 {
        isExecuted := UntilSatisfied(s');
      } else {
        isExecuted := true;
      }
    }

    method CanExecute(s: S) returns (r: bool)
      ensures r <==> forall i :: 0 <= i < |executeConditions| ==> executeConditions[i](s)
    {
      var evaluated;
      r, evaluated := Evaluate(executeConditions, s);
    }

    method CanContinue(s: S) returns (r: bool)
      ensures r <==> forall i :: 0 <= i < |continueConditions| ==> continueConditions[i](s)
    {
      var evaluated;
      r, evaluated := Evaluate(continueConditions, s);
    }

    method UntilSatisfied(s: S) returns (r: bool)
      ensures r <==> forall i :: 0 <= i < |untilConditions| ==> untilConditions[i](s)
    {
      var evaluated;
      r, evaluated := Evaluate(untilConditions, s);
    }

    method AddExecuteCondition(c: Condition<S>)
      modifies this
      ensures Model() == old(Model()).(executeConditions := old(executeConditions) + [c])
    {
      executeConditions := executeConditions + [c];
    }

    /** As written, the condition goes into the execute list, not the continue list. */
    method AddContinueCondition(c: Condition<S>)
      modifies this
      ensures Model() == old(Model()).(executeConditions := old(executeConditions) + [c])
      ensures continueConditions == old(continueConditions)
    {
      executeConditions := executeConditions + [c];
    }

    method AddUntilCondition(c: Condition<S>)
      modifies this
      ensures Model() == old(Model()).(untilConditions := old(untilConditions) + [c])
    {
      untilConditions := untilConditions + [c];
    }

    /** Stores the per-step completion hook; nothing in the engine ever invokes it. */
    method SetOnCompletion(completion: Option<S -> S>)
      modifies this
      ensures Model() == old(Model()).(completion := completion)
    {
      completionAction := completion;
    }
  }
}
