/**
 * The value of a Flow and the effect of one tick of Flow.Execute, as pure
 * functions, with the properties the engine promises proved about them.
 * The Flow class (module Flows) is proved to follow these functions.
 */
module FlowSpec {
  import opened Wrappers
  import opened Conditions
  import opened Actions

  /** `m_Actions[m_Actions.Count - 1]` on a flow without steps: index out of range. */
  datatype BuildError = NoStep

  /** The default loop condition: always satisfied, so one pass completes the flow. */
  function Always<S>(s: S): (r: bool)
    ensures r
  {
    true
  }

  /**
   * The fields of a Flow. `cursor` is the index of `m_CurrentAction` in the
   * step list (meaningless while the list is empty and `m_CurrentAction` is
   * null).
   */
  datatype FlowState<!S> = FlowState(
    steps: seq<Step<S>>,
    cursor: nat,
    onComplete: Option<S -> S>,
    loopCondition: Condition<S>,
    completed: bool)
  {
    /** There is a current step: Execute dereferences it. */
    predicate WellFormed()
    {
      cursor < |steps|
    }

    function Current(): Step<S>
      requires WellFormed()
    {
      steps[cursor]
    }

    function Last(): Step<S>
      requires steps != []
    {
      steps[|steps| - 1]
    }

    /**
     * What every reachable flow satisfies: a current step exists once a step
     * was added; the steps before the cursor are executed and those after it
     * are not; a running flow's current step is pending; and no continue
     * condition is ever stored.
     */
    predicate Inv()
    {
      && (steps == [] ==> cursor == 0 && !completed)
      && (steps != [] ==> cursor < |steps|)
      && (forall i :: 0 <= i < cursor && i < |steps| ==> steps[i].executed)
      && (forall i :: cursor < i < |steps| ==> !steps[i].executed)
      && (steps != [] && cursor < |steps| && !completed ==> !steps[cursor].executed)
      && (forall i :: 0 <= i < |steps| ==> steps[i].continueConditions == [])
    }

    /** Flow.Do: append one new step; the cursor is set by the first Do and kept after. */
    function Do(body: Option<S -> S>): (r: FlowState<S>)
      ensures |r.steps| == |steps| + 1 && r.steps[..|steps|] == steps
      ensures r.steps[|steps|] == NewStep(body)
      ensures r.(steps := steps) == this
      ensures Inv() ==> r.Inv() && r.WellFormed()
    {
      this.(steps := steps + [NewStep(body)])
    }

    /** Replace the last step, failing on an empty flow. */
    function WithLast(st: Step<S>): (r: Result<FlowState<S>, BuildError>)
      ensures r.Failure? <==> steps == []
      ensures r.Success? ==> |r.value.steps| == |steps| && r.value.(steps := steps) == this
      ensures r.Success? ==> r.value.steps[..|steps| - 1] == steps[..|steps| - 1]
      ensures r.Success? ==> r.value.Last() == st
      ensures r.Success? && Inv() && st.executed == Last().executed && st.continueConditions == [] ==>
                r.value.Inv()
    {
      if steps == [] then Failure(NoStep) else Success(this.(steps := steps[|steps| - 1 := st]))
    }

    /** WithLast on a flow with steps, as a plain update of the last step. */
    lemma WithLastUpdates(st: Step<S>)
      requires steps != []
      ensures WithLast(st) == Success(this.(steps := steps[|steps| - 1 := st]))
    {
    }

    /** Flow.Until: add an until condition to the last step. */
    function Until(c: Condition<S>): (r: Result<FlowState<S>, BuildError>)
      ensures r.Failure? <==> steps == []
      ensures r.Success? ==> |r.value.steps| == |steps| && r.value.(steps := steps) == this
      ensures r.Success? ==> r.value.Last().untilConditions == Last().untilConditions + [c]
      ensures Inv() && r.Success? ==> r.value.Inv()
    {
      if steps == [] then Failure(NoStep)
      else WithLast(Last().(untilConditions := Last().untilConditions + [c]))
    }

    /** Flow.When: add an execute condition to the last step. */
    function When(c: Condition<S>): (r: Result<FlowState<S>, BuildError>)
      ensures r.Failure? <==> steps == []
      ensures r.Success? ==> |r.value.steps| == |steps| && r.value.(steps := steps) == this
      ensures r.Success? ==> r.value.Last().executeConditions == Last().executeConditions + [c]
      ensures Inv() && r.Success? ==> r.value.Inv()
    {
      if steps == [] then Failure(NoStep)
      else WithLast(Last().(executeConditions := Last().executeConditions + [c]))
    }

    /**
     * Flow.ContinueWhen, as written: AddContinueCondition stores the
     * condition in the execute list, so the continue list stays empty.
     */
    function ContinueWhen(c: Condition<S>): (r: Result<FlowState<S>, BuildError>)
      ensures r.Failure? <==> steps == []
      ensures r.Success? ==> |r.value.steps| == |steps| && r.value.(steps := steps) == this
      ensures r.Success? ==> r.value.Last().executeConditions == Last().executeConditions + [c]
      ensures Inv() && r.Success? ==> r.value.Inv()
    {
      if steps == [] then Failure(NoStep)
      else WithLast(Last().(executeConditions := Last().executeConditions + [c]))
    }

    /** Flow.OnActionCompletion: store a completion hook on the last step. */
    function OnActionCompletion(h: Option<S -> S>): (r: Result<FlowState<S>, BuildError>)
      ensures r.Failure? <==> steps == []
      ensures r.Success? ==> |r.value.steps| == |steps| && r.value.(steps := steps) == this
      ensures r.Success? ==> r.value.Last().completion == h
      ensures Inv() && r.Success? ==> r.value.Inv()
    {
      if steps == [] then Failure(NoStep) else WithLast(Last().(completion := h))
    }

    /** Flow.DoUntil: Do followed by Until, which cannot fail after a Do. */
    function DoUntil(body: Option<S -> S>, c: Condition<S>): (r: FlowState<S>)
      ensures Do(body).Until(c) == Success(r)
      ensures r == this.(steps := steps + [NewStep(body).(untilConditions := [c])])
      ensures Inv() ==> r.Inv() && r.WellFormed()
    {
      var g := Do(body);
      var st := g.Last().(untilConditions := g.Last().untilConditions + [c]);
      assert st == NewStep(body).(untilConditions := [c]);
      assert g.Until(c) == g.WithLast(st);
      assert g.steps[|steps| := st] == steps + [st];
      assert g.WithLast(st).value == this.(steps := steps + [st]);
      g.Until(c).value
    }

    /** Flow.DoWhen: Do followed by When, which cannot fail after a Do. */
    function DoWhen(body: Option<S -> S>, c: Condition<S>): (r: FlowState<S>)
      ensures Do(body).When(c) == Success(r)
      ensures r == this.(steps := steps + [NewStep(body).(executeConditions := [c])])
      ensures Inv() ==> r.Inv() && r.WellFormed()
    {
      var g := Do(body);
      var st := g.Last().(executeConditions := g.Last().executeConditions + [c]);
      assert st == NewStep(body).(executeConditions := [c]);
      assert g.When(c) == g.WithLast(st);
      assert g.steps[|steps| := st] == steps + [st];
      assert g.WithLast(st).value == this.(steps := steps + [st]);
      g.When(c).value
    }
  }

  /**
   * Until, When, ContinueWhen and OnActionCompletion touch only the last
   * step, and on it only the list or hook they attach to.
   */
  lemma LastStepBuilders<S>(f: FlowState<S>, c: Condition<S>, h: Option<S -> S>)
    requires f.steps != []
    ensures f.Until(c).value.steps[..|f.steps| - 1] == f.steps[..|f.steps| - 1]
    ensures f.Until(c).value.Last().(untilConditions := f.Last().untilConditions) == f.Last()
    ensures f.When(c).value.steps[..|f.steps| - 1] == f.steps[..|f.steps| - 1]
    ensures f.When(c).value.Last().(executeConditions := f.Last().executeConditions) == f.Last()
    ensures f.ContinueWhen(c).value.steps[..|f.steps| - 1] == f.steps[..|f.steps| - 1]
    ensures f.ContinueWhen(c).value.Last().(executeConditions := f.Last().executeConditions) == f.Last()
    ensures f.OnActionCompletion(h).value.steps[..|f.steps| - 1] == f.steps[..|f.steps| - 1]
    ensures f.OnActionCompletion(h).value.Last().(completion := f.Last().completion) == f.Last()
  {
  }

  /** `new Flow()`: no steps, no current step, the default loop condition. */
  function NewFlow<S>(): (f: FlowState<S>)
    ensures f.Inv() && f.steps == [] && !f.completed
    ensures f.onComplete == None && f.loopCondition == Always
  {
    FlowState([], 0, None, Always, false)
  }

  /** Every flag cleared, as `_Reset` does. */
  function ResetSteps<S>(steps: seq<Step<S>>): (r: seq<Step<S>>)
    ensures |r| == |steps|
    ensures forall i :: 0 <= i < |r| ==> !r[i].executed && SameConfig(r[i], steps[i])
  {
    if steps == [] then [] else [steps[0].(executed := false)] + ResetSteps(steps[1..])
  }

  /** Lines 131-132 of Flow.Execute: run the current step if it is not executed. */
  function RunCurrent<S>(f: FlowState<S>, s: S): (r: (FlowState<S>, S))
    requires f.WellFormed()
    ensures r.0.WellFormed() && r.0.(steps := f.steps) == f
    ensures |r.0.steps| == |f.steps|
    ensures forall i :: 0 <= i < |f.steps| && i != f.cursor ==> r.0.steps[i] == f.steps[i]
  {
    if f.Current().executed then (f, s)
    else
      var (st, s1) := ExecuteStep(f.Current(), s);
      (f.(steps := f.steps[f.cursor := st]), s1)
  }

  /** Lines 134-136 of Flow.Execute: move past an executed step that is not the last. */
  function StepForward<S>(f: FlowState<S>): (r: FlowState<S>)
    requires f.WellFormed()
    ensures r.WellFormed() && r.(cursor := f.cursor) == f
  {
    if f.Current().executed && f.cursor != |f.steps| - 1 then f.(cursor := f.cursor + 1) else f
  }

  /**
   * Lines 138-150 of Flow.Execute: on an executed last step, complete when
   * the loop condition holds (after running the completion callback), else
   * rewind to the first step and reset every flag.
   */
  function CompleteOrRewind<S>(f: FlowState<S>, s: S): (r: (FlowState<S>, S))
    requires f.WellFormed()
    ensures r.0.WellFormed() && |r.0.steps| == |f.steps|
  {
    if f.Current().executed && f.cursor == |f.steps| - 1 then
      if f.loopCondition(s) then (f.(completed := true), Fire(f.onComplete, s))
      else (f.(cursor := 0, steps := ResetSteps(f.steps)), s)
    else (f, s)
  }

  /** Lines 134-150 of Flow.Execute. */
  function Advance<S>(f: FlowState<S>, s: S): (r: (FlowState<S>, S))
    requires f.WellFormed()
    ensures r.0.WellFormed() && |r.0.steps| == |f.steps|
  {
    CompleteOrRewind(StepForward(f), s)
  }

  /** One call of Flow.Execute; a completed flow does nothing. */
  function Tick<S>(f: FlowState<S>, s: S): (r: (FlowState<S>, S))
    requires f.WellFormed()
    ensures r.0.WellFormed() && |r.0.steps| == |f.steps|
  {
    if f.completed then (f, s)
    else
      var t := RunCurrent(f, s);
      Advance(t.0, t.1)
  }

  /** `n` successive calls of Flow.Execute. */
  function Run<S>(f: FlowState<S>, s: S, n: nat): (r: (FlowState<S>, S))
    requires f.WellFormed()
    ensures r.0.WellFormed() && |r.0.steps| == |f.steps|
    decreases n
  {
    if n == 0 then (f, s)
    else
      var t := Tick(f, s);
      Run(t.0, t.1, n - 1)
  }

  /** Every tick keeps the flow's invariant. */
  lemma TickPreservesInv<S>(f: FlowState<S>, s: S)
    requires f.Inv() && f.WellFormed()
    ensures Tick(f, s).0.Inv()
  {
    if !f.completed {
      var (f1, s1) := RunCurrent(f, s);
      assert f1.Inv() || f1.Current().executed;
    }
  }

  /**
   * What one tick of a running flow does, case by case, with `st` and `s1`
   * the current step and the state after FlowAction.Execute:
   *  - the step is still pending: nothing but the state changes;
   *  - it finished and is not the last: the cursor moves forward by one;
   *  - it finished, is the last and the loop condition holds in `s1`: the
   *    flow completes and the completion callback runs on `s1`;
   *  - it finished, is the last and the loop condition fails: the cursor
   *    returns to 0 and every flag is cleared.
   * No step's conditions or actions change.
   */
  lemma TickProgress<S>(f: FlowState<S>, s: S)
    requires f.Inv() && f.WellFormed() && !f.completed
    ensures var st := ExecuteStep(f.Current(), s).0; var s1 := ExecuteStep(f.Current(), s).1;
      var g := Tick(f, s).0; var last := f.cursor == |f.steps| - 1;
      && (forall i :: 0 <= i < |f.steps| ==> SameConfig(g.steps[i], f.steps[i]))
      && (!st.executed ==> g == f && Tick(f, s).1 == s1)
      && (st.executed && !last ==>
            g == f.(cursor := f.cursor + 1, steps := f.steps[f.cursor := st]) && Tick(f, s).1 == s1)
      && (st.executed && last && f.loopCondition(s1) ==>
            g == f.(completed := true, steps := f.steps[f.cursor := st]) && Tick(f, s).1 == Fire(f.onComplete, s1))
      && (st.executed && last && !f.loopCondition(s1) ==>
            g == f.(cursor := 0, steps := ResetSteps(f.steps[f.cursor := st])) && Tick(f, s).1 == s1)
  {
    var st := ExecuteStep(f.Current(), s).0;
    if !st.executed {
      assert st == f.Current();
      assert f.steps[f.cursor := st] == f.steps;
    }
  }

  /** The rewind of lines 145-149: a finished last step and a failing loop condition start the next pass. */
  lemma TickRewinds<S>(f: FlowState<S>, s: S)
    requires f.Inv() && f.WellFormed() && !f.completed && f.cursor == |f.steps| - 1
    requires ExecuteStep(f.Current(), s).0.executed && !f.loopCondition(ExecuteStep(f.Current(), s).1)
    ensures Tick(f, s).0.cursor == 0 && !Tick(f, s).0.completed
    ensures forall i :: 0 <= i < |f.steps| ==>
      !Tick(f, s).0.steps[i].executed && SameConfig(Tick(f, s).0.steps[i], f.steps[i])
    ensures Tick(f, s).1 == ExecuteStep(f.Current(), s).1
  {
    TickProgress(f, s);
  }

  /**
   * A tick completes a running flow exactly when its current step is the
   * last, that step becomes executed, and the loop condition holds in the
   * state the step leaves; the completion callback then runs on that state.
   */
  lemma TickCompletes<S>(f: FlowState<S>, s: S)
    requires f.Inv() && f.WellFormed() && !f.completed
    ensures var (st, s1) := ExecuteStep(f.Current(), s);
      && (Tick(f, s).0.completed <==> f.cursor == |f.steps| - 1 && st.executed && f.loopCondition(s1))
      && (Tick(f, s).0.completed ==> Tick(f, s).1 == Fire(f.onComplete, s1))
  {
    var (st, s1) := ExecuteStep(f.Current(), s);
    if st.executed && f.cursor != |f.steps| - 1 {
      assert !f.steps[f.cursor + 1].executed;
    }
  }

  /** Since no continue condition is ever stored, the continue fast path never fires. */
  lemma ContinueWhenIsWhen<S>(f: FlowState<S>, c: Condition<S>)
    ensures f.ContinueWhen(c) == f.When(c)
  {
  }

  /** One more tick after `n` ticks. */
  lemma {:induction false} RunSnoc<S>(f: FlowState<S>, s: S, n: nat)
    requires f.WellFormed()
    ensures Run(f, s, n + 1) == Tick(Run(f, s, n).0, Run(f, s, n).1)
    decreases n
  {
    if n > 0 {
      var t := Tick(f, s);
      RunSnoc(t.0, t.1, n - 1);
    }
  }

  /** Ticking `a` then `b` times is ticking `a + b` times: the run goes on from where `a` ticks left it. */
  lemma {:induction false} RunAdditive<S>(f: FlowState<S>, s: S, a: nat, b: nat, g: FlowState<S>, x: S)
    requires f.WellFormed() && g == Run(f, s, a).0 && x == Run(f, s, a).1
    ensures Run(f, s, a + b) == Run(g, x, b)
    decreases a
  {
    if a > 0 {
      var t := Tick(f, s);
      RunFirst(f, s);
      RunAdditive(t.0, t.1, a - 1, b, g, x);
    }
  }

  /** Once completed, a flow stays completed and ticks change nothing. */
  lemma {:induction false} RunKeepsCompleted<S>(f: FlowState<S>, s: S, n: nat)
    requires f.WellFormed() && f.completed
    ensures Run(f, s, n) == (f, s)
    decreases n
  {
    if n > 0 {
      RunKeepsCompleted(f, s, n - 1);
    }
  }

  /** Ticking a flow that completed after `a` ticks any further changes nothing. */
  lemma RunStable<S>(f: FlowState<S>, s: S, a: nat, b: nat)
    requires f.WellFormed() && a <= b && Run(f, s, a).0.completed
    ensures Run(f, s, b) == Run(f, s, a)
  {
    var r := Run(f, s, a);
    RunAdditive(f, s, a, b - a, r.0, r.1);
    RunKeepsCompleted(r.0, r.1, b - a);
  }

  /** The invariant holds after any number of ticks. */
  lemma {:induction false} RunPreservesInv<S>(f: FlowState<S>, s: S, n: nat)
    requires f.Inv() && f.WellFormed()
    ensures Run(f, s, n).0.Inv()
    decreases n
  {
    if n > 0 {
      TickPreservesInv(f, s);
      var t := Tick(f, s);
      RunPreservesInv(t.0, t.1, n - 1);
    }
  }

  /** `k` successive applications of `g`. */
  function Iter<S>(g: S -> S, s: S, k: nat): S
    decreases k
  {
    if k == 0 then s else g(Iter(g, s, k - 1))
  }

  /** The flow with its current step's flag set. */
  function MarkCurrent<S>(f: FlowState<S>): (r: FlowState<S>)
    requires f.WellFormed()
    ensures r.WellFormed() && r.Current().executed
  {
    f.(steps := f.steps[f.cursor := f.Current().(executed := true)])
  }

  /**
   * While its until conditions fail, a pending step whose body is `g` runs
   * its body once per tick and nothing else changes: after `j` such ticks the
   * flow is as it was and the state is `g` applied `j` times.
   */
  lemma {:induction false} PendingStepRepeats<S>(f: FlowState<S>, s: S, g: S -> S, j: nat)
    requires f.Inv() && f.WellFormed() && !f.completed
    requires f.Current().body == Some(g)
    requires forall k :: 0 <= k < j ==> AllHold(f.Current().executeConditions, Iter(g, s, k))
    requires forall k :: 1 <= k <= j ==> !AllHold(f.Current().untilConditions, Iter(g, s, k))
    ensures Run(f, s, j) == (f, Iter(g, s, j))
    decreases j
  {
    if j > 0 {
      PendingStepRepeats(f, s, g, j - 1);
      RunSnoc(f, s, j - 1);
      var x := Iter(g, s, j - 1);
      assert AllHold(f.Current().executeConditions, x);
      assert Iter(g, s, j) == g(x);
      assert !AllHold(f.Current().untilConditions, g(x));
      assert f.steps[f.cursor := f.Current()] == f.steps;
    }
  }

  /** A pending step whose body runs and whose until conditions then hold finishes in this tick. */
  lemma PendingStepFinishes<S>(f: FlowState<S>, x: S, g: S -> S)
    requires f.Inv() && f.WellFormed() && !f.completed
    requires f.Current().body == Some(g)
    requires AllHold(f.Current().executeConditions, x)
    requires AllHold(f.Current().untilConditions, g(x))
    ensures Tick(f, x) == Advance(MarkCurrent(f), g(x))
  {
    assert ExecuteStep(f.Current(), x) == (f.Current().(executed := true), g(x));
    assert RunCurrent(f, x) == (MarkCurrent(f), g(x));
  }

  /**
   * DoUntil semantics: a step whose until conditions first hold after its
   * body ran `m` times finishes on the `m`-th tick, which then advances the
   * flow as lines 134-150 of Flow.Execute say.
   */
  lemma UntilPhase<S>(f: FlowState<S>, s: S, g: S -> S, m: nat)
    requires f.Inv() && f.WellFormed() && !f.completed && m >= 1
    requires f.Current().body == Some(g)
    requires forall k :: 0 <= k < m ==> AllHold(f.Current().executeConditions, Iter(g, s, k))
    requires forall k :: 1 <= k < m ==> !AllHold(f.Current().untilConditions, Iter(g, s, k))
    requires AllHold(f.Current().untilConditions, Iter(g, s, m))
    ensures Run(f, s, m) == Advance(MarkCurrent(f), Iter(g, s, m))
  {
    var x := Iter(g, s, m - 1);
    PendingStepRepeats(f, s, g, m - 1);
    assert Iter(g, s, m) == g(x);
    FinishAfterRepeats(f, s, g, m, x);
  }

  /** The tick after m - 1 repetitions runs the body once more and finishes the step. */
  lemma FinishAfterRepeats<S>(f: FlowState<S>, s: S, g: S -> S, m: nat, x: S)
    requires f.Inv() && f.WellFormed() && !f.completed && m >= 1
    requires f.Current().body == Some(g) && Run(f, s, m - 1) == (f, x)
    requires AllHold(f.Current().executeConditions, x)
    requires AllHold(f.Current().untilConditions, g(x))
    ensures Run(f, s, m) == Advance(MarkCurrent(f), g(x))
  {
    RunSnoc(f, s, m - 1);
    PendingStepFinishes(f, x, g);
  }

  /** UntilPhase on a step that is not the last: the cursor moves to the next step. */
  lemma UntilPhaseForward<S>(f: FlowState<S>, s: S, g: S -> S, m: nat)
    requires f.Inv() && f.WellFormed() && !f.completed && m >= 1
    requires f.cursor < |f.steps| - 1
    requires f.Current().body == Some(g)
    requires forall k :: 0 <= k < m ==> AllHold(f.Current().executeConditions, Iter(g, s, k))
    requires forall k :: 1 <= k < m ==> !AllHold(f.Current().untilConditions, Iter(g, s, k))
    requires AllHold(f.Current().untilConditions, Iter(g, s, m))
    ensures Run(f, s, m) == (MarkCurrent(f).(cursor := f.cursor + 1), Iter(g, s, m))
    ensures MarkCurrent(f).(cursor := f.cursor + 1).Inv()
  {
    UntilPhase(f, s, g, m);
    assert !f.steps[f.cursor + 1].executed;
  }

  /** UntilPhase on the last step: the flow completes when the loop condition holds. */
  lemma UntilPhaseLast<S>(f: FlowState<S>, s: S, g: S -> S, m: nat)
    requires f.Inv() && f.WellFormed() && !f.completed && m >= 1
    requires f.cursor == |f.steps| - 1
    requires f.Current().body == Some(g)
    requires forall k :: 0 <= k < m ==> AllHold(f.Current().executeConditions, Iter(g, s, k))
    requires forall k :: 1 <= k < m ==> !AllHold(f.Current().untilConditions, Iter(g, s, k))
    requires AllHold(f.Current().untilConditions, Iter(g, s, m))
    requires f.loopCondition(Iter(g, s, m))
    ensures Run(f, s, m).0.completed
    ensures Run(f, s, m).1 == Fire(f.onComplete, Iter(g, s, m))
  {
    UntilPhase(f, s, g, m);
  }

  /**
   * A last step without until conditions finishes in one tick, running its
   * body only if its execute conditions hold, and the flow then completes.
   */
  lemma GatedLastStep<S>(f: FlowState<S>, s: S)
    requires f.Inv() && f.WellFormed() && !f.completed
    requires f.cursor == |f.steps| - 1 && f.Current().untilConditions == []
    requires forall x :: f.loopCondition(x)
    ensures Tick(f, s).0.completed
    ensures Tick(f, s).1 ==
      Fire(f.onComplete, if AllHold(f.Current().executeConditions, s) then Fire(f.Current().body, s) else s)
  {
    ExecuteWithoutContinue(f.Current(), s);
  }

  /** A step without execute, continue or until conditions. */
  ghost predicate Plain<S>(st: Step<S>)
  {
    st.executeConditions == [] && st.continueConditions == [] && st.untilConditions == []
  }

  /** The step bodies applied once each, in list order. */
  function ApplyBodies<S>(steps: seq<Step<S>>, s: S): S
    decreases |steps|
  {
    if steps == [] then s else ApplyBodies(steps[1..], Fire(steps[0].body, s))
  }

  /** One tick on a pending step without conditions: it runs, then the flow moves on or completes. */
  lemma PlainTick<S>(f: FlowState<S>, s: S)
    requires f.Inv() && f.WellFormed() && !f.completed && Plain(f.Current())
    requires forall x :: f.loopCondition(x)
    ensures f.cursor < |f.steps| - 1 ==>
      Tick(f, s) == (MarkCurrent(f).(cursor := f.cursor + 1), Fire(f.Current().body, s))
    ensures f.cursor == |f.steps| - 1 ==>
      Tick(f, s) == (MarkCurrent(f).(completed := true), Fire(f.onComplete, Fire(f.Current().body, s)))
  {
    var st := f.Current();
    assert ExecuteStep(st, s) == (st.(executed := true), Fire(st.body, s));
    assert RunCurrent(f, s) == (MarkCurrent(f), Fire(st.body, s));
    if f.cursor < |f.steps| - 1 {
      assert !f.steps[f.cursor + 1].executed;
    }
  }

  /**
   * A flow of steps without conditions, whose loop condition always holds,
   * runs each remaining body exactly once and in order, one per tick, and
   * completes on the tick that runs the last one, not before; the completion
   * callback runs last.
   */
  lemma {:induction false} PlainPass<S>(f: FlowState<S>, s: S)
    requires f.Inv() && f.WellFormed() && !f.completed
    requires forall i :: 0 <= i < |f.steps| ==> Plain(f.steps[i])
    requires forall x :: f.loopCondition(x)
    ensures Run(f, s, |f.steps| - f.cursor).0.completed
    ensures Run(f, s, |f.steps| - f.cursor).1 == Fire(f.onComplete, ApplyBodies(f.steps[f.cursor..], s))
    ensures forall j :: 0 <= j < |f.steps| - f.cursor ==> !Run(f, s, j).0.completed
    decreases |f.steps| - f.cursor
  {
    PlainTick(f, s);
    if f.cursor == |f.steps| - 1 {
      PlainPassLast(f, s);
    } else {
      var f1 := MarkCurrent(f).(cursor := f.cursor + 1);
      var s1 := Fire(f.Current().body, s);
      TickPreservesInv(f, s);
      PlainPass(f1, s1);
      assert Tick(f, s) == (f1, s1);
      PlainPassNext(f, s, f1, s1);
    }
  }

  /** PlainPass when the current step is the last one. */
  lemma PlainPassLast<S>(f: FlowState<S>, s: S)
    requires f.Inv() && f.WellFormed() && !f.completed && f.cursor == |f.steps| - 1
    requires Plain(f.Current()) && forall x :: f.loopCondition(x)
    ensures Run(f, s, 1).0.completed
    ensures Run(f, s, 1).1 == Fire(f.onComplete, ApplyBodies(f.steps[f.cursor..], s))
    ensures !Run(f, s, 0).0.completed
  {
    PlainTick(f, s);
    assert f.steps[f.cursor..] == [f.Current()];
    assert ApplyBodies([f.Current()], s) == Fire(f.Current().body, s);
  }

  /** PlainPass for a pending step that is not the last one, from PlainPass on the flow after its tick. */
  lemma PlainPassNext<S>(f: FlowState<S>, s: S, f1: FlowState<S>, s1: S)
    requires f.WellFormed() && !f.completed && f.cursor < |f.steps| - 1
    requires f1 == Tick(f, s).0 && s1 == Tick(f, s).1 && f1.cursor == f.cursor + 1
    requires s1 == Fire(f.Current().body, s) && f1.onComplete == f.onComplete
    requires f1.steps[f1.cursor..] == f.steps[f.cursor + 1..]
    requires Run(f1, s1, |f1.steps| - f1.cursor).0.completed
    requires Run(f1, s1, |f1.steps| - f1.cursor).1 == Fire(f1.onComplete, ApplyBodies(f1.steps[f1.cursor..], s1))
    requires forall j :: 0 <= j < |f1.steps| - f1.cursor ==> !Run(f1, s1, j).0.completed
    ensures Run(f, s, |f.steps| - f.cursor).0.completed
    ensures Run(f, s, |f.steps| - f.cursor).1 == Fire(f.onComplete, ApplyBodies(f.steps[f.cursor..], s))
    ensures forall j :: 0 <= j < |f.steps| - f.cursor ==> !Run(f, s, j).0.completed
  {
    RunFirst(f, s);
    ApplyBodiesNext(f.steps, f.cursor, s);
  }

  /** The bodies from position i on are the body at i and then those after it. */
  lemma ApplyBodiesNext<S>(steps: seq<Step<S>>, i: nat, s: S)
    requires i < |steps|
    ensures ApplyBodies(steps[i..], s) == ApplyBodies(steps[i + 1..], Fire(steps[i].body, s))
  {
    assert steps[i..][1..] == steps[i + 1..];
  }

  /** Running n > 0 ticks is the first tick and then n - 1 more. */
  lemma RunFirst<S>(f: FlowState<S>, s: S)
    requires f.WellFormed()
    ensures forall j: nat :: j > 0 ==> Run(f, s, j) == Run(Tick(f, s).0, Tick(f, s).1, j - 1)
  {
  }
}
