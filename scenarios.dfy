/**
 * The engine's test scenarios that use only the operations of the Flow
 * class, with the shared number as the state (`S = int`). Each closure of a
 * test becomes a parameter pinned down by a `requires`, so that the flow
 * built in a lemma and the one built on a Flow object hold the same
 * functions.
 */
module Scenarios {
  import opened Wrappers
  import opened Conditions
  import opened Actions
  import opened FlowSpec
  import opened Flows

  /** Iterating `x + d` adds `d` each time. */
  lemma {:induction false} IterLinear(g: int -> int, d: int, s: int, k: nat)
    requires forall x :: g(x) == x + d
    ensures Iter(g, s, k) == s + k * d
    decreases k
  {
    if k > 0 {
      IterLinear(g, d, s, k - 1);
      assert Iter(g, s, k) == s + (k - 1) * d + d;
    }
  }

  /**
   * A pending counting step: its body adds `d`, it has no execute condition
   * and one until condition, which first holds after `m` ticks. Those `m`
   * ticks move the flow to the next step.
   */
  lemma CountingStepForward(f: FlowState<int>, s: int, g: int -> int, d: int, m: nat)
    requires f.Inv() && f.WellFormed() && !f.completed && m >= 1
    requires f.cursor < |f.steps| - 1
    requires f.Current().body == Some(g) && forall x :: g(x) == x + d
    requires f.Current().executeConditions == [] && |f.Current().untilConditions| == 1
    requires forall k :: 1 <= k < m ==> !f.Current().untilConditions[0](s + k * d)
    requires f.Current().untilConditions[0](s + m * d)
    ensures Run(f, s, m) == (MarkCurrent(f).(cursor := f.cursor + 1), s + m * d)
    ensures MarkCurrent(f).(cursor := f.cursor + 1).Inv()
  {
    var c := f.Current().untilConditions[0];
    assert f.Current().untilConditions == [c];
    AllHoldOne(c);
    forall k: nat
      ensures Iter(g, s, k) == s + k * d
    {
      IterLinear(g, d, s, k);
    }
    UntilPhaseForward(f, s, g, m);
  }

  /** The same on the last step: the flow completes when the loop condition holds. */
  lemma CountingStepLast(f: FlowState<int>, s: int, g: int -> int, d: int, m: nat)
    requires f.Inv() && f.WellFormed() && !f.completed && m >= 1
    requires f.cursor == |f.steps| - 1 && f.onComplete == None && f.loopCondition(s + m * d)
    requires f.Current().body == Some(g) && forall x :: g(x) == x + d
    requires f.Current().executeConditions == [] && |f.Current().untilConditions| == 1
    requires forall k :: 1 <= k < m ==> !f.Current().untilConditions[0](s + k * d)
    requires f.Current().untilConditions[0](s + m * d)
    ensures Run(f, s, m).0.completed && Run(f, s, m).1 == s + m * d
  {
    var c := f.Current().untilConditions[0];
    assert f.Current().untilConditions == [c];
    AllHoldOne(c);
    forall k: nat
      ensures Iter(g, s, k) == s + k * d
    {
      IterLinear(g, d, s, k);
    }
    UntilPhaseLast(f, s, g, m);
  }

  /** LogicFlowTest.cs:12-18: a single Do completes in one tick with its effect. */
  lemma BasicDo(assign: int -> int)
    requires forall x :: assign(x) == 10
    ensures var (f, n) := Run(NewFlow<int>().Do(Some(assign)), 0, 1); f.completed && n == 10
  {
    var f := NewFlow<int>().Do(Some(assign));
    PlainTick(f, 0);
  }

  /**
   * LoopUntil with a condition that fails twice: one plain step adding one,
   * repeated until the number is at least 3. The first two ticks rewind the
   * flow to its first step with the flag cleared; the third completes it.
   */
  lemma LoopUntilThree(inc: int -> int, atLeast: int -> bool)
    requires forall x :: inc(x) == x + 1
    requires forall x :: atLeast(x) <==> x >= 3
    ensures var f := NewFlow<int>().Do(Some(inc)).(loopCondition := atLeast);
      && Run(f, 0, 1) == (f, 1)
      && Run(f, 0, 2) == (f, 2)
      && Run(f, 0, 3) == (f.(completed := true, steps := [NewStep(Some(inc)).(executed := true)]), 3)
  {
    var f := NewFlow<int>().Do(Some(inc)).(loopCondition := atLeast);
    assert f.steps == [NewStep(Some(inc))];
    var done := f.(completed := true, steps := [NewStep(Some(inc)).(executed := true)]);
    forall x: int
      ensures Tick(f, x) == (if x + 1 >= 3 then (done, x + 1) else (f, x + 1))
    {
      TickProgress(f, x);
      assert ExecuteStep(f.Current(), x) == (NewStep(Some(inc)).(executed := true), x + 1);
      assert f.steps[0 := NewStep(Some(inc)).(executed := true)] == [NewStep(Some(inc)).(executed := true)];
      assert ResetSteps([NewStep(Some(inc)).(executed := true)]) == f.steps;
    }
    assert Run(f, 0, 1) == Run(f, 1, 0);
    assert Run(f, 0, 2) == Run(f, 1, 1) == Run(f, 2, 0);
    assert Run(f, 0, 3) == Run(f, 1, 2) == Run(f, 2, 1) == Run(done, 3, 0);
  }

  /** LogicFlowTest.cs:21-27: DoUntil(n++, n == 15) from 0 completes on tick 15 with n == 15. */
  lemma BasicDoUntil(inc: int -> int, done: int -> bool)
    requires forall x :: inc(x) == x + 1
    requires forall x :: done(x) <==> x == 15
    ensures var (f, n) := Run(NewFlow<int>().DoUntil(Some(inc), done), 0, 15); f.completed && n == 15
  {
    var f := NewFlow<int>().DoUntil(Some(inc), done);
    forall k: nat
      ensures Iter(inc, 0, k) == k
    {
      IterLinear(inc, 1, 0, k);
    }
    assert f.Current().untilConditions == [done];
    AllHoldOne(done);
    UntilPhase(f, 0, inc, 15);
  }

  /**
   * LogicFlowTest.cs:30-40: add 10 until the number reaches 100, then a step
   * gated on "at least 100" sets it to -1; the flow completes on tick 11.
   */
  lemma DoUntilThenDoWhen(add: int -> int, reached: int -> bool, reset: int -> int, gate: int -> bool)
    requires forall x :: add(x) == x + 10
    requires forall x :: reached(x) <==> x >= 100
    requires forall x :: reset(x) == -1
    requires forall x :: gate(x) <==> x >= 100
    ensures var (f, n) := Run(NewFlow<int>().DoUntil(Some(add), reached).DoWhen(Some(reset), gate), 0, 11);
      f.completed && n == -1
  {
    var f := NewFlow<int>().DoUntil(Some(add), reached).DoWhen(Some(reset), gate);
    forall k: nat
      ensures Iter(add, 0, k) == 10 * k
    {
      IterLinear(add, 10, 0, k);
    }
    assert f.Current().untilConditions == [reached];
    AllHoldOne(reached);
    UntilPhaseForward(f, 0, add, 10);
    var f1 := MarkCurrent(f).(cursor := 1);
    RunSnoc(f, 0, 10);
    assert f1.Current().executeConditions == [gate];
    AllHoldOne(gate);
    GatedLastStep(f1, 100);
  }

  /**
   * LogicFlowTest.cs:43-52: the same shape with 200 and a gate "at most 100"
   * that fails, so the second step is marked executed without running and
   * the number stays 200.
   */
  lemma DoUntilThenSkippedDoWhen(add: int -> int, reached: int -> bool, reset: int -> int, gate: int -> bool)
    requires forall x :: add(x) == x + 10
    requires forall x :: reached(x) <==> x >= 200
    requires forall x :: reset(x) == -1
    requires forall x :: gate(x) <==> x <= 100
    ensures var (f, n) := Run(NewFlow<int>().DoUntil(Some(add), reached).DoWhen(Some(reset), gate), 0, 21);
      f.completed && n == 200
  {
    var f := NewFlow<int>().DoUntil(Some(add), reached).DoWhen(Some(reset), gate);
    forall k: nat
      ensures Iter(add, 0, k) == 10 * k
    {
      IterLinear(add, 10, 0, k);
    }
    assert f.Current().untilConditions == [reached];
    AllHoldOne(reached);
    UntilPhaseForward(f, 0, add, 20);
    var f1 := MarkCurrent(f).(cursor := 1);
    RunSnoc(f, 0, 20);
    assert f1.Current().executeConditions == [gate];
    AllHoldOne(gate);
    GatedLastStep(f1, 200);
  }

  /** The three DoUntil steps of the up-and-down test. */
  function UpAndDownFlow(
    up: int -> int, top: int -> bool, down: int -> int, bottom: int -> bool,
    tens: int -> int, goal: int -> bool): (f: FlowState<int>)
    ensures f.Inv() && f.WellFormed() && !f.completed && f.cursor == 0 && |f.steps| == 3
  {
    FlowState([NewStep(Some(up)).(untilConditions := [top]),
               NewStep(Some(down)).(untilConditions := [bottom]),
               NewStep(Some(tens)).(untilConditions := [goal])], 0, None, Always, false)
  }

  /** The three-step flow is what the test's chain of DoUntil calls builds. */
  lemma UpAndDownFlowBuilt(
    up: int -> int, top: int -> bool, down: int -> int, bottom: int -> bool,
    tens: int -> int, goal: int -> bool)
    ensures UpAndDownFlow(up, top, down, bottom, tens, goal)
         == NewFlow<int>().DoUntil(Some(up), top).DoUntil(Some(down), bottom).DoUntil(Some(tens), goal)
  {
  }

  /** Counting up by one from any s below 100 takes 100 - s ticks, ends at 100 and moves to the second step. */
  lemma CountUp(f: FlowState<int>, up: int -> int, top: int -> bool, s: int)
    requires f.Inv() && f.WellFormed() && !f.completed && f.cursor == 0 && |f.steps| == 3
    requires f.Current() == NewStep(Some(up)).(untilConditions := [top])
    requires forall x :: up(x) == x + 1
    requires forall x :: top(x) <==> x >= 100
    requires s < 100
    ensures Run(f, s, 100 - s) == (MarkCurrent(f).(cursor := 1), 100) && MarkCurrent(f).(cursor := 1).Inv()
  {
    CountingStepForward(f, s, up, 1, 100 - s);
  }

  /** Counting from 100 down to 0 takes 100 ticks and moves to the third step. */
  lemma CountDown(f1: FlowState<int>, down: int -> int, bottom: int -> bool)
    requires f1.Inv() && f1.WellFormed() && !f1.completed && f1.cursor == 1 && |f1.steps| == 3
    requires f1.Current() == NewStep(Some(down)).(untilConditions := [bottom])
    requires forall x :: down(x) == x - 1
    requires forall x :: bottom(x) <==> x == 0
    ensures Run(f1, 100, 100) == (MarkCurrent(f1).(cursor := 2), 0) && MarkCurrent(f1).(cursor := 2).Inv()
  {
    CountingStepForward(f1, 100, down, -1, 100);
  }

  /** Counting from 0 up to 200 in tens takes 20 ticks and completes the flow. */
  lemma CountTens(f2: FlowState<int>, tens: int -> int, goal: int -> bool)
    requires f2.Inv() && f2.WellFormed() && !f2.completed && f2.cursor == 2 && |f2.steps| == 3
    requires f2.Current() == NewStep(Some(tens)).(untilConditions := [goal])
    requires f2.onComplete == None && f2.loopCondition == Always
    requires forall x :: tens(x) == x + 10
    requires forall x :: goal(x) <==> x == 200
    ensures Run(f2, 0, 20).0.completed && Run(f2, 0, 20).1 == 200
  {
    CountingStepLast(f2, 0, tens, 10, 20);
  }

  /**
   * LogicFlowTest.cs:122-132: from -1 count up to 100 (101 ticks), down to 0
   * (100 ticks), then up in tens to 200 (20 ticks).
   */
  lemma GoUpAndThenDown(
    up: int -> int, top: int -> bool, down: int -> int, bottom: int -> bool,
    tens: int -> int, goal: int -> bool)
    requires forall x :: up(x) == x + 1
    requires forall x :: top(x) <==> x >= 100
    requires forall x :: down(x) == x - 1
    requires forall x :: bottom(x) <==> x == 0
    requires forall x :: tens(x) == x + 10
    requires forall x :: goal(x) <==> x == 200
    ensures var (f, n) := Run(NewFlow<int>().DoUntil(Some(up), top).DoUntil(Some(down), bottom)
                                            .DoUntil(Some(tens), goal), -1, 221);
      f.completed && n == 200
  {
    UpAndDownFlowBuilt(up, top, down, bottom, tens, goal);
    UpAndDownRun(up, top, down, bottom, tens, goal);
  }

  /** The up-and-down run on the three-step flow itself. */
  lemma UpAndDownRun(
    up: int -> int, top: int -> bool, down: int -> int, bottom: int -> bool,
    tens: int -> int, goal: int -> bool)
    requires forall x :: up(x) == x + 1
    requires forall x :: top(x) <==> x >= 100
    requires forall x :: down(x) == x - 1
    requires forall x :: bottom(x) <==> x == 0
    requires forall x :: tens(x) == x + 10
    requires forall x :: goal(x) <==> x == 200
    ensures Run(UpAndDownFlow(up, top, down, bottom, tens, goal), -1, 221).0.completed
    ensures Run(UpAndDownFlow(up, top, down, bottom, tens, goal), -1, 221).1 == 200
  {
    var f := UpAndDownFlow(up, top, down, bottom, tens, goal);
    var f1 := MarkCurrent(f).(cursor := 1);
    assert f.Current() == NewStep(Some(up)).(untilConditions := [top]);
    CountUp(f, up, top, -1);
    assert Run(f, -1, 101) == (f1, 100);
    DownAndTens(f1, down, bottom, tens, goal);
    RunAdditive(f, -1, 101, 120, f1, 100);
  }

  /** The last two phases of the up-and-down test: 100 ticks down to 0, then 20 ticks up to 200. */
  lemma DownAndTens(f1: FlowState<int>, down: int -> int, bottom: int -> bool, tens: int -> int, goal: int -> bool)
    requires f1.Inv() && f1.WellFormed() && !f1.completed && f1.cursor == 1 && |f1.steps| == 3
    requires f1.steps[1] == NewStep(Some(down)).(untilConditions := [bottom])
    requires f1.steps[2] == NewStep(Some(tens)).(untilConditions := [goal])
    requires f1.onComplete == None && f1.loopCondition == Always
    requires forall x :: down(x) == x - 1
    requires forall x :: bottom(x) <==> x == 0
    requires forall x :: tens(x) == x + 10
    requires forall x :: goal(x) <==> x == 200
    ensures Run(f1, 100, 120).0.completed && Run(f1, 100, 120).1 == 200
  {
    var f2 := MarkCurrent(f1).(cursor := 2);
    CountDown(f1, down, bottom);
    assert f2.Current() == NewStep(Some(tens)).(untilConditions := [goal]);
    CountTens(f2, tens, goal);
    RunAdditive(f1, 100, 100, 20, f2, 0);
  }

  /**
   * However many ticks a driver made, up to 15, the DoUntil test ends with
   * 15 as long as the driver stopped only on completion or after 15 ticks.
   */
  lemma BasicDoUntilDriven(inc: int -> int, done: int -> bool, ticks: nat)
    requires forall x :: inc(x) == x + 1
    requires forall x :: done(x) <==> x == 15
    requires ticks <= 15
    requires Run(NewFlow<int>().DoUntil(Some(inc), done), 0, ticks).0.completed || ticks == 15
    ensures Run(NewFlow<int>().DoUntil(Some(inc), done), 0, ticks).1 == 15
  {
    var f := NewFlow<int>().DoUntil(Some(inc), done);
    BasicDoUntil(inc, done);
    if ticks < 15 {
      RunStable(f, 0, ticks, 15);
    }
  }

  /** The DoUntil test on a Flow object, driven like ExecuteAsync with enough fuel. */
  method DoUntilOnFlowObject(inc: int -> int, done: int -> bool) returns (n: int)
    requires forall x :: inc(x) == x + 1
    requires forall x :: done(x) <==> x == 15
    ensures n == 15
  {
    var flow := CountingFlow(inc, done);
    n := DriveCounting(flow, inc, done);
  }

  /** Drive the counting flow object with 15 ticks of fuel. */
  method DriveCounting(flow: Flow<int>, inc: int -> int, done: int -> bool) returns (n: int)
    requires forall x :: inc(x) == x + 1
    requires forall x :: done(x) <==> x == 15
    requires flow.Valid() && flow.actions != [] && flow.Model() == NewFlow<int>().DoUntil(Some(inc), done)
    modifies flow, flow.actions
    ensures n == 15
  {
    var ticks;
    n, ticks := flow.ExecuteFor(0, 15);
    BasicDoUntilDriven(inc, done, ticks);
  }

  /** `new Flow().DoUntil(inc, done)` on objects: one fresh step, built as the value builder says. */
  method CountingFlow(inc: int -> int, done: int -> bool) returns (flow: Flow<int>)
    ensures fresh(flow) && flow.Valid() && |flow.actions| == 1 && fresh(flow.actions[0])
    ensures flow.Model() == NewFlow<int>().DoUntil(Some(inc), done)
  {
    flow := new Flow<int>();
    ghost var action := flow.DoUntil(Some(inc), done);
  }

  /** The LoopUntil scenario on a Flow object, driven with 3 ticks of fuel. */
  method LoopOnFlowObject(inc: int -> int, atLeast: int -> bool) returns (n: int)
    requires forall x :: inc(x) == x + 1
    requires forall x :: atLeast(x) <==> x >= 3
    ensures n == 3
  {
    var flow := LoopingFlow(inc, atLeast);
    var ticks;
    n, ticks := flow.ExecuteFor(0, 3);
    LoopUntilDriven(inc, atLeast, ticks);
  }

  /** A driver that stops on completion or after 3 ticks has ticked 3 times and sees 3. */
  lemma LoopUntilDriven(inc: int -> int, atLeast: int -> bool, ticks: nat)
    requires forall x :: inc(x) == x + 1
    requires forall x :: atLeast(x) <==> x >= 3
    requires ticks <= 3
    requires Run(NewFlow<int>().Do(Some(inc)).(loopCondition := atLeast), 0, ticks).0.completed || ticks == 3
    ensures ticks == 3 && Run(NewFlow<int>().Do(Some(inc)).(loopCondition := atLeast), 0, ticks).1 == 3
  {
    var f := NewFlow<int>().Do(Some(inc)).(loopCondition := atLeast);
    LoopUntilThree(inc, atLeast);
    assert Run(f, 0, 0).0 == f;
  }

  /** `new Flow().Do(n++).LoopUntil(n >= 3)` built on objects. */
  method LoopingFlow(inc: int -> int, atLeast: int -> bool) returns (flow: Flow<int>)
    ensures fresh(flow) && flow.Valid() && |flow.actions| == 1 && fresh(flow.actions[0])
    ensures flow.Model() == NewFlow<int>().Do(Some(inc)).(loopCondition := atLeast)
  {
    flow := new Flow<int>();
    ghost var action := flow.Do(Some(inc));
    flow.LoopUntil(atLeast);
  }
}
