/**
 * Flow: an ordered list of FlowAction objects, a reference to the current
 * one, a loop condition, a completion callback and the IsCompleted flag,
 * with the tick (Execute), the reset and the fluent builder. Every method is
 * proved to change the object exactly as the matching FlowSpec function
 * changes a FlowState.
 */
module Flows {
  import opened Wrappers
  import opened Conditions
  import opened Actions
  import opened FlowSpec

  /** The step values of a list of FlowAction objects. */
  ghost function StepsOf<S>(acts: seq<FlowAction<S>>): (r: seq<Step<S>>)
    reads acts
    ensures |r| == |acts|
    ensures forall i :: 0 <= i < |acts| ==> r[i] == acts[i].Model()
  {
    seq(|acts|, i requires 0 <= i < |acts| reads acts => acts[i].Model())
  }

  /** No object occurs twice in the list. */
  ghost predicate Distinct<S>(acts: seq<FlowAction<S>>)
  {
    forall i, j :: 0 <= i < j < |acts| ==> acts[i] != acts[j]
  }

  lemma DistinctAppend<S>(acts: seq<FlowAction<S>>, a: FlowAction<S>)
    requires Distinct(acts) && a !in acts
    ensures Distinct(acts + [a])
  {
  }

  /** In a list of distinct objects, equal entries sit at the same position. */
  lemma DistinctIndex<S>(acts: seq<FlowAction<S>>, i: nat, j: nat)
    requires Distinct(acts) && i < |acts| && j < |acts| && acts[i] == acts[j]
    ensures i == j
  {
  }

  /** Changing only the last object of a list of distinct objects changes only the last step. */
  twostate lemma StepsOfLastChanged<S>(acts: seq<FlowAction<S>>)
    requires Distinct(acts) && |acts| > 0
    requires forall i :: 0 <= i < |acts| - 1 ==> unchanged(acts[i])
    ensures StepsOf(acts) == old(StepsOf(acts))[|acts| - 1 := acts[|acts| - 1].Model()]
  {
  }

  /** A list whose objects did not change has the same steps. */
  twostate lemma StepsOfUnchanged<S>(acts: seq<FlowAction<S>>)
    requires forall i :: 0 <= i < |acts| ==> unchanged(acts[i])
    ensures StepsOf(acts) == old(StepsOf(acts))
  {
  }

  /** The steps of a list with one more object are the old steps and its step. */
  lemma StepsOfAppend<S>(acts: seq<FlowAction<S>>, a: FlowAction<S>)
    ensures StepsOf(acts + [a]) == StepsOf(acts) + [a.Model()]
  {
    assert forall i :: 0 <= i < |acts| ==> (acts + [a])[i] == acts[i];
  }

  class Flow<S> {
    var actions: seq<FlowAction<S>>
    var current: FlowAction?<S>
    var flowCompletion: Option<S -> S>
    var loopCondition: Condition<S>
    var isCompleted: bool
    /** The index of `current` in `actions`. */
    ghost var cursor: nat

    ghost function Model(): FlowState<S>
      reads this, actions
    {
      FlowState(StepsOf(actions), cursor, flowCompletion, loopCondition, isCompleted)
    }

    /**
     * Every step is a distinct object (Do always allocates one), and
     * `current` is null exactly while there is no step and is otherwise the
     * step at `cursor`.
     */
    ghost predicate Linked()
      reads this
    {
      && Distinct(actions)
      && (actions == [] ==> current == null)
      && (actions != [] ==> cursor < |actions| && current == actions[cursor])
    }

    /** The object invariant: linked, and the flow invariant holds. */
    ghost predicate Valid()
      reads this, actions
    {
      Linked() && Model().Inv()
    }

    constructor ()
      ensures Valid() && Model() == NewFlow() && actions == []
    {
      actions := [];
      current := null;
      flowCompletion := None;
      loopCondition := Always;
      isCompleted := false;
      cursor := 0;
    }

    /** `m_Actions.FindIndex(A => A == target)`: the first position of `target`, or -1. */
    method FindIndex(target: FlowAction<S>) returns (k: int)
      ensures -1 <= k < |actions|
      ensures k == -1 <==> target !in actions
      ensures 0 <= k ==> actions[k] == target && forall j :: 0 <= j < k ==> actions[j] != target
    {
      k := 0;
      while k < |actions|
        invariant 0 <= k <= |actions|
        invariant forall j :: 0 <= j < k ==> actions[j] != target
      {
        if actions[k] == target {
          return;
        }
        k := k + 1;
      }
      k := -1;
    }

    /** `_Reset`: clear the flag of every step, in place. */
    method Reset()
      requires Distinct(actions)
      modifies actions
      ensures StepsOf(actions) == ResetSteps(old(StepsOf(actions)))
    {
      for i := 0 to |actions|
        invariant forall j :: 0 <= j < i ==> actions[j].Model() == old(actions[j].Model()).(executed := false)
        invariant forall j :: i <= j < |actions| ==> actions[j].Model() == old(actions[j].Model())
      {
        actions[i].isExecuted := false;
      }
    }

    /** Lines 131-132 of Execute: run the current step unless it is executed. */
    method ExecuteCurrent(s: S) returns (s': S)
      requires Linked() && actions != []
      modifies actions
      ensures Linked()
      ensures Model() == RunCurrent(old(Model()), s).0 && s' == RunCurrent(old(Model()), s).1
    {
      s' := s;
      if !current.isExecuted {
        assert forall i :: 0 <= i < |actions| && i != cursor ==> actions[i] != current;
        ghost var before := StepsOf(actions);
        s' := current.Execute(s);
        assert StepsOf(actions) == before[cursor := current.Model()];
      }
    }

    /** Lines 134-136 of Execute: move past an executed current step that is not the last. */
    method MoveNext()
      requires Linked() && actions != []
      modifies this
      ensures Linked() && actions == old(actions)
      ensures Model() == StepForward(old(Model()))
    {
      if current.isExecuted && current != actions[|actions| - 1] {
        var k := FindIndex(current);
        current := actions[k + 1];
        cursor := k + 1;
      }
    }

    /** Lines 138-150 of Execute: on an executed last step, complete or rewind. */
    method Finish(s: S) returns (s': S)
      requires Linked() && actions != []
      modifies this, actions
      ensures Linked() && actions == old(actions)
      ensures Model() == CompleteOrRewind(old(Model()), s).0 && s' == CompleteOrRewind(old(Model()), s).1
    {
      ghost var m := Model();
      assert m.Current() == current.Model();
      if current == actions[|actions| - 1] {
        DistinctIndex(actions, cursor, |actions| - 1);
      }
      assert (current.isExecuted && current == actions[|actions| - 1]) == (m.Current().executed && m.cursor == |m.steps| - 1);
      s' := s;
      if current.isExecuted && current == actions[|actions| - 1] {
        if IsSatisfied(loopCondition, s') {
          s' := Complete(s');
          assert Model() == m.(completed := true);
        } else {
          Rewind();
          assert Model() == m.(cursor := 0, steps := ResetSteps(m.steps));
        }
      } else {
        assert Model() == m;
      }
    }

    /** Lines 141-142 of Execute: fire the completion callback and mark the flow completed. */
    method Complete(s: S) returns (s': S)
      requires Linked()
      modifies this
      ensures Linked() && actions == old(actions)
      ensures Model() == old(Model()).(completed := true) && s' == Fire(flowCompletion, s)
    {
      s' := Fire(flowCompletion, s);
      isCompleted := true;
    }

    /** Lines 146-147 of Execute: go back to the first step and clear every flag. */
    method Rewind()
      requires Linked() && actions != []
      modifies this, actions
      ensures Linked() && actions == old(actions)
      ensures Model() == old(Model()).(cursor := 0, steps := ResetSteps(old(Model()).steps))
    {
      ghost var steps := StepsOf(actions);
      current := actions[0];
      cursor := 0;
      Reset();
      assert StepsOf(actions) == ResetSteps(steps);
    }

    /** One tick. A flow without steps would dereference a null current step. */
    method Execute(s: S) returns (s': S)
      requires Valid() && actions != []
      modifies this, actions
      ensures Valid() && actions == old(actions)
      ensures Model() == Tick(old(Model()), s).0 && s' == Tick(old(Model()), s).1
      ensures old(isCompleted) ==> isCompleted && s' == s
    {
      s' := s;
      if !isCompleted {
        TickPreservesInv(Model(), s);
        s' := ExecuteCurrent(s);
        MoveNext();
        s' := Finish(s');
      }
    }

    /**
     * `ExecuteAsync` without its unbounded `while (!IsCompleted)` spin: tick
     * until the flow completes or `fuel` ticks were made.
     */
    method ExecuteFor(s: S, fuel: nat) returns (s': S, ticks: nat)
      requires Valid() && actions != []
      modifies this, actions
      ensures Valid() && actions == old(actions)
      ensures ticks <= fuel && (isCompleted || ticks == fuel)
      ensures Model() == Run(old(Model()), s, ticks).0 && s' == Run(old(Model()), s, ticks).1
      ensures Run(old(Model()), s, ticks).0.completed || ticks == fuel
    {
      s', ticks := s, 0;
      while !isCompleted && ticks < fuel
        invariant Valid() && actions == old(actions) && ticks <= fuel
        invariant Model() == Run(old(Model()), s, ticks).0 && s' == Run(old(Model()), s, ticks).1
      {
        RunSnoc(old(Model()), s, ticks);
        s' := Execute(s');
        ticks := ticks + 1;
      }
    }

    /** Append a new step; the first one becomes the current step. */
    method Do(body: Option<S -> S>) returns (ghost action: FlowAction<S>)
      requires Valid()
      modifies this
      ensures Valid() && Model() == old(Model()).Do(body)
      ensures fresh(action) && actions == old(actions) + [action]
    {
      ghost var before := Model();
      var step := new FlowAction(body);
      StepsOfUnchanged(actions);
      StepsOfAppend(actions, step);
      DistinctAppend(actions, step);
      actions := actions + [step];
      if current == null {
        current := step;
      }
      action := step;
      assert Model() == before.Do(body);
    }

    method DoUntil(body: Option<S -> S>, c: Condition<S>) returns (ghost action: FlowAction<S>)
      requires Valid()
      modifies this, actions
      ensures Valid() && Model() == old(Model()).DoUntil(body, c)
      ensures fresh(action) && actions == old(actions) + [action]
    {
      ghost var before := Model();
      action := Do(body);
      ghost var mid, acts := Model(), actions;
      var r := Until(c);
      assert actions == acts;
      assert mid.Until(c) == Success(Model());
      assert before.Do(body).Until(c) == Success(before.DoUntil(body, c));
    }

    method DoWhen(body: Option<S -> S>, c: Condition<S>) returns (ghost action: FlowAction<S>)
      requires Valid()
      modifies this, actions
      ensures Valid() && Model() == old(Model()).DoWhen(body, c)
      ensures fresh(action) && actions == old(actions) + [action]
    {
      ghost var before := Model();
      action := Do(body);
      ghost var mid, acts := Model(), actions;
      var r := When(c);
      assert actions == acts;
      assert mid.When(c) == Success(Model());
      assert before.Do(body).When(c) == Success(before.DoWhen(body, c));
    }

    /** Add an until condition to the last step; out of range on an empty flow. */
    method Until(c: Condition<S>) returns (r: Outcome<BuildError>)
      requires Valid()
      modifies actions
      ensures Valid()
      ensures old(Model()).Until(c) == if r.Pass? then Success(Model()) else Failure(r.error)
      ensures r.Fail? ==> Model() == old(Model())
    {
      if |actions| == 0 {
        return Fail(NoStep);
      }
      ghost var before := Model();
      var last := actions[|actions| - 1];
      last.AddUntilCondition(c);
      r := Pass;
      ghost var st := before.Last().(untilConditions := before.Last().untilConditions + [c]);
      LastStepChanged(this, before, st);
    }

    /** Add an execute condition to the last step; out of range on an empty flow. */
    method When(c: Condition<S>) returns (r: Outcome<BuildError>)
      requires Valid()
      modifies actions
      ensures Valid()
      ensures old(Model()).When(c) == if r.Pass? then Success(Model()) else Failure(r.error)
      ensures r.Fail? ==> Model() == old(Model())
    {
      if |actions| == 0 {
        return Fail(NoStep);
      }
      ghost var before := Model();
      var last := actions[|actions| - 1];
      last.AddExecuteCondition(c);
      r := Pass;
      ghost var st := before.Last().(executeConditions := before.Last().executeConditions + [c]);
      LastStepChanged(this, before, st);
    }

    /**
     * Add a "continue" condition to the last step; as written it lands in the
     * execute list, so this behaves exactly like When.
     */
    method ContinueWhen(c: Condition<S>) returns (r: Outcome<BuildError>)
      requires Valid()
      modifies actions
      ensures Valid()
      ensures old(Model()).ContinueWhen(c) == if r.Pass? then Success(Model()) else Failure(r.error)
      ensures r.Fail? ==> Model() == old(Model())
    {
      if |actions| == 0 {
        return Fail(NoStep);
      }
      ghost var before := Model();
      var last := actions[|actions| - 1];
      last.AddContinueCondition(c);
      r := Pass;
      ghost var st := before.Last().(executeConditions := before.Last().executeConditions + [c]);
      LastStepChanged(this, before, st);
    }

    /** Store a completion hook on the last step; out of range on an empty flow. */
    method OnActionCompletion(h: Option<S -> S>) returns (r: Outcome<BuildError>)
      requires Valid()
      modifies actions
      ensures Valid()
      ensures old(Model()).OnActionCompletion(h) == if r.Pass? then Success(Model()) else Failure(r.error)
      ensures r.Fail? ==> Model() == old(Model())
    {
      if |actions| == 0 {
        return Fail(NoStep);
      }
      ghost var before := Model();
      var last := actions[|actions| - 1];
      last.SetOnCompletion(h);
      r := Pass;
      ghost var st := before.Last().(completion := h);
      LastStepChanged(this, before, st);
    }

    /** Set the callback that runs when the flow completes. */
    method OnCompletion(h: Option<S -> S>)
      requires Valid()
      modifies this
      ensures Valid() && Model() == old(Model()).(onComplete := h)
      ensures actions == old(actions)
    {
      flowCompletion := h;
    }

    /** Replace the loop condition checked after the last step. */
    method LoopUntil(c: Condition<S>)
      requires Valid()
      modifies this
      ensures Valid() && Model() == old(Model()).(loopCondition := c)
      ensures actions == old(actions)
    {
      loopCondition := c;
    }

    /** Empty in the engine: the cancel condition is dropped. */
    method CancelWhen(c: Condition<S>)
      requires Valid()
      ensures Valid() && Model() == old(Model())
    {
    }

    /** Empty in the engine. */
    method Branch(f1: Flow<S>, f2: Flow<S>)
      requires Valid()
      ensures Valid() && Model() == old(Model())
    {
    }

    /** Empty in the engine. */
    method ReturnResult()
      requires Valid()
      ensures Valid() && Model() == old(Model())
    {
    }
  }

  /**
   * After a call that changed only the last step object of a flow, the flow
   * is still valid and its model is the old one with that step replaced.
   */
  twostate lemma LastStepChanged<S>(flow: Flow<S>, new before: FlowState<S>, new st: Step<S>)
    requires old(flow.Valid()) && before == old(flow.Model()) && flow.actions != []
    requires unchanged(flow)
    requires forall i :: 0 <= i < |flow.actions| && flow.actions[i] != flow.actions[|flow.actions| - 1] ==> unchanged(flow.actions[i])
    requires flow.actions[|flow.actions| - 1].Model() == st
    requires st.executed == before.Last().executed && st.continueConditions == before.Last().continueConditions
    ensures flow.Valid() && before.WithLast(st) == Success(flow.Model())
  {
    var acts := flow.actions;
    assert forall i :: 0 <= i < |acts| - 1 ==> acts[i] != acts[|acts| - 1];
    StepsOfLastChanged(acts);
    before.WithLastUpdates(st);
    assert flow.Model() == before.(steps := before.steps[|acts| - 1 := st]);
  }
}
