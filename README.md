# LogicFlow execution engine in Dafny

LogicFlow builds a small sequential state machine with a fluent API. It has three parts:

- A `FlowCondition` wraps a boolean predicate. The predicate is re-evaluated on every call.
- A `FlowAction` is one step. It holds three condition lists (execute, continue, until), the user action, a per-step completion hook and the `IsExecuted` flag.
- A `Flow` holds the ordered steps, the current step, a loop condition, a completion callback and the `IsCompleted` flag.

Each call of `Flow.Execute` is one tick:

1. Run the current step if it has not finished.
2. Move to the next step if it has finished and is not the last.
3. On a finished last step, either complete (when the loop condition holds) or rewind to the first step and clear every flag.

The builder appends steps (`Do`, `DoUntil`, `DoWhen`) and attaches conditions or hooks to the last step (`Until`, `When`, `ContinueWhen`, `OnActionCompletion`). It also sets the flow-wide callback and loop condition (`OnCompletion`, `LoopUntil`).

The project models this engine as follows.

- **User closures.** The engine's closures capture variables of the caller. Here that captured state is an explicit value of a type parameter `S`:
  - a condition is an `S -> bool`;
  - an action is an `Option<S -> S>`, where `None` is a null delegate;
  - every operation that can run user code takes the state and returns the new one.
- **Imperative objects.** `FlowAction` and `Flow` are classes with the source's fields (`conditions.dfy`, `actions.dfy`, `flow.dfy`):
  - every mutating method has a `modifies` clause;
  - `_Reset` is a loop over the step objects;
  - the `foreach` conjunctions are one loop (`Evaluate`) that also reports how many predicates it evaluated;
  - the index lookup of `Execute` (`FindIndex`) is a loop too.
- **Specification values.** The value of a flow is the datatype `FlowState` in `flowspec.dfy`:
  - `Tick` is one call of `Flow.Execute`, and `Run` is `n` calls;
  - the builder functions mirror the builder methods;
  - every class method is proved to change its object exactly as the matching function changes a `FlowState`;
  - the engine's promises are proved as lemmas about those functions.
- **Tests.** The engine's tests that use only methods the Flow class has are lemmas over `S = int` (`scenarios.dfy`). One of them is also driven on a `Flow` object.

The model follows the code as written where the code differs from its own description:

- `AddContinueCondition` stores its condition in the execute list. The continue list therefore stays empty, and `ContinueWhen(c)` behaves exactly like `When(c)` (`ContinueWhenIsWhen`).
- The per-step completion hook is stored but never invoked.
- `CancelWhen`, `Branch` and `ReturnResult` do nothing.
- The builder methods that index `m_Actions[m_Actions.Count - 1]` throw on a flow without steps. Here they return `Fail(NoStep)` and leave the flow unchanged.

## Model

| member | source | states |
|---|---|---|
| Conditions.IsSatisfied | LogicFlow/LogicFlow.cs:26-29 | Evaluating one condition is the same as the conjunction of the one-element list holding it. |
| Conditions.Evaluate | LogicFlow/LogicFlow.cs:65-87 | The result is true exactly when every condition in the list holds, so an empty list gives true. On false, the last predicate evaluated is the first one that fails, and none after it is evaluated. |
| Actions.Fire | LogicFlow/LogicFlow.cs:56 | `?.Invoke()` on a null delegate leaves the state as it is; otherwise the delegate runs once on it. The same call fires the flow's completion callback at line 142. |
| Actions.ContinueGate | LogicFlow/LogicFlow.cs:50 | The continue fast path is taken exactly when the continue list is non-empty and every condition in it holds, so never with an empty list. |
| Actions.NewStep | LogicFlow/LogicFlow.cs:43-46 | A new step carries the given action, no conditions of any kind, and is not executed. |
| Actions.ExecuteStep | LogicFlow/LogicFlow.cs:48-63 | One FlowAction.Execute changes no configuration. Afterwards the step is executed exactly when every until condition holds in the new state, so always when the list is empty. The state is either unchanged or the body applied once, and the body runs only when the continue fast path is not taken and every execute condition holds. |
| Actions.ExecuteWithoutContinue | LogicFlow/LogicFlow.cs:50-57 | With an empty continue list, the body runs exactly when every execute condition holds. |
| Actions.SkippedStepFinishes | LogicFlow/LogicFlow.cs:54-62 | A step whose execute conditions fail and that has no until conditions is marked executed without running its body. |
| Actions.FlowAction.constructor | LogicFlow/LogicFlow.cs:43-46 | The new object is the fresh step holding the given action. |
| Actions.FlowAction.Execute | LogicFlow/LogicFlow.cs:48-63 | The object's new fields and the new state are what ExecuteStep gives for the old fields. |
| Actions.FlowAction.CanExecute | LogicFlow/LogicFlow.cs:65-71 | True exactly when every execute condition holds. |
| Actions.FlowAction.CanContinue | LogicFlow/LogicFlow.cs:73-79 | True exactly when every continue condition holds. |
| Actions.FlowAction.UntilSatisfied | LogicFlow/LogicFlow.cs:81-87 | True exactly when every until condition holds. |
| Actions.FlowAction.AddExecuteCondition | LogicFlow/LogicFlow.cs:89-92 | Appends the condition to the execute list and changes nothing else. |
| Actions.FlowAction.AddContinueCondition | LogicFlow/LogicFlow.cs:94-97 | As written, appends the condition to the execute list, leaves the continue list as it was, and changes nothing else. |
| Actions.FlowAction.AddUntilCondition | LogicFlow/LogicFlow.cs:99-102 | Appends the condition to the until list and changes nothing else. |
| Actions.FlowAction.SetOnCompletion | LogicFlow/LogicFlow.cs:104-107 | Replaces the per-step completion hook and changes nothing else. |
| FlowSpec.NewFlow | LogicFlow/LogicFlow.cs:112-118 | A new flow has no steps, is not completed, has no completion callback, and its loop condition is `Always`, which holds in every state, so one pass completes the flow. It satisfies the flow invariant. |
| FlowSpec.ResetSteps | LogicFlow/LogicFlow.cs:120-124 | Every step keeps its position and configuration, and none is executed afterwards. |
| FlowSpec.RunCurrent | LogicFlow/LogicFlow.cs:131-132 | Running the current step changes no step but the current one and no field but the step list. |
| FlowSpec.StepForward | LogicFlow/LogicFlow.cs:134-136 | Moving on changes only the cursor, which stays on a step. |
| FlowSpec.TickPreservesInv | LogicFlow/LogicFlow.cs:127-153 | A tick keeps the flow invariant. The cursor stays on a step, and the steps before the cursor are executed while those after it are not. A running flow's current step is pending, and no continue condition is stored. |
| FlowSpec.TickProgress | LogicFlow/LogicFlow.cs:127-153 | Gives the outcome of one tick of a running flow from what its current step does. If the step is still pending, the flow is unchanged. If it finished and is not the last, the cursor moves forward by one. If it finished, is the last, and the loop condition holds in the new state, the flow completes and the callback runs on that state. If the loop condition fails there, the cursor returns to 0 and every flag is cleared. No step's conditions or actions change. |
| FlowSpec.TickRewinds | LogicFlow/LogicFlow.cs:138-149 | When the last step finishes and the loop condition fails, the tick leaves the flow running on step 0 with every flag cleared, every step's configuration kept, and the state as the step left it. |
| FlowSpec.Tick | LogicFlow/LogicFlow.cs:127-153 | One call of Execute keeps a current step and the number of steps. TickProgress, TickCompletes and TickPreservesInv state what the call does. |
| FlowSpec.Advance | LogicFlow/LogicFlow.cs:134-150 | Moving on after the current step keeps a current step and the number of steps. Its cases are stated through Tick in TickProgress. |
| FlowSpec.CompleteOrRewind | LogicFlow/LogicFlow.cs:138-150 | Completing or rewinding keeps a current step and the number of steps. Which of the two happens, and when, is stated in TickProgress and TickRewinds. |
| FlowSpec.Run | LogicFlow/LogicFlow.cs:155-159 | `n` calls of Execute keep a current step and the number of steps. RunSnoc, RunAdditive, RunStable and RunKeepsCompleted relate runs of different lengths. |
| FlowSpec.TickCompletes | LogicFlow/LogicFlow.cs:138-143 | A tick completes a running flow exactly when the current step is the last one, it finishes in this tick, and the loop condition holds in the state it leaves. The completion callback then runs on that state. |
| FlowSpec.RunKeepsCompleted | LogicFlow/LogicFlow.cs:129 | Any number of ticks on a completed flow change neither the flow nor the state. |
| FlowSpec.RunPreservesInv | LogicFlow/LogicFlow.cs:127-153 | The flow invariant holds after any number of ticks. |
| FlowSpec.RunSnoc | LogicFlow/LogicFlow.cs:155-159 | Running n + 1 ticks is running n ticks and then one more. |
| FlowSpec.RunAdditive | LogicFlow/LogicFlow.cs:155-159 | Running a + b ticks is running b ticks from wherever a ticks left the flow and the state. |
| FlowSpec.RunStable | LogicFlow/LogicFlow.cs:155-159 | Once a run has completed, further ticks change nothing, so a driver that stops on completion gets the same result as one that keeps ticking. |
| FlowSpec.PendingStepRepeats | LogicFlow/LogicFlow.cs:127-136 | While a pending step's until conditions fail, each tick runs its body once and leaves the flow as it was. After j such ticks the state is the body applied j times. |
| FlowSpec.PendingStepFinishes | LogicFlow/LogicFlow.cs:127-136 | A pending step whose body runs and whose until conditions then hold is marked executed in this tick, and the flow advances from there. |
| FlowSpec.UntilPhase | LogicFlow/LogicFlow.cs:127-150 | A step whose until conditions first hold after its body ran m times finishes on the m-th tick, and the flow then advances as lines 134-150 say. |
| FlowSpec.UntilPhaseForward | LogicFlow/LogicFlow.cs:134-136 | On a step that is not the last, those m ticks leave the cursor on the next step, with the finished step marked. |
| FlowSpec.UntilPhaseLast | LogicFlow/LogicFlow.cs:138-143 | On the last step, those m ticks complete the flow when the loop condition holds, and the completion callback runs last. |
| FlowSpec.GatedLastStep | LogicFlow/LogicFlow.cs:54-62 | A last step without until conditions finishes in one tick, running its body only when its execute conditions hold, and under an always-true loop condition the flow completes. |
| FlowSpec.PlainTick | LogicFlow/LogicFlow.cs:127-150 | One tick on a pending step without conditions runs its body and then either moves to the next step or, on the last step under an always-true loop condition, completes. |
| FlowSpec.PlainPass | LogicFlow/LogicFlow.cs:118 | With the default always-true loop condition, a flow of steps without conditions runs each remaining body exactly once and in order. It completes on the tick that runs the last one and not before, and the completion callback runs last. |
| FlowSpec.ContinueWhenIsWhen | LogicFlow/LogicFlow.cs:195-199 | ContinueWhen(c) builds exactly the flow When(c) builds. |
| FlowSpec.FlowState.Do | LogicFlow/LogicFlow.cs:161-169 | Appends exactly one fresh step after the existing ones, which keep their order. Nothing else changes, and the invariant is kept. |
| FlowSpec.FlowState.Until | LogicFlow/LogicFlow.cs:183-187 | Fails exactly on a flow without steps. Otherwise it appends the condition to the last step's until list, keeps the number of steps and every flow-level field, and keeps the invariant. |
| FlowSpec.FlowState.When | LogicFlow/LogicFlow.cs:189-193 | Fails exactly on a flow without steps. Otherwise it appends the condition to the last step's execute list, keeps the number of steps and every flow-level field, and keeps the invariant. |
| FlowSpec.FlowState.ContinueWhen | LogicFlow/LogicFlow.cs:195-199 | Fails exactly on a flow without steps. Otherwise it appends the condition to the last step's execute list, as the code does, not to its continue list; it keeps the number of steps, every flow-level field and the invariant. |
| FlowSpec.FlowState.OnActionCompletion | LogicFlow/LogicFlow.cs:201-205 | Fails exactly on a flow without steps. Otherwise it sets the last step's hook, keeps the number of steps, every flow-level field and the invariant. |
| FlowSpec.LastStepBuilders | LogicFlow/LogicFlow.cs:183-205 | On a flow with steps, Until, When, ContinueWhen and OnActionCompletion leave every step but the last as it was, and on the last step change only the list or hook they attach to. |
| FlowSpec.FlowState.DoUntil | LogicFlow/LogicFlow.cs:171-175 | Do followed by Until never fails, and it appends one fresh step whose only condition is the given until condition. |
| FlowSpec.FlowState.DoWhen | LogicFlow/LogicFlow.cs:177-181 | Do followed by When never fails, and it appends one fresh step whose only condition is the given execute condition. |
| Flows.Flow.constructor | LogicFlow/LogicFlow.cs:112-118 | A new Flow object has no steps and no current step, and its value is the new flow. |
| Flows.Flow.FindIndex | LogicFlow/LogicFlow.cs:136 | Returns the first position of the step in the list, or -1 exactly when it is absent. |
| Flows.Flow.Reset | LogicFlow/LogicFlow.cs:120-124 | In place, every step object's flag is cleared and nothing else changes. |
| Flows.Flow.ExecuteCurrent | LogicFlow/LogicFlow.cs:131-132 | The objects and the state change as RunCurrent says. |
| Flows.Flow.MoveNext | LogicFlow/LogicFlow.cs:134-136 | The current step changes as StepForward says, and the list is unchanged. |
| Flows.Flow.Finish | LogicFlow/LogicFlow.cs:138-150 | The flow and the state change as CompleteOrRewind says: on a finished last step it completes when the loop condition holds and otherwise rewinds. TickProgress and TickRewinds state both cases. |
| Flows.Flow.Complete | LogicFlow/LogicFlow.cs:141-142 | The completion callback runs, and only the completed flag changes. |
| Flows.Flow.Rewind | LogicFlow/LogicFlow.cs:146-147 | The first step becomes current, and every flag is cleared. |
| Flows.Flow.Execute | LogicFlow/LogicFlow.cs:127-153 | The object's new value and the new state are one Tick of the old ones, and the object invariant is kept. A completed flow stays completed and the state is unchanged. |
| Flows.Flow.ExecuteFor | LogicFlow/LogicFlow.cs:155-159 | Ticks until the flow completes or the fuel runs out. The result is Run of that many ticks, and either the flow completed or all the fuel was used. |
| Flows.Flow.Do | LogicFlow/LogicFlow.cs:161-169 | Appends one fresh step object, and the first one becomes current. The value changes as FlowState.Do says. |
| Flows.Flow.DoUntil | LogicFlow/LogicFlow.cs:171-175 | Appends one fresh step object, and the value changes as FlowState.DoUntil says. |
| Flows.Flow.DoWhen | LogicFlow/LogicFlow.cs:177-181 | Appends one fresh step object, and the value changes as FlowState.DoWhen says. |
| Flows.Flow.Until | LogicFlow/LogicFlow.cs:183-187 | Fails on a flow without steps and leaves it unchanged. Otherwise the value changes as FlowState.Until says. |
| Flows.Flow.When | LogicFlow/LogicFlow.cs:189-193 | Fails on a flow without steps and leaves it unchanged. Otherwise the value changes as FlowState.When says. |
| Flows.Flow.ContinueWhen | LogicFlow/LogicFlow.cs:195-199 | Fails on a flow without steps and leaves it unchanged. Otherwise the value changes as FlowState.ContinueWhen says. |
| Flows.Flow.OnActionCompletion | LogicFlow/LogicFlow.cs:201-205 | Fails on a flow without steps and leaves it unchanged. Otherwise the value changes as FlowState.OnActionCompletion says. |
| Flows.Flow.OnCompletion | LogicFlow/LogicFlow.cs:207-211 | Only the flow's completion callback changes. |
| Flows.Flow.Branch | LogicFlow/LogicFlow.cs:213-217 | Changes nothing. |
| Flows.Flow.CancelWhen | LogicFlow/LogicFlow.cs:219-223 | Changes nothing: the cancel condition is dropped. |
| Flows.Flow.ReturnResult | LogicFlow/LogicFlow.cs:225-229 | Changes nothing. |
| Flows.Flow.LoopUntil | LogicFlow/LogicFlow.cs:231-235 | Only the loop condition changes. |
| Scenarios.BasicDo | LogicFlow.Tests/LogicFlowTest.cs:12-18 | A single Do that assigns 10 completes in one tick with the number at 10. |
| Scenarios.BasicDoUntil | LogicFlow.Tests/LogicFlowTest.cs:21-27 | DoUntil(n++, n == 15) from 0 completes in 15 ticks with the number at 15. |
| Scenarios.BasicDoUntilDriven | LogicFlow.Tests/LogicFlowTest.cs:24-26 | A driver that stops on completion, or after 15 ticks, sees the number at 15. |
| Scenarios.CountingFlow | LogicFlow.Tests/LogicFlowTest.cs:24 | Building `new Flow().DoUntil(..)` on objects gives the flow value the builder functions describe. |
| Scenarios.DoUntilOnFlowObject | LogicFlow.Tests/LogicFlowTest.cs:21-27 | The DoUntil test on a Flow object, driven until completion with 15 ticks of fuel, ends with the number at 15. |
| Scenarios.DriveCounting | LogicFlow.Tests/LogicFlowTest.cs:24-26 | Any valid flow object whose value is the counting flow, driven from 0 with 15 ticks of fuel, returns 15. |
| Scenarios.DoUntilThenDoWhen | LogicFlow.Tests/LogicFlowTest.cs:30-40 | Add 10 until the number reaches 100, then a step gated on "at least 100" sets it to -1. The flow completes in 11 ticks with the number at -1. |
| Scenarios.DoUntilThenSkippedDoWhen | LogicFlow.Tests/LogicFlowTest.cs:43-52 | With target 200 and a gate "at most 100", the gated step is skipped. The flow completes in 21 ticks with the number at 200. |
| Scenarios.UpAndDownFlowBuilt | LogicFlow.Tests/LogicFlowTest.cs:125-127 | The three chained DoUntil calls build the three counting steps. |
| Scenarios.CountUp | LogicFlow.Tests/LogicFlowTest.cs:125 | Counting up by one from below 100 reaches 100 and moves to the second step. |
| Scenarios.CountDown | LogicFlow.Tests/LogicFlowTest.cs:126 | Counting down from 100 reaches 0 in 100 ticks and moves to the third step. |
| Scenarios.CountTens | LogicFlow.Tests/LogicFlowTest.cs:127 | Counting up in tens from 0 reaches 200 in 20 ticks and completes the flow. |
| Scenarios.DownAndTens | LogicFlow.Tests/LogicFlowTest.cs:126-127 | The last two phases together take 120 ticks and end completed at 200. |
| Scenarios.UpAndDownRun | LogicFlow.Tests/LogicFlowTest.cs:124-131 | From -1, the three-step flow completes in 221 ticks with the number at 200. |
| Scenarios.LoopUntilThree | LogicFlow/LogicFlow.cs:138-149 | One step adding one, with `LoopUntil(n >= 3)`, started at 0. After one and after two ticks the flow is back at its first step with the flag cleared, at 1 and 2. The third tick completes it at 3. |
| Scenarios.LoopUntilDriven | LogicFlow/LogicFlow.cs:155-159 | A driver on that flow that stops on completion or after 3 ticks has used all 3 ticks and sees 3. |
| Scenarios.LoopingFlow | LogicFlow/LogicFlow.cs:231-235 | Building `new Flow().Do(..).LoopUntil(..)` on objects gives the value the builder functions describe. |
| Scenarios.LoopOnFlowObject | LogicFlow/LogicFlow.cs:127-159 | The looping flow object, driven from 0 with 3 ticks of fuel, ends at 3. |
| Scenarios.GoUpAndThenDown | LogicFlow.Tests/LogicFlowTest.cs:122-132 | The flow built by the test's chain completes in 221 ticks with the number at 200. |

## Left out

- Flows.Flow.ExecuteFor: `ExecuteAsync` spins in `while (!IsCompleted)` for as long as the user predicates keep the flow running, which may be forever. The model ticks at most `fuel` times and says which of the two ends was reached. The `async`/`Task` wrapper is not modelled.
- Flows.Flow.Execute: requires at least one step. On an empty flow the source dereferences a null current step and throws, and that fault is not modelled.
- Threads and tasks: nothing in the engine runs concurrently.
- Conditions with side effects: a condition here is a pure `S -> bool`, so a predicate that changes the captured state while it is being checked (such as `++t_Index` in a test) is not modelled. That evaluation stops at the first failing predicate is still stated, through the count `Evaluate` returns.
- Exceptions thrown by user actions or predicates are not modelled.
- The per-step completion hook is stored (`SetOnCompletion`, `OnActionCompletion`) but is never fired, because nothing in the engine invokes it.
- Nested flows and cancellation are not implemented by the engine, so they are not modelled.
- `IFlowAction` is not modelled: `FlowAction` does not implement it and nothing uses it.
- `Foobar` is example code, not engine code, and is not modelled.
- `FlowCondition` is the function type `Condition<S>` rather than a wrapper object, and `IsSatisfied` is the application of that function.
- The position of the current step is a ghost `cursor` beside the `current` reference the source keeps. The two are tied together by the object invariant.
- These tests call methods that the engine's `Flow` class does not have, so they are not modelled: the bubble-sort flow test and the loop test (`LoopFlowUntil`), the cancel test (`CancelFlowWhen`, `LoopFlow`) and the nested-flow test (`Do(Flow)`).
- `BubbleSortTraditional` tests a plain sort, not the engine, and is not modelled.
