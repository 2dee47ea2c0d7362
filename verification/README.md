# A verified model of the FreeRADIUS state machine engine

This project models `src/lib/util/machine.c`, the generic finite-state-machine
engine of the FreeRADIUS server library, and proves properties of the model.

A caller supplies a state table (`Definition.MachineDef`):
- states numbered 1..max_state, each with optional enter, process and exit callbacks;
- an init state;
- an optional free state.

An instance (`StateMachine.Machine`) holds the following fields:
- the current state;
- a dead flag;
- a pause count;
- one deferred-transition slot;
- a reentrancy guard (`in_handler`, modelled as a bool);
- six FIFO hook lists per state: PRE and POST lists around each of the enter, process and exit callbacks.

The driver calls these operations, which the model has as methods of the class:
- `Alloc`, `Process`, `Transition`, `Pause`, `Resume`, `Register`, `Unregister` and `Dispose`;
- `Current` and `StateName`, which are functions.

The internal `call_hook` and `state_transition` are the methods `CallHook`, `RunAround` and `StateTransition`.

The callbacks and the hook functions belong to the caller, and their bodies are not modelled:
- Every call the engine makes is appended to a ghost `trace` of `Hooks.Event` values. Each event records its arguments, whether the reentrancy guard was set at the time of the call, and which state was current then (what a callback would see through `fr_machine_current`).
- The value a process callback returns is a parameter of the method that calls it.

The `Engine` module defines what a transition or a process step calls, and in which order, as functions of the hook lists (`TransitionEvents`, `ProcessEvents`). It also defines which lists such a step leaves behind (`AfterTransition`, `AfterProcess`). The methods are proved against these functions, and the ordering guarantees are proved about the functions as lemmas.

Files:
- `wrappers.dfy`: `Option`.
- `definition.dfy`: the state table and the naming rule.
- `hooks.dfy`: hook lists, the walk over one list, one-shot removal, unlinking.
- `engine.dfy`: event sequences of a transition and of a process step, and their ordering.
- `machine.dfy`: the instance class and its operations.
- `scenarios.dfy`: a sequence of driver calls.

## Model

| member | source | states |
|---|---|---|
| Definition.StateNameOf | src/lib/util/machine.c:392-411 | an out-of-range number is named "???"; a state number names that state; 0 names the current state, else the deferred target, else "???" |
| Hooks.HookCalls | src/lib/util/machine.c:72-77 | a walk makes exactly one call per entry of the list |
| Hooks.Survivors | src/lib/util/machine.c:76 | a walk never lengthens a list |
| Hooks.HookCallsInOrder | src/lib/util/machine.c:72-77 | the i-th call of a walk goes to the i-th entry, with the walk's (from, to) pair and guard |
| Hooks.HookCallsConcat | src/lib/util/machine.c:463 | walking a + b makes a's calls and then b's, so an entry appended at the tail is called after every earlier one (FIFO) |
| Hooks.SurvivorsConcat | src/lib/util/machine.c:72-77 | one-shot removal keeps the relative order of what stays |
| Hooks.WalkStep | src/lib/util/machine.c:72-77 | one more step of a walk adds exactly the call of entry i, and keeps entry i unless it is one-shot |
| Hooks.SurvivorsIdempotent | src/lib/util/machine.c:76 | walking a list a second time leaves it as the first walk left it |
| Hooks.SurvivorsMembers | src/lib/util/machine.c:76 | after a walk, an entry is in the list if and only if it was there before and is not one-shot |
| Hooks.SurvivorsDistinct | src/lib/util/machine.c:76 | a walk keeps entry identities distinct |
| Hooks.OneshotFiresOnce | src/lib/util/machine.c:72-77 | a one-shot entry is called exactly once by a walk, and no later walk, with any states, calls it |
| Hooks.UnlinkedExact | src/lib/util/machine.c:413-418 | removing an entry yields the entries before it followed by the entries after it |
| Hooks.UnlinkedGone | src/lib/util/machine.c:413-418 | after removal no entry has the removed identity, every remaining entry was there before, identities stay distinct |
| Engine.WalkCalls | src/lib/util/machine.c:72-77 | every call of a walk is a guarded hook call on that list's slot, passed the walk's (from, to) and current state |
| Engine.AroundCalls | src/lib/util/machine.c:103-105 | each call around one callback belongs to its PRE list, the callback or its POST list, concerns that state, is made while that state is current, is guarded, and hooks get (from, to) |
| Engine.AroundInOrder | src/lib/util/machine.c:112-114 | the calls around one callback come as PRE hooks, the callback, then POST hooks |
| Engine.AroundCallbackAt | src/lib/util/machine.c:252-254 | the callback's call sits right after the PRE hooks; every other call is a hook call |
| Engine.AroundSide | src/lib/util/machine.c:103-105 | one side of a step is ordered, concerns one state, is made while that state is current, contains the callback's call if and only if the callback is present, and calls it at most once |
| Engine.AroundElsewhere | src/lib/util/machine.c:103-114 | walking the lists around one callback does not change the calls around any other callback |
| Engine.TransitionOrder | src/lib/util/machine.c:87-117 | a transition calls exit PRE, exit, exit POST, enter PRE, enter, enter POST, in that order; the first three concern the old state and are made while it is current, the last three concern the new one and are made once it is current (machine.c:110); hooks get (old, new); all calls are guarded; exit and enter are each called exactly once when present and not at all otherwise; process is never called |
| Engine.ProcessOrder | src/lib/util/machine.c:249-256 | a process step calls process PRE hooks, then the process callback exactly once, then process POST hooks; all calls concern the current state, are made while it is current, and are guarded; hooks get (state, state) |
| Engine.TransitionFrame | src/lib/util/machine.c:87-117 | a transition changes only the exit lists of the old state and the enter lists of the new one, which lose their one-shot entries; every other list is unchanged; the lists still cover exactly the table's states |
| Engine.QuietTransition | src/lib/util/machine.c:197-218 | with no hook registered, a transition calls only the old state's exit and the new state's enter callbacks, and leaves the lists unchanged |
| Engine.WalkedOk | src/lib/util/machine.c:76 | walking the lists around a callback keeps the registry invariant (coverage, distinct identities, all below the next identity) |
| Engine.AppendedOk | src/lib/util/machine.c:453-463 | appending an entry with the next identity keeps the registry invariant |
| Engine.UnlinkedOk | src/lib/util/machine.c:413-418 | unlinking the i-th entry keeps the registry invariant, removes exactly that entry, and leaves no entry with its identity |
| StateMachine.EmptyLists | src/lib/util/machine.c:180-190 | every state 1..max_state gets its six hook lists, all empty, and no other key exists |
| StateMachine.Alloc | src/lib/util/machine.c:156-221 | a fresh valid instance; one unguarded, hook-free call of the init state's process callback; a non-zero in-range answer other than init is followed by exactly one transition, which calls only the target's enter callback; paused, deferred and dead start at 0/false |
| StateMachine.Machine.constructor | src/lib/util/machine.c:166-213 | set-up: the init state is current, all hook lists are empty, counters are cleared, and the only call is the init process callback |
| StateMachine.Machine.Start | src/lib/util/machine.c:218 | the transition request made at set-up, on an instance with no hooks |
| StateMachine.Machine.CallHook | src/lib/util/machine.c:68-78 | the list loses exactly its one-shot entries, other lists are unchanged, and the trace grows by the walk's calls in list order |
| StateMachine.Machine.RunAround | src/lib/util/machine.c:103-105 | walks PRE, calls the callback, walks POST; the lists become `Walked` and the trace grows by `Around` |
| StateMachine.Machine.StateTransition | src/lib/util/machine.c:87-117 | exactly one transition: the trace grows by `TransitionEvents`, the lists become `AfterTransition`, the target is current, the guard is set throughout and cleared at the end |
| StateMachine.Machine.Transition | src/lib/util/machine.c:301-368 | -1 and no change when dead or out of range; 0 and no change for the current state; deferral while paused with nothing else changed; otherwise exactly one transition |
| StateMachine.Machine.Process | src/lib/util/machine.c:239-281 | the guarded process step runs; 0 changes nothing more; the free state sets dead and returns -1 without a transition; any other answer is requested as a transition and returned |
| StateMachine.Machine.Pause | src/lib/util/machine.c:473-478 | the pause count goes up by one and nothing else changes |
| StateMachine.Machine.Resume | src/lib/util/machine.c:483-504 | the count goes down by one, never below 0; only when it reaches 0 with a target deferred is the slot cleared and exactly one transition to that target run |
| StateMachine.Machine.Register | src/lib/util/machine.c:427-468 | an unknown type registers nothing and gives no handle; otherwise the entry is appended at the tail of its list with a fresh identity and stays registered |
| StateMachine.Machine.Unregister | src/lib/util/machine.c:413-418 | exactly the handle's entry leaves its list; every other entry and list is unchanged; the handle is no longer registered |
| StateMachine.Machine.Dispose | src/lib/util/machine.c:126-145 | with a free state, exactly one transition into it, whether or not the instance is dead; no process callback is called |
| StateMachine.Machine.Current | src/lib/util/machine.c:376-383 | a live instance's current state is one of the table's states |
| StateMachine.Machine.StateName | src/lib/util/machine.c:392-411 | the name of a state number, with 0 naming the current state |
| Scenarios.NestedPause | src/lib/util/machine.c:483-504 | pause twice, request, resume twice: only the last resume runs the deferred transition, exactly once |

## Left out

- Allocation failure: `fr_machine_alloc` and `fr_machine_hook` return NULL when talloc fails. Allocation never fails in the model.
- talloc ownership and destructors: disposal is the explicit `Dispose`, and removing a hook is the explicit `Unregister`. Freeing a hook's talloc context is not modelled.
- Memory release: after `Dispose` the ghost flag `released` is set. Returning memory is not modelled.
- The intrusive `fr_dlist` lists: each list is a `seq<Hook>`, and an entry's address is modelled by a unique `id`.
- Callback and hook bodies, and the `uctx` contexts: they are foreign code. Each call is recorded as a trace event, and a process callback's answer is a parameter.
- Hooks that change the hook lists while a walk is running: the source only makes it safe for the running hook to remove itself.
- Which function set `in_handler`: the guard is modelled as a bool.
- Callbacks and hooks that call back into the engine (`Pause`, `Resume`, `Register`, `Unregister`, `Transition`): the model assumes they do not. This excludes a process callback that pauses, which would make the transition requested at machine.c:278 a deferral; an enter callback that registers a hook on a list not yet walked, which would then fire in the same transition; and the init process callback, which runs with the guard clear (machine.c:171, 213) and could request a transition of its own.
- The disabled legal-transition check under `#if 0` (machine.c:323-331).
- Threads: the engine is single-threaded and runs to completion.
- Integer widths: `paused` and hook identities are unbounded. Overflow of the C `int` pause count is not modelled.
- StateMachine.Machine.CallHook: the walk builds the remaining list and stores it back once, after the walk. The source unlinks each one-shot entry right after its call. Hook bodies are not modelled, so nothing can observe the list between those points.
- StateMachine.Machine.Transition: an immediate transition to state 0 is excluded by a precondition. The source's range check lets 0 through and would then enter the uninitialised slot 0. While paused, a request for 0 is recorded as written, which leaves the slot empty.
- StateMachine.Machine.Register: a valid state number is a precondition, because the source indexes the state array without a bounds check. An out-of-range PRE/POST sense cannot be expressed, since `Phase` has only two values.
- StateMachine.Machine.Current: the source's "no current state" answer (0) cannot occur, because every instance has a current state from set-up on.

## Behaviour of the code at its edges

- `_machine_free` (machine.c:126-145) does not check `dead`, so `Dispose` runs the transition into the free state on a dead instance too.
- `state_transition` asserts that no transition is deferred (machine.c:93), so `Dispose` requires an empty deferral slot.
- `fr_machine_process` ignores the result of the transition it requests and returns the callback's answer (machine.c:278-280), so an answer outside 0..max_state comes back unchanged with no transition.
- `fr_machine_resume` at pause count 0 leaves the count at 0 (machine.c:489-492).
- `fr_machine_transition` on a dead instance returns -1 (machine.c:305).
- The assertion at machine.c:132 takes the address of an array member and always holds, so the free state need not have an enter callback.
