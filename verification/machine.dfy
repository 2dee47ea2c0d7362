/** A machine instance: one run of the engine over a caller's state table,
    with the operations the embedding driver calls. Callback bodies are not
    modelled: every call the engine makes is appended to the ghost `trace`,
    and the value a process callback returns is a parameter. */
module StateMachine {
  import opened Wrappers
  import opened Hooks
  import opened Definition
  import opened Engine

  /** The kind of hook asked for at registration: one of the three callback
      points, or a value the registration switch does not know. */
  datatype HookType = Known(point: Point) | Unknown(code: int)

  /** What registration hands back: the list the entry was linked into and the entry's identity. */
  datatype HookHandle = HookHandle(slot: Slot, id: nat)

  /** The hook lists of a new instance: six empty lists for every state
      1..maxState, made state by state. */
  method EmptyLists(def: MachineDef) returns (lists: map<Slot, seq<Hook>>)
    requires def.WellFormed()
    ensures Covers(def, lists)
    ensures forall k :: k in lists ==> lists[k] == []
  {
    lists := map[];
    var i := 1;
    while i <= def.maxState
      invariant 1 <= i <= def.maxState + 1
      invariant forall k: Slot :: k in lists <==> 1 <= k.state < i
      invariant forall k :: k in lists ==> lists[k] == []
    {
      lists := lists[Slot(i, Enter, Pre) := []][Slot(i, Enter, Post) := []]
                    [Slot(i, Point.Process, Pre) := []][Slot(i, Point.Process, Post) := []]
                    [Slot(i, Exit, Pre) := []][Slot(i, Exit, Post) := []];
      forall k: Slot | k.state == i ensures k in lists {
        SlotCases(k);
      }
      i := i + 1;
    }
  }

  /** Instance creation: set-up, then a non-zero answer of the init
      state's process callback is requested as a transition. With no hook
      registered yet, that transition calls only the enter callback of its
      target (the init state has no exit callback). */
  method Alloc(def: MachineDef, initNext: int) returns (m: Machine)
    requires def.WellFormed()
    requires initNext >= 0
    ensures fresh(m) && m.Valid() && !m.released
    ensures m.def == def && m.paused == 0 && m.deferred == 0 && !m.dead && m.nextId == 0
    ensures forall k :: k in m.hooks ==> m.hooks[k] == []
    ensures var boot := [ProcessCalled(def.init, initNext, false, def.init)];
      if initNext == 0 || initNext == def.init || initNext > def.maxState
      then m.current == def.init && m.trace == boot
      else m.current == initNext &&
           m.trace == boot + (if def.HasEnter(initNext) then [EnterCalled(initNext, true, initNext)] else [])
  {
    m := new Machine(def, initNext);
    if initNext != 0 {
      m.Start(initNext);
    }
  }

  class Machine {
    /** The caller's table; never changed by the instance. */
    const def: MachineDef
    /** Number of the current state (the C code keeps the address of its entry in the per-state array). */
    var current: int
    /** The reentrancy guard: set while the engine is inside a hook or callback. */
    var inHandler: bool
    /** The deferred target, 0 for none. */
    var deferred: int
    /** The pause count. */
    var paused: nat
    /** Set once the process callback has asked for the free state. */
    var dead: bool
    /** The six hook lists of every state, keyed by (state, point, phase). */
    var hooks: map<Slot, seq<Hook>>
    /** The identity the next registered hook gets. */
    var nextId: nat
    /** Every call the engine has made so far, in order. */
    ghost var trace: seq<Event>
    /** Set once the instance has been disposed of. */
    ghost var released: bool

    /** The instance's invariant, except for the reentrancy guard: the
        current state and the deferred target are state numbers, a deferred
        target only exists while paused and is never the current state, and
        every state 1..maxState has its hook lists, with distinct identities
        handed out before `nextId`. */
    ghost predicate Wf()
      reads this
    {
      def.WellFormed() &&
      1 <= current <= def.maxState &&
      0 <= deferred <= def.maxState &&
      (deferred != 0 ==> paused > 0 && deferred != current) &&
      HooksOk(def, hooks, nextId)
    }

    /** The invariant between calls from the driver: the guard is clear. */
    ghost predicate Valid()
      reads this
    {
      Wf() && !inHandler
    }

    /** The hook behind `handle` is still linked into its list. */
    ghost predicate Registered(handle: HookHandle)
      reads this
    {
      handle.slot in hooks &&
      exists i :: 0 <= i < |hooks[handle.slot]| && hooks[handle.slot][i].id == handle.id
    }

    /** The source's assertions on a request that gets past the rejection
        and self-transition checks: a paused machine holds at most one
        deferred target, and an immediate transition must name a state
        (slot 0 has no definition). */
    ghost predicate Requestable(state: int)
      reads this
    {
      !dead && 0 <= state <= def.maxState && state != current ==>
        if paused > 0 then deferred == 0 else state != 0
    }

    /** Exactly one transition from the old current state into `target` ran. */
    twostate predicate Ran(target: int)
      reads this
    {
      current == target && !inHandler &&
      hooks == AfterTransition(old(hooks), old(current), target) &&
      trace == old(trace) + TransitionEvents(def, old(hooks), old(current), target)
    }

    /** Instance set-up: six empty hook lists for every state, the init
        state current, and one call of its process callback with no hook
        and the guard clear; `initNext` is what that callback returns. */
    constructor (def: MachineDef, initNext: int)
      requires def.WellFormed()
      ensures Valid() && !released
      ensures this.def == def && current == def.init
      ensures paused == 0 && deferred == 0 && !dead && nextId == 0
      ensures forall k :: k in hooks ==> hooks[k] == []
      ensures trace == [ProcessCalled(def.init, initNext, false, def.init)]
    {
      this.def := def;
      current := def.init;
      inHandler := false;
      deferred := 0;
      paused := 0;
      dead := false;
      nextId := 0;
      released := false;
      var lists := EmptyLists(def);
      hooks := lists;
      trace := [ProcessCalled(def.init, initNext, false, def.init)];
    }

    /** The transition request the set-up makes with a non-zero answer of
        the init state's process callback, while no hook is registered yet:
        it calls at most the enter callback of the target. */
    method Start(initNext: int)
      requires Valid() && !released && !dead && paused == 0 && deferred == 0
      requires current == def.init && initNext > 0
      requires forall k :: k in hooks ==> hooks[k] == []
      modifies this`hooks, this`trace, this`current, this`inHandler, this`deferred
      ensures Valid() && deferred == 0 && hooks == old(hooks)
      ensures if initNext == def.init || initNext > def.maxState
        then current == old(current) && trace == old(trace)
        else current == initNext &&
             trace == old(trace) + (if def.HasEnter(initNext) then [EnterCalled(initNext, true, initNext)] else [])
    {
      ghost var empty := hooks;
      var ignored := Transition(initNext);
      if initNext <= def.maxState && initNext != def.init {
        ghost var enter := if def.HasEnter(initNext) then [EnterCalled(initNext, true, initNext)] else [];
        assert trace == old(trace) + TransitionEvents(def, empty, def.init, initNext);
        QuietTransition(def, empty, def.init, initNext);
        assert !def.HasExit(def.init);
        assert TransitionEvents(def, empty, def.init, initNext) == [] + enter;
        assert [] + enter == enter;
      }
    }

    /** Walks one hook list from head to tail, calling every hook with
        (from, to); each one-shot entry leaves the list after its call and
        every other entry stays, in order. The walk builds the remaining
        list as it goes and stores it back when the walk ends. */
    method CallHook(slot: Slot, from: int, to: int)
      requires slot in hooks
      modifies this`hooks, this`trace
      ensures hooks == old(hooks)[slot := Survivors(old(hooks)[slot])]
      ensures trace == old(trace) + HookCalls(old(hooks)[slot], slot, from, to, inHandler, current)
    {
      var guarded := inHandler;
      var list := hooks[slot];
      var kept: seq<Hook> := [];
      ghost var calls: seq<Event> := [];
      var i := 0;
      while i < |list|
        invariant 0 <= i <= |list|
        invariant kept == Survivors(list[..i])
        invariant calls == HookCalls(list[..i], slot, from, to, guarded, current)
        invariant hooks == old(hooks) && trace == old(trace) + calls
      {
        var hook := list[i];
        WalkStep(list, i, slot, from, to, guarded, current);
        var call := HookFired(hook.id, slot, from, to, guarded, current);
        AppendTwice(old(trace), calls, [call]);
        trace := trace + [call];
        calls := calls + [call];
        if !hook.oneshot {
          kept := kept + [hook];
        }
        i := i + 1;
      }
      assert list[..i] == list;
      hooks := hooks[slot := kept];
    }

    /** The PRE hooks, the callback and the POST hooks around one callback
        of `state`, as the source writes them out for exit, enter and process. */
    method RunAround(state: int, point: Point, ghost callback: seq<Event>, from: int, to: int)
      requires HooksOk(def, hooks, nextId) && inHandler && 1 <= state <= def.maxState && current == state
      modifies this`hooks, this`trace
      ensures HooksOk(def, hooks, nextId)
      ensures hooks == Walked(old(hooks), state, point)
      ensures trace == old(trace) + Around(old(hooks), state, point, callback, from, to)
    {
      ghost var before, trace0 := hooks, trace;
      var pre, post := Slot(state, point, Pre), Slot(state, point, Post);
      ghost var preCalls := HookCalls(hooks[pre], pre, from, to, true, state);
      ghost var postCalls := HookCalls(hooks[post], post, from, to, true, state);
      CallHook(pre, from, to);
      assert hooks[post] == before[post];
      trace := trace + callback;
      CallHook(post, from, to);
      assert trace == trace0 + preCalls + callback + postCalls;
      AppendThrice(trace0, preCalls, callback, postCalls);
      WalkedOk(def, before, nextId, state, point);
    }

    /** The transition engine: exit side of the current state, switch of the
        current state, enter side of `target`, all with the guard set. */
    method StateTransition(target: int)
      requires Valid() && !released
      requires deferred == 0
      requires 1 <= target <= def.maxState
      modifies this`hooks, this`trace, this`current, this`inHandler
      ensures Valid()
      ensures Ran(target)
    {
      inHandler := true;
      var from := current;
      ghost var before, trace0 := hooks, trace;
      ghost var exitCallback := if def.HasExit(from) then [ExitCalled(from, true, from)] else [];
      ghost var enterCallback := if def.HasEnter(target) then [EnterCalled(target, true, target)] else [];
      ghost var exitSide := Around(before, from, Exit, exitCallback, from, target);
      ghost var enterSide := Around(before, target, Enter, enterCallback, from, target);
      RunAround(from, Exit, exitCallback, from, target);
      assert deferred == 0;
      ghost var walked, trace1 := hooks, trace;
      current := target;
      AroundElsewhere(before, from, Exit, target, Enter, enterCallback, from, target);
      assert Around(walked, target, Enter, enterCallback, from, target) == enterSide;
      RunAround(target, Enter, enterCallback, from, target);
      assert deferred == 0;
      AppendTwice(trace0, exitSide, enterSide);
      inHandler := false;
    }

    /** A transition request from the driver. Rejected (-1, nothing changes)
        when dead or out of range; a request for the current state is a
        no-op; while paused the target is deferred; otherwise the
        transition runs at once. */
    method Transition(state: int) returns (r: int)
      requires Valid() && !released
      requires Requestable(state)
      modifies this`hooks, this`trace, this`current, this`inHandler, this`deferred
      ensures Valid()
      ensures r == (if old(dead) || state < 0 || state > def.maxState then -1 else 0)
      ensures r == -1 || state == old(current) ==>
        current == old(current) && deferred == old(deferred) && hooks == old(hooks) && trace == old(trace)
      ensures r == 0 && state != old(current) && paused > 0 ==>
        deferred == state && current == old(current) && hooks == old(hooks) && trace == old(trace)
      ensures r == 0 && state != old(current) && paused == 0 ==> deferred == 0 && Ran(state)
    {
      if dead {
        return -1;
      }
      if state < 0 || state > def.maxState {
        return -1;
      }
      if current == 0 {
        return -1;
      }
      if current == state {
        return 0;
      }
      if paused > 0 {
        deferred := state;
        return 0;
      }
      StateTransition(state);
      return 0;
    }

    /** Driven processing. `next` is what the current state's process
        callback returns. Process hooks and the callback run with the guard
        set; then 0 changes nothing, the free state marks the instance dead
        without a transition, and any other answer is requested as a
        transition and handed back. */
    method Process(next: int) returns (r: int)
      requires Valid() && !released
      requires !dead && paused == 0 && deferred == 0
      requires def.HasProcess(current)
      modifies this`hooks, this`trace, this`current, this`inHandler, this`deferred, this`dead
      ensures Valid() && deferred == 0
      ensures r == (if next == 0 then 0 else if next == def.free then -1 else next)
      ensures dead <==> next != 0 && next == def.free
      ensures var walked := AfterProcess(old(hooks), old(current));
        var stepped := old(trace) + ProcessEvents(old(hooks), old(current), next);
        if next != 0 && next != def.free && 1 <= next <= def.maxState && next != old(current)
        then current == next && hooks == AfterTransition(walked, old(current), next) &&
             trace == stepped + TransitionEvents(def, walked, old(current), next)
        else current == old(current) && hooks == walked && trace == stepped
    {
      inHandler := true;
      var from := current;
      RunAround(from, Point.Process, [ProcessCalled(from, next, inHandler, current)], from, from);
      inHandler := false;
      if next == 0 {
        r := 0;
      } else if next == def.free {
        dead := true;
        r := -1;
      } else {
        var ignored := Transition(next);
        r := next;
      }
    }

    /** Holds transitions back; pauses nest. */
    method Pause()
      requires Valid() && !released && !dead
      modifies this`paused
      ensures Valid()
      ensures paused == old(paused) + 1
    {
      paused := paused + 1;
    }

    /** Releases one pause. Only the release that brings the count to 0 acts
        on the deferred target: it clears the slot, then runs exactly one
        transition to it. A release at count 0 leaves the count at 0. */
    method Resume()
      requires Valid() && !released && !dead
      modifies this`paused, this`deferred, this`hooks, this`trace, this`current, this`inHandler
      ensures Valid()
      ensures paused == if old(paused) > 0 then old(paused) - 1 else 0
      ensures paused > 0 || old(deferred) == 0 ==>
        deferred == old(deferred) && current == old(current) && hooks == old(hooks) && trace == old(trace)
      ensures paused == 0 && old(deferred) != 0 ==> deferred == 0 && Ran(old(deferred))
    {
      if paused > 0 {
        paused := paused - 1;
        if paused > 0 {
          return;
        }
      }
      if deferred == 0 {
        return;
      }
      var target := deferred;
      deferred := 0;
      StateTransition(target);
    }

    /** Registers a hook at the tail of one of the six lists of `state`; an
        unknown hook type registers nothing. */
    method Register(state: int, kind: HookType, phase: Phase, oneshot: bool) returns (handle: Option<HookHandle>)
      requires Valid() && !released && !dead
      requires 1 <= state <= def.maxState
      modifies this`hooks, this`nextId
      ensures Valid()
      ensures kind.Unknown? ==> handle == None && hooks == old(hooks) && nextId == old(nextId)
      ensures kind.Known? ==>
        var slot := Slot(state, kind.point, phase);
        handle == Some(HookHandle(slot, old(nextId))) && nextId == old(nextId) + 1 &&
        hooks == old(hooks)[slot := old(hooks)[slot] + [Hook(old(nextId), oneshot)]]
      ensures handle.Some? ==> Registered(handle.value)
    {
      var point: Point;
      match kind {
        case Known(p) =>
          point := p;
        case Unknown(_) =>
          return None;
      }
      var slot := Slot(state, point, phase);
      var list := hooks[slot];
      var hook := Hook(nextId, oneshot);
      AppendedOk(def, hooks, nextId, slot, oneshot);
      hooks := hooks[slot := list + [hook]];
      nextId := nextId + 1;
      handle := Some(HookHandle(slot, hook.id));
      assert hooks[slot][|list|] == hook;
    }

    /** Removes a registered hook: exactly its entry leaves its list, every
        other entry and every other list stays as it was. */
    method Unregister(handle: HookHandle)
      requires Valid() && !released
      requires Registered(handle)
      modifies this`hooks
      ensures Valid()
      ensures var before := old(hooks)[handle.slot];
        exists i :: 0 <= i < |before| && before[i].id == handle.id &&
                    hooks == old(hooks)[handle.slot := before[..i] + before[i + 1..]]
      ensures !Registered(handle)
    {
      var list := hooks[handle.slot];
      ghost var i :| 0 <= i < |list| && list[i].id == handle.id;
      UnlinkedOk(def, hooks, nextId, handle.slot, i);
      hooks := hooks[handle.slot := Unlinked(list, handle.id)];
    }

    /** Disposal: when the table has a free state, exactly one transition
        from the current state into it, whether or not the instance is dead
        or paused; then the instance is gone. */
    method Dispose()
      requires Valid() && !released
      requires def.free != 0 ==> deferred == 0
      modifies this`hooks, this`trace, this`current, this`inHandler, this`released
      ensures Valid() && released
      ensures def.free != 0 ==> Ran(def.free)
      ensures def.free == 0 ==> current == old(current) && hooks == old(hooks) && trace == old(trace)
    {
      if def.free != 0 {
        StateTransition(def.free);
      }
      released := true;
    }

    /** The current state; a live instance is always in one of the table's states. */
    function Current(): (s: int)
      reads this
      requires Valid() && !dead
      ensures 1 <= s <= def.maxState
      ensures def.states[s].number == s
    {
      current
    }

    /** The diagnostic name of a state number; 0 names the current state. */
    function StateName(state: int): (name: string)
      reads this
      requires Valid() && !dead
      ensures 1 <= state <= def.maxState ==> name == def.states[state].name
      ensures state == 0 ==> name == def.states[Current()].name
      ensures state < 0 || state > def.maxState ==> name == UnknownName
    {
      StateNameOf(def, current, deferred, state)
    }
  }
}
