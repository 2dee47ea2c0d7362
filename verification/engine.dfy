/** What the transition engine and driven processing call, and in which
    order: the event sequence of one transition and of one process step, the
    hook lists they leave behind, and the ordering guarantees proved about them. */
module Engine {
  import opened Hooks
  import opened Definition

  /** An instance holds hook lists for exactly the states 1..maxState
      (slot 0 is never initialised). */
  ghost predicate Covers(def: MachineDef, hooks: map<Slot, seq<Hook>>) {
    forall k: Slot :: k in hooks <==> 1 <= k.state <= def.maxState
  }

  /** The calls around one callback of `state`: its PRE hooks, the callback
      (when the state has it), its POST hooks, each hook being passed
      (from, to) while the reentrancy guard is set. */
  function Around(hooks: map<Slot, seq<Hook>>, state: int, point: Point, callback: seq<Event>,
                  from: int, to: int): seq<Event>
  {
    var pre := Slot(state, point, Pre);
    var post := Slot(state, point, Post);
    HookCalls(Lookup(hooks, pre), pre, from, to, true, state)
    + callback
    + HookCalls(Lookup(hooks, post), post, from, to, true, state)
  }

  /** The hook lists after walking the PRE and POST lists around one callback of `state`. */
  function Walked(hooks: map<Slot, seq<Hook>>, state: int, point: Point): map<Slot, seq<Hook>> {
    var pre := Slot(state, point, Pre);
    var post := Slot(state, point, Post);
    hooks[pre := Survivors(Lookup(hooks, pre))][post := Survivors(Lookup(hooks, post))]
  }

  /** Walking the lists around one callback leaves the lists around any other callback alone. */
  lemma WalkedElsewhere(hooks: map<Slot, seq<Hook>>, state: int, point: Point, k: Slot)
    requires k.state != state || k.point != point
    ensures Lookup(Walked(hooks, state, point), k) == Lookup(hooks, k)
  {
  }

  /** ... and so the calls around that other callback are the same before and after the walk. */
  lemma AroundElsewhere(hooks: map<Slot, seq<Hook>>, state: int, point: Point, state': int, point': Point,
                        callback: seq<Event>, from: int, to: int)
    requires state' != state || point' != point
    ensures Around(Walked(hooks, state, point), state', point', callback, from, to)
         == Around(hooks, state', point', callback, from, to)
  {
    WalkedElsewhere(hooks, state, point, Slot(state', point', Pre));
    WalkedElsewhere(hooks, state, point, Slot(state', point', Post));
  }

  /** The calls of one transition from `from` to `to`: exit side of `from`, then enter side of `to`. */
  function TransitionEvents(def: MachineDef, hooks: map<Slot, seq<Hook>>, from: int, to: int): seq<Event> {
    Around(hooks, from, Exit, if def.HasExit(from) then [ExitCalled(from, true, from)] else [], from, to)
    + Around(hooks, to, Enter, if def.HasEnter(to) then [EnterCalled(to, true, to)] else [], from, to)
  }

  /** The hook lists after one transition from `from` to `to`. */
  function AfterTransition(hooks: map<Slot, seq<Hook>>, from: int, to: int): map<Slot, seq<Hook>> {
    Walked(Walked(hooks, from, Exit), to, Enter)
  }

  /** The calls of one process step in `state` whose callback answered `next`;
      process hooks are passed (state, state). */
  function ProcessEvents(hooks: map<Slot, seq<Hook>>, state: int, next: int): seq<Event> {
    Around(hooks, state, Process, [ProcessCalled(state, next, true, state)], state, state)
  }

  /** The hook lists after one process step in `state`. */
  function AfterProcess(hooks: map<Slot, seq<Hook>>, state: int): map<Slot, seq<Hook>> {
    Walked(hooks, state, Process)
  }

  /** The position of the PRE hooks around a callback; the callback comes
      one position later and the POST hooks two. */
  function FirstStage(point: Point): nat {
    match point
    case Exit => 0
    case Enter => 3
    case Process => 6
  }

  /** The position of a kind of call in the fixed order of the engine:
      exit PRE hooks, exit callback, exit POST hooks, enter PRE hooks,
      enter callback, enter POST hooks; then process PRE hooks, process
      callback, process POST hooks. */
  function Stage(e: Event): nat {
    match e
    case HookFired(_, slot, _, _, _, _) => FirstStage(slot.point) + (if slot.phase == Pre then 0 else 2)
    case ExitCalled(_, _, _) => 1
    case EnterCalled(_, _, _) => 4
    case ProcessCalled(_, _, _, _) => 7
  }

  /** The state whose hook list or callback a call belongs to. */
  function Subject(e: Event): int {
    match e
    case HookFired(_, slot, _, _, _, _) => slot.state
    case ExitCalled(s, _, _) => s
    case EnterCalled(s, _, _) => s
    case ProcessCalled(s, _, _, _) => s
  }

  /** The calls never go back to an earlier position of the fixed order. */
  ghost predicate InStageOrder(events: seq<Event>) {
    forall i, j :: 0 <= i < j < |events| ==> Stage(events[i]) <= Stage(events[j])
  }

  /** Every call of a guarded walk is a hook call on the walked slot, made
      with the guard set and the walk's current state, and passed the walk's
      pair of states. */
  lemma WalkCalls(list: seq<Hook>, slot: Slot, from: int, to: int, current: int)
    ensures forall e :: e in HookCalls(list, slot, from, to, true, current) ==>
      e.HookFired? && e.slot == slot && e.from == from && e.to == to && e.guarded && e.current == current
  {
    HookCallsInOrder(list, slot, from, to, true, current);
  }

  /** Appending calls that all come at or after position `k` to calls that
      all come at or before it keeps the order. */
  lemma InStageOrderConcat(a: seq<Event>, b: seq<Event>, k: nat)
    requires InStageOrder(a) && InStageOrder(b)
    requires forall e :: e in a ==> Stage(e) <= k
    requires forall e :: e in b ==> Stage(e) >= k
    ensures InStageOrder(a + b)
  {
    var ab := a + b;
    forall i, j | 0 <= i < j < |ab| ensures Stage(ab[i]) <= Stage(ab[j]) {
      if j < |a| {
        assert ab[i] == a[i] && ab[j] == a[j];
      } else if i >= |a| {
        assert ab[i] == b[i - |a|] && ab[j] == b[j - |a|];
      } else {
        assert ab[i] == a[i] && ab[j] == b[j - |a|];
      }
    }
  }

  /** A sequence of calls that all sit at one position is in order. */
  lemma InStageOrderUniform(a: seq<Event>, k: nat)
    requires forall e :: e in a ==> Stage(e) == k
    ensures InStageOrder(a)
  {
    forall i, j | 0 <= i < j < |a| ensures Stage(a[i]) <= Stage(a[j]) {
      assert a[i] in a && a[j] in a;
    }
  }

  /** What a call around one callback of `state` can be: a hook of its PRE
      list at the first position, the callback's own call one position
      later, or a hook of its POST list one position after that; every
      call concerns `state` and is made with the guard set while `state` is
      current, and every hook is passed (from, to). */
  lemma AroundCalls(hooks: map<Slot, seq<Hook>>, state: int, point: Point, callback: seq<Event>,
                    from: int, to: int)
    requires forall e :: e in callback ==>
      !e.HookFired? && Stage(e) == FirstStage(point) + 1 && e.guarded && e.current == state &&
      Subject(e) == state
    ensures forall e :: e in Around(hooks, state, point, callback, from, to) ==>
      FirstStage(point) <= Stage(e) <= FirstStage(point) + 2 && e.guarded && e.current == state &&
      Subject(e) == state && (e.HookFired? ==> e.from == from && e.to == to) &&
      (!e.HookFired? ==> e in callback)
  {
    var pre, post := Slot(state, point, Pre), Slot(state, point, Post);
    WalkCalls(Lookup(hooks, pre), pre, from, to, state);
    WalkCalls(Lookup(hooks, post), post, from, to, state);
  }

  /** The calls around one callback come in the order PRE hooks, callback, POST hooks. */
  lemma AroundInOrder(hooks: map<Slot, seq<Hook>>, state: int, point: Point, callback: seq<Event>,
                      from: int, to: int)
    requires forall e :: e in callback ==> Stage(e) == FirstStage(point) + 1
    ensures InStageOrder(Around(hooks, state, point, callback, from, to))
  {
    var pre, post := Slot(state, point, Pre), Slot(state, point, Post);
    var s0 := HookCalls(Lookup(hooks, pre), pre, from, to, true, state);
    var s2 := HookCalls(Lookup(hooks, post), post, from, to, true, state);
    WalkCalls(Lookup(hooks, pre), pre, from, to, state);
    WalkCalls(Lookup(hooks, post), post, from, to, state);
    var k := FirstStage(point);
    InStageOrderUniform(s0, k);
    InStageOrderUniform(callback, k + 1);
    InStageOrderUniform(s2, k + 2);
    InStageOrderConcat(s0, callback, k + 1);
    InStageOrderConcat(s0 + callback, s2, k + 2);
  }

  /** The callback's own call sits right after the PRE hooks: whatever is
      not a hook call is at that place and is the callback's call. */
  lemma AroundCallbackAt(hooks: map<Slot, seq<Hook>>, state: int, point: Point, callback: seq<Event>,
                         from: int, to: int)
    ensures var n := |Lookup(hooks, Slot(state, point, Pre))|;
      var events := Around(hooks, state, point, callback, from, to);
      forall i :: 0 <= i < |events| && !events[i].HookFired? ==>
        n <= i < n + |callback| && events[i] == callback[i - n]
  {
    var pre, post := Slot(state, point, Pre), Slot(state, point, Post);
    var s0 := HookCalls(Lookup(hooks, pre), pre, from, to, true, state);
    var s2 := HookCalls(Lookup(hooks, post), post, from, to, true, state);
    HookCallsInOrder(Lookup(hooks, pre), pre, from, to, true, state);
    HookCallsInOrder(Lookup(hooks, post), post, from, to, true, state);
    var events := s0 + callback + s2;
    assert Around(hooks, state, point, callback, from, to) == events;
  }

  /** One side of a transition or process step: the calls around one
      callback `call`, made when `present`; the callback is called at most
      once. */
  lemma AroundSide(hooks: map<Slot, seq<Hook>>, state: int, point: Point, call: Event, present: bool,
                   from: int, to: int)
    requires !call.HookFired? && Stage(call) == FirstStage(point) + 1 && call.guarded &&
             call.current == state && Subject(call) == state
    ensures InStageOrder(Around(hooks, state, point, if present then [call] else [], from, to))
    ensures forall e :: e in Around(hooks, state, point, if present then [call] else [], from, to) ==>
      FirstStage(point) <= Stage(e) <= FirstStage(point) + 2 && e.guarded && e.current == state &&
      Subject(e) == state && (e.HookFired? ==> e.from == from && e.to == to) && (!e.HookFired? ==> e == call)
    ensures call in Around(hooks, state, point, if present then [call] else [], from, to) <==> present
    ensures var events := Around(hooks, state, point, if present then [call] else [], from, to);
      forall i, j :: 0 <= i < |events| && 0 <= j < |events| && !events[i].HookFired? && !events[j].HookFired?
        ==> i == j
  {
    var callback: seq<Event> := if present then [call] else [];
    AroundCalls(hooks, state, point, callback, from, to);
    AroundInOrder(hooks, state, point, callback, from, to);
    AroundCallbackAt(hooks, state, point, callback, from, to);
    if present {
      var events := Around(hooks, state, point, callback, from, to);
      assert events[|Lookup(hooks, Slot(state, point, Pre))|] == call;
    }
  }

  /** What every call of a transition from `from` to `to` is: at one of
      the six transition positions, made with the guard set, concerning
      `from` and made while `from` is current on the exit side, concerning
      `to` and made once `to` is current on the enter side, passing (from,
      to) to every hook, and never a process callback. */
  ghost predicate TransitionCalls(events: seq<Event>, from: int, to: int) {
    forall e :: e in events ==>
      Stage(e) <= 5 && e.guarded && Subject(e) == (if Stage(e) < 3 then from else to) &&
      e.current == (if Stage(e) < 3 then from else to) &&
      (e.HookFired? ==> e.from == from && e.to == to) &&
      !e.ProcessCalled?
  }

  /** No two calls of the exit callback and no two calls of the enter callback. */
  ghost predicate CallbacksOnce(events: seq<Event>) {
    forall i, j :: 0 <= i < |events| && 0 <= j < |events| &&
      ((events[i].ExitCalled? && events[j].ExitCalled?) || (events[i].EnterCalled? && events[j].EnterCalled?))
      ==> i == j
  }

  /** The order of a transition: every call of a transition from `from` to
      `to` comes in the fixed order exit PRE hooks, exit callback, exit POST
      hooks, enter PRE hooks, enter callback, enter POST hooks; the first
      three concern `from` and are made while `from` is current, the last
      three concern `to` and are made once `to` is current; every hook is
      passed (from, to); every call is made with the reentrancy guard set;
      the exit and enter callbacks are each called exactly once when the
      states have them and not at all otherwise; and no process callback is
      called. */
  lemma TransitionOrder(def: MachineDef, hooks: map<Slot, seq<Hook>>, from: int, to: int)
    ensures InStageOrder(TransitionEvents(def, hooks, from, to))
    ensures TransitionCalls(TransitionEvents(def, hooks, from, to), from, to)
    ensures ExitCalled(from, true, from) in TransitionEvents(def, hooks, from, to) <==> def.HasExit(from)
    ensures EnterCalled(to, true, to) in TransitionEvents(def, hooks, from, to) <==> def.HasEnter(to)
    ensures CallbacksOnce(TransitionEvents(def, hooks, from, to))
  {
    var exitCall, enterCall := ExitCalled(from, true, from), EnterCalled(to, true, to);
    var a := Around(hooks, from, Exit, if def.HasExit(from) then [exitCall] else [], from, to);
    var b := Around(hooks, to, Enter, if def.HasEnter(to) then [enterCall] else [], from, to);
    assert TransitionEvents(def, hooks, from, to) == a + b;
    AroundSide(hooks, from, Exit, exitCall, def.HasExit(from), from, to);
    AroundSide(hooks, to, Enter, enterCall, def.HasEnter(to), from, to);
    JoinSides(a, b, from, to);
  }

  /** The exit side followed by the enter side of a transition. */
  lemma JoinSides(a: seq<Event>, b: seq<Event>, from: int, to: int)
    requires InStageOrder(a) && InStageOrder(b)
    requires forall e :: e in a ==>
      0 <= Stage(e) <= 2 && e.guarded && Subject(e) == from && e.current == from &&
      (e.HookFired? ==> e.from == from && e.to == to) && (!e.HookFired? ==> e == ExitCalled(from, true, from))
    requires forall e :: e in b ==>
      3 <= Stage(e) <= 5 && e.guarded && Subject(e) == to && e.current == to &&
      (e.HookFired? ==> e.from == from && e.to == to) && (!e.HookFired? ==> e == EnterCalled(to, true, to))
    requires forall i, j :: 0 <= i < |a| && 0 <= j < |a| && !a[i].HookFired? && !a[j].HookFired? ==> i == j
    requires forall i, j :: 0 <= i < |b| && 0 <= j < |b| && !b[i].HookFired? && !b[j].HookFired? ==> i == j
    ensures InStageOrder(a + b)
    ensures TransitionCalls(a + b, from, to)
    ensures ExitCalled(from, true, from) in a + b <==> ExitCalled(from, true, from) in a
    ensures EnterCalled(to, true, to) in a + b <==> EnterCalled(to, true, to) in b
    ensures CallbacksOnce(a + b)
  {
    InStageOrderConcat(a, b, 3);
    assert Stage(ExitCalled(from, true, from)) == 1 && Stage(EnterCalled(to, true, to)) == 4;
    var ab := a + b;
    forall i, j | 0 <= i < |ab| && 0 <= j < |ab| &&
        ((ab[i].ExitCalled? && ab[j].ExitCalled?) || (ab[i].EnterCalled? && ab[j].EnterCalled?))
      ensures i == j
    {
      OnSide(a, b, i);
      OnSide(a, b, j);
      if ab[i].ExitCalled? {
        assert ab[i] == a[i] && ab[j] == a[j];
      } else {
        assert ab[i] == b[i - |a|] && ab[j] == b[j - |a|];
      }
    }
  }

  /** A call of `a + b` comes from `a` or from `b`, by its position. */
  lemma OnSide(a: seq<Event>, b: seq<Event>, i: int)
    requires 0 <= i < |a + b|
    ensures i < |a| ==> (a + b)[i] == a[i] && a[i] in a
    ensures i >= |a| ==> (a + b)[i] == b[i - |a|] && b[i - |a|] in b
  {
  }

  /** The order of a process step: process PRE hooks, then the process
      callback, called exactly once with the guard set, then process POST
      hooks; every call concerns the current state and every hook is passed
      (state, state). */
  lemma ProcessOrder(hooks: map<Slot, seq<Hook>>, state: int, next: int)
    ensures InStageOrder(ProcessEvents(hooks, state, next))
    ensures forall e :: e in ProcessEvents(hooks, state, next) ==>
      6 <= Stage(e) <= 8 && e.guarded && e.current == state && Subject(e) == state &&
      (e.HookFired? ==> e.from == state && e.to == state)
    ensures ProcessCalled(state, next, true, state) in ProcessEvents(hooks, state, next)
    ensures var events := ProcessEvents(hooks, state, next);
      forall i, j ::
        0 <= i < |events| && 0 <= j < |events| && events[i].ProcessCalled? && events[j].ProcessCalled?
        ==> i == j
  {
    var call := [ProcessCalled(state, next, true, state)];
    AroundCalls(hooks, state, Process, call, state, state);
    AroundInOrder(hooks, state, Process, call, state, state);
    AroundCallbackAt(hooks, state, Process, call, state, state);
    var events := ProcessEvents(hooks, state, next);
    var n := |Lookup(hooks, Slot(state, Process, Pre))|;
    assert events[n] == ProcessCalled(state, next, true, state);
  }

  /** A transition only touches the four hook lists it walks: those lose
      their one-shot entries and keep the rest in order, every other list
      is left as it was, and the lists still cover exactly the states of
      the table. */
  lemma TransitionFrame(def: MachineDef, hooks: map<Slot, seq<Hook>>, from: int, to: int)
    requires Covers(def, hooks)
    requires 1 <= from <= def.maxState && 1 <= to <= def.maxState
    ensures var after := AfterTransition(hooks, from, to);
      Covers(def, after) &&
      (forall k :: k in hooks ==>
         after[k] == if (k.state == from && k.point == Exit) || (k.state == to && k.point == Enter)
                     then Survivors(hooks[k]) else hooks[k]) &&
      (forall k, h :: k in after && h in after[k] && h.oneshot ==>
         !((k.state == from && k.point == Exit) || (k.state == to && k.point == Enter)))
  {
    var after := AfterTransition(hooks, from, to);
    forall k | k in hooks
      ensures after[k] == if (k.state == from && k.point == Exit) || (k.state == to && k.point == Enter)
                          then Survivors(hooks[k]) else hooks[k]
    {
      var h1 := Walked(hooks, from, Exit);
      if k.state == from && k.point == Exit {
        match k.phase {
          case Pre => assert k == Slot(from, Exit, Pre);
          case Post => assert k == Slot(from, Exit, Post);
        }
        assert after[k] == h1[k];
      } else if k.state == to && k.point == Enter {
        match k.phase {
          case Pre => assert k == Slot(to, Enter, Pre);
          case Post => assert k == Slot(to, Enter, Post);
        }
        assert h1[k] == hooks[k];
      } else {
        assert k != Slot(from, Exit, Pre) && k != Slot(from, Exit, Post);
        assert k != Slot(to, Enter, Pre) && k != Slot(to, Enter, Post);
      }
    }
    forall k | k in hooks {
      SurvivorsMembers(hooks[k]);
    }
  }

  /** With every hook list empty a transition calls only the exit callback
      of `from` and the enter callback of `to`, and leaves the lists alone. */
  lemma QuietTransition(def: MachineDef, hooks: map<Slot, seq<Hook>>, from: int, to: int)
    requires Covers(def, hooks) && forall k :: k in hooks ==> hooks[k] == []
    requires 1 <= from <= def.maxState && 1 <= to <= def.maxState
    ensures TransitionEvents(def, hooks, from, to)
         == (if def.HasExit(from) then [ExitCalled(from, true, from)] else [])
          + (if def.HasEnter(to) then [EnterCalled(to, true, to)] else [])
    ensures AfterTransition(hooks, from, to) == hooks
  {
    assert Survivors([]) == [] && HookCalls([], Slot(from, Exit, Pre), from, to, true, from) == [];
    assert Lookup(hooks, Slot(from, Exit, Pre)) == [] && Lookup(hooks, Slot(from, Exit, Post)) == [];
    assert Lookup(hooks, Slot(to, Enter, Pre)) == [] && Lookup(hooks, Slot(to, Enter, Post)) == [];
  }

  /** Appending a trace in steps or all at once gives the same trace. */
  lemma AppendTwice(t: seq<Event>, a: seq<Event>, b: seq<Event>)
    ensures t + a + b == t + (a + b)
  {
  }

  lemma AppendThrice(t: seq<Event>, a: seq<Event>, b: seq<Event>, c: seq<Event>)
    ensures t + a + b + c == t + (a + b + c)
  {
  }

  /** The registry invariant: lists for exactly the states of the table,
      and in each list distinct identities handed out before `bound`. */
  ghost predicate HooksOk(def: MachineDef, hooks: map<Slot, seq<Hook>>, bound: nat) {
    Covers(def, hooks) &&
    forall k :: k in hooks ==> DistinctIds(hooks[k]) && IdsBelow(hooks[k], bound)
  }

  /** Walking the lists around one callback keeps the registry invariant. */
  lemma WalkedOk(def: MachineDef, hooks: map<Slot, seq<Hook>>, bound: nat, state: int, point: Point)
    requires HooksOk(def, hooks, bound) && 1 <= state <= def.maxState
    ensures HooksOk(def, Walked(hooks, state, point), bound)
  {
    var pre, post := Slot(state, point, Pre), Slot(state, point, Post);
    SurvivorsDistinct(hooks[pre]);
    SurvivorsMembers(hooks[pre]);
    SurvivorsDistinct(hooks[post]);
    SurvivorsMembers(hooks[post]);
  }

  /** Appending an entry with a fresh identity keeps the registry invariant
      for the next identity. */
  lemma AppendedOk(def: MachineDef, hooks: map<Slot, seq<Hook>>, bound: nat, k: Slot, oneshot: bool)
    requires HooksOk(def, hooks, bound) && k in hooks
    ensures HooksOk(def, hooks[k := hooks[k] + [Hook(bound, oneshot)]], bound + 1)
  {
    var list := hooks[k];
    var grown := list + [Hook(bound, oneshot)];
    forall i, j | 0 <= i < j < |grown| ensures grown[i].id != grown[j].id {
      if j == |list| {
        assert grown[i] == list[i] && list[i] in list;
      }
    }
  }

  /** Unlinking the i-th entry of a list keeps the registry invariant,
      removes exactly that entry, and leaves no entry with its identity. */
  lemma UnlinkedOk(def: MachineDef, hooks: map<Slot, seq<Hook>>, bound: nat, k: Slot, i: nat)
    requires HooksOk(def, hooks, bound) && k in hooks && i < |hooks[k]|
    ensures var list := hooks[k];
      var after := hooks[k := Unlinked(list, list[i].id)];
      HooksOk(def, after, bound) &&
      after == hooks[k := list[..i] + list[i + 1..]] &&
      forall j :: 0 <= j < |after[k]| ==> after[k][j].id != list[i].id
  {
    var list := hooks[k];
    UnlinkedGone(list, i);
    UnlinkedExact(list, i);
    var rest := Unlinked(list, list[i].id);
    forall j | 0 <= j < |rest| ensures rest[j].id != list[i].id {
      assert rest[j] in rest;
    }
  }
}
