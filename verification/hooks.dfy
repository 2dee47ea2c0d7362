/** The hook registry of the state machine engine: the six hook lists of a
    state, the calls a walk over one list makes, and what a walk or an
    explicit removal leaves behind. */
module Hooks {

  /** Which callback of a state a hook is attached around. */
  datatype Point = Enter | Process | Exit

  /** Before (PRE) or after (POST) that callback. */
  datatype Phase = Pre | Post

  /** One of the six hook lists of one state. */
  datatype Slot = Slot(state: int, point: Point, phase: Phase)

  /** A state has exactly six hook lists. */
  lemma SlotCases(k: Slot)
    ensures k == Slot(k.state, Enter, Pre) || k == Slot(k.state, Enter, Post) ||
            k == Slot(k.state, Process, Pre) || k == Slot(k.state, Process, Post) ||
            k == Slot(k.state, Exit, Pre) || k == Slot(k.state, Exit, Post)
  {
    match k.point {
      case Enter => match k.phase { case Pre => case Post => }
      case Process => match k.phase { case Pre => case Post => }
      case Exit => match k.phase { case Pre => case Post => }
    }
  }

  /** A registry entry. `id` stands for the entry's identity (its address
      in the C code); the hook function and its context are not modelled. */
  datatype Hook = Hook(id: nat, oneshot: bool)

  /** One call made by the engine. `guarded` is the reentrancy guard
      (`in_handler`) at the time of the call. */
  datatype Event =
    | HookFired(id: nat, slot: Slot, from: int, to: int, guarded: bool, current: int)
    | ExitCalled(state: int, guarded: bool, current: int)
    | EnterCalled(state: int, guarded: bool, current: int)
    | ProcessCalled(state: int, next: int, guarded: bool, current: int)

  /** The event is a call of the hook whose identity is `id`. */
  predicate Calls(e: Event, id: nat) {
    e.HookFired? && e.id == id
  }

  /** No two entries of a list share an identity. */
  ghost predicate DistinctIds(list: seq<Hook>) {
    forall i, j :: 0 <= i < j < |list| ==> list[i].id != list[j].id
  }

  /** Every identity in the list was handed out before `bound`. */
  ghost predicate IdsBelow(list: seq<Hook>, bound: nat) {
    forall h :: h in list ==> h.id < bound
  }

  /** The list stored under `k`, or the empty list. */
  function Lookup(hooks: map<Slot, seq<Hook>>, k: Slot): seq<Hook> {
    if k in hooks then hooks[k] else []
  }

  /** The calls made by walking `list` from head to tail, each hook being
      passed the same pair of states. */
  function HookCalls(list: seq<Hook>, slot: Slot, from: int, to: int, guarded: bool, current: int): (r: seq<Event>)
    ensures |r| == |list|
  {
    if list == [] then []
    else [HookFired(list[0].id, slot, from, to, guarded, current)] + HookCalls(list[1..], slot, from, to, guarded, current)
  }

  /** The list left behind by a walk: each one-shot entry is unlinked right
      after its call, every other entry stays. */
  function Survivors(list: seq<Hook>): (r: seq<Hook>)
    ensures |r| <= |list|
  {
    if list == [] then []
    else (if list[0].oneshot then [] else [list[0]]) + Survivors(list[1..])
  }

  /** The list with the entry whose identity is `id` unlinked. */
  function Unlinked(list: seq<Hook>, id: nat): seq<Hook> {
    if list == [] then []
    else if list[0].id == id then list[1..]
    else [list[0]] + Unlinked(list[1..], id)
  }

  /** Hooks are called in list order: the i-th call goes to the i-th entry,
      with the pair of states the walk was given. */
  lemma {:induction false} HookCallsInOrder(list: seq<Hook>, slot: Slot, from: int, to: int, guarded: bool, current: int)
    ensures forall i :: 0 <= i < |list| ==>
      HookCalls(list, slot, from, to, guarded, current)[i] == HookFired(list[i].id, slot, from, to, guarded, current)
  {
    if list != [] {
      HookCallsInOrder(list[1..], slot, from, to, guarded, current);
    }
  }

  /** Walking two lists one after the other makes the calls of the first,
      then those of the second; in particular an entry appended at the tail
      is called after every entry registered before it. */
  lemma {:induction false} HookCallsConcat(a: seq<Hook>, b: seq<Hook>, slot: Slot, from: int, to: int, guarded: bool, current: int)
    ensures HookCalls(a + b, slot, from, to, guarded, current)
         == HookCalls(a, slot, from, to, guarded, current) + HookCalls(b, slot, from, to, guarded, current)
  {
    if a != [] {
      assert (a + b)[1..] == a[1..] + b;
      HookCallsConcat(a[1..], b, slot, from, to, guarded, current);
    } else {
      assert a + b == b;
    }
  }

  /** One-shot removal keeps the relative order of what stays. */
  lemma {:induction false} SurvivorsConcat(a: seq<Hook>, b: seq<Hook>)
    ensures Survivors(a + b) == Survivors(a) + Survivors(b)
  {
    if a != [] {
      assert (a + b)[1..] == a[1..] + b;
      SurvivorsConcat(a[1..], b);
    } else {
      assert a + b == b;
    }
  }

  /** One step of a walk: the first i + 1 entries make the calls of the
      first i and then the call of entry i, and keep what the first i keep
      plus entry i unless it is one-shot. */
  lemma WalkStep(list: seq<Hook>, i: nat, slot: Slot, from: int, to: int, guarded: bool, current: int)
    requires i < |list|
    ensures HookCalls(list[..i + 1], slot, from, to, guarded, current)
         == HookCalls(list[..i], slot, from, to, guarded, current) + [HookFired(list[i].id, slot, from, to, guarded, current)]
    ensures Survivors(list[..i + 1]) == Survivors(list[..i]) + (if list[i].oneshot then [] else [list[i]])
  {
    assert list[..i + 1] == list[..i] + [list[i]];
    HookCallsConcat(list[..i], [list[i]], slot, from, to, guarded, current);
    SurvivorsConcat(list[..i], [list[i]]);
    assert [list[i]][1..] == [];
  }

  /** A list that has been walked once has no one-shot entry left, and a
      second walk leaves it as it is. */
  lemma {:induction false} SurvivorsIdempotent(list: seq<Hook>)
    ensures Survivors(Survivors(list)) == Survivors(list)
  {
    if list != [] {
      SurvivorsIdempotent(list[1..]);
      var head := if list[0].oneshot then [] else [list[0]];
      SurvivorsConcat(head, Survivors(list[1..]));
      if !list[0].oneshot {
        assert Survivors(head) == head by {
          assert head[1..] == [];
        }
      }
    }
  }

  /** Dropping the head of a list keeps identities distinct. */
  lemma DistinctTail(list: seq<Hook>)
    requires DistinctIds(list) && list != []
    ensures DistinctIds(list[1..])
  {
    var rest := list[1..];
    forall i, j | 0 <= i < j < |rest| ensures rest[i].id != rest[j].id {
      assert rest[i] == list[i + 1] && rest[j] == list[j + 1];
    }
  }

  /** A walk keeps exactly the entries that are not one-shot. */
  lemma {:induction false} SurvivorsMembers(list: seq<Hook>)
    ensures forall h :: h in Survivors(list) <==> h in list && !h.oneshot
  {
    if list != [] {
      SurvivorsMembers(list[1..]);
      assert list == [list[0]] + list[1..];
    }
  }

  /** Unlinking a one-shot entry after its call never makes two entries share an identity. */
  lemma {:induction false} SurvivorsDistinct(list: seq<Hook>)
    requires DistinctIds(list)
    ensures DistinctIds(Survivors(list))
  {
    if list != [] {
      var rest := list[1..];
      DistinctTail(list);
      SurvivorsDistinct(rest);
      SurvivorsMembers(rest);
      var tail := Survivors(rest);
      if !list[0].oneshot {
        var r := [list[0]] + tail;
        forall i, j | 0 <= i < j < |r| ensures r[i].id != r[j].id {
          if i == 0 {
            assert r[j] in rest;
            var k :| 0 <= k < |rest| && rest[k] == r[j];
            assert list[k + 1] == r[j];
          } else {
            assert r[i] == tail[i - 1] && r[j] == tail[j - 1];
          }
        }
      }
    }
  }

  /** A one-shot entry is called exactly once by a walk (no other call of
      the walk carries its identity), and the walk over what is left never
      calls it, whatever states that later walk is given. */
  lemma OneshotFiresOnce(list: seq<Hook>, i: nat, slot: Slot, from: int, to: int, guarded: bool, current: int,
                         slot': Slot, from': int, to': int, guarded': bool, current': int)
    requires DistinctIds(list) && i < |list| && list[i].oneshot
    ensures HookCalls(list, slot, from, to, guarded, current)[i] == HookFired(list[i].id, slot, from, to, guarded, current)
    ensures forall j :: 0 <= j < |list| && Calls(HookCalls(list, slot, from, to, guarded, current)[j], list[i].id) ==> j == i
    ensures forall e :: e in HookCalls(Survivors(list), slot', from', to', guarded', current') ==> !Calls(e, list[i].id)
  {
    HookCallsInOrder(list, slot, from, to, guarded, current);
    var rest := Survivors(list);
    SurvivorsMembers(list);
    HookCallsInOrder(rest, slot', from', to', guarded', current');
    forall e | e in HookCalls(rest, slot', from', to', guarded', current') ensures !Calls(e, list[i].id) {
      var calls := HookCalls(rest, slot', from', to', guarded', current');
      var k :| 0 <= k < |calls| && calls[k] == e;
      assert rest[k] in list;
      var m :| 0 <= m < |list| && list[m] == rest[k];
      if m != i {
        assert m < i ==> list[m].id != list[i].id;
        assert i < m ==> list[i].id != list[m].id;
      }
    }
  }

  /** Removing a hook unlinks exactly that entry and nothing else: the
      entries before it and after it stay, in order. */
  lemma {:induction false} UnlinkedExact(list: seq<Hook>, i: nat)
    requires i < |list|
    requires forall j :: 0 <= j < i ==> list[j].id != list[i].id
    ensures Unlinked(list, list[i].id) == list[..i] + list[i + 1..]
  {
    if i == 0 {
      assert list[..0] + list[1..] == list[1..];
    } else {
      var rest := list[1..];
      assert list[0].id != list[i].id;
      assert rest[i - 1] == list[i];
      forall j | 0 <= j < i - 1 ensures rest[j].id != rest[i - 1].id {
        assert rest[j] == list[j + 1];
      }
      UnlinkedExact(rest, i - 1);
      var before, after := rest[..i - 1], rest[i..];
      assert Unlinked(list, list[i].id) == [list[0]] + (before + after);
      assert [list[0]] + (before + after) == ([list[0]] + before) + after;
      assert list[..i] == [list[0]] + before;
      assert list[i + 1..] == after;
    }
  }

  /** After removal no entry of the list carries the removed identity, every
      entry left was there before, and identities stay distinct. */
  lemma UnlinkedGone(list: seq<Hook>, i: nat)
    requires DistinctIds(list) && i < |list|
    ensures forall h :: h in Unlinked(list, list[i].id) ==> h in list && h.id != list[i].id
    ensures DistinctIds(Unlinked(list, list[i].id))
  {
    UnlinkedExact(list, i);
    var r := list[..i] + list[i + 1..];
    forall a | 0 <= a < |r| ensures r[a] == list[if a < i then a else a + 1] {
    }
    forall h | h in r ensures h in list && h.id != list[i].id {
      var a :| 0 <= a < |r| && r[a] == h;
    }
  }
}
