/** The caller's state table, which every machine instance reads and never changes. */
module Definition {

  /** One entry of the table. The callbacks are not modelled: only whether
      each one is present matters to the engine. */
  datatype StateDef = StateDef(number: int, name: string, hasEnter: bool, hasProcess: bool, hasExit: bool)

  /** The table: `states[i]` describes state i for i in 1..maxState (entry 0
      is the reserved "invalid state"), `init` is the bootstrap state and
      `free` the terminal state, 0 when the table has none. */
  datatype MachineDef = MachineDef(states: seq<StateDef>, maxState: int, init: int, free: int) {

    /** What the engine relies on: one entry per state number, each
        numbered by its own index, and an init state with a process
        callback and no enter or exit callback (the source calls the init
        state's process callback without a null check and asserts the other two are absent). */
    predicate WellFormed() {
      |states| == maxState + 1 &&
      (forall i :: 1 <= i <= maxState ==> states[i].number == i) &&
      1 <= init <= maxState &&
      states[init].hasProcess && !states[init].hasEnter && !states[init].hasExit &&
      0 <= free <= maxState
    }

    predicate HasEnter(s: int) {
      0 <= s < |states| && states[s].hasEnter
    }

    predicate HasExit(s: int) {
      0 <= s < |states| && states[s].hasExit
    }

    predicate HasProcess(s: int) {
      0 <= s < |states| && states[s].hasProcess
    }
  }

  /** The name given for a state number that does not resolve to a state. */
  const UnknownName: string := "???"

  /** The diagnostic name of `state` for an instance whose current state is
      `current` and whose deferred target is `deferred` (0 for none):
      out-of-range numbers have no name, 0 means the current state, or the
      deferred target when there is no current state. */
  function StateNameOf(def: MachineDef, current: int, deferred: int, state: int): (name: string)
    requires def.WellFormed()
    requires 0 <= current <= def.maxState && 0 <= deferred <= def.maxState
    ensures state < 0 || state > def.maxState ==> name == UnknownName
    ensures 1 <= state <= def.maxState ==> name == def.states[state].name
    ensures state == 0 && current != 0 ==> name == def.states[current].name
    ensures state == 0 && current == 0 && deferred != 0 ==> name == def.states[deferred].name
    ensures state == 0 && current == 0 && deferred == 0 ==> name == UnknownName
  {
    if state < 0 || state > def.maxState then UnknownName
    else if state != 0 then def.states[state].name
    else if current != 0 then def.states[current].name
    else if deferred != 0 then def.states[deferred].name
    else UnknownName
  }
}
