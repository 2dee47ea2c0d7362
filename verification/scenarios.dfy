/** Sequences of driver calls on one instance, with what they add up to. */
module Scenarios {
  import opened Engine
  import opened StateMachine

  /** Two nested pauses, a transition request, then two resumes: the request
      is only recorded, the first resume does nothing, and the last one runs
      exactly the requested transition. */
  method NestedPause(m: Machine, s: int)
    requires m.Valid() && !m.released && !m.dead && m.paused == 0 && m.deferred == 0
    requires 1 <= s <= m.def.maxState && s != m.current
    modifies m`paused, m`deferred, m`hooks, m`trace, m`current, m`inHandler
    ensures m.Valid() && m.paused == 0 && m.deferred == 0 && m.current == s
    ensures m.hooks == AfterTransition(old(m.hooks), old(m.current), s)
    ensures m.trace == old(m.trace) + TransitionEvents(m.def, old(m.hooks), old(m.current), s)
  {
    m.Pause();
    m.Pause();
    var r := m.Transition(s);
    assert r == 0 && m.deferred == s && m.current == old(m.current);
    m.Resume();
    assert m.paused == 1 && m.deferred == s;
    assert m.hooks == old(m.hooks) && m.trace == old(m.trace);
    m.Resume();
  }
}
