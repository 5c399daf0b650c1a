/** What each use of the revert timer ends in (netcli/internal/manager/manager.go). */
module RevertOutcomes {
  import opened Basics
  import opened Config
  import opened RevertTimer

  /** Nothing but the timer is different: its files, and the processes in `gone`. */
  predicate TimerEnded(s: System, t: System, gone: set<Pid>) {
    t.state.None? && t.snapshot.None? && t.dogs == s.dogs - gone && t.clients == s.clients && t.used == s.used
  }

  /** The process that the state file names. */
  function Named(s: System): set<Pid> { if s.state.Some? then {s.state.value} else {} }

  // ----- the immediate revert

  /** From the beginning of a revert on, the client keeps the snapshot that it has read. */
  lemma {:induction false} RevertKeepsGoal(events: seq<Event>, states: seq<System>, i: nat, j: nat, c: Client, a: Config)
    requires Run(events, states) && i < j <= |events| && events[i] == RevertNow(c) && states[i].snapshot == Some(a)
    requires forall k :: i < k < j ==> !(events[k].Replace? && events[k].c == c)
    ensures c in states[j].clients && states[j].clients[c] in {Stopping(ToRevert(a)), Replacing(a)}
  {
    if i < j - 1 {
      RevertKeepsGoal(events, states, i, j - 1, c, a);
      GoalStays(states[j - 1], events[j - 1], c, a);
    }
  }

  lemma GoalStays(s: System, e: Event, c: Client, a: Config)
    requires Enabled(s, e) && c in s.clients && s.clients[c] in {Stopping(ToRevert(a)), Replacing(a)} && !(e.Replace? && e.c == c)
    ensures c in Next(s, e).clients && Next(s, e).clients[c] in {Stopping(ToRevert(a)), Replacing(a)}
  {
  }

  /** In every interleaving, a revert puts back the configuration that was the snapshot when it began, if
      that can be applied, and otherwise changes nothing. */
  lemma RevertRestores(events: seq<Event>, states: seq<System>, i: nat, j: nat, c: Client, a: Config)
    requires Run(events, states) && i < j < |events| && events[i] == RevertNow(c) && states[i].snapshot == Some(a)
    requires events[j].Replace? && events[j].c == c && forall k :: i < k < j ==> !(events[k].Replace? && events[k].c == c)
    ensures var (s, t) := (states[j], states[j + 1]);
      && t.running == (if events[j].works then a else s.running)
      && t.state == s.state && t.snapshot == s.snapshot && t.dogs == s.dogs
      && (c in t.clients <==> events[j].works)
  {
    RevertKeepsGoal(events, states, i, j, c, a);
  }

  /** Left alone, a revert that works ends with the snapshot running, and without a timer; one that does not
      leaves the files as they were. */
  lemma RevertAlone(s: System, c: Client, a: Config, works: bool) returns (events: seq<Event>, states: seq<System>)
    requires c !in s.clients && s.snapshot == Some(a)
    ensures events == [RevertNow(c), Stop(c), Replace(c, works)] + if works then [ClearState(c), ClearSnapshot(c)] else []
    ensures Run(events, states) && states[0] == s
    ensures var t := states[|events|];
      && t.running == (if works then a else s.running)
      && if works then TimerEnded(s, t, Named(s))
         else t.state == s.state && t.snapshot == s.snapshot && t.dogs == s.dogs - Named(s) && t.clients == s.clients
  {
    var tail := if works then [ClearState(c), ClearSnapshot(c)] else [];
    events := [RevertNow(c), Stop(c), Replace(c, works)] + tail;
    var s1 := Next(s, RevertNow(c));
    var s2 := Next(s1, Stop(c));
    var s3 := Next(s2, Replace(c, works));
    assert events == [RevertNow(c)] + ([Stop(c)] + ([Replace(c, works)] + tail));
    AfterStep(s, RevertNow(c), [Stop(c)] + ([Replace(c, works)] + tail));
    AfterStep(s1, Stop(c), [Replace(c, works)] + tail);
    AfterStep(s2, Replace(c, works), tail);
    if works { ClearsBoth(s3, c, false); }
    states := AfterRuns(s, events);
  }

  /** The two removals. */
  lemma ClearsBoth(s: System, c: Client, arm: bool)
    requires At(s, c, Clearing(arm)) && !arm
    ensures After(s, [ClearState(c), ClearSnapshot(c)]) == Some(s.(state := None, snapshot := None, clients := s.clients - {c}))
  {
    var t := Next(s, ClearState(c));
    assert [ClearState(c), ClearSnapshot(c)] == [ClearState(c)] + ([ClearSnapshot(c)] + []);
    AfterStep(s, ClearState(c), [ClearSnapshot(c)] + []);
    AfterStep(t, ClearSnapshot(c), []);
    assert s.clients[c := HalfCleared(false)] - {c} == s.clients - {c};
  }

  // ----- confirming, and clearing away what a dead watchdog has left

  /** Left alone, a confirm keeps the configuration, kills the watchdog and leaves no timer. */
  lemma ConfirmAlone(s: System, c: Client) returns (events: seq<Event>, states: seq<System>)
    requires c !in s.clients && Alive(s)
    ensures events == [Confirm(c), Stop(c), ClearState(c), ClearSnapshot(c)] && Run(events, states) && states[0] == s
    ensures TimerEnded(s, states[4], Named(s)) && states[4].running == s.running
  {
    events := [Confirm(c), Stop(c), ClearState(c), ClearSnapshot(c)];
    var tail := [ClearState(c), ClearSnapshot(c)];
    var s1 := Next(s, Confirm(c));
    var s2 := Next(s1, Stop(c));
    assert events == [Confirm(c)] + ([Stop(c)] + tail);
    AfterStep(s, Confirm(c), [Stop(c)] + tail);
    AfterStep(s1, Stop(c), tail);
    ClearsBoth(s2, c, false);
    states := AfterRuns(s, events);
  }

  /** A status poll or a confirm clears away a state file that names a dead process, and changes nothing else. */
  lemma StaleIsCleared(s: System, e: Event) returns (events: seq<Event>, states: seq<System>)
    requires (e.Poll? || e.Confirm?) && e.c !in s.clients && s.state.Some? && !Alive(s)
    ensures events == [e, ClearState(e.c), ClearSnapshot(e.c)] && Run(events, states) && states[0] == s
    ensures TimerEnded(s, states[3], {}) && states[3].running == s.running
  {
    events := [e, ClearState(e.c), ClearSnapshot(e.c)];
    assert events == [e] + [ClearState(e.c), ClearSnapshot(e.c)];
    AfterStep(s, e, [ClearState(e.c), ClearSnapshot(e.c)]);
    ClearsBoth(Next(s, e), e.c, false);
    states := AfterRuns(s, events);
  }

  /** Exactly then a poll does anything; a confirm does nothing without a state file, and a revert nothing
      without a snapshot. */
  lemma NothingToDo(s: System, c: Client)
    requires c !in s.clients
    ensures Next(s, Poll(c)) == s <==> s.state.None? || Alive(s)
    ensures Next(s, Confirm(c)) == s <==> s.state.None?
    ensures Next(s, RevertNow(c)) == s <==> s.snapshot.None?
  {
  }

  // ----- the watchdog

  /** A watchdog that is not disturbed restores the snapshot, if that can be applied, and ends the timer
      and itself in any case. */
  lemma ExpiryAlone(s: System, d: Pid, a: Config, works: bool) returns (events: seq<Event>, states: seq<System>)
    requires s.state == Some(d) && In(s, d, Sleeping) && s.snapshot == Some(a)
    ensures events == [Fire(d), Load(d), Restore(d, works), RemoveState(d), RemoveSnapshot(d)] && Run(events, states) && states[0] == s
    ensures TimerEnded(s, states[5], {d}) && states[5].running == if works then a else s.running
  {
    events := [Fire(d), Load(d), Restore(d, works), RemoveState(d), RemoveSnapshot(d)];
    var s1 := Next(s, Fire(d));
    var s2 := Next(s1, Load(d));
    var s3 := Next(s2, Restore(d, works));
    var tail := [RemoveState(d), RemoveSnapshot(d)];
    assert events == [Fire(d)] + ([Load(d)] + ([Restore(d, works)] + tail));
    AfterStep(s, Fire(d), [Load(d)] + ([Restore(d, works)] + tail));
    AfterStep(s1, Load(d), [Restore(d, works)] + tail);
    AfterStep(s2, Restore(d, works), tail);
    Retires(s3, d);
    assert s3.dogs - {d} == s.dogs - {d};
    states := AfterRuns(s, events);
  }

  lemma Retires(s: System, d: Pid)
    requires In(s, d, Replaced)
    ensures After(s, [RemoveState(d), RemoveSnapshot(d)]) == Some(s.(state := None, snapshot := None, dogs := s.dogs - {d}))
  {
    var t := Next(s, RemoveState(d));
    assert [RemoveState(d), RemoveSnapshot(d)] == [RemoveState(d)] + ([RemoveSnapshot(d)] + []);
    AfterStep(s, RemoveState(d), [RemoveSnapshot(d)] + []);
    AfterStep(t, RemoveSnapshot(d), []);
    assert t.dogs - {d} == s.dogs - {d};
  }

  /** One that wakes up when the state file names another process, or none, ends and changes nothing; so
      does one that finds no snapshot. */
  lemma SupersededEnds(s: System, d: Pid)
    ensures In(s, d, Sleeping) && s.state != Some(d) ==> Next(s, Fire(d)) == s.(dogs := s.dogs - {d})
    ensures In(s, d, Passed) && s.snapshot.None? ==> Next(s, Load(d)) == s.(dogs := s.dogs - {d})
  {
  }
}
