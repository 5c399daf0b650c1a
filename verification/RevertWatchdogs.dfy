/** What watchdogs may do in every interleaving (netcli/internal/manager/manager.go). */
module RevertWatchdogs {
  import opened Basics
  import opened Config
  import opened RevertTimer

  // ----- which watchdogs change the configuration after a confirm, in every interleaving

  /** In this run, `d` changes the configuration. */
  ghost predicate Firing(s: System, events: seq<Event>, states: seq<System>, d: Pid) {
    Run(events, states) && states[0] == s && Restore(d, true) in events
  }

  /** Some interleaving lets it. */
  ghost predicate Fires(s: System, d: Pid) { exists events, states :: Firing(s, events, states, d) }

  lemma FiresBy(s: System, e: Event, d: Pid)
    requires Enabled(s, e) && (Fires(Next(s, e), d) || e == Restore(d, true))
    ensures Fires(s, d)
  {
    var t := Next(s, e);
    if e == Restore(d, true) {
      assert Firing(s, [e], [s, t], d);
    } else {
      var events, states :| Firing(t, events, states, d);
      Prepend(s, e, events, states);
      assert Firing(s, [e] + events, [s] + states, d);
    }
  }

  /** The watchdog `d` has passed the check of the state file, or is about to be named there. */
  ghost predicate Restless(s: System, d: Pid) {
    d in s.dogs && match s.dogs[d]
                   case Sleeping => exists b :: At(s, b, Writing(d))
                   case Passed => true
                   case Loaded(_) => true
                   case Replaced => false
                   case Unlinked => false
  }

  /** A client that is not at work. */
  lemma FreshClient(s: System) returns (c: Client)
    ensures c !in s.clients
  {
    var used := s.clients.Keys;
    c := FreshPid(used);
    assert c !in used;
  }

  /** While no timer is armed, it can take a snapshot. */
  lemma SnapshotCanBeSaved(s: System, c: Client, d: Pid)
    requires s.state.None? && c !in s.clients && d in s.dogs
    requires Fires(s.(snapshot := Some(s.running), clients := s.clients[c := Starting]), d)
    ensures Fires(s, d)
  {
    var s1 := Next(s, Arm(c));
    var s2 := Next(s1, Read(c));
    assert Next(s2, Save(c)) == s.(snapshot := Some(s.running), clients := s.clients[c := Starting]);
    FiresBy(s2, Save(c), d);
    FiresBy(s1, Read(c), d);
    FiresBy(s, Arm(c), d);
  }

  lemma PassedFires(s: System, d: Pid)
    requires In(s, d, Passed) && s.snapshot.Some?
    ensures Fires(s, d)
  {
    FiresBy(Next(s, Load(d)), Restore(d, true), d);
    FiresBy(s, Load(d), d);
  }

  lemma PendingFires(s: System, d: Pid, b: Client)
    requires In(s, d, Sleeping) && At(s, b, Writing(d)) && s.snapshot.Some?
    ensures Fires(s, d)
  {
    var t := Next(s, Write(b));
    PassedFires(Next(t, Fire(d)), d);
    FiresBy(t, Fire(d), d);
    FiresBy(s, Write(b), d);
  }

  lemma RestlessFires(s: System, d: Pid)
    requires s.state.None? && Restless(s, d)
    ensures Fires(s, d)
  {
    if s.dogs[d].Loaded? {
      FiresBy(s, Restore(d, true), d);
    } else {
      var c := FreshClient(s);
      var t := s.(snapshot := Some(s.running), clients := s.clients[c := Starting]);
      if s.dogs[d].Passed? {
        PassedFires(t, d);
      } else {
        var b :| At(s, b, Writing(d));
        PendingFires(t, d, b);
      }
      SnapshotCanBeSaved(s, c, d);
    }
  }

  lemma MuteNeverFires(s: System, d: Pid)
    requires Basic(s) && Mute(s, d)
    ensures !Fires(s, d)
  {
    forall events, states ensures !Firing(s, events, states, d) {
      if Run(events, states) && states[0] == s {
        forall j | 0 <= j < |events| ensures events[j] != Restore(d, true) { StaysMute(events, states, 0, j, d); }
      }
    }
  }

  /** Once the state file is cleared, exactly the restless watchdogs started before can still change the
      configuration. */
  lemma ClearedExact(s: System, c: Client, d: Pid)
    requires Basic(s) && Enabled(s, ClearState(c)) && d in s.used
    ensures Fires(Next(s, ClearState(c)), d) <==> Restless(s, d)
  {
    var t := Next(s, ClearState(c));
    StepBasic(s, ClearState(c));
    forall b ensures At(t, b, Writing(d)) <==> At(s, b, Writing(d)) {}
    if Restless(s, d) {
      RestlessFires(t, d);
    } else {
      MuteNeverFires(t, d);
    }
  }

  // ----- before the confirm begins

  /** In this run, `d` changes the configuration after `c` has cleared the state file. */
  ghost predicate Outliving(s: System, events: seq<Event>, states: seq<System>, i: nat, j: nat, c: Client, d: Pid) {
    Run(events, states) && states[0] == s && i < j < |events| && events[i] == ClearState(c) && events[j] == Restore(d, true)
  }

  /** Some interleaving lets it. */
  ghost predicate Outlives(s: System, c: Client, d: Pid) {
    exists events, states, i, j :: Outliving(s, events, states, i, j, c, d)
  }

  lemma OutlivesBy(s: System, e: Event, c: Client, d: Pid)
    requires Enabled(s, e) && Outlives(Next(s, e), c, d)
    ensures Outlives(s, c, d)
  {
    var events, states, i, j :| Outliving(Next(s, e), events, states, i, j, c, d);
    OutlivingBy(s, e, events, states, i, j, c, d);
  }

  lemma OutlivingBy(s: System, e: Event, events: seq<Event>, states: seq<System>, i: nat, j: nat, c: Client, d: Pid)
    requires Enabled(s, e) && Outliving(Next(s, e), events, states, i, j, c, d)
    ensures Outliving(s, [e] + events, [s] + states, i + 1, j + 1, c, d)
  {
    hide Next, Enabled;
    Prepend(s, e, events, states);
  }

  lemma OutlivesNow(s: System, c: Client, d: Pid)
    requires Enabled(s, ClearState(c)) && Fires(Next(s, ClearState(c)), d)
    ensures Outlives(s, c, d)
  {
    hide Next, Enabled;
    var e := ClearState(c);
    var events, states :| Firing(Next(s, e), events, states, d);
    var j :| 0 <= j < |events| && events[j] == Restore(d, true);
    Prepend(s, e, events, states);
    assert Outliving(s, [e] + events, [s] + states, 0, j + 1, c, d);
  }

  /** The confirm that is about to kill what the state file names kills something else. */
  lemma ConfirmMisses(s: System, c: Client, d: Pid)
    requires Basic(s) && At(s, c, Stopping(ToConfirm)) && s.state != Some(d) && Restless(s, d)
    ensures Outlives(s, c, d)
  {
    var t := Next(s, Stop(c));
    StepBasic(s, Stop(c));
    forall b ensures At(t, b, Writing(d)) <==> At(s, b, Writing(d)) {}
    ClearedExact(t, c, d);
    assert d in t.used;
    OutlivesNow(t, c, d);
    OutlivesBy(s, Stop(c), c, d);
  }

  /** The client will change the state file without killing what it names. */
  predicate Overwrites(s: System, w: Client) { w in s.clients && !s.clients[w].Stopping? && s.clients[w] != HalfCleared(false) }

  /** The watchdog will remove the state file, whatever it names. */
  predicate Unlinks(s: System, e: Pid) {
    e in s.dogs && (s.dogs[e].Loaded? || s.dogs[e].Replaced? || (s.dogs[e].Passed? && s.snapshot.Some?))
  }

  /** Some other process changes the state file while it names `d`. */
  ghost predicate Loose(s: System, d: Pid) { (exists w :: Overwrites(s, w)) || exists e :: e != d && Unlinks(s, e) }

  function Remaining(task: Task): nat {
    match task
    case HalfCleared(_) => 6
    case Reading => 5
    case Saving(_) => 4
    case Starting => 3
    case Replacing(_) => 2
    case _ => 1
  }

  /** Past its check, and not done yet. */
  predicate Woken(s: System, d: Pid) { d in s.dogs && (s.dogs[d].Passed? || s.dogs[d].Loaded?) }

  /** A run after which the state file does not name `d` any more, which is awake, while `c` waits. */
  ghost predicate Escaping(s: System, events: seq<Event>, states: seq<System>, c: Client, d: Pid) {
    && Run(events, states) && states[0] == s
    && var t := states[|events|];
       Basic(t) && t.state != Some(d) && Woken(t, d) && (c in s.clients ==> c in t.clients && t.clients[c] == s.clients[c])
  }

  ghost predicate Escapes(s: System, c: Client, d: Pid) { exists events, states :: Escaping(s, events, states, c, d) }

  lemma EscapesNow(s: System, c: Client, d: Pid)
    requires Basic(s) && s.state != Some(d) && Woken(s, d)
    ensures Escapes(s, c, d)
  {
    assert Escaping(s, [], [s], c, d);
  }

  lemma EscapesBy(s: System, e: Event, c: Client, d: Pid)
    requires Enabled(s, e) && Escapes(Next(s, e), c, d)
    requires c in s.clients ==> c in Next(s, e).clients && Next(s, e).clients[c] == s.clients[c]
    ensures Escapes(s, c, d)
  {
    hide Next, Enabled;
    var events, states :| Escaping(Next(s, e), events, states, c, d);
    Prepend(s, e, events, states);
    assert Escaping(s, [e] + events, [s] + states, c, d);
  }

  lemma {:induction false} ClientRescues(s: System, c: Client, d: Pid, w: Client)
    requires Basic(s) && s.state == Some(d) && Woken(s, d) && Overwrites(s, w) && w != c
    ensures Escapes(s, c, d)
    decreases Remaining(s.clients[w])
  {
    var pid := FreshPid(s.used);
    var e := match s.clients[w]
      case Replacing(_) => Replace(w, true)
      case Clearing(_) => ClearState(w)
      case HalfCleared(_) => ClearSnapshot(w)
      case Reading => Read(w)
      case Saving(_) => Save(w)
      case Starting => Start(w, pid)
      case _ => Write(w);
    if s.clients[w].Writing? { assert NewPid(s, w, s.clients[w].pid); }
    var t := Next(s, e);
    StepBasic(s, e);
    if s.clients[w].Clearing? || s.clients[w].Writing? {
      EscapesNow(t, c, d);
    } else {
      ClientRescues(t, c, d, w);
    }
    EscapesBy(s, e, c, d);
  }

  lemma {:induction false} DogRescues(s: System, c: Client, d: Pid, x: Pid)
    requires Basic(s) && s.state == Some(d) && Woken(s, d) && x != d && Unlinks(s, x)
    ensures Escapes(s, c, d)
    decreases Wakefulness(s.dogs[x])
  {
    var e := match s.dogs[x]
      case Passed => Load(x)
      case Loaded(_) => Restore(x, true)
      case _ => RemoveState(x);
    var t := Next(s, e);
    StepBasic(s, e);
    if s.dogs[x].Replaced? {
      EscapesNow(t, c, d);
    } else {
      DogRescues(t, c, d, x);
    }
    EscapesBy(s, e, c, d);
  }

  lemma WokenEscapes(s: System, c: Client, d: Pid)
    requires Basic(s) && s.state == Some(d) && Woken(s, d) && Loose(s, d) && !Overwrites(s, c)
    ensures Escapes(s, c, d)
  {
    if w :| Overwrites(s, w) {
      ClientRescues(s, c, d, w);
    } else {
      var x :| x != d && Unlinks(s, x);
      DogRescues(s, c, d, x);
    }
  }

  lemma LooseEscapes(s: System, c: Client, d: Pid)
    requires Basic(s) && Armed(s) && s.state == Some(d) && Loose(s, d) && !Overwrites(s, c)
    ensures Escapes(s, c, d)
  {
    if s.dogs[d].Sleeping? {
      var t := Next(s, Fire(d));
      StepBasic(s, Fire(d));
      forall w ensures Overwrites(t, w) <==> Overwrites(s, w) {}
      forall x | x != d ensures Unlinks(t, x) <==> Unlinks(s, x) {}
      WokenEscapes(t, c, d);
      EscapesBy(s, Fire(d), c, d);
    } else {
      WokenEscapes(s, c, d);
    }
  }

  lemma {:induction false} OutlivesAfter(events: seq<Event>, states: seq<System>, k: nat, c: Client, d: Pid)
    requires Run(events, states) && k <= |events| && Outlives(states[|events|], c, d)
    ensures Outlives(states[|events| - k], c, d)
  {
    hide Next, Enabled;
    if k > 0 {
      OutlivesAfter(events, states, k - 1, c, d);
      var i := |events| - k;
      assert states[i + 1] == Next(states[i], events[i]);
      OutlivesBy(states[i], events[i], c, d);
    }
  }

  lemma LooseOutlives(s: System, c: Client, d: Pid)
    requires Basic(s) && At(s, c, Stopping(ToConfirm)) && Armed(s) && s.state == Some(d) && Loose(s, d)
    ensures Outlives(s, c, d)
  {
    LooseEscapes(s, c, d);
    var events, states :| Escaping(s, events, states, c, d);
    ConfirmMisses(states[|events|], c, d);
    OutlivesAfter(events, states, |events|, c, d);
  }

  /** Either the watchdog will not change the configuration any more, or whoever changes the state file
      kills it first. */
  ghost predicate Cornered(s: System, d: Pid) {
    Mute(s, d) || (d in s.used && Alive(s) && s.state == Some(d) && !Loose(s, d))
  }

  lemma StepCornered(s: System, e: Event, d: Pid)
    requires Basic(s) && Cornered(s, d) && Enabled(s, e)
    ensures Cornered(Next(s, e), d) && (e.ClearState? ==> Mute(Next(s, e), d))
  {
    if Mute(s, d) {
      StepMute(s, e, d);
    } else {
      StepLoose(s, e, d);
    }
  }

  lemma StepLoose(s: System, e: Event, d: Pid)
    requires Basic(s) && d in s.used && Alive(s) && s.state == Some(d) && !Loose(s, d) && Enabled(s, e)
    ensures !e.ClearState? && Cornered(Next(s, e), d)
  {
    var t := Next(s, e);
    assert !Overwrites(s, ClientOf(e, 0));
    assert DogOf(e) != d ==> !Unlinks(s, DogOf(e));
    forall w ensures d in t.dogs ==> !Overwrites(t, w) { assert !Overwrites(s, w); }
    forall x | x != d ensures d in t.dogs ==> !Unlinks(t, x) { assert !Unlinks(s, x); }
  }

  lemma {:induction false} StaysCornered(events: seq<Event>, states: seq<System>, j: nat, d: Pid)
    requires Run(events, states) && Basic(states[0]) && Cornered(states[0], d) && j <= |events|
    ensures Basic(states[j]) && Cornered(states[j], d)
    ensures forall i :: 0 <= i < j && events[i].ClearState? ==> Mute(states[j], d)
  {
    if j > 0 {
      StaysCornered(events, states, j - 1, d);
      StepCornered(states[j - 1], events[j - 1], d);
      StepBasic(states[j - 1], events[j - 1]);
      if Mute(states[j - 1], d) { StepMute(states[j - 1], events[j - 1], d); }
    }
  }

  lemma CorneredDies(s: System, c: Client, d: Pid)
    requires Basic(s) && Cornered(s, d)
    ensures !Outlives(s, c, d)
  {
    forall events, states, i: nat, j: nat ensures !Outliving(s, events, states, i, j, c, d) {
      if Run(events, states) && states[0] == s && i < j < |events| && events[i] == ClearState(c) {
        StaysCornered(events, states, j, d);
        StepMute(states[j], events[j], d);
      }
    }
  }

  /** A confirm of an armed timer: which watchdogs may change the configuration after it. The watchdog in
      the state file may if some other process is already past the point of killing it; any other one if it
      is restless. */
  lemma ConfirmExact(s: System, c: Client, d: Pid)
    requires Basic(s) && Enabled(s, Confirm(c)) && Alive(s) && d in s.used
    ensures Outlives(Next(s, Confirm(c)), c, d) <==>
      if s.state == Some(d) then Armed(s) && Loose(s, d) else Restless(s, d)
  {
    var t := Next(s, Confirm(c));
    StepBasic(s, Confirm(c));
    forall b ensures At(t, b, Writing(d)) <==> At(s, b, Writing(d)) {}
    forall w ensures Overwrites(t, w) <==> Overwrites(s, w) {}
    forall x ensures Unlinks(t, x) <==> Unlinks(s, x) {}
    if s.state == Some(d) {
      if Armed(s) && Loose(s, d) { LooseOutlives(t, c, d); } else { CorneredDies(t, c, d); }
    } else if Restless(s, d) {
      ConfirmMisses(t, c, d);
    } else {
      CorneredDies(t, c, d);
    }
  }

  // ----- watchdogs that restore although the state file does not name them

  ghost predicate Straying(s: System, events: seq<Event>, states: seq<System>, j: nat, d: Pid) {
    Run(events, states) && states[0] == s && j < |events| && events[j] == Restore(d, true) && states[j].state != Some(d)
  }

  /** Some interleaving lets `d` change the configuration while the state file does not name it. */
  ghost predicate Strays(s: System, d: Pid) { exists events, states, j :: Straying(s, events, states, j, d) }

  lemma StraysBy(s: System, e: Event, d: Pid)
    requires Enabled(s, e) && (Strays(Next(s, e), d) || (e == Restore(d, true) && s.state != Some(d)))
    ensures Strays(s, d)
  {
    var t := Next(s, e);
    if e == Restore(d, true) && s.state != Some(d) {
      assert Straying(s, [e], [s, t], 0, d);
    } else {
      var events, states, j :| Straying(t, events, states, j, d);
      StrayingBy(s, e, events, states, j, d);
    }
  }

  lemma StrayingBy(s: System, e: Event, events: seq<Event>, states: seq<System>, j: nat, d: Pid)
    requires Enabled(s, e) && Straying(Next(s, e), events, states, j, d)
    ensures Straying(s, [e] + events, [s] + states, j + 1, d)
  {
    hide Next, Enabled;
    Prepend(s, e, events, states);
  }

  lemma {:induction false} StraysAfter(events: seq<Event>, states: seq<System>, k: nat, d: Pid)
    requires Run(events, states) && k <= |events| && Strays(states[|events|], d)
    ensures Strays(states[|events| - k], d)
  {
    hide Next, Enabled;
    if k > 0 {
      StraysAfter(events, states, k - 1, d);
      var i := |events| - k;
      assert states[i + 1] == Next(states[i], events[i]);
      StraysBy(states[i], events[i], d);
    }
  }

  lemma LoadedStrays(s: System, d: Pid)
    requires Woken(s, d) && s.state != Some(d) && (s.dogs[d].Passed? ==> s.snapshot.Some?)
    ensures Strays(s, d)
  {
    if s.dogs[d].Passed? {
      StraysBy(Next(s, Load(d)), Restore(d, true), d);
      StraysBy(s, Load(d), d);
    } else {
      StraysBy(s, Restore(d, true), d);
    }
  }

  /** A client clears a state file that names another process. */
  lemma ClearingAway(s: System, c: Client, d: Pid) returns (t: System)
    requires Basic(s) && c !in s.clients && s.state.Some? && s.state != Some(d) && d in s.dogs
    ensures Basic(t) && t.state.None? && d in t.dogs && t.dogs[d] == s.dogs[d]
    ensures forall b :: b in s.clients ==> b in t.clients && t.clients[b] == s.clients[b]
    ensures Strays(t, d) ==> Strays(s, d)
  {
    var s1 := Next(s, Confirm(c));
    StepBasic(s, Confirm(c));
    var s2 := s1;
    if Alive(s) {
      s2 := Next(s1, Stop(c));
      StepBasic(s1, Stop(c));
    }
    t := Next(s2, ClearState(c));
    StepBasic(s2, ClearState(c));
    if Strays(t, d) {
      StraysBy(s2, ClearState(c), d);
      if Alive(s) { StraysBy(s1, Stop(c), d); }
      StraysBy(s, Confirm(c), d);
    }
  }

  /** A client takes a snapshot while there is no state file. */
  lemma SavingAnew(s: System, c: Client, d: Pid) returns (t: System)
    requires Basic(s) && c !in s.clients && s.state.None? && d in s.dogs
    ensures Basic(t) && t == s.(snapshot := Some(s.running), clients := s.clients[c := Starting])
    ensures Strays(t, d) ==> Strays(s, d)
  {
    hide Basic;
    var s1 := Next(s, Arm(c));
    StepBasic(s, Arm(c));
    var s2 := Next(s1, Read(c));
    StepBasic(s1, Read(c));
    t := Next(s2, Save(c));
    StepBasic(s2, Save(c));
    assert t.clients == s.clients[c := Starting];
    if Strays(t, d) {
      StraysBy(s2, Save(c), d);
      StraysBy(s1, Read(c), d);
      StraysBy(s, Arm(c), d);
    }
  }

  lemma WokenStrays(s: System, d: Pid)
    requires Basic(s) && Woken(s, d) && s.state != Some(d)
    ensures Strays(s, d)
  {
    var t := s;
    if s.state.Some? {
      var c := FreshClient(s);
      t := ClearingAway(s, c, d);
    }
    var c := FreshClient(t);
    var u := SavingAnew(t, c, d);
    LoadedStrays(u, d);
  }

  lemma PendingStrays(s: System, d: Pid, b: Client)
    requires Basic(s) && In(s, d, Sleeping) && At(s, b, Writing(d))
    ensures Strays(s, d)
  {
    assert NewPid(s, b, d);
    var t := s;
    if s.state.Some? {
      var c := FreshClient(s);
      t := ClearingAway(s, c, d);
    }
    var c := FreshClient(t);
    var u := SavingAnew(t, c, d);
    var v := Next(u, Write(b));
    StepBasic(u, Write(b));
    assert Overwrites(v, c);
    var w := FreshClient(v);
    LooseEscapes(v, w, d);
    var events, states :| Escaping(v, events, states, w, d);
    WokenStrays(states[|events|], d);
    StraysAfter(events, states, |events|, d);
    StraysBy(u, Write(b), d);
  }

  lemma CorneredIsNamed(s: System, d: Pid)
    requires Basic(s) && Cornered(s, d)
    ensures !Strays(s, d)
  {
    forall events, states, j: nat ensures !Straying(s, events, states, j, d) {
      if Run(events, states) && states[0] == s && j < |events| {
        StaysCornered(events, states, j, d);
        if Mute(states[j], d) { StepMute(states[j], events[j], d); }
      }
    }
  }

  /** Exactly these watchdogs can change the configuration while the state file does not name them. */
  lemma StrayExact(s: System, d: Pid)
    requires Basic(s) && d in s.used
    ensures Strays(s, d) <==> if s.state == Some(d) then Armed(s) && Loose(s, d) else Restless(s, d)
  {
    if s.state == Some(d) {
      if Armed(s) && Loose(s, d) {
        var c := FreshClient(s);
        LooseEscapes(s, c, d);
        var events, states :| Escaping(s, events, states, c, d);
        WokenStrays(states[|events|], d);
        StraysAfter(events, states, |events|, d);
      } else {
        CorneredIsNamed(s, d);
      }
    } else if Woken(s, d) {
      WokenStrays(s, d);
    } else if Restless(s, d) {
      var b :| At(s, b, Writing(d));
      PendingStrays(s, d, b);
    } else {
      CorneredIsNamed(s, d);
    }
  }

  // ----- the snapshot of an armed timer replaced

  /** The snapshot of the timer `d` is not the one that `first` has. */
  predicate Replacement(first: System, t: System) {
    Armed(t) && t.state == first.state && t.snapshot.Some? && t.snapshot != first.snapshot
  }

  ghost predicate Replaces(s: System, first: System) {
    exists events, states :: Run(events, states) && states[0] == s && Replacement(first, states[|events|])
  }

  lemma ReplacesNow(s: System, first: System)
    requires Replacement(first, s)
    ensures Replaces(s, first)
  {
    var (events, states) := ([], [s]);
    assert Run(events, states) && states[0] == s && Replacement(first, states[|events|]);
  }

  lemma ReplacesBy(s: System, e: Event, first: System)
    requires Enabled(s, e) && Replaces(Next(s, e), first)
    ensures Replaces(s, first)
  {
    hide Next, Enabled, Replacement;
    var events, states :| Run(events, states) && states[0] == Next(s, e) && Replacement(first, states[|events|]);
    Prepend(s, e, events, states);
    var (more, all) := ([e] + events, [s] + states);
    assert Run(more, all) && all[0] == s && Replacement(first, all[|more|]);
  }

  /** The client is going to save another snapshot without touching the state file before. */
  predicate Resnaps(s: System, first: System, w: Client) {
    w in s.clients && match s.clients[w]
                      case Reading => true
                      case HalfCleared(arm) => arm
                      case Saving(config) => Some(config) != first.snapshot
                      case _ => false
  }

  function Another(config: Config): Config { config.(hostname := config.hostname + "x") }

  lemma SavingReplaces(s: System, first: System, w: Client)
    requires Armed(s) && s.state == first.state && Resnaps(s, first, w) && s.clients[w].Saving?
    ensures Replaces(s, first)
  {
    ReplacesNow(Next(s, Save(w)), first);
    ReplacesBy(s, Save(w), first);
  }

  lemma ReadingReplaces(s: System, first: System, w: Client)
    requires Armed(s) && s.state == first.state && At(s, w, Reading)
    ensures Replaces(s, first)
  {
    var other := if first.snapshot.Some? then Another(first.snapshot.value) else s.running;
    var t := Next(s, Change(other));
    SavingReplaces(Next(t, Read(w)), first, w);
    ReplacesBy(t, Read(w), first);
    ReplacesBy(s, Change(other), first);
  }

  /** Nobody is going to save another snapshot while the state file names `d`. */
  ghost predicate Steady(s: System, first: System, d: Pid) {
    && d in s.used
    && (|| d !in s.dogs
        || (s.state != Some(d) && forall c :: !At(s, c, Writing(d)))
        || (s.state == Some(d) && (s.snapshot == first.snapshot || s.snapshot.None?) && forall w :: !Resnaps(s, first, w)))
  }

  lemma StepSteady(s: System, e: Event, first: System, d: Pid)
    requires Basic(s) && Steady(s, first, d) && Enabled(s, e)
    ensures Steady(Next(s, e), first, d)
  {
    var t := Next(s, e);
    if s.state != Some(d) && d in s.dogs {
      forall c ensures !At(t, c, Writing(d)) { assert !At(s, c, Writing(d)); }
      assert !At(s, ClientOf(e, 0), Writing(d));
    } else {
      forall c ensures d in t.dogs ==> !At(t, c, Writing(d)) {
        if At(s, c, Writing(d)) { assert NewPid(s, c, d); }
      }
      assert d in s.dogs ==> !Resnaps(s, first, ClientOf(e, 0));
      forall w ensures d in t.dogs && t.state == Some(d) ==> !Resnaps(t, first, w) { assert d in s.dogs ==> !Resnaps(s, first, w); }
    }
  }

  lemma {:induction false} StaysSteady(events: seq<Event>, states: seq<System>, first: System, d: Pid, j: nat)
    requires Run(events, states) && Basic(states[0]) && Steady(states[0], first, d) && j <= |events|
    ensures Basic(states[j]) && Steady(states[j], first, d)
  {
    if j > 0 {
      StaysSteady(events, states, first, d, j - 1);
      StepSteady(states[j - 1], events[j - 1], first, d);
      StepBasic(states[j - 1], events[j - 1]);
    }
  }

  /** The snapshot of an armed timer can be replaced by another one, before the timer ends, exactly when
      some client is already on its way to save one. */
  lemma ReplacedExact(s: System)
    requires Basic(s) && Armed(s)
    ensures Replaces(s, s) <==> exists w :: Resnaps(s, s, w)
  {
    if w :| Resnaps(s, s, w) {
      if s.clients[w].HalfCleared? {
        ReadingReplaces(Next(s, ClearSnapshot(w)), s, w);
        ReplacesBy(s, ClearSnapshot(w), s);
      } else if s.clients[w].Reading? {
        ReadingReplaces(s, s, w);
      } else {
        SavingReplaces(s, s, w);
      }
    } else {
      var d := s.state.value;
      forall events, states | Run(events, states) && states[0] == s ensures !Replacement(s, states[|events|]) {
        StaysSteady(events, states, s, d, |events|);
      }
    }
  }
}
