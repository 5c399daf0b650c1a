/** Runs of the revert timer (netcli/internal/manager/manager.go) in which it fails: a new timer that
    loses its snapshot, a snapshot that is overwritten, and a confirm that is overtaken. Each is built
    step by step from a state in which everything is in order. */
module RevertRuns {
  import opened Basics
  import opened Config
  import opened RevertTimer

  /** One run after another. */
  lemma Joined(events: seq<Event>, states: seq<System>, more: seq<Event>, further: seq<System>)
    requires Run(events, states) && Run(more, further) && states[|events|] == further[0]
    ensures Run(events + more, states + further[1..])
  {
    var (es, ss) := (events + more, states + further[1..]);
    forall i | 0 <= i < |es| ensures Enabled(ss[i], es[i]) && ss[i + 1] == Next(ss[i], es[i]) {
      var k := i - |events|;
      if k >= 0 {
        assert ss[i] == further[k] && ss[i + 1] == further[k + 1];
        assert Enabled(further[k], more[k]);
      }
    }
  }

  predicate Step(s: System, e: Event, t: System) { Enabled(s, e) && Next(s, e) == t }

  function Initial(first: Config): System { System(first, None, None, map[], map[], {}) }

  /** A timer runs out, and its watchdog restores the snapshot. */
  function Expiry(first: Config): seq<System> {
    var snap := Some(first);
    [ Initial(first),
      System(first, None, None, map[], map[0 := Reading], {}),
      System(first, None, None, map[], map[0 := Saving(first)], {}),
      System(first, None, snap, map[], map[0 := Starting], {}),
      System(first, None, snap, map[1 := Sleeping], map[0 := Writing(1)], {1}),
      System(first, Some(1), snap, map[1 := Sleeping], map[], {1}),
      System(first, Some(1), snap, map[1 := Passed], map[], {1}),
      System(first, Some(1), snap, map[1 := Loaded(first)], map[], {1}),
      System(first, Some(1), snap, map[1 := Replaced], map[], {1})]
  }

  lemma ExpiryStarts(first: Config)
    ensures var s := Expiry(first);
      Step(s[0], Arm(0), s[1]) && Step(s[1], Read(0), s[2]) && Step(s[2], Save(0), s[3])
  {
  }

  lemma ExpiryContinues(first: Config)
    ensures var s := Expiry(first); Step(s[3], Start(0, 1), s[4]) && Step(s[4], Write(0), s[5])
  {
  }

  lemma ExpiryEnds(first: Config)
    ensures var s := Expiry(first); Step(s[5], Fire(1), s[6]) && Step(s[6], Load(1), s[7]) && Step(s[7], Restore(1, true), s[8])
  {
  }

  lemma TimerExpires(first: Config)
    ensures Run([Arm(0), Read(0), Save(0), Start(0, 1), Write(0), Fire(1), Load(1), Restore(1, true)], Expiry(first))
  {
    hide Next, Enabled;
    ExpiryStarts(first);
    ExpiryContinues(first);
    ExpiryEnds(first);
  }

  /** Meanwhile the timer is armed again, and the new timer has no snapshot. */
  function Rearming(first: Config): seq<System> {
    [ System(first, Some(1), Some(first), map[1 := Replaced], map[], {1}),
      System(first, Some(1), Some(first), map[1 := Replaced], map[0 := Stopping(ToArm)], {1}),
      System(first, None, Some(first), map[1 := Unlinked], map[0 := Stopping(ToArm)], {1}),
      System(first, None, None, map[], map[0 := Stopping(ToArm)], {1}),
      System(first, None, None, map[], map[0 := Starting], {1}),
      System(first, None, None, map[2 := Sleeping], map[0 := Writing(2)], {1, 2}),
      System(first, Some(2), None, map[2 := Sleeping], map[], {1, 2})]
  }

  lemma RearmingStarts(first: Config)
    ensures var s := Rearming(first);
      Step(s[0], Arm(0), s[1]) && Step(s[1], RemoveState(1), s[2]) && Step(s[2], RemoveSnapshot(1), s[3])
  {
  }

  lemma RearmingEnds(first: Config)
    ensures var s := Rearming(first); Step(s[3], Stop(0), s[4]) && Step(s[4], Start(0, 2), s[5]) && Step(s[5], Write(0), s[6])
  {
  }

  lemma RearmsAfterExpiry(first: Config)
    ensures Run([Arm(0), RemoveState(1), RemoveSnapshot(1), Stop(0), Start(0, 2), Write(0)], Rearming(first))
    ensures Exposed(Rearming(first)[1])
  {
    hide Next, Enabled;
    RearmingStarts(first);
    RearmingEnds(first);
    var t := Rearming(first)[1];
    assert Arming(t, 0) && Awake(t, 1) && Threatened(t, 0);
  }

  /** The watchdog of the new timer finds nothing to restore. */
  function Losing(first: Config, bad: Config): seq<System> {
    [ Rearming(first)[6],
      System(bad, Some(2), None, map[2 := Sleeping], map[], {1, 2}),
      System(bad, Some(2), None, map[2 := Passed], map[], {1, 2}),
      System(bad, Some(2), None, map[], map[], {1, 2})]
  }

  lemma Loses(first: Config, bad: Config)
    ensures Run([Change(bad), Fire(2), Load(2)], Losing(first, bad))
  {
  }

  /** One command line and one watchdog: the timer counts as pending, and its watchdog clears both files
      before the command line goes on. The new timer has no snapshot, and the change that it was to
      guard stays. */
  lemma RearmRace(first: Config, bad: Config) returns (events: seq<Event>, states: seq<System>)
    ensures Run(events, states) && Fresh(states[0]) && states[0].running == first
    ensures |events| == 17 && events[8] == Arm(0) && Exposed(states[9]) && Armed(states[14]) && states[14].snapshot.None?
    ensures states[17].running == bad && states[17].dogs == map[]
  {
    hide Next, Enabled, Run, Exposed;
    var expiry := [Arm(0), Read(0), Save(0), Start(0, 1), Write(0), Fire(1), Load(1), Restore(1, true)];
    var rearm := [Arm(0), RemoveState(1), RemoveSnapshot(1), Stop(0), Start(0, 2), Write(0)];
    var lost := [Change(bad), Fire(2), Load(2)];
    var (s1, s2, s3) := (Expiry(first), Rearming(first), Losing(first, bad));
    TimerExpires(first);
    RearmsAfterExpiry(first);
    Loses(first, bad);
    Joined(expiry, s1, rearm, s2);
    Joined(expiry + rearm, s1 + s2[1..], lost, s3);
    events, states := expiry + rearm + lost, s1 + s2[1..] + s3[1..];
    assert events[8] == rearm[0] && states[9] == s2[1] && states[14] == s2[6] && states[17] == s3[3];
  }

  /** Two clients arm at the same time, and the watchdog of the first one has read its snapshot when the
      second one names its own in the state file. */
  function Overtaking(first: Config): seq<System> {
    var (snap, dog) := (Some(first), Loaded(first));
    [ Initial(first),
      System(first, None, None, map[], map[0 := Reading], {}),
      System(first, None, None, map[], map[0 := Reading, 1 := Reading], {}),
      System(first, None, None, map[], map[0 := Saving(first), 1 := Reading], {}),
      System(first, None, snap, map[], map[0 := Starting, 1 := Reading], {}),
      System(first, None, snap, map[1 := Sleeping], map[0 := Writing(1), 1 := Reading], {1}),
      System(first, Some(1), snap, map[1 := Sleeping], map[1 := Reading], {1}),
      System(first, Some(1), snap, map[1 := Passed], map[1 := Reading], {1}),
      System(first, Some(1), snap, map[1 := dog], map[1 := Reading], {1}),
      System(first, Some(1), snap, map[1 := dog], map[1 := Saving(first)], {1}),
      System(first, Some(1), snap, map[1 := dog], map[1 := Starting], {1}),
      System(first, Some(1), snap, map[1 := dog, 2 := Sleeping], map[1 := Writing(2)], {1, 2}),
      System(first, Some(2), snap, map[1 := dog, 2 := Sleeping], map[], {1, 2})]
  }

  lemma OvertakingStarts(first: Config)
    ensures var s := Overtaking(first);
      Step(s[0], Arm(0), s[1]) && Step(s[1], Arm(1), s[2]) && Step(s[2], Read(0), s[3])
  {
  }

  lemma OvertakingSavesFirst(first: Config)
    ensures var s := Overtaking(first); Step(s[3], Save(0), s[4])
  {
  }

  lemma OvertakingContinues(first: Config)
    ensures var s := Overtaking(first);
      Step(s[4], Start(0, 1), s[5]) && Step(s[5], Write(0), s[6])
  {
  }

  lemma OvertakingWakes(first: Config)
    ensures var s := Overtaking(first);
      && Step(s[6], Fire(1), s[7]) && Step(s[7], Load(1), s[8]) && Step(s[8], Read(1), s[9])
  {
  }

  lemma OvertakingSaves(first: Config)
    ensures var s := Overtaking(first);
      Step(s[9], Save(1), s[10]) && Step(s[10], Start(1, 2), s[11]) && Step(s[11], Write(1), s[12])
  {
  }

  lemma BothArm(first: Config)
    ensures Run([Arm(0), Arm(1), Read(0), Save(0), Start(0, 1), Write(0), Fire(1), Load(1), Read(1), Save(1), Start(1, 2), Write(1)], Overtaking(first))
    ensures Crowded(Overtaking(first)[8])
  {
    hide Next, Enabled;
    OvertakingStarts(first);
    OvertakingSavesFirst(first);
    OvertakingContinues(first);
    OvertakingWakes(first);
    OvertakingSaves(first);
    assert Writes(Overtaking(first)[8], 1) && Awake(Overtaking(first)[8], 1);
  }

  function Confirming(first: Config): seq<System> {
    var (snap, dog) := (Some(first), Loaded(first));
    [ Overtaking(first)[12],
      System(first, Some(2), snap, map[1 := dog, 2 := Sleeping], map[0 := Stopping(ToConfirm)], {1, 2}),
      System(first, Some(2), snap, map[1 := dog], map[0 := Clearing(false)], {1, 2}),
      System(first, None, snap, map[1 := dog], map[0 := HalfCleared(false)], {1, 2}),
      System(first, None, None, map[1 := dog], map[], {1, 2}),
      System(first, None, None, map[1 := Replaced], map[], {1, 2})]
  }

  lemma ConfirmingStarts(first: Config)
    ensures var s := Confirming(first); Step(s[0], Confirm(0), s[1]) && Step(s[1], Stop(0), s[2]) && Step(s[2], ClearState(0), s[3])
  {
  }

  lemma ConfirmingEnds(first: Config)
    ensures var s := Confirming(first); Step(s[3], ClearSnapshot(0), s[4]) && Step(s[4], Restore(1, true), s[5])
  {
  }

  lemma ConfirmsTooLate(first: Config)
    ensures Run([Confirm(0), Stop(0), ClearState(0), ClearSnapshot(0), Restore(1, true)], Confirming(first))
  {
    hide Next, Enabled;
    ConfirmingStarts(first);
    ConfirmingEnds(first);
  }

  /** A watchdog that has been overtaken in this way restores its configuration after the confirm. */
  lemma ConfirmOvertaken(first: Config) returns (events: seq<Event>, states: seq<System>)
    ensures Run(events, states) && Fresh(states[0]) && |events| == 17
    ensures events[12] == Confirm(0) && states[16].clients == map[] && states[16].state.None?
    ensures events[16] == Restore(1, true) && 1 in states[12].used && Crowded(states[8])
  {
    hide Next, Enabled, Run, Crowded;
    var arming := [Arm(0), Arm(1), Read(0), Save(0), Start(0, 1), Write(0), Fire(1), Load(1), Read(1), Save(1), Start(1, 2), Write(1)];
    var confirming := [Confirm(0), Stop(0), ClearState(0), ClearSnapshot(0), Restore(1, true)];
    var (s1, s2) := (Overtaking(first), Confirming(first));
    BothArm(first);
    ConfirmsTooLate(first);
    Joined(arming, s1, confirming, s2);
    events, states := arming + confirming, s1 + s2[1..];
    assert events[12] == confirming[0] && events[16] == confirming[4] && states[8] == s1[8] && states[16] == s2[4];
  }

  /** The second of these clients takes its snapshot when the first timer is armed already. */
  function Overwriting(first: Config, bad: Config): seq<System> {
    [ Overtaking(first)[6],
      System(bad, Some(1), Some(first), map[1 := Sleeping], map[1 := Reading], {1}),
      System(bad, Some(1), Some(first), map[1 := Sleeping], map[1 := Saving(bad)], {1}),
      System(bad, Some(1), Some(bad), map[1 := Sleeping], map[1 := Starting], {1})]
  }

  lemma OverwritingRuns(first: Config, bad: Config)
    ensures Run([Change(bad), Read(1), Save(1)], Overwriting(first, bad))
  {
  }

  /** So the snapshot of an armed timer is replaced by the change that it was to guard. */
  lemma SnapshotOverwritten(first: Config, bad: Config) returns (events: seq<Event>, states: seq<System>)
    ensures Run(events, states) && Fresh(states[0]) && |events| == 9
    ensures forall e :: e in events ==> !e.ClearSnapshot? && !e.RemoveSnapshot?
    ensures Armed(states[6]) && states[6].running == first && states[6].snapshot == Some(first)
    ensures Armed(states[9]) && states[9].state == states[6].state && states[9].snapshot == Some(bad)
  {
    hide Next, Enabled, Run;
    var arming := [Arm(0), Arm(1), Read(0), Save(0), Start(0, 1), Write(0)];
    var saving := [Change(bad), Read(1), Save(1)];
    var (s1, s2) := (Overtaking(first)[..7], Overwriting(first, bad));
    FirstTwoArm(first);
    OverwritingRuns(first, bad);
    Joined(arming, s1, saving, s2);
    events, states := arming + saving, s1 + s2[1..];
    assert states[6] == s1[6] && states[9] == s2[3];
  }

  lemma FirstTwoArm(first: Config)
    ensures Run([Arm(0), Arm(1), Read(0), Save(0), Start(0, 1), Write(0)], Overtaking(first)[..7])
  {
    hide Next, Enabled;
    OvertakingStarts(first);
    OvertakingSavesFirst(first);
    OvertakingContinues(first);
  }
}
