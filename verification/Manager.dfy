/** The manager (netcli/internal/manager/manager.go): normalise, validate, apply, record, or roll back.
    Its operations are a transition system over what is recorded and what the kernel is; the class
    refines it, and says which outcome an operation has. */
module Manager {
  import opened Basics
  import opened Config
  import opened EffectiveConfig
  import opened Agreement
  import Kernel
  import opened Bridging
  import opened SlotSteps
  import opened Apply

  /** What a mutate function returns. */
  datatype Mutation = Next(config: Config) | NoChange | Refused

  datatype Op =
    | Change(mutate: Config -> Mutation)
    | Replace(config: Config)
    | Save
    | Erase
    | Boot
    /** The machine restarts; the recorded running configuration may be lost. */
    | Restart(kernel: Kernel.Kernel, survives: bool)

  /** How an operation ends. `Stuck` is a rollback that failed too, `NotSaved` a
      change that was applied but not recorded, `Failed` an error of any other kind. */
  datatype Outcome = Done | Unchanged | Rejected | RolledBack | Stuck | NotSaved | Failed

  /** What the operations work on: the two stored configurations, the kernel, and how
      many failures carried a misleading message. */
  datatype View = View(running: Option<Config>, startup: Option<Config>, k: Kernel.Kernel, lies: nat)

  /** Store.Running and Store.Startup: the startup configuration, or else the default
      one, stands in for a missing file. */
  function StartupOf(v: View): Config { if v.startup.Some? then v.startup.value else NEW }

  function RunningOf(v: View): Config { if v.running.Some? then v.running.value else StartupOf(v) }

  ghost predicate Describes(c: Config, k: Kernel.Kernel) { Realises(Effective(c), k) }

  /** The side conditions of a change and of its undoing. */
  ghost predicate Undoable(o: Config, w: Config) {
    var (eo, ew) := (Effective(o), Effective(w));
    Unambiguous(eo) && Unambiguous(ew) && Gentle(eo, ew) && Gentle(ew, eo)
  }

  const EMPTY := NEW.(hostname := "")

  /** Nothing has been done to the interface: it is down and bare, and does not exist if it is made
      by netcli. */
  predicate Bare(n: Name, s: Kernel.Slot) {
    && SlotWf(s) && (IsCloned(n) ==> !s.present) && !s.port.up && s.addrs == {} && s.port.vlan.None? && !s.port.ap
    && !s.dhcpcd && s.wifi.hostapd.None? && s.wifi.wpa.None?
  }

  /** A machine that has just started. Interfaces that the system looks after itself, like lo0, may
      be in any state. */
  ghost predicate Pristine(k: Kernel.Kernel) {
    && (forall n :: Kernel.At(k, n).foreign || Bare(n, Kernel.At(k, n)))
    && k.links == {} && k.sys.routes == {}
  }

  /** Booting starts from there, whatever the startup configuration is. */
  lemma PristineIsBetween(c: Config, k: Kernel.Kernel)
    requires Pristine(k) && Valid(c) && Ours(Effective(c), k)
    ensures Between(Effective(EMPTY), Effective(c), true, k)
  {
    var (eo, ew) := (Effective(EMPTY), Effective(c));
    ValidIsShaped(c);
    assert eo.interfaces == map[];
    forall n ensures SlotBetween(n, Lookup(eo, n), Lookup(ew, n), BridgeOf(eo, n), BridgeOf(ew, n), Kernel.At(k, n)) {
      if n in ew.interfaces { assert WellShaped(n, ew.interfaces[n], ew.interfaces.Keys); }
    }
    assert LinksOf(eo) == {};
    assert RoutesOf(eo) == {};
  }

  lemma EmptyIsAppliable(c: Config)
    requires Valid(c) && Unambiguous(Effective(c))
    ensures Appliable(Effective(EMPTY), Effective(c))
  {
    ValidShapes(c);
    EmptyIsEmpty();
  }

  /** What a boot with the effective configuration `w` needs: nothing is left over that `w` does not
      ask for, except what is replaced by its own settings. */
  ghost predicate NothingElse(w: Config, k: Kernel.Kernel) {
    (forall n :: NoMoreAt(w, n, k)) && k.links <= LinksOf(w) && k.sys.routes <= RoutesOf(w)
  }

  ghost predicate NoMoreAt(w: Config, n: Name, k: Kernel.Kernel) {
    var s := Kernel.At(k, n);
    if n in w.interfaces then NoMore(n, w.interfaces[n], s) else s.foreign || Bare(n, s)
  }

  /** The interface may have any MTU, media, daemons and VLAN parent that its entry overrides; its addresses,
      radio, access point mode and DHCP client have to be those of the entry, if it has any. */
  ghost predicate NoMore(n: Name, i: Interface, s: Kernel.Slot) {
    && !s.foreign && s.addrs <= AddrsOf(Some(i))
    && (s.port.vlan.Some? ==> InterfaceKind(n) == VlanKind)
    && (s.port.ap ==> InterfaceKind(n) == Physical && ApIn(Some(i)))
    && (InterfaceKind(n) == Wlan && s.present ==> s.vap == VapIn(Some(i)))
    && (s.dhcpcd ==> DhcpIn(Some(i)))
    && (i.wireless.None? ==> s.wifi.hostapd.None? && s.wifi.wpa.None?)
  }

  /** That is exactly what the applier starts from. */
  lemma NothingElseExact(c: Config, k: Kernel.Kernel)
    requires Valid(c) && Sound(k)
    ensures Between(Effective(EMPTY), Effective(c), true, k) <==> NothingElse(Effective(c), k)
  {
    hide Sound, LinksOf, RoutesOf, Valid, Effective, SlotBetween, NoMore, Bare, BridgesPresent;
    var (eo, ew) := (Effective(EMPTY), Effective(c));
    ValidShapes(c);
    EmptyIsEmpty();
    forall n
      ensures SlotBetween(n, Lookup(eo, n), Lookup(ew, n), BridgeOf(eo, n), BridgeOf(ew, n), Kernel.At(k, n)) <==> NoMoreAt(ew, n, k)
    {
      SoundSlot(k, n);
      if n in ew.interfaces {
        assert WellShaped(n, ew.interfaces[n], ew.interfaces.Keys);
        NoMoreExact(n, ew.interfaces[n], BridgeOf(eo, n), BridgeOf(ew, n), Kernel.At(k, n));
      } else {
        BareExact(n, BridgeOf(eo, n), BridgeOf(ew, n), Kernel.At(k, n));
      }
    }
    SoundBridges(k);
  }

  lemma EmptyIsEmpty()
    ensures var o := Effective(EMPTY);
      && o.interfaces == map[] && LinksOf(o) == {} && RoutesOf(o) == {}
      && o.hostname == "" && o.nameServers == [] && Shaped(o)
  {
  }

  lemma NoMoreExact(n: Name, i: Interface, ob: Name, wb: Name, s: Kernel.Slot)
    requires (s.foreign || SlotWf(s)) && (InterfaceKind(n) == Wlan ==> i.wireless.Some?)
    ensures SlotBetween(n, None, Some(i), ob, wb, s) <==> NoMore(n, i, s)
  {
  }

  lemma BareExact(n: Name, ob: Name, wb: Name, s: Kernel.Slot)
    requires s.foreign || SlotWf(s)
    ensures SlotBetween(n, None, None, ob, wb, s) <==> s.foreign || Bare(n, s)
  {
  }

  lemma SoundSlot(k: Kernel.Kernel, n: Name)
    requires Sound(k)
    ensures Kernel.At(k, n).foreign || SlotWf(Kernel.At(k, n))
  {
  }

  lemma SoundBridges(k: Kernel.Kernel)
    requires Sound(k)
    ensures BridgesPresent(k)
  {
  }

  /** Everything that `o` sets up is something that `w` sets up or replaces. */
  ghost predicate Covers(o: Config, w: Config) {
    (forall n :: CoversAt(o, w, n)) && LinksOf(o) <= LinksOf(w) && RoutesOf(o) <= RoutesOf(w)
  }

  ghost predicate CoversAt(o: Config, w: Config, n: Name) {
    n in o.interfaces ==> if n in w.interfaces then CoversEntry(n, o.interfaces[n], w.interfaces[n]) else Idle(n, o.interfaces[n])
  }

  ghost predicate CoversEntry(n: Name, i: Interface, j: Interface) {
    && AddrsOf(Some(i)) <= AddrsOf(Some(j))
    && (ApIn(Some(i)) && InterfaceKind(n) == Physical ==> ApIn(Some(j)))
    && (InterfaceKind(n) == Wlan ==> VapIn(Some(i)) == VapIn(Some(j)))
    && (DhcpIn(Some(i)) ==> DhcpIn(Some(j)))
    && (UpIn(Some(i)) && i.wireless.Some? ==> j.wireless.Some?)
  }

  /** An entry that sets up nothing: it is for hardware, shut down, and without addresses and access point mode. */
  ghost predicate Idle(n: Name, i: Interface) {
    !IsCloned(n) && i.shutdown && AddrsOf(Some(i)) == {} && !(ApIn(Some(i)) && InterfaceKind(n) == Physical)
  }

  /** Booting over a kernel that realises `o` works exactly when the startup configuration covers `o`. */
  lemma RebootExact(o: Config, c: Config, k: Kernel.Kernel)
    requires Valid(o) && Valid(c) && Describes(o, k) && Ours(Effective(c), k)
    ensures Between(Effective(EMPTY), Effective(c), true, k) <==> Covers(Effective(o), Effective(c))
  {
    hide Valid;
    var (eo, ew) := (Effective(o), Effective(c));
    ValidShapes(o);
    ValidShapes(c);
    RealisedIsSound(eo, k);
    NothingElseExact(c, k);
    hide Effective, Sound, LinksOf, RoutesOf, SlotRealises, NoMore, Bare, CoversEntry, Idle, HostRealises, NpfRealises, DhcpdRealises;
    forall n ensures NoMoreAt(ew, n, k) <==> CoversAt(eo, ew, n) {
      assert SlotRealises(n, Lookup(eo, n), BridgeOf(eo, n), Kernel.At(k, n));
      if n in ew.interfaces { assert WellShaped(n, ew.interfaces[n], ew.interfaces.Keys); }
      if n in eo.interfaces {
        assert WellShaped(n, eo.interfaces[n], eo.interfaces.Keys);
        LeftByEntry(n, eo.interfaces[n], Lookup(ew, n), BridgeOf(eo, n), Kernel.At(k, n));
      } else {
        LeftByNone(n, Lookup(ew, n), BridgeOf(eo, n), Kernel.At(k, n));
      }
    }
  }

  lemma LeftByEntry(n: Name, i: Interface, j: Option<Interface>, bridge: Name, s: Kernel.Slot)
    requires SlotRealises(n, Some(i), bridge, s) && WellFormed(n, i) && (j.Some? ==> WellFormed(n, j.value))
    ensures j.Some? ==> (NoMore(n, j.value, s) <==> CoversEntry(n, i, j.value))
    ensures j.None? ==> (s.foreign || Bare(n, s) <==> Idle(n, i))
  {
  }

  lemma LeftByNone(n: Name, j: Option<Interface>, bridge: Name, s: Kernel.Slot)
    requires SlotRealises(n, None, bridge, s) && (j.Some? ==> !s.foreign)
    ensures if j.Some? then NoMore(n, j.value, s) else s.foreign || Bare(n, s)
  {
  }

  predicate WellFormed(n: Name, i: Interface) {
    (InterfaceKind(n) == Wlan ==> i.wireless.Some?) && (InterfaceKind(n) == VlanKind <==> i.vlan.Some?)
  }

  lemma ValidShapes(c: Config)
    requires Valid(c)
    ensures Shaped(Effective(c))
  {
    ValidIsShaped(c);
  }

  /** In particular over a kernel that realises the startup configuration already. */
  lemma RebootSame(c: Config, k: Kernel.Kernel)
    requires Valid(c) && Describes(c, k)
    ensures Between(Effective(EMPTY), Effective(c), true, k)
  {
    hide Valid, Effective, Sound, SlotRealises, LinksOf, RoutesOf;
    var w := Effective(c);
    forall n | n in w.interfaces ensures !Kernel.At(k, n).foreign { NotForeign(w, n, k); }
    RebootExact(c, c, k);
  }

  lemma NotForeign(w: Config, n: Name, k: Kernel.Kernel)
    requires Realises(w, k) && n in w.interfaces
    ensures !Kernel.At(k, n).foreign
  {
    assert SlotRealises(n, Lookup(w, n), BridgeOf(w, n), Kernel.At(k, n));
  }

  /** A change of valid configurations that meets the side conditions starts between the
      two, and can be applied either way. */
  lemma CommitStarts(o: Config, w: Config, k: Kernel.Kernel)
    requires Valid(o) && Valid(w) && Undoable(o, w) && Describes(o, k) && Ours(Effective(w), k)
    ensures Appliable(Effective(o), Effective(w)) && Appliable(Effective(w), Effective(o))
    ensures Between(Effective(o), Effective(w), false, k)
  {
    ValidIsShaped(o);
    ValidIsShaped(w);
    RealisedIsBetween(Effective(o), Effective(w), false, k);
  }

  // ----- the operations as a transition system

  /** The claims about the kernel hold for this change from `o` to `w`. */
  ghost predicate Claimed(o: Config, w: Config, v: View, t: View) {
    Valid(o) && Describes(o, v.k) && Undoable(o, w) && Ours(Effective(w), v.k) && t.lies == v.lies
  }

  /** commit from the recorded `o` to the normalised `w`. */
  ghost predicate Committed(o: Config, w: Config, outcome: Outcome, v: View, t: View) {
    && t.startup == v.startup && v.lies <= t.lies
    && (outcome.Rejected? <==> !Valid(w))
    && (outcome.Unchanged? <==> Valid(w) && o == w)
    && match outcome
       case Rejected => t == v
       case Unchanged => t == v
       case Done => t.running == Some(w) && (Claimed(o, w, v, t) ==> Describes(w, t.k))
       case NotSaved => t.running == v.running && (Claimed(o, w, v, t) ==> Describes(w, t.k))
       case RolledBack => t.running == v.running && (Claimed(o, w, v, t) ==> Describes(o, t.k))
       case Stuck =>
         && t.running in {v.running, Some(w)}
         && (Claimed(o, w, v, t) ==> Between(Effective(o), Effective(w), false, t.k))
       case Failed => false
  }

  /** The side conditions of booting: those of the configuration, and that the kernel holds nothing that
      it does not ask for. */
  ghost predicate BootsClean(c: Config, k: Kernel.Kernel) {
    Unambiguous(Effective(c)) && Between(Effective(EMPTY), Effective(c), true, k)
  }

  ghost predicate Booted(outcome: Outcome, v: View, t: View) {
    && t.startup == v.startup && v.lies <= t.lies
    && (outcome in {Done, Failed, NotSaved})
    && (v.startup.None? || !Valid(v.startup.value) ==> outcome == Failed && t == v)
    && (v.startup.Some? && Valid(v.startup.value) ==>
         && t.running == (if outcome.NotSaved? then v.running else v.startup)
         && (outcome.Done? && BootsClean(v.startup.value, v.k) && t.lies == v.lies ==>
              Describes(v.startup.value, t.k))
         && (Sound(v.k) && Describes(v.startup.value, t.k) ==>
              Between(Effective(EMPTY), Effective(v.startup.value), true, v.k)))
  }

  /** Nothing stands in the way of this change, or of this boot, on a kernel that obeys. */
  ghost predicate GoesThrough(o: Config, w: Config, v: View) {
    && Valid(w) && Claimed(o, w, v, v) && Layered(Effective(w)) && HardwarePresent(Effective(w), v.k)
    && !MayClash(Effective(o), Effective(w), LinksOf(Effective(o)))
  }

  /** Nothing stands in the way of undoing this change either. */
  ghost predicate GoesBack(o: Config, w: Config, v: View) {
    && Valid(w) && Claimed(o, w, v, v) && Layered(Effective(o)) && HardwarePresent(Effective(o), v.k)
    && !MayClash(Effective(w), Effective(o), LinksOf(Effective(w)))
  }

  /** Wherever the change has stopped. */
  lemma UndoIsPrepared(o: Config, w: Config, k0: Kernel.Kernel, k1: Kernel.Kernel)
    requires Valid(o) && Valid(w) && Undoable(o, w) && Describes(o, k0) && SoundStays(k0, k1)
    requires Between(Effective(o), Effective(w), false, k1)
    requires Layered(Effective(o)) && HardwarePresent(Effective(o), k0)
    requires !MayClash(Effective(w), Effective(o), LinksOf(Effective(w)))
    ensures Prepared(Effective(w), Effective(o), k1) && !MayClash(Effective(w), Effective(o), k1.links)
  {
    var (eo, ew) := (Effective(o), Effective(w));
    ValidShapes(o);
    ValidShapes(w);
    hide Effective, Layered, Valid, Gentle, Shaped, LinksOf, SlotBetween, IsCloned, LinksSound, MayClash;
    RealisedIsSound(eo, k0);
    forall n | Stays(n, Lookup(ew, n), Lookup(eo, n)) ensures Kernel.At(k1, n).present {
      assert SlotBetween(n, Lookup(eo, n), Lookup(ew, n), BridgeOf(eo, n), BridgeOf(ew, n), Kernel.At(k1, n));
      StayingIsPresent(n, Lookup(eo, n), Lookup(ew, n), BridgeOf(eo, n), BridgeOf(ew, n), Kernel.At(k1, n));
    }
    NoClashBack(eo, ew, k1.links);
  }

  /** A kernel part of the way holds no more than either side. */
  lemma NoClashBack(o: Config, w: Config, links: set<(Name, Name)>)
    requires OneBridgeEach(o) && links <= LinksOf(o) + LinksOf(w) && !MayClash(w, o, LinksOf(w))
    ensures !MayClash(w, o, links)
  {
    hide LinksOf;
    forall b, d, m ensures !May(w, o, links, b, d, m) {
      assert !May(w, o, LinksOf(w), b, d, m);
      if (d, m) in links && (d, m) !in LinksOf(w) { assert (d, m) in LinksOf(o); }
    }
  }

  lemma StayingIsPresent(n: Name, o: Option<Interface>, w: Option<Interface>, ob: Name, wb: Name, s: Kernel.Slot)
    requires SlotBetween(n, o, w, ob, wb, s) && Stays(n, w, o)
    ensures s.present
  {
  }

  lemma ChangeIsPrepared(o: Config, w: Config, k: Kernel.Kernel)
    requires Valid(o) && Valid(w) && Undoable(o, w) && Describes(o, k) && Ours(Effective(w), k)
    requires Layered(Effective(w)) && HardwarePresent(Effective(w), k)
    ensures Prepared(Effective(o), Effective(w), k) && k.links == LinksOf(Effective(o))
  {
    hide Effective, Layered, HardwarePresent, Valid, Gentle, Unambiguous, Realises, Shaped;
    ValidShapes(o);
    ValidShapes(w);
    FitsIsPrepared(Effective(o), Effective(w), k);
    LinksRealised(Effective(o), k);
  }

  lemma BothShaped(o: Config, w: Config, k: Kernel.Kernel)
    requires Valid(o) && Valid(w) && Describes(o, k)
    ensures Shaped(Effective(o)) && Shaped(Effective(w)) && k.links == LinksOf(Effective(o))
  {
    hide Effective, Valid, Realises;
    ValidShapes(o);
    ValidShapes(w);
    LinksRealised(Effective(o), k);
  }

  ghost predicate BootsThrough(v: View) {
    && v.startup.Some? && Valid(v.startup.value) && Prepared(Effective(EMPTY), Effective(v.startup.value), v.k)
    && !MayClash(Effective(EMPTY), Effective(v.startup.value), v.k.links)
  }

  /** What the hardware and the configuration have to meet in any case. */
  ghost predicate BootIsExact(v: View) {
    && v.startup.Some? && Valid(v.startup.value) && Unambiguous(Effective(v.startup.value)) && Sound(v.k)
    && Prepared(Effective(EMPTY), Effective(v.startup.value), v.k)
  }

  lemma CleanGoesThrough(c: Config, k: Kernel.Kernel)
    requires Valid(c) && Unambiguous(Effective(c)) && Sound(k)
    ensures NothingElse(Effective(c), k) <==> Between(Effective(EMPTY), Effective(c), true, k)
    ensures NothingElse(Effective(c), k) ==> !MayClash(Effective(EMPTY), Effective(c), k.links)
  {
    NothingElseExact(c, k);
    hide Valid, Effective, Sound, LinksOf, RoutesOf;
    var (o, w) := (Effective(EMPTY), Effective(c));
    if NothingElse(w, k) {
      forall b, d, m ensures !May(o, w, k.links, b, d, m) { assert (d, m) in k.links ==> (d, m) in LinksOf(w); }
    }
  }

  /** What one operation may do. */
  ghost predicate Stepped(op: Op, outcome: Outcome, v: View, t: View) {
    match op
    case Change(mutate) =>
      (match mutate(RunningOf(v))
       case NoChange => outcome == Unchanged && t == v
       case Refused => outcome == Failed && t == v
       case Next(config) => Committed(RunningOf(v), Normalize(config), outcome, v, t))
    case Replace(config) => Committed(RunningOf(v), Normalize(config), outcome, v, t)
    case Save => t == v.(startup := if outcome == Done then Some(RunningOf(v)) else v.startup)
    case Erase => t == v.(startup := if outcome == Done then None else v.startup)
    case Boot => Booted(outcome, v, t)
    case Restart(kernel, survives) => t == v.(k := kernel, running := if survives then v.running else None)
  }

  /** Files are normalised when they are read. */
  ghost predicate Recorded(v: View) {
    && (v.running.Some? ==> Normalized(v.running.value) && Valid(v.running.value))
    && (v.startup.Some? ==> Normalized(v.startup.value))
  }

  /** The record describes the kernel. */
  ghost predicate InStep(v: View) { v.running.Some? && Describes(v.running.value, v.k) }

  /** A step for which that is claimed: no message misleads, no rollback and no boot fails,
      what is applied is also recorded, and a change meets the side conditions. */
  ghost predicate Smooth(op: Op, outcome: Outcome, v: View, t: View) {
    && t.lies == v.lies && outcome !in {Stuck, NotSaved}
    && match op
       case Change(mutate) =>
         var m := mutate(RunningOf(v));
         m.Next? ==> Undoable(RunningOf(v), Normalize(m.config)) && Ours(Effective(Normalize(m.config)), v.k)
       case Replace(config) => Undoable(RunningOf(v), Normalize(config)) && Ours(Effective(Normalize(config)), v.k)
       case Boot => outcome == Done && v.startup.Some? && BootsClean(v.startup.value, v.k)
       case Restart(_, _) => false
       case _ => true
  }

  ghost predicate Run(ops: seq<Op>, outcomes: seq<Outcome>, views: seq<View>) {
    && |outcomes| == |ops| && |views| == |ops| + 1
    && forall i :: 0 <= i < |ops| ==> Stepped(ops[i], outcomes[i], views[i], views[i + 1])
  }

  // ----- properties of every run

  lemma StepRecords(op: Op, outcome: Outcome, v: View, t: View)
    requires Stepped(op, outcome, v, t) && Recorded(v)
    ensures Recorded(t)
  {
    hide Valid, Between, Realises, Undoable, Pristine;
    match op {
      case Change(mutate) =>
        var m := mutate(RunningOf(v));
        if m.Next? { NormalizeNormalizes(m.config); }
      case Replace(config) => NormalizeNormalizes(config);
      case _ =>
    }
  }

  /** Whatever the commands and the store do, the recorded running configuration is
      normalised and valid throughout. */
  lemma {:induction false} AlwaysRecorded(ops: seq<Op>, outcomes: seq<Outcome>, views: seq<View>, j: nat)
    requires Run(ops, outcomes, views) && Recorded(views[0]) && j <= |ops|
    ensures Recorded(views[j])
  {
    hide Recorded, Stepped;
    if j > 0 {
      AlwaysRecorded(ops, outcomes, views, j - 1);
      StepRecords(ops[j - 1], outcomes[j - 1], views[j - 1], views[j]);
    }
  }

  /** A boot brings the record in step with the kernel, and every other smooth step keeps it so. */
  lemma StepKeepsInStep(op: Op, outcome: Outcome, v: View, t: View)
    requires Stepped(op, outcome, v, t) && Recorded(v) && Smooth(op, outcome, v, t)
    ensures InStep(v) || op.Boot? ==> InStep(t)
  {
    hide Valid, Between, Realises, Undoable, Pristine, Effective, Unambiguous;
  }

  /** For a boot that reports nothing, that condition is exact. */
  lemma BootExact(outcome: Outcome, v: View, t: View)
    requires Booted(outcome, v, t) && outcome.Done? && t.lies == v.lies
    requires v.startup.Some? && Unambiguous(Effective(v.startup.value)) && Sound(v.k)
    ensures InStep(t) <==> BootsClean(v.startup.value, v.k)
  {
    hide Valid, Between, Realises, Unambiguous, Effective, Sound;
  }

  /** A boot over a running router that the record describes: its startup configuration has to cover the
      running one. */
  lemma RebootInStep(outcome: Outcome, v: View, t: View)
    requires Booted(outcome, v, t) && outcome.Done? && t.lies == v.lies && Recorded(v) && InStep(v)
    requires v.startup.Some? && Unambiguous(Effective(v.startup.value)) && Ours(Effective(v.startup.value), v.k)
    ensures InStep(t) <==> Covers(Effective(v.running.value), Effective(v.startup.value))
  {
    hide Valid, Between, Unambiguous, Effective, Sound, Covers, Realises, Shaped;
    ValidShapes(v.running.value);
    RealisedIsSound(Effective(v.running.value), v.k);
    BootExact(outcome, v, t);
    RebootExact(v.running.value, v.startup.value, v.k);
  }

  /** From any point at which the record describes the kernel, or a boot succeeds, it does so
      for as long as the steps are smooth. */
  lemma {:induction false} StaysInStep(ops: seq<Op>, outcomes: seq<Outcome>, views: seq<View>, i: nat, j: nat)
    requires Run(ops, outcomes, views) && Recorded(views[0]) && i <= j <= |ops|
    requires forall l :: i <= l < j ==> Smooth(ops[l], outcomes[l], views[l], views[l + 1])
    requires InStep(views[i]) || (i < j && ops[i].Boot?)
    ensures InStep(views[j])
    decreases j - i
  {
    hide Recorded, Stepped, Smooth, InStep;
    if i < j {
      AlwaysRecorded(ops, outcomes, views, i);
      assert Smooth(ops[i], outcomes[i], views[i], views[i + 1]);
      StepKeepsInStep(ops[i], outcomes[i], views[i], views[i + 1]);
      StaysInStep(ops, outcomes, views, i + 1, j);
    }
  }

  /** Only a recorded success, a failed rollback, a boot or a restart touches the running configuration. */
  lemma OnlyThen(op: Op, outcome: Outcome, v: View, t: View)
    requires Stepped(op, outcome, v, t) && t.running != v.running
    ensures op.Restart? || op.Boot? || ((op.Change? || op.Replace?) && outcome in {Done, Stuck})
  {
  }

  // ----- the manager itself

  class Manager {
    const step: Step
    var running: Option<Config>
    var startup: Option<Config>
    /** Whether the n-th write to the store succeeds. */
    const writes: nat -> bool
    var count: nat

    constructor (step: Step, startup: Option<Config>, writes: nat -> bool)
      ensures this.step == step && this.startup == startup && running == None && this.writes == writes
    {
      this.step, this.startup, this.writes, running, count := step, startup, writes, None, 0;
    }

    ghost function Now(): View
      reads this, step
    {
      View(running, startup, step.k, step.lies)
    }

    method Write() returns (ok: bool)
      modifies this`count
      ensures ok == writes(old(count))
    {
      ok := writes(count);
      count := count + 1;
    }

    method SaveRunning(c: Config) returns (ok: bool)
      modifies this`running, this`count
      ensures running == if ok then Some(c) else old(running)
      ensures ok == writes(old(count))
    {
      ok := Write();
      if ok { running := Some(c); }
    }

    method LoadStartup() returns (c: Config)
      ensures c == StartupOf(Now())
    {
      c := if startup.Some? then startup.value else NEW;
    }

    /** Store.Running. */
    method LoadRunning() returns (c: Config)
      ensures c == RunningOf(Now())
    {
      if running.Some? { return running.value; }
      c := LoadStartup();
    }

    /** Undoes a partly applied change, or records it when that fails too. A kernel that obeys is brought
        back, if nothing stands in the way. */
    method RollBack(o: Config, w: Config, ghost claimed: bool) returns (outcome: Outcome)
      requires claimed ==> Appliable(Effective(w), Effective(o)) && Between(Effective(o), Effective(w), false, step.k)
      modifies this`running, this`count, step
      ensures outcome == RolledBack || outcome == Stuck
      ensures outcome == RolledBack ==> running == old(running)
      ensures outcome == Stuck ==> running == if writes(old(count)) then Some(w) else old(running)
      ensures step.clock >= old(step.clock) && step.lies >= old(step.lies)
      ensures old(step.Obeying()) ==> step.Obeying() && step.lies == old(step.lies)
      ensures claimed && step.lies == old(step.lies) ==>
        if outcome == RolledBack then Describes(o, step.k) else Between(Effective(o), Effective(w), false, step.k)
      ensures old(step.Obeying() && Prepared(Effective(w), Effective(o), step.k) && !MayClash(Effective(w), Effective(o), step.k.links))
        ==> outcome == RolledBack
    {
      hide Unambiguous, Gentle, Realises, Between, Shaped, Effective, Prepared, MayClash, MustClash, Exactly, Told, Sound, SoundStays, UnfinishedAtMost;
      if claimed { BetweenSymmetric(Effective(o), Effective(w), false, step.k); }
      var failed := step.Apply(Some(w), o, false);
      if claimed { BetweenSymmetric(Effective(w), Effective(o), false, step.k); }
      if !failed { return RolledBack; }
      var _ := SaveRunning(w);
      outcome := Stuck;
    }

    /** Applies a change to a kernel that is as recorded. Nothing fails if nothing stands in the way, and
        wherever it stops, it can be undone if nothing stands in the way of that. */
    method Attempt(o: Config, w: Config) returns (failed: bool)
      requires Valid(w)
      modifies step
      ensures step.clock >= old(step.clock) && step.lies >= old(step.lies)
      ensures old(step.Obeying()) ==> step.Obeying() && step.lies == old(step.lies)
      ensures Claimed(o, w, old(Now()), old(Now())) ==>
        && Appliable(Effective(w), Effective(o)) && Between(Effective(o), Effective(w), false, step.k)
        && (!failed && step.lies == old(step.lies) ==> Describes(w, step.k))
      ensures old(step.Obeying()) && GoesThrough(o, w, old(Now())) ==> !failed
      ensures (
        old(step.Obeying()) && Claimed(o, w, old(Now()), old(Now())) && MustClash(Effective(o), Effective(w), LinksOf(Effective(o)))
      ) ==> failed
      ensures GoesBack(o, w, old(Now())) ==>
        Prepared(Effective(w), Effective(o), step.k) && !MayClash(Effective(w), Effective(o), step.k.links)
    {
      hide Unambiguous, Gentle, Realises, Between, Valid, Effective, Layered, HardwarePresent, MayClash, MustClash, Told, Sound, Prepared;
      hide Justified, OneBridgeEach, Shaped, Exactly, SoundStays, LinksOf, UnfinishedAtMost;
      ghost var v := Now();
      if Claimed(o, w, v, v) {
        CommitStarts(o, w, v.k);
        BothShaped(o, w, v.k);
        if GoesThrough(o, w, v) { ChangeIsPrepared(o, w, v.k); }
      }
      failed := step.Apply(Some(o), w, false);
      if GoesBack(o, w, v) { UndoIsPrepared(o, w, v.k, step.k); }
    }

    /** commit. When the kernel obeys and the hardware is there, nothing needs rolling back; and whatever
        failed before, a kernel that obeys from the end of the first attempt on is brought back. `tried` is
        when that attempt ended. */
    method Commit(o: Config, next: Config) returns (outcome: Outcome, ghost tried: nat)
      requires o == RunningOf(Now())
      modifies this`running, this`count, step
      ensures Committed(o, Normalize(next), outcome, old(Now()), Now())
      ensures old(step.Obeying()) && GoesThrough(o, Normalize(next), old(Now())) ==> outcome in {Done, Unchanged, NotSaved}
      ensures (
        old(step.Obeying()) && Claimed(o, Normalize(next), old(Now()), old(Now())) &&
        MustClash(Effective(o), Effective(Normalize(next)), LinksOf(Effective(o)))
      ) ==> outcome !in {Done, NotSaved}
      ensures outcome == Done ==> writes(old(count))
      ensures outcome == NotSaved ==> !writes(old(count))
      ensures outcome == Stuck ==> running == if writes(old(count)) then Some(Normalize(next)) else old(running)
      ensures old(step.Obeying()) ==> step.Obeying() && step.lies == old(step.lies)
      ensures tried <= step.clock
      ensures (
        outcome in {RolledBack, Stuck} && step.ObeyingFrom(tried) && step.lies == old(step.lies) &&
        GoesBack(o, Normalize(next), old(Now()))
      ) ==> outcome == RolledBack && Describes(o, step.k) && running == old(running)
    {
      hide Undoable, Appliable, Realises, Between, Valid, Ours, Effective, Layered, HardwarePresent, MayClash, MustClash, Prepared;
      hide Normalize, RunningOf, LinksOf;
      var w := Normalize(next);
      tried := step.clock;
      if !IsValid(w) { return Rejected, tried; }
      if o == w { return Unchanged, tried; }
      ghost var v := Now();
      var failed := Attempt(o, w);
      tried := step.clock;
      if failed {
        outcome := RollBack(o, w, Claimed(o, w, v, v));
        return;
      }
      var saved := SaveRunning(w);
      outcome := if saved then Done else NotSaved;
    }

    method Change(mutate: Config -> Mutation) returns (outcome: Outcome)
      modifies this`running, this`count, step
      ensures Stepped(Op.Change(mutate), outcome, old(Now()), Now())
    {
      hide Committed;
      var o := LoadRunning();
      match mutate(o) {
        case NoChange => outcome := Unchanged;
        case Refused => outcome := Failed;
        case Next(config) =>
          ghost var tried;
          outcome, tried := Commit(o, config);
      }
    }

    method Replace(config: Config) returns (outcome: Outcome)
      modifies this`running, this`count, step
      ensures Stepped(Op.Replace(config), outcome, old(Now()), Now())
      ensures (
        old(step.Obeying()) && GoesThrough(RunningOf(old(Now())), Normalize(config), old(Now())) && forall i :: writes(i)
      ) ==> outcome == Done || outcome == Unchanged
      ensures old(step.Obeying()) ==> step.Obeying() && step.lies == old(step.lies)
    {
      hide Committed;
      var o := LoadRunning();
      ghost var tried;
      outcome, tried := Commit(o, config);
    }

    method Save() returns (outcome: Outcome)
      modifies this`startup, this`count
      ensures Stepped(Op.Save, outcome, old(Now()), Now())
      ensures outcome == Done <==> writes(old(count))
    {
      var c := LoadRunning();
      var ok := Write();
      if ok { startup := Some(c); }
      outcome := if ok then Done else Failed;
    }

    method Erase() returns (outcome: Outcome)
      modifies this`startup, this`count
      ensures Stepped(Op.Erase, outcome, old(Now()), Now())
      ensures outcome == Done <==> writes(old(count))
    {
      var ok := Write();
      if ok { startup := None; }
      outcome := if ok then Done else Failed;
    }

    /** Boot applies the startup configuration from scratch. */
    method Boot() returns (outcome: Outcome)
      modifies this`running, this`count, step
      ensures Stepped(Op.Boot, outcome, old(Now()), Now())
      ensures old(step.Obeying() && BootsThrough(Now())) && (forall i :: writes(i)) ==> outcome == Done
      ensures old(step.Obeying() && BootIsExact(Now())) ==>
        (Describes(startup.value, step.k) <==> old(NothingElse(Effective(startup.value), step.k)))
      ensures startup.Some? ==>
        forall m :: m !in Effective(startup.value).interfaces ==> Kernel.At(step.k, m) == Kernel.At(old(step.k), m)
      ensures old(step.Obeying()) ==> step.Obeying() && step.lies == old(step.lies)
    {
      hide Unambiguous, Gentle, Realises, Between, Valid, Effective, Pristine, Prepared, MayClash, MustClash, Told, Sound, NothingElse, Exactly, Appliable, Shaped, Fits, OneBridgeEach, Justified, VisitsAll, LinksOf;
      if startup.None? || !IsValid(startup.value) { return Failed; }
      var c := startup.value;
      ghost var (o, w) := (Effective(StartOf(None, true)), Effective(c));
      assert o == Effective(EMPTY);
      ValidShapes(c);
      EmptyIsEmpty();
      if BootsClean(c, step.k) { EmptyIsAppliable(c); }
      if BootIsExact(Now()) { CleanGoesThrough(c, step.k); }
      var failed := step.Apply(None, c, true);
      var saved := SaveRunning(c);
      outcome := if !saved then NotSaved else if failed then Failed else Done;
    }

    method Restart(kernel: Kernel.Kernel, survives: bool)
      modifies this`running, step`k
      ensures Stepped(Op.Restart(kernel, survives), Done, old(Now()), Now())
    {
      step.k := kernel;
      if !survives { running := None; }
    }

    method Perform(op: Op) returns (outcome: Outcome)
      modifies this`running, this`startup, this`count, step
      ensures Stepped(op, outcome, old(Now()), Now())
    {
      hide Stepped;
      match op {
        case Change(mutate) => outcome := Change(mutate);
        case Replace(config) => outcome := Replace(config);
        case Save => outcome := Save();
        case Erase => outcome := Erase();
        case Boot => outcome := Boot();
        case Restart(kernel, survives) =>
          Restart(kernel, survives);
          outcome := Done;
      }
    }

    /** Any sequence of operations is a run of the transition system. */
    method PerformAll(ops: seq<Op>) returns (outcomes: seq<Outcome>, ghost views: seq<View>)
      modifies this`running, this`startup, this`count, step
      ensures Run(ops, outcomes, views) && views[0] == old(Now()) && views[|ops|] == Now()
    {
      hide Stepped;
      outcomes, views := [], [Now()];
      for j := 0 to |ops|
        invariant Run(ops[..j], outcomes, views) && views[0] == old(Now()) && views[j] == Now()
      {
        var outcome := Perform(ops[j]);
        outcomes, views := outcomes + [outcome], views + [Now()];
      }
      assert ops[..|ops|] == ops;
    }
  }

  predicate IsValid(c: Config)
    ensures IsValid(c) <==> Valid(c)
  {
    Valid(c)
  }
}
