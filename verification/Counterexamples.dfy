/** Valid configurations for which a promise of netcli fails, one for each condition of the theorems:
    changes that the applier does not carry out, a boot after which the record is wrong, and a text that
    does not recreate its configuration. */
module Counterexamples {
  import opened Basics
  import opened Addresses
  import opened Config
  import opened EffectiveConfig
  import opened Agreement
  import opened SlotSteps
  import opened Bridging
  import opened Apply
  import M = Manager
  import opened Commands
  import opened ConfigText
  import opened ReplayInterface
  import opened Replay
  import Kernel
  import Npf

  // ----- a kernel for every configuration

  ghost function SlotFor(c: Config, n: Name): Kernel.Slot
    requires n in c.interfaces
  {
    var (i, o) := (c.interfaces[n], Some(c.interfaces[n]));
    var job := JobIn(o, BridgeOf(c, n));
    Kernel.Slot(true, if InterfaceKind(n) == Wlan then VapIn(o) else None,
                Kernel.Port(!i.shutdown, i.mtu, i.media, i.vlan, InterfaceKind(n) == Physical && ApIn(o)),
                AddrsOf(o), DhcpIn(o), Kernel.Wifi(None, None, HostapdFor(n, job), WpaFor(job)), false)
  }

  ghost function KernelFor(c: Config): Kernel.Kernel {
    Kernel.Kernel(
      map n | n in c.interfaces :: SlotFor(c, n),
      LinksOf(c),
      Kernel.System(
        Kernel.Host(c.hostname, Some((c.domain, c.nameServers)), c.ipRouting, c.ipv6Routing),
        RoutesOf(c),
        Kernel.Packetfilter(None, Some(Npf.ConfOf(c)), true),
        Kernel.DhcpServer(None, true, DhcpdFor(c))))
  }

  /** Every well-shaped configuration is realised by some kernel. */
  lemma KernelForRealises(c: Config)
    requires Shaped(c)
    ensures Realises(c, KernelFor(c)) && forall n :: n in c.interfaces ==> Kernel.At(KernelFor(c), n).present
    ensures forall n :: !Kernel.At(KernelFor(c), n).foreign
  {
    var k := KernelFor(c);
    forall n ensures SlotRealises(n, Lookup(c, n), BridgeOf(c, n), Kernel.At(k, n)) {
      if n in c.interfaces { assert WellShaped(n, c.interfaces[n], c.interfaces.Keys); }
    }
  }

  // ----- names

  lemma Kinds()
    ensures InterfaceKind("ath0") == Physical && InterfaceKind("wm0") == Physical
    ensures InterfaceKind("wlan0") == Wlan && InterfaceKind("bridge0") == BridgeKind && InterfaceKind("vlan1") == VlanKind
    ensures forall n :: n in {"ath0", "ath1", "wm0", "wlan0", "bridge0", "vlan1"} ==> ValidInterfaceName(n)
  {
    hide TrimDigits, ValidInterfaceName;
    assert "ath" + ['0'] == "ath0" && "wm" + ['0'] == "wm0" && "ath" + ['1'] == "ath1";
    OneDigit("ath", '0');
    OneDigit("ath", '1');
    OneDigit("wm", '0');
    ClonedKinds();
  }

  lemma ClonedKinds()
    ensures InterfaceKind("wlan0") == Wlan && InterfaceKind("bridge0") == BridgeKind && InterfaceKind("vlan1") == VlanKind
    ensures forall n :: n in {"wlan0", "bridge0", "vlan1"} ==> ValidInterfaceName(n)
  {
    hide TrimDigits, ValidInterfaceName;
    assert "wlan" + ['0'] == "wlan0" && "bridge" + ['0'] == "bridge0" && "vlan" + ['1'] == "vlan1";
    OneDigit("wlan", '0');
    OneDigit("bridge", '0');
    OneDigit("vlan", '1');
  }

  lemma OneDigit(base: string, d: char)
    requires |base| > 1 && (forall i :: 0 <= i < |base| ==> IsLowerLetter(base[i])) && IsDigit(d)
    ensures TrimDigits(base + [d]) == base && ValidInterfaceName(base + [d])
  {
    assert (base + [d])[..|base|] == base;
  }

  const NET := Wireless(Station, "", "net", Open, "", 0, "", "", false)

  lemma NetIsValid()
    ensures ValidWireless(NET, Physical) && Ready(Some(NET), Physical)
    ensures forall d :: d in {"ath0", "ath1"} ==> ValidWireless(NET.(device := d), Wlan) && Ready(Some(NET.(device := d)), Wlan)
  {
    Kinds();
    assert ByteLength("net"[1..][1..]) == 1 && ByteLength("net") == 3;
  }

  /** The default configuration with these interfaces. */
  function With(interfaces: map<Name, Interface>): Config { NEW.(interfaces := interfaces) }

  lemma WithIsValid(interfaces: map<Name, Interface>)
    requires ValidInterfaces(interfaces, {})
    ensures Valid(With(interfaces)) && Normalized(With(interfaces))
  {
    hide ValidInterfaces;
    assert With(interfaces).acls.Keys == {};
  }

  /** What the applier asks of it, with one interface. */
  lemma OneIsUnambiguous(n: Name, i: Interface)
    requires InterfaceKind(n) == Physical && i.ipv4 == [] && i.ipv6 == [] && i.bridge.None? && i.vlan.None?
    requires ValidInterface(n, i, {n}, {}) && (i.wireless.Some? ==> Ready(i.wireless, Physical))
    ensures var c := With(map[n := i]);
      && Valid(c) && Normalized(c) && Effective(c) == c && Shaped(c) && Unambiguous(c)
      && Layered(c) && LinksOf(c) == {}
  {
    hide InterfaceKind, ValidWireless, ValidInterfaceName, Ready;
    var c := With(map[n := i]);
    WithIsValid(map[n := i]);
    assert KeptInterfaces(c) == map[n := i];
    assert Effective(c).interfaces == map[n := i];
    assert Effective(c) == c;
    ValidIsShaped(c);
    assert LinksOf(c) == {};
    assert RoutesOf(c) == {};
  }

  // ----- changes that the applier does not carry out

  /** A radio that is shut down in the very change that takes away its wireless settings. */
  lemma DroppedWireless() returns (o: Config, w: Config, k: Kernel.Kernel)
    ensures Valid(o) && Normalized(o) && Valid(w) && Normalized(w)
    ensures Fits(Effective(o), Effective(w), k) && !Gentle(Effective(o), Effective(w))
  {
    hide InterfaceKind, ValidWireless, ValidInterfaceName, Ready, Shaped, Unambiguous, Layered, Effective, Valid, Normalized;
    hide LinksOf, Realises;
    Kinds();
    NetIsValid();
    var (i, j) := (EMPTY_INTERFACE.(wireless := Some(NET)), EMPTY_INTERFACE.(shutdown := true));
    o, w := With(map["ath0" := i]), With(map["ath0" := j]);
    OneIsUnambiguous("ath0", i);
    OneIsUnambiguous("ath0", j);
    assert Drops(o.interfaces["ath0"], w.interfaces["ath0"]);
    KernelForRealises(o);
    k := KernelFor(o);
  }

  /** A virtual access point `v` in a bridge `b`. */
  function Bridged(v: Name, b: Name, w: Wireless): Config {
    With(map[v := EMPTY_INTERFACE.(wireless := Some(w)), b := EMPTY_INTERFACE.(bridge := Some([v]))])
  }

  predicate CanBridge(v: Name, b: Name, w: Wireless) {
    && InterfaceKind(v) == Wlan && InterfaceKind(b) == BridgeKind && v != b && Before(v, b)
    && ValidInterfaceName(v) && ValidInterfaceName(b) && ValidWireless(w, Wlan) && Ready(Some(w), Wlan)
  }

  lemma BridgedIsValid(v: Name, b: Name, w: Wireless)
    requires CanBridge(v, b, w)
    ensures Valid(Bridged(v, b, w)) && Normalized(Bridged(v, b, w))
  {
    hide InterfaceKind, ValidWireless, ValidInterfaceName, Ready, Before;
    WithIsValid(Bridged(v, b, w).interfaces);
  }

  lemma BridgedIsEffective(v: Name, b: Name, w: Wireless)
    requires CanBridge(v, b, w)
    ensures Effective(Bridged(v, b, w)) == Bridged(v, b, w)
  {
    hide InterfaceKind, ValidWireless, ValidInterfaceName, Ready, Before;
    var c := Bridged(v, b, w);
    assert KeptInterfaces(c) == c.interfaces;
    assert KeepMembers([v], c.interfaces.Keys) == [v];
    assert Effective(c).interfaces == c.interfaces;
  }

  lemma BridgedLinks(v: Name, b: Name, w: Wireless)
    requires v != b
    ensures LinksOf(Bridged(v, b, w)) == {(b, v)} && OneBridgeEach(Bridged(v, b, w))
  {
    var c := Bridged(v, b, w);
    forall l | l in LinksOf(c) ensures l == (b, v) {}
    assert (b, v) in LinksOf(c);
  }

  lemma BridgedIsPlain(v: Name, b: Name, w: Wireless)
    requires CanBridge(v, b, w)
    ensures var c := Bridged(v, b, w); Shaped(c) && Unambiguous(c) && Layered(c) && LinksOf(c) == {(b, v)}
  {
    hide InterfaceKind, ValidWireless, ValidInterfaceName, Ready, Before, LinksOf, Shaped, Effective, OneBridgeEach;
    var c := Bridged(v, b, w);
    assert Shaped(c) by {
      BridgedIsValid(v, b, w);
      BridgedIsEffective(v, b, w);
      ValidIsShaped(c);
    }
    BridgedLinks(v, b, w);
    assert RoutesOf(c) == {};
  }

  /** A bridged virtual access point that moves to another radio. */
  lemma RecreatedMember() returns (o: Config, w: Config, k: Kernel.Kernel)
    ensures Valid(o) && Normalized(o) && Valid(w) && Normalized(w)
    ensures Fits(Effective(o), Effective(w), k) && !Gentle(Effective(o), Effective(w))
  {
    CanBridgeThem();
    o, w, k := Moved("wlan0", "bridge0", NET.(device := "ath0"), NET.(device := "ath1"));
  }

  lemma CanBridgeThem()
    ensures forall d :: d in {"ath0", "ath1"} ==> CanBridge("wlan0", "bridge0", NET.(device := d))
  {
    Kinds();
    NetIsValid();
  }

  lemma NotGentle(o: Config, w: Config, v: Name, b: Name)
    requires Recreated(v, Lookup(o, v), Lookup(w, v)) && (b, v) in LinksOf(o) && (b, v) in LinksOf(w)
    ensures !Gentle(o, w)
  {
  }

  lemma Moved(v: Name, b: Name, x: Wireless, y: Wireless) returns (o: Config, w: Config, k: Kernel.Kernel)
    requires CanBridge(v, b, x) && CanBridge(v, b, y) && x.device != y.device
    ensures Valid(o) && Normalized(o) && Valid(w) && Normalized(w)
    ensures Fits(Effective(o), Effective(w), k) && !Gentle(Effective(o), Effective(w))
  {
    hide ValidWireless, ValidInterfaceName, Ready, Before, Effective, Valid, Normalized, LinksOf, Shaped, Unambiguous, Layered, Realises;
    hide InterfaceKind, KernelFor, Gentle;
    o, w := Bridged(v, b, x), Bridged(v, b, y);
    BridgedIsValid(v, b, x);
    BridgedIsValid(v, b, y);
    BridgedIsEffective(v, b, x);
    BridgedIsEffective(v, b, y);
    BridgedIsPlain(v, b, x);
    BridgedIsPlain(v, b, y);
    k := KernelFor(o);
    KernelForRealises(o);
    NotGentle(o, w, v, b);
  }

  /** `m` is in the bridge `b` or in the bridge `d`. */
  function Either(m: Name, b: Name, d: Name, first: bool): Config {
    With(map[m := EMPTY_INTERFACE,
             b := EMPTY_INTERFACE.(bridge := Some(if first then [m] else [])),
             d := EMPTY_INTERFACE.(bridge := Some(if first then [] else [m]))])
  }

  predicate CanMove(m: Name, b: Name, d: Name) {
    && InterfaceKind(m) == Physical && InterfaceKind(b) == InterfaceKind(d) == BridgeKind && m != b && m != d && b != d
    && ValidInterfaceName(m) && ValidInterfaceName(b) && ValidInterfaceName(d)
    && Before(b, d) && Before(m, b) && Before(m, d)
  }

  lemma EitherIsPlain(m: Name, b: Name, d: Name, first: bool)
    requires CanMove(m, b, d)
    ensures var c := Either(m, b, d, first);
      && Valid(c) && Normalized(c) && Effective(c) == c && Shaped(c) && Layered(c) && Told(c)
  {
    hide InterfaceKind, ValidInterfaceName, Before, Effective, Valid, Normalized, Shaped;
    var c := Either(m, b, d, first);
    EitherIsValid(m, b, d, first);
    EitherIsEffective(m, b, d, first);
    assert Shaped(c) by { M.ValidShapes(c); }
  }

  lemma EitherIsValid(m: Name, b: Name, d: Name, first: bool)
    requires CanMove(m, b, d)
    ensures Valid(Either(m, b, d, first)) && Normalized(Either(m, b, d, first))
  {
    hide InterfaceKind, ValidInterfaceName, Before;
    WithIsValid(Either(m, b, d, first).interfaces);
  }

  lemma EitherIsEffective(m: Name, b: Name, d: Name, first: bool)
    requires CanMove(m, b, d)
    ensures Effective(Either(m, b, d, first)) == Either(m, b, d, first)
  {
    hide InterfaceKind, ValidInterfaceName, Before;
    var c := Either(m, b, d, first);
    assert KeptInterfaces(c) == c.interfaces;
    assert KeepMembers([m], c.interfaces.Keys) == [m] && KeepMembers([], c.interfaces.Keys) == [];
    assert Effective(c).interfaces == c.interfaces;
  }

  lemma EitherLinks(m: Name, b: Name, d: Name, first: bool)
    requires m != b && m != d && b != d
    ensures var c := Either(m, b, d, first); LinksOf(c) == {(if first then b else d, m)} && Unambiguous(c)
  {
    var c := Either(m, b, d, first);
    forall l | l in LinksOf(c) ensures l == (if first then b else d, m) {}
    assert (if first then b else d, m) in LinksOf(c);
    assert RoutesOf(c) == {};
  }

  lemma MoveIsGentle(m: Name, b: Name, d: Name)
    requires CanMove(m, b, d)
    ensures var (o, w) := (Either(m, b, d, false), Either(m, b, d, true)); Gentle(o, w) && MustClash(o, w, LinksOf(o))
  {
    hide InterfaceKind, ValidInterfaceName;
    EitherLinks(m, b, d, false);
    EitherLinks(m, b, d, true);
    var (o, w) := (Either(m, b, d, false), Either(m, b, d, true));
    NotBoth(b, d);
    assert Conflict(o, w, LinksOf(o), b, d, m);
    assert Must(o, w, LinksOf(o), b, d, m);
  }

  /** A member that moves to a bridge which is configured before the one that it leaves. */
  lemma MovedMember(m: Name, b: Name, d: Name)
    requires CanMove(m, b, d)
    ensures var (o, w) := (Either(m, b, d, false), Either(m, b, d, true));
      && Valid(o) && Normalized(o) && Effective(o) == o && Valid(w) && Normalized(w) && Effective(w) == w
      && Fits(o, w, KernelFor(o)) && Gentle(o, w) && Told(w) && MustClash(o, w, LinksOf(o))
  {
    hide InterfaceKind, ValidInterfaceName, Before, Valid, Normalized, Effective, Shaped, Layered, Unambiguous, Gentle, MustClash;
    hide Realises, KernelFor, LinksOf, Told;
    var o := Either(m, b, d, false);
    EitherIsPlain(m, b, d, false);
    EitherIsPlain(m, b, d, true);
    EitherLinks(m, b, d, false);
    EitherLinks(m, b, d, true);
    MoveIsGentle(m, b, d);
    KernelForRealises(o);
  }

  lemma CanMoveThem()
    ensures CanMove("wm0", "bridge0", "bridge1")
  {
    hide TrimDigits, ValidInterfaceName;
    Kinds();
    assert "bridge" + ['0'] == "bridge0" && "bridge" + ['1'] == "bridge1";
    OneDigit("bridge", '0');
    OneDigit("bridge", '1');
    assert "bridge0"[6..] == ['0'] && "bridge1"[6..] == ['1'];
  }

  /** Such a change is refused by a kernel that obeys, and is not carried out. */
  method MoveRefused(m: Name, b: Name, d: Name, s: Step) returns (failed: bool)
    requires CanMove(m, b, d) && s.Obeying() && s.k == KernelFor(Either(m, b, d, false))
    modifies s
    ensures failed && !M.Describes(Either(m, b, d, true), s.k)
  {
    hide Fits, Effective, Valid, Normalized, Gentle, Told, LinksOf, Realises, MustClash, MayClash, CanMove, KernelFor;
    MovedMember(m, b, d);
    failed := s.Apply(Some(Either(m, b, d, false)), Either(m, b, d, true), false);
  }

  // ----- a boot that leaves something behind

  const NO_SYSTEM := Kernel.System(Kernel.Host("", None, false, false), {}, Kernel.Packetfilter(None, None, false),
                                   Kernel.DhcpServer(None, false, None))

  /** A machine with one interface that has just started. */
  function Fresh(n: Name): Kernel.Kernel {
    Kernel.Kernel(map[n := Kernel.ABSENT.(present := true)], {}, NO_SYSTEM)
  }

  /** That interface with one address. */
  function Addressed(n: Name, p: Prefix): Config { With(map[n := EMPTY_INTERFACE.(ipv4 := [p])]) }

  predicate IsHardware(n: Name) { InterfaceKind(n) == Physical && ValidInterfaceName(n) }

  lemma NewIsPlain()
    ensures Valid(NEW) && Normalized(NEW) && Effective(NEW) == NEW && Shaped(NEW) && Layered(NEW) && Unambiguous(NEW)
    ensures NEW.interfaces == map[] && LinksOf(NEW) == {}
  {
    WithIsValid(map[]);
    assert NEW.(interfaces := map[]) == NEW;
    assert KeptInterfaces(NEW) == map[];
    assert Effective(NEW).interfaces == map[];
    assert LinksOf(NEW) == {};
    assert RoutesOf(NEW) == {};
  }

  lemma AddressedIsPlain(n: Name, p: Prefix)
    requires IsHardware(n) && p.addr.family == V4
    ensures var c := Addressed(n, p);
      && Valid(c) && Normalized(c) && Effective(c) == c && Shaped(c) && Layered(c) && Unambiguous(c)
      && c.interfaces.Keys == {n} && LinksOf(c) == {}
  {
    hide InterfaceKind, ValidInterfaceName, Valid, Normalized, Effective, Shaped;
    var c := Addressed(n, p);
    AddressedIsValid(n, p);
    AddressedIsEffective(n, p);
    assert Shaped(c) by { M.ValidShapes(c); }
    assert LinksOf(c) == {};
    assert RoutesOf(c) == {};
    assert ToSet([p]) == {p};
  }

  lemma AddressedIsValid(n: Name, p: Prefix)
    requires IsHardware(n) && p.addr.family == V4
    ensures Valid(Addressed(n, p)) && Normalized(Addressed(n, p))
  {
    hide InterfaceKind, ValidInterfaceName;
    WithIsValid(Addressed(n, p).interfaces);
  }

  lemma AddressedIsEffective(n: Name, p: Prefix)
    requires IsHardware(n)
    ensures Effective(Addressed(n, p)) == Addressed(n, p)
  {
    hide InterfaceKind, ValidInterfaceName;
    var c := Addressed(n, p);
    assert KeptInterfaces(c) == c.interfaces;
    assert Effective(c).interfaces == c.interfaces;
  }

  /** The default configuration can be booted whatever is there. */
  lemma NewBootsThrough(v: M.View)
    requires v.startup == Some(NEW) && Sound(v.k)
    ensures M.BootsThrough(v) && M.BootIsExact(v)
  {
    NewIsPlain();
    M.EmptyIsEmpty();
    hide Valid, Effective, LinksOf, Layered, Unambiguous;
  }

  lemma FreshBootsClean(n: Name)
    requires IsHardware(n)
    ensures Sound(Fresh(n)) && M.NothingElse(NEW, Fresh(n))
  {
  }

  lemma AddressGoesThrough(n: Name, p: Prefix, v: M.View)
    requires IsHardware(n) && p.addr.family == V4 && v.running == Some(NEW) && M.Describes(NEW, v.k)
    requires Kernel.At(v.k, n) == Kernel.At(Fresh(n), n)
    ensures M.GoesThrough(NEW, Addressed(n, p), v) && Sound(v.k)
  {
    NewIsPlain();
    AddressedIsPlain(n, p);
    hide Valid, Effective, LinksOf, Layered, Unambiguous, Realises, InterfaceKind, ValidInterfaceName, MayClash, Sound, Shaped, Gentle, NEW;
    RealisedIsSound(NEW, v.k);
    NothingClashes(NEW, Addressed(n, p));
    GentleFromNew(Addressed(n, p));
  }

  lemma GentleFromNew(c: Config)
    ensures Gentle(NEW, c) && Gentle(c, NEW)
  {
  }

  lemma NothingClashes(o: Config, w: Config)
    requires LinksOf(o) == {}
    ensures !MayClash(o, w, LinksOf(o))
  {
    hide LinksOf;
  }

  lemma AddressStays(n: Name, p: Prefix, k: Kernel.Kernel)
    requires IsHardware(n) && p.addr.family == V4 && M.Describes(Addressed(n, p), k)
    ensures Sound(k) && !M.NothingElse(NEW, k)
  {
    AddressedIsPlain(n, p);
    hide Valid, Effective, Layered, Unambiguous, InterfaceKind, ValidInterfaceName, Sound, LinksOf;
    var c := Addressed(n, p);
    RealisedIsSound(c, k);
    assert SlotRealises(n, Lookup(c, n), BridgeOf(c, n), Kernel.At(k, n));
    assert p in AddrsOf(Lookup(c, n));
    assert !M.NoMoreAt(NEW, n, k);
  }

  lemma BootedNew(v: M.View, t: M.View)
    requires M.Stepped(M.Op.Boot, M.Done, v, t) && v.startup == Some(NEW)
    ensures t.running == t.startup == Some(NEW) && (M.InStep(t) <==> M.Describes(NEW, t.k))
  {
    hide Valid, M.Describes, M.BootsClean, Between, Sound, Effective;
    NewIsPlain();
  }

  lemma ReplacedNew(c: Config, outcome: M.Outcome, v: M.View, t: M.View)
    requires M.Stepped(M.Op.Replace(c), outcome, v, t) && v.running == Some(NEW) && v.lies == t.lies
    requires Valid(c) && Normalized(c) && c != NEW && M.GoesThrough(NEW, c, v) && outcome in {M.Done, M.Unchanged}
    ensures outcome.Done? && t.running == Some(c) && t.startup == v.startup && M.InStep(t) && M.Describes(c, t.k)
  {
    hide Valid, Normalized, M.Describes, Effective, Layered, HardwarePresent, MayClash, M.Undoable;
    NormalizeFixed(c);
  }

  /** Boot, configure an address, boot again: every operation reports success, and the record does not
      describe the kernel, which still has the address. */
  method BootTwice(n: Name, p: Prefix) returns (ghost views: seq<M.View>)
    requires IsHardware(n) && p.addr.family == V4
    ensures M.Run([M.Op.Boot, M.Op.Replace(Addressed(n, p)), M.Op.Boot], [M.Done, M.Done, M.Done], views)
    ensures M.InStep(views[1]) && M.InStep(views[2]) && !M.InStep(views[3]) && forall v :: v in views ==> v.lies == 0
  {
    hide Valid, Normalized, Normalize, Effective, Sound, M.NothingElse, M.BootsThrough, M.BootIsExact, M.GoesThrough, M.Describes;
    hide M.Stepped, M.InStep, IsHardware, Addressed, NEW, Shaped, Layered, Unambiguous, LinksOf, Fresh;
    var step := new Step(Fresh(n), (i: nat) => Obey);
    var m := new M.Manager(step, Some(NEW), (i: nat) => true);
    ghost var v0 := m.Now();
    NewIsPlain();
    AddressedIsPlain(n, p);
    FreshBootsClean(n);
    NewBootsThrough(v0);
    var outcome := m.Boot();
    ghost var v1 := m.Now();
    BootedNew(v0, v1);
    AddressGoesThrough(n, p, v1);
    outcome := m.Replace(Addressed(n, p));
    ghost var v2 := m.Now();
    NormalizeFixed(Addressed(n, p));
    ReplacedNew(Addressed(n, p), outcome, v1, v2);
    AddressStays(n, p, v2.k);
    NewBootsThrough(v2);
    outcome := m.Boot();
    ghost var v3 := m.Now();
    BootedNew(v2, v3);
    views := [v0, v1, v2, v3];
  }

  // ----- configurations that their text does not recreate

  lemma {:induction false} EveryPartReplays(c: Config, done: set<Slot>, slots: seq<Slot>, s: Slot) returns (before: set<Slot>)
    requires (forall r :: r in slots ==> Has(c, r)) && s in slots && AllReplay(c, done, slots)
    ensures SlotReplays(c, before, s)
    decreases |slots|
  {
    hide SlotReplays;
    if s == slots[0] {
      before := done;
    } else {
      before := EveryPartReplays(c, done + {slots[0]}, slots[1..], s);
    }
  }

  /** The text of a VLAN with a description is always refused: the description comes before the
      encapsulation without which the entry is not valid. */
  lemma DescribedVlan(c: Config, n: Name, slots: seq<Slot>)
    requires Valid(c) && Normalized(c) && IsOrder(c, slots)
    requires n in c.interfaces && InterfaceKind(n) == VlanKind && c.interfaces[n].description != ""
    ensures ExecAll(State(NEW, Global), Text(c, slots) + [End]) != Some(State(c, Privileged))
  {
    hide Valid, Normalized, InOrder, Text, ExecAll, InterfaceKind;
    ReplayExact(c, slots);
    if AllReplay(c, {}, slots) {
      var s := InterfaceSlot(n);
      assert Has(c, s);
      var before := EveryPartReplays(c, {}, slots, s);
      DescriptionBlocks(n, c.interfaces[n], DoneNames(before) + {n}, Taken(Part(c, before), n));
    }
  }

  lemma DescriptionBlocks(n: Name, i: Interface, names: set<Name>, taken: set<Name>)
    requires InterfaceKind(n) == VlanKind && i.description != ""
    ensures !InterfaceReplays(n, i, names, taken)
  {
    assert !FieldReplays(n, i, 0, names, taken);
  }

  /** There are such configurations. */
  lemma DescribedVlanExists() returns (c: Config)
    ensures Valid(c) && Normalized(c)
    ensures forall slots :: IsOrder(c, slots) ==> ExecAll(State(NEW, Global), Text(c, slots) + [End]) != Some(State(c, Privileged))
  {
    hide InOrder, Has, Text, ExecAll, Valid, Normalized, InterfaceKind, ValidInterfaceName;
    Kinds();
    var i := EMPTY_INTERFACE.(description := "uplink", vlan := Some(Vlan(1, "wm0")));
    c := With(map["wm0" := EMPTY_INTERFACE, "vlan1" := i]);
    VlanIsValid("wm0", "vlan1", i);
    forall slots | IsOrder(c, slots)
      ensures ExecAll(State(NEW, Global), Text(c, slots) + [End]) != Some(State(c, Privileged))
    {
      DescribedVlan(c, "vlan1", slots);
    }
  }

  lemma VlanIsValid(parent: Name, n: Name, i: Interface)
    requires InterfaceKind(parent) == Physical && InterfaceKind(n) == VlanKind && parent != n
    requires ValidInterfaceName(parent) && ValidInterface(n, i, {parent, n}, {})
    ensures var c := With(map[parent := EMPTY_INTERFACE, n := i]); Valid(c) && Normalized(c)
  {
    hide InterfaceKind, ValidInterfaceName;
    var m := map[parent := EMPTY_INTERFACE, n := i];
    assert m.Keys == {parent, n};
    WithIsValid(m);
  }
}
