/** What it means for the kernel to realise a configuration, and for it to be
    somewhere between two of them. All configurations here are effective ones. Both
    notions are put together from one predicate for each interface, one for the links of
    the bridges, and one for each part of the rest of the system. */
module Agreement {
  import opened Basics
  import opened Addresses
  import opened Config
  import opened Services
  import opened Kernel
  import opened EffectiveConfig
  import Npf

  // ----- what one interface's configuration asks of its slot

  function Lookup(c: Config, n: Name): Option<Interface> {
    if n in c.interfaces then Some(c.interfaces[n]) else None
  }

  function AddrsOf(o: Option<Interface>): set<Prefix> {
    if o.Some? then ToSet(o.value.ipv4) + ToSet(o.value.ipv6) else {}
  }

  predicate UpIn(o: Option<Interface>) { o.Some? && !o.value.shutdown }

  predicate ApIn(o: Option<Interface>) {
    o.Some? && o.value.wireless.Some? && o.value.wireless.value.mode == HostAP
  }

  function VapIn(o: Option<Interface>): Option<VapId> {
    if o.Some? && o.value.wireless.Some?
    then Some(VapId(o.value.wireless.value.device, o.value.wireless.value.mode)) else None
  }

  function VlanIn(o: Option<Interface>): Option<Vlan> { if o.Some? then o.value.vlan else None }

  /** dhcpcd runs exactly on interfaces that are configured, use DHCP and are not shut down. */
  predicate DhcpIn(o: Option<Interface>) { UpIn(o) && o.value.dhcp }

  /** The wireless job of an interface: its settings and the bridge it belongs to. */
  function JobIn(o: Option<Interface>, bridge: Name): Option<(Wireless, Name)> {
    if UpIn(o) && o.value.wireless.Some? then Some((o.value.wireless.value, bridge)) else None
  }

  predicate WirelessIn(o: Option<Interface>) { o.Some? && o.value.wireless.Some? }

  function HostapdFor(n: Name, job: Option<(Wireless, Name)>): Option<WifiConf> {
    if job.Some? && job.value.0.mode == HostAP then Some(HostapdConf(n, job.value.0, job.value.1)) else None
  }

  function WpaFor(job: Option<(Wireless, Name)>): Option<WifiConf> {
    if job.Some? && job.value.0.mode != HostAP then Some(WpaConf(job.value.0)) else None
  }

  /** A virtual access point whose radio or mode changed has to be created anew. */
  predicate Recreated(n: Name, o: Option<Interface>, w: Option<Interface>) {
    InterfaceKind(n) == Wlan && o.Some? && w.Some? && VapIn(o) != VapIn(w)
  }

  /** Configured on both sides without being recreated. */
  predicate Stays(n: Name, o: Option<Interface>, w: Option<Interface>) {
    o.Some? && w.Some? && !Recreated(n, o, w)
  }

  /** An interface that does not exist carries nothing. */
  predicate SlotWf(s: Slot) {
    s.present || (!s.port.up && s.addrs == {} && s.port.vlan.None? && !s.port.ap && s.vap.None?)
  }

  // ----- one slot realises one interface

  /** A foreign interface is not configured, and may be in any state. */
  ghost predicate SlotRealises(n: Name, w: Option<Interface>, bridge: Name, s: Slot) {
    if s.foreign then w.None? else
    && SlotWf(s)
    && (w.Some? ==> s.present)
    && (w.None? && IsCloned(n) ==> !s.present)
    && s.port.up == UpIn(w)
    && s.addrs == AddrsOf(w)
    && s.port.vlan == VlanIn(w)
    && (if InterfaceKind(n) == Physical then s.port.ap == ApIn(w) else !s.port.ap)
    && (InterfaceKind(n) == Wlan ==> s.vap == VapIn(w))
    && (w.Some? && w.value.mtu != 0 ==> s.port.mtu == w.value.mtu)
    && (w.Some? && w.value.media != "" ==> s.port.media == w.value.media)
    && s.dhcpcd == DhcpIn(w)
    && s.wifi.hostapd == HostapdFor(n, JobIn(w, bridge))
    && s.wifi.wpa == WpaFor(JobIn(w, bridge))
  }

  // ----- one slot lies between two states of one interface

  predicate AddrsBetween(stays: bool, o: set<Prefix>, w: set<Prefix>, addrs: set<Prefix>) {
    addrs <= o + w && (stays ==> o * w <= addrs)
  }

  /** Between two states, everything is as in one of them, and what they agree
      on is untouched unless the interface is created or removed on the way. */
  ghost predicate SlotBetween(n: Name, o: Option<Interface>, w: Option<Interface>, ob: Name, wb: Name, s: Slot) {
    var stays := Stays(n, o, w);
    var steady := stays || (o.None? && w.None?);
    if s.foreign then o.None? && w.None? else
    && SlotWf(s)
    && (stays ==> s.present)
    && (o.None? && w.None? && IsCloned(n) ==> !s.present)
    && (steady && UpIn(o) == UpIn(w) ==> s.port.up == UpIn(w))
    && AddrsBetween(stays, AddrsOf(o), AddrsOf(w), s.addrs)
    && (if InterfaceKind(n) == VlanKind then steady && VlanIn(o) == VlanIn(w) ==> s.port.vlan == VlanIn(w) else s.port.vlan.None?)
    && (if InterfaceKind(n) == Physical then ApIn(o) == ApIn(w) ==> s.port.ap == ApIn(w) else !s.port.ap)
    && (InterfaceKind(n) == Wlan && s.present ==> s.vap.Some? && (s.vap == VapIn(o) || s.vap == VapIn(w)))
    && (stays && o.value.mtu == w.value.mtu != 0 ==> s.port.mtu == w.value.mtu)
    && (stays && o.value.media == w.value.media != "" ==> s.port.media == w.value.media)
    && DhcpBetween(stays, DhcpIn(o), DhcpIn(w), s.dhcpcd)
    && JobBetween(n, stays, WirelessIn(o) || WirelessIn(w), JobIn(o, ob), JobIn(w, wb), s)
  }

  predicate DhcpBetween(stays: bool, o: bool, w: bool, running: bool) {
    (running ==> o || w) && (stays && o && w ==> running)
  }

  /** The daemons of an interface that comes or goes are stopped if either side has wireless settings. */
  predicate JobBetween(n: Name, stays: bool, stopped: bool, o: Option<(Wireless, Name)>, w: Option<(Wireless, Name)>, s: Slot) {
    o == w && (stays || (w.None? && !stopped)) ==> s.wifi.hostapd == HostapdFor(n, w) && s.wifi.wpa == WpaFor(w)
  }

  // ----- bridges

  /** The (bridge, member) pairs of a configuration. */
  function LinksOf(c: Config): set<(Name, Name)> {
    set b, m | b in c.interfaces && c.interfaces[b].bridge.Some? && m in c.interfaces[b].bridge.value :: (b, m)
  }

  /** Each interface is in at most one bridge. */
  ghost predicate OneBridgeEach(c: Config) {
    forall b, d, m :: (b, m) in LinksOf(c) && (d, m) in LinksOf(c) ==> b == d
  }

  ghost function BridgeOf(c: Config, n: Name): Name {
    if b :| (b, n) in LinksOf(c) then b else ""
  }

  // ----- whole configurations

  function RoutesOf(c: Config): set<Route> { ToSet(c.routes) }

  ghost function DhcpdFor(c: Config): Option<(DhcpdConf, set<Name>)> {
    if ServingInterfaces(c) == {} then None else Some((SubnetsOf(c), ServingInterfaces(c)))
  }

  ghost predicate SameDhcpd(o: Config, w: Config) {
    SubnetsOf(o) == SubnetsOf(w) && ServingInterfaces(o) == ServingInterfaces(w)
  }

  /** A host name and name servers are asked for only where they are set. */
  predicate HostRealises(c: Config, h: Host) {
    && (c.hostname != "" ==> h.hostname == c.hostname)
    && (c.nameServers != [] ==> h.resolv == Some((c.domain, c.nameServers)))
    && h.forward4 == c.ipRouting && h.forward6 == c.ipv6Routing
  }

  ghost predicate NpfRealises(c: Config, f: Packetfilter) { f.ruleset == Some(Npf.ConfOf(c)) && f.on }

  ghost predicate DhcpdRealises(c: Config, d: DhcpServer) { d.running == DhcpdFor(c) }

  /** The interfaces and bridges are as configured. */
  ghost predicate InterfacesRealise(c: Config, k: Kernel) {
    (forall n :: SlotRealises(n, Lookup(c, n), BridgeOf(c, n), At(k, n))) && k.links == LinksOf(c)
  }

  /** The kernel is in the state the configuration asks for. A host name, name
      servers, an MTU and media are asked for only where they are set. */
  ghost predicate Realises(c: Config, k: Kernel) {
    && InterfacesRealise(c, k)
    && HostRealises(c, k.sys.host)
    && k.sys.routes == RoutesOf(c)
    && NpfRealises(c, k.sys.npf)
    && DhcpdRealises(c, k.sys.dhcpd)
  }

  /** What the phases of the applier bring about, one each. */
  datatype Phase = Hosting | Linking | Routing | Filtering | Leasing

  ghost predicate PhaseRealises(c: Config, phase: Phase, k: Kernel) {
    match phase
    case Hosting => HostRealises(c, k.sys.host)
    case Linking => InterfacesRealise(c, k)
    case Routing => k.sys.routes == RoutesOf(c)
    case Filtering => NpfRealises(c, k.sys.npf)
    case Leasing => DhcpdRealises(c, k.sys.dhcpd)
  }

  ghost predicate AllBut(c: Config, left: set<Phase>, k: Kernel) { forall phase :: phase in left || PhaseRealises(c, phase, k) }

  /** At most `n` phases are left unfinished. */
  ghost predicate UnfinishedAtMost(c: Config, n: nat, k: Kernel) { exists left :: AllBut(c, left, k) && |left| <= n }

  /** Foreign interfaces are not configured. */
  ghost predicate Ours(c: Config, k: Kernel) { forall n :: n in c.interfaces ==> !At(k, n).foreign }

  ghost predicate SlotsBetween(o: Config, w: Config, k: Kernel) {
    forall n :: SlotBetween(n, Lookup(o, n), Lookup(w, n), BridgeOf(o, n), BridgeOf(w, n), At(k, n))
  }

  predicate LinksBetween(o: set<(Name, Name)>, w: set<(Name, Name)>, links: set<(Name, Name)>) {
    o * w <= links <= o + w
  }

  /** Only bridges that exist have members. */
  ghost predicate BridgesPresent(k: Kernel) {
    forall l :: l in k.links ==> At(k, l.0).present
  }

  predicate RoutesBetween(o: set<Route>, w: set<Route>, routes: set<Route>) { o * w <= routes <= o + w }

  predicate HostBetween(o: Config, w: Config, boot: bool, h: Host) {
    && (o.hostname == w.hostname != "" ==> h.hostname == w.hostname)
    && (o.domain == w.domain && o.nameServers == w.nameServers != [] ==> h.resolv == Some((w.domain, w.nameServers)))
    && (!boot && o.ipRouting == w.ipRouting ==> h.forward4 == w.ipRouting)
    && (!boot && o.ipv6Routing == w.ipv6Routing ==> h.forward6 == w.ipv6Routing)
  }

  ghost predicate NpfBetween(o: Config, w: Config, boot: bool, f: Packetfilter) {
    !boot && Npf.ConfOf(o) == Npf.ConfOf(w) ==> NpfRealises(w, f)
  }

  ghost predicate DhcpdBetween(o: Config, w: Config, boot: bool, d: DhcpServer) {
    !boot && SameDhcpd(o, w) ==> DhcpdRealises(w, d)
  }

  ghost predicate InterfacesBetween(o: Config, w: Config, k: Kernel) {
    SlotsBetween(o, w, k) && LinksBetween(LinksOf(o), LinksOf(w), k.links) && BridgesPresent(k)
  }

  /** With `boot` set the applier assumes nothing about forwarding, the rule set and dhcpd. */
  ghost predicate Between(o: Config, w: Config, boot: bool, k: Kernel) {
    && InterfacesBetween(o, w, k)
    && HostBetween(o, w, boot, k.sys.host)
    && RoutesBetween(RoutesOf(o), RoutesOf(w), k.sys.routes)
    && NpfBetween(o, w, boot, k.sys.npf)
    && DhcpdBetween(o, w, boot, k.sys.dhcpd)
  }

  // ----- side conditions

  predicate UniqueHosts(addrs: set<Prefix>) {
    forall p, q :: p in addrs && q in addrs && p.addr == q.addr ==> p == q
  }

  predicate UniqueDestinations(routes: set<Route>) {
    forall r, t :: r in routes && t in routes && r.prefix == t.prefix ==> r == t
  }

  /** Addresses and routes are removed by host and by destination alone, and a
      member is looked up in any bridge that lists it. */
  ghost predicate Unambiguous(c: Config) {
    && (forall n :: n in c.interfaces ==> UniqueHosts(AddrsOf(Some(c.interfaces[n]))))
    && UniqueDestinations(RoutesOf(c))
    && OneBridgeEach(c)
  }

  /** A change from `o` to `w` that the applier carries out completely: no
      recreated virtual access point sits in a bridge it does not leave, and no
      interface loses its wireless settings in the very change that shuts it down. */
  ghost predicate Gentle(o: Config, w: Config) {
    && (forall n, b :: Recreated(n, Lookup(o, n), Lookup(w, n)) ==> !((b, n) in LinksOf(o) && (b, n) in LinksOf(w)))
    && (forall n :: n in o.interfaces && n in w.interfaces ==> !Drops(o.interfaces[n], w.interfaces[n]))
  }

  predicate Drops(o: Interface, w: Interface) {
    !o.shutdown && w.shutdown && o.wireless.Some? && w.wireless.None?
  }

  /** Everything the applier needs to know about a pair of effective configurations. */
  ghost predicate Appliable(o: Config, w: Config) {
    Shaped(o) && Shaped(w) && Unambiguous(o) && Unambiguous(w) && Gentle(o, w)
  }

  // ----- relations between the notions

  /** "Between" does not care which side the system is moving to. */
  lemma BetweenSymmetric(o: Config, w: Config, boot: bool, k: Kernel)
    requires Between(o, w, boot, k)
    ensures Between(w, o, boot, k)
  {
    forall n
      ensures SlotBetween(n, Lookup(w, n), Lookup(o, n), BridgeOf(w, n), BridgeOf(o, n), At(k, n))
    {
      assert SlotBetween(n, Lookup(o, n), Lookup(w, n), BridgeOf(o, n), BridgeOf(w, n), At(k, n));
    }
  }

  /** A kernel that realises one side lies between that side and any other that configures no
      foreign interface. */
  lemma RealisedIsBetween(o: Config, w: Config, boot: bool, k: Kernel)
    requires Realises(o, k) && Shaped(o) && Shaped(w) && Ours(w, k)
    ensures Between(o, w, boot, k)
  {
    forall n
      ensures SlotBetween(n, Lookup(o, n), Lookup(w, n), BridgeOf(o, n), BridgeOf(w, n), At(k, n))
    {
      assert SlotRealises(n, Lookup(o, n), BridgeOf(o, n), At(k, n));
      if n in o.interfaces { assert WellShaped(n, o.interfaces[n], o.interfaces.Keys); }
      if n in w.interfaces { assert WellShaped(n, w.interfaces[n], w.interfaces.Keys); }
    }
    forall l | l in k.links ensures At(k, l.0).present {
      assert SlotRealises(l.0, Lookup(o, l.0), BridgeOf(o, l.0), At(k, l.0));
    }
  }

  /** Between a configuration and itself there is only its realisation. */
  lemma BetweenSelf(c: Config, k: Kernel)
    requires Shaped(c)
    ensures Between(c, c, false, k) <==> Realises(c, k)
  {
    if Between(c, c, false, k) {
      forall n
        ensures SlotRealises(n, Lookup(c, n), BridgeOf(c, n), At(k, n))
      {
        assert SlotBetween(n, Lookup(c, n), Lookup(c, n), BridgeOf(c, n), BridgeOf(c, n), At(k, n));
        if n in c.interfaces { assert WellShaped(n, c.interfaces[n], c.interfaces.Keys); }
      }
    }
    if Realises(c, k) {
      forall n | n in c.interfaces ensures !At(k, n).foreign {
        assert SlotRealises(n, Lookup(c, n), BridgeOf(c, n), At(k, n));
      }
      RealisedIsBetween(c, c, false, k);
    }
  }

  /** What the state of a foreign interface is does not matter. */
  lemma ForeignIsFree(c: Config, k: Kernel, n: Name, s: Slot)
    requires Realises(c, k) && At(k, n).foreign && s.foreign
    ensures Realises(c, k.(slots := k.slots[n := s]))
  {
    var t := k.(slots := k.slots[n := s]);
    forall m ensures SlotRealises(m, Lookup(c, m), BridgeOf(c, m), At(t, m)) {
      assert SlotRealises(m, Lookup(c, m), BridgeOf(c, m), At(k, m));
    }
  }

  // ----- steps of one slot

  /** Each daemon runs on as it was, or not at all. */
  predicate Stopping(a: Wifi, b: Wifi) {
    (b.hostapd.None? || b.hostapd == a.hostapd) && (b.wpa.None? || b.wpa == a.wpa)
  }

  /** `t` is `s` with some of its state gone. */
  ghost predicate Shrunk(s: Slot, t: Slot) {
    && SlotWf(t) && t.foreign == s.foreign
    && (t.present ==> s.present && t.vap == s.vap)
    && t.addrs <= s.addrs && (t.dhcpcd ==> s.dhcpcd) && Stopping(s.wifi, t.wifi)
    && (t.port.up ==> s.port.up) && (t.port.ap ==> s.port.ap)
    && (t.port.vlan.None? || t.port.vlan == s.port.vlan)
  }

  /** Removing an interface that goes away, or is made anew, stays between the two sides. */
  lemma ShrunkBetween(n: Name, o: Option<Interface>, w: Option<Interface>, ob: Name, wb: Name, s: Slot, t: Slot)
    requires SlotBetween(n, o, w, ob, wb, s) && Shrunk(s, t) && o.Some? && !Stays(n, o, w)
    requires w.Some? ==> !ApIn(w) || InterfaceKind(n) != Physical
    ensures SlotBetween(n, o, w, ob, wb, t)
  {
  }

  /** So does creating it. */
  lemma CreatedBetween(n: Name, o: Option<Interface>, w: Option<Interface>, ob: Name, wb: Name, s: Slot)
    requires SlotBetween(n, o, w, ob, wb, s) && w.Some? && !Stays(n, o, w) && IsCloned(n) && !s.present
    requires InterfaceKind(n) == Wlan ==> VapIn(w).Some?
    ensures SlotBetween(n, o, w, ob, wb, s.(present := true, vap := if InterfaceKind(n) == Wlan then VapIn(w) else None))
  {
  }

  /** Once the old virtual access point is gone with its daemons, what is left is
      where a new interface starts from. */
  lemma GoneIsFresh(n: Name, o: Interface, w: Interface, ob: Name, wb: Name, s: Slot, t: Slot)
    requires SlotBetween(n, Some(o), Some(w), ob, wb, s) && Shrunk(s, t) && !t.present
    requires InterfaceKind(n) == Wlan && t.wifi.hostapd.None? && t.wifi.wpa.None? && (o.dhcp ==> !t.dhcpcd)
    ensures SlotBetween(n, None, Some(w), ob, wb, t)
  {
  }

  /** Every link of a well-shaped configuration joins a bridge and another configured interface. */
  lemma LinkShape(c: Config, b: Name, m: Name)
    requires Shaped(c) && (b, m) in LinksOf(c)
    ensures b in c.interfaces && m in c.interfaces && InterfaceKind(b) == BridgeKind && m != b
  {
    assert WellShaped(b, c.interfaces[b], c.interfaces.Keys);
  }

  /** Removing or recreating `n` keeps the links on which both sides agree. */
  lemma LinksWithoutBetween(o: Config, w: Config, n: Name, links0: set<(Name, Name)>, links1: set<(Name, Name)>)
    requires Shaped(o) && Shaped(w) && LinksBetween(LinksOf(o), LinksOf(w), links0)
    requires Without(links0, n) <= links1 <= links0
    requires n !in w.interfaces || (InterfaceKind(n) != BridgeKind &&
      forall b :: !((b, n) in LinksOf(o) && (b, n) in LinksOf(w)))
    ensures LinksBetween(LinksOf(o), LinksOf(w), links1)
  {
    forall l | l in LinksOf(o) * LinksOf(w) ensures l in links1 {
      assert l == (l.0, l.1);
      LinkShape(w, l.0, l.1);
    }
  }

  /** What configuring the bridge `n` does to the links keeps them between the two sides, and
      makes the members of `n` those of the new side. */
  lemma BridgeArrives(o: Config, w: Config, n: Name, drop: set<(Name, Name)>, add: set<(Name, Name)>,
                      links0: set<(Name, Name)>, links1: set<(Name, Name)>)
    requires LinksBetween(LinksOf(o), LinksOf(w), links0) && links0 - drop <= links1 <= links0 + add
    requires forall l :: l in drop <==> l in LinksOf(o) && l !in LinksOf(w) && l.0 == n
    requires forall l :: l in add <==> l in LinksOf(w) && l !in LinksOf(o) && l.0 == n
    ensures LinksBetween(LinksOf(o), LinksOf(w), links1)
    ensures forall l: (Name, Name) :: l.0 != n ==> (l in links1 <==> l in links0)
    ensures links1 == links0 - drop + add ==> forall l: (Name, Name) :: l.0 == n ==> (l in links1 <==> l in LinksOf(w))
  {
  }

  /** A step that changes one slot only has to answer for that slot. */
  lemma OneSlotBetween(o: Config, w: Config, k0: Kernel, k1: Kernel, n: Name)
    requires SlotsBetween(o, w, k0) && forall m :: m != n ==> At(k1, m) == At(k0, m)
    requires SlotBetween(n, Lookup(o, n), Lookup(w, n), BridgeOf(o, n), BridgeOf(w, n), At(k1, n))
    ensures SlotsBetween(o, w, k1)
  {
    forall m ensures SlotBetween(m, Lookup(o, m), Lookup(w, m), BridgeOf(o, m), BridgeOf(w, m), At(k1, m)) {
      if m != n {
        assert SlotBetween(m, Lookup(o, m), Lookup(w, m), BridgeOf(o, m), BridgeOf(w, m), At(k0, m));
      }
    }
  }

  /** The slot of an interface that is taken away. */
  lemma RemovedSlot(o: Config, w: Config, n: Name, k0: Kernel, t: Slot)
    requires Shaped(o) && SlotsBetween(o, w, k0) && n in o.interfaces && n !in w.interfaces
    requires Shrunk(At(k0, n), t)
    ensures SlotBetween(n, Lookup(o, n), Lookup(w, n), BridgeOf(o, n), BridgeOf(w, n), t)
    ensures At(k0, n).addrs <= AddrsOf(Some(o.interfaces[n]))
    ensures var oi := o.interfaces[n];
      && (oi.wireless.Some? ==> t.wifi.hostapd.None? && t.wifi.wpa.None?)
      && (oi.dhcp ==> !t.dhcpcd)
      && (if IsCloned(n) then !t.present
          else !t.port.up && t.addrs == {} && (ApIn(Some(oi)) && oi.wireless.value.device == "" ==> !t.port.ap))
      ==> SlotRealises(n, None, BridgeOf(w, n), t)
  {
    var oi := o.interfaces[n];
    assert WellShaped(n, oi, o.interfaces.Keys);
    assert SlotBetween(n, Lookup(o, n), Lookup(w, n), BridgeOf(o, n), BridgeOf(w, n), At(k0, n));
    ShrunkBetween(n, Some(oi), None, BridgeOf(o, n), BridgeOf(w, n), At(k0, n), t);
  }

  /** When every configured and every removed interface is settled, so is everything
      about interfaces: nothing else was ever touched. */
  lemma AllSettled(o: Config, w: Config, k: Kernel)
    requires Shaped(o) && Shaped(w)
    requires SlotsBetween(o, w, k) && LinksBetween(LinksOf(o), LinksOf(w), k.links) && BridgesPresent(k)
    requires forall n :: n in w.interfaces ==> SlotRealises(n, Lookup(w, n), BridgeOf(w, n), At(k, n))
    requires forall n :: n in o.interfaces && n !in w.interfaces ==> SlotRealises(n, None, BridgeOf(w, n), At(k, n))
    requires forall l: (Name, Name) :: l.0 in w.interfaces ==> (l in k.links <==> l in LinksOf(w))
    ensures forall n :: SlotRealises(n, Lookup(w, n), BridgeOf(w, n), At(k, n))
    ensures k.links == LinksOf(w)
  {
    forall n ensures SlotRealises(n, Lookup(w, n), BridgeOf(w, n), At(k, n)) {
      if n !in o.interfaces && n !in w.interfaces {
        assert SlotBetween(n, Lookup(o, n), Lookup(w, n), BridgeOf(o, n), BridgeOf(w, n), At(k, n));
        UntouchedRealises(n, BridgeOf(o, n), BridgeOf(w, n), At(k, n));
      }
    }
    forall n | n in o.interfaces && n !in w.interfaces && InterfaceKind(n) == BridgeKind ensures !At(k, n).present {
      assert SlotRealises(n, None, BridgeOf(w, n), At(k, n));
    }
    forall l | l in k.links ensures l.0 in w.interfaces {
      assert l == (l.0, l.1);
      if l in LinksOf(o) { LinkShape(o, l.0, l.1); }
    }
    forall l | l in LinksOf(w) ensures l in k.links {
      assert l.0 in w.interfaces;
    }
  }

  lemma UntouchedRealises(n: Name, ob: Name, wb: Name, s: Slot)
    requires SlotBetween(n, None, None, ob, wb, s)
    ensures SlotRealises(n, None, wb, s)
  {
  }
}
