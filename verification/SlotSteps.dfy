/** What the parts of configureInterface (netcli/internal/apply/apply.go:227-345) do to one slot, as
    relations between its state before and after, and why together they take it from one configuration
    to the next whatever fails, and arrive when nothing does. */
module SlotSteps {
  import opened Basics
  import opened Addresses
  import opened Config
  import opened Services
  import opened Kernel
  import opened Agreement

  /** minus: the elements of `a` that are not in `b`, in order. */
  function Minus<T(==,!new)>(a: seq<T>, b: seq<T>): (r: seq<T>)
    ensures forall x :: x in r <==> x in a && x !in b
  {
    if a == [] then [] else (if a[0] in b then [] else [a[0]]) + Minus(a[1..], b)
  }

  /** The entries agree in everything but description and access-list names. */
  predicate SameForKernel(a: Interface, b: Interface) {
    a.(description := "", groupIn := "", groupOut := "") == b.(description := "", groupIn := "", groupOut := "")
  }

  function Exclude(addrs: set<Prefix>, hosts: set<Addr>): set<Prefix> { set p | p in addrs && p.addr !in hosts }

  /** One more host excluded. */
  lemma ExcludeMore(addrs: set<Prefix>, less: set<Prefix>, list: seq<Prefix>, j: nat)
    requires j < |list| && Exclude(addrs, HostsOf(ToSet(list[..j]))) <= less <= addrs
    ensures var (hosts, more) := (HostsOf(ToSet(list[..j])), HostsOf(ToSet(list[..j + 1])));
      && Exclude(addrs, more) <= Exclude(less, {list[j].addr})
      && more == hosts + {list[j].addr}
      && (less == Exclude(addrs, hosts) ==> Exclude(less, {list[j].addr}) == Exclude(addrs, more))
  {
    assert list[..j + 1] == list[..j] + [list[j]];
    assert ToSet(list[..j + 1]) == ToSet(list[..j]) + {list[j]};
  }

  predicate Families(i: Interface) {
    && (forall p: Prefix :: p in i.ipv4 ==> p.addr.family == V4)
    && (forall p: Prefix :: p in i.ipv6 ==> p.addr.family == V6)
  }

  lemma {:induction false} MinusSelf<T(!new)>(a: seq<T>)
    ensures Minus(a, a) == []
  {
    if Minus(a, a) != [] {
      assert Minus(a, a)[0] in Minus(a, a);
    }
  }

  /** Deleting what only the old side has never deletes what both sides have. */
  lemma SyncKeeps(oi: Interface, ni: Interface, a0: set<Prefix>, a1: set<Prefix>, a2: set<Prefix>)
    requires Families(oi) && Families(ni) && UniqueHosts(AddrsOf(Some(oi)))
    requires Exclude(a0, HostsOf(ToSet(Minus(oi.ipv4, ni.ipv4)))) <= a1
    requires Exclude(a1, HostsOf(ToSet(Minus(oi.ipv6, ni.ipv6)))) <= a2
    ensures a0 * AddrsOf(Some(oi)) * AddrsOf(Some(ni)) <= a2
  {
    forall p | p in a0 * AddrsOf(Some(oi)) * AddrsOf(Some(ni)) ensures p in a2 {
      NotDeleted(oi, ni, p);
      assert p in Exclude(a0, HostsOf(ToSet(Minus(oi.ipv4, ni.ipv4))));
      assert p in Exclude(a1, HostsOf(ToSet(Minus(oi.ipv6, ni.ipv6))));
    }
  }

  lemma NotDeleted(oi: Interface, ni: Interface, p: Prefix)
    requires Families(oi) && Families(ni) && UniqueHosts(AddrsOf(Some(oi)))
    requires p in AddrsOf(Some(oi)) && p in AddrsOf(Some(ni))
    ensures p.addr !in HostsOf(ToSet(Minus(oi.ipv4, ni.ipv4)))
    ensures p.addr !in HostsOf(ToSet(Minus(oi.ipv6, ni.ipv6)))
  {
  }

  /** When both deletions succeed, only addresses of the new side are left. */
  lemma OldAreDeleted(oi: Interface, ni: Interface, a0: set<Prefix>, a1: set<Prefix>, a2: set<Prefix>)
    requires a1 == Exclude(a0, HostsOf(ToSet(Minus(oi.ipv4, ni.ipv4))))
    requires a2 == Exclude(a1, HostsOf(ToSet(Minus(oi.ipv6, ni.ipv6))))
    ensures a0 <= AddrsOf(Some(oi)) + AddrsOf(Some(ni)) ==> a2 <= AddrsOf(Some(ni))
  {
    if a0 <= AddrsOf(Some(oi)) + AddrsOf(Some(ni)) {
      forall p | p in a2 ensures p in AddrsOf(Some(ni)) {
        if p !in AddrsOf(Some(ni)) { OnlyOldDeleted(oi, ni, p); }
      }
    }
  }

  /** When both additions succeed, every address of the new side is there. */
  lemma NewAreAdded(oi: Interface, ni: Interface, a2: set<Prefix>, a3: set<Prefix>, a4: set<Prefix>)
    requires UniqueHosts(AddrsOf(Some(ni)))
    requires a2 <= a3 <= a2 + ToSet(Minus(ni.ipv4, oi.ipv4))
    requires HostsOf(ToSet(Minus(ni.ipv4, oi.ipv4))) <= HostsOf(a3)
    requires a3 <= a4 <= a3 + ToSet(Minus(ni.ipv6, oi.ipv6))
    requires HostsOf(ToSet(Minus(ni.ipv6, oi.ipv6))) <= HostsOf(a4)
    ensures AddrsOf(Some(oi)) * AddrsOf(Some(ni)) <= a2 <= AddrsOf(Some(ni)) ==> a4 == AddrsOf(Some(ni))
  {
    var o, w := AddrsOf(Some(oi)), AddrsOf(Some(ni));
    if o * w <= a2 <= w {
      forall p | p in w ensures p in a4 {
        if p !in o {
          var q := HostCovered(p, Minus(ni.ipv4, oi.ipv4), a3, Minus(ni.ipv6, oi.ipv6), a4);
          assert q in w;
        }
      }
    }
  }

  lemma OnlyOldDeleted(oi: Interface, ni: Interface, p: Prefix)
    requires p in AddrsOf(Some(oi)) && p !in AddrsOf(Some(ni))
    ensures p.addr in HostsOf(ToSet(Minus(oi.ipv4, ni.ipv4))) || p.addr in HostsOf(ToSet(Minus(oi.ipv6, ni.ipv6)))
  {
    assert p in ToSet(Minus(oi.ipv4, ni.ipv4)) || p in ToSet(Minus(oi.ipv6, ni.ipv6));
  }

  lemma HostCovered(p: Prefix, l3: seq<Prefix>, a3: set<Prefix>, l4: seq<Prefix>, a4: set<Prefix>) returns (q: Prefix)
    requires p in l3 || p in l4
    requires HostsOf(ToSet(l3)) <= HostsOf(a3) && HostsOf(ToSet(l4)) <= HostsOf(a4) && a3 <= a4
    ensures q in a4 && q.addr == p.addr
  {
    if p in l3 {
      assert p.addr in HostsOf(ToSet(l3));
      q :| q in a3 && q.addr == p.addr;
    } else {
      assert p.addr in HostsOf(ToSet(l4));
      q :| q in a4 && q.addr == p.addr;
    }
  }

  lemma NothingLeft(oi: Interface, a0: set<Prefix>, a1: set<Prefix>, a2: set<Prefix>)
    requires a0 <= AddrsOf(Some(oi))
    requires a1 == Exclude(a0, HostsOf(ToSet(oi.ipv4))) && a2 == Exclude(a1, HostsOf(ToSet(oi.ipv6)))
    ensures a2 == {}
  {
    forall p | p in a0 ensures p !in a2 {
      assert p in oi.ipv4 ==> p.addr in HostsOf(ToSet(oi.ipv4));
      assert p in oi.ipv6 ==> p.addr in HostsOf(ToSet(oi.ipv6));
    }
  }

  /** A virtual access point has a radio and a mode: others are not applied. */
  predicate VapDefined(n: Name, i: Interface) {
    InterfaceKind(n) == Wlan ==> i.wireless.Some? && i.wireless.value.mode != NoMode
  }

  /** The radio and mode an interface is created with. */
  function CreatedVap(n: Name, i: Interface): Option<VapId> {
    if InterfaceKind(n) == Wlan then VapIn(Some(i)) else None
  }

  function MembersOf(i: Interface): seq<Name> { if i.bridge.Some? then i.bridge.value else [] }

  function PairsOf(b: Name, members: seq<Name>): set<(Name, Name)> { set m | m in members :: (b, m) }

  lemma PairsSnoc(b: Name, members: seq<Name>, j: nat)
    requires j < |members|
    ensures PairsOf(b, members[..j + 1]) == PairsOf(b, members[..j]) + {(b, members[j])}
    ensures members[j] in members
  {
    assert members[..j + 1] == members[..j] + [members[j]];
  }

  // ----- what the parts of configureInterface do to a slot

  /** Whatever happens to the commands. */
  ghost predicate PortStep(n: Name, oi: Interface, isNew: bool, ni: Interface, s: Slot, t: Slot) {
    && t == s.(port := t.port) && t.port.up == s.port.up && (!s.present ==> t == s)
    && (InterfaceKind(n) != VlanKind || oi.vlan == ni.vlan ==> t.port.vlan == s.port.vlan)
    && (InterfaceKind(n) != Physical || ApIn(Some(oi)) == ApIn(Some(ni)) ==> t.port.ap == s.port.ap)
    && (!isNew && oi.mtu == ni.mtu ==> t.port.mtu == s.port.mtu)
    && (!isNew && oi.media == ni.media ==> t.port.media == s.port.media)
  }

  /** When every command does what it should. */
  ghost predicate PortDone(n: Name, oi: Interface, isNew: bool, ni: Interface, t: Slot) {
    && (InterfaceKind(n) == VlanKind && oi.vlan != ni.vlan && ni.vlan.Some? ==> t.port.vlan == ni.vlan)
    && (InterfaceKind(n) == Physical && ApIn(Some(oi)) != ApIn(Some(ni)) ==> t.port.ap == ApIn(Some(ni)))
    && (ni.mtu != 0 && (oi.mtu != ni.mtu || isNew) ==> t.port.mtu == ni.mtu)
    && (ni.media != "" && (oi.media != ni.media || isNew) ==> t.port.media == ni.media)
  }

  ghost predicate AddrStep(oi: Interface, ni: Interface, s: Slot, t: Slot) {
    && t == s.(addrs := t.addrs) && SlotWf(t)
    && s.addrs * AddrsOf(Some(oi)) * AddrsOf(Some(ni)) <= t.addrs <= s.addrs + AddrsOf(Some(ni))
  }

  /** The daemons that an interface which is up runs for its wireless settings. */
  predicate WifiFor(n: Name, w: Option<Wireless>, bridge: Name, wifi: Wifi) {
    var job := if w.Some? then Some((w.value, bridge)) else None;
    wifi.hostapd == HostapdFor(n, job) && wifi.wpa == WpaFor(job)
  }

  predicate DhcpStep(oi: Interface, ni: Interface, cameUp: bool, was: bool, now: bool) {
    if ni.dhcp && (!oi.dhcp || cameUp) then was ==> now
    else if !ni.dhcp && oi.dhcp && !oi.shutdown then now ==> was
    else now == was
  }

  predicate DhcpDone(oi: Interface, ni: Interface, cameUp: bool, was: bool, now: bool) {
    if ni.dhcp && (!oi.dhcp || cameUp) then now
    else if !ni.dhcp && oi.dhcp && !oi.shutdown then !now
    else now == was
  }

  /** The wireless daemon is stopped, and started again if there still is a wireless configuration. */
  predicate Restarts(oi: Interface, ni: Interface, cameUp: bool, ob: Name, nb: Name) {
    (oi.wireless.Some? || ni.wireless.Some?) && (oi.wireless != ni.wireless || nb != ob || cameUp)
  }

  ghost predicate ShutStep(s: Slot, t: Slot) {
    && t == s.(port := t.port, dhcpcd := t.dhcpcd, wifi := t.wifi) && t.port == s.port.(up := t.port.up)
    && (!s.present ==> t.port == s.port) && Stopping(s.wifi, t.wifi) && (t.dhcpcd ==> s.dhcpcd)
  }

  ghost predicate ShutDone(oi: Interface, isNew: bool, ni: Interface, t: Slot) {
    && !t.port.up && t.present && (oi.dhcp && !isNew ==> !t.dhcpcd)
    && (ni.wireless.Some? ==> t.wifi.hostapd.None? && t.wifi.wpa.None?)
  }

  ghost predicate RaiseStep(oi: Interface, isNew: bool, ni: Interface, ob: Name, nb: Name, s: Slot, t: Slot) {
    var cameUp := oi.shutdown || isNew;
    && t == s.(port := t.port, dhcpcd := t.dhcpcd, wifi := t.wifi) && t.port == s.port.(up := t.port.up)
    && (!s.present || !cameUp ==> t.port == s.port)
    && DhcpStep(oi, ni, cameUp, s.dhcpcd, t.dhcpcd)
    && (!Restarts(oi, ni, cameUp, ob, nb) ==> t.wifi == s.wifi)
    && (ni.wireless.None? ==> Stopping(s.wifi, t.wifi))
  }

  ghost predicate RaiseDone(n: Name, oi: Interface, isNew: bool, ni: Interface, ob: Name, nb: Name, s: Slot, t: Slot) {
    var cameUp := oi.shutdown || isNew;
    && (cameUp ==> t.port.up && t.present)
    && DhcpDone(oi, ni, cameUp, s.dhcpcd, t.dhcpcd)
    && (Restarts(oi, ni, cameUp, ob, nb) ==> WifiFor(n, ni.wireless, nb, t.wifi))
  }

  /** `oi` and `isNew` are what configureInterface compares `ni` with. */
  predicate StartsFrom(n: Name, o: Option<Interface>, ni: Interface, oi: Interface, isNew: bool) {
    (isNew <==> o.None? || Recreated(n, o, Some(ni))) && oi == (if isNew then EMPTY_INTERFACE else o.value)
  }

  /** What the port and address steps achieve when nothing fails. */
  ghost predicate PortRealises(n: Name, ni: Interface, t: Slot) {
    && t.port.vlan == ni.vlan && t.addrs == AddrsOf(Some(ni))
    && (if InterfaceKind(n) == Physical then t.port.ap == ApIn(Some(ni)) else !t.port.ap)
    && (ni.mtu != 0 ==> t.port.mtu == ni.mtu) && (ni.media != "" ==> t.port.media == ni.media)
  }

  /** The port and address steps stay between the two sides. */
  lemma PortBetween(n: Name, o: Option<Interface>, ni: Interface, ob: Name, nb: Name, oi: Interface, isNew: bool,
                    s0: Slot, s1: Slot, s2: Slot)
    requires SlotBetween(n, o, Some(ni), ob, nb, s0) && StartsFrom(n, o, ni, oi, isNew)
    requires PortStep(n, oi, isNew, ni, s0, s1) && AddrStep(oi, ni, s1, s2)
    ensures SlotBetween(n, o, Some(ni), ob, nb, s2)
  {
  }

  /** They arrive when nothing fails. `o` is None for an interface made anew. */
  lemma PortArrives(n: Name, o: Option<Interface>, ni: Interface, ob: Name, nb: Name, oi: Interface, isNew: bool,
                    s0: Slot, s1: Slot, s2: Slot)
    requires SlotBetween(n, o, Some(ni), ob, nb, s0) && StartsFrom(n, o, ni, oi, isNew) && !Recreated(n, o, Some(ni))
    requires InterfaceKind(n) == VlanKind <==> ni.vlan.Some?
    requires PortStep(n, oi, isNew, ni, s0, s1) && PortDone(n, oi, isNew, ni, s1) && AddrStep(oi, ni, s1, s2)
    requires AddrsBetween(true, AddrsOf(Some(oi)), AddrsOf(Some(ni)), s1.addrs) ==> s2.addrs == AddrsOf(Some(ni))
    ensures PortRealises(n, ni, s2)
  {
  }

  lemma ShutBetween(n: Name, o: Option<Interface>, ni: Interface, ob: Name, nb: Name, oi: Interface, isNew: bool,
                    s: Slot, t: Slot)
    requires SlotBetween(n, o, Some(ni), ob, nb, s) && StartsFrom(n, o, ni, oi, isNew) && ni.shutdown
    requires ShutStep(s, t) && (oi.shutdown && !isNew ==> t == s)
    ensures SlotBetween(n, o, Some(ni), ob, nb, t)
  {
  }

  lemma ShutArrives(n: Name, o: Option<Interface>, ni: Interface, ob: Name, nb: Name, oi: Interface, isNew: bool,
                    s: Slot, t: Slot)
    requires SlotBetween(n, o, Some(ni), ob, nb, s) && StartsFrom(n, o, ni, oi, isNew) && ni.shutdown
    requires !Recreated(n, o, Some(ni)) && PortRealises(n, ni, s) && (IsCloned(n) ==> s.present)
    requires o.Some? ==> !Drops(o.value, ni)
    requires InterfaceKind(n) == Wlan ==> VapIn(Some(ni)).Some?
    requires ShutStep(s, t) && (oi.shutdown && !isNew ==> t == s)
    requires !oi.shutdown || isNew ==> ShutDone(oi, isNew, ni, t)
    ensures SlotRealises(n, Some(ni), nb, t)
  {
  }

  lemma RaiseBetween(n: Name, o: Option<Interface>, ni: Interface, ob: Name, nb: Name, oi: Interface, isNew: bool,
                     s: Slot, t: Slot)
    requires SlotBetween(n, o, Some(ni), ob, nb, s) && StartsFrom(n, o, ni, oi, isNew) && !ni.shutdown
    requires RaiseStep(oi, isNew, ni, ob, nb, s, t)
    ensures SlotBetween(n, o, Some(ni), ob, nb, t)
  {
  }

  lemma RaiseArrives(n: Name, o: Option<Interface>, ni: Interface, ob: Name, nb: Name, oi: Interface, isNew: bool,
                     s: Slot, t: Slot)
    requires SlotBetween(n, o, Some(ni), ob, nb, s) && StartsFrom(n, o, ni, oi, isNew) && !ni.shutdown
    requires !Recreated(n, o, Some(ni)) && PortRealises(n, ni, s) && (IsCloned(n) ==> s.present)
    requires InterfaceKind(n) == Wlan ==> VapIn(Some(ni)).Some?
    requires RaiseStep(oi, isNew, ni, ob, nb, s, t) && RaiseDone(n, oi, isNew, ni, ob, nb, s, t)
    ensures SlotRealises(n, Some(ni), nb, t)
  {
  }

  // ----- where the side conditions bite

  /** Shutting down an interface that was realised leaves no daemon behind exactly when its
      wireless settings are not dropped in the same change. */
  lemma ShutdownExact(n: Name, oi: Interface, ni: Interface, ob: Name, nb: Name, s: Slot, t: Slot)
    requires !oi.shutdown && ni.shutdown && ShutStep(s, t) && ShutDone(oi, false, ni, t)
    requires ni.wireless.None? ==> t.wifi == s.wifi
    requires SlotWf(s) && !s.foreign && PortRealises(n, ni, s) && s.dhcpcd == DhcpIn(Some(oi))
    requires s.wifi.hostapd == HostapdFor(n, JobIn(Some(oi), ob)) && s.wifi.wpa == WpaFor(JobIn(Some(oi), ob))
    requires InterfaceKind(n) == Wlan ==> s.vap == VapIn(Some(ni))
    ensures SlotRealises(n, Some(ni), nb, t) <==> !Drops(oi, ni)
  {
  }

  /** Deleting by host what only the old side has keeps the common addresses exactly when none
      of them shares its host with a deleted one. */
  lemma DeletionExact(o: set<Prefix>, w: set<Prefix>)
    ensures Exclude(o, HostsOf(o - w)) == o * w <==> forall p, q :: p in o * w && q in o - w ==> p.addr != q.addr
  {
    if p, q :| p in o * w && q in o - w && p.addr == q.addr {
      assert p !in Exclude(o, HostsOf(o - w));
    } else {
      forall p | p in o * w ensures p in Exclude(o, HostsOf(o - w)) {}
      forall p | p in o - w ensures p.addr in HostsOf(o - w) {}
    }
  }

  /** The same for routes, which are deleted by destination. */
  lemma RouteDeletionExact(o: set<Route>, w: set<Route>)
    ensures var left := set r | r in o && r.prefix !in DestinationsOf(o - w);
      left == o * w <==> forall r, t :: r in o * w && t in o - w ==> r.prefix != t.prefix
  {
    var left := set r | r in o && r.prefix !in DestinationsOf(o - w);
    if r, t :| r in o * w && t in o - w && r.prefix == t.prefix {
      assert r !in left;
    } else {
      forall r | r in o - w ensures r.prefix in DestinationsOf(o - w) {}
    }
  }
}
