/** The configuration model, its interface naming, normalisation and
    validation (netcli/internal/config). */
module Config {
  import opened Basics
  import opened Addresses

  type Name = string

  // ----- data model

  datatype Mode = NoMode | Station | HostAP
  datatype Security = NoSecurity | Open | Wpa2Psk

  datatype Wireless = Wireless(mode: Mode, device: Name, ssid: string, security: Security, psk: string,
                               channel: int, hwMode: string, country: string, hidden: bool)

  datatype Vlan = Vlan(id: int, parent: Name)

  datatype Interface = Interface(
    description: string, shutdown: bool, mtu: int, media: string,
    ipv4: seq<Prefix>, dhcp: bool, ipv6: seq<Prefix>,
    groupIn: string, groupOut: string,
    vlan: Option<Vlan>, bridge: Option<seq<Name>>, wireless: Option<Wireless>)

  const EMPTY_INTERFACE := Interface("", false, 0, "", [], false, [], "", "", None, None, None)

  datatype NextHop = Null0 | Gateway(addr: Addr)
  datatype Route = Route(prefix: Prefix, nextHop: NextHop)

  /** `Number` keeps the protocol number as it was typed. */
  datatype Protocol = Ip | Tcp | Udp | Icmp | Icmp6 | Number(word: string)
  datatype Endpoint = Any | Net(prefix: Prefix)
  /** "", "22" and "1024-65535"; "7-7" is a `Range`, not a `One`. */
  datatype Ports = NoPorts | One(port: int) | Range(lo: int, hi: int)

  datatype Ace = Ace(seqNo: int, permit: bool, protocol: Protocol, src: Endpoint, srcPorts: Ports,
                     dst: Endpoint, dstPorts: Ports, icmpType: Option<int>, log: bool, stateless: bool)

  datatype L4 = L4Tcp | L4Udp
  datatype NatRule =
    | Overload(outside: Name, source: Prefix)
    | Static(outside: Name, protocol: L4, localAddr: Addr, localPort: int, publicPort: int)

  datatype DhcpHost = DhcpHost(name: string, mac: nat, address: Addr)
  datatype Pool = Pool(network: Option<Prefix>, rangeStart: Option<Addr>, rangeEnd: Option<Addr>,
                       routers: seq<Addr>, dns: seq<Addr>, domain: string, lease: int, hosts: seq<DhcpHost>)

  const EMPTY_POOL := Pool(None, None, None, [], [], "", 0, [])

  datatype Web = Web(enabled: bool, tls: bool, port: int, bind: Option<Addr>)

  datatype Config = Config(
    hostname: string, domain: string, nameServers: seq<Addr>, banner: string,
    ipRouting: bool, ipv6Routing: bool, enableSecret: string, users: map<string, string>,
    interfaces: map<Name, Interface>, routes: seq<Route>, acls: map<string, seq<Ace>>,
    natRules: seq<NatRule>, pools: map<string, Pool>, web: Web)

  const NEW := Config("router", "", [], "", false, false, "", map[], map[], [], map[], [], map[],
                      Web(false, false, 0, None))

  // ----- interface names

  datatype Kind = Physical | VlanKind | BridgeKind | Wlan | Loopback

  /** strings.TrimRight(name, "0123456789"). */
  function TrimDigits(s: string): (r: string)
    ensures r <= s && AllDigits(s[|r|..])
  {
    if s != [] && IsDigit(s[|s| - 1]) then
      var r := TrimDigits(s[..|s| - 1]);
      assert s[|r|..] == s[..|s| - 1][|r|..] + [s[|s| - 1]];
      r
    else s
  }

  function KindOfBase(base: string): Kind {
    if base == "vlan" then VlanKind
    else if base == "bridge" then BridgeKind
    else if base == "wlan" then Wlan
    else if base == "lo" then Loopback
    else Physical
  }

  function InterfaceKind(name: Name): Kind { KindOfBase(TrimDigits(name)) }

  predicate IsCloned(name: Name) { InterfaceKind(name) in {VlanKind, BridgeKind, Wlan} }

  function KindOrder(name: Name): nat {
    match InterfaceKind(name)
    case Loopback => 0
    case Physical => 1
    case VlanKind => 2
    case Wlan => 3
    case BridgeKind => 4
  }

  function UnitOf(name: Name): nat { DigitsValue(name[|TrimDigits(name)|..]) }

  /** The comparison SortInterfaceNames sorts by. */
  predicate Before(a: Name, b: Name) {
    var (ba, bb) := (TrimDigits(a), TrimDigits(b));
    if KindOrder(a) != KindOrder(b) then KindOrder(a) < KindOrder(b)
    else if ba != bb then LexLess(ba, bb)
    else UnitOf(a) < UnitOf(b)
  }

  lemma BeforeTransitive(a: Name, b: Name, c: Name)
    requires Before(a, b) && Before(b, c)
    ensures Before(a, c)
  {
    var (ba, bb, bc) := (TrimDigits(a), TrimDigits(b), TrimDigits(c));
    if KindOrder(a) == KindOrder(b) == KindOrder(c) && ba != bb && bb != bc {
      LexLessTransitive(ba, bb, bc);
      LexLessIrreflexive(ba);
    }
  }

  lemma BeforeIrreflexive(a: Name)
    ensures !Before(a, a)
  {
  }

  /** Interfaces of one driver are ordered by their numbers: wm2 comes before wm10. */
  lemma UnitsInOrder(base: string, a: nat, b: nat)
    requires base == [] || !IsDigit(base[|base| - 1])
    ensures Before(base + Itoa(a), base + Itoa(b)) <==> a < b
  {
    UnitIs(base, a);
    UnitIs(base, b);
  }

  lemma UnitIs(base: string, n: nat)
    requires base == [] || !IsDigit(base[|base| - 1])
    ensures TrimDigits(base + Itoa(n)) == base && UnitOf(base + Itoa(n)) == n
  {
    TrimDigitsOf(base, Itoa(n));
    DigitsItoa(n);
    assert (base + Itoa(n))[|base|..] == Itoa(n);
  }

  lemma {:induction false} TrimDigitsOf(base: string, digits: string)
    requires (base == [] || !IsDigit(base[|base| - 1])) && AllDigits(digits)
    ensures TrimDigits(base + digits) == base
  {
    if digits == [] {
      assert base + digits == base;
    } else {
      assert (base + digits)[..|base + digits| - 1] == base + digits[..|digits| - 1];
      TrimDigitsOf(base, digits[..|digits| - 1]);
    }
  }

  ghost predicate SortedNames(names: seq<Name>) {
    forall i, j :: 0 <= i < j < |names| ==> !Before(names[j], names[i])
  }

  lemma SortedByKind(names: seq<Name>, i: nat, j: nat)
    requires SortedNames(names) && i < j < |names|
    ensures KindOrder(names[i]) <= KindOrder(names[j])
  {
  }

  /** SortInterfaceNames: a stable insertion sort stands in for the library sort. */
  method SortInterfaceNames(names: seq<Name>) returns (r: seq<Name>)
    ensures SortedNames(r) && multiset(r) == multiset(names)
  {
    hide Before;
    r := [];
    for k := 0 to |names|
      invariant SortedNames(r) && multiset(r) == multiset(names[..k])
    {
      var x, i := names[k], 0;
      while i < |r| && !Before(x, r[i])
        invariant 0 <= i <= |r|
        invariant forall j :: 0 <= j < i ==> !Before(x, r[j])
      {
        i := i + 1;
      }
      forall l | i <= l < |r|
        ensures !Before(r[l], x)
      {
        if Before(r[l], x) {
          BeforeTransitive(r[l], x, r[i]);
          BeforeIrreflexive(r[i]);
        }
      }
      ghost var was := r;
      r := r[..i] + [x] + r[i..];
      assert was == was[..i] + was[i..];
      assert names[..k + 1] == names[..k] + [x];
    }
    assert names[..|names|] == names;
  }

  /** Config.InterfaceNames: the configured names, each once, sorted. */
  method InterfaceNames(c: Config) returns (names: seq<Name>)
    ensures SortedNames(names) && Distinct(names)
    ensures forall n :: n in names <==> n in c.interfaces
  {
    var todo, found := c.interfaces.Keys, [];
    while todo != {}
      invariant Distinct(found) && todo !! ToSet(found)
      invariant todo + ToSet(found) == c.interfaces.Keys
      decreases todo
    {
      var n :| n in todo;
      todo, found := todo - {n}, found + [n];
    }
    names := SortInterfaceNames(found);
    DistinctPermutation(found, names);
  }

  /** A rearrangement keeps distinctness and membership. */
  lemma DistinctPermutation<T>(a: seq<T>, b: seq<T>)
    requires Distinct(a) && multiset(a) == multiset(b)
    ensures Distinct(b)
    ensures forall x :: x in b <==> x in a
  {
    forall x ensures x in b <==> x in a {
      assert x in a <==> x in multiset(a);
      assert x in b <==> x in multiset(b);
    }
    forall i, j | 0 <= i < j < |b| ensures b[i] != b[j] {
      if b[i] == b[j] {
        assert b == b[..j] + b[j..];
        assert b[i] in b[..j] && b[j] in b[j..];
        assert multiset(b)[b[i]] >= 2;
        DistinctCount(a, b[i]);
      }
    }
  }

  lemma {:induction false} DistinctCount<T>(a: seq<T>, x: T)
    requires Distinct(a)
    ensures multiset(a)[x] <= 1
  {
    if a != [] {
      var k := |a| - 1;
      assert a == a[..k] + [a[k]];
      DistinctCount(a[..k], x);
    }
  }

  // ----- normalisation

  predicate SortedEntries(s: seq<Ace>) {
    forall i, j :: 0 <= i < j < |s| ==> s[i].seqNo <= s[j].seqNo
  }

  /** Inserts `e` behind every entry whose sequence number is not larger. */
  function InsertEntry(s: seq<Ace>, e: Ace): seq<Ace> {
    if s == [] || s[|s| - 1].seqNo <= e.seqNo then s + [e]
    else InsertEntry(s[..|s| - 1], e) + [s[|s| - 1]]
  }

  /** sort.SliceStable by sequence number. */
  function SortEntries(s: seq<Ace>): seq<Ace> {
    if s == [] then [] else InsertEntry(SortEntries(s[..|s| - 1]), s[|s| - 1])
  }

  lemma {:induction false} InsertEntrySorts(s: seq<Ace>, e: Ace)
    requires SortedEntries(s)
    ensures SortedEntries(InsertEntry(s, e))
    ensures multiset(InsertEntry(s, e)) == multiset(s) + multiset{e}
  {
    if s != [] && s[|s| - 1].seqNo > e.seqNo {
      var front, last := s[..|s| - 1], s[|s| - 1];
      InsertEntrySorts(front, e);
      var r := InsertEntry(front, e);
      assert s == front + [last];
      forall x | x in r ensures x.seqNo <= last.seqNo {
        assert x in multiset(r);
        assert x in front || x == e;
      }
      SortedSnoc(r, last);
    }
  }

  lemma SortedSnoc(r: seq<Ace>, last: Ace)
    requires SortedEntries(r) && forall x :: x in r ==> x.seqNo <= last.seqNo
    ensures SortedEntries(r + [last])
  {
    forall i | 0 <= i < |r| ensures r[i].seqNo <= last.seqNo { assert r[i] in r; }
  }

  lemma {:induction false} SortEntriesSorts(s: seq<Ace>)
    ensures SortedEntries(SortEntries(s)) && multiset(SortEntries(s)) == multiset(s)
  {
    if s != [] {
      var front, last := s[..|s| - 1], s[|s| - 1];
      SortEntriesSorts(front);
      InsertEntrySorts(SortEntries(front), last);
      assert multiset(s) == multiset(front) + multiset{last} by { assert s == front + [last]; }
    }
  }

  lemma {:induction false} SortedIsFixed(s: seq<Ace>)
    requires SortedEntries(s)
    ensures SortEntries(s) == s
  {
    if s != [] {
      var front, last := s[..|s| - 1], s[|s| - 1];
      SortedIsFixed(front);
      assert front == [] || front[|front| - 1] == s[|s| - 2];
      assert InsertEntry(front, last) == front + [last] == s;
    }
  }

  function Normalize(c: Config): Config {
    c.(acls := map n | n in c.acls :: SortEntries(c.acls[n]))
  }

  predicate Normalized(c: Config) {
    forall n :: n in c.acls ==> SortedEntries(c.acls[n])
  }

  lemma NormalizeNormalizes(c: Config)
    ensures Normalized(Normalize(c))
  {
    forall n | n in c.acls { SortEntriesSorts(c.acls[n]); }
  }

  lemma NormalizeFixed(c: Config)
    requires Normalized(c)
    ensures Normalize(c) == c
  {
    forall n | n in c.acls { SortedIsFixed(c.acls[n]); }
    assert Normalize(c).acls == c.acls;
  }

  // ----- validation

  predicate ValidInterfaceName(n: Name) {
    && |n| >= 2 && IsLowerLetter(n[0]) && IsDigit(n[|n| - 1])
    && forall i :: 0 <= i < |n| ==> IsLowerLetter(n[i]) || IsDigit(n[i])
  }

  /** Names of access lists, pools and users. */
  predicate ValidName(n: string) {
    && 1 <= |n| <= 64 && (IsLowerLetter(n[0]) || IsUpperLetter(n[0]))
    && forall i :: 0 <= i < |n| ==> IsAlnum(n[i]) || n[i] in "_.-"
  }

  predicate ValidHostname(h: string) {
    && 1 <= |h| <= 63 && IsAlnum(h[0]) && IsAlnum(h[|h| - 1])
    && forall i :: 0 <= i < |h| ==> IsAlnum(h[i]) || h[i] == '-'
  }

  predicate ValidDomain(d: string) {
    && 1 <= |d| <= 253 && IsAlnum(d[0]) && IsAlnum(d[|d| - 1])
    && forall i :: 0 <= i < |d| ==> IsAlnum(d[i]) || d[i] in ".-"
  }

  predicate OneLine(s: string) { '\n' !in s && '\r' !in s }

  predicate ValidWireless(w: Wireless, kind: Kind) {
    && (kind == Physical || kind == Wlan)
    && (kind == Physical ==> w.device == "")
    && (w.device != "" ==> ValidInterfaceName(w.device))
    && ByteLength(w.ssid) <= 32 && OneLine(w.ssid) && '\0' !in w.ssid
    && (w.psk != "" ==> 8 <= ByteLength(w.psk) <= 63 && OneLine(w.psk) && '"' !in w.psk)
    && 0 <= w.channel <= 196
    && w.hwMode in {"", "a", "b", "g"}
    && (w.country != "" ==> |w.country| == 2 && IsUpperLetter(w.country[0]) && IsUpperLetter(w.country[1]))
  }

  predicate ValidInterface(n: Name, i: Interface, names: set<Name>, acls: set<string>) {
    var kind := InterfaceKind(n);
    && ValidInterfaceName(n)
    && (i.mtu != 0 ==> 576 <= i.mtu <= 9216)
    && OneLine(i.description)
    && (i.dhcp ==> i.ipv4 == [])
    && (forall k :: 0 <= k < |i.ipv4| ==> i.ipv4[k].addr.family == V4)
    && (forall k :: 0 <= k < |i.ipv6| ==> i.ipv6[k].addr.family == V6)
    && (i.groupIn != "" ==> i.groupIn in acls)
    && (i.groupOut != "" ==> i.groupOut in acls)
    && (kind == VlanKind <==> i.vlan.Some?)
    && (i.vlan.Some? ==> 1 <= i.vlan.value.id <= 4094 && i.vlan.value.parent in names)
    && (i.bridge.Some? ==>
      kind == BridgeKind && forall m :: m in i.bridge.value ==> m != n && m in names)
    && (i.wireless.Some? ==> ValidWireless(i.wireless.value, kind))
  }

  predicate ValidRoute(r: Route) {
    && r.prefix.Masked() == r.prefix
    && (r.nextHop.Gateway? ==> r.nextHop.addr.family == r.prefix.addr.family)
  }

  predicate ValidPorts(p: Ports) {
    match p
    case NoPorts => true
    case One(port) => 0 <= port <= 65535
    case Range(lo, hi) => 0 <= lo <= hi <= 65535
  }

  predicate ValidAce(e: Ace) {
    && 1 <= e.seqNo <= 2147483647
    && (e.protocol.Number? ==>
      var n := Atoi(e.protocol.word); n.Some? && 0 <= n.value <= 255)
    && (!(e.protocol.Tcp? || e.protocol.Udp?) ==> e.srcPorts.NoPorts? && e.dstPorts.NoPorts?)
    && ValidPorts(e.srcPorts) && ValidPorts(e.dstPorts)
    && (e.icmpType.Some? ==>
      (e.protocol.Icmp? || e.protocol.Icmp6?) && 0 <= e.icmpType.value <= 255)
    && (e.src.Net? && e.dst.Net? ==> e.src.prefix.addr.family == e.dst.prefix.addr.family)
    && (e.protocol.Icmp? ==> !MentionsFamily(e, V6))
    && (e.protocol.Icmp6? ==> !MentionsFamily(e, V4))
    && (e.stateless ==> e.permit)
  }

  predicate MentionsFamily(e: Ace, f: Family) {
    (e.src.Net? && e.src.prefix.addr.family == f) || (e.dst.Net? && e.dst.prefix.addr.family == f)
  }

  predicate UniqueSeqs(s: seq<Ace>) {
    forall i, j :: 0 <= i < j < |s| ==> s[i].seqNo != s[j].seqNo
  }

  predicate ValidEntries(s: seq<Ace>) {
    UniqueSeqs(s) && forall i :: 0 <= i < |s| ==> ValidAce(s[i])
  }

  predicate ValidNat(r: NatRule, names: set<Name>) {
    && r.outside in names
    && match r
       case Overload(_, source) => source.Masked() == source
       case Static(_, _, a, lp, pp) => a.family == V4 && 1 <= lp <= 65535 && 1 <= pp <= 65535
  }

  predicate ValidPool(name: string, p: Pool) {
    && ValidName(name)
    && p.network.Some?
    && var net: Prefix := p.network.value;
       && net.addr.family == V4 && net.Masked() == net
       && (p.rangeStart.Some? <==> p.rangeEnd.Some?)
       && (p.rangeStart.Some? ==>
         net.Contains(p.rangeStart.value) && net.Contains(p.rangeEnd.value)
         && p.rangeStart.value.value <= p.rangeEnd.value.value)
       && (forall k :: 0 <= k < |p.routers| ==> net.Contains(p.routers[k]))
       && (forall k :: 0 <= k < |p.hosts| ==>
         ValidName(p.hosts[k].name) && p.hosts[k].mac < Pow2(48) && net.Contains(p.hosts[k].address))
  }

  predicate ValidGlobals(c: Config) {
    && (c.hostname != "" ==> ValidHostname(c.hostname))
    && (c.domain != "" ==> ValidDomain(c.domain))
    && (forall u :: u in c.users ==> ValidName(u))
    && 0 <= c.web.port <= 65535
  }

  predicate ValidInterfaces(interfaces: map<Name, Interface>, acls: set<string>) {
    forall n :: n in interfaces ==> ValidInterface(n, interfaces[n], interfaces.Keys, acls)
  }

  predicate ValidAcls(acls: map<string, seq<Ace>>) {
    forall n :: n in acls ==> ValidName(n) && ValidEntries(acls[n])
  }

  /** Validate reports no error. */
  predicate Valid(c: Config) {
    && ValidGlobals(c)
    && ValidInterfaces(c.interfaces, c.acls.Keys)
    && (forall k :: 0 <= k < |c.routes| ==> ValidRoute(c.routes[k]))
    && ValidAcls(c.acls)
    && (forall k :: 0 <= k < |c.natRules| ==> ValidNat(c.natRules[k], c.interfaces.Keys))
    && (forall n :: n in c.pools ==> ValidPool(n, c.pools[n]))
  }

  /** Normalisation never turns a valid configuration into an invalid one, nor the reverse. */
  lemma NormalizeValid(c: Config)
    ensures Valid(Normalize(c)) <==> Valid(c)
  {
    var r := Normalize(c);
    forall n | n in c.acls
      ensures ValidEntries(r.acls[n]) <==> ValidEntries(c.acls[n])
    {
      SortEntriesSorts(c.acls[n]);
      if ValidEntries(c.acls[n]) { ValidEntriesPermutation(c.acls[n], r.acls[n]); }
      if ValidEntries(r.acls[n]) { ValidEntriesPermutation(r.acls[n], c.acls[n]); }
    }
    assert r.acls.Keys == c.acls.Keys;
    assert ValidAcls(r.acls) <==> ValidAcls(c.acls);
  }

  lemma ValidEntriesPermutation(a: seq<Ace>, b: seq<Ace>)
    requires multiset(a) == multiset(b) && ValidEntries(a)
    ensures ValidEntries(b)
  {
    DistinctPermutation(a, b);
    forall i | 0 <= i < |b| ensures ValidAce(b[i]) { assert b[i] in b; }
    forall i, j | 0 <= i < j < |b| ensures b[i].seqNo != b[j].seqNo {
      assert b[i] in a && b[j] in a;
    }
  }

  // ----- wireless readiness

  /** Complete enough to start wpa_supplicant or hostapd. */
  predicate Ready(w: Option<Wireless>, kind: Kind) {
    && w.Some? && w.value.ssid != "" && w.value.security != NoSecurity && w.value.mode != NoMode
    && (w.value.security == Wpa2Psk ==> w.value.psk != "")
    && (kind == Wlan ==> w.value.device != "")
  }
}
