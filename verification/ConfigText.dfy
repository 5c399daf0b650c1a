/** Printing a configuration as the commands that recreate it (netcli/internal/cli/text.go). */
module ConfigText {
  import opened Basics
  import opened Addresses
  import opened Config
  import opened Commands
  import AceText
  import CommandTree
  import Tokenizer

  /** The parts of a configuration that are printed together: a setting, or the entry of one name. */
  datatype Slot =
    | HostnameSlot | DomainSlot | ServersSlot | Routing4Slot | Routing6Slot | SecretSlot
    | UserSlot(n: string) | BannerSlot | AclSlot(n: string) | InterfaceSlot(n: string)
    | RoutesSlot | NatSlot | PoolSlot(n: string) | WebSlot

  predicate Has(c: Config, s: Slot) {
    match s
    case UserSlot(n) => n in c.users
    case AclSlot(n) => n in c.acls
    case InterfaceSlot(n) => n in c.interfaces
    case PoolSlot(n) => n in c.pools
    case _ => true
  }

  // ----- the text of one part

  function Optional<T>(on: bool, x: T): seq<T> { if on then [x] else [] }

  function WirelessEdit(w: Wireless, k: nat): seq<IfEdit> {
    match k
    case 0 => Optional(w.device != "", Device(w.device))
    case 1 => Optional(w.mode != NoMode, SetMode(w.mode))
    case 2 => Optional(w.ssid != "", Ssid(Tokenizer.Quote(w.ssid)))
    case 3 => Optional(w.security != NoSecurity, SetSecurity(w.security))
    case 4 => Optional(w.psk != "", Psk(Tokenizer.Quote(w.psk)))
    case 5 => Optional(w.channel != 0, Channel(w.channel))
    case 6 => Optional(w.hwMode != "", HwMode(w.hwMode))
    case 7 => Optional(w.country != "", Country(w.country))
    case 8 => Optional(w.hidden, HiddenSsid)
    case _ => []
  }

  /** The wireless settings from setting `k` on. */
  function WirelessEdits(w: Wireless, k: nat): seq<IfEdit>
    decreases 9 - k
  {
    if k >= 9 then [] else WirelessEdit(w, k) + WirelessEdits(w, k + 1)
  }

  function MemberEdits(l: seq<Name>): seq<IfEdit> { seq(|l|, k requires 0 <= k < |l| => Member(l[k])) }

  function AddressEdits4(l: seq<Prefix>): seq<IfEdit> { seq(|l|, k requires 0 <= k < |l| => Address4(l[k], k > 0)) }

  function AddressEdits6(l: seq<Prefix>): seq<IfEdit> { seq(|l|, k requires 0 <= k < |l| => Address6(l[k])) }

  /** What is printed for the fields of an interface, field by field. */
  function FieldEdits(i: Interface, k: nat): seq<IfEdit> {
    match k
    case 0 => Optional(i.description != "", Description(i.description))
    case 1 => if i.vlan.Some? then [Encapsulation(i.vlan.value)] else []
    case 2 => if i.bridge.Some? then MemberEdits(i.bridge.value) else []
    case 3 => if i.wireless.Some? then WirelessEdits(i.wireless.value, 0) else []
    case 4 => Optional(i.mtu != 0, Mtu(i.mtu))
    case 5 => Optional(i.media != "", Media(i.media))
    case 6 => Optional(i.dhcp, Dhcp)
    case 7 => AddressEdits4(i.ipv4)
    case 8 => AddressEdits6(i.ipv6)
    case 9 => Optional(i.groupIn != "", Group(i.groupIn, false))
    case 10 => Optional(i.groupOut != "", Group(i.groupOut, true))
    case 11 => Optional(i.shutdown, Shutdown)
    case _ => []
  }

  /** interfaceText from field `k` on. */
  function EditsFrom(i: Interface, k: nat): seq<IfEdit>
    decreases 12 - k
  {
    if k >= 12 then [] else FieldEdits(i, k) + EditsFrom(i, k + 1)
  }

  function InInterfaceMode(es: seq<IfEdit>): seq<Command> { seq(|es|, k requires 0 <= k < |es| => If(es[k])) }

  function HostEdits(l: seq<DhcpHost>): seq<PoolEdit> { seq(|l|, k requires 0 <= k < |l| => Host(l[k])) }

  function PoolEdits(p: Pool, k: nat): seq<PoolEdit> {
    match k
    case 0 => if p.network.Some? then [Network(p.network.value)] else []
    case 1 => if p.rangeStart.Some? && p.rangeEnd.Some? then [PoolEdit.Range(p.rangeStart.value, p.rangeEnd.value)] else []
    case 2 => Optional(p.routers != [], DefaultRouter(p.routers))
    case 3 => Optional(p.dns != [], DnsServer(p.dns))
    case 4 => Optional(p.domain != "", DomainOf(p.domain))
    case 5 => Optional(p.lease > 0, Lease(p.lease / 86400, (p.lease % 86400) / 3600, (p.lease % 3600) / 60))
    case 6 => HostEdits(p.hosts)
    case _ => []
  }

  function PoolEditsFrom(p: Pool, k: nat): seq<PoolEdit>
    decreases 7 - k
  {
    if k >= 7 then [] else PoolEdits(p, k) + PoolEditsFrom(p, k + 1)
  }

  function InPoolMode(es: seq<PoolEdit>): seq<Command> { seq(|es|, k requires 0 <= k < |es| => InPool(es[k])) }

  ghost function EntryLines(entries: seq<Ace>): seq<Command> {
    seq(|entries|, k requires 0 <= k < |entries| =>
      Entry(entries[k].seqNo, entries[k].permit, AceText.RuleTokens(entries[k])))
  }

  function RouteLines(l: seq<Route>): seq<Command> { seq(|l|, k requires 0 <= k < |l| => AddRoute(l[k])) }

  function NatLines(l: seq<NatRule>): seq<Command> { seq(|l|, k requires 0 <= k < |l| => AddNat(l[k])) }

  function WebLines(w: Web): seq<Command> {
    Optional(w.enabled, if w.tls then HttpsServer else HttpServer)
    + (Optional(w.port != 0, HttpPort(w.port)) + if w.bind.Some? then [HttpBind(w.bind.value)] else [])
  }

  ghost function SlotLines(c: Config, s: Slot): seq<Command>
    requires Has(c, s)
  {
    match s
    case HostnameSlot => Optional(c.hostname != "", Hostname(c.hostname))
    case DomainSlot => Optional(c.domain != "", DomainName(c.domain))
    case ServersSlot => Optional(c.nameServers != [], NameServer(c.nameServers))
    case Routing4Slot => Optional(c.ipRouting, IpRouting)
    case Routing6Slot => Optional(c.ipv6Routing, Ipv6Routing)
    case SecretSlot => Optional(c.enableSecret != "", EnableSecret(c.enableSecret))
    case UserSlot(n) => [Username(n, c.users[n])]
    case BannerSlot => Optional(c.banner != "", Banner(c.banner))
    case AclSlot(n) => [Acl(n)] + EntryLines(c.acls[n])
    case InterfaceSlot(n) => [Iface(n)] + InInterfaceMode(EditsFrom(c.interfaces[n], 0))
    case RoutesSlot => RouteLines(c.routes)
    case NatSlot => NatLines(c.natRules)
    case PoolSlot(n) => [DhcpPool(n)] + InPoolMode(PoolEditsFrom(c.pools[n], 0))
    case WebSlot => WebLines(c.web)
  }

  // ----- the order of the parts

  function Rank(s: Slot): nat {
    match s
    case HostnameSlot => 0
    case DomainSlot => 1
    case ServersSlot => 2
    case Routing4Slot => 3
    case Routing6Slot => 4
    case SecretSlot => 5
    case UserSlot(_) => 6
    case BannerSlot => 7
    case AclSlot(_) => 8
    case InterfaceSlot(_) => 9
    case RoutesSlot => 10
    case NatSlot => 11
    case PoolSlot(_) => 12
    case WebSlot => 13
  }

  /** Access lists come before interfaces, those in dependency order, and what refers to them after. */
  predicate Follows(x: Slot, y: Slot) {
    Rank(x) < Rank(y) || (Rank(x) == Rank(y) && x != y && (x.InterfaceSlot? ==> !Before(y.n, x.n)))
  }

  ghost predicate InOrder(slots: seq<Slot>) { forall i, j :: 0 <= i < j < |slots| ==> Follows(slots[i], slots[j]) }

  /** An order in which all parts of a configuration may be printed. */
  ghost predicate IsOrder(c: Config, slots: seq<Slot>) {
    InOrder(slots) && forall s :: s in slots <==> Has(c, s)
  }

  ghost function Text(c: Config, slots: seq<Slot>): seq<Command>
    requires forall s :: s in slots ==> Has(c, s)
  {
    if slots == [] then [] else SlotLines(c, slots[0]) + Text(c, slots[1..])
  }

  lemma {:induction false} TextSnoc(c: Config, slots: seq<Slot>, s: Slot)
    requires Has(c, s) && forall t :: t in slots ==> Has(c, t)
    ensures forall t :: t in slots + [s] ==> Has(c, t)
    ensures Text(c, slots + [s]) == Text(c, slots) + SlotLines(c, s)
  {
    hide SlotLines, Has;
    if slots == [] {
      assert slots + [s] == [s] && [s][1..] == [];
    } else {
      TextSnoc(c, slots[1..], s);
      assert (slots + [s])[1..] == slots[1..] + [s];
    }
  }

  lemma Glue(a: seq<Slot>, b: seq<Slot>)
    requires InOrder(a) && InOrder(b) && forall x, y :: x in a && y in b ==> Rank(x) < Rank(y)
    ensures InOrder(a + b)
  {
    forall i, j | 0 <= i < j < |a + b| ensures Follows((a + b)[i], (a + b)[j]) {
      if i < |a| <= j { assert a[i] in a && b[j - |a|] in b; }
    }
  }

  // ----- the printer

  method Sorted(names: set<string>) returns (r: seq<string>)
    ensures Distinct(r) && forall n :: n in r <==> n in names
  {
    var todo, found := names, [];
    while todo != {}
      invariant todo <= names && forall n :: n in found <==> n in names && n !in todo
      decreases todo
    {
      var n :| n in todo;
      todo, found := todo - {n}, found + [n];
    }
    found := CommandTree.SortStrings(found);
    r := CommandTree.Dedupe(found);
    forall i, j | 0 <= i < j < |r| ensures r[i] != r[j] { LexLessIrreflexive(r[i]); }
  }

  method PrintEntries(entries: seq<Ace>) returns (cmds: seq<Command>)
    ensures cmds == EntryLines(entries)
  {
    cmds := [];
    for k := 0 to |entries|
      invariant cmds == EntryLines(entries)[..k]
    {
      var rule := AceText.Format(entries[k]);
      cmds := cmds + [Entry(entries[k].seqNo, entries[k].permit, rule)];
    }
  }

  method PrintSlot(c: Config, s: Slot) returns (cmds: seq<Command>)
    requires Has(c, s)
    ensures cmds == SlotLines(c, s)
  {
    match s {
      case HostnameSlot => cmds := Optional(c.hostname != "", Hostname(c.hostname));
      case DomainSlot => cmds := Optional(c.domain != "", DomainName(c.domain));
      case ServersSlot => cmds := Optional(c.nameServers != [], NameServer(c.nameServers));
      case Routing4Slot => cmds := Optional(c.ipRouting, IpRouting);
      case Routing6Slot => cmds := Optional(c.ipv6Routing, Ipv6Routing);
      case SecretSlot => cmds := Optional(c.enableSecret != "", EnableSecret(c.enableSecret));
      case UserSlot(n) => cmds := [Username(n, c.users[n])];
      case BannerSlot => cmds := Optional(c.banner != "", Banner(c.banner));
      case AclSlot(n) =>
        var entries := PrintEntries(c.acls[n]);
        cmds := [Acl(n)] + entries;
      case InterfaceSlot(n) => cmds := [Iface(n)] + InInterfaceMode(EditsFrom(c.interfaces[n], 0));
      case RoutesSlot => cmds := RouteLines(c.routes);
      case NatSlot => cmds := NatLines(c.natRules);
      case PoolSlot(n) => cmds := [DhcpPool(n)] + InPoolMode(PoolEditsFrom(c.pools[n], 0));
      case WebSlot => cmds := WebLines(c.web);
    }
  }

  function UserSlots(l: seq<string>): seq<Slot> { seq(|l|, k requires 0 <= k < |l| => UserSlot(l[k])) }

  function AclSlots(l: seq<string>): seq<Slot> { seq(|l|, k requires 0 <= k < |l| => AclSlot(l[k])) }

  function InterfaceSlots(l: seq<Name>): seq<Slot> { seq(|l|, k requires 0 <= k < |l| => InterfaceSlot(l[k])) }

  function PoolSlots(l: seq<string>): seq<Slot> { seq(|l|, k requires 0 <= k < |l| => PoolSlot(l[k])) }

  const HEAD := [HostnameSlot, DomainSlot, ServersSlot, Routing4Slot, Routing6Slot, SecretSlot]

  lemma NamesInOrder(users: seq<string>, acls: seq<string>, ifs: seq<Name>, pools: seq<string>)
    requires Distinct(users) && Distinct(acls) && Distinct(ifs) && SortedNames(ifs) && Distinct(pools)
    ensures InOrder(UserSlots(users)) && InOrder(AclSlots(acls)) && InOrder(InterfaceSlots(ifs)) && InOrder(PoolSlots(pools))
  {
    hide Before;
  }

  lemma RanksOf(users: seq<string>, acls: seq<string>, ifs: seq<Name>, pools: seq<string>)
    ensures forall s :: s in HEAD <==> Rank(s) < 6
    ensures forall s :: s in UserSlots(users) <==> s.UserSlot? && s.n in users
    ensures forall s :: s in AclSlots(acls) <==> s.AclSlot? && s.n in acls
    ensures forall s :: s in InterfaceSlots(ifs) <==> s.InterfaceSlot? && s.n in ifs
    ensures forall s :: s in PoolSlots(pools) <==> s.PoolSlot? && s.n in pools
  {
    forall n | n in users ensures UserSlot(n) in UserSlots(users) {
      var k :| 0 <= k < |users| && users[k] == n;
      assert UserSlots(users)[k] == UserSlot(n);
    }
    forall n | n in acls ensures AclSlot(n) in AclSlots(acls) {
      var k :| 0 <= k < |acls| && acls[k] == n;
      assert AclSlots(acls)[k] == AclSlot(n);
    }
    forall n | n in ifs ensures InterfaceSlot(n) in InterfaceSlots(ifs) {
      var k :| 0 <= k < |ifs| && ifs[k] == n;
      assert InterfaceSlots(ifs)[k] == InterfaceSlot(n);
    }
    forall n | n in pools ensures PoolSlot(n) in PoolSlots(pools) {
      var k :| 0 <= k < |pools| && pools[k] == n;
      assert PoolSlots(pools)[k] == PoolSlot(n);
    }
  }

  lemma HeadInOrder()
    ensures InOrder(HEAD) && InOrder([BannerSlot]) && InOrder([RoutesSlot, NatSlot]) && InOrder([WebSlot])
  {
  }

  lemma FirstHalf(users: seq<string>, acls: seq<string>)
    requires InOrder(UserSlots(users)) && InOrder(AclSlots(acls))
    ensures var r := HEAD + UserSlots(users) + [BannerSlot] + AclSlots(acls);
      InOrder(r) && forall s :: s in r <==>
        Rank(s) < 6 || (s.UserSlot? && s.n in users) || s.BannerSlot? || (s.AclSlot? && s.n in acls)
  {
    hide InOrder, UserSlots, AclSlots, HEAD;
    HeadInOrder();
    RanksOf(users, acls, [], []);
    Glue(HEAD, UserSlots(users));
    Glue(HEAD + UserSlots(users), [BannerSlot]);
    Glue(HEAD + UserSlots(users) + [BannerSlot], AclSlots(acls));
  }

  lemma SecondHalf(ifs: seq<Name>, pools: seq<string>)
    requires InOrder(InterfaceSlots(ifs)) && InOrder(PoolSlots(pools))
    ensures var r := InterfaceSlots(ifs) + [RoutesSlot, NatSlot] + PoolSlots(pools) + [WebSlot];
      InOrder(r) && forall s :: s in r <==>
        (s.InterfaceSlot? && s.n in ifs) || s.RoutesSlot? || s.NatSlot? || (s.PoolSlot? && s.n in pools) || s.WebSlot?
  {
    hide InOrder, InterfaceSlots, PoolSlots, HEAD;
    HeadInOrder();
    RanksOf([], [], ifs, pools);
    Glue(InterfaceSlots(ifs), [RoutesSlot, NatSlot]);
    Glue(InterfaceSlots(ifs) + [RoutesSlot, NatSlot], PoolSlots(pools));
    Glue(InterfaceSlots(ifs) + [RoutesSlot, NatSlot] + PoolSlots(pools), [WebSlot]);
  }

  /** The parts in the order of ConfigText: the sections with names are sorted. */
  method Order(c: Config) returns (slots: seq<Slot>)
    ensures IsOrder(c, slots)
  {
    hide Before, InOrder, UserSlots, AclSlots, InterfaceSlots, PoolSlots, HEAD;
    var users := Sorted(c.users.Keys);
    var acls := Sorted(c.acls.Keys);
    var ifs := InterfaceNames(c);
    var pools := Sorted(c.pools.Keys);
    NamesInOrder(users, acls, ifs, pools);
    FirstHalf(users, acls);
    SecondHalf(ifs, pools);
    var first := HEAD + UserSlots(users) + [BannerSlot] + AclSlots(acls);
    var second := InterfaceSlots(ifs) + [RoutesSlot, NatSlot] + PoolSlots(pools) + [WebSlot];
    Glue(first, second);
    slots := first + second;
    forall s ensures s in slots <==> Has(c, s) {
      assert s in slots <==> s in first || s in second;
    }
  }

  /** ConfigText. */
  method Print(c: Config) returns (cmds: seq<Command>)
    ensures exists slots :: IsOrder(c, slots) && cmds == Text(c, slots) + [End]
  {
    hide SlotLines, InOrder;
    cmds := [];
    var order := Order(c);
    for k := 0 to |order|
      invariant cmds == Text(c, order[..k])
    {
      assert order[k] in order;
      var lines := PrintSlot(c, order[k]);
      TextSnoc(c, order[..k], order[k]);
      assert order[..k + 1] == order[..k] + [order[k]];
      cmds := cmds + lines;
    }
    assert order[..|order|] == order;
    cmds := cmds + [End];
  }
}
