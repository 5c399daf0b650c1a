/** The commands that a configuration is printed as (netcli/internal/cli/cmd_config.go, session.go). */
module Commands {
  import opened Basics
  import opened Addresses
  import opened Config
  import Agreement
  import AceText
  import Tokenizer
  import CommandTree
  import Manager

  // ----- what is typed

  /** The value of an argument that takes the rest of the line. */
  function Typed(raw: string): Option<string> {
    var toks := Tokenizer.Words(raw, 0);
    if toks.None? || toks.value == [] || !OneLine(raw) then None
    else
      var t := toks.value[0];
      Tokenizer.WordsInside(raw, 0);
      if |toks.value| > 1 || raw[t.start] != '"' then Some(CommandTree.TrimSpace(raw[t.start..])) else Some(t.text)
  }

  /** The value of an argument that is one word. */
  function WordOf(raw: string): Option<string> {
    var toks := Tokenizer.Words(raw, 0);
    if toks.None? || |toks.value| != 1 || toks.value[0].text == "" || !OneLine(raw) then None
    else Some(toks.value[0].text)
  }

  function CountOf(s: string, c: char): nat {
    if s == [] then 0 else (if s[0] == c then 1 else 0) + CountOf(s[1..], c)
  }

  predicate IsHashedSecret(s: string) { "pbkdf2-sha256$" <= s && CountOf(s, '$') == 3 }

  function Secret(raw: string): Option<string> {
    var v := WordOf(raw);
    if v.Some? && IsHashedSecret(v.value) then v else None
  }

  predicate Delimited(t: string) { |t| >= 2 && t[0] == t[|t| - 1] && t[0] in "^#%$" }

  function StripDelimiters(t: string): string {
    if Delimited(t) then CommandTree.TrimSpace(t[1..|t| - 1]) else t
  }

  /** `in` and `out` are keywords where an access list may be named. */
  predicate NamesDirection(acl: string) { CommandTree.Abbreviates(acl, "in") || CommandTree.Abbreviates(acl, "out") }

  // ----- commands

  datatype IfEdit =
    | Description(raw: string)
    | Encapsulation(vlan: Vlan)
    | Member(member: Name)
    | Device(device: Name) | SetMode(mode: Mode) | Ssid(raw: string) | SetSecurity(security: Security) | Psk(raw: string)
    | Channel(channel: int) | HwMode(hwMode: string) | Country(country: string) | HiddenSsid
    | Mtu(mtu: int)
    | Media(raw: string)
    | Dhcp
    | Address4(prefix: Prefix, secondary: bool)
    | Address6(prefix: Prefix)
    | Group(acl: string, out: bool)
    | Shutdown

  datatype PoolEdit =
    | Network(prefix: Prefix)
    | Range(start: Addr, end: Addr)
    | DefaultRouter(addrs: seq<Addr>)
    | DnsServer(addrs: seq<Addr>)
    | DomainOf(raw: string)
    | Lease(days: int, hours: int, minutes: int)
    | Host(host: DhcpHost)

  datatype Command =
    | Hostname(hostname: string) | DomainName(domain: string) | NameServer(addrs: seq<Addr>)
    | IpRouting | Ipv6Routing
    | EnableSecret(raw: string) | Username(user: string, raw: string) | Banner(raw: string)
    | Acl(name: string) | Entry(seqNo: int, permit: bool, rule: seq<AceText.Token>)
    | Iface(ifn: Name) | If(edit: IfEdit)
    | AddRoute(route: Route)
    | AddNat(nat_: NatRule)
    | DhcpPool(name: string) | InPool(change: PoolEdit)
    | HttpServer | HttpsServer | HttpPort(port: int) | HttpBind(addr: Addr)
    | End

  datatype CliMode = Privileged | Global | InInterface(n: Name) | InAcl(n: string) | InDhcpPool(n: string)

  // ----- lists

  /** The elements of `more` that are not there yet are appended. */
  function AppendNew<T(==)>(l: seq<T>, more: seq<T>): seq<T>
    decreases |more|
  {
    if more == [] then l else AppendNew(if more[0] in l then l else l + [more[0]], more[1..])
  }

  function Remove<T(==)>(l: seq<T>, x: T): seq<T> {
    if l == [] then [] else (if l[0] == x then [] else [l[0]]) + Remove(l[1..], x)
  }

  lemma {:induction false} AppendNewSize<T>(a: seq<T>, l: seq<T>)
    ensures |AppendNew(a, l)| <= |a| + |l|
    ensures forall x :: x in AppendNew(a, l) <==> x in a || x in l
    decreases |l|
  {
    if l != [] { AppendNewSize(if l[0] in a then a else a + [l[0]], l[1..]); }
  }

  /** Nothing is left out exactly when nothing is there twice. */
  lemma {:induction false} AppendNewExact<T>(a: seq<T>, l: seq<T>)
    ensures AppendNew(a, l) == a + l <==> Distinct(l) && forall x :: x in l ==> x !in a
    decreases |l|
  {
    if l == [] {
    } else if l[0] in a {
      AppendNewSize(a, l[1..]);
      assert l[0] in l;
    } else {
      AppendNewExact(a + [l[0]], l[1..]);
      assert a + [l[0]] + l[1..] == a + l;
      assert l == [l[0]] + l[1..];
      DistinctCons(l[0], l[1..]);
    }
  }

  lemma DistinctCons<T>(x: T, l: seq<T>)
    ensures Distinct([x] + l) <==> Distinct(l) && x !in l
  {
    var s := [x] + l;
    assert forall i :: 0 <= i < |l| ==> s[i + 1] == l[i];
    if Distinct(s) {
      forall i, j | 0 <= i < j < |l| ensures l[i] != l[j] { assert s[i + 1] != s[j + 1]; }
      forall i | 0 <= i < |l| ensures l[i] != x { assert s[0] != s[i + 1]; }
    }
  }

  // ----- what a command does

  /** The outcome of a change to a part of the configuration. */
  datatype Edited<T> = Denied | Kept | To(value: T)

  const STATION := Wireless(Station, "", "", NoSecurity, "", 0, "", "", false)

  predicate IsWireless(e: IfEdit) {
    e.Device? || e.SetMode? || e.Ssid? || e.SetSecurity? || e.Psk? || e.Channel? || e.HwMode? || e.Country? || e.HiddenSsid?
  }

  function EditWireless(w: Wireless, e: IfEdit): Option<Wireless>
    requires IsWireless(e)
  {
    match e
    case Device(d) => Some(w.(device := d))
    case SetMode(m) => Some(w.(mode := m))
    case Ssid(raw) => var v := WordOf(raw); if v.Some? then Some(w.(ssid := v.value)) else None
    case SetSecurity(s) => Some(w.(security := s))
    case Psk(raw) => var v := WordOf(raw); if v.Some? then Some(w.(psk := v.value)) else None
    case Channel(n) => if 1 <= n <= 196 then Some(w.(channel := n)) else None
    case HwMode(h) => Some(w.(hwMode := h))
    case Country(cc) => if |cc| == 2 then Some(w.(country := ToUpper(cc))) else None
    case HiddenSsid => Some(w.(hidden := true))
  }

  function UpperChar(c: char): char { if IsLowerLetter(c) then c - 'a' + 'A' else c }

  function ToUpper(s: string): string { seq(|s|, i requires 0 <= i < |s| => UpperChar(s[i])) }

  /** setAddr: a first address replaces the primary one, a secondary one is appended. */
  function SetAddress(l: seq<Prefix>, p: Prefix, secondary: bool): Option<seq<Prefix>> {
    if secondary then
      if l == [] then None else Some(if p in l then l else l + [p])
    else
      var left := Remove(l, p);
      Some(if left == [] then [p] else left[0 := p])
  }

  /** A command in interface mode; `taken` are the members of other bridges. */
  function EditEntry(n: Name, i: Interface, e: IfEdit, taken: set<Name>): Edited<Interface> {
    match e
    case Description(raw) =>
      var v := Typed(raw);
      if v.None? || ByteLength(v.value) > 240 then Denied else To(i.(description := v.value))
    case Encapsulation(v) => if InterfaceKind(n) != VlanKind then Denied else To(i.(vlan := Some(v)))
    case Member(m) =>
      var members := if i.bridge.Some? then i.bridge.value else [];
      if InterfaceKind(n) != BridgeKind || m in taken then Denied
      else if m in members then Kept
      else To(i.(bridge := Some(members + [m])))
    case Mtu(m) => if 576 <= m <= 9216 then To(i.(mtu := m)) else Denied
    case Media(raw) =>
      var v := Typed(raw);
      if v.None? then Denied else To(i.(media := v.value))
    case Dhcp => To(i.(dhcp := true, ipv4 := []))
    case Address4(p, secondary) =>
      var l := SetAddress(i.ipv4, p, secondary);
      if (p.bits < 31 && p.Masked().addr == p.addr) || l.None? then Denied else To(i.(dhcp := false, ipv4 := l.value))
    case Address6(p) => if p in i.ipv6 then Kept else To(i.(ipv6 := i.ipv6 + [p]))
    case Group(acl, out) =>
      if NamesDirection(acl) then Denied else To(if out then i.(groupOut := acl) else i.(groupIn := acl))
    case Shutdown => To(i.(shutdown := true))
    case _ =>
      var w := EditWireless(if i.wireless.Some? then i.wireless.value else STATION, e);
      if InterfaceKind(n) !in {Physical, Wlan} || w.None? then Denied else To(i.(wireless := w))
  }

  /** A reservation replaces one of the same name, and must not clash with another. */
  function AddHost(hosts: seq<DhcpHost>, h: DhcpHost): Option<seq<DhcpHost>> {
    var left := DropName(hosts, h.name);
    if exists x :: x in left && (x.mac == h.mac || x.address == h.address) then None else Some(left + [h])
  }

  function DropName(hosts: seq<DhcpHost>, name: string): seq<DhcpHost> {
    if hosts == [] then [] else (if hosts[0].name == name then [] else [hosts[0]]) + DropName(hosts[1..], name)
  }

  function EditPool(p: Pool, e: PoolEdit): Edited<Pool> {
    match e
    case Network(net) => To(p.(network := Some(net.Masked())))
    case Range(a, b) => To(p.(rangeStart := Some(a), rangeEnd := Some(b)))
    case DefaultRouter(l) => To(p.(routers := l))
    case DnsServer(l) => To(p.(dns := l))
    case DomainOf(raw) => var v := WordOf(raw); if v.None? then Denied else To(p.(domain := v.value))
    case Lease(d, h, m) =>
      var s := d * 86400 + h * 3600 + m * 60;
      if !(0 <= d <= 365 && 0 <= h <= 23 && 0 <= m <= 59) || s < 60 then Denied else To(p.(lease := s))
    case Host(h) => var l := AddHost(p.hosts, h); if l.None? then Denied else To(p.(hosts := l.value))
  }

  /** A port that is forwarded already, or the same translation again. */
  predicate Clashes(x: NatRule, r: NatRule) {
    x.Static? && r.Static? && x.outside == r.outside && x.protocol == r.protocol && x.publicPort == r.publicPort
  }

  function EditNat(l: seq<NatRule>, r: NatRule): Edited<seq<NatRule>> {
    if r.Overload? then
      if r.source.addr.family != V4 || r.source.Masked() != r.source then Denied
      else if r in l then Kept else To(l + [r])
    else if exists x :: x in l && Clashes(x, r) then Denied
    else To(l + [r])
  }

  function EntryOf(c: Config, n: Name): Interface { if n in c.interfaces then c.interfaces[n] else EMPTY_INTERFACE }

  function PoolOf(c: Config, n: string): Pool { if n in c.pools then c.pools[n] else EMPTY_POOL }

  function EntriesOf(c: Config, n: string): seq<Ace> { if n in c.acls then c.acls[n] else [] }

  function Taken(c: Config, n: Name): set<Name> { set l | l in Agreement.LinksOf(c) && l.0 != n :: l.1 }

  /** An entry of an access list: a rule with a number that is not taken. */
  function AddEntry(mode: CliMode, n: int, permit: bool, rule: seq<AceText.Token>, c: Config): Manager.Mutation {
    if !mode.InAcl? then Manager.Refused
    else
      var (e, l) := (AceText.ReadRule(permit, rule), EntriesOf(c, mode.n));
      if e.None? || !(1 <= n <= 2147483647) || exists x :: x in l && x.seqNo == n then Manager.Refused
      else Manager.Next(c.(acls := c.acls[mode.n := l + [e.value.(seqNo := n)]]))
  }

  /** changeIf. */
  function ChangeInterface(mode: CliMode, e: IfEdit, c: Config): Manager.Mutation {
    if !mode.InInterface? then Manager.Refused
    else
      match EditEntry(mode.n, EntryOf(c, mode.n), e, Taken(c, mode.n))
      case Denied => Manager.Refused
      case Kept => Manager.NoChange
      case To(i) => Manager.Next(c.(interfaces := c.interfaces[mode.n := i]))
  }

  /** changePool. */
  function ChangePool(mode: CliMode, e: PoolEdit, c: Config): Manager.Mutation {
    if !mode.InDhcpPool? then Manager.Refused
    else
      match EditPool(PoolOf(c, mode.n), e)
      case Denied => Manager.Refused
      case Kept => Manager.NoChange
      case To(p) => Manager.Next(c.(pools := c.pools[mode.n := p]))
  }

  predicate IsGlobal(cmd: Command) { !cmd.Entry? && !cmd.If? && !cmd.InPool? }

  /** The command tree accepts the arguments of the line, so that it reaches the action of the command. */
  predicate Understood(cmd: Command) {
    match cmd
    case Hostname(h) => h != ""
    case DomainName(d) => d != ""
    case NameServer(l) => l != []
    case EnableSecret(raw) => Secret(raw).Some?
    case Username(u, raw) => ValidName(u) && Secret(raw).Some?
    case Banner(raw) => Typed(raw).Some?
    case Acl(n) => ValidName(n)
    case Iface(n) => ValidInterfaceName(n)
    case DhcpPool(n) => ValidName(n)
    case AddRoute(r) => r.nextHop.Gateway? ==> r.nextHop.addr.family == r.prefix.addr.family
    case AddNat(r) =>
      && ValidInterfaceName(r.outside)
      && (r.Overload? ==> r.source.addr.family == V4)
      && (r.Static? ==> r.localAddr.family == V4 && 1 <= r.localPort <= 65535 && 1 <= r.publicPort <= 65535)
    case HttpPort(n) => 1 <= n <= 65535
    case _ => true
  }

  function ChangeGlobal(cmd: Command, c: Config): Manager.Mutation
    requires IsGlobal(cmd)
  {
    match cmd
    case Hostname(h) => Manager.Next(c.(hostname := h))
    case DomainName(d) => Manager.Next(c.(domain := d))
    case NameServer(l) =>
      var servers := AppendNew(c.nameServers, l);
      if |servers| > 6 then Manager.Refused else Manager.Next(c.(nameServers := servers))
    case IpRouting => Manager.Next(c.(ipRouting := true))
    case Ipv6Routing => Manager.Next(c.(ipv6Routing := true))
    case EnableSecret(raw) =>
      var v := Secret(raw);
      if v.None? then Manager.Refused else Manager.Next(c.(enableSecret := v.value))
    case Username(u, raw) =>
      var v := Secret(raw);
      if v.None? then Manager.Refused else Manager.Next(c.(users := c.users[u := v.value]))
    case Banner(raw) =>
      var v := Typed(raw);
      if v.None? then Manager.Refused else Manager.Next(c.(banner := StripDelimiters(v.value)))
    case Acl(n) => if n in c.acls then Manager.NoChange else Manager.Next(c.(acls := c.acls[n := []]))
    case Iface(n) =>
      if InterfaceKind(n) == Loopback then Manager.Refused
      else if IsCloned(n) || n in c.interfaces then Manager.NoChange
      else Manager.Next(c.(interfaces := c.interfaces[n := EMPTY_INTERFACE]))
    case AddRoute(r) =>
      if r.prefix.Masked() != r.prefix then Manager.Refused
      else if r in c.routes then Manager.NoChange
      else Manager.Next(c.(routes := c.routes + [r]))
    case AddNat(r) =>
      (match EditNat(c.natRules, r)
       case Denied => Manager.Refused
       case Kept => Manager.NoChange
       case To(l) => Manager.Next(c.(natRules := l)))
    case DhcpPool(_) => Manager.NoChange
    case HttpServer => Manager.Next(c.(web := c.web.(enabled := true, tls := false)))
    case HttpsServer => Manager.Next(c.(web := c.web.(enabled := true, tls := true)))
    case HttpPort(n) => if 1 <= n <= 65535 then Manager.Next(c.(web := c.web.(port := n))) else Manager.Refused
    case HttpBind(a) => Manager.Next(c.(web := c.web.(bind := Some(a))))
    case End => Manager.NoChange
  }

  /** The change that a command asks the manager for. */
  function Mutate(mode: CliMode, cmd: Command, c: Config): Manager.Mutation {
    if mode == Privileged || !Understood(cmd) then Manager.Refused
    else match cmd
    case Entry(n, permit, rule) => AddEntry(mode, n, permit, rule, c)
    case If(e) => ChangeInterface(mode, e, c)
    case InPool(e) => ChangePool(mode, e, c)
    case _ => ChangeGlobal(cmd, c)
  }

  /** Commands of a sub-mode stay in it; global commands are accepted everywhere and leave it. */
  function ModeAfter(mode: CliMode, cmd: Command): CliMode {
    match cmd
    case Acl(n) => InAcl(n)
    case Iface(n) => InInterface(n)
    case DhcpPool(n) => InDhcpPool(n)
    case Entry(_, _, _) => mode
    case If(_) => mode
    case InPool(_) => mode
    case End => Privileged
    case _ => Global
  }

  /** A global command typed in a sub-mode leaves it before it is carried out, even if it is then refused. */
  function ModeBefore(mode: CliMode, cmd: Command): CliMode {
    if mode !in {Privileged, Global} && IsGlobal(cmd) && Understood(cmd) && !cmd.End? then Global else mode
  }

  datatype State = State(cfg: Config, mode: CliMode)

  /** A command while applying never fails: refused changes leave everything as it was. */
  ghost function Exec(s: State, cmd: Command): Option<State> {
    match Mutate(s.mode, cmd, s.cfg)
    case Refused => None
    case NoChange => Some(State(s.cfg, ModeAfter(s.mode, cmd)))
    case Next(c) => if Valid(Normalize(c)) then Some(State(Normalize(c), ModeAfter(s.mode, cmd))) else None
  }

  /** All commands in turn, if every one is accepted. */
  ghost function ExecAll(s: State, cmds: seq<Command>): Option<State>
    decreases |cmds|
  {
    if cmds == [] then Some(s)
    else
      var t := Exec(s, cmds[0]);
      if t.None? then None else ExecAll(t.value, cmds[1..])
  }

  lemma {:induction false} ExecConcat(s: State, a: seq<Command>, b: seq<Command>)
    ensures ExecAll(s, a + b) == var t := ExecAll(s, a); if t.None? then None else ExecAll(t.value, b)
    decreases |a|
  {
    if a == [] {
      assert a + b == b;
    } else {
      assert (a + b)[1..] == a[1..] + b;
      var t := Exec(s, a[0]);
      if t.Some? { ExecConcat(t.value, a[1..], b); }
    }
  }

  // ----- the session

  /** A command-line session in configuration mode. */
  class Session {
    const mgr: Manager.Manager
    var mode: CliMode

    constructor (mgr: Manager.Manager)
      ensures this.mgr == mgr && mode == Global
    {
      this.mgr, mode := mgr, Global;
    }

    /** dispatch: one command goes through the manager. It does what `Exec` says, unless applying or
        recording the change fails. */
    method Execute(cmd: Command) returns (ok: bool, ghost outcome: Manager.Outcome)
      modifies this, mgr, mgr.step
      ensures !ok ==> mode == ModeBefore(old(mode), cmd)
      ensures ok <==> outcome.Done? || outcome.Unchanged?
      ensures var s := State(Manager.RunningOf(old(mgr.Now())), old(mode));
        && (ok ==> Exec(s, cmd) == Some(State(Manager.RunningOf(mgr.Now()), mode)))
        && (Exec(s, cmd).None? <==> Denies(outcome))
        && (Denies(outcome) ==> mgr.Now() == old(mgr.Now()))
    {
      hide Valid, Normalize, Mutate, Understood, Manager.Describes, Manager.Undoable;
      var current := mode;
      mode := ModeBefore(current, cmd);
      var result := mgr.Change(c => Mutate(current, cmd, c));
      outcome := result;
      ok := result.Done? || result.Unchanged?;
      if ok { mode := ModeAfter(current, cmd); }
    }

    /** Script: commands one after another, whether or not one is accepted. `ok` says that all
        are, `outcome` how the first that is not ends. */
    method ExecuteAll(cmds: seq<Command>) returns (ok: bool, ghost outcome: Manager.Outcome)
      modifies this, mgr, mgr.step
      ensures var s := State(Manager.RunningOf(old(mgr.Now())), old(mode));
        && (ok ==> ExecAll(s, cmds) == Some(State(Manager.RunningOf(mgr.Now()), mode)))
        && (!ok && Denies(outcome) ==> ExecAll(s, cmds).None?)
    {
      hide Exec;
      ghost var s := State(Manager.RunningOf(mgr.Now()), mode);
      ok, outcome := true, Manager.Done;
      for k := 0 to |cmds|
        invariant ok ==> ExecAll(s, cmds[..k]) == Some(State(Manager.RunningOf(mgr.Now()), mode))
        invariant !ok && Denies(outcome) ==> ExecAll(s, cmds).None?
      {
        if ok { ExecSplit(s, cmds, k); }
        ghost var how;
        var accepted;
        accepted, how := Execute(cmds[k]);
        if ok && !accepted { ok, outcome := false, how; }
      }
      assert cmds[..|cmds|] == cmds;
    }
  }

  /** The command asked for something that is refused, whatever the system does. */
  predicate Denies(outcome: Manager.Outcome) { outcome.Rejected? || outcome.Failed? }

  /** One more command, and what its refusal means for all of them. */
  lemma ExecSplit(s: State, cmds: seq<Command>, k: nat)
    requires k < |cmds| && ExecAll(s, cmds[..k]).Some?
    ensures ExecAll(s, cmds[..k + 1]) == Exec(ExecAll(s, cmds[..k]).value, cmds[k])
    ensures Exec(ExecAll(s, cmds[..k]).value, cmds[k]).None? ==> ExecAll(s, cmds).None?
  {
    hide Exec, ExecAll;
    assert cmds[..k + 1] == cmds[..k] + [cmds[k]] && cmds == cmds[..k + 1] + cmds[k + 1..];
    ExecConcat(s, cmds[..k], [cmds[k]]);
    ExecOne(ExecAll(s, cmds[..k]).value, cmds[k]);
    ExecConcat(s, cmds[..k + 1], cmds[k + 1..]);
  }

  lemma ExecOne(s: State, cmd: Command)
    ensures ExecAll(s, [cmd]) == Exec(s, cmd)
  {
    hide Exec;
    var t := Exec(s, cmd);
    assert [cmd][1..] == [];
    if t.Some? { assert ExecAll(t.value, []) == t; }
  }
}
