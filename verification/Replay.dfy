/** Feeding the printed text of a configuration back into the command line: exactly when
    that recreates the configuration (netcli/internal/cli/text.go). Each part of the text is
    followed from the parts before it to itself, and the parts are chained together. */
module Replay {
  import opened Basics
  import opened Addresses
  import opened Config
  import opened Commands
  import opened ConfigText
  import opened ReplayInterface
  import opened ReplaySections
  import Agreement
  import Manager
  import Typing

  // ----- configurations part by part

  /** Two configurations agree in one part. */
  predicate SameSlot(s: Slot, a: Config, b: Config) {
    match s
    case HostnameSlot => a.hostname == b.hostname
    case DomainSlot => a.domain == b.domain
    case ServersSlot => a.nameServers == b.nameServers
    case Routing4Slot => a.ipRouting == b.ipRouting
    case Routing6Slot => a.ipv6Routing == b.ipv6Routing
    case SecretSlot => a.enableSecret == b.enableSecret
    case UserSlot(n) => (n in a.users <==> n in b.users) && (n in a.users ==> a.users[n] == b.users[n])
    case BannerSlot => a.banner == b.banner
    case AclSlot(n) => (n in a.acls <==> n in b.acls) && (n in a.acls ==> a.acls[n] == b.acls[n])
    case InterfaceSlot(n) =>
      (n in a.interfaces <==> n in b.interfaces) && (n in a.interfaces ==> a.interfaces[n] == b.interfaces[n])
    case RoutesSlot => a.routes == b.routes
    case NatSlot => a.natRules == b.natRules
    case PoolSlot(n) => (n in a.pools <==> n in b.pools) && (n in a.pools ==> a.pools[n] == b.pools[n])
    case WebSlot => a.web == b.web
  }

  /** The parts of `c` that are `done`, and nothing else. */
  ghost function Part(c: Config, done: set<Slot>): Config {
    Config(
      if HostnameSlot in done then c.hostname else NEW.hostname,
      if DomainSlot in done then c.domain else NEW.domain,
      if ServersSlot in done then c.nameServers else NEW.nameServers,
      if BannerSlot in done then c.banner else NEW.banner,
      if Routing4Slot in done then c.ipRouting else NEW.ipRouting,
      if Routing6Slot in done then c.ipv6Routing else NEW.ipv6Routing,
      if SecretSlot in done then c.enableSecret else NEW.enableSecret,
      map n | n in c.users && UserSlot(n) in done :: c.users[n],
      map n | n in c.interfaces && InterfaceSlot(n) in done :: c.interfaces[n],
      if RoutesSlot in done then c.routes else NEW.routes,
      map n | n in c.acls && AclSlot(n) in done :: c.acls[n],
      if NatSlot in done then c.natRules else NEW.natRules,
      map n | n in c.pools && PoolSlot(n) in done :: c.pools[n],
      if WebSlot in done then c.web else NEW.web)
  }

  lemma AllSame(a: Config, b: Config)
    requires forall s :: SameSlot(s, a, b)
    ensures a == b
  {
    assert SameSlot(HostnameSlot, a, b) && SameSlot(DomainSlot, a, b) && SameSlot(ServersSlot, a, b);
    assert SameSlot(Routing4Slot, a, b) && SameSlot(Routing6Slot, a, b) && SameSlot(SecretSlot, a, b);
    assert SameSlot(BannerSlot, a, b) && SameSlot(RoutesSlot, a, b) && SameSlot(NatSlot, a, b) && SameSlot(WebSlot, a, b);
    assert a.users == b.users by {
      forall n ensures (n in a.users <==> n in b.users) && (n in a.users ==> a.users[n] == b.users[n]) {
        assert SameSlot(UserSlot(n), a, b);
      }
    }
    assert a.acls == b.acls by {
      forall n ensures (n in a.acls <==> n in b.acls) && (n in a.acls ==> a.acls[n] == b.acls[n]) {
        assert SameSlot(AclSlot(n), a, b);
      }
    }
    assert a.interfaces == b.interfaces by {
      forall n ensures (n in a.interfaces <==> n in b.interfaces) && (n in a.interfaces ==> a.interfaces[n] == b.interfaces[n]) {
        assert SameSlot(InterfaceSlot(n), a, b);
      }
    }
    assert a.pools == b.pools by {
      forall n ensures (n in a.pools <==> n in b.pools) && (n in a.pools ==> a.pools[n] == b.pools[n]) {
        assert SameSlot(PoolSlot(n), a, b);
      }
    }
  }

  lemma PartSame(c: Config, done: set<Slot>, s: Slot)
    requires Has(c, s) ==> s in done
    ensures SameSlot(s, Part(c, done), c)
  {
  }

  lemma PartStep(c: Config, done: set<Slot>, s: Slot, r: Slot)
    requires r != s
    ensures SameSlot(r, Part(c, done + {s}), Part(c, done))
  {
  }

  lemma SameTransitive(s: Slot, a: Config, b: Config, d: Config)
    requires SameSlot(s, a, b) && SameSlot(s, b, d)
    ensures SameSlot(s, a, d)
  {
  }

  lemma PartEnds(c: Config, slots: seq<Slot>)
    requires forall s :: s in slots <==> Has(c, s)
    ensures Part(c, ToSet(slots)) == c && Part(c, {}) == NEW
  {
    hide SameSlot;
    forall s ensures SameSlot(s, Part(c, ToSet(slots)), c) { PartSame(c, ToSet(slots), s); }
    AllSame(Part(c, ToSet(slots)), c);
  }

  /** When only part `s` changed, the next part of `c` is reached exactly when `s` came back. */
  lemma PartNext(c: Config, done: set<Slot>, s: Slot, t: Config)
    requires Has(c, s) && forall r :: r != s ==> SameSlot(r, t, Part(c, done))
    ensures t == Part(c, done + {s}) <==> SameSlot(s, t, c)
  {
    hide SameSlot, Part;
    PartSame(c, done + {s}, s);
    if SameSlot(s, t, c) {
      forall r ensures SameSlot(r, t, Part(c, done + {s})) {
        if r == s { SameSymmetric(s, Part(c, done + {s}), c); SameTransitive(s, t, c, Part(c, done + {s})); }
        else { PartStep(c, done, s, r); SameSymmetric(r, Part(c, done + {s}), Part(c, done)); SameTransitive(r, t, Part(c, done), Part(c, done + {s})); }
      }
      AllSame(t, Part(c, done + {s}));
    }
  }

  lemma SameSymmetric(s: Slot, a: Config, b: Config)
    requires SameSlot(s, a, b)
    ensures SameSlot(s, b, a)
  {
  }

  // ----- which part a command changes

  function Touches(mode: CliMode, cmd: Command): Slot {
    match cmd
    case Hostname(_) => HostnameSlot
    case DomainName(_) => DomainSlot
    case NameServer(_) => ServersSlot
    case IpRouting => Routing4Slot
    case Ipv6Routing => Routing6Slot
    case EnableSecret(_) => SecretSlot
    case Username(n, _) => UserSlot(n)
    case Banner(_) => BannerSlot
    case Acl(n) => AclSlot(n)
    case Entry(_, _, _) => if mode.InAcl? then AclSlot(mode.n) else WebSlot
    case Iface(n) => InterfaceSlot(n)
    case If(_) => if mode.InInterface? then InterfaceSlot(mode.n) else WebSlot
    case AddRoute(_) => RoutesSlot
    case AddNat(_) => NatSlot
    case DhcpPool(n) => PoolSlot(n)
    case InPool(_) => if mode.InDhcpPool? then PoolSlot(mode.n) else WebSlot
    case _ => WebSlot
  }

  lemma GlobalTouches(mode: CliMode, cmd: Command, c: Config, s: Slot)
    requires IsGlobal(cmd) && ChangeGlobal(cmd, c).Next? && s != Touches(mode, cmd)
    ensures SameSlot(s, ChangeGlobal(cmd, c).config, c)
  {
    hide EditNat, Typed, Secret, AppendNew, StripDelimiters, InterfaceKind;
  }

  lemma EntryTouches(mode: CliMode, cmd: Command, c: Config, s: Slot)
    requires cmd.Entry? && s != Touches(mode, cmd)
    ensures var m := AddEntry(mode, cmd.seqNo, cmd.permit, cmd.rule, c); m.Next? ==> SameSlot(s, m.config, c)
  {
    hide ReplaySections.AceText.ReadRule;
  }

  lemma InterfaceTouches(mode: CliMode, cmd: Command, c: Config, s: Slot)
    requires cmd.If? && s != Touches(mode, cmd)
    ensures var m := ChangeInterface(mode, cmd.edit, c); m.Next? ==> SameSlot(s, m.config, c)
  {
    hide EditEntry, Taken;
  }

  lemma PoolTouches(mode: CliMode, cmd: Command, c: Config, s: Slot)
    requires cmd.InPool? && s != Touches(mode, cmd)
    ensures var m := ChangePool(mode, cmd.change, c); m.Next? ==> SameSlot(s, m.config, c)
  {
    hide EditPool;
  }

  lemma MutateTouches(mode: CliMode, cmd: Command, c: Config, s: Slot)
    requires Mutate(mode, cmd, c).Next? && s != Touches(mode, cmd)
    ensures SameSlot(s, Mutate(mode, cmd, c).config, c)
  {
    hide SameSlot, ChangeGlobal, AddEntry, ChangeInterface, ChangePool, Touches;
    Dispatch(mode, cmd, c);
    if cmd.Entry? { EntryTouches(mode, cmd, c, s); }
    else if cmd.If? { InterfaceTouches(mode, cmd, c, s); }
    else if cmd.InPool? { PoolTouches(mode, cmd, c, s); }
    else { GlobalTouches(mode, cmd, c, s); }
  }

  lemma NormalizeKeeps(c: Config, base: Config, s: Slot)
    requires SameSlot(s, c, base) && Normalized(base)
    ensures SameSlot(s, Normalize(c), base)
  {
    if s.AclSlot? && s.n in c.acls { SortedIsFixed(c.acls[s.n]); }
  }

  lemma ExecTouches(s: State, cmd: Command, r: Slot)
    requires Normalized(s.cfg) && Valid(s.cfg) && Exec(s, cmd).Some?
    ensures r != Touches(s.mode, cmd) ==> SameSlot(r, Exec(s, cmd).value.cfg, s.cfg)
    ensures Normalized(Exec(s, cmd).value.cfg) && Valid(Exec(s, cmd).value.cfg)
  {
    hide Mutate, Valid, Normalized, Normalize, SameSlot, Touches;
    SameReflexive(r, s.cfg);
    var m := Mutate(s.mode, cmd, s.cfg);
    if m.Next? {
      NormalizeNormalizes(m.config);
      if r != Touches(s.mode, cmd) {
        MutateTouches(s.mode, cmd, s.cfg, r);
        NormalizeKeeps(m.config, s.cfg, r);
      }
    }
  }

  lemma SameReflexive(s: Slot, a: Config)
    ensures SameSlot(s, a, a)
  {
  }

  /** All commands change the same part, in the modes in which they run. */
  predicate StaysOn(s: Slot, mode: CliMode, cmds: seq<Command>)
    decreases |cmds|
  {
    cmds == [] || (Touches(mode, cmds[0]) == s && StaysOn(s, ModeAfter(mode, cmds[0]), cmds[1..]))
  }

  /** Commands that stay on one part leave the others alone, and the configuration valid. */
  lemma {:induction false} RunTouches(st: State, cmds: seq<Command>, s: Slot)
    requires StaysOn(s, st.mode, cmds) && Normalized(st.cfg) && Valid(st.cfg) && ExecAll(st, cmds).Some?
    ensures var t := ExecAll(st, cmds).value;
      Normalized(t.cfg) && Valid(t.cfg) && forall r :: r != s ==> SameSlot(r, t.cfg, st.cfg)
    decreases |cmds|
  {
    hide Exec, Valid, Normalized, SameSlot, Touches;
    if cmds == [] {
      forall r ensures SameSlot(r, st.cfg, st.cfg) { SameReflexive(r, st.cfg); }
    } else {
      ModeIs(st, cmds[0]);
      var u := Exec(st, cmds[0]).value;
      ExecTouches(st, cmds[0], s);
      RunTouches(u, cmds[1..], s);
      var t := ExecAll(st, cmds).value;
      forall r | r != s ensures SameSlot(r, t.cfg, st.cfg) {
        ExecTouches(st, cmds[0], r);
        SameTransitive(r, t.cfg, u.cfg, st.cfg);
      }
    }
  }

  lemma ModeIs(s: State, cmd: Command)
    ensures Exec(s, cmd).Some? ==> Exec(s, cmd).value.mode == ModeAfter(s.mode, cmd)
  {
    hide Mutate, Valid, Normalize;
  }

  lemma {:induction false} IfStays(n: Name, es: seq<IfEdit>)
    ensures StaysOn(InterfaceSlot(n), InInterface(n), InInterfaceMode(es))
    decreases |es|
  {
    if es != [] {
      assert InInterfaceMode(es)[1..] == InInterfaceMode(es[1..]);
      IfStays(n, es[1..]);
    }
  }

  lemma {:induction false} PoolStays(n: string, es: seq<PoolEdit>)
    ensures StaysOn(PoolSlot(n), InDhcpPool(n), InPoolMode(es))
    decreases |es|
  {
    if es != [] {
      assert InPoolMode(es)[1..] == InPoolMode(es[1..]);
      PoolStays(n, es[1..]);
    }
  }

  lemma {:induction false} EntriesStay(n: string, l: seq<Ace>)
    ensures StaysOn(AclSlot(n), InAcl(n), EntryLines(l))
    decreases |l|
  {
    hide ReplaySections.AceText.RuleTokens;
    if l != [] {
      RereadCons(l);
      EntriesStay(n, l[1..]);
    }
  }

  lemma {:induction false} RoutesStay(mode: CliMode, l: seq<Route>)
    ensures StaysOn(RoutesSlot, mode, RouteLines(l))
    decreases |l|
  {
    if l != [] {
      assert RouteLines(l)[1..] == RouteLines(l[1..]);
      RoutesStay(Global, l[1..]);
    }
  }

  lemma {:induction false} NatStays(mode: CliMode, l: seq<NatRule>)
    ensures StaysOn(NatSlot, mode, NatLines(l))
    decreases |l|
  {
    if l != [] {
      assert NatLines(l)[1..] == NatLines(l[1..]);
      NatStays(Global, l[1..]);
    }
  }

  lemma SlotStays(c: Config, s: Slot, mode: CliMode)
    requires Has(c, s)
    ensures StaysOn(s, mode, SlotLines(c, s))
  {
    hide EntryLines, InInterfaceMode, InPoolMode, EditsFrom, PoolEditsFrom, RouteLines, NatLines;
    match s {
      case AclSlot(n) =>
        EntriesStay(n, c.acls[n]);
        assert SlotLines(c, s)[1..] == EntryLines(c.acls[n]);
      case InterfaceSlot(n) =>
        IfStays(n, EditsFrom(c.interfaces[n], 0));
        assert SlotLines(c, s)[1..] == InInterfaceMode(EditsFrom(c.interfaces[n], 0));
      case PoolSlot(n) =>
        PoolStays(n, PoolEditsFrom(c.pools[n], 0));
        assert SlotLines(c, s)[1..] == InPoolMode(PoolEditsFrom(c.pools[n], 0));
      case RoutesSlot => RoutesStay(mode, c.routes);
      case NatSlot => NatStays(mode, c.natRules);
      case WebSlot => WebStays(mode, c.web);
      case _ =>
    }
  }

  lemma WebStays(mode: CliMode, w: Web)
    ensures StaysOn(WebSlot, mode, WebLines(w))
  {
    HttpStays(mode, WebLines(w));
  }

  lemma {:induction false} HttpStays(mode: CliMode, l: seq<Command>)
    requires forall cmd :: cmd in l ==> cmd.HttpServer? || cmd.HttpsServer? || cmd.HttpPort? || cmd.HttpBind?
    ensures StaysOn(WebSlot, mode, l)
    decreases |l|
  {
    if l != [] {
      assert l[0] in l && forall cmd :: cmd in l[1..] ==> cmd in l;
      HttpStays(Global, l[1..]);
    }
  }

  // ----- exactly when each part comes back

  function DoneNames(done: set<Slot>): set<Name> { set s | s in done && s.InterfaceSlot? :: s.n }

  ghost predicate SlotReplays(c: Config, done: set<Slot>, s: Slot)
    requires Has(c, s)
  {
    match s
    case HostnameSlot => c.hostname != ""
    case ServersSlot => Distinct(c.nameServers) && |c.nameServers| <= 6
    case SecretSlot => c.enableSecret == "" || Typing.PlainSecret(c.enableSecret)
    case UserSlot(n) => Typing.PlainSecret(c.users[n])
    case BannerSlot => c.banner == "" || (Typing.PlainText(c.banner) && !Delimited(c.banner))
    case AclSlot(n) => forall e :: e in c.acls[n] ==> EntryReplays(e)
    case InterfaceSlot(n) =>
      InterfaceReplays(n, c.interfaces[n], DoneNames(done) + {n}, Taken(Part(c, done), n))
    case RoutesSlot => Distinct(c.routes)
    case NatSlot => NatReplays(c.natRules)
    case PoolSlot(n) => PoolReplays(c.pools[n])
    case WebSlot => c.web.tls ==> c.web.enabled
    case _ => true
  }

  /** Where the commands of part `s` start: the earlier parts of `c` are there. */
  ghost predicate Starts(c: Config, done: set<Slot>, s: Slot, st: State) {
    && Valid(c) && Normalized(c) && Has(c, s) && s !in done && st.mode != Privileged
    && st.cfg == Part(c, done) && Valid(st.cfg) && Normalized(st.cfg)
    && (forall r :: Has(c, r) && Rank(r) < Rank(s) ==> r in done)
    && (forall r :: r in done ==> Has(c, r) && Rank(r) <= Rank(s))
  }

  /** Part `s` comes back: its commands are accepted and put it in place. */
  ghost predicate Returns(c: Config, s: Slot, st: State)
    requires Has(c, s)
  {
    var t := ExecAll(st, SlotLines(c, s));
    t.Some? && SameSlot(s, t.value.cfg, c)
  }

  lemma FromGlobal(st: State, cmds: seq<Command>)
    requires cmds != [] && IsGlobal(cmds[0]) && st.mode != Privileged
    ensures ExecAll(st, cmds) == ExecAll(State(st.cfg, Global), cmds)
  {
    hide ChangeGlobal, Valid, Normalize, Understood, Mutate;
    Dispatch(st.mode, cmds[0], st.cfg);
    Dispatch(Global, cmds[0], st.cfg);
  }

  /** A setting that only the global checks concern. */
  lemma PutGlobals(c: Config, d: Config)
    requires Valid(c) && Normalized(c)
    requires d == c.(hostname := d.hostname, domain := d.domain, nameServers := d.nameServers, banner := d.banner,
                     ipRouting := d.ipRouting, ipv6Routing := d.ipv6Routing, enableSecret := d.enableSecret,
                     users := d.users, web := d.web)
    ensures (Valid(d) <==> ValidGlobals(d)) && Normalized(d)
  {
    hide ValidGlobals, ValidInterface, ValidRoute, ValidName, ValidEntries, ValidNat, ValidPool, InterfaceKind;
  }

  lemma RunGlobal(st: State, cmd: Command, d: Config)
    requires Valid(st.cfg) && Normalized(st.cfg) && st.mode != Privileged && IsGlobal(cmd)
    requires Understood(cmd) && ChangeGlobal(cmd, st.cfg) == Manager.Next(d) && Normalized(d) && Valid(d)
    ensures ExecAll(st, [cmd]) == Some(State(d, ModeAfter(st.mode, cmd)))
  {
    hide ChangeGlobal, Valid, Normalized, Mutate, Understood;
    Dispatch(st.mode, cmd, st.cfg);
    ExecNext(st, cmd, d);
    ExecOne(st, cmd);
  }

  lemma RefusedGlobal(st: State, cmd: Command)
    requires st.mode != Privileged && IsGlobal(cmd) && ChangeGlobal(cmd, st.cfg).Refused?
    ensures ExecAll(st, [cmd]) == None
  {
    hide ChangeGlobal, Valid, Normalized, Mutate, Understood;
    Dispatch(st.mode, cmd, st.cfg);
    ExecOne(st, cmd);
  }

  /** Host name, domain and forwarding. */
  lemma PlainExact(c: Config, done: set<Slot>, s: Slot, st: State)
    requires Starts(c, done, s, st) && s in {HostnameSlot, DomainSlot, Routing4Slot, Routing6Slot}
    ensures Returns(c, s, st) <==> SlotReplays(c, done, s)
  {
    hide Valid, Normalized, ValidHostname, ValidDomain, ValidName, Typing.PlainText, Typing.PlainSecret, NatReplays;
    hide PoolReplays, InterfaceReplays, EntryReplays, EntryLines, RouteLines, NatLines, WebLines;
    var cmds := SlotLines(c, s);
    if cmds != [] {
      var d := match s
        case HostnameSlot => st.cfg.(hostname := c.hostname)
        case DomainSlot => st.cfg.(domain := c.domain)
        case Routing4Slot => st.cfg.(ipRouting := true)
        case _ => st.cfg.(ipv6Routing := true);
      GlobalsOf(c, done);
      PutGlobals(st.cfg, d);
      RunGlobal(st, cmds[0], d);
    }
  }

  lemma GlobalsOf(c: Config, done: set<Slot>)
    requires Valid(c)
    ensures ValidGlobals(c) && ValidGlobals(Part(c, done))
  {
  }

  lemma ServersExact(c: Config, done: set<Slot>, st: State)
    requires Starts(c, done, ServersSlot, st)
    ensures Returns(c, ServersSlot, st) <==> SlotReplays(c, done, ServersSlot)
  {
    hide Valid, Normalized, ValidHostname, ValidDomain, ValidName, AppendNew;
    var l := c.nameServers;
    if l != [] {
      AppendNewExact([], l);
      AppendNewSize([], l);
      assert [] + l == l;
      var d := st.cfg.(nameServers := AppendNew([], l));
      GlobalsOf(c, done);
      PutGlobals(st.cfg, d);
      if |AppendNew([], l)| > 6 { RefusedGlobal(st, NameServer(l)); } else { RunGlobal(st, NameServer(l), d); }
    }
  }

  lemma SecretExact(c: Config, done: set<Slot>, st: State)
    requires Starts(c, done, SecretSlot, st)
    ensures Returns(c, SecretSlot, st) <==> SlotReplays(c, done, SecretSlot)
  {
    hide Valid, Normalized, ValidHostname, ValidDomain, ValidName, Secret, Typing.PlainSecret;
    var raw := c.enableSecret;
    Typing.SecretExact(raw);
    if raw != "" {
      if Secret(raw).None? {
        RefusedGlobal(st, EnableSecret(raw));
      } else {
        var d := st.cfg.(enableSecret := Secret(raw).value);
        GlobalsOf(c, done);
        PutGlobals(st.cfg, d);
        RunGlobal(st, EnableSecret(raw), d);
      }
    }
  }

  lemma UserExact(c: Config, done: set<Slot>, n: string, st: State)
    requires Starts(c, done, UserSlot(n), st)
    ensures Returns(c, UserSlot(n), st) <==> SlotReplays(c, done, UserSlot(n))
  {
    hide Valid, Normalized, ValidHostname, ValidDomain, ValidName, Secret, Typing.PlainSecret;
    var raw := c.users[n];
    Typing.SecretExact(raw);
    if Secret(raw).None? {
      RefusedGlobal(st, Username(n, raw));
    } else {
      var d := st.cfg.(users := st.cfg.users[n := Secret(raw).value]);
      GlobalsOf(c, done);
      PutGlobals(st.cfg, d);
      RunGlobal(st, Username(n, raw), d);
    }
  }

  lemma BannerExact(c: Config, done: set<Slot>, st: State)
    requires Starts(c, done, BannerSlot, st)
    ensures Returns(c, BannerSlot, st) <==> SlotReplays(c, done, BannerSlot)
  {
    hide Valid, Normalized, ValidHostname, ValidDomain, ValidName, Typed, Delimited, Typing.PlainText, StripDelimiters;
    var raw := c.banner;
    Typing.BannerExact(raw);
    if raw != "" {
      if Typed(raw).None? {
        RefusedGlobal(st, Banner(raw));
      } else {
        var d := st.cfg.(banner := StripDelimiters(Typed(raw).value));
        GlobalsOf(c, done);
        PutGlobals(st.cfg, d);
        RunGlobal(st, Banner(raw), d);
      }
    }
  }

  lemma ExecCons(st: State, cmd: Command, cmds: seq<Command>)
    ensures ExecAll(st, [cmd] + cmds) == var t := ExecAll(st, [cmd]); if t.None? then None else ExecAll(t.value, cmds)
  {
    ExecConcat(st, [cmd], cmds);
  }

  // Each of these says what `Starts` and `Returns` come to for one kind of part.

  lemma AboutAcl(c: Config, done: set<Slot>, n: string, st: State)
    requires Starts(c, done, AclSlot(n), st)
    ensures Valid(c) && Normalized(c) && Valid(st.cfg) && Normalized(st.cfg) && st.mode != Privileged && n in c.acls
    ensures n !in st.cfg.acls && SlotLines(c, AclSlot(n)) == [Acl(n)] + EntryLines(c.acls[n])
    ensures SlotReplays(c, done, AclSlot(n)) <==> forall e :: e in c.acls[n] ==> EntryReplays(e)
    ensures forall t: Config :: SameSlot(AclSlot(n), t, c) <==> n in t.acls && t.acls[n] == c.acls[n]
  {
    hide Valid, Normalized, EntryLines, EntryReplays;
  }

  lemma AclExact(c: Config, done: set<Slot>, n: string, st: State)
    requires Starts(c, done, AclSlot(n), st)
    ensures Returns(c, AclSlot(n), st) <==> SlotReplays(c, done, AclSlot(n))
  {
    hide Valid, Normalized, ValidEntries, ValidName, ValidAce, EntryReplays, Reread, EntryLines, AllReread, RereadAll;
    hide Starts, SlotLines, SlotReplays, SameSlot, Part;
    AboutAcl(c, done, n, st);
    var l := c.acls[n];
    AclIsValid(c, n);
    EmptyEntries();
    PutAclValid(st.cfg, n, []);
    var d := st.cfg.(acls := st.cfg.acls[n := []]);
    RunGlobal(st, Acl(n), d);
    ExecCons(st, Acl(n), EntryLines(l));
    EntriesAscend(c, n);
    RunEntries(State(d, InAcl(n)), n, l);
    EntriesExact(l);
    if AllReread(l) { assert [] + RereadAll(l) == RereadAll(l); }
  }

  lemma EmptyEntries()
    ensures ValidEntries([]) && SortedEntries([])
  {
  }

  lemma EntriesAscend(c: Config, n: string)
    requires Valid(c) && Normalized(c) && n in c.acls
    ensures Ascending([], c.acls[n]) && forall e :: e in c.acls[n] ==> ValidAce(e)
  {
    hide ValidAce;
    var l := c.acls[n];
    assert ValidEntries(l) && SortedEntries(l);
    forall i, j | 0 <= i < j < |l| ensures l[i].seqNo < l[j].seqNo { assert l[i].seqNo != l[j].seqNo; }
  }

  lemma DoneKeys(c: Config, done: set<Slot>, s: Slot, st: State)
    requires Starts(c, done, s, st) && s.InterfaceSlot?
    ensures st.cfg.interfaces.Keys == DoneNames(done) && st.cfg.acls.Keys == c.acls.Keys && s.n !in st.cfg.interfaces
  {
    hide Valid, Normalized;
    forall m | m in DoneNames(done) ensures m in st.cfg.interfaces { assert InterfaceSlot(m) in done; }
    forall m | m in c.acls ensures m in st.cfg.acls { assert Has(c, AclSlot(m)) && Rank(AclSlot(m)) < Rank(s); }
  }

  /** "interface NAME" enters the mode, and creates the entry of a piece of hardware. */
  lemma EnterInterface(c: Config, done: set<Slot>, n: Name, st: State)
    requires Starts(c, done, InterfaceSlot(n), st)
    ensures var t := ExecAll(st, [Iface(n)]);
      if InterfaceKind(n) == Loopback then t == None
      else
        var d := if IsCloned(n) then st.cfg else st.cfg.(interfaces := st.cfg.interfaces[n := EMPTY_INTERFACE]);
        t == Some(State(d, InInterface(n))) && Valid(d) && Normalized(d)
  {
    hide Valid, Normalized, ValidInterface, Mutate, Part, DoneNames, InterfaceKind;
    DoneKeys(c, done, InterfaceSlot(n), st);
    NameUnderstood(c, n);
    Dispatch(st.mode, Iface(n), st.cfg);
    ExecOne(st, Iface(n));
    if !IsCloned(n) && InterfaceKind(n) != Loopback {
      var d := st.cfg.(interfaces := st.cfg.interfaces[n := EMPTY_INTERFACE]);
      InterfaceIsValid(c, n);
      EmptyValid(n, c.interfaces[n], c.interfaces.Keys, st.cfg.interfaces.Keys + {n}, c.acls.Keys);
      PutInterfaceValid(st.cfg, n, EMPTY_INTERFACE);
      SameListsNormalized(st.cfg, d);
      ExecNext(st, Iface(n), d);
    }
  }

  lemma NameUnderstood(c: Config, n: Name)
    requires Valid(c) && n in c.interfaces
    ensures Understood(Iface(n))
  {
    InterfaceIsValid(c, n);
  }

  lemma InterfaceIsValid(c: Config, n: Name)
    requires Valid(c) && n in c.interfaces
    ensures ValidInterface(n, c.interfaces[n], c.interfaces.Keys, c.acls.Keys)
  {
  }

  lemma AboutInterface(c: Config, done: set<Slot>, n: Name, st: State)
    requires Starts(c, done, InterfaceSlot(n), st)
    ensures Valid(c) && n in c.interfaces && st.cfg == Part(c, done)
    ensures SlotLines(c, InterfaceSlot(n)) == [Iface(n)] + InInterfaceMode(EditsFrom(c.interfaces[n], 0))
    ensures SlotReplays(c, done, InterfaceSlot(n)) <==>
      InterfaceReplays(n, c.interfaces[n], DoneNames(done) + {n}, Taken(st.cfg, n))
    ensures forall t: Config :: SameSlot(InterfaceSlot(n), t, c) <==> n in t.interfaces && t.interfaces[n] == c.interfaces[n]
  {
    hide Valid, Normalized, Part, Taken, InterfaceReplays, EditsFrom;
  }

  /** The commands of an interface leave the wanted entry exactly when they do so on the entry alone. */
  lemma RunInterface(c: Config, done: set<Slot>, n: Name, st: State, es: seq<IfEdit>, i: Interface)
    requires Starts(c, done, InterfaceSlot(n), st) && InterfaceKind(n) != Loopback
    ensures var t := ExecAll(st, [Iface(n)] + InInterfaceMode(es));
      t.Some? && n in t.value.cfg.interfaces && t.value.cfg.interfaces[n] == i <==>
      IfFold(n, StartEntry(n), es, DoneNames(done) + {n}, c.acls.Keys, Taken(st.cfg, n)) == Some(Some(i))
  {
    hide Valid, Normalized, InInterfaceMode, IfFold, Taken, InterfaceKind, Starts, Part, DoneNames, ExecAll, ValidInterface;
    DoneKeys(c, done, InterfaceSlot(n), st);
    EnterInterface(c, done, n, st);
    ExecCons(st, Iface(n), InInterfaceMode(es));
    var d := ExecAll(st, [Iface(n)]).value.cfg;
    if !IsCloned(n) { PutInterfaceTaken(st.cfg, n, EMPTY_INTERFACE); }
    RunIf(State(d, InInterface(n)), n, es);
    assert d.interfaces.Keys + {n} == DoneNames(done) + {n} && Agreement.Lookup(d, n) == StartEntry(n);
    if !IsCloned(n) { FoldStays(n, StartEntry(n), es, DoneNames(done) + {n}, c.acls.Keys, Taken(st.cfg, n)); }
  }

  lemma InterfaceSlotExact(c: Config, done: set<Slot>, n: Name, st: State)
    requires Starts(c, done, InterfaceSlot(n), st)
    ensures Returns(c, InterfaceSlot(n), st) <==> SlotReplays(c, done, InterfaceSlot(n))
  {
    hide Valid, ValidInterface, InInterfaceMode, EditsFrom, IfFold, FieldReplays, Taken, InterfaceKind;
    hide Starts, SlotLines, SlotReplays, SameSlot, Part, DoneNames, ExecAll;
    AboutInterface(c, done, n, st);
    InterfaceIsValid(c, n);
    if InterfaceKind(n) == Loopback {
      EnterInterface(c, done, n, st);
      ExecCons(st, Iface(n), InInterfaceMode(EditsFrom(c.interfaces[n], 0)));
    } else {
      RunInterface(c, done, n, st, EditsFrom(c.interfaces[n], 0), c.interfaces[n]);
      InterfaceExact(n, c.interfaces[n], c.interfaces.Keys, DoneNames(done) + {n}, c.acls.Keys, Taken(st.cfg, n));
    }
  }

  lemma AboutLists(c: Config, done: set<Slot>, s: Slot, st: State)
    requires Starts(c, done, s, st) && s in {RoutesSlot, NatSlot}
    ensures Valid(c) && Normalized(c) && Valid(st.cfg) && Normalized(st.cfg) && st.mode != Privileged
    ensures s == RoutesSlot ==> st.cfg.routes == [] && SlotLines(c, s) == RouteLines(c.routes)
    ensures s == NatSlot ==> st.cfg.natRules == [] && SlotLines(c, s) == NatLines(c.natRules)
    ensures s == NatSlot ==> st.cfg.interfaces.Keys == c.interfaces.Keys
    ensures SlotReplays(c, done, s) <==> if s == RoutesSlot then Distinct(c.routes) else NatReplays(c.natRules)
    ensures forall t :: SameSlot(s, t, c) <==> if s == RoutesSlot then t.routes == c.routes else t.natRules == c.natRules
  {
    hide Valid, Normalized, RouteLines, NatLines, NatReplays;
    forall m | m in c.interfaces && s == NatSlot ensures m in st.cfg.interfaces {
      assert Has(c, InterfaceSlot(m)) && Rank(InterfaceSlot(m)) < Rank(s);
    }
  }

  lemma RoutesExact(c: Config, done: set<Slot>, st: State)
    requires Starts(c, done, RoutesSlot, st)
    ensures Returns(c, RoutesSlot, st) <==> SlotReplays(c, done, RoutesSlot)
  {
    hide Valid, Normalized, ValidRoute, Starts, SlotLines, SlotReplays, SameSlot, Part;
    AboutLists(c, done, RoutesSlot, st);
    var l := c.routes;
    if l != [] {
      RoutesValid(c);
      FromGlobal(st, RouteLines(l));
      RunRoutes(State(st.cfg, Global), l);
      AppendNewExact([], l);
      assert [] + l == l;
    }
  }

  lemma RoutesValid(c: Config)
    requires Valid(c)
    ensures forall r :: r in c.routes ==> ValidRoute(r)
    ensures forall r :: r in c.natRules ==> ValidNat(r, c.interfaces.Keys)
  {
  }

  lemma NatExact(c: Config, done: set<Slot>, st: State)
    requires Starts(c, done, NatSlot, st)
    ensures Returns(c, NatSlot, st) <==> SlotReplays(c, done, NatSlot)
  {
    hide Valid, Normalized, NatReplays, NatFold, Starts, SlotLines, SlotReplays, SameSlot, Part;
    AboutLists(c, done, NatSlot, st);
    var l := c.natRules;
    RoutesValid(c);
    NatFoldExact([], l);
    assert [] + l == l;
    if l == [] {
      NothingExcluded();
    } else {
      FromGlobal(st, NatLines(l));
      RunNat(State(st.cfg, Global), l);
    }
  }

  lemma AboutPool(c: Config, done: set<Slot>, n: string, st: State)
    requires Starts(c, done, PoolSlot(n), st)
    ensures Valid(c) && Valid(st.cfg) && Normalized(st.cfg) && st.mode != Privileged && n in c.pools
    ensures PoolOf(st.cfg, n) == EMPTY_POOL
    ensures SlotLines(c, PoolSlot(n)) == [DhcpPool(n)] + InPoolMode(PoolEditsFrom(c.pools[n], 0))
    ensures SlotReplays(c, done, PoolSlot(n)) <==> PoolReplays(c.pools[n])
    ensures forall t: Config :: SameSlot(PoolSlot(n), t, c) <==> n in t.pools && t.pools[n] == c.pools[n]
  {
    hide Valid, Normalized, PoolReplays, PoolEditsFrom;
  }

  lemma PoolSlotExact(c: Config, done: set<Slot>, n: string, st: State)
    requires Starts(c, done, PoolSlot(n), st)
    ensures Returns(c, PoolSlot(n), st) <==> SlotReplays(c, done, PoolSlot(n))
  {
    hide Valid, Normalized, ValidPool, PoolReplays, PoolFold, InPoolMode, PoolEditsFrom, Mutate;
    hide Starts, SlotLines, SlotReplays, SameSlot, Part, PoolOf;
    AboutPool(c, done, n, st);
    var (p, es) := (c.pools[n], PoolEditsFrom(c.pools[n], 0));
    PoolIsValid(c, n);
    PoolSpeaks(n, p);
    Dispatch(st.mode, DhcpPool(n), st.cfg);
    ExecOne(st, DhcpPool(n));
    ExecCons(st, DhcpPool(n), InPoolMode(es));
    RunPool(State(st.cfg, InDhcpPool(n)), n, es);
    PoolExact(n, p);
  }

  lemma PoolIsValid(c: Config, n: string)
    requires Valid(c) && n in c.pools
    ensures ValidPool(n, c.pools[n])
  {
  }

  /** A valid pool has a network, so that its text is never empty. */
  lemma PoolSpeaks(n: string, p: Pool)
    requires ValidPool(n, p)
    ensures PoolEditsFrom(p, 0) != []
  {
    assert PoolEdits(p, 0) != [];
  }

  lemma AboutWeb(c: Config, done: set<Slot>, st: State)
    requires Starts(c, done, WebSlot, st)
    ensures Valid(st.cfg) && Normalized(st.cfg) && st.mode != Privileged && st.cfg.web == NEW.web
    ensures SlotLines(c, WebSlot) == WebLines(c.web) && 0 <= c.web.port <= 65535
    ensures SlotReplays(c, done, WebSlot) <==> (c.web.tls ==> c.web.enabled)
    ensures forall t: Config :: SameSlot(WebSlot, t, c) <==> t.web == c.web
  {
    hide Normalized, WebLines, ValidInterfaces, ValidAcls, ValidNat, ValidRoute, ValidPool;
  }

  lemma WebExact(c: Config, done: set<Slot>, st: State)
    requires Starts(c, done, WebSlot, st)
    ensures Returns(c, WebSlot, st) <==> SlotReplays(c, done, WebSlot)
  {
    hide Valid, Normalized, Starts, SlotLines, SlotReplays, SameSlot, Part, ExecAll;
    AboutWeb(c, done, st);
    var w := c.web;
    var (a, b) := (Optional(w.enabled, if w.tls then HttpsServer else HttpServer), Optional(w.port != 0, HttpPort(w.port)));
    var e := if w.bind.Some? then [HttpBind(w.bind.value)] else [];
    var web1 := Web(w.enabled, w.enabled && w.tls, 0, None);
    RunWeb(st, a, web1);
    var st1 := ExecAll(st, a).value;
    RunWeb(st1, b, web1.(port := w.port));
    var st2 := ExecAll(st1, b).value;
    RunWeb(st2, e, web1.(port := w.port, bind := w.bind));
    ExecConcat(st, a, b + e);
    ExecConcat(st1, b, e);
  }

  /** At most one command, which sets the web server's settings. */
  lemma RunWeb(st: State, cmds: seq<Command>, w: Web)
    requires Valid(st.cfg) && Normalized(st.cfg) && st.mode != Privileged && 0 <= w.port <= 65535
    requires cmds == [] ==> st.cfg.web == w
    requires cmds != [] ==> |cmds| == 1 && IsGlobal(cmds[0]) && !cmds[0].End?
    requires cmds != [] ==> Understood(cmds[0]) && ChangeGlobal(cmds[0], st.cfg) == Manager.Next(st.cfg.(web := w))
    ensures var t := ExecAll(st, cmds);
      t.Some? && t.value.cfg == st.cfg.(web := w) && Valid(t.value.cfg) && Normalized(t.value.cfg) && t.value.mode != Privileged
  {
    hide Valid, Normalized, ValidHostname, ValidDomain, ValidName, ChangeGlobal;
    if cmds != [] {
      GlobalsHold(st.cfg);
      PutGlobals(st.cfg, st.cfg.(web := w));
      RunGlobal(st, cmds[0], st.cfg.(web := w));
      assert cmds == [cmds[0]];
    }
  }

  lemma GlobalsHold(c: Config)
    requires Valid(c)
    ensures ValidGlobals(c)
  {
  }

  // ----- the whole text

  lemma SlotExact(c: Config, done: set<Slot>, s: Slot, st: State)
    requires Starts(c, done, s, st)
    ensures Returns(c, s, st) <==> SlotReplays(c, done, s)
  {
    hide Starts, Returns, SlotReplays;
    match s {
      case ServersSlot => ServersExact(c, done, st);
      case SecretSlot => SecretExact(c, done, st);
      case UserSlot(n) => UserExact(c, done, n, st);
      case BannerSlot => BannerExact(c, done, st);
      case AclSlot(n) => AclExact(c, done, n, st);
      case InterfaceSlot(n) => InterfaceSlotExact(c, done, n, st);
      case RoutesSlot => RoutesExact(c, done, st);
      case NatSlot => NatExact(c, done, st);
      case PoolSlot(n) => PoolSlotExact(c, done, n, st);
      case WebSlot => WebExact(c, done, st);
      case _ => PlainExact(c, done, s, st);
    }
  }

  lemma {:induction false} NeverPrivileged(st: State, cmds: seq<Command>)
    requires st.mode != Privileged && ExecAll(st, cmds).Some? && forall cmd :: cmd in cmds ==> !cmd.End?
    ensures ExecAll(st, cmds).value.mode != Privileged
    decreases |cmds|
  {
    hide Exec;
    if cmds != [] {
      assert cmds[0] in cmds && forall cmd :: cmd in cmds[1..] ==> cmd in cmds;
      ModeIs(st, cmds[0]);
      NeverPrivileged(Exec(st, cmds[0]).value, cmds[1..]);
    }
  }

  lemma SlotNeverEnds(c: Config, s: Slot)
    requires Has(c, s)
    ensures forall cmd :: cmd in SlotLines(c, s) ==> !cmd.End?
  {
    hide EditsFrom, PoolEditsFrom;
  }

  lemma HasText(c: Config, slots: seq<Slot>)
    requires forall s :: s in slots ==> Has(c, s)
    ensures forall s :: s in slots[1..] ==> Has(c, s)
    requires slots != []
  {
    assert forall s :: s in slots[1..] ==> s in slots;
  }

  /** The text of other parts leaves a part as it is. */
  lemma {:induction false} TextKeeps(c: Config, slots: seq<Slot>, st: State, s: Slot)
    requires (forall r :: r in slots ==> Has(c, r)) && s !in slots && Normalized(st.cfg) && Valid(st.cfg)
    ensures var t := ExecAll(st, Text(c, slots)); t.Some? ==> SameSlot(s, t.value.cfg, st.cfg)
    decreases |slots|
  {
    hide Valid, Normalized, SameSlot, SlotLines, Has, StaysOn, Exec;
    SameReflexive(s, st.cfg);
    if slots != [] {
      HasText(c, slots);
      assert slots[0] in slots && slots[0] != s && s !in slots[1..];
      ExecConcat(st, SlotLines(c, slots[0]), Text(c, slots[1..]));
      SlotStays(c, slots[0], st.mode);
      var u := ExecAll(st, SlotLines(c, slots[0]));
      if u.Some? {
        RunTouches(st, SlotLines(c, slots[0]), slots[0]);
        TextKeeps(c, slots[1..], u.value, s);
        var t := ExecAll(u.value, Text(c, slots[1..]));
        if t.Some? { SameTransitive(s, t.value.cfg, u.value.cfg, st.cfg); }
      }
    }
  }

  /** What is left to print, when the parts in `done` are in place. */
  ghost predicate Remaining(c: Config, done: set<Slot>, slots: seq<Slot>) {
    && InOrder(slots) && (forall s :: s in slots ==> Has(c, s) && s !in done)
    && (forall s :: Has(c, s) ==> s in done || s in slots)
    && (forall r, s :: r in done && s in slots ==> Has(c, r) && Rank(r) <= Rank(s))
  }

  ghost predicate AllReplay(c: Config, done: set<Slot>, slots: seq<Slot>)
    requires forall s :: s in slots ==> Has(c, s)
    decreases |slots|
  {
    slots == [] || (SlotReplays(c, done, slots[0]) && AllReplay(c, done + {slots[0]}, slots[1..]))
  }

  lemma RemainingNext(c: Config, done: set<Slot>, slots: seq<Slot>)
    requires Remaining(c, done, slots) && slots != []
    ensures Remaining(c, done + {slots[0]}, slots[1..]) && slots[0] !in slots[1..] && Has(c, slots[0])
    ensures forall s :: s in slots[1..] ==> Has(c, s)
    ensures forall r :: Has(c, r) && Rank(r) < Rank(slots[0]) ==> r in done
    ensures forall r :: r in done ==> Has(c, r) && Rank(r) <= Rank(slots[0])
  {
    hide Has, Before;
    assert slots == [slots[0]] + slots[1..];
    forall s | s in slots[1..] ensures Follows(slots[0], s) {
      var k :| 0 <= k < |slots[1..]| && slots[1..][k] == s;
      assert slots[k + 1] == s;
    }
    forall i, j | 0 <= i < j < |slots[1..]| ensures Follows(slots[1..][i], slots[1..][j]) {
      assert slots[i + 1] == slots[1..][i] && slots[j + 1] == slots[1..][j];
    }
    assert slots[0] in slots;
  }

  /** From any point on, the text is accepted and leaves `c` exactly when every remaining part comes back. */
  lemma {:induction false} Chain(c: Config, done: set<Slot>, slots: seq<Slot>, st: State)
    requires Valid(c) && Normalized(c) && Remaining(c, done, slots) && st.mode != Privileged
    requires st.cfg == Part(c, done) && Valid(st.cfg) && Normalized(st.cfg)
    ensures var t := ExecAll(st, Text(c, slots)); t.Some? && t.value.cfg == c <==> AllReplay(c, done, slots)
    ensures ExecAll(st, Text(c, slots)).Some? ==> ExecAll(st, Text(c, slots)).value.mode != Privileged
    decreases |slots|
  {
    hide Valid, Normalized, SameSlot, SlotLines, Has, Exec, SlotReplays, Part, Remaining;
    if slots == [] {
      NothingLeft(c, done);
    } else {
      var (s, rest) := (slots[0], slots[1..]);
      RemainingNext(c, done, slots);
      StartsHere(c, done, slots, st);
      SlotExact(c, done, s, st);
      ExecConcat(st, SlotLines(c, s), Text(c, rest));
      var u := ExecAll(st, SlotLines(c, s));
      if u.Some? {
        SlotStays(c, s, st.mode);
        RunTouches(st, SlotLines(c, s), s);
        SlotNeverEnds(c, s);
        NeverPrivileged(st, SlotLines(c, s));
        PartNext(c, done, s, u.value.cfg);
        if SameSlot(s, u.value.cfg, c) {
          Chain(c, done + {s}, rest, u.value);
        } else {
          TextKeeps(c, rest, u.value, s);
          StillWrong(c, s, u.value, Text(c, rest));
          TextNeverEnds(c, rest, u.value);
        }
      }
    }
  }

  lemma StartsHere(c: Config, done: set<Slot>, slots: seq<Slot>, st: State)
    requires Valid(c) && Normalized(c) && Remaining(c, done, slots) && st.mode != Privileged && slots != []
    requires st.cfg == Part(c, done) && Valid(st.cfg) && Normalized(st.cfg)
    ensures Starts(c, done, slots[0], st)
  {
    hide Valid, Normalized, Part;
    RemainingNext(c, done, slots);
    assert slots[0] in slots;
  }

  lemma NothingLeft(c: Config, done: set<Slot>)
    requires Remaining(c, done, [])
    ensures Part(c, done) == c
  {
    hide SameSlot;
    forall s ensures SameSlot(s, Part(c, done), c) { PartSame(c, done, s); }
    AllSame(Part(c, done), c);
  }

  lemma StillWrong(c: Config, s: Slot, st: State, cmds: seq<Command>)
    requires !SameSlot(s, st.cfg, c) && (ExecAll(st, cmds).Some? ==> SameSlot(s, ExecAll(st, cmds).value.cfg, st.cfg))
    ensures ExecAll(st, cmds).Some? ==> ExecAll(st, cmds).value.cfg != c
  {
    hide SameSlot, Exec;
    if ExecAll(st, cmds).Some? && ExecAll(st, cmds).value.cfg == c { SameSymmetric(s, c, st.cfg); }
  }

  lemma {:induction false} TextNeverEnds(c: Config, slots: seq<Slot>, st: State)
    requires (forall r :: r in slots ==> Has(c, r)) && st.mode != Privileged
    ensures ExecAll(st, Text(c, slots)).Some? ==> ExecAll(st, Text(c, slots)).value.mode != Privileged
    decreases |slots|
  {
    hide SlotLines, Has, Exec;
    if slots != [] {
      HasText(c, slots);
      assert slots[0] in slots;
      ExecConcat(st, SlotLines(c, slots[0]), Text(c, slots[1..]));
      SlotNeverEnds(c, slots[0]);
      var u := ExecAll(st, SlotLines(c, slots[0]));
      if u.Some? {
        NeverPrivileged(st, SlotLines(c, slots[0]));
        TextNeverEnds(c, slots[1..], u.value);
      }
    }
  }

  /** Feeding the printed text of a valid configuration into a fresh session is accepted, command by
      command, and recreates the configuration exactly when every part of it comes back. */
  lemma ReplayExact(c: Config, slots: seq<Slot>)
    requires Valid(c) && Normalized(c) && IsOrder(c, slots)
    ensures ExecAll(State(NEW, Global), Text(c, slots) + [End]) == Some(State(c, Privileged)) <==> AllReplay(c, {}, slots)
  {
    hide Valid, Normalized, Exec, SlotReplays, Has, InOrder;
    var st := State(NEW, Global);
    PartEnds(c, slots);
    NewIsValid();
    Chain(c, {}, slots, st);
    ExecConcat(st, Text(c, slots), [End]);
    var t := ExecAll(st, Text(c, slots));
    if t.Some? { EndOnly(t.value); }
  }

  lemma EndOnly(st: State)
    requires st.mode != Privileged
    ensures ExecAll(st, [End]) == Some(State(st.cfg, Privileged))
  {
    hide Valid, Normalize;
    ExecOne(st, End);
  }

  lemma NewIsValid()
    ensures Valid(NEW) && Normalized(NEW)
  {
  }

  /** Printing a configuration and feeding the text to a fresh session. As long as no change fails
      in being applied or recorded, every command is accepted and the session's configuration is
      the printed one exactly when every part comes back. */
  method Recreate(c: Config, session: Session) returns (ok: bool, ghost outcome: Manager.Outcome, ghost slots: seq<Slot>)
    requires Valid(c) && Normalized(c) && session.mode == Global && Manager.RunningOf(session.mgr.Now()) == NEW
    modifies session, session.mgr, session.mgr.step
    ensures IsOrder(c, slots)
    ensures ok || Denies(outcome) ==> (ok && Manager.RunningOf(session.mgr.Now()) == c <==> AllReplay(c, {}, slots))
    ensures ok ==> session.mode == Privileged
  {
    hide Valid, Normalized, AllReplay, Text, Denies, InOrder, Has;
    var cmds := Print(c);
    slots :| IsOrder(c, slots) && cmds == Text(c, slots) + [End];
    ok, outcome := session.ExecuteAll(cmds);
    ReplayExact(c, slots);
    if ok { TextEnds(c, slots); }
  }

  lemma TextEnds(c: Config, slots: seq<Slot>)
    requires forall s :: s in slots ==> Has(c, s)
    ensures var t := ExecAll(State(NEW, Global), Text(c, slots) + [End]); t.Some? ==> t.value.mode == Privileged
  {
    hide Exec, Has;
    var st := State(NEW, Global);
    ExecConcat(st, Text(c, slots), [End]);
    TextNeverEnds(c, slots, st);
    var t := ExecAll(st, Text(c, slots));
    if t.Some? { EndOnly(t.value); }
  }
}
