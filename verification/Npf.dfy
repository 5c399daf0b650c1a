/** Translation of access lists to NPF rules (netcli/internal/render/npf.go). */
module Npf {
  import opened Basics
  import opened Addresses
  import opened Config
  import opened AccessList

  // ----- the rule language

  datatype Direction = In | Out
  datatype AddrMatch = AnyAddr | HostAddr(addr: Addr) | Network(prefix: Prefix)
  datatype Selector = All | FromTo(src: AddrMatch, srcPorts: Ports, dst: AddrMatch, dstPorts: Ports)

  datatype Rule = Rule(pass: bool, stateful: bool, dir: Direction, final: bool, family: Option<Family>,
                       protocol: Option<Protocol>, icmpType: Option<int>, selector: Selector, log: bool)

  /** `inName` and `outName` are the access-list names shown as comments. */
  datatype Group = Group(inName: Option<string>, outName: Option<string>, rules: seq<Rule>)

  /** The groups are keyed by interface: NPF attaches each to its own interface,
      so their order in the file carries no meaning. */
  datatype Conf = Conf(logProcedure: bool, natMaps: seq<NatRule>, groups: map<Name, Group>)

  predicate AddrMatches(m: AddrMatch, a: Addr) {
    match m
    case AnyAddr => true
    case HostAddr(h) => a == h
    case Network(p) => p.Contains(a)
  }

  predicate SelectorMatches(s: Selector, p: Packet) {
    s.All? ||
    (AddrMatches(s.src, p.src) && PortsMatch(s.srcPorts, p.protocol, p.srcPort) &&
     AddrMatches(s.dst, p.dst) && PortsMatch(s.dstPorts, p.protocol, p.dstPort))
  }

  predicate RuleMatches(r: Rule, dir: Direction, p: Packet) {
    && r.dir == dir
    && (r.family.Some? ==> p.src.family == r.family.value)
    && (r.protocol.Some? ==> ProtocolMatches(r.protocol.value, p.protocol))
    && (r.icmpType.Some? ==> p.icmpType == r.icmpType.value)
    && SelectorMatches(r.selector, p)
  }

  /** The last matching rule decides, unless a matching rule is `final`. */
  function Evaluate(rules: seq<Rule>, dir: Direction, p: Packet, verdict: Option<Rule>): Option<Rule> {
    if rules == [] then verdict
    else if !RuleMatches(rules[0], dir, p) then Evaluate(rules[1..], dir, p, verdict)
    else if rules[0].final then Some(rules[0])
    else Evaluate(rules[1..], dir, p, Some(rules[0]))
  }

  /** What becomes of a packet: whether it passes, whether its connection is tracked, whether it is logged. */
  datatype Fate = Fate(pass: bool, tracked: bool, logged: bool)

  predicate Decides(r: Option<Rule>, f: Fate) {
    r.Some? && r.value.pass == f.pass && r.value.stateful == f.tracked && r.value.log == f.logged
  }

  /** The whole rule set: an interface without a group falls to the default
      group, which passes everything. */
  predicate Passes(conf: Conf, ifn: Name, dir: Direction, p: Packet) {
    ifn in conf.groups ==> var r := Evaluate(conf.groups[ifn].rules, dir, p, None); r.Some? && r.value.pass
  }

  // ----- translation

  function NpfAddr(e: Endpoint): AddrMatch {
    match e
    case Any => AnyAddr
    case Net(p) => if p.IsSingle() then HostAddr(p.addr) else Network(p)
  }

  function RuleOf(e: Ace, dir: Direction): Rule {
    Rule(e.permit, e.permit && !e.stateless, dir, true, None,
         if e.protocol.Ip? then None else Some(e.protocol),
         e.icmpType,
         if e.src.Any? && e.dst.Any? && e.srcPorts.NoPorts? && e.dstPorts.NoPorts? then All
         else FromTo(NpfAddr(e.src), e.srcPorts, NpfAddr(e.dst), e.dstPorts),
         e.log)
  }

  function EntryRules(entries: seq<Ace>, dir: Direction): (r: seq<Rule>)
    ensures |r| == |entries|
    ensures forall k :: 0 <= k < |r| ==> r[k] == RuleOf(entries[k], dir)
  {
    seq(|entries|, k requires 0 <= k < |entries| => RuleOf(entries[k], dir))
  }

  function BlockAll(dir: Direction): Rule { Rule(false, false, dir, true, None, None, None, All, false) }

  function PassAll(dir: Direction): Rule { Rule(true, true, dir, true, None, None, None, All, false) }

  function DiscoveryRule(icmpType: int): Rule {
    Rule(true, false, In, true, Some(V6), Some(Icmp6), Some(icmpType), All, false)
  }

  const DHCP_RULE := Rule(true, false, In, true, None, Some(Udp), None,
                          FromTo(AnyAddr, One(67), AnyAddr, One(68)), false)

  function InfraRules(i: Interface): seq<Rule> {
    (if i.ipv6 != [] then [DiscoveryRule(133), DiscoveryRule(134), DiscoveryRule(135), DiscoveryRule(136)] else [])
    + (if i.dhcp then [DHCP_RULE] else [])
  }

  function InRules(c: Config, i: Interface): seq<Rule> {
    if i.groupIn in c.acls then InfraRules(i) + EntryRules(c.acls[i.groupIn], In) + [BlockAll(In)]
    else [PassAll(In)]
  }

  function OutRules(c: Config, i: Interface): seq<Rule> {
    if i.groupOut in c.acls then EntryRules(c.acls[i.groupOut], Out) + [BlockAll(Out)]
    else [PassAll(Out)]
  }

  predicate HasGroup(c: Config, i: Interface) { i.groupIn in c.acls || i.groupOut in c.acls }

  function GroupOf(c: Config, i: Interface): Group {
    Group(if i.groupIn in c.acls then Some(i.groupIn) else None,
          if i.groupOut in c.acls then Some(i.groupOut) else None,
          InRules(c, i) + OutRules(c, i))
  }

  ghost predicate Logs(acls: map<string, seq<Ace>>, name: string) {
    name in acls && exists k :: 0 <= k < |acls[name]| && acls[name][k].log
  }

  ghost predicate UsesLog(c: Config) {
    exists n :: n in c.interfaces &&
      (Logs(c.acls, c.interfaces[n].groupIn) || Logs(c.acls, c.interfaces[n].groupOut))
  }

  function GroupsOf(c: Config): map<Name, Group> {
    map n | n in c.interfaces && HasGroup(c, c.interfaces[n]) :: GroupOf(c, c.interfaces[n])
  }

  ghost function ConfOf(c: Config): Conf { Conf(UsesLog(c), c.natRules, GroupsOf(c)) }

  /** NPFUsesLog: some access list applied to an interface has a logging entry. */
  method NpfUsesLog(c: Config) returns (r: bool)
    ensures r <==> UsesLog(c)
  {
    var todo := c.interfaces.Keys;
    while todo != {}
      invariant todo <= c.interfaces.Keys
      invariant forall n :: n in c.interfaces && n !in todo ==>
        !Logs(c.acls, c.interfaces[n].groupIn) && !Logs(c.acls, c.interfaces[n].groupOut)
      decreases todo
    {
      var n :| n in todo;
      var groups := [c.interfaces[n].groupIn, c.interfaces[n].groupOut];
      for g := 0 to 2
        invariant forall h :: 0 <= h < g ==> !Logs(c.acls, groups[h])
      {
        if groups[g] in c.acls {
          var entries := c.acls[groups[g]];
          for k := 0 to |entries|
            invariant forall j :: 0 <= j < k ==> !entries[j].log
          {
            if entries[k].log {
              assert Logs(c.acls, groups[g]);
              return true;
            }
          }
        }
      }
      assert !Logs(c.acls, groups[0]) && !Logs(c.acls, groups[1]);
      todo := todo - {n};
    }
    return false;
  }

  /** One "group" block of npf.conf. */
  method BuildGroup(c: Config, i: Interface) returns (g: Group)
    requires HasGroup(c, i)
    ensures g == GroupOf(c, i)
    ensures g.inName == Some(i.groupIn) <==> i.groupIn in c.acls
    ensures g.outName == Some(i.groupOut) <==> i.groupOut in c.acls
  {
    var inName, outName, ins, outs := None, None, [PassAll(In)], [PassAll(Out)];
    if i.groupIn in c.acls {
      inName, ins := Some(i.groupIn), InfraRules(i);
      var rules := EntriesToRules(c.acls[i.groupIn], In);
      ins := ins + rules + [BlockAll(In)];
    }
    if i.groupOut in c.acls {
      outName := Some(i.groupOut);
      outs := EntriesToRules(c.acls[i.groupOut], Out);
      outs := outs + [BlockAll(Out)];
    }
    g := Group(inName, outName, ins + outs);
  }

  method EntriesToRules(entries: seq<Ace>, dir: Direction) returns (rules: seq<Rule>)
    ensures rules == EntryRules(entries, dir)
  {
    rules := [];
    for k := 0 to |entries|
      invariant rules == EntryRules(entries, dir)[..k]
    {
      rules := rules + [RuleOf(entries[k], dir)];
    }
  }

  method BuildGroups(c: Config) returns (groups: map<Name, Group>)
    ensures groups == GroupsOf(c)
  {
    hide HasGroup, GroupOf;
    var names := InterfaceNames(c);
    groups := map[];
    for j := 0 to |names|
      invariant forall n :: n in groups <==> n in names[..j] && HasGroup(c, c.interfaces[n])
      invariant forall n :: n in groups ==> n in c.interfaces && groups[n] == GroupOf(c, c.interfaces[n])
    {
      var n := names[j];
      assert names[j] in names;
      assert names[..j + 1] == names[..j] + [n];
      if HasGroup(c, c.interfaces[n]) {
        var g := BuildGroup(c, c.interfaces[n]);
        groups := groups[n := g];
      }
    }
    assert names[..|names|] == names;
  }

  /** render.NPF. */
  method Npf(c: Config) returns (conf: Conf)
    ensures conf == ConfOf(c) && conf.natMaps == c.natRules
    ensures forall n :: n in conf.groups <==> n in c.interfaces && HasGroup(c, c.interfaces[n])
  {
    var log := NpfUsesLog(c);
    var groups := BuildGroups(c);
    conf := Conf(log, c.natRules, groups);
  }

  // ----- the translation keeps meaning

  /** An entry and its rule match the same packets. */
  lemma RuleMatchesEntry(e: Ace, dir: Direction, p: Packet)
    ensures RuleMatches(RuleOf(e, dir), dir, p) <==> Matches(e, p)
  {
    if e.src.Net? && e.src.prefix.IsSingle() { SingleContains(e.src.prefix, p.src); }
    if e.dst.Net? && e.dst.prefix.IsSingle() { SingleContains(e.dst.prefix, p.dst); }
  }

  /** Rules of the other direction are transparent. */
  lemma {:induction false} EvaluateSkips(skip: seq<Rule>, rest: seq<Rule>, dir: Direction, p: Packet, v: Option<Rule>)
    requires forall k :: 0 <= k < |skip| ==> !RuleMatches(skip[k], dir, p)
    ensures Evaluate(skip + rest, dir, p, v) == Evaluate(rest, dir, p, v)
  {
    if skip == [] {
      assert skip + rest == rest;
    } else {
      EvaluateSkips(skip[1..], rest, dir, p, v);
      assert (skip + rest)[1..] == skip[1..] + rest;
    }
  }

  /** A prefix of final rules decides as soon as one of them matches. */
  lemma {:induction false} EvaluateFinal(rules: seq<Rule>, rest: seq<Rule>, k: nat, dir: Direction, p: Packet,
                                         v: Option<Rule>)
    requires k < |rules| && rules[k].final && RuleMatches(rules[k], dir, p)
    requires forall j :: 0 <= j < k ==> !RuleMatches(rules[j], dir, p)
    ensures Evaluate(rules + rest, dir, p, v) == Some(rules[k])
  {
    EvaluateSkips(rules[..k], rules[k..] + rest, dir, p, v);
    assert rules + rest == rules[..k] + (rules[k..] + rest);
  }

  /** The first entry that matches says what becomes of a packet: it is tracked if it is permitted, unless the
      entry is stateless, and logged if the entry says so. */
  function FateBy(entries: seq<Ace>, p: Packet): Fate {
    var k := FirstMatch(entries, p);
    if k == |entries| then Fate(false, false, false)
    else Fate(Permits(entries, p), Permits(entries, p) && !entries[k].stateless, entries[k].log)
  }

  /** The entries followed by "block final all" compute first match with implicit deny. */
  lemma EntriesDecide(entries: seq<Ace>, dir: Direction, rest: seq<Rule>, p: Packet)
    ensures Decides(Evaluate(EntryRules(entries, dir) + [BlockAll(dir)] + rest, dir, p, None), FateBy(entries, p))
  {
    var rules, k := EntryRules(entries, dir) + [BlockAll(dir)], FirstMatch(entries, p);
    forall j | 0 <= j < |entries| ensures RuleMatches(rules[j], dir, p) <==> Matches(entries[j], p) {
      RuleMatchesEntry(entries[j], dir, p);
    }
    EvaluateFinal(rules, rest, k, dir, p, None);
  }

  /** Traffic that stateful tracking cannot cover: IPv6 neighbour discovery
      (message types 133 to 136, section 4 of RFC 4861) and replies to a DHCP client. */
  predicate Infrastructure(i: Interface, p: Packet) {
    || (i.ipv6 != [] && p.src.family == V6 && p.protocol == ICMP6 && 133 <= p.icmpType <= 136)
    || (i.dhcp && p.protocol == UDP && p.srcPort == 67 && p.dstPort == 68)
  }

  lemma InfraRulesMatch(i: Interface, p: Packet)
    ensures (exists k :: 0 <= k < |InfraRules(i)| && RuleMatches(InfraRules(i)[k], In, p)) <==> Infrastructure(i, p)
  {
    var rules := InfraRules(i);
    if i.ipv6 != [] && p.src.family == V6 && p.protocol == ICMP6 && 133 <= p.icmpType <= 136 {
      assert RuleMatches(rules[p.icmpType - 133], In, p);
    } else if Infrastructure(i, p) {
      assert RuleMatches(rules[|rules| - 1], In, p);
    }
  }

  /** What an interface's configuration asks for, in terms of access lists alone. */
  predicate Wanted(c: Config, i: Interface, dir: Direction, p: Packet) {
    match dir
    case In => i.groupIn in c.acls ==> Infrastructure(i, p) || Permits(c.acls[i.groupIn], p)
    case Out => i.groupOut in c.acls ==> Permits(c.acls[i.groupOut], p)
  }

  /** What becomes of a packet on an interface with a list in either direction: infrastructure is not tracked,
      and where no list is applied, everything passes and is tracked. */
  function WantedFate(c: Config, i: Interface, dir: Direction, p: Packet): (f: Fate)
    ensures f.pass <==> Wanted(c, i, dir, p)
  {
    var list := if dir.In? then i.groupIn else i.groupOut;
    if list !in c.acls then Fate(true, true, false)
    else if dir.In? && Infrastructure(i, p) then Fate(true, false, false)
    else FateBy(c.acls[list], p)
  }

  lemma InboundDecision(c: Config, i: Interface, p: Packet)
    ensures Decides(Evaluate(InRules(c, i) + OutRules(c, i), In, p, None), WantedFate(c, i, In, p))
  {
    var rules, rest := InRules(c, i), OutRules(c, i);
    if i.groupIn in c.acls {
      var entries := c.acls[i.groupIn];
      var infra, tail := InfraRules(i), EntryRules(entries, In) + [BlockAll(In)];
      assert rules + rest == infra + (tail + rest);
      InfraRulesMatch(i, p);
      if Infrastructure(i, p) {
        var k := FirstInfra(infra, p);
        EvaluateFinal(infra, tail + rest, k, In, p, None);
      } else {
        EvaluateSkips(infra, tail + rest, In, p, None);
        EntriesDecide(entries, In, rest, p);
      }
    } else {
      EvaluateFinal(rules, rest, 0, In, p, None);
    }
  }

  lemma {:induction false} FirstInfra(rules: seq<Rule>, p: Packet) returns (k: nat)
    requires exists j :: 0 <= j < |rules| && RuleMatches(rules[j], In, p)
    ensures k < |rules| && RuleMatches(rules[k], In, p)
    ensures forall j :: 0 <= j < k ==> !RuleMatches(rules[j], In, p)
  {
    k := 0;
    while !RuleMatches(rules[k], In, p)
      invariant k < |rules| && forall j :: 0 <= j < k ==> !RuleMatches(rules[j], In, p)
      decreases |rules| - k
    {
      k := k + 1;
    }
  }

  lemma OutboundDecision(c: Config, i: Interface, p: Packet)
    ensures Decides(Evaluate(InRules(c, i) + OutRules(c, i), Out, p, None), WantedFate(c, i, Out, p))
  {
    var rules, rest := InRules(c, i), OutRules(c, i);
    EvaluateSkips(rules, rest, Out, p, None);
    if i.groupOut in c.acls {
      EntriesDecide(c.acls[i.groupOut], Out, [], p);
      assert rest + [] == rest;
    } else {
      EvaluateFinal(rest, [], 0, Out, p, None);
      assert rest + [] == rest;
    }
  }

  /** Main result: for every configuration, interface, direction and packet, the
      rendered rule set passes the packet exactly when the access lists ask for it, and
      tracks and logs it as they say. */
  lemma TranslationKeepsMeaning(c: Config, ifn: Name, dir: Direction, p: Packet)
    ensures Passes(ConfOf(c), ifn, dir, p) <==> (ifn in c.interfaces ==> Wanted(c, c.interfaces[ifn], dir, p))
    ensures ifn in ConfOf(c).groups ==>
      Decides(Evaluate(ConfOf(c).groups[ifn].rules, dir, p, None), WantedFate(c, c.interfaces[ifn], dir, p))
  {
    if ifn in c.interfaces {
      InboundDecision(c, c.interfaces[ifn], p);
      OutboundDecision(c, c.interfaces[ifn], p);
    }
  }

  /** The two directions are independent: the list applied one way does not matter the other way. */
  lemma DirectionsIndependent(c: Config, ifn: Name, i: Interface, other: string, p: Packet)
    requires ifn in c.interfaces && c.interfaces[ifn] == i
    ensures var d := c.(interfaces := c.interfaces[ifn := i.(groupOut := other)]);
      Passes(ConfOf(c), ifn, In, p) <==> Passes(ConfOf(d), ifn, In, p)
    ensures var d := c.(interfaces := c.interfaces[ifn := i.(groupIn := other)]);
      Passes(ConfOf(c), ifn, Out, p) <==> Passes(ConfOf(d), ifn, Out, p)
  {
    TranslationKeepsMeaning(c, ifn, In, p);
    TranslationKeepsMeaning(c, ifn, Out, p);
    TranslationKeepsMeaning(c.(interfaces := c.interfaces[ifn := i.(groupOut := other)]), ifn, In, p);
    TranslationKeepsMeaning(c.(interfaces := c.interfaces[ifn := i.(groupIn := other)]), ifn, Out, p);
  }

  ghost predicate AnyLog(rules: seq<Rule>) { exists k :: 0 <= k < |rules| && rules[k].log }

  ghost predicate AppliesLog(conf: Conf, n: Name) { n in conf.groups && AnyLog(conf.groups[n].rules) }

  /** The log procedure is declared exactly when some emitted rule applies it. */
  lemma LogDeclaredWhenApplied(c: Config)
    ensures ConfOf(c).logProcedure <==> exists n :: AppliesLog(ConfOf(c), n)
  {
    forall n | n in c.interfaces
      ensures AppliesLog(ConfOf(c), n) <==>
        (Logs(c.acls, c.interfaces[n].groupIn) || Logs(c.acls, c.interfaces[n].groupOut))
    {
      var i := c.interfaces[n];
      InLogs(c, i);
      OutLogs(c, i);
      AnyLogConcat(InRules(c, i), OutRules(c, i));
    }
  }

  lemma AnyLogConcat(a: seq<Rule>, b: seq<Rule>)
    ensures AnyLog(a + b) <==> AnyLog(a) || AnyLog(b)
  {
    if AnyLog(a) {
      var k :| 0 <= k < |a| && a[k].log;
      assert (a + b)[k] == a[k];
    }
    if AnyLog(b) {
      var k :| 0 <= k < |b| && b[k].log;
      assert (a + b)[|a| + k] == b[k];
    }
  }

  lemma EntriesLog(c: Config, name: string, dir: Direction)
    requires name in c.acls
    ensures AnyLog(EntryRules(c.acls[name], dir)) <==> Logs(c.acls, name)
  {
    var rules := EntryRules(c.acls[name], dir);
    if Logs(c.acls, name) {
      var k :| 0 <= k < |c.acls[name]| && c.acls[name][k].log;
      assert rules[k].log;
    }
  }

  lemma InLogs(c: Config, i: Interface)
    ensures AnyLog(InRules(c, i)) <==> Logs(c.acls, i.groupIn)
  {
    if i.groupIn in c.acls {
      EntriesLog(c, i.groupIn, In);
      AnyLogConcat(InfraRules(i), EntryRules(c.acls[i.groupIn], In));
      AnyLogConcat(InfraRules(i) + EntryRules(c.acls[i.groupIn], In), [BlockAll(In)]);
    }
  }

  lemma OutLogs(c: Config, i: Interface)
    ensures AnyLog(OutRules(c, i)) <==> Logs(c.acls, i.groupOut)
  {
    if i.groupOut in c.acls {
      EntriesLog(c, i.groupOut, Out);
      AnyLogConcat(EntryRules(c.acls[i.groupOut], Out), [BlockAll(Out)]);
    }
  }
}
