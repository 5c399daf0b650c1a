/** Replaying access lists, routes, translations and pools, and lifting single parts to the configuration. */
module ReplaySections {
  import opened Basics
  import opened Addresses
  import opened Config
  import opened Commands
  import opened ConfigText
  import opened ReplayInterface
  import Agreement
  import AceText
  import Manager
  import Typing

  // ----- one accepted change

  lemma ExecNext(s: State, cmd: Command, c: Config)
    requires Mutate(s.mode, cmd, s.cfg) == Manager.Next(c) && Normalized(c)
    ensures Exec(s, cmd) == if Valid(c) then Some(State(c, ModeAfter(s.mode, cmd))) else None
  {
    hide Mutate, Valid, Normalized, Normalize;
    NormalizeFixed(c);
  }

  lemma Dispatch(mode: CliMode, cmd: Command, c: Config)
    requires mode != Privileged
    ensures cmd.If? ==> Mutate(mode, cmd, c) == ChangeInterface(mode, cmd.edit, c)
    ensures cmd.InPool? ==> Mutate(mode, cmd, c) == ChangePool(mode, cmd.change, c)
    ensures cmd.Entry? ==> Mutate(mode, cmd, c) == AddEntry(mode, cmd.seqNo, cmd.permit, cmd.rule, c)
    ensures IsGlobal(cmd) ==> Mutate(mode, cmd, c) == if Understood(cmd) then ChangeGlobal(cmd, c) else Manager.Refused
  {
    hide ChangeInterface, ChangePool, AddEntry, ChangeGlobal;
  }

  lemma SameListsNormalized(c: Config, d: Config)
    requires Normalized(c) && d.acls == c.acls
    ensures Normalized(d)
  {
  }

  // ----- interfaces

  lemma PutInterfaceValid(c: Config, n: Name, j: Interface)
    requires Valid(c)
    ensures Valid(c.(interfaces := c.interfaces[n := j])) <==> ValidInterface(n, j, c.interfaces.Keys + {n}, c.acls.Keys)
  {
    hide InterfaceKind, ValidWireless, ValidName, ValidPool, ValidEntries, ValidRoute, ValidInterfaceName;
    var d := c.(interfaces := c.interfaces[n := j]);
    assert d.interfaces.Keys == c.interfaces.Keys + {n};
    forall m | m in c.interfaces && m != n ensures ValidInterface(m, d.interfaces[m], d.interfaces.Keys, d.acls.Keys) {
      assert ValidInterface(m, c.interfaces[m], c.interfaces.Keys, c.acls.Keys);
    }
    assert d.interfaces[n] == j;
    forall k | 0 <= k < |c.natRules| ensures ValidNat(c.natRules[k], d.interfaces.Keys) {
      assert ValidNat(c.natRules[k], c.interfaces.Keys);
    }
    assert ValidInterface(n, j, d.interfaces.Keys, d.acls.Keys) <==> ValidInterfaces(d.interfaces, d.acls.Keys);
  }

  lemma PutInterfaceTaken(c: Config, n: Name, j: Interface)
    ensures Taken(c.(interfaces := c.interfaces[n := j]), n) == Taken(c, n)
  {
    var d := c.(interfaces := c.interfaces[n := j]);
    forall l: (Name, Name) | l.0 != n ensures l in Agreement.LinksOf(d) <==> l in Agreement.LinksOf(c) {
      assert l == (l.0, l.1);
    }
  }

  /** The commands of an interface do to the configuration what they do to the entry. */
  lemma {:induction false} RunIf(s: State, n: Name, es: seq<IfEdit>)
    requires s.mode == InInterface(n) && Valid(s.cfg) && Normalized(s.cfg)
    ensures ExecAll(s, InInterfaceMode(es)) ==
      var r := IfFold(n, Agreement.Lookup(s.cfg, n), es, s.cfg.interfaces.Keys + {n}, s.cfg.acls.Keys, Taken(s.cfg, n));
      if r.None? then None else if r.value.None? then Some(s)
      else Some(State(s.cfg.(interfaces := s.cfg.interfaces[n := r.value.value]), s.mode))
    decreases |es|
  {
    hide EditEntry, Valid, Normalized, ValidInterface, Taken, Exec;
    var cmds := InInterfaceMode(es);
    if es == [] {
      if n in s.cfg.interfaces { assert s.cfg.interfaces[n := s.cfg.interfaces[n]] == s.cfg.interfaces; }
    } else {
      assert cmds[0] == If(es[0]) && cmds[1..] == InInterfaceMode(es[1..]);
      RunIfStep(s, n, es[0]);
      match EditEntry(n, Value(Agreement.Lookup(s.cfg, n)), es[0], Taken(s.cfg, n)) {
        case Denied =>
        case Kept => RunIf(s, n, es[1..]);
        case To(j) =>
          var d := s.cfg.(interfaces := s.cfg.interfaces[n := j]);
          PutInterfaceTaken(s.cfg, n, j);
          SameListsNormalized(s.cfg, d);
          if Valid(d) {
            RunIf(State(d, s.mode), n, es[1..]);
            assert d.interfaces.Keys + {n} == s.cfg.interfaces.Keys + {n} && Agreement.Lookup(d, n) == Some(j);
            var r := IfFold(n, Some(j), es[1..], s.cfg.interfaces.Keys + {n}, s.cfg.acls.Keys, Taken(s.cfg, n));
            FoldStays(n, Some(j), es[1..], s.cfg.interfaces.Keys + {n}, s.cfg.acls.Keys, Taken(s.cfg, n));
            if r.Some? {
              assert d.interfaces[n := r.value.value] == s.cfg.interfaces[n := r.value.value];
            }
          }
      }
    }
  }

  lemma RunIfStep(s: State, n: Name, e: IfEdit)
    requires s.mode == InInterface(n) && Valid(s.cfg) && Normalized(s.cfg)
    ensures Exec(s, If(e)) ==
      match EditEntry(n, Value(Agreement.Lookup(s.cfg, n)), e, Taken(s.cfg, n))
      case Denied => None
      case Kept => Some(s)
      case To(j) =>
        if ValidInterface(n, j, s.cfg.interfaces.Keys + {n}, s.cfg.acls.Keys)
        then Some(State(s.cfg.(interfaces := s.cfg.interfaces[n := j]), s.mode)) else None
    ensures EditEntry(n, Value(Agreement.Lookup(s.cfg, n)), e, Taken(s.cfg, n)).To? ==>
      var j := EditEntry(n, Value(Agreement.Lookup(s.cfg, n)), e, Taken(s.cfg, n)).value;
      ValidInterface(n, j, s.cfg.interfaces.Keys + {n}, s.cfg.acls.Keys) <==>
      Valid(s.cfg.(interfaces := s.cfg.interfaces[n := j]))
  {
    hide EditEntry, Valid, Normalized, ValidInterface, Taken, Normalize, Mutate;
    Dispatch(s.mode, If(e), s.cfg);
    assert EntryOf(s.cfg, n) == Value(Agreement.Lookup(s.cfg, n));
    var r := EditEntry(n, EntryOf(s.cfg, n), e, Taken(s.cfg, n));
    if r.To? {
      var d := s.cfg.(interfaces := s.cfg.interfaces[n := r.value]);
      PutInterfaceValid(s.cfg, n, r.value);
      SameListsNormalized(s.cfg, d);
      assert Mutate(s.mode, If(e), s.cfg) == Manager.Next(d);
      NormalizeFixed(d);
    }
  }

  // ----- access lists

  lemma PutAclValid(c: Config, n: string, l: seq<Ace>)
    requires Valid(c) && ValidName(n) && Normalized(c)
    ensures var d := c.(acls := c.acls[n := l]);
      (Valid(d) <==> ValidEntries(l)) && (SortedEntries(l) ==> Normalized(d))
  {
    hide InterfaceKind, ValidWireless, ValidName, ValidPool, ValidEntries, ValidRoute, ValidInterfaceName, ValidNat;
    var d := c.(acls := c.acls[n := l]);
    assert d.acls[n] == l && d.acls.Keys == c.acls.Keys + {n};
    forall m | m in c.interfaces ensures ValidInterface(m, d.interfaces[m], d.interfaces.Keys, d.acls.Keys) {
      assert ValidInterface(m, c.interfaces[m], c.interfaces.Keys, c.acls.Keys);
    }
    forall m | m in c.acls && m != n ensures ValidName(m) && ValidEntries(d.acls[m]) {
      assert ValidEntries(c.acls[m]);
    }
    assert ValidEntries(l) <==> ValidAcls(d.acls);
  }

  /** The entry that a printed entry is read back as. */
  ghost function Reread(e: Ace): Option<Ace> {
    var r := AceText.ReadRule(e.permit, AceText.RuleTokens(e));
    if r.Some? then Some(r.value.(seqNo := e.seqNo)) else None
  }

  ghost predicate AllReread(l: seq<Ace>) { forall e :: e in l ==> Reread(e).Some? }

  ghost function RereadAll(l: seq<Ace>): seq<Ace>
    requires AllReread(l)
  {
    seq(|l|, k requires 0 <= k < |l| => Reread(l[k]).value)
  }

  /** An entry comes back when it can be written as a rule at all and no port range has a single port. */
  predicate EntryReplays(e: Ace) {
    AceText.Readable(e) && AceText.CanonPorts(e.srcPorts) == e.srcPorts && AceText.CanonPorts(e.dstPorts) == e.dstPorts
  }

  lemma EntryExact(e: Ace)
    ensures Reread(e) == Some(e) <==> EntryReplays(e)
  {
    hide AceText.ReadRule, AceText.RuleTokens, ValidAce;
    var r := AceText.ReadRule(e.permit, AceText.RuleTokens(e));
    if AceText.Readable(e) { AceText.RoundTrip(e); }
    if r.Some? {
      AceText.ReadGivesReadable(e.permit, AceText.RuleTokens(e));
      AceText.RoundTrip(r.value);
    }
  }

  lemma RereadValid(e: Ace)
    requires ValidAce(e) && Reread(e).Some?
    ensures ValidAce(Reread(e).value) && Reread(e).value.seqNo == e.seqNo
  {
    hide AceText.ReadRule, AceText.RuleTokens;
    AceText.ReadGivesReadable(e.permit, AceText.RuleTokens(e));
  }

  /** Every number in `a` is below every number in `b`, and both are sorted. */
  predicate Ascending(a: seq<Ace>, b: seq<Ace>) {
    && (forall i, j :: 0 <= i < j < |a| ==> a[i].seqNo < a[j].seqNo)
    && (forall i, j :: 0 <= i < j < |b| ==> b[i].seqNo < b[j].seqNo)
    && (forall x, y :: x in a && y in b ==> x.seqNo < y.seqNo)
  }

  lemma AscendingStep(a: seq<Ace>, b: seq<Ace>, e: Ace)
    requires Ascending(a, b) && b != [] && e.seqNo == b[0].seqNo && ValidEntries(a) && ValidAce(e)
    ensures Ascending(a + [e], b[1..]) && ValidEntries(a + [e]) && SortedEntries(a + [e])
    ensures forall x :: x in a ==> x.seqNo != e.seqNo
  {
    hide ValidAce;
    assert b[0] in b && forall x :: x in b[1..] ==> x in b;
    forall y | y in b[1..] ensures e.seqNo < y.seqNo { var j :| 0 <= j < |b[1..]| && b[1..][j] == y; assert b[j + 1] == y; }
    forall i | 0 <= i < |a| ensures a[i].seqNo < e.seqNo { assert a[i] in a; }
  }

  lemma {:induction false} RunEntries(s: State, n: string, l: seq<Ace>)
    requires s.mode == InAcl(n) && Valid(s.cfg) && Normalized(s.cfg) && n in s.cfg.acls && ValidName(n)
    requires Ascending(s.cfg.acls[n], l) && forall e :: e in l ==> ValidAce(e)
    ensures ExecAll(s, EntryLines(l)) ==
      if AllReread(l) then Some(State(s.cfg.(acls := s.cfg.acls[n := s.cfg.acls[n] + RereadAll(l)]), s.mode)) else None
    decreases |l|
  {
    hide Valid, Normalized, ValidAce, Reread, Exec, ValidName, Ascending, AllReread, RereadAll, EntryLines;
    RereadCons(l);
    if l == [] {
      assert s.cfg.acls[n] + RereadAll(l) == s.cfg.acls[n] && s.cfg.acls[n := s.cfg.acls[n]] == s.cfg.acls;
    } else {
      RunEntryStep(s, n, l);
      if Reread(l[0]).Some? {
        var entries := s.cfg.acls[n] + [Reread(l[0]).value];
        RunEntries(State(s.cfg.(acls := s.cfg.acls[n := entries]), s.mode), n, l[1..]);
        if AllReread(l) {
          assert entries + RereadAll(l[1..]) == s.cfg.acls[n] + RereadAll(l);
          PutAclTwice(s.cfg, n, entries, entries + RereadAll(l[1..]));
        }
      }
    }
  }

  lemma PutAclTwice(c: Config, n: string, a: seq<Ace>, b: seq<Ace>)
    ensures c.(acls := c.acls[n := a]).(acls := c.acls[n := a][n := b]) == c.(acls := c.acls[n := b])
  {
    assert c.acls[n := a][n := b] == c.acls[n := b];
  }

  lemma RereadCons(l: seq<Ace>)
    ensures if l == [] then EntryLines(l) == [] && AllReread(l) && RereadAll(l) == []
            else
              && |EntryLines(l)| == |l| && EntryLines(l)[1..] == EntryLines(l[1..])
              && EntryLines(l)[0] == Entry(l[0].seqNo, l[0].permit, AceText.RuleTokens(l[0]))
              && (forall e :: e in l[1..] ==> e in l)
              && (AllReread(l) <==> Reread(l[0]).Some? && AllReread(l[1..]))
              && (AllReread(l) ==> RereadAll(l) == [Reread(l[0]).value] + RereadAll(l[1..]))
  {
    hide Reread, AceText.RuleTokens;
    if l != [] {
      assert l[0] in l && (forall x :: x in l[1..] ==> x in l) && forall x :: x in l ==> x == l[0] || x in l[1..];
    }
  }

  lemma RunEntryStep(s: State, n: string, l: seq<Ace>)
    requires s.mode == InAcl(n) && Valid(s.cfg) && Normalized(s.cfg) && n in s.cfg.acls && ValidName(n) && l != []
    requires Ascending(s.cfg.acls[n], l) && ValidAce(l[0])
    ensures Exec(s, Entry(l[0].seqNo, l[0].permit, AceText.RuleTokens(l[0]))) ==
      if Reread(l[0]).Some?
      then Some(State(s.cfg.(acls := s.cfg.acls[n := s.cfg.acls[n] + [Reread(l[0]).value]]), s.mode)) else None
    ensures Reread(l[0]).Some? ==>
      var d := s.cfg.(acls := s.cfg.acls[n := s.cfg.acls[n] + [Reread(l[0]).value]]);
      Valid(d) && Normalized(d) && Ascending(d.acls[n], l[1..])
  {
    hide Valid, Normalized, Normalize, ValidEntries, AceText.ReadRule, AceText.RuleTokens, ValidName, Mutate;
    var (e, a) := (l[0], s.cfg.acls[n]);
    Dispatch(s.mode, Entry(e.seqNo, e.permit, AceText.RuleTokens(e)), s.cfg);
    if Reread(e).Some? {
      RereadValid(e);
      AclIsValid(s.cfg, n);
      AscendingStep(a, l, Reread(e).value);
      PutAclValid(s.cfg, n, a + [Reread(e).value]);
      ExecNext(s, Entry(e.seqNo, e.permit, AceText.RuleTokens(e)), s.cfg.(acls := s.cfg.acls[n := a + [Reread(e).value]]));
    }
  }

  lemma AclIsValid(c: Config, n: string)
    requires Valid(c) && n in c.acls
    ensures ValidEntries(c.acls[n]) && ValidName(n)
  {
  }

  lemma EntriesExact(l: seq<Ace>)
    ensures AllReread(l) && RereadAll(l) == l <==> forall e :: e in l ==> EntryReplays(e)
  {
    hide Reread, EntryReplays;
    forall e | e in l ensures Reread(e) == Some(e) <==> EntryReplays(e) { EntryExact(e); }
    if AllReread(l) && RereadAll(l) == l {
      forall e | e in l ensures EntryReplays(e) {
        var k :| 0 <= k < |l| && l[k] == e;
        assert RereadAll(l)[k] == Reread(l[k]).value;
      }
    }
    if forall e :: e in l ==> EntryReplays(e) {
      forall k | 0 <= k < |l| ensures Reread(l[k]) == Some(l[k]) { assert l[k] in l; }
    }
  }

  // ----- routes and translations

  lemma PutRoutesValid(c: Config, r: Route)
    requires Valid(c) && Normalized(c) && ValidRoute(r)
    ensures Valid(c.(routes := c.routes + [r])) && Normalized(c.(routes := c.routes + [r]))
  {
    hide ValidInterfaces, ValidPool, ValidAcls, ValidNat;
  }

  lemma {:induction false} RunRoutes(s: State, l: seq<Route>)
    requires s.mode == Global && Valid(s.cfg) && Normalized(s.cfg) && forall r :: r in l ==> ValidRoute(r)
    ensures ExecAll(s, RouteLines(l)) == Some(s.(cfg := s.cfg.(routes := AppendNew(s.cfg.routes, l))))
    decreases |l|
  {
    hide Valid, Normalized, Exec;
    if l == [] {
      assert s == s.(cfg := s.cfg.(routes := s.cfg.routes));
    } else {
      assert RouteLines(l)[0] == AddRoute(l[0]) && RouteLines(l)[1..] == RouteLines(l[1..]);
      assert l[0] in l && forall x :: x in l[1..] ==> x in l;
      var d := if l[0] in s.cfg.routes then s.cfg else s.cfg.(routes := s.cfg.routes + [l[0]]);
      PutRoutesValid(s.cfg, l[0]);
      RunRoute(s, l[0]);
      RunRoutes(State(d, Global), l[1..]);
    }
  }

  lemma RunRoute(s: State, r: Route)
    requires s.mode == Global && Valid(s.cfg) && Normalized(s.cfg) && ValidRoute(r)
    ensures Exec(s, AddRoute(r)) ==
      Some(State(if r in s.cfg.routes then s.cfg else s.cfg.(routes := s.cfg.routes + [r]), Global))
  {
    hide Valid, Normalized, Normalize, Mutate;
    Dispatch(s.mode, AddRoute(r), s.cfg);
    PutRoutesValid(s.cfg, r);
    if r !in s.cfg.routes { ExecNext(s, AddRoute(r), s.cfg.(routes := s.cfg.routes + [r])); }
  }

  function NatFold(a: seq<NatRule>, l: seq<NatRule>): Option<seq<NatRule>>
    decreases |l|
  {
    if l == [] then Some(a)
    else
      match EditNat(a, l[0])
      case Denied => None
      case Kept => NatFold(a, l[1..])
      case To(b) => NatFold(b, l[1..])
  }

  lemma PutNatValid(c: Config, r: NatRule)
    requires Valid(c) && Normalized(c) && ValidNat(r, c.interfaces.Keys)
    ensures Valid(c.(natRules := c.natRules + [r])) && Normalized(c.(natRules := c.natRules + [r]))
  {
    hide ValidInterfaces, ValidPool, ValidAcls, ValidRoute;
  }

  lemma {:induction false} RunNat(s: State, l: seq<NatRule>)
    requires s.mode == Global && Valid(s.cfg) && Normalized(s.cfg)
    requires forall r :: r in l ==> ValidNat(r, s.cfg.interfaces.Keys)
    ensures ExecAll(s, NatLines(l)) ==
      var r := NatFold(s.cfg.natRules, l); if r.None? then None else Some(s.(cfg := s.cfg.(natRules := r.value)))
    decreases |l|
  {
    hide Valid, Normalized, Exec, EditNat;
    if l == [] {
      assert s == s.(cfg := s.cfg.(natRules := s.cfg.natRules));
    } else {
      assert NatLines(l)[0] == AddNat(l[0]) && NatLines(l)[1..] == NatLines(l[1..]);
      assert l[0] in l && forall x :: x in l[1..] ==> x in l;
      RunNatRule(s, l[0]);
      match EditNat(s.cfg.natRules, l[0]) {
        case Denied =>
        case Kept => RunNat(s, l[1..]);
        case To(b) =>
          PutNatValid(s.cfg, l[0]);
          RunNat(State(s.cfg.(natRules := b), Global), l[1..]);
      }
    }
  }

  /** A valid translation is understood, unless its source is an IPv6 one. */
  lemma NatUnderstood(c: Config, r: NatRule)
    requires Valid(c) && ValidNat(r, c.interfaces.Keys)
    ensures Understood(AddNat(r)) <==> (r.Overload? ==> r.source.addr.family == V4)
  {
    assert ValidInterface(r.outside, c.interfaces[r.outside], c.interfaces.Keys, c.acls.Keys);
  }

  lemma RunNatRule(s: State, r: NatRule)
    requires s.mode == Global && Valid(s.cfg) && Normalized(s.cfg) && ValidNat(r, s.cfg.interfaces.Keys)
    ensures Exec(s, AddNat(r)) ==
      match EditNat(s.cfg.natRules, r)
      case Denied => None
      case Kept => Some(s)
      case To(b) => Some(State(s.cfg.(natRules := b), Global))
    ensures EditNat(s.cfg.natRules, r).To? ==> EditNat(s.cfg.natRules, r).value == s.cfg.natRules + [r]
  {
    hide Valid, Normalized, Normalize, ValidNat, Mutate;
    Dispatch(s.mode, AddNat(r), s.cfg);
    NatUnderstood(s.cfg, r);
    PutNatValid(s.cfg, r);
    if EditNat(s.cfg.natRules, r).To? { ExecNext(s, AddNat(r), s.cfg.(natRules := s.cfg.natRules + [r])); }
  }

  /** Two translations that cannot both be entered. */
  predicate Excludes(x: NatRule, r: NatRule) { x == r || Clashes(x, r) }

  predicate NatReplays(l: seq<NatRule>) {
    && (forall r :: r in l && r.Overload? ==> r.source.addr.family == V4)
    && forall i, j :: 0 <= i < j < |l| ==> !Excludes(l[i], l[j])
  }

  lemma EditNatCases(a: seq<NatRule>, r: NatRule)
    requires r.Overload? ==> r.source.Masked() == r.source
    ensures var good := (r.Overload? ==> r.source.addr.family == V4) && forall x :: x in a ==> !Excludes(x, r);
      if good then EditNat(a, r) == To(a + [r]) else !EditNat(a, r).To?
    ensures EditNat(a, r).To? ==> EditNat(a, r).value == a + [r] && forall x :: x in a ==> !Excludes(x, r)
    ensures EditNat(a, r).To? ==> r.Overload? ==> r.source.addr.family == V4
  {
  }

  lemma {:induction false} NatFoldExact(a: seq<NatRule>, l: seq<NatRule>)
    requires forall r :: r in l && r.Overload? ==> r.source.Masked() == r.source
    ensures NatFold(a, l) == Some(a + l) <==> NatReplays(l) && forall x, r :: x in a && r in l ==> !Excludes(x, r)
    ensures NatFold(a, l).Some? ==> |NatFold(a, l).value| <= |a| + |l|
    decreases |l|
  {
    hide EditNat, Excludes, NatReplays;
    if l == [] {
      assert a + l == a;
      NothingExcluded();
    } else {
      var (r, rest) := (l[0], l[1..]);
      assert l == [r] + rest && r in l && forall x :: x in l <==> x == r || x in rest;
      NatReplaysCons(r, rest);
      EditNatCases(a, r);
      match EditNat(a, r) {
        case Denied =>
        case Kept => NatFoldExact(a, rest);
        case To(b) =>
          NatFoldExact(a + [r], rest);
          assert a + [r] + rest == a + l && forall x :: x in a + [r] <==> x in a || x == r;
      }
    }
  }

  lemma NothingExcluded()
    ensures NatReplays([])
  {
  }

  lemma NatReplaysCons(r: NatRule, l: seq<NatRule>)
    ensures NatReplays([r] + l) <==>
      NatReplays(l) && (r.Overload? ==> r.source.addr.family == V4) && forall x :: x in l ==> !Excludes(r, x)
  {
    var s := [r] + l;
    assert forall i :: 0 <= i < |l| ==> s[i + 1] == l[i];
    assert forall x :: x in s <==> x == r || x in l;
    if NatReplays(s) {
      forall i, j | 0 <= i < j < |l| ensures !Excludes(l[i], l[j]) { assert !Excludes(s[i + 1], s[j + 1]); }
      forall x | x in l ensures !Excludes(r, x) {
        var k :| 0 <= k < |l| && l[k] == x;
        assert !Excludes(s[0], s[k + 1]);
      }
    }
  }

  // ----- address pools

  ghost function PoolFold(name: string, p: Pool, es: seq<PoolEdit>): Option<Pool>
    decreases |es|
  {
    if es == [] then Some(p)
    else
      var r := EditPool(p, es[0]);
      if r.To? && ValidPool(name, r.value) then PoolFold(name, r.value, es[1..]) else None
  }

  lemma {:induction false} PoolFoldConcat(name: string, p: Pool, a: seq<PoolEdit>, b: seq<PoolEdit>)
    ensures PoolFold(name, p, a + b) ==
      var r := PoolFold(name, p, a); if r.None? then None else PoolFold(name, r.value, b)
    decreases |a|
  {
    hide EditPool, ValidPool;
    if a == [] {
      assert a + b == b;
    } else {
      assert (a + b)[1..] == a[1..] + b;
      var r := EditPool(p, a[0]);
      if r.To? { PoolFoldConcat(name, r.value, a[1..], b); }
    }
  }

  lemma PutPoolValid(c: Config, n: string, p: Pool)
    requires Valid(c) && Normalized(c)
    ensures Valid(c.(pools := c.pools[n := p])) <==> ValidPool(n, p)
    ensures Normalized(c.(pools := c.pools[n := p]))
  {
    hide ValidInterfaces, ValidAcls, ValidNat, ValidRoute, ValidPool;
    var d := c.(pools := c.pools[n := p]);
    assert d.pools[n] == p && forall m :: m in c.pools && m != n ==> d.pools[m] == c.pools[m];
  }

  lemma {:induction false} RunPool(s: State, n: string, es: seq<PoolEdit>)
    requires s.mode == InDhcpPool(n) && Valid(s.cfg) && Normalized(s.cfg) && es != []
    ensures ExecAll(s, InPoolMode(es)) ==
      var r := PoolFold(n, PoolOf(s.cfg, n), es);
      if r.None? then None else Some(State(s.cfg.(pools := s.cfg.pools[n := r.value]), s.mode))
    decreases |es|
  {
    hide Valid, Normalized, Exec, EditPool, ValidPool;
    assert InPoolMode(es)[0] == InPool(es[0]) && InPoolMode(es)[1..] == InPoolMode(es[1..]);
    RunPoolStep(s, n, es[0]);
    var r := EditPool(PoolOf(s.cfg, n), es[0]);
    if r.To? && ValidPool(n, r.value) {
      var d := s.cfg.(pools := s.cfg.pools[n := r.value]);
      assert PoolOf(d, n) == r.value;
      if es[1..] == [] {
        assert InPoolMode(es[1..]) == [];
      } else {
        RunPool(State(d, s.mode), n, es[1..]);
        var t := PoolFold(n, r.value, es[1..]);
        if t.Some? { assert d.pools[n := t.value] == s.cfg.pools[n := t.value]; }
      }
    }
  }

  lemma NeverKept(p: Pool, e: PoolEdit)
    ensures !EditPool(p, e).Kept?
  {
  }

  lemma RunPoolStep(s: State, n: string, e: PoolEdit)
    requires s.mode == InDhcpPool(n) && Valid(s.cfg) && Normalized(s.cfg)
    ensures !EditPool(PoolOf(s.cfg, n), e).Kept?
    ensures var r := EditPool(PoolOf(s.cfg, n), e);
      if r.To? && ValidPool(n, r.value) then
        var d := s.cfg.(pools := s.cfg.pools[n := r.value]);
        Exec(s, InPool(e)) == Some(State(d, s.mode)) && Valid(d) && Normalized(d)
      else Exec(s, InPool(e)) == None
  {
    hide Valid, Normalized, Normalize, ValidPool, EditPool, Mutate;
    NeverKept(PoolOf(s.cfg, n), e);
    Dispatch(s.mode, InPool(e), s.cfg);
    var r := EditPool(PoolOf(s.cfg, n), e);
    if r.To? {
      PutPoolValid(s.cfg, n, r.value);
      ExecNext(s, InPool(e), s.cfg.(pools := s.cfg.pools[n := r.value]));
    }
  }

  // ----- reservations

  predicate Conflicts(x: DhcpHost, y: DhcpHost) { x.name == y.name || x.mac == y.mac || x.address == y.address }

  predicate HostsApart(l: seq<DhcpHost>) { forall i, j :: 0 <= i < j < |l| ==> !Conflicts(l[i], l[j]) }

  function HostFold(a: seq<DhcpHost>, l: seq<DhcpHost>): Option<seq<DhcpHost>>
    decreases |l|
  {
    if l == [] then Some(a)
    else
      var b := AddHost(a, l[0]);
      if b.None? then None else HostFold(b.value, l[1..])
  }

  lemma {:induction false} DropNameSize(l: seq<DhcpHost>, name: string)
    ensures |DropName(l, name)| <= |l|
    ensures |DropName(l, name)| == |l| <==> forall x :: x in l ==> x.name != name
    ensures |DropName(l, name)| == |l| ==> DropName(l, name) == l
    ensures forall x :: x in DropName(l, name) <==> x in l && x.name != name
  {
    if l != [] {
      DropNameSize(l[1..], name);
      assert l == [l[0]] + l[1..];
    }
  }

  lemma HostsApartCons(h: DhcpHost, l: seq<DhcpHost>)
    ensures HostsApart([h] + l) <==> HostsApart(l) && forall x :: x in l ==> !Conflicts(h, x)
  {
    var s := [h] + l;
    assert forall i :: 0 <= i < |l| ==> s[i + 1] == l[i];
    if HostsApart(s) {
      forall i, j | 0 <= i < j < |l| ensures !Conflicts(l[i], l[j]) { assert !Conflicts(s[i + 1], s[j + 1]); }
      forall x | x in l ensures !Conflicts(h, x) {
        var k :| 0 <= k < |l| && l[k] == x;
        assert !Conflicts(s[0], s[k + 1]);
      }
    }
  }

  lemma HostsApartNone()
    ensures HostsApart([])
  {
  }

  lemma AddHostCases(a: seq<DhcpHost>, h: DhcpHost)
    ensures (forall x :: x in a ==> !Conflicts(x, h)) ==> AddHost(a, h) == Some(a + [h])
    ensures AddHost(a, h).Some? && (exists x :: x in a && Conflicts(x, h)) ==> |AddHost(a, h).value| <= |a|
    ensures AddHost(a, h).Some? ==> forall x :: x in AddHost(a, h).value ==> x in a || x == h
    ensures AddHost(a, h).Some? ==> |AddHost(a, h).value| <= |a| + 1
  {
    DropNameSize(a, h.name);
  }

  /** Reservations come back exactly when no two share a name, a MAC or an address. */
  lemma {:induction false} HostFoldExact(a: seq<DhcpHost>, l: seq<DhcpHost>)
    ensures HostFold(a, l) == Some(a + l) <==> HostsApart(l) && forall x, h :: x in a && h in l ==> !Conflicts(x, h)
    ensures HostFold(a, l).Some? ==> |HostFold(a, l).value| <= |a| + |l|
    ensures HostFold(a, l).Some? ==> forall h :: h in HostFold(a, l).value ==> h in a || h in l
    decreases |l|
  {
    hide AddHost, Conflicts, HostsApart;
    HostsApartNone();
    if l == [] {
      assert a + l == a;
    } else {
      var (h, rest) := (l[0], l[1..]);
      assert l == [h] + rest && h in l && forall x :: x in l <==> x == h || x in rest;
      HostsApartCons(h, rest);
      AddHostCases(a, h);
      var b := AddHost(a, h);
      if b.Some? {
        HostFoldExact(b.value, rest);
        assert a + [h] + rest == a + l;
        assert forall x :: x in a + [h] <==> x in a || x == h;
      }
    }
  }

  // ----- a pool as a whole

  function PFields(p: Pool, k: nat): Pool {
    Pool(if k > 0 then p.network else None, if k > 1 then p.rangeStart else None, if k > 1 then p.rangeEnd else None,
         if k > 2 then p.routers else [], if k > 3 then p.dns else [], if k > 4 then p.domain else "",
         if k > 5 then p.lease else 0, if k > 6 then p.hosts else [])
  }

  lemma PoolOne(name: string, p: Pool, e: PoolEdit)
    ensures PoolFold(name, p, [e]) ==
      var r := EditPool(p, e); if r.To? && ValidPool(name, r.value) then Some(r.value) else None
  {
    hide EditPool, ValidPool;
    assert [e][1..] == [];
  }

  /** Network, range, routers and name servers always come back. */
  lemma PoolField(name: string, p: Pool, k: nat)
    requires ValidPool(name, p) && k < 4
    ensures PoolFold(name, PFields(p, k), PoolEdits(p, k)) == Some(PFields(p, k + 1))
  {
    if PoolEdits(p, k) != [] { PoolOne(name, PFields(p, k), PoolEdits(p, k)[0]); }
  }

  /** A lease of whole minutes, from one minute to a year and a day. */
  predicate LeaseReplays(lease: int) { lease == 0 || (lease >= 60 && lease % 60 == 0 && lease / 86400 <= 365) }

  lemma LeaseExact(lease: int)
    requires lease > 0
    ensures var (d, h, m) := (lease / 86400, (lease % 86400) / 3600, (lease % 3600) / 60);
      && 0 <= h <= 23 && 0 <= m <= 59 && d >= 0 && d * 86400 + h * 3600 + m * 60 == lease - lease % 60
  {
    var (d, x) := (lease / 86400, lease % 86400);
    var (h, y) := (x / 3600, x % 3600);
    ModUnique(lease, 3600, 24 * d + h, y);
    var (m, z) := (y / 60, y % 60);
    ModUnique(lease, 60, 1440 * d + 60 * h + m, z);
  }

  lemma {:induction false} FoldHosts(name: string, p: Pool, l: seq<DhcpHost>)
    requires ValidPool(name, p) && forall h :: h in l ==> ValidPool(name, p.(hosts := [h]))
    ensures PoolFold(name, p, HostEdits(l)) ==
      var r := HostFold(p.hosts, l); if r.None? then None else Some(p.(hosts := r.value))
    decreases |l|
  {
    hide ValidPool, AddHost;
    if l == [] {
      assert p == p.(hosts := p.hosts);
    } else {
      assert HostEdits(l)[0] == Host(l[0]) && HostEdits(l)[1..] == HostEdits(l[1..]) && l[0] in l;
      var b := AddHost(p.hosts, l[0]);
      if b.Some? {
        HostsValid(name, p, l[0]);
        forall h | h in l[1..] ensures ValidPool(name, p.(hosts := b.value).(hosts := [h])) { assert h in l; }
        FoldHosts(name, p.(hosts := b.value), l[1..]);
      }
    }
  }

  lemma HostsValid(name: string, p: Pool, h: DhcpHost)
    requires ValidPool(name, p) && ValidPool(name, p.(hosts := [h])) && AddHost(p.hosts, h).Some?
    ensures ValidPool(name, p.(hosts := AddHost(p.hosts, h).value))
  {
    hide AddHost;
    AddHostCases(p.hosts, h);
    var l := AddHost(p.hosts, h).value;
    assert [h][0] == h;
    forall k | 0 <= k < |l| ensures l[k] in p.hosts || l[k] == h { assert l[k] in l; }
  }

  predicate PoolReplays(p: Pool) {
    (p.domain == "" || Typing.PlainWord(p.domain)) && LeaseReplays(p.lease) && HostsApart(p.hosts)
  }

  /** The lease and the reservations, after any domain name. */
  lemma LeaseAndHosts(name: string, p: Pool, d: string)
    requires ValidPool(name, p)
    ensures PoolFold(name, PFields(p, 4).(domain := d), PoolEdits(p, 5) + HostEdits(p.hosts)) == Some(p) <==>
      d == p.domain && LeaseReplays(p.lease) && HostsApart(p.hosts)
  {
    hide ValidPool, WordOf, HostsApart, HostFold, AddHost;
    var q := PFields(p, 4).(domain := d);
    PartsValid(name, p);
    PoolFoldConcat(name, q, PoolEdits(p, 5), HostEdits(p.hosts));
    if p.lease > 0 {
      PoolOne(name, q, PoolEdits(p, 5)[0]);
      LeaseExact(p.lease);
    }
    FoldHosts(name, q.(lease := if p.lease > 0 then p.lease - p.lease % 60 else 0), p.hosts);
    HostFoldExact([], p.hosts);
    assert [] + p.hosts == p.hosts;
  }

  lemma PoolDomain(name: string, p: Pool)
    requires ValidPool(name, p)
    ensures var d := if p.domain == "" then Some("") else WordOf(p.domain);
      PoolFold(name, PFields(p, 4), PoolEdits(p, 4)) == if d.None? then None else Some(PFields(p, 4).(domain := d.value))
  {
    hide ValidPool, WordOf;
    PartsValid(name, p);
    if p.domain != "" { PoolOne(name, PFields(p, 4), DomainOf(p.domain)); }
  }

  lemma LastEdits(p: Pool)
    ensures PoolEditsFrom(p, 4) == PoolEdits(p, 4) + (PoolEdits(p, 5) + HostEdits(p.hosts))
  {
    hide HostEdits;
    assert PoolEditsFrom(p, 6) == HostEdits(p.hosts) + [] == HostEdits(p.hosts);
  }

  lemma PoolTail(name: string, p: Pool)
    requires ValidPool(name, p)
    ensures PoolFold(name, PFields(p, 4), PoolEditsFrom(p, 4)) == Some(p) <==> PoolReplays(p)
  {
    hide ValidPool, WordOf, Typing.PlainWord, HostsApart, LeaseReplays, PoolFold, PoolEdits, PoolEditsFrom, HostEdits;
    Typing.WordExact(p.domain);
    LastEdits(p);
    PoolDomain(name, p);
    PoolFoldConcat(name, PFields(p, 4), PoolEdits(p, 4), PoolEdits(p, 5) + HostEdits(p.hosts));
    var d := if p.domain == "" then Some("") else WordOf(p.domain);
    if d.Some? { LeaseAndHosts(name, p, d.value); }
  }

  lemma PartsValid(name: string, p: Pool)
    requires ValidPool(name, p)
    ensures forall d: string, l: int ::
      ValidPool(name, PFields(p, 4).(domain := d)) && ValidPool(name, PFields(p, 4).(domain := d, lease := l))
    ensures forall d: string, l: int, h :: h in p.hosts ==> ValidPool(name, PFields(p, 4).(domain := d, lease := l, hosts := [h]))
  {
  }

  /** A pool comes back exactly under these conditions. */
  lemma PoolExact(name: string, p: Pool)
    requires ValidPool(name, p)
    ensures PoolFold(name, EMPTY_POOL, PoolEditsFrom(p, 0)) == Some(p) <==> PoolReplays(p)
  {
    hide ValidPool, PoolEdits;
    assert PFields(p, 0) == EMPTY_POOL;
    PoolUpTo(name, p, 4);
    PoolTail(name, p);
  }

  /** The first four fields, one after the other. */
  lemma {:induction false} PoolUpTo(name: string, p: Pool, k: nat)
    requires ValidPool(name, p) && k <= 4
    ensures PoolFold(name, PFields(p, 0), PoolEditsFrom(p, 0)) == PoolFold(name, PFields(p, k), PoolEditsFrom(p, k))
  {
    hide ValidPool, PoolEdits;
    if k > 0 {
      PoolUpTo(name, p, k - 1);
      PoolField(name, p, k - 1);
      PoolFoldConcat(name, PFields(p, k - 1), PoolEdits(p, k - 1), PoolEditsFrom(p, k));
    }
  }
}
