/** What configuration commands do to a configuration that already has something (netcli/internal/cli/cmd_config.go). */
module CommandMeaning {
  import opened Basics
  import opened Addresses
  import opened Config
  import opened Commands
  import AceText
  import AclEdit
  import CommandTree
  import Manager

  // ----- addresses

  lemma {:induction false} RemoveMeans<T>(l: seq<T>, x: T)
    ensures forall y :: y in Remove(l, x) <==> y in l && y != x
    ensures x !in l ==> Remove(l, x) == l
    ensures Subsequence(Remove(l, x), l)
  {
    if l != [] {
      assert l == [l[0]] + l[1..];
      RemoveMeans(l[1..], x);
      if l[0] == x {
        assert Remove(l, x) == Remove(l[1..], x);
        SubsequenceWiden(Remove(l, x), l);
      } else {
        assert Remove(l, x)[1..] == Remove(l[1..], x);
      }
    }
  }

  /** A secondary address is added behind a first one, once. A primary address takes the place of the first of
      the other addresses, and these stay in their order. */
  lemma AddressMeans(l: seq<Prefix>, p: Prefix)
    ensures var r := SetAddress(l, p, true);
      && (r.Some? <==> l != [])
      && (r.Some? ==> l <= r.value && (forall x :: x in r.value <==> x in l || x == p) && (|r.value| == |l| <==> p in l))
    ensures var r := SetAddress(l, p, false);
      && r.Some? && r.value != [] && r.value[0] == p
      && (p !in l && l != [] ==> r.value[1..] == l[1..])
      && (forall x :: x in r.value ==> x == p || x in l)
      && var others := Remove(l, p); others != [] ==> r.value[1..] == others[1..]
  {
    RemoveMeans(l, p);
    var left := Remove(l, p);
    if left != [] { assert left == [left[0]] + left[1..]; }
  }

  /** Giving the primary address again takes the first of the others away, so it changes nothing exactly when
      there is no other. */
  lemma PrimaryRepeatedExact(l: seq<Prefix>)
    requires l != [] && Distinct(l)
    ensures SetAddress(l, l[0], false) == Some(l) <==> |l| == 1
    ensures |l| > 1 ==> l[1] !in SetAddress(l, l[0], false).value
  {
    assert l == [l[0]] + l[1..];
    RemoveMeans(l[1..], l[0]);
    assert Remove(l, l[0]) == l[1..];
    if |l| == 1 { assert l[1..] == [] && l == [l[0]]; } else { assert l[1] == l[1..][0] && l[1..] == [l[1]] + l[2..]; }
  }

  /** An interface has addresses or asks for one, never both. */
  lemma AddressOrDhcp(n: Name, i: Interface, e: IfEdit, taken: set<Name>)
    requires EditEntry(n, i, e, taken).To?
    ensures var j := EditEntry(n, i, e, taken).value;
      && (e.Dhcp? ==> j.dhcp && j.ipv4 == [])
      && (e.Address4? ==> !j.dhcp && e.prefix in j.ipv4)
      && (!e.Dhcp? && !e.Address4? ==> j.dhcp == i.dhcp && j.ipv4 == i.ipv4)
  {
    if e.Address4? { AddressMeans(i.ipv4, e.prefix); }
  }

  // ----- numbers

  /** The numbers that commands accept are those that validation accepts, except zero, which stands for none. */
  lemma NumbersExact(n: Name, i: Interface, w: Wireless, c: Config, k: int)
    ensures forall taken: set<Name>, names, acls :: ValidInterface(n, i, names, acls) ==>
      (EditEntry(n, i, Mtu(k), taken).To? <==> k != 0 && ValidInterface(n, i.(mtu := k), names, acls))
    ensures forall kind :: ValidWireless(w, kind) ==>
      (EditWireless(w, Channel(k)).Some? <==> k != 0 && ValidWireless(w.(channel := k), kind))
    ensures ValidGlobals(c) ==> (ChangeGlobal(HttpPort(k), c).Next? <==> k != 0 && ValidGlobals(c.(web := c.web.(port := k))))
  {
  }

  /** A country code is stored in capitals. */
  lemma CountryMeans(w: Wireless, cc: string)
    ensures EditWireless(w, Country(cc)).Some? <==> |cc| == 2
    ensures |cc| == 2 ==> var c := EditWireless(w, Country(cc)).value.country;
      ToLower(c) == ToLower(cc) && forall i :: 0 <= i < |c| ==> !IsLowerLetter(c[i])
  {
    if |cc| == 2 { assert forall i :: 0 <= i < |cc| ==> LowerChar(UpperChar(cc[i])) == LowerChar(cc[i]); }
  }

  /** What stands between two delimiters is the banner. */
  lemma DelimitersMean(c: char, t: string)
    requires c in "^#%$" && CommandTree.Trimmed(t)
    ensures StripDelimiters([c] + t + [c]) == t
  {
    var typed := [c] + t + [c];
    assert typed[1..|typed| - 1] == t;
    CommandTree.TrimMeans(t);
    TrimmedStays(t);
  }

  lemma TrimmedStays(t: string)
    requires CommandTree.Trimmed(t)
    ensures CommandTree.TrimSpace(t) == t
  {
  }

  // ----- translations

  /** A forwarded port is forwarded once on each interface and for each protocol. An overload rule needs an IPv4
      subnet without bits beyond its length, and is added once. */
  lemma NatMeans(l: seq<NatRule>, r: NatRule)
    ensures r.Static? ==> var e := EditNat(l, r);
      && (e.To? <==> forall x :: x in l && x.Static? && x.outside == r.outside && x.protocol == r.protocol ==> x.publicPort != r.publicPort)
      && (!e.To? ==> e == Denied) && (e.To? ==> e.value == l + [r])
    ensures r.Overload? ==> var e := EditNat(l, r);
      && (e == Denied <==> r.source.addr.family == V6 || r.source.addr.value % r.source.Span() != 0)
      && (e != Denied ==> forall x :: x in (if e == Kept then l else e.value) <==> x in l || x == r)
      && (e.To? ==> l < e.value && r !in l)
  {
  }

  // ----- reservations

  /** A reservation takes the place of one of the same name, unless another has its hardware or network address. */
  lemma {:induction false} HostMeans(hosts: seq<DhcpHost>, h: DhcpHost)
    ensures var r := AddHost(hosts, h);
      && (r.Some? <==> forall x :: x in hosts && x.name != h.name ==> x.mac != h.mac && x.address != h.address)
      && (r.Some? ==> r.value != [] && r.value[|r.value| - 1] == h)
      && (r.Some? ==> forall x :: x in r.value <==> x == h || (x in hosts && x.name != h.name))
  {
    DropNameMeans(hosts, h.name);
  }

  lemma {:induction false} DropNameMeans(hosts: seq<DhcpHost>, name: string)
    ensures forall x :: x in DropName(hosts, name) <==> x in hosts && x.name != name
  {
    if hosts != [] {
      assert hosts == [hosts[0]] + hosts[1..];
      DropNameMeans(hosts[1..], name);
    }
  }

  // ----- entries

  /** A numbered entry typed in an access list is added as `AclEdit` adds it, if its words are an entry. */
  lemma EntryMeans(list: string, n: int, permit: bool, rule: seq<AceText.Token>, c: Config)
    ensures var (e, m) := (AceText.ReadRule(permit, rule), AddEntry(InAcl(list), n, permit, rule, c));
      && (m.Next? <==> e.Some? && 1 <= n <= 2147483647 && forall x :: x in EntriesOf(c, list) ==> x.seqNo != n)
      && (!m.Next? ==> m.Refused?)
      && (m.Next? ==>
           var (o, l) := AclEdit.Add(EntriesOf(c, list), Some(n), e.value);
           o.Changed? && m.config == c.(acls := c.acls[list := l]))
  {
    hide AceText.ReadRule;
  }

  // ----- modes

  /** A command of a sub-mode changes nothing but what the mode is about, and stays there. */
  lemma Confined(s: State, cmd: Command)
    requires Normalized(s.cfg) && !IsGlobal(cmd) && Exec(s, cmd).Some?
    ensures var (c, d) := (s.cfg, Exec(s, cmd).value.cfg);
      && Exec(s, cmd).value.mode == s.mode && Normalized(d)
      && DiffersIn(s.mode, c, d)
  {
    hide Valid, Normalize, Normalized, Mutate;
    NormalizeFixed(s.cfg);
    MutateConfined(s, cmd);
    match Mutate(s.mode, cmd, s.cfg) {
      case Next(c) =>
        NormalizeNormalizes(c);
        if s.mode.InAcl? { OtherLists(s.cfg, c, s.mode.n); } else { SameLists(s.cfg, c); }
      case _ =>
    }
  }

  /** The part of the configuration that a mode is about. */
  predicate DiffersIn(mode: CliMode, c: Config, d: Config) {
    match mode
    case InInterface(n) => d.(interfaces := c.interfaces) == c && d.interfaces - {n} == c.interfaces - {n}
    case InAcl(n) => d.(acls := c.acls) == c && d.acls - {n} == c.acls - {n}
    case InDhcpPool(n) => d.(pools := c.pools) == c && d.pools - {n} == c.pools - {n}
    case _ => false
  }

  lemma MutateConfined(s: State, cmd: Command)
    requires !IsGlobal(cmd)
    ensures var m := Mutate(s.mode, cmd, s.cfg);
      && ModeAfter(s.mode, cmd) == s.mode && (m.Next? ==> DiffersIn(s.mode, s.cfg, m.config))
      && (m.NoChange? ==> DiffersIn(s.mode, s.cfg, s.cfg))
  {
    hide EditEntry, EditPool, AceText.ReadRule;
  }

  lemma SameLists(c: Config, d: Config)
    requires Normalized(c) && d.acls == c.acls
    ensures Normalize(d) == d
  {
    NormalizeFixed(d);
  }

  lemma OtherLists(c: Config, d: Config, n: string)
    requires Normalize(c) == c && d.acls - {n} == c.acls - {n}
    ensures Normalize(d).acls - {n} == c.acls - {n} && Normalize(d).(acls := c.acls) == d.(acls := c.acls)
  {
    forall m | m in c.acls && m != n ensures m in d.acls && SortEntries(d.acls[m]) == c.acls[m] {
      assert m in c.acls - {n} && (d.acls - {n})[m] == d.acls[m] && Normalize(c).acls[m] == c.acls[m];
    }
    forall m | m in d.acls && m != n ensures m in c.acls { assert m in d.acls - {n}; }
  }

  /** A global command that opens no sub-mode leaves the one it was given in. */
  lemma SubModeLeft(s: State, cmd: Command, next: Command)
    requires IsGlobal(cmd) && !cmd.Acl? && !cmd.Iface? && !cmd.DhcpPool? && Exec(s, cmd).Some? && !IsGlobal(next)
    ensures Exec(Exec(s, cmd).value, next).None?
  {
    hide Valid, Normalize, EditEntry, EditPool;
  }
}
