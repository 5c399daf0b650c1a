/** What the words of an access-list entry mean for packets (netcli/internal/cli/acl.go): protocols,
    ports, addresses, types and flags, each through what it matches, and how an entry is put together
    from them. Most of these words are never printed. */
module AceMeaning {
  import opened Basics
  import opened Addresses
  import opened Config
  import opened Masks
  import opened AccessList
  import opened AceText

  // ----- protocols

  /** The protocols that a word stands for, if it stands for any. */
  predicate Stands(word: string, protocol: nat) {
    if word in {"ip", "ipv6"} then true
    else if word == "tcp" then protocol == 6
    else if word == "udp" then protocol == 17
    else if word == "icmp" then protocol == 1
    else if word in {"icmpv6", "ipv6-icmp"} then protocol == 58
    else Atoi(word) == Some(protocol)
  }

  /** A protocol is a name or a number up to 255, and matches what it stands for. */
  lemma ProtocolMeans(word: string)
    ensures ReadProtocol(word).Some? <==>
      word in {"ip", "ipv6", "tcp", "udp", "icmp", "icmpv6", "ipv6-icmp"} || (Atoi(word).Some? && 0 <= Atoi(word).value <= 255)
    ensures ReadProtocol(word).Some? ==> forall n: nat :: ProtocolMatches(ReadProtocol(word).value, n) <==> Stands(word, n)
  {
    hide Atoi;
    NamesAreNoNumbers(word);
  }

  /** A number that has a name is stored under it, so that ports and ICMP types can follow. */
  lemma NumbersWithNames(word: string)
    requires Atoi(word).Some?
    ensures Atoi(word) == Some(6) ==> ReadProtocol(word) == Some(Tcp)
    ensures Atoi(word) == Some(17) ==> ReadProtocol(word) == Some(Udp)
    ensures Atoi(word) == Some(1) ==> ReadProtocol(word) == Some(Icmp)
    ensures Atoi(word) == Some(58) ==> ReadProtocol(word) == Some(Icmp6)
  {
    hide Atoi;
    NamesAreNoNumbers(word);
  }

  lemma NamesAreNoNumbers(word: string)
    ensures word in {"ip", "ipv6", "tcp", "udp", "icmp", "icmpv6", "ipv6-icmp"} ==> Atoi(word).None?
  {
    if word != [] && word[0] in {'i', 't', 'u'} { assert !AllDigits(word); }
  }

  // ----- ports

  /** A port is a known name or a number. */
  lemma PortMeans(t: Token)
    ensures t.Word? && t.s in PORT_NAMES ==> ReadPort(t) == Some(PORT_NAMES[t.s])
    ensures t.Word? && t.s !in PORT_NAMES ==>
      ReadPort(t) == if Atoi(t.s).Some? && 0 <= Atoi(t.s).value <= 65535 then Atoi(t.s) else None
    ensures !t.Word? ==> ReadPort(t).None?
  {
    hide PORT_NAMES;
  }

  const QUALIFIERS := {"eq", "gt", "lt", "range"}

  /** The ports that a qualifier with these operands selects. */
  predicate Selects(op: string, lo: int, hi: int, port: int) {
    if op == "eq" then port == lo
    else if op == "gt" then lo < port <= 65535
    else if op == "lt" then 1 <= port < lo
    else lo <= port <= hi
  }

  predicate SelectsAny(op: string, lo: int, hi: int) { exists p :: 0 <= p <= 65535 && Selects(op, lo, hi, p) }

  /** A qualifier matches exactly the ports that it selects, and is refused exactly when its operands are no
      ports or it selects none. */
  lemma PortsMean(ts: seq<Token>)
    requires ts != [] && ts[0].Word? && ts[0].s in QUALIFIERS
    ensures var (op, k) := (ts[0].s, if ts[0].s == "range" then 3 else 2);
      var read := |ts| >= k && ReadPort(ts[1]).Some? && (op == "range" ==> ReadPort(ts[2]).Some?);
      && (ReadPorts(ts).Got? <==>
           read && SelectsAny(op, ReadPort(ts[1]).value, if op == "range" then ReadPort(ts[2]).value else 0))
      && (ReadPorts(ts).Got? ==>
           && ReadPorts(ts).rest == ts[k..]
           && forall protocol: nat, p: nat :: PortsMatch(ReadPorts(ts).value, protocol, p) <==>
                protocol in {TCP, UDP} && Selects(op, ReadPort(ts[1]).value, if op == "range" then ReadPort(ts[2]).value else 0, p))
  {
    hide PORT_NAMES, ReadPort;
    if |ts| >= 2 { PortRange(ts[1]); }
    if |ts| >= 3 { PortRange(ts[2]); }
    if |ts| >= 2 && ReadPort(ts[1]).Some? {
      var lo := ReadPort(ts[1]).value;
      if ts[0].s == "gt" && lo < 65535 { assert Selects("gt", lo, 0, 65535); }
      if ts[0].s == "lt" && lo > 1 { assert Selects("lt", lo, 0, 1); }
      if ts[0].s == "eq" { assert Selects("eq", lo, 0, lo); }
      if ts[0].s == "range" && |ts| >= 3 && ReadPort(ts[2]).Some? { assert Selects("range", lo, ReadPort(ts[2]).value, lo) <==> lo <= ReadPort(ts[2]).value; }
    }
  }

  lemma PortRange(t: Token)
    ensures ReadPort(t).Some? ==> 0 <= ReadPort(t).value <= 65535
  {
  }

  /** `neq` is refused; without a qualifier, nothing is read and every packet matches. */
  lemma NoPortsMean(ts: seq<Token>)
    requires ts == [] || !ts[0].Word? || ts[0].s !in QUALIFIERS
    ensures if ts != [] && ts[0] == Word("neq") then ReadPorts(ts).Nothing?
            else ReadPorts(ts).Got? && ReadPorts(ts).rest == ts && forall protocol: nat, p: nat :: PortsMatch(ReadPorts(ts).value, protocol, p)
  {
  }

  // ----- addresses

  /** Every way to write an address, and the addresses that it matches. */
  lemma AddrMeans(ts: seq<Token>)
    requires ts != []
    ensures ts[0].Word? && ts[0].s in {"any", "any4", "any6"} ==>
      ReadAddr(ts).Got? && ReadAddr(ts).rest == ts[1..] && forall a: Addr :: EndpointMatches(ReadAddr(ts).value, a)
    ensures ts[0] == Word("host") ==>
      && (ReadAddr(ts).Got? <==> |ts| > 1 && ts[1].Address?)
      && (ReadAddr(ts).Got? ==> ReadAddr(ts).rest == ts[2..] && forall a: Addr :: EndpointMatches(ReadAddr(ts).value, a) <==> a == ts[1].addr)
    ensures ts[0].Word? && ts[0].s !in {"any", "any4", "any6", "host"} ==> ReadAddr(ts).Nothing?
    ensures ts[0].Subnet? ==>
      && (ReadAddr(ts).Got? <==> ts[0].prefix.Masked() == ts[0].prefix)
      && (ReadAddr(ts).Got? ==>
           ReadAddr(ts).rest == ts[1..] && forall a: Addr :: EndpointMatches(ReadAddr(ts).value, a) <==> ts[0].prefix.Contains(a))
    ensures ts[0].Address? && !HasWildcard(ts) ==>
      ReadAddr(ts).Got? && ReadAddr(ts).rest == ts[1..] && forall a: Addr :: EndpointMatches(ReadAddr(ts).value, a) <==> a == ts[0].addr
  {
    if ts[0].Address? { HostMeans(ts[0].addr); }
    if |ts| > 1 && ts[1].Address? { HostMeans(ts[1].addr); }
  }

  predicate HasWildcard(ts: seq<Token>) {
    |ts| > 1 && ts[0].Address? && ts[0].addr.family == V4 && ts[1].Address? && ts[1].addr.family == V4
  }

  lemma HostMeans(h: Addr)
    ensures forall a: Addr :: HostPrefix(h).Contains(a) <==> a == h
  {
    forall a: Addr { SingleContains(HostPrefix(h), a); }
  }

  /** An address with a wildcard mask: the mask has to be one less than a power of two, and the address free of
      the bits under it; it then matches the addresses from there on that differ under the mask alone. */
  lemma WildcardMeans(ts: seq<Token>)
    requires HasWildcard(ts)
    ensures var (a, w) := (ts[0].addr.value, ts[1].addr.value);
      && (ReadAddr(ts).Got? <==> (exists k :: 0 <= k <= 32 && w == Pow2(k) - 1) && a % (w + 1) == 0)
      && (ReadAddr(ts).Got? ==>
           && ReadAddr(ts).rest == ts[2..]
           && forall b: Addr :: EndpointMatches(ReadAddr(ts).value, b) <==> b.family == V4 && a <= b.value <= a + w)
  {
    hide Pow2, WildcardBits;
    var (a, w) := (ts[0].addr, ts[1].addr.value);
    WildcardBitsMean(w);
    var bits := WildcardBits(w);
    if bits.Some? {
      var p: Prefix := Prefix(a, bits.value);
      assert p.Span() == w + 1;
      MaskedMeans(p);
      if p.Masked() == p { UnderMask(p); }
    }
  }

  lemma WildcardBitsMean(w: nat)
    ensures WildcardBits(w).Some? <==> exists k :: 0 <= k <= 32 && w == Pow2(k) - 1
    ensures WildcardBits(w).Some? ==> WildcardBits(w).value <= 32 && w == Pow2(32 - WildcardBits(w).value) - 1
  {
    hide Pow2;
    if k: nat :| k <= 32 && w == Pow2(k) - 1 { assert 0 <= k <= 32 && w == Pow2(k) - 1; }
  }

  lemma MaskedMeans(p: Prefix)
    ensures p.Masked() == p <==> p.addr.value % p.Span() == 0
  {
    hide Pow2;
  }

  lemma UnderMask(p: Prefix)
    requires p.addr.value % p.Span() == 0
    ensures forall b: Addr :: p.Contains(b) <==> b.family == p.addr.family && p.addr.value <= b.value < p.addr.value + p.Span()
  {
    var (a, n) := (p.addr.value, p.Span());
    forall b: Addr ensures b.value / n == a / n <==> a <= b.value < a + n { SameQuotient(a, b.value, n); }
  }

  lemma SameQuotient(a: nat, b: nat, n: nat)
    requires n > 0 && a % n == 0
    ensures b / n == a / n <==> a <= b < a + n
  {
    var q := a / n;
    assert a == q * n;
    if a <= b < a + n {
      assert b == q * n + (b - a);
      Quotient(q, b - a, n);
    }
  }

  lemma Quotient(q: nat, r: nat, n: nat)
    requires r < n
    ensures (q * n + r) / n == q
  {
    var k := (q * n + r) / n;
    ModUnique(q * n + r, n, q, r);
    assert n * (k - q) == 0;
    if k > q { MultipleIsLarge(n, k - q); } else if k < q { MultipleIsLarge(n, q - k); }
  }

  // ----- types and flags

  /** An ICMP type is a known name of that protocol or a number up to 255; it is left out at the end and before a flag. */
  lemma IcmpMeans(p: Protocol, ts: seq<Token>)
    ensures ts == [] || ts[0] in {Word("log"), Word("stateless"), Word("")} ==> ReadIcmp(p, ts) == Got(None, ts)
    ensures ts != [] && ts[0].Word? && ts[0].s in IcmpNames(p) && ts[0].s !in {"log", "stateless", ""} ==>
      ReadIcmp(p, ts) == Got(Some(IcmpNames(p)[ts[0].s]), ts[1..])
    ensures ts != [] && ts[0].Word? && ts[0].s !in IcmpNames(p) && Atoi(ts[0].s).Some? ==>
      ReadIcmp(p, ts) == if 0 <= Atoi(ts[0].s).value <= 255 then Got(Atoi(ts[0].s), ts[1..]) else Nothing
  {
    hide ICMP_NAMES, ICMP6_NAMES;
    assert Atoi("log").None? && Atoi("stateless").None? && Atoi("").None?;
  }

  const FLAGS := {"log", "stateless"}

  /** The word is not among those that have been read. */
  predicate Behind(f: string, ts: seq<Token>, rest: seq<Token>) { Word(f) in ts <==> Word(f) in rest }

  lemma AddrHasNoFlag(ts: seq<Token>, f: string)
    requires ReadAddr(ts).Got? && f in FLAGS
    ensures Behind(f, ts, ReadAddr(ts).rest)
  {
    var rest := ReadAddr(ts).rest;
    assert ts == ts[..|ts| - |rest|] + rest;
  }

  lemma PortsHaveNoFlag(ts: seq<Token>, f: string)
    requires ReadPorts(ts).Got? && f in FLAGS
    ensures Behind(f, ts, ReadPorts(ts).rest)
  {
    hide PORT_NAMES, ReadPort;
    var rest := ReadPorts(ts).rest;
    assert ReadPort(Word(f)).None? by { FlagIsNoPort(f); }
    assert ts == ts[..|ts| - |rest|] + rest;
  }

  lemma FlagIsNoPort(f: string)
    requires f in FLAGS
    ensures ReadPort(Word(f)).None?
  {
    assert Atoi("log").None? && Atoi("stateless").None?;
  }

  lemma IcmpHasNoFlag(p: Protocol, ts: seq<Token>, f: string)
    requires ReadIcmp(p, ts).Got? && f in FLAGS
    ensures Behind(f, ts, ReadIcmp(p, ts).rest)
  {
    hide ICMP_NAMES, ICMP6_NAMES;
    var rest := ReadIcmp(p, ts).rest;
    assert ts == ts[..|ts| - |rest|] + rest;
  }

  lemma ProtocolIsNoFlag(word: string)
    requires ReadProtocol(word).Some?
    ensures word !in FLAGS
  {
    assert Atoi("log").None? && Atoi("stateless").None?;
  }

  // ----- the whole entry

  /** What is read for each part of an entry, and the words that follow it. */
  datatype Parts = Parts(protocol: Protocol, src: Parsed<Endpoint>, srcPorts: Parsed<Ports>,
                         dst: Parsed<Endpoint>, dstPorts: Parsed<Ports>, icmp: Parsed<Option<int>>)

  /** The parts stand in this order, each where the one before it ends, and nothing but flags follows. */
  predicate IsWritten(ts: seq<Token>, x: Parts) {
    && ts != [] && ts[0].Word? && ReadProtocol(ts[0].s) == Some(x.protocol)
    && x.src == ReadAddr(ts[1..]) && x.src.Got?
    && x.srcPorts == (if x.protocol.Tcp? || x.protocol.Udp? then ReadPorts(x.src.rest) else Got(NoPorts, x.src.rest)) && x.srcPorts.Got?
    && x.dst == ReadAddr(x.srcPorts.rest) && x.dst.Got?
    && x.dstPorts == (if x.protocol.Tcp? || x.protocol.Udp? then ReadPorts(x.dst.rest) else Got(NoPorts, x.dst.rest)) && x.dstPorts.Got?
    && x.icmp == (if x.protocol.Icmp? || x.protocol.Icmp6? then ReadIcmp(x.protocol, x.dstPorts.rest) else Got(None, x.dstPorts.rest))
    && x.icmp.Got? && OnlyFlags(x.icmp.rest)
  }

  predicate HasFamily(x: Parts, f: Family)
    requires x.src.Got? && x.dst.Got?
  {
    (x.src.value.Net? && x.src.value.prefix.addr.family == f) || (x.dst.value.Net? && x.dst.value.prefix.addr.family == f)
  }

  /** The two sides agree in their family, ICMP in its own, and only what is permitted is stateless. */
  predicate Consistent(permit: bool, ts: seq<Token>, x: Parts)
    requires x.src.Got? && x.dst.Got?
  {
    && !(HasFamily(x, V4) && HasFamily(x, V6))
    && (x.protocol.Icmp? ==> !HasFamily(x, V6)) && (x.protocol.Icmp6? ==> !HasFamily(x, V4))
    && (Word("stateless") in ts ==> permit)
  }

  /** Words are an entry exactly when all their parts are there and consistent. */
  lemma RuleIsWritten(permit: bool, ts: seq<Token>)
    ensures ReadRule(permit, ts).Some? <==> exists x :: IsWritten(ts, x) && Consistent(permit, ts, x)
  {
    hide ReadAddr, ReadPorts, ReadIcmp, ReadProtocol, ValidAce, OnlyFlags, Consistent;
    if x :| IsWritten(ts, x) && Consistent(permit, ts, x) { RuleMeans(permit, ts, x); }
    if ReadRule(permit, ts).Some? {
      var x := Written(ts);
      assert IsWritten(ts, x);
      RuleMeans(permit, ts, x);
    }
  }

  function Written(ts: seq<Token>): Parts
    requires ReadRule(true, ts).Some? || ReadRule(false, ts).Some?
  {
    var proto := ReadProtocol(ts[0].s).value;
    var src := ReadAddr(ts[1..]);
    var srcPorts := if HasPorts(proto) then ReadPorts(src.rest) else Got(NoPorts, src.rest);
    var dst := ReadAddr(srcPorts.rest);
    var dstPorts := if HasPorts(proto) then ReadPorts(dst.rest) else Got(NoPorts, dst.rest);
    Parts(proto, src, srcPorts, dst, dstPorts,
          if proto.Icmp? || proto.Icmp6? then ReadIcmp(proto, dstPorts.rest) else Got(None, dstPorts.rest))
  }

  /** An entry matches the packets that all its parts match, and has the flags that are written. */
  lemma RuleMeans(permit: bool, ts: seq<Token>, x: Parts)
    requires IsWritten(ts, x)
    ensures ReadRule(permit, ts).Some? <==> Consistent(permit, ts, x)
    ensures ReadRule(permit, ts).Some? ==> var e := ReadRule(permit, ts).value;
      && e.permit == permit && (e.log <==> Word("log") in ts) && (e.stateless <==> Word("stateless") in ts)
      && forall p: Packet :: Matches(e, p) <==>
           && ProtocolMatches(x.protocol, p.protocol)
           && EndpointMatches(x.src.value, p.src) && PortsMatch(x.srcPorts.value, p.protocol, p.srcPort)
           && EndpointMatches(x.dst.value, p.dst) && PortsMatch(x.dstPorts.value, p.protocol, p.dstPort)
           && (x.icmp.value.Some? ==> p.icmpType == x.icmp.value.value)
  {
    hide ReadAddr, ReadPorts, ReadIcmp, OnlyFlags, Atoi;
    FlagsStand(ts, x, "log");
    FlagsStand(ts, x, "stateless");
    PortsAreValid(x.src.rest);
    PortsAreValid(x.dst.rest);
    TypeIsValid(x.protocol, x.dstPorts.rest);
  }

  lemma PortsAreValid(ts: seq<Token>)
    ensures ReadPorts(ts).Got? ==> ValidPorts(ReadPorts(ts).value)
  {
    hide ReadPort;
    if |ts| >= 2 { PortRange(ts[1]); }
    if |ts| >= 3 { PortRange(ts[2]); }
  }

  lemma TypeIsValid(p: Protocol, ts: seq<Token>)
    ensures ReadIcmp(p, ts).Got? && ReadIcmp(p, ts).value.Some? ==> 0 <= ReadIcmp(p, ts).value.value <= 255
  {
  }

  /** No flag is read as anything else. */
  lemma FlagsStand(ts: seq<Token>, x: Parts, f: string)
    requires IsWritten(ts, x) && f in FLAGS
    ensures Word(f) in ts <==> Word(f) in x.icmp.rest
  {
    hide ReadAddr, ReadPorts, ReadIcmp, ReadProtocol, OnlyFlags;
    ProtocolIsNoFlag(ts[0].s);
    assert ts == [ts[0]] + ts[1..];
    AddrHasNoFlag(ts[1..], f);
    if HasPorts(x.protocol) { PortsHaveNoFlag(x.src.rest, f); }
    AddrHasNoFlag(x.srcPorts.rest, f);
    if HasPorts(x.protocol) { PortsHaveNoFlag(x.dst.rest, f); }
    if x.protocol.Icmp? || x.protocol.Icmp6? { IcmpHasNoFlag(x.protocol, x.dstPorts.rest, f); }
  }
}
