/** The text of access-list entries (netcli/internal/cli/acl.go): the parser, the
    printer, and what survives a round trip through both. */
module AceText {
  import opened Basics
  import opened Addresses
  import opened Config
  import opened Masks
  import opened AccessList

  /** A lower-case word of a rule: an address, an address with a prefix length, or anything else. */
  datatype Token = Word(s: string) | Address(addr: Addr) | Subnet(prefix: Prefix)

  const PORT_NAMES: map<string, int> := map[
    "ftp-data" := 20, "ftp" := 21, "ssh" := 22, "telnet" := 23, "smtp" := 25, "domain" := 53,
    "bootps" := 67, "bootpc" := 68, "tftp" := 69, "www" := 80, "http" := 80, "pop3" := 110,
    "ntp" := 123, "imap" := 143, "snmp" := 161, "snmptrap" := 162, "bgp" := 179, "ldap" := 389,
    "https" := 443, "isakmp" := 500, "syslog" := 514, "submission" := 587, "imaps" := 993,
    "pop3s" := 995, "openvpn" := 1194, "non500-isakmp" := 4500, "wireguard" := 51820]

  const ICMP_NAMES: map<string, int> := map[
    "echo-reply" := 0, "unreachable" := 3, "redirect" := 5, "echo" := 8,
    "router-advertisement" := 9, "router-solicitation" := 10, "time-exceeded" := 11,
    "parameter-problem" := 12, "timestamp-request" := 13, "timestamp-reply" := 14]

  const ICMP6_NAMES: map<string, int> := map[
    "unreachable" := 1, "packet-too-big" := 2, "time-exceeded" := 3, "parameter-problem" := 4,
    "echo" := 128, "echo-request" := 128, "echo-reply" := 129, "router-solicitation" := 133,
    "router-advertisement" := 134, "nd-ns" := 135, "nd-na" := 136]

  function IcmpNames(p: Protocol): map<string, int> { if p.Icmp6? then ICMP6_NAMES else ICMP_NAMES }

  // ----- names of ICMP types

  /** Shorter names are preferred, then alphabetically earlier ones. */
  predicate Preferred(a: string, b: string) { |a| < |b| || (|a| == |b| && LexLess(a, b)) }

  predicate IsBest(names: map<string, int>, t: int, best: string) {
    && best in names && names[best] == t
    && forall n :: n in names && names[n] == t && n != best ==> Preferred(best, n)
  }

  lemma BestUnique(names: map<string, int>, t: int, a: string, b: string)
    requires IsBest(names, t, a) && IsBest(names, t, b)
    ensures a == b
  {
    LexTotal(a, b);
  }

  /** icmpName: the preferred name of a type, or its number. */
  ghost function IcmpName(p: Protocol, t: nat): string {
    if best :| IsBest(IcmpNames(p), t, best) then best else Itoa(t)
  }

  /** The search through the names, in whatever order the map yields them. */
  method FindIcmpName(p: Protocol, t: nat) returns (name: string)
    ensures name == IcmpName(p, t)
  {
    var names, best, found := IcmpNames(p), "", false;
    var todo := names.Keys;
    while todo != {}
      invariant todo <= names.Keys
      invariant found ==> best in names && names[best] == t && best !in todo
      invariant found ==> forall n :: n in names && n !in todo && names[n] == t && n != best ==> Preferred(best, n)
      invariant !found ==> forall n :: n in names && n !in todo ==> names[n] != t
      decreases todo
    {
      var n :| n in todo;
      todo := todo - {n};
      if names[n] == t && (!found || |n| < |best| || (|n| == |best| && LexLess(n, best))) {
        if found { PreferredTransitive(n, best); }
        best, found := n, true;
      } else if names[n] == t {
        LexTotal(n, best);
      }
    }
    if found {
      assert IsBest(names, t, best);
      forall b | IsBest(names, t, b) ensures b == best { BestUnique(names, t, b, best); }
      return best;
    }
    name := Itoa(t);
  }

  lemma PreferredTransitive(a: string, b: string)
    requires Preferred(a, b)
    ensures forall c :: Preferred(b, c) ==> Preferred(a, c)
  {
    forall c | Preferred(b, c) ensures Preferred(a, c) {
      if |a| == |b| == |c| { LexLessTransitive(a, b, c); }
    }
  }

  // ----- printing

  function AddrTokens(e: Endpoint): seq<Token> {
    if e.Any? then [Word("any")]
    else if e.prefix.IsSingle() then [Word("host"), Address(e.prefix.addr)]
    else if e.prefix.addr.family == V4 then [Address(e.prefix.addr), Address(MaskAddr(e.prefix.bits))]
    else [Subnet(e.prefix)]
  }

  function MaskAddr(bits: nat): Addr
    requires bits <= 32
  {
    Pow2Of32();
    Addr(V4, Wildcard(bits))
  }

  function PortTokens(p: Ports): seq<Token> {
    match p
    case NoPorts => []
    case One(n) => [Word("eq"), Word(PortText(n))]
    case Range(lo, hi) =>
      if lo == hi then [Word("eq"), Word(PortText(lo))] else [Word("range"), Word(PortText(lo)), Word(PortText(hi))]
  }

  function PortText(n: int): string { if n >= 0 then Itoa(n) else "-" + Itoa(-n) }

  function ProtocolWord(p: Protocol): string {
    match p
    case Ip => "ip"
    case Tcp => "tcp"
    case Udp => "udp"
    case Icmp => "icmp"
    case Icmp6 => "icmpv6"
    case Number(word) => word
  }

  ghost function IcmpTokens(e: Ace): seq<Token> {
    if e.icmpType.Some? && e.icmpType.value >= 0 then [Word(IcmpName(e.protocol, e.icmpType.value))] else []
  }

  function FlagTokens(e: Ace): seq<Token> {
    (if e.log then [Word("log")] else []) + (if e.stateless then [Word("stateless")] else [])
  }

  /** formatACE after the action. */
  ghost function RuleTokens(e: Ace): seq<Token> {
    [Word(ProtocolWord(e.protocol))] + (AddrTokens(e.src) + (PortTokens(e.srcPorts) +
    (AddrTokens(e.dst) + (PortTokens(e.dstPorts) + (IcmpTokens(e) + FlagTokens(e))))))
  }

  /** sameRule: equal text, whatever the sequence number. */
  ghost predicate SameRule(a: Ace, b: Ace) { a.permit == b.permit && RuleTokens(a) == RuleTokens(b) }

  // ----- reading

  datatype Parsed<T> = Nothing | Got(value: T, rest: seq<Token>)

  function ReadProtocol(word: string): Option<Protocol> {
    if word == "ip" || word == "ipv6" then Some(Protocol.Ip)
    else if word == "tcp" then Some(Tcp)
    else if word == "udp" then Some(Udp)
    else if word == "icmp" then Some(Icmp)
    else if word == "icmpv6" || word == "ipv6-icmp" then Some(Icmp6)
    else
      var n := Atoi(word);
      if n.None? || n.value < 0 || n.value > 255 then None
      else if n.value == 1 then Some(Icmp)
      else if n.value == 6 then Some(Tcp)
      else if n.value == 17 then Some(Udp)
      else if n.value == 58 then Some(Icmp6)
      else Some(Number(word))
  }

  function ReadAddr(ts: seq<Token>): Parsed<Endpoint> {
    if ts == [] then Nothing
    else match ts[0]
    case Word(w) =>
      if w == "any" || w == "any4" || w == "any6" then Got(Any, ts[1..])
      else if w == "host" && |ts| > 1 && ts[1].Address? then Got(Net(HostPrefix(ts[1].addr)), ts[2..])
      else Nothing
    case Subnet(p) => if p.Masked() == p then Got(Net(p), ts[1..]) else Nothing
    case Address(a) =>
      if a.family == V4 && |ts| > 1 && ts[1].Address? && ts[1].addr.family == V4 then
        var bits := WildcardBits(ts[1].addr.value);
        if bits.None? then Nothing
        else
          var p: Prefix := Prefix(a, bits.value);
          if p.Masked() == p then Got(Net(p), ts[2..]) else Nothing
      else Got(Net(HostPrefix(a)), ts[1..])
  }

  function ReadPort(t: Token): Option<int> {
    if !t.Word? then None
    else if t.s in PORT_NAMES then Some(PORT_NAMES[t.s])
    else
      var n := Atoi(t.s);
      if n.None? || n.value < 0 || n.value > 65535 then None else n
  }

  /** An optional port qualifier. */
  function ReadPorts(ts: seq<Token>): Parsed<Ports> {
    if ts == [] || !ts[0].Word? || ts[0].s !in {"eq", "gt", "lt", "range", "neq"} then Got(NoPorts, ts)
    else if ts[0].s == "neq" || |ts| < 2 || ReadPort(ts[1]).None? then Nothing
    else
      var lo := ReadPort(ts[1]).value;
      if ts[0].s == "eq" then Got(One(lo), ts[2..])
      else if ts[0].s == "gt" then if lo >= 65535 then Nothing else Got(Range(lo + 1, 65535), ts[2..])
      else if ts[0].s == "lt" then if lo <= 1 then Nothing else Got(Range(1, lo - 1), ts[2..])
      else if |ts| < 3 || ReadPort(ts[2]).None? || ReadPort(ts[2]).value < lo then Nothing
      else
        var hi := ReadPort(ts[2]).value;
        Got(if hi == lo then One(lo) else Range(lo, hi), ts[3..])
  }

  /** An optional ICMP type. */
  function ReadIcmp(p: Protocol, ts: seq<Token>): Parsed<Option<int>> {
    if ts == [] || ts[0] == Word("") || ts[0] == Word("log") || ts[0] == Word("stateless") then Got(None, ts)
    else if !ts[0].Word? then Nothing
    else
      var w := ts[0].s;
      if w in IcmpNames(p) then Got(Some(IcmpNames(p)[w]), ts[1..])
      else
        var n := Atoi(w);
        if n.None? || n.value < 0 || n.value > 255 then Nothing else Got(n, ts[1..])
  }

  predicate OnlyFlags(ts: seq<Token>) { forall i :: 0 <= i < |ts| ==> ts[i] == Word("log") || ts[i] == Word("stateless") }

  predicate HasPorts(p: Protocol) { p.Tcp? || p.Udp? }

  /** parseACE. The sequence number is assigned by the caller. */
  function ReadRule(permit: bool, ts: seq<Token>): Option<Ace> {
    if ts == [] || !ts[0].Word? || ReadProtocol(ts[0].s).None? then None
    else
      var proto := ReadProtocol(ts[0].s).value;
      var src := ReadAddr(ts[1..]);
      if src.Nothing? then None
      else
        var srcPorts := if HasPorts(proto) then ReadPorts(src.rest) else Got(NoPorts, src.rest);
        if srcPorts.Nothing? then None
        else
          var dst := ReadAddr(srcPorts.rest);
          if dst.Nothing? then None
          else
            var dstPorts := if HasPorts(proto) then ReadPorts(dst.rest) else Got(NoPorts, dst.rest);
            if dstPorts.Nothing? then None
            else
              var icmp := if proto.Icmp? || proto.Icmp6? then ReadIcmp(proto, dstPorts.rest) else Got(None, dstPorts.rest);
              if icmp.Nothing? || !OnlyFlags(icmp.rest) then None
              else
                var e := Ace(0, permit, proto, src.value, srcPorts.value, dst.value, dstPorts.value, icmp.value,
                             Word("log") in icmp.rest, Word("stateless") in icmp.rest);
                if ValidAce(e.(seqNo := 1)) then Some(e) else None
  }

  // ----- the round trip

  /** What every entry that was read looks like. */
  predicate Readable(e: Ace) {
    && ValidAce(e.(seqNo := 1))
    && (e.protocol.Number? ==> ReadProtocol(e.protocol.word) == Some(e.protocol))
    && (e.src.Net? ==> e.src.prefix.Masked() == e.src.prefix)
    && (e.dst.Net? ==> e.dst.prefix.Masked() == e.dst.prefix)
  }

  /** `lt 2` is stored as 1-1 but printed as `eq 1`. */
  function CanonPorts(p: Ports): Ports { if p.Range? && p.lo == p.hi then One(p.lo) else p }

  function Canon(e: Ace): Ace { e.(seqNo := 0, srcPorts := CanonPorts(e.srcPorts), dstPorts := CanonPorts(e.dstPorts)) }

  lemma ReadGivesReadable(permit: bool, ts: seq<Token>)
    requires ReadRule(permit, ts).Some?
    ensures Readable(ReadRule(permit, ts).value) && ReadRule(permit, ts).value.permit == permit
    ensures ReadRule(permit, ts).value.seqNo == 0
  {
  }

  lemma PortNameStart(w: string)
    requires w in PORT_NAMES
    ensures w != [] && !IsDigit(w[0])
  {
  }

  lemma IcmpNameStart(w: string)
    requires w in ICMP_NAMES || w in ICMP6_NAMES
    ensures w != [] && !IsDigit(w[0]) && w !in {"log", "stateless"}
  {
  }

  lemma NumbersAreNoNames(w: string)
    requires w != [] && IsDigit(w[0])
    ensures w !in PORT_NAMES && w !in ICMP_NAMES && w !in ICMP6_NAMES && w !in {"", "log", "stateless"}
  {
    hide PORT_NAMES, ICMP_NAMES, ICMP6_NAMES;
    if w in PORT_NAMES { PortNameStart(w); }
    if w in ICMP_NAMES || w in ICMP6_NAMES { IcmpNameStart(w); }
  }

  lemma ProtocolRoundTrip(p: Protocol)
    requires p.Number? ==> ReadProtocol(p.word) == Some(p)
    ensures ReadProtocol(ProtocolWord(p)) == Some(p)
  {
  }

  lemma AddrRoundTrip(e: Endpoint, rest: seq<Token>)
    requires e.Net? ==> e.prefix.Masked() == e.prefix
    ensures ReadAddr(AddrTokens(e) + rest) == Got(e, rest)
  {
    hide Wildcard, WildcardBits, Pow2;
    var ts := AddrTokens(e) + rest;
    if e.Any? {
      assert ts[1..] == rest;
    } else if e.prefix.IsSingle() {
      assert ts[2..] == rest;
    } else if e.prefix.addr.family == V4 {
      WildcardRoundTrip(e.prefix.bits);
      assert ts[2..] == rest;
    } else {
      assert ts[1..] == rest;
    }
  }

  lemma PortRoundTrip(n: nat)
    requires n <= 65535
    ensures ReadPort(Word(PortText(n))) == Some(n)
  {
    NumbersAreNoNames(Itoa(n));
    AtoiItoa(n);
  }

  /** The words that start a port qualifier. */
  predicate StartsPorts(ts: seq<Token>) { ts != [] && ts[0].Word? && ts[0].s in {"eq", "gt", "lt", "range", "neq"} }

  lemma PortsRoundTrip(p: Ports, rest: seq<Token>)
    requires ValidPorts(p) && !StartsPorts(rest)
    ensures ReadPorts(PortTokens(p) + rest) == Got(CanonPorts(p), rest)
  {
    hide PortText, ReadPort;
    var ts := PortTokens(p) + rest;
    match p {
      case NoPorts => assert ts == rest;
      case One(n) =>
        PortRoundTrip(n);
        assert ts[2..] == rest;
      case Range(lo, hi) =>
        PortRoundTrip(lo);
        PortRoundTrip(hi);
        assert if lo == hi then ts[2..] == rest else ts[3..] == rest;
    }
  }

  lemma IcmpNameReads(p: Protocol, t: nat)
    requires t <= 255
    ensures var w := IcmpName(p, t);
      && w !in {"", "log", "stateless"}
      && (if w in IcmpNames(p) then IcmpNames(p)[w] == t else Atoi(w) == Some(t))
  {
    hide PORT_NAMES, ICMP_NAMES, ICMP6_NAMES;
    if exists best :: IsBest(IcmpNames(p), t, best) {
      IcmpNameStart(IcmpName(p, t));
    } else {
      NumbersAreNoNames(Itoa(t));
      AtoiItoa(t);
    }
  }

  lemma FlagsRoundTrip(e: Ace)
    ensures var ts := FlagTokens(e);
      && OnlyFlags(ts) && !StartsPorts(ts) && (ts == [] || ts[0] == Word("log") || ts[0] == Word("stateless"))
      && (Word("log") in ts <==> e.log) && (Word("stateless") in ts <==> e.stateless)
  {
    var (l, s) := (if e.log then [Word("log")] else [], if e.stateless then [Word("stateless")] else []);
    assert forall t :: t in l + s <==> t in l || t in s;
    assert |"log"| != |"stateless"|;
  }

  lemma IcmpRoundTrip(e: Ace)
    requires Readable(e) && (e.protocol.Icmp? || e.protocol.Icmp6?)
    ensures ReadIcmp(e.protocol, IcmpTokens(e) + FlagTokens(e)) == Got(e.icmpType, FlagTokens(e))
  {
    hide PORT_NAMES, ICMP_NAMES, ICMP6_NAMES, IcmpName, FlagTokens, OnlyFlags, StartsPorts;
    var ts := IcmpTokens(e) + FlagTokens(e);
    FlagsRoundTrip(e);
    if e.icmpType.Some? {
      IcmpNameReads(e.protocol, e.icmpType.value);
      assert ts[1..] == FlagTokens(e);
    } else {
      assert ts == FlagTokens(e);
    }
  }

  lemma AddrStartsNoPorts(e: Endpoint, rest: seq<Token>)
    ensures !StartsPorts(AddrTokens(e) + rest)
  {
  }

  /** Reading the printed form gives the canonical form of the entry. */
  lemma RoundTrip(e: Ace)
    requires Readable(e)
    ensures ReadRule(e.permit, RuleTokens(e)) == Some(Canon(e))
  {
    hide AddrTokens, PortTokens, IcmpTokens, FlagTokens, ReadAddr, ReadPorts, ReadIcmp, ReadProtocol, ProtocolWord;
    hide OnlyFlags, PORT_NAMES, ICMP_NAMES, ICMP6_NAMES, StartsPorts, ValidAce, CanonPorts;
    var tail := IcmpTokens(e) + FlagTokens(e);
    var fromDst := AddrTokens(e.dst) + (PortTokens(e.dstPorts) + tail);
    assert RuleTokens(e)[1..] == AddrTokens(e.src) + (PortTokens(e.srcPorts) + fromDst);
    ProtocolRoundTrip(e.protocol);
    AddrRoundTrip(e.src, PortTokens(e.srcPorts) + fromDst);
    AddrRoundTrip(e.dst, PortTokens(e.dstPorts) + tail);
    FlagsRoundTrip(e);
    AddrStartsNoPorts(e.dst, PortTokens(e.dstPorts) + tail);
    NoTokens(e);
    CanonValid(e);
    if HasPorts(e.protocol) {
      assert tail == FlagTokens(e);
      PortsRoundTrip(e.srcPorts, fromDst);
      PortsRoundTrip(e.dstPorts, tail);
    } else {
      assert PortTokens(e.srcPorts) + fromDst == fromDst && PortTokens(e.dstPorts) + tail == tail;
      if e.protocol.Icmp? || e.protocol.Icmp6? { IcmpRoundTrip(e); } else { assert tail == FlagTokens(e); }
    }
  }

  lemma CanonValid(e: Ace)
    requires ValidAce(e.(seqNo := 1))
    ensures ValidAce(Canon(e).(seqNo := 1))
    ensures ValidPorts(e.srcPorts) && ValidPorts(e.dstPorts)
    ensures !HasPorts(e.protocol) ==> e.srcPorts.NoPorts? && e.dstPorts.NoPorts?
    ensures !(e.protocol.Icmp? || e.protocol.Icmp6?) ==> e.icmpType.None?
  {
  }

  lemma NoTokens(e: Ace)
    ensures e.icmpType.None? ==> IcmpTokens(e) == []
    ensures PortTokens(NoPorts) == []
  {
  }

  // ----- what it means

  /** The canonical form matches the same packets. */
  lemma CanonMatches(e: Ace, p: Packet)
    ensures Matches(Canon(e), p) <==> Matches(e, p)
  {
  }

  /** For every entry that is ever read: printing and reading it again succeeds and gives an
      entry that is the same rule and matches the same packets, and it is the entry itself
      exactly when no port range has a single port. */
  lemma PrintReadTheorem(permit: bool, ts: seq<Token>)
    requires ReadRule(permit, ts).Some?
    ensures var e := ReadRule(permit, ts).value;
      var again := ReadRule(permit, RuleTokens(e));
      && again.Some? && SameRule(again.value, e)
      && (forall p :: Matches(again.value, p) <==> Matches(e, p))
      && (again.value == e <==> CanonPorts(e.srcPorts) == e.srcPorts && CanonPorts(e.dstPorts) == e.dstPorts)
  {
    hide ReadRule;
    ReadGivesReadable(permit, ts);
    var e := ReadRule(permit, ts).value;
    RoundTrip(e);
    forall p { CanonMatches(e, p); }
    CanonPrints(e);
  }

  lemma CanonPrints(e: Ace)
    ensures RuleTokens(Canon(e)) == RuleTokens(e)
  {
  }

  /** Entries are the same rule exactly when they agree up to one-port ranges. */
  lemma SameRuleMeans(a: Ace, b: Ace)
    requires Readable(a) && Readable(b)
    ensures SameRule(a, b) <==> Canon(a) == Canon(b)
    ensures SameRule(a, b) ==> a.permit == b.permit && forall p :: Matches(a, p) <==> Matches(b, p)
  {
    hide ReadRule, RuleTokens, Matches;
    RoundTrip(a);
    RoundTrip(b);
    CanonPrints(a);
    CanonPrints(b);
    forall p ensures SameRule(a, b) ==> (Matches(a, p) <==> Matches(b, p)) {
      CanonMatches(a, p);
      CanonMatches(b, p);
    }
  }

  // ----- the printer and the parser

  /** formatACE. */
  method Format(e: Ace) returns (ts: seq<Token>)
    ensures ts == RuleTokens(e)
  {
    var tail := FlagTokens(e);
    if e.icmpType.Some? && e.icmpType.value >= 0 {
      var name := FindIcmpName(e.protocol, e.icmpType.value);
      tail := [Word(name)] + tail;
    }
    assert IcmpTokens(e) + FlagTokens(e) == tail;
    ts := [Word(ProtocolWord(e.protocol))] + (AddrTokens(e.src) + (PortTokens(e.srcPorts) +
      (AddrTokens(e.dst) + (PortTokens(e.dstPorts) + tail))));
  }

  /** sameRule. */
  method IsSameRule(a: Ace, b: Ace) returns (same: bool)
    ensures same <==> SameRule(a, b)
  {
    var ta := Format(a);
    var tb := Format(b);
    same := a.permit == b.permit && ta == tb;
  }

  /** aceParser: reads the words of a rule from left to right. */
  class AceParser {
    const toks: seq<Token>
    var i: nat

    constructor (toks: seq<Token>)
      ensures this.toks == toks && Valid() && Rest() == toks
    {
      this.toks, i := toks, 0;
    }

    ghost predicate Valid()
      reads this
    {
      i <= |toks|
    }

    ghost function Rest(): seq<Token>
      requires Valid()
      reads this
    {
      toks[i..]
    }

    method Next() returns (t: Option<Token>)
      requires Valid()
      modifies this
      ensures Valid()
      ensures if old(Rest()) == [] then t == None && Rest() == [] else t == Some(old(Rest())[0]) && Rest() == old(Rest())[1..]
    {
      if i >= |toks| { return None; }
      t, i := Some(toks[i]), i + 1;
    }

    /** The next word, or an empty one at the end. */
    method Peek() returns (t: Token)
      requires Valid()
      ensures t == if Rest() == [] then Word("") else Rest()[0]
    {
      t := if i >= |toks| then Word("") else toks[i];
    }

    /** The reader and a part of its specification agree. */
    ghost predicate Follows<T>(r: Option<T>, spec: Parsed<T>)
      requires Valid()
      reads this
    {
      match spec
      case Nothing => r.None?
      case Got(value, rest) => r == Some(value) && Rest() == rest
    }

    /** any | host A | A WILDCARD | A/nn */
    method Addr() returns (r: Option<Endpoint>)
      requires Valid()
      modifies this
      ensures Valid() && Follows(r, ReadAddr(old(Rest())))
    {
      var t := Next();
      if t.None? { return None; }
      match t.value {
        case Word(w) =>
          if w == "any" || w == "any4" || w == "any6" { return Some(Any); }
          if w != "host" { return None; }
          var h := Next();
          if h.None? || !h.value.Address? { return None; }
          return Some(Net(HostPrefix(h.value.addr)));
        case Subnet(p) =>
          if p != p.Masked() { return None; }
          return Some(Net(p));
        case Address(a) =>
          var wc := Peek();
          if a.family == V4 && wc.Address? && wc.addr.family == V4 {
            var _ := Next();
            var bits := WildcardBits(wc.addr.value);
            if bits.None? { return None; }
            var p: Prefix := Prefix(a, bits.value);
            if p != p.Masked() { return None; }
            return Some(Net(p));
          }
          return Some(Net(HostPrefix(a)));
      }
    }

    /** An optional port qualifier. */
    method Ports() returns (r: Option<Ports>)
      requires Valid()
      modifies this
      ensures Valid() && Follows(r, ReadPorts(old(Rest())))
    {
      hide PORT_NAMES;
      var op := Peek();
      if op == Word("neq") { return None; }
      if op != Word("eq") && op != Word("gt") && op != Word("lt") && op != Word("range") { return Some(NoPorts); }
      var _ := Next();
      var a := Next();
      if a.None? { return None; }
      var lo := ReadPort(a.value);
      if lo.None? { return None; }
      match op.s {
        case "eq" => return Some(One(lo.value));
        case "gt" =>
          if lo.value >= 65535 { return None; }
          return Some(Range(lo.value + 1, 65535));
        case "lt" =>
          if lo.value <= 1 { return None; }
          return Some(Range(1, lo.value - 1));
        case _ =>
          var b := Next();
          if b.None? { return None; }
          var hi := ReadPort(b.value);
          if hi.None? || hi.value < lo.value { return None; }
          return Some(if hi.value == lo.value then One(lo.value) else Range(lo.value, hi.value));
      }
    }

    /** An optional ICMP type. */
    method IcmpType(p: Protocol) returns (r: Option<Option<int>>)
      requires Valid()
      modifies this
      ensures Valid() && Follows(r, ReadIcmp(p, old(Rest())))
    {
      hide ICMP_NAMES, ICMP6_NAMES;
      var t := Peek();
      if t == Word("") || t == Word("log") || t == Word("stateless") { return Some(None); }
      var _ := Next();
      if !t.Word? { return None; }
      if t.s in IcmpNames(p) { return Some(Some(IcmpNames(p)[t.s])); }
      var n := Atoi(t.s);
      if n.None? || n.value < 0 || n.value > 255 { return None; }
      return Some(n);
    }

    /** The words after everything else. */
    method Flags() returns (ok: bool, log: bool, stateless: bool)
      requires Valid()
      modifies this
      ensures Valid() && (ok <==> OnlyFlags(old(Rest())))
      ensures ok ==> (log <==> Word("log") in old(Rest())) && (stateless <==> Word("stateless") in old(Rest()))
    {
      log, stateless := false, false;
      ghost var n := i;
      while i < |toks|
        invariant n <= i <= |toks| && OnlyFlags(toks[n..i])
        invariant (log <==> Word("log") in toks[n..i]) && (stateless <==> Word("stateless") in toks[n..i])
      {
        var t := toks[i];
        assert toks[n..][i - n] == t && toks[n..i + 1] == toks[n..i] + [t];
        if t == Word("log") {
          log := true;
        } else if t == Word("stateless") {
          stateless := true;
        } else {
          return false, log, stateless;
        }
        i := i + 1;
      }
      assert toks[n..i] == toks[n..];
      ok := true;
    }

    /** parseACE. */
    method Parse(permit: bool) returns (e: Option<Ace>)
      requires Valid()
      modifies this
      ensures e == ReadRule(permit, old(Rest()))
    {
      hide ReadAddr, ReadPorts, ReadIcmp, ReadProtocol, OnlyFlags, ValidAce;
      e := None;
      var word := Next();
      if word.None? || !word.value.Word? { return; }
      var proto := ReadProtocol(word.value.s);
      if proto.None? { return; }
      var ports := HasPorts(proto.value);
      var src := Addr();
      if src.None? { return; }
      var srcPorts := Some(NoPorts);
      if ports { srcPorts := Ports(); }
      if srcPorts.None? { return; }
      var dst := Addr();
      if dst.None? { return; }
      var dstPorts := Some(NoPorts);
      if ports { dstPorts := Ports(); }
      if dstPorts.None? { return; }
      var icmp: Option<Option<int>> := Some(None);
      if proto.value.Icmp? || proto.value.Icmp6? { icmp := IcmpType(proto.value); }
      if icmp.None? { return; }
      var ok, log, stateless := Flags();
      if !ok { return; }
      var entry := Ace(0, permit, proto.value, src.value, srcPorts.value, dst.value, dstPorts.value, icmp.value, log, stateless);
      if ValidAce(entry.(seqNo := 1)) { e := Some(entry); }
    }
  }
}
