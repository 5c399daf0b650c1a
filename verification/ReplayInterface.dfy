/** Replaying the text of one interface (netcli/internal/cli/text.go:171-246): exactly when it recreates the
    entry. The fields are printed in a fixed order, and each command is validated before the next one. */
module ReplayInterface {
  import opened Basics
  import opened Addresses
  import opened Config
  import opened Commands
  import opened ConfigText
  import CommandTree
  import Tokenizer
  import Typing

  // ----- running the commands of one interface

  function Value(i: Option<Interface>): Interface { if i.Some? then i.value else EMPTY_INTERFACE }

  /** The entry after the commands, each change validated, if all are accepted. */
  ghost function IfFold(n: Name, i: Option<Interface>, es: seq<IfEdit>, names: set<Name>, acls: set<string>,
                        taken: set<Name>): Option<Option<Interface>>
    decreases |es|
  {
    if es == [] then Some(i)
    else
      match EditEntry(n, Value(i), es[0], taken)
      case Denied => None
      case Kept => IfFold(n, i, es[1..], names, acls, taken)
      case To(j) => if ValidInterface(n, j, names, acls) then IfFold(n, Some(j), es[1..], names, acls, taken) else None
  }

  lemma {:induction false} FoldConcat(n: Name, i: Option<Interface>, a: seq<IfEdit>, b: seq<IfEdit>,
                                      names: set<Name>, acls: set<string>, taken: set<Name>)
    ensures IfFold(n, i, a + b, names, acls, taken) ==
      var r := IfFold(n, i, a, names, acls, taken); if r.None? then None else IfFold(n, r.value, b, names, acls, taken)
    decreases |a|
  {
    hide EditEntry, ValidInterface;
    if a == [] {
      assert a + b == b;
    } else {
      assert (a + b)[1..] == a[1..] + b;
      match EditEntry(n, Value(i), a[0], taken) {
        case Denied =>
        case Kept => FoldConcat(n, i, a[1..], b, names, acls, taken);
        case To(j) => FoldConcat(n, Some(j), a[1..], b, names, acls, taken);
      }
    }
  }

  /** A single command. */
  lemma FoldOne(n: Name, i: Option<Interface>, e: IfEdit, names: set<Name>, acls: set<string>, taken: set<Name>)
    ensures IfFold(n, i, [e], names, acls, taken) ==
      match EditEntry(n, Value(i), e, taken)
      case Denied => None
      case Kept => Some(i)
      case To(j) => if ValidInterface(n, j, names, acls) then Some(Some(j)) else None
  {
    hide EditEntry, ValidInterface;
    assert [e][1..] == [];
  }

  // ----- the fields, one after the other

  /** The entry with its first `k` fields, in the order in which they are printed. */
  function Fields(i: Interface, k: nat): Interface {
    Interface(
      if k > 0 then i.description else "", if k > 11 then i.shutdown else false, if k > 4 then i.mtu else 0,
      if k > 5 then i.media else "", if k > 7 then i.ipv4 else [], if k > 6 then i.dhcp else false,
      if k > 8 then i.ipv6 else [], if k > 9 then i.groupIn else "", if k > 10 then i.groupOut else "",
      if k > 1 then i.vlan else None, if k > 2 then i.bridge else None, if k > 3 then i.wireless else None)
  }

  predicate SameField(a: Interface, b: Interface, k: nat) {
    match k
    case 0 => a.description == b.description
    case 1 => a.vlan == b.vlan
    case 2 => a.bridge == b.bridge
    case 3 => a.wireless == b.wireless
    case 4 => a.mtu == b.mtu
    case 5 => a.media == b.media
    case 6 => a.dhcp == b.dhcp
    case 7 => a.ipv4 == b.ipv4
    case 8 => a.ipv6 == b.ipv6
    case 9 => a.groupIn == b.groupIn
    case 10 => a.groupOut == b.groupOut
    case 11 => a.shutdown == b.shutdown
    case _ => true
  }

  function FieldOf(e: IfEdit): nat {
    match e
    case Description(_) => 0
    case Encapsulation(_) => 1
    case Member(_) => 2
    case Mtu(_) => 4
    case Media(_) => 5
    case Dhcp => 6
    case Address4(_, _) => 7
    case Address6(_) => 8
    case Group(_, out) => if out then 10 else 9
    case Shutdown => 11
    case _ => 3
  }

  /** A command leaves the fields of other commands alone, except that an address ends DHCP and
      DHCP clears the addresses. */
  lemma EditKeeps(n: Name, i: Interface, e: IfEdit, taken: set<Name>, k: nat)
    requires FieldOf(e) != k && !(e.Address4? && k == 6) && !(e.Dhcp? && k == 7)
    ensures var r := EditEntry(n, i, e, taken); r.To? ==> SameField(r.value, i, k)
  {
  }

  lemma {:induction false} FoldKeeps(n: Name, i: Option<Interface>, es: seq<IfEdit>, names: set<Name>, acls: set<string>,
                                     taken: set<Name>, k: nat)
    requires forall e :: e in es ==> FieldOf(e) != k && !(e.Address4? && k == 6) && !(e.Dhcp? && k == 7)
    ensures var r := IfFold(n, i, es, names, acls, taken); r.Some? ==> SameField(Value(r.value), Value(i), k)
    decreases |es|
  {
    hide EditEntry, ValidInterface, FieldOf;
    if es != [] {
      assert es[0] in es && forall e :: e in es[1..] ==> e in es;
      EditKeeps(n, Value(i), es[0], taken, k);
      match EditEntry(n, Value(i), es[0], taken) {
        case Denied =>
        case Kept => FoldKeeps(n, i, es[1..], names, acls, taken, k);
        case To(j) => FoldKeeps(n, Some(j), es[1..], names, acls, taken, k);
      }
    }
  }

  lemma WirelessEditOf(w: Wireless, k: nat)
    ensures forall e :: e in WirelessEdit(w, k) ==> IsWireless(e) && (k > 1 ==> !e.SetMode?)
  {
    hide Tokenizer.Quote;
  }

  lemma {:induction false} WirelessEditsOf(w: Wireless, k: nat)
    ensures forall e :: e in WirelessEdits(w, k) ==> IsWireless(e) && (k > 1 ==> !e.SetMode?)
    decreases 9 - k
  {
    hide WirelessEdit, IsWireless;
    if k < 9 {
      WirelessEditOf(w, k);
      WirelessEditsOf(w, k + 1);
    }
  }

  lemma FieldEditsOf(i: Interface, k: nat)
    ensures forall e :: e in FieldEdits(i, k) ==> FieldOf(e) == k
  {
    hide WirelessEdits, MemberEdits, AddressEdits4, AddressEdits6, IsWireless;
    if k == 2 && i.bridge.Some? { ListEditsOf(i.bridge.value, [], []); }
    if k == 3 && i.wireless.Some? {
      WirelessEditsOf(i.wireless.value, 0);
      WirelessField();
    }
    if k == 7 { ListEditsOf([], i.ipv4, []); }
    if k == 8 { ListEditsOf([], [], i.ipv6); }
  }

  lemma WirelessField()
    ensures forall e :: IsWireless(e) ==> FieldOf(e) == 3
  {
  }

  lemma ListEditsOf(m: seq<Name>, l4: seq<Prefix>, l6: seq<Prefix>)
    ensures (forall e :: e in MemberEdits(m) ==> e.Member?) && (forall e :: e in AddressEdits4(l4) ==> e.Address4?)
    ensures forall e :: e in AddressEdits6(l6) ==> e.Address6?
  {
  }

  lemma {:induction false} EditsFromOf(i: Interface, k: nat)
    ensures forall e :: e in EditsFrom(i, k) ==> FieldOf(e) >= k
    decreases 12 - k
  {
    hide FieldEdits, FieldOf;
    if k < 12 {
      FieldEditsOf(i, k);
      EditsFromOf(i, k + 1);
    }
  }

  // ----- validity on the way

  /** `j` has less in it than `i`. */
  predicate Below(j: Interface, i: Interface, kind: Kind) {
    && j.mtu in {0, i.mtu} && j.description in {"", i.description}
    && (j.dhcp ==> j.ipv4 == []) && (forall p :: p in j.ipv4 ==> p in i.ipv4) && (forall p :: p in j.ipv6 ==> p in i.ipv6)
    && j.groupIn in {"", i.groupIn} && j.groupOut in {"", i.groupOut}
    && j.vlan in {None, i.vlan}
    && (j.bridge.Some? ==> i.bridge.Some? && forall m :: m in j.bridge.value ==> m in i.bridge.value)
    && (j.wireless.Some? ==> ValidWireless(j.wireless.value, kind))
  }

  /** What the entry refers to is configured already. */
  predicate RefersTo(j: Interface, names: set<Name>) {
    && (j.vlan.Some? ==> j.vlan.value.parent in names)
    && (j.bridge.Some? ==> forall m :: m in j.bridge.value ==> m in names)
  }

  lemma BelowValid(n: Name, j: Interface, i: Interface, all: set<Name>, names: set<Name>, acls: set<string>)
    requires ValidInterface(n, i, all, acls) && Below(j, i, InterfaceKind(n)) && RefersTo(j, names)
    requires InterfaceKind(n) == VlanKind ==> j.vlan.Some?
    ensures ValidInterface(n, j, names, acls)
  {
    hide InterfaceKind, ValidWireless;
    forall k | 0 <= k < |j.ipv4| ensures j.ipv4[k].addr.family == V4 { assert j.ipv4[k] in i.ipv4; }
    forall k | 0 <= k < |j.ipv6| ensures j.ipv6[k].addr.family == V6 { assert j.ipv6[k] in i.ipv6; }
  }

  lemma FieldsBelow(n: Name, i: Interface, k: nat, all: set<Name>, acls: set<string>)
    requires ValidInterface(n, i, all, acls)
    ensures Below(Fields(i, k), i, InterfaceKind(n))
  {
    hide InterfaceKind, ValidWireless;
  }

  // ----- exactly when each field comes back

  /** An address that is not the network address of its subnet. */
  predicate IsHostAddress(p: Prefix) { p.bits >= 31 || p.Masked().addr != p.addr }

  predicate FieldReplays(n: Name, i: Interface, k: nat, names: set<Name>, taken: set<Name>) {
    match k
    case 0 => i.description == "" ||
      (InterfaceKind(n) != VlanKind && Typing.PlainText(i.description) && ByteLength(i.description) <= 240)
    case 1 => i.vlan.Some? ==> i.vlan.value.parent in names
    case 2 => i.bridge.Some? ==>
      var l := i.bridge.value;
      l != [] && Distinct(l) && forall m :: m in l ==> m in names && m !in taken
    case 3 => i.wireless.Some? ==> i.wireless.value.mode != NoMode
    case 5 => i.media == "" || Typing.PlainText(i.media)
    case 7 => Distinct(i.ipv4) && AllHosts(i.ipv4)
    case 8 => Distinct(i.ipv6)
    case 9 => i.groupIn == "" || !NamesDirection(i.groupIn)
    case 10 => i.groupOut == "" || !NamesDirection(i.groupOut)
    case _ => true
  }

  // ----- wireless settings

  function WValue(w: Option<Wireless>): Wireless { if w.Some? then w.value else STATION }

  ghost function WFold(kind: Kind, w: Option<Wireless>, es: seq<IfEdit>): Option<Option<Wireless>>
    requires forall e :: e in es ==> IsWireless(e)
    decreases |es|
  {
    if es == [] then Some(w)
    else
      var r := EditWireless(WValue(w), es[0]);
      if r.Some? && ValidWireless(r.value, kind) then WFold(kind, r, es[1..]) else None
  }

  /** Wireless commands change the wireless settings of the entry and nothing else. */
  lemma {:induction false} FoldWireless(n: Name, i: Option<Interface>, es: seq<IfEdit>, names: set<Name>, acls: set<string>,
                                        taken: set<Name>)
    requires (forall e :: e in es ==> IsWireless(e)) && InterfaceKind(n) in {Physical, Wlan}
    requires ValidInterface(n, Value(i).(wireless := None), names, acls)
    ensures IfFold(n, i, es, names, acls, taken) ==
      var r := WFold(InterfaceKind(n), Value(i).wireless, es);
      if r.None? then None else if es == [] then Some(i) else Some(Some(Value(i).(wireless := r.value)))
    decreases |es|
  {
    hide ValidWireless, EditWireless, ValidInterface, EditEntry, InterfaceKind;
    if es != [] {
      assert es[0] in es && forall e :: e in es[1..] ==> e in es;
      WirelessStep(n, Value(i), es[0], names, acls, taken);
      var w := EditWireless(WValue(Value(i).wireless), es[0]);
      if w.Some? && ValidWireless(w.value, InterfaceKind(n)) {
        FoldWireless(n, Some(Value(i).(wireless := w)), es[1..], names, acls, taken);
      }
    }
  }

  lemma WirelessStep(n: Name, i: Interface, e: IfEdit, names: set<Name>, acls: set<string>, taken: set<Name>)
    requires IsWireless(e) && InterfaceKind(n) in {Physical, Wlan} && ValidInterface(n, i.(wireless := None), names, acls)
    ensures var w := EditWireless(WValue(i.wireless), e);
      EditEntry(n, i, e, taken) == if w.None? then Denied else To(i.(wireless := w))
    ensures var w := EditWireless(WValue(i.wireless), e);
      w.Some? ==> (ValidInterface(n, i.(wireless := w), names, acls) <==> ValidWireless(w.value, InterfaceKind(n)))
  {
    hide ValidWireless, EditWireless, InterfaceKind;
  }

  /** The settings with the first `k` in place. */
  function WFields(w: Wireless, k: nat): Wireless {
    Wireless(if k > 1 then w.mode else Station, if k > 0 then w.device else "", if k > 2 then w.ssid else "",
             if k > 3 then w.security else NoSecurity, if k > 4 then w.psk else "", if k > 5 then w.channel else 0,
             if k > 6 then w.hwMode else "", if k > 7 then w.country else "", if k > 8 then w.hidden else false)
  }

  lemma WFieldsValid(w: Wireless, k: nat, kind: Kind)
    requires ValidWireless(w, kind)
    ensures ValidWireless(WFields(w, k), kind)
  {
  }

  /** A quoted word is read back. */
  lemma QuotedWord(s: string)
    requires s != "" && OneLine(s)
    ensures WordOf(Tokenizer.Quote(s)) == Some(s)
  {
    Tokenizer.QuoteRoundTrip([s]);
    assert Tokenizer.Line([s]) == Tokenizer.Quote(s);
    var toks := Tokenizer.Words(Tokenizer.Quote(s), 0).value;
    assert |Tokenizer.Texts(toks)| == 1 && Tokenizer.Texts(toks)[0] == s;
    QuoteOneLine(s);
  }

  lemma QuoteOneLine(s: string)
    requires OneLine(s)
    ensures OneLine(Tokenizer.Quote(s))
  {
    EscapeOneLine(s);
  }

  lemma {:induction false} EscapeOneLine(s: string)
    requires OneLine(s)
    ensures OneLine(Tokenizer.Escape(s))
  {
    if s != [] { EscapeOneLine(s[1..]); }
  }

  lemma UpperFixed(cc: string)
    requires forall k :: 0 <= k < |cc| ==> IsUpperLetter(cc[k])
    ensures ToUpper(cc) == cc
  {
  }

  lemma WEdit(w: Wireless, k: nat, kind: Kind)
    requires ValidWireless(w, kind) && k < 9 && WirelessEdit(w, k) != []
    ensures |WirelessEdit(w, k)| == 1 && IsWireless(WirelessEdit(w, k)[0])
    ensures EditWireless(WFields(w, k), WirelessEdit(w, k)[0]) == Some(WFields(w, k + 1))
  {
    hide WordOf, Tokenizer.Quote, ToUpper;
    if k == 2 { QuotedWord(w.ssid); }
    if k == 4 { QuotedWord(w.psk); }
    if k == 7 { UpperFixed(w.country); }
  }

  lemma WSkip(w: Wireless, k: nat)
    requires WirelessEdit(w, k) == [] && w.mode != NoMode
    ensures WFields(w, k + 1) == WFields(w, k)
  {
  }

  /** With a mode, the settings come back. */
  lemma {:induction false} WChain(w: Wireless, k: nat, wo: Option<Wireless>, kind: Kind)
    requires ValidWireless(w, kind) && w.mode != NoMode && k <= 9
    requires WValue(wo) == WFields(w, k) && (k > 1 ==> wo.Some?)
    requires forall e :: e in WirelessEdits(w, k) ==> IsWireless(e)
    ensures WFold(kind, wo, WirelessEdits(w, k)) == Some(Some(w))
    decreases 9 - k
  {
    hide WirelessEdit, WFields, EditWireless, ValidWireless, IsWireless;
    if k == 9 {
      AllSettings(w);
    } else {
      WirelessEditsOf(w, k + 1);
      var es := WirelessEdit(w, k);
      ModePrinted(w);
      if es == [] {
        WSkip(w, k);
        assert WirelessEdits(w, k) == WirelessEdits(w, k + 1);
        WChain(w, k + 1, wo, kind);
      } else {
        WEdit(w, k, kind);
        WFieldsValid(w, k + 1, kind);
        assert WirelessEdits(w, k)[1..] == WirelessEdits(w, k + 1) && WirelessEdits(w, k)[0] == es[0];
        WChain(w, k + 1, Some(WFields(w, k + 1)), kind);
      }
    }
  }

  lemma AllSettings(w: Wireless)
    ensures WFields(w, 9) == w
  {
  }

  lemma ModePrinted(w: Wireless)
    ensures WirelessEdit(w, 1) == [] <==> w.mode == NoMode
  {
  }

  /** Without one they never do: the first command of all sets the mode. */
  lemma {:induction false} WKeepsMode(wo: Option<Wireless>, es: seq<IfEdit>, kind: Kind)
    requires (forall e :: e in es ==> IsWireless(e) && !e.SetMode?) && WValue(wo).mode == Station
    ensures var r := WFold(kind, wo, es); r.Some? ==> WValue(r.value).mode == Station
    decreases |es|
  {
    hide ValidWireless;
    if es != [] {
      assert es[0] in es;
      var r := EditWireless(WValue(wo), es[0]);
      if r.Some? { WKeepsMode(r, es[1..], kind); }
    }
  }

  lemma WirelessExact(w: Wireless, kind: Kind)
    requires ValidWireless(w, kind)
    ensures forall e :: e in WirelessEdits(w, 0) ==> IsWireless(e)
    ensures WFold(kind, None, WirelessEdits(w, 0)) == Some(Some(w)) <==> w.mode != NoMode
  {
    hide ValidWireless, WFold;
    WirelessEditsOf(w, 0);
    if w.mode != NoMode {
      WChain(w, 0, None, kind);
    } else {
      NoModePrinted(w);
      WKeepsMode(None, WirelessEdits(w, 0), kind);
    }
  }

  lemma NoModePrinted(w: Wireless)
    requires w.mode == NoMode
    ensures forall e :: e in WirelessEdits(w, 0) ==> !e.SetMode?
  {
    WirelessEditOf(w, 0);
    WirelessEditsOf(w, 2);
    assert WirelessEdits(w, 1) == WirelessEdit(w, 1) + WirelessEdits(w, 2);
  }

  // ----- lists

  function Members(i: Interface): seq<Name> { if i.bridge.Some? then i.bridge.value else [] }

  lemma EditMember(n: Name, i: Interface, m: Name, names: set<Name>, acls: set<string>, taken: set<Name>)
    requires InterfaceKind(n) == BridgeKind && m != n && ValidInterface(n, i.(bridge := None), names, acls)
    requires forall x :: x in Members(i) ==> x in names && x != n
    ensures var j := i.(bridge := Some(Members(i) + [m]));
      && (ValidInterface(n, j, names, acls) <==> m in names)
      && EditEntry(n, i, Member(m), taken) == (if m in taken then Denied else if m in Members(i) then Kept else To(j))
      && j.(bridge := None) == i.(bridge := None)
  {
    hide ValidWireless;
    var j := i.(bridge := Some(Members(i) + [m]));
    assert m in Members(j);
  }

  lemma {:induction false} FoldMembers(n: Name, cur: Option<Interface>, l: seq<Name>, names: set<Name>, acls: set<string>,
                                       taken: set<Name>)
    requires InterfaceKind(n) == BridgeKind && l != [] && n !in l
    requires ValidInterface(n, Value(cur).(bridge := None), names, acls)
    requires forall m :: m in Members(Value(cur)) ==> m in names && m != n
    requires cur.None? ==> Value(cur).bridge.None?
    ensures IfFold(n, cur, MemberEdits(l), names, acls, taken) ==
      if forall m :: m in l ==> m in names && m !in taken
      then Some(Some(Value(cur).(bridge := Some(AppendNew(Members(Value(cur)), l))))) else None
    decreases |l|
  {
    hide InterfaceKind, ValidInterface, EditEntry;
    EditMember(n, Value(cur), l[0], names, acls, taken);
    var (i, m, es) := (Value(cur), l[0], MemberEdits(l));
    assert es[0] == Member(m) && es[1..] == MemberEdits(l[1..]);
    assert m in l && forall x :: x in l[1..] ==> x in l;
    var next := if m in Members(i) then cur else Some(i.(bridge := Some(Members(i) + [m])));
    if m in names && m !in taken {
      if l[1..] == [] {
        assert MemberEdits(l[1..]) == [] && l == [m];
      } else {
        FoldMembers(n, next, l[1..], names, acls, taken);
      }
      assert forall x :: x in l ==> x == m || x in l[1..];
    }
  }

  function SecondaryEdits(l: seq<Prefix>): seq<IfEdit> { seq(|l|, k requires 0 <= k < |l| => Address4(l[k], true)) }

  lemma EditAddress(n: Name, i: Interface, p: Prefix, secondary: bool, names: set<Name>, acls: set<string>, taken: set<Name>)
    requires ValidInterface(n, i, names, acls) && !i.dhcp && p.addr.family == V4 && (secondary <==> i.ipv4 != [])
    ensures var j := i.(ipv4 := if p in i.ipv4 then i.ipv4 else i.ipv4 + [p]);
      && ValidInterface(n, j, names, acls)
      && EditEntry(n, i, Address4(p, secondary), taken) == (if IsHostAddress(p) then To(j) else Denied)
  {
    hide InterfaceKind, ValidWireless;
    assert [] + [p] == [p];
  }

  lemma AppendNewCons<T>(a: seq<T>, x: T, l: seq<T>)
    ensures AppendNew(a, [x] + l) == AppendNew(if x in a then a else a + [x], l)
  {
    assert ([x] + l)[1..] == l;
  }

  predicate AllHosts(l: seq<Prefix>) { forall p :: p in l ==> IsHostAddress(p) }

  lemma AllHostsCons(l: seq<Prefix>)
    requires l != []
    ensures l == [l[0]] + l[1..] && (AllHosts(l) <==> IsHostAddress(l[0]) && AllHosts(l[1..]))
    ensures l[0] in l && forall p :: p in l[1..] ==> p in l
  {
    hide IsHostAddress;
    assert forall p :: p in l <==> p == l[0] || p in l[1..];
  }

  /** Secondary addresses are appended unless they are there. */
  lemma {:induction false} FoldSecondary(n: Name, i: Interface, l: seq<Prefix>, names: set<Name>, acls: set<string>,
                                         taken: set<Name>)
    requires ValidInterface(n, i, names, acls) && !i.dhcp && i.ipv4 != [] && forall p :: p in l ==> p.addr.family == V4
    ensures IfFold(n, Some(i), SecondaryEdits(l), names, acls, taken) ==
      if AllHosts(l) then Some(Some(i.(ipv4 := AppendNew(i.ipv4, l)))) else None
    decreases |l|
  {
    hide ValidInterface, EditEntry, IsHostAddress;
    if l == [] {
      assert i == i.(ipv4 := i.ipv4);
    } else {
      hide AllHosts, AppendNew;
      var (p, es) := (l[0], SecondaryEdits(l));
      AllHostsCons(l);
      assert es[0] == Address4(p, true) && es[1..] == SecondaryEdits(l[1..]);
      EditAddress(n, i, p, true, names, acls, taken);
      AppendNewCons(i.ipv4, p, l[1..]);
      if IsHostAddress(p) {
        FoldSecondary(n, i.(ipv4 := if p in i.ipv4 then i.ipv4 else i.ipv4 + [p]), l[1..], names, acls, taken);
      }
    }
  }

  /** The first address replaces nothing, the others are secondary. */
  lemma FoldAddresses4(n: Name, cur: Option<Interface>, l: seq<Prefix>, names: set<Name>, acls: set<string>, taken: set<Name>)
    requires ValidInterface(n, Value(cur), names, acls) && !Value(cur).dhcp && Value(cur).ipv4 == [] && l != []
    requires forall p :: p in l ==> p.addr.family == V4
    ensures IfFold(n, cur, AddressEdits4(l), names, acls, taken) ==
      if AllHosts(l) then Some(Some(Value(cur).(ipv4 := AppendNew([], l)))) else None
  {
    hide ValidInterface, EditEntry, IsHostAddress, AllHosts, AppendNew;
    var (p, es) := (l[0], AddressEdits4(l));
    AllHostsCons(l);
    assert es[0] == Address4(p, false) && es[1..] == SecondaryEdits(l[1..]);
    EditAddress(n, Value(cur), p, false, names, acls, taken);
    AppendNewCons([], p, l[1..]);
    assert [] + [p] == [p];
    if IsHostAddress(p) { FoldSecondary(n, Value(cur).(ipv4 := [p]), l[1..], names, acls, taken); }
  }

  lemma {:induction false} FoldAddresses6(n: Name, cur: Option<Interface>, l: seq<Prefix>, names: set<Name>, acls: set<string>,
                                          taken: set<Name>)
    requires ValidInterface(n, Value(cur), names, acls) && forall p :: p in l ==> p.addr.family == V6
    requires cur.None? ==> Value(cur).ipv6 == []
    ensures IfFold(n, cur, AddressEdits6(l), names, acls, taken) ==
      if l == [] then Some(cur) else Some(Some(Value(cur).(ipv6 := AppendNew(Value(cur).ipv6, l))))
    decreases |l|
  {
    hide ValidInterface, EditEntry;
    if l != [] {
      var (i, p, es) := (Value(cur), l[0], AddressEdits6(l));
      assert es[0] == Address6(p) && es[1..] == AddressEdits6(l[1..]);
      assert p in l && forall x :: x in l[1..] ==> x in l;
      EditAddress6(n, i, p, names, acls, taken);
      FoldAddresses6(n, if p in i.ipv6 then cur else Some(i.(ipv6 := i.ipv6 + [p])), l[1..], names, acls, taken);
      if l[1..] == [] { assert AppendNew(i.ipv6, l) == if p in i.ipv6 then i.ipv6 else i.ipv6 + [p]; }
    }
  }

  lemma EditAddress6(n: Name, i: Interface, p: Prefix, names: set<Name>, acls: set<string>, taken: set<Name>)
    requires ValidInterface(n, i, names, acls) && p.addr.family == V6
    ensures ValidInterface(n, i.(ipv6 := i.ipv6 + [p]), names, acls)
    ensures EditEntry(n, i, Address6(p), taken) == if p in i.ipv6 then Kept else To(i.(ipv6 := i.ipv6 + [p]))
  {
    hide InterfaceKind, ValidWireless;
  }

  // ----- each field

  /** What holds before field `k` is printed: the fields so far are in place. */
  ghost predicate Reached(n: Name, i: Interface, k: nat, cur: Option<Interface>, all: set<Name>, names: set<Name>,
                          acls: set<string>) {
    && ValidInterface(n, i, all, acls) && Value(cur) == Fields(i, k)
    && (cur.Some? ==> ValidInterface(n, cur.value, names, acls))
    && (IsCloned(n) || cur.Some?)
  }

  /** Field `k` comes back: its commands are accepted and put it in place. */
  ghost predicate Recovers(n: Name, i: Interface, k: nat, cur: Option<Interface>, names: set<Name>, acls: set<string>,
                           taken: set<Name>) {
    var r := IfFold(n, cur, FieldEdits(i, k), names, acls, taken);
    r.Some? && Value(r.value) == Fields(i, k + 1)
  }

  /** The entry with one more field is valid as soon as what that field refers to is there. */
  lemma NextValid(n: Name, i: Interface, k: nat, cur: Option<Interface>, all: set<Name>, names: set<Name>, acls: set<string>)
    requires Reached(n, i, k, cur, all, names, acls) && k < 12 && (InterfaceKind(n) == VlanKind ==> k > 0)
    requires k == 1 && i.vlan.Some? ==> i.vlan.value.parent in names
    requires k == 2 && i.bridge.Some? ==> forall m :: m in i.bridge.value ==> m in names
    ensures ValidInterface(n, Fields(i, k + 1), names, acls)
    ensures InterfaceKind(n) != VlanKind || k > 1 ==> ValidInterface(n, Fields(i, k), names, acls)
  {
    hide InterfaceKind, ValidWireless;
    FieldsBelow(n, i, k + 1, all, acls);
    FieldsBelow(n, i, k, all, acls);
    assert RefersTo(Fields(i, k), names);
    BelowValid(n, Fields(i, k + 1), i, all, names, acls);
    if InterfaceKind(n) != VlanKind || k > 1 { BelowValid(n, Fields(i, k), i, all, names, acls); }
  }

  lemma Field0(n: Name, i: Interface, cur: Option<Interface>, all: set<Name>, names: set<Name>, acls: set<string>, taken: set<Name>)
    requires Reached(n, i, 0, cur, all, names, acls)
    ensures Recovers(n, i, 0, cur, names, acls, taken) <==> FieldReplays(n, i, 0, names, taken)
  {
    hide InterfaceKind, ValidWireless, Typed, Typing.PlainText;
    Typing.TextExact(i.description);
    if i.description != "" {
      FoldOne(n, cur, Description(i.description), names, acls, taken);
      if InterfaceKind(n) != VlanKind { NextValid(n, i, 0, cur, all, names, acls); }
    }
  }

  lemma Field1(n: Name, i: Interface, cur: Option<Interface>, all: set<Name>, names: set<Name>, acls: set<string>, taken: set<Name>)
    requires Reached(n, i, 1, cur, all, names, acls)
    ensures Recovers(n, i, 1, cur, names, acls, taken) <==> FieldReplays(n, i, 1, names, taken)
  {
    hide InterfaceKind, ValidWireless;
    if i.vlan.Some? {
      FoldOne(n, cur, Encapsulation(i.vlan.value), names, acls, taken);
      if i.vlan.value.parent in names { NextValid(n, i, 1, cur, all, names, acls); }
    }
  }

  lemma Field2(n: Name, i: Interface, cur: Option<Interface>, all: set<Name>, names: set<Name>, acls: set<string>, taken: set<Name>)
    requires Reached(n, i, 2, cur, all, names, acls)
    ensures Recovers(n, i, 2, cur, names, acls, taken) <==> FieldReplays(n, i, 2, names, taken)
  {
    hide InterfaceKind, ValidInterface, IfFold, AppendNew;
    if i.bridge.Some? && i.bridge.value != [] {
      var l := i.bridge.value;
      BeforeMembers(n, i, cur, all, names, acls);
      FoldMembers(n, cur, l, names, acls, taken);
      AppendNewExact([], l);
      assert [] + l == l;
    } else {
      assert FieldEdits(i, 2) == [];
      FoldNone(n, cur, names, acls, taken);
    }
  }

  lemma FoldNone(n: Name, cur: Option<Interface>, names: set<Name>, acls: set<string>, taken: set<Name>)
    ensures IfFold(n, cur, [], names, acls, taken) == Some(cur)
  {
  }

  lemma BeforeMembers(n: Name, i: Interface, cur: Option<Interface>, all: set<Name>, names: set<Name>, acls: set<string>)
    requires Reached(n, i, 2, cur, all, names, acls) && i.bridge.Some?
    ensures InterfaceKind(n) == BridgeKind && n !in i.bridge.value
    ensures ValidInterface(n, Value(cur).(bridge := None), names, acls)
  {
    hide InterfaceKind, ValidWireless;
    NextValid(n, i.(bridge := None), 2, cur, all, names, acls);
  }

  lemma Field3(n: Name, i: Interface, cur: Option<Interface>, all: set<Name>, names: set<Name>, acls: set<string>, taken: set<Name>)
    requires Reached(n, i, 3, cur, all, names, acls)
    ensures Recovers(n, i, 3, cur, names, acls, taken) <==> FieldReplays(n, i, 3, names, taken)
  {
    hide InterfaceKind, WirelessEdits;
    if i.wireless.Some? {
      assert InterfaceKind(n) in {Physical, Wlan};
      NextValid(n, i, 3, cur, all, names, acls);
      WirelessExact(i.wireless.value, InterfaceKind(n));
      FoldWireless(n, cur, WirelessEdits(i.wireless.value, 0), names, acls, taken);
    }
  }

  /** MTU, DHCP, shutdown: nothing to lose. */
  lemma PlainField(n: Name, i: Interface, k: nat, cur: Option<Interface>, all: set<Name>, names: set<Name>, acls: set<string>,
                   taken: set<Name>)
    requires Reached(n, i, k, cur, all, names, acls) && k in {4, 6, 11}
    ensures Recovers(n, i, k, cur, names, acls, taken)
  {
    hide InterfaceKind, ValidWireless;
    if FieldEdits(i, k) != [] {
      FoldOne(n, cur, FieldEdits(i, k)[0], names, acls, taken);
      NextValid(n, i, k, cur, all, names, acls);
    }
  }

  lemma Field5(n: Name, i: Interface, cur: Option<Interface>, all: set<Name>, names: set<Name>, acls: set<string>, taken: set<Name>)
    requires Reached(n, i, 5, cur, all, names, acls)
    ensures Recovers(n, i, 5, cur, names, acls, taken) <==> FieldReplays(n, i, 5, names, taken)
  {
    hide InterfaceKind, ValidWireless, Typed, Typing.PlainText;
    Typing.TextExact(i.media);
    if i.media != "" {
      FoldOne(n, cur, Media(i.media), names, acls, taken);
      NextValid(n, i, 5, cur, all, names, acls);
    }
  }

  lemma Field7(n: Name, i: Interface, cur: Option<Interface>, all: set<Name>, names: set<Name>, acls: set<string>, taken: set<Name>)
    requires Reached(n, i, 7, cur, all, names, acls)
    ensures Recovers(n, i, 7, cur, names, acls, taken) <==> FieldReplays(n, i, 7, names, taken)
  {
    hide InterfaceKind, ValidInterface, IsHostAddress, AllHosts, IfFold, AppendNew;
    BeforeAddresses(n, i, 7, cur, all, names, acls);
    if i.ipv4 != [] {
      FoldAddresses4(n, cur, i.ipv4, names, acls, taken);
      AppendNewExact([], i.ipv4);
      assert [] + i.ipv4 == i.ipv4;
    } else {
      assert FieldEdits(i, 7) == [];
      FoldNone(n, cur, names, acls, taken);
      NoHosts();
    }
  }

  lemma NoHosts()
    ensures AllHosts([]) && Distinct<Prefix>([])
  {
  }

  lemma BeforeAddresses(n: Name, i: Interface, k: nat, cur: Option<Interface>, all: set<Name>, names: set<Name>, acls: set<string>)
    requires Reached(n, i, k, cur, all, names, acls) && k in {7, 8}
    ensures ValidInterface(n, Value(cur), names, acls) && (i.ipv4 != [] ==> !i.dhcp)
    ensures (forall p: Prefix :: p in i.ipv4 ==> p.addr.family == V4) && forall p: Prefix :: p in i.ipv6 ==> p.addr.family == V6
  {
    hide InterfaceKind, ValidWireless;
    NextValid(n, i, k, cur, all, names, acls);
  }

  lemma Field8(n: Name, i: Interface, cur: Option<Interface>, all: set<Name>, names: set<Name>, acls: set<string>, taken: set<Name>)
    requires Reached(n, i, 8, cur, all, names, acls)
    ensures Recovers(n, i, 8, cur, names, acls, taken) <==> FieldReplays(n, i, 8, names, taken)
  {
    hide InterfaceKind, ValidInterface, IfFold, AppendNew;
    BeforeAddresses(n, i, 8, cur, all, names, acls);
    FoldAddresses6(n, cur, i.ipv6, names, acls, taken);
    AppendNewExact([], i.ipv6);
    assert [] + i.ipv6 == i.ipv6;
  }

  lemma GroupField(n: Name, i: Interface, k: nat, cur: Option<Interface>, all: set<Name>, names: set<Name>, acls: set<string>,
                   taken: set<Name>)
    requires Reached(n, i, k, cur, all, names, acls) && k in {9, 10}
    ensures Recovers(n, i, k, cur, names, acls, taken) <==> FieldReplays(n, i, k, names, taken)
  {
    hide InterfaceKind, ValidWireless, NamesDirection;
    if FieldEdits(i, k) != [] {
      FoldOne(n, cur, FieldEdits(i, k)[0], names, acls, taken);
      NextValid(n, i, k, cur, all, names, acls);
    }
  }

  /** Each field comes back exactly under its own condition. */
  lemma FieldExact(n: Name, i: Interface, k: nat, cur: Option<Interface>, all: set<Name>, names: set<Name>, acls: set<string>,
                   taken: set<Name>)
    requires Reached(n, i, k, cur, all, names, acls) && k < 12
    ensures Recovers(n, i, k, cur, names, acls, taken) <==> FieldReplays(n, i, k, names, taken)
  {
    hide Recovers, Reached;
    match k {
      case 0 => Field0(n, i, cur, all, names, acls, taken);
      case 1 => Field1(n, i, cur, all, names, acls, taken);
      case 2 => Field2(n, i, cur, all, names, acls, taken);
      case 3 => Field3(n, i, cur, all, names, acls, taken);
      case 5 => Field5(n, i, cur, all, names, acls, taken);
      case 7 => Field7(n, i, cur, all, names, acls, taken);
      case 8 => Field8(n, i, cur, all, names, acls, taken);
      case 9 => GroupField(n, i, k, cur, all, names, acls, taken);
      case 10 => GroupField(n, i, k, cur, all, names, acls, taken);
      case _ => PlainField(n, i, k, cur, all, names, acls, taken);
    }
  }

  // ----- the whole entry

  lemma {:induction false} FoldValid(n: Name, i: Option<Interface>, es: seq<IfEdit>, names: set<Name>, acls: set<string>,
                                     taken: set<Name>)
    requires i.Some? ==> ValidInterface(n, i.value, names, acls)
    ensures var r := IfFold(n, i, es, names, acls, taken);
      r.Some? ==> (i.Some? ==> r.value.Some?) && (r.value.Some? ==> ValidInterface(n, r.value.value, names, acls))
    decreases |es|
  {
    hide EditEntry, ValidInterface;
    if es != [] {
      match EditEntry(n, Value(i), es[0], taken) {
        case Denied =>
        case Kept => FoldValid(n, i, es[1..], names, acls, taken);
        case To(j) => if ValidInterface(n, j, names, acls) { FoldValid(n, Some(j), es[1..], names, acls, taken); }
      }
    }
  }

  lemma AllFields(i: Interface)
    ensures Fields(i, 12) == i && Fields(i, 0) == EMPTY_INTERFACE
  {
  }

  /** A valid entry with addresses does not use DHCP, so that they do not end it. */
  lemma AddressesKeepDhcp(n: Name, i: Interface, cur: Option<Interface>, all: set<Name>, names: set<Name>, acls: set<string>,
                          taken: set<Name>)
    requires Reached(n, i, 7, cur, all, names, acls)
    ensures var r := IfFold(n, cur, FieldEdits(i, 7), names, acls, taken); r.Some? ==> SameField(Value(r.value), Fields(i, 7), 6)
  {
    hide InterfaceKind, ValidWireless, IsHostAddress;
    if i.ipv4 != [] {
      NextValid(n, i, 7, cur, all, names, acls);
      FoldAddresses4(n, cur, i.ipv4, names, acls, taken);
    }
  }

  /** A field that did not come back is still wrong in the end. */
  lemma StaysWrong(n: Name, i: Interface, k: nat, cur: Option<Interface>, r: Option<Interface>, all: set<Name>,
                   names: set<Name>, acls: set<string>, taken: set<Name>)
    requires Reached(n, i, k, cur, all, names, acls) && k < 12 && k != 6
    requires IfFold(n, cur, FieldEdits(i, k), names, acls, taken) == Some(r) && Value(r) != Fields(i, k + 1)
    ensures var t := IfFold(n, r, EditsFrom(i, k + 1), names, acls, taken); t.Some? ==> Value(t.value) != i
  {
    hide IfFold, EditsFrom, FieldEdits, ValidInterface;
    EditsFromOf(i, k + 1);
    FoldKeeps(n, r, EditsFrom(i, k + 1), names, acls, taken, k);
    FieldEditsOf(i, k);
    forall l | l < 12 && l != k ensures SameField(Value(r), Fields(i, k), l) {
      if k == 7 && l == 6 {
        AddressesKeepDhcp(n, i, cur, all, names, acls, taken);
      } else {
        FoldKeeps(n, cur, FieldEdits(i, k), names, acls, taken, l);
      }
    }
    DiffersAt(i, Value(r), k);
  }

  /** Fields that are as before, and one that is not as wanted. */
  lemma DiffersAt(i: Interface, r: Interface, k: nat)
    requires k < 12 && (forall l :: l < 12 && l != k ==> SameField(r, Fields(i, k), l)) && r != Fields(i, k + 1)
    ensures !SameField(r, i, k)
  {
    assert forall l :: l < 12 && l != k ==> SameField(r, Fields(i, k), l);
    assert SameField(r, Fields(i, k), 0) || k == 0;
    assert SameField(r, Fields(i, k), 1) || k == 1;
    assert SameField(r, Fields(i, k), 2) || k == 2;
    assert SameField(r, Fields(i, k), 3) || k == 3;
    assert SameField(r, Fields(i, k), 4) || k == 4;
    assert SameField(r, Fields(i, k), 5) || k == 5;
    assert SameField(r, Fields(i, k), 6) || k == 6;
    assert SameField(r, Fields(i, k), 7) || k == 7;
    assert SameField(r, Fields(i, k), 8) || k == 8;
    assert SameField(r, Fields(i, k), 9) || k == 9;
    assert SameField(r, Fields(i, k), 10) || k == 10;
    assert SameField(r, Fields(i, k), 11) || k == 11;
  }

  ghost predicate ReplaysFrom(n: Name, i: Interface, k: nat, names: set<Name>, taken: set<Name>) {
    forall l :: k <= l < 12 ==> FieldReplays(n, i, l, names, taken)
  }

  /** From field `k` on, the entry comes back exactly when every field from there does. */
  lemma {:induction false} FieldChain(n: Name, i: Interface, k: nat, cur: Option<Interface>, all: set<Name>, names: set<Name>,
                                      acls: set<string>, taken: set<Name>)
    requires Reached(n, i, k, cur, all, names, acls) && k <= 12
    ensures var t := IfFold(n, cur, EditsFrom(i, k), names, acls, taken);
      && (t.Some? && Value(t.value) == i <==> ReplaysFrom(n, i, k, names, taken))
      && (t.Some? && ReplaysFrom(n, i, k, names, taken) ==> (t.value.Some? <==> cur.Some? || EditsFrom(i, k) != []))
    decreases 12 - k
  {
    hide FieldReplays, FieldEdits, ValidInterface, EditEntry;
    AllFields(i);
    if k < 12 {
      FieldExact(n, i, k, cur, all, names, acls, taken);
      var es := FieldEdits(i, k);
      FoldConcat(n, cur, es, EditsFrom(i, k + 1), names, acls, taken);
      FoldValid(n, cur, es, names, acls, taken);
      var r := IfFold(n, cur, es, names, acls, taken);
      if r.Some? {
        if Value(r.value) == Fields(i, k + 1) {
          FieldChain(n, i, k + 1, r.value, all, names, acls, taken);
          FirstCreates(n, cur, es, names, acls, taken);
          assert ReplaysFrom(n, i, k, names, taken) <==>
            FieldReplays(n, i, k, names, taken) && ReplaysFrom(n, i, k + 1, names, taken);
        } else {
          if k == 6 { PlainField(n, i, k, cur, all, names, acls, taken); }
          StaysWrong(n, i, k, cur, r.value, all, names, acls, taken);
        }
      }
    }
  }

  /** The first accepted command of an entry that is not there creates it. */
  lemma FirstCreates(n: Name, cur: Option<Interface>, es: seq<IfEdit>, names: set<Name>, acls: set<string>, taken: set<Name>)
    ensures var r := IfFold(n, cur, es, names, acls, taken);
      r.Some? && r.value.None? ==> cur.None? && es == []
  {
    if es != [] && cur.None? {
      assert !EditEntry(n, EMPTY_INTERFACE, es[0], taken).Kept?;
      match EditEntry(n, EMPTY_INTERFACE, es[0], taken) {
        case Denied =>
        case Kept =>
        case To(j) => if ValidInterface(n, j, names, acls) { FoldStays(n, Some(j), es[1..], names, acls, taken); }
      }
    } else if es != [] {
      FoldStays(n, cur, es, names, acls, taken);
    }
  }

  lemma {:induction false} FoldStays(n: Name, i: Option<Interface>, es: seq<IfEdit>, names: set<Name>, acls: set<string>,
                                     taken: set<Name>)
    requires i.Some?
    ensures var r := IfFold(n, i, es, names, acls, taken); r.Some? ==> r.value.Some?
    decreases |es|
  {
    hide EditEntry, ValidInterface;
    if es != [] {
      match EditEntry(n, Value(i), es[0], taken) {
        case Denied =>
        case Kept => FoldStays(n, i, es[1..], names, acls, taken);
        case To(j) => FoldStays(n, Some(j), es[1..], names, acls, taken);
      }
    }
  }

  /** The entry as "interface NAME" leaves it: there for hardware, not yet there otherwise. */
  function StartEntry(n: Name): Option<Interface> { if IsCloned(n) then None else Some(EMPTY_INTERFACE) }

  /** An interface comes back exactly when every field does, and a cloned one has something to say. */
  predicate InterfaceReplays(n: Name, i: Interface, names: set<Name>, taken: set<Name>) {
    && InterfaceKind(n) != Loopback
    && (forall l :: 0 <= l < 12 ==> FieldReplays(n, i, l, names, taken))
    && (IsCloned(n) ==> EditsFrom(i, 0) != [])
  }

  lemma InterfaceExact(n: Name, i: Interface, all: set<Name>, names: set<Name>, acls: set<string>, taken: set<Name>)
    requires ValidInterface(n, i, all, acls) && InterfaceKind(n) != Loopback
    ensures IfFold(n, StartEntry(n), EditsFrom(i, 0), names, acls, taken) == Some(Some(i)) <==>
      InterfaceReplays(n, i, names, taken)
  {
    hide FieldReplays, EditsFrom, IfFold;
    AllFields(i);
    if !IsCloned(n) { EmptyValid(n, i, all, names, acls); }
    FieldChain(n, i, 0, StartEntry(n), all, names, acls, taken);
  }

  lemma EmptyValid(n: Name, i: Interface, all: set<Name>, names: set<Name>, acls: set<string>)
    requires ValidInterface(n, i, all, acls) && InterfaceKind(n) != VlanKind
    ensures ValidInterface(n, EMPTY_INTERFACE, names, acls)
  {
  }
}
