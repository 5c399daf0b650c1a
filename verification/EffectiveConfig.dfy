/** The part of a configuration that is applied: no incomplete wireless settings, no dangling bridge members. */
module EffectiveConfig {
  import opened Basics
  import opened Addresses
  import opened Config

  predicate Kept(n: Name, i: Interface) { InterfaceKind(n) == Wlan ==> Ready(i.wireless, Wlan) }

  function StripWireless(n: Name, i: Interface): Interface {
    if Ready(i.wireless, InterfaceKind(n)) then i else i.(wireless := None)
  }

  function KeepMembers(members: seq<Name>, names: set<Name>): (r: seq<Name>)
    ensures forall m :: m in r <==> m in members && m in names
  {
    if members == [] then []
    else (if members[0] in names then [members[0]] else []) + KeepMembers(members[1..], names)
  }

  function PruneBridge(i: Interface, names: set<Name>): Interface {
    if i.bridge.Some? then i.(bridge := Some(KeepMembers(i.bridge.value, names))) else i
  }

  function KeptInterfaces(c: Config): map<Name, Interface> {
    map n | n in c.interfaces && Kept(n, c.interfaces[n]) :: StripWireless(n, c.interfaces[n])
  }

  function Effective(c: Config): Config {
    c.(interfaces := PruneBridges(KeptInterfaces(c)))
  }

  /** The first pass of apply.Effective. */
  method KeepReady(c: Config) returns (kept: map<Name, Interface>)
    ensures kept == KeptInterfaces(c)
  {
    kept := map[];
    var todo := c.interfaces.Keys;
    while todo != {}
      invariant todo <= c.interfaces.Keys
      invariant forall n :: n in kept <==> n in c.interfaces && n !in todo && Kept(n, c.interfaces[n])
      invariant forall n :: n in kept ==> kept[n] == StripWireless(n, c.interfaces[n])
      decreases todo
    {
      var n :| n in todo;
      var i := c.interfaces[n];
      var kind := InterfaceKind(n);
      if kind != Wlan || Ready(i.wireless, kind) {
        if i.wireless.Some? && !Ready(i.wireless, kind) { i := i.(wireless := None); }
        kept := kept[n := i];
      }
      todo := todo - {n};
    }
  }

  function PruneBridges(kept: map<Name, Interface>): map<Name, Interface> {
    map n | n in kept :: PruneBridge(kept[n], kept.Keys)
  }

  /** `l` is `m` without what is not in `names`: the rest is there as often as before, and in order. */
  ghost predicate IsFiltered(l: seq<Name>, m: seq<Name>, names: set<Name>) {
    Subsequence(l, m) && forall x :: multiset(l)[x] == if x in names then multiset(m)[x] else 0
  }

  /** `j` is what is applied of the entry `i`, when `names` are the interfaces that are applied. */
  ghost predicate IsAppliedEntry(n: Name, i: Interface, j: Interface, names: set<Name>) {
    && j == i.(wireless := j.wireless, bridge := j.bridge)
    && j.wireless == (if Ready(i.wireless, InterfaceKind(n)) then i.wireless else None)
    && (j.bridge.Some? <==> i.bridge.Some?)
    && (i.bridge.Some? ==> IsFiltered(j.bridge.value, i.bridge.value, names))
  }

  /** `e` is what is applied of `c`: everything but wireless interfaces with incomplete settings, incomplete
      settings of others, and bridge members that are not applied themselves. */
  ghost predicate IsApplied(c: Config, e: Config) {
    && e == c.(interfaces := e.interfaces)
    && (forall n :: n in e.interfaces <==>
         n in c.interfaces && (InterfaceKind(n) == Wlan ==> Ready(c.interfaces[n].wireless, Wlan)))
    && (forall n :: n in e.interfaces ==> IsAppliedEntry(n, c.interfaces[n], e.interfaces[n], e.interfaces.Keys))
  }

  lemma {:induction false} KeepMembersFilters(members: seq<Name>, names: set<Name>)
    ensures IsFiltered(KeepMembers(members, names), members, names)
  {
    if members != [] {
      var (m, rest) := (members[0], members[1..]);
      KeepMembersFilters(rest, names);
      var l := KeepMembers(rest, names);
      assert members == [m] + rest;
      if m in names {
        assert ([m] + l)[1..] == l && ([m] + rest)[1..] == rest;
      } else {
        assert KeepMembers(members, names) == l;
        SubsequenceWiden(l, members);
      }
    }
  }

  lemma EffectiveIsApplied(c: Config)
    ensures IsApplied(c, Effective(c))
  {
    var (kept, e) := (KeptInterfaces(c), Effective(c));
    assert e.interfaces.Keys == kept.Keys;
    forall n | n in e.interfaces ensures IsAppliedEntry(n, c.interfaces[n], e.interfaces[n], e.interfaces.Keys) {
      if c.interfaces[n].bridge.Some? { KeepMembersFilters(c.interfaces[n].bridge.value, kept.Keys); }
    }
  }

  /** apply.Effective: two passes over the interfaces. */
  method ComputeEffective(c: Config) returns (e: Config)
    ensures e == Effective(c) && IsApplied(c, e)
  {
    var kept := KeepReady(c);
    var pruned: map<Name, Interface> := map[];
    var todo := kept.Keys;
    while todo != {}
      invariant todo <= kept.Keys
      invariant forall n :: n in pruned <==> n in kept && n !in todo
      invariant forall n :: n in pruned ==> pruned[n] == PruneBridge(kept[n], kept.Keys)
      decreases todo
    {
      var n :| n in todo;
      pruned := pruned[n := PruneBridge(kept[n], kept.Keys)];
      todo := todo - {n};
    }
    assert pruned == PruneBridges(kept);
    e := c.(interfaces := pruned);
    EffectiveIsApplied(c);
  }

  // ----- what validation gives the applier

  /** The shape every effective interface of a valid configuration has. */
  predicate WellShaped(n: Name, i: Interface, names: set<Name>) {
    var kind := InterfaceKind(n);
    && (forall p: Prefix :: p in i.ipv4 ==> p.addr.family == V4)
    && (forall p: Prefix :: p in i.ipv6 ==> p.addr.family == V6)
    && (kind == VlanKind <==> i.vlan.Some?)
    && (i.bridge.Some? ==> kind == BridgeKind && forall m :: m in i.bridge.value ==> m in names && m != n)
    && (i.wireless.Some? ==> kind == Physical || kind == Wlan)
    && (i.wireless.Some? ==> Ready(i.wireless, kind))
    && (i.wireless.Some? && kind == Physical ==> i.wireless.value.device == "")
    && (kind == Wlan ==> i.wireless.Some?)
  }

  ghost predicate Shaped(e: Config) {
    forall n :: n in e.interfaces ==> WellShaped(n, e.interfaces[n], e.interfaces.Keys)
  }

  /** Every valid configuration has a well-shaped effective part: nothing dangling is ever applied. */
  lemma ValidIsShaped(c: Config)
    requires ValidInterfaces(c.interfaces, c.acls.Keys)
    ensures Shaped(Effective(c))
  {
    var kept := KeptInterfaces(c);
    forall n | n in kept
      ensures WellShaped(n, PruneBridge(kept[n], kept.Keys), kept.Keys)
    {
      ValidInterfaceIsShaped(n, c.interfaces[n], c.interfaces.Keys, c.acls.Keys, kept.Keys);
    }
    assert Effective(c).interfaces.Keys == kept.Keys;
  }

  lemma ValidInterfaceIsShaped(n: Name, i: Interface, names: set<Name>, acls: set<string>, kept: set<Name>)
    requires ValidInterface(n, i, names, acls) && Kept(n, i)
    ensures WellShaped(n, PruneBridge(StripWireless(n, i), kept), kept)
  {
  }

  /** Applying the effective part of an effective part changes nothing more. */
  lemma EffectiveIdempotent(c: Config)
    ensures Effective(Effective(c)) == Effective(c)
  {
    var kept := KeptInterfaces(c);
    var pruned := PruneBridges(kept);
    forall n | n in pruned
      ensures Kept(n, pruned[n]) && PruneBridge(StripWireless(n, pruned[n]), pruned.Keys) == pruned[n]
    {
      if kept[n].bridge.Some? { KeepAll(pruned[n].bridge.value, pruned.Keys); }
    }
    var again := KeptInterfaces(Effective(c));
    assert again.Keys == pruned.Keys;
    assert PruneBridges(again) == pruned;
  }

  lemma {:induction false} KeepAll(members: seq<Name>, names: set<Name>)
    requires forall m :: m in members ==> m in names
    ensures KeepMembers(members, names) == members
  {
    if members != [] { KeepAll(members[1..], names); }
  }
}
