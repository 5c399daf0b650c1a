/** The applier (netcli/internal/apply/apply.go): moves the kernel from one
    configuration to another, one command at a time, while any command may fail.

    The lemmas come first. What holds of every pattern of failures is stated of a kernel that lies
    between the two configurations, and kept from command to command by the methods of `Step`; what
    is never done, whatever the side conditions, is a residue (`Residue`, `Residues`); what a kernel that
    obeys refuses is a matter of what exists (`Prepared`) and of the members of bridges (`Bridging`). */
module Apply {
  import opened Basics
  import opened Addresses
  import opened Config
  import opened Services
  import opened Kernel
  import opened EffectiveConfig
  import opened Agreement
  import opened SlotSteps
  import opened Bridging
  import Npf

  /** What the environment does with a command: let the kernel decide, or make it
      fail with some message, leaving the kernel as it is. */
  datatype Reply = Obey | Refuse(msg: Msg)

  const TOL_NONE: set<Msg> := {}
  const TOL_EXISTS: set<Msg> := {Exists}
  const TOL_MISSING: set<Msg> := {Missing}
  const TOL_ALREADY: set<Msg> := {Already}

  /** The command has its effect, or fails with a message that is tolerated. */
  predicate Harmless(k: Kernel, c: Cmd, tolerate: set<Msg>) {
    VerdictOf(k, c).Fine? || VerdictOf(k, c).msg in tolerate
  }

  /** The outcome when the kernel decides. */
  function Settle(k: Kernel, c: Cmd): Kernel { if VerdictOf(k, c).Fine? then EffectOf(k, c) else k }

  /** The kernel after a command, and the message if it fails. */
  function Outcome(k: Kernel, reply: Reply, c: Cmd): (Kernel, Option<Msg>) {
    match reply
    case Refuse(msg) => (k, Some(msg))
    case Obey =>
      match VerdictOf(k, c)
      case Fine => (EffectOf(k, c), None)
      case Fails(msg) => (k, Some(msg))
  }

  /** Only the slot of `n` differs. */
  ghost predicate OnlySlot(k0: Kernel, k1: Kernel, n: Name) {
    k1.links == k0.links && k1.sys == k0.sys && forall m :: m != n ==> At(k1, m) == At(k0, m)
  }

  /** Every command in `i1` but not in `i0` acts on `n`. */
  ghost predicate AddedOn(i0: set<Cmd>, i1: set<Cmd>, n: Name) {
    forall c :: c in i1 ==> c in i0 || Target(c) == Some(n)
  }

  /** What configureInterface relies on, from validation and the side conditions. */
  ghost predicate ApplicableTo(n: Name, i: Interface) {
    && Families(i) && UniqueHosts(AddrsOf(Some(i)))
    && (InterfaceKind(n) == VlanKind <==> i.vlan.Some?)
    && (i.bridge.Some? ==> InterfaceKind(n) == BridgeKind && n !in i.bridge.value)
    && VapDefined(n, i)
  }

  /** The interfaces that configuring `n` refers to exist, and its new members are in no other bridge. */
  ghost predicate ReferencesReady(n: Name, o: Option<Interface>, ni: Interface, k: Kernel) {
    && (!IsCloned(n) || Stays(n, o, Some(ni)) ==> At(k, n).present)
    && (ni.vlan.Some? ==> ni.vlan.value.parent != n && At(k, ni.vlan.value.parent).present)
    && (InterfaceKind(n) == BridgeKind ==>
         forall m :: m in Minus(MembersOf(ni), MembersIn(o)) ==> At(k, m).present && FreeFor(n, m, k.links))
  }

  /** Something about the interface changes that the kernel can see. */
  ghost predicate Changed(o: Config, w: Config, n: Name) {
    && (n in o.interfaces || n in w.interfaces)
    && !(n in o.interfaces && n in w.interfaces && SameForKernel(o.interfaces[n], w.interfaces[n])
         && BridgeOf(o, n) == BridgeOf(w, n))
  }

  lemma UnchangedMeans(o: Config, w: Config, n: Name)
    ensures n in w.interfaces && !Changed(o, w, n) ==>
      n in o.interfaces && SameForKernel(o.interfaces[n], w.interfaces[n]) && BridgeOf(o, n) == BridgeOf(w, n)
    ensures n in o.interfaces && n !in w.interfaces ==> Changed(o, w, n)
  {
  }

  lemma SlotBetweenIsWf(o: Config, w: Config, k: Kernel, n: Name)
    requires SlotsBetween(o, w, k) && (n in o.interfaces || n in w.interfaces)
    ensures SlotWf(At(k, n)) && !At(k, n).foreign
  {
    assert SlotBetween(n, Lookup(o, n), Lookup(w, n), BridgeOf(o, n), BridgeOf(w, n), At(k, n));
  }

  /** Validation and the side conditions give configureInterface what it relies on. */
  lemma ShapeApplies(c: Config, n: Name)
    requires Shaped(c) && Unambiguous(c) && n in c.interfaces
    ensures ApplicableTo(n, c.interfaces[n])
  {
    assert WellShaped(n, c.interfaces[n], c.interfaces.Keys);
  }

  lemma SetUpApplicable(o: Config, w: Config, n: Name, k: Kernel)
    requires Appliable(o, w) && SlotsBetween(o, w, k) && n in w.interfaces
    ensures ApplicableTo(n, w.interfaces[n])
    ensures n in o.interfaces ==> ApplicableTo(n, o.interfaces[n]) && !Drops(o.interfaces[n], w.interfaces[n])
    ensures SlotBetween(n, Lookup(o, n), Some(w.interfaces[n]), BridgeOf(o, n), BridgeOf(w, n), At(k, n))
  {
    hide SlotBetween, ApplicableTo, Shaped, Unambiguous;
    ShapeApplies(w, n);
    if n in o.interfaces { ShapeApplies(o, n); }
    assert SlotBetween(n, Lookup(o, n), Lookup(w, n), BridgeOf(o, n), BridgeOf(w, n), At(k, n));
  }

  /** A bridge's members move from the old list to the new one. */
  lemma BridgeLinks(o: Config, w: Config, n: Name, links0: set<(Name, Name)>, links1: set<(Name, Name)>)
    requires n in w.interfaces && LinksBetween(LinksOf(o), LinksOf(w), links0)
    requires BridgeStep(n, MembersIn(Lookup(o, n)), MembersIn(Lookup(w, n)), links0, links1)
    ensures LinksBetween(LinksOf(o), LinksOf(w), links1)
    ensures forall l: (Name, Name) :: l.0 != n ==> (l in links1 <==> l in links0)
    ensures BridgeDone(n, MembersIn(Lookup(o, n)), MembersIn(Lookup(w, n)), links0, links1) ==>
      forall l: (Name, Name) :: l.0 == n ==> (l in links1 <==> l in LinksOf(w))
  {
    var om, nm := MembersIn(Lookup(o, n)), MembersIn(Lookup(w, n));
    BridgeArrives(o, w, n, PairsOf(n, Minus(om, nm)), PairsOf(n, Minus(nm, om)), links0, links1);
  }

  /** The links after `n` was configured: only its own recreation or its own members matter. */
  ghost predicate LinkStep(n: Name, o: Option<Interface>, w: Option<Interface>, k0: Kernel, k1: Kernel) {
    && (!At(k1, n).present ==> k1.links <= k0.links)
    && (!Recreated(n, o, w) && At(k0, n).present ==> At(k1, n).present)
    && (InterfaceKind(n) == BridgeKind ==> BridgeStep(n, MembersIn(o), MembersIn(w), k0.links, k1.links))
    && (InterfaceKind(n) != BridgeKind ==> Without(k0.links, n) <= k1.links <= k0.links)
    && (InterfaceKind(n) != BridgeKind && !Recreated(n, o, w) ==> k1.links == k0.links)
  }

  predicate BridgeStep(n: Name, om: seq<Name>, nm: seq<Name>, links0: set<(Name, Name)>, links1: set<(Name, Name)>) {
    links0 - PairsOf(n, Minus(om, nm)) <= links1 <= links0 + PairsOf(n, Minus(nm, om))
  }

  predicate BridgeDone(n: Name, om: seq<Name>, nm: seq<Name>, links0: set<(Name, Name)>, links1: set<(Name, Name)>) {
    links1 == links0 - PairsOf(n, Minus(om, nm)) + PairsOf(n, Minus(nm, om))
  }

  /** Configuring an interface that was not configured takes nothing away. */
  ghost predicate Adds(n: Name, ni: Interface, s: Slot, t: Slot) {
    && t.foreign == s.foreign && s.addrs <= t.addrs && (s.present ==> t.present && t.vap == s.vap)
    && (InterfaceKind(n) != VlanKind ==> t.port.vlan == s.port.vlan)
    && (InterfaceKind(n) != Physical || !ApIn(Some(ni)) ==> t.port.ap == s.port.ap)
    && (!DhcpIn(Some(ni)) ==> t.dhcpcd == s.dhcpcd)
    && (ni.wireless.None? ==> t.wifi == s.wifi)
  }

  /** What configuring `n` never does, whatever the side conditions: put it back into a bridge that
      it lost by being recreated, stop a wireless daemon whose settings are gone, add a member that
      another bridge holds, or take anything from an interface that it is not told of. */
  ghost predicate Residue(n: Name, o: Option<Interface>, w: Option<Interface>, obeys: bool, k0: Kernel, k1: Kernel) {
    && LinkChange(n, o, w, obeys, At(k0, n).present, k0.links, k1.links)
    && (Stays(n, o, w) && w.value.shutdown && w.value.wireless.None? ==> At(k1, n).wifi == At(k0, n).wifi)
    && (o.None? && w.Some? ==> Adds(n, w.value, At(k0, n), At(k1, n)))
    && (LinksSound(k0) ==> LinksSound(k1))
  }

  /** Making sure that `n` exists, and then configuring it. */
  lemma WholeChange(n: Name, o: Option<Interface>, ni: Interface, oi: Interface, isNew: bool, more: bool, less: bool,
                    k0: Kernel, k1: Kernel, k2: Kernel)
    requires StartsFrom(n, o, ni, oi, isNew) && (less ==> more) && At(k2, n).present == At(k1, n).present
    requires Without(k0.links, n) <= k1.links <= k0.links
    requires less && Recreated(n, o, Some(ni)) && At(k0, n).present ==> k1.links == Without(k0.links, n)
    requires !Recreated(n, o, Some(ni)) ==> k1.links == k0.links && (At(k0, n).present ==> At(k1, n).present)
    requires InterfaceKind(n) != BridgeKind ==> k2.links == k1.links
    requires InterfaceKind(n) == BridgeKind ==> LinkChange(n, Some(oi), Some(ni), more, At(k1, n).present, k1.links, k2.links)
    requires !At(k2, n).present ==> k2.links <= k1.links
    ensures LinkChange(n, o, Some(ni), less, At(k0, n).present, k0.links, k2.links) && LinkStep(n, o, Some(ni), k0, k2)
    ensures InterfaceKind(n) == BridgeKind ==> k1.links == k0.links && MembersOf(oi) == MembersIn(o)
    ensures Blocked(n, o, Some(ni), k0.links) ==> Blocked(n, Some(oi), Some(ni), k1.links)
    ensures o.None? && Adds(n, ni, At(k0, n), At(k1, n)) && Adds(n, ni, At(k1, n), At(k2, n)) ==> Adds(n, ni, At(k0, n), At(k2, n))
  {
  }

  /** A recreated interface has none of its old links. */
  ghost predicate Unlinked(o: Config, w: Config, n: Name, k0: Kernel, k1: Kernel) {
    Recreated(n, Lookup(o, n), Lookup(w, n)) && At(k0, n).present ==> forall b :: (b, n) in LinksOf(o) ==> (b, n) !in k1.links
  }

  /** What an interface keeps: the daemons that it had, if it is shut down without wireless settings, and
      everything, if it was not configured before. */
  ghost predicate Keeps(o: Config, w: Config, n: Name, k0: Kernel, k1: Kernel)
    requires n in w.interfaces
  {
    && (Stays(n, Lookup(o, n), Lookup(w, n)) && w.interfaces[n].shutdown && w.interfaces[n].wireless.None? ==>
         At(k1, n).wifi == At(k0, n).wifi)
    && (n !in o.interfaces ==> Adds(n, w.interfaces[n], At(k0, n), At(k1, n)))
  }

  /** The interfaces among `done` have been configured. */
  ghost predicate SoFar(o: Config, w: Config, done: set<Name>, obeys: bool, k0: Kernel, k1: Kernel) {
    done <= w.interfaces.Keys && LinkHistory(o, w, done, obeys, k0, k1) && forall n :: n in done ==> Keeps(o, w, n, k0, k1)
  }

  /** What is left when all have. */
  ghost predicate Residues(o: Config, w: Config, obeys: bool, k0: Kernel, k1: Kernel) {
    && (forall b, d, m :: Must(o, w, k0.links, b, d, m) ==> (b, m) !in k1.links)
    && (o.interfaces == map[] ==> k0.links <= k1.links)
    && (obeys ==> forall n :: Unlinked(o, w, n, k0, k1))
    && (forall n :: n in w.interfaces ==> Keeps(o, w, n, k0, k1))
  }

  lemma SoFarNext(o: Config, w: Config, n: Name, done: set<Name>, obeys: bool, k0: Kernel, k1: Kernel, k2: Kernel)
    requires Shaped(o) && Shaped(w) && n in w.interfaces && n !in done && forall d :: d in done ==> !Before(n, d)
    requires SoFar(o, w, done, obeys, k0, k1) && At(k1, n) == At(k0, n)
    requires Residue(n, Lookup(o, n), Lookup(w, n), obeys, k1, k2) && forall m :: m != n ==> At(k2, m) == At(k1, m)
    ensures SoFar(o, w, done + {n}, obeys, k0, k2)
  {
    hide LinkHistory, LinkChange, Adds, Before;
    HistoryNext(o, w, n, done, obeys, k0, k1, k2);
    forall m | m in done + {n} ensures Keeps(o, w, m, k0, k2) {
      if m != n { assert Keeps(o, w, m, k0, k1); }
    }
  }

  lemma ResidueLess(n: Name, o: Option<Interface>, w: Option<Interface>, more: bool, less: bool, k0: Kernel, k1: Kernel)
    requires Residue(n, o, w, more, k0, k1) && (less ==> more)
    ensures Residue(n, o, w, less, k0, k1)
  {
    hide Adds, LinkChange, LinksSound;
    LinkChangeLess(n, o, w, more, less, At(k0, n).present, k0.links, k1.links);
  }

  lemma ResidueIsSound(n: Name, o: Option<Interface>, w: Option<Interface>, obeys: bool, k0: Kernel, k1: Kernel)
    requires Residue(n, o, w, obeys, k0, k1)
    ensures LinksSound(k0) ==> LinksSound(k1)
  {
    hide Adds, LinkChange, LinksSound;
  }

  lemma NothingYet(o: Config, w: Config, obeys: bool, k: Kernel)
    ensures SoFar(o, w, {}, obeys, k, k)
  {
    NoHistory(o, w, obeys, k);
  }

  lemma NothingLost(o: Config, w: Config, l: (Name, Name))
    requires o.interfaces == map[]
    ensures !Lost(o, w, w.interfaces.Keys, l)
  {
  }

  lemma SoFarAll(o: Config, w: Config, obeys: bool, k0: Kernel, k1: Kernel)
    requires Shaped(w) && SoFar(o, w, w.interfaces.Keys, obeys, k0, k1)
    ensures Residues(o, w, obeys, k0, k1)
  {
    hide LinksOf, Keeps, Before;
    forall b, d, m | Must(o, w, k0.links, b, d, m) ensures (b, m) !in k1.links {
      LinkShape(w, b, m);
    }
    forall n | obeys ensures Unlinked(o, w, n, k0, k1) {}
    forall l | l in k0.links && o.interfaces == map[] ensures l in k1.links { NothingLost(o, w, l); }
  }

  /** Applying leaves the new configuration realised only if the side conditions hold. */
  lemma RealisedIsGentle(o: Config, w: Config, k0: Kernel, k1: Kernel)
    requires Shaped(o) && Shaped(w) && Realises(o, k0) && Realises(w, k1) && Residues(o, w, true, k0, k1)
    ensures Gentle(o, w) && !MustClash(o, w, LinksOf(o))
  {
    hide SlotRealises, LinksOf, Conflict;
    forall n, b | Recreated(n, Lookup(o, n), Lookup(w, n)) ensures !((b, n) in LinksOf(o) && (b, n) in LinksOf(w)) {
      WasThere(o, n, k0);
      assert Unlinked(o, w, n, k0, k1);
    }
    forall n | n in o.interfaces && n in w.interfaces ensures !Drops(o.interfaces[n], w.interfaces[n]) {
      assert WellShaped(n, w.interfaces[n], w.interfaces.Keys) && Keeps(o, w, n, k0, k1);
      if Drops(o.interfaces[n], w.interfaces[n]) { DroppedDaemon(o, w, n, k0, k1); }
    }
    forall b, d, m ensures !Must(o, w, LinksOf(o), b, d, m) {
      if Must(o, w, LinksOf(o), b, d, m) { MustIsWanted(o, w, LinksOf(o), b, d, m); }
    }
  }

  lemma MustIsWanted(o: Config, w: Config, links: set<(Name, Name)>, b: Name, d: Name, m: Name)
    requires Must(o, w, links, b, d, m)
    ensures (b, m) in LinksOf(w)
  {
    hide LinksOf;
  }

  lemma WasThere(o: Config, n: Name, k: Kernel)
    requires Realises(o, k) && n in o.interfaces
    ensures At(k, n).present
  {
    assert SlotRealises(n, Lookup(o, n), BridgeOf(o, n), At(k, n));
  }

  /** The daemons of an interface that was up differ from those of one without wireless settings. */
  lemma DroppedDaemon(o: Config, w: Config, n: Name, k0: Kernel, k1: Kernel)
    requires Realises(o, k0) && Realises(w, k1) && n in o.interfaces && n in w.interfaces
    requires Drops(o.interfaces[n], w.interfaces[n])
    ensures At(k1, n).wifi != At(k0, n).wifi
  {
    assert SlotRealises(n, Lookup(o, n), BridgeOf(o, n), At(k0, n)) && SlotRealises(n, Lookup(w, n), BridgeOf(w, n), At(k1, n));
  }

  /** A step on one interface keeps what the interface phase keeps. */
  lemma SetUpBetween(o: Config, w: Config, n: Name, k0: Kernel, k1: Kernel)
    requires Appliable(o, w) && n in w.interfaces && SlotsBetween(o, w, k0)
    requires LinksBetween(LinksOf(o), LinksOf(w), k0.links) && BridgesPresent(k0)
    requires LinkStep(n, Lookup(o, n), Lookup(w, n), k0, k1) && forall m :: m != n ==> At(k1, m) == At(k0, m)
    requires SlotBetween(n, Lookup(o, n), Lookup(w, n), BridgeOf(o, n), BridgeOf(w, n), At(k1, n))
    ensures SlotsBetween(o, w, k1) && LinksBetween(LinksOf(o), LinksOf(w), k1.links) && BridgesPresent(k1)
    ensures InterfaceKind(n) != BridgeKind ==> k1.links <= k0.links
    ensures InterfaceKind(n) == BridgeKind ==> forall l: (Name, Name) :: l.0 != n ==> (l in k1.links <==> l in k0.links)
  {
    OneSlotBetween(o, w, k0, k1, n);
    SetUpLinks(o, w, n, k0, k1);
    forall l | l in k1.links ensures At(k1, l.0).present {
      if l.0 == n && InterfaceKind(n) != BridgeKind {
        assert l == (n, l.1);
        if l in LinksOf(o) { LinkShape(o, n, l.1); } else { LinkShape(w, n, l.1); }
      }
    }
  }

  lemma SetUpLinks(o: Config, w: Config, n: Name, k0: Kernel, k1: Kernel)
    requires Appliable(o, w) && n in w.interfaces && LinkStep(n, Lookup(o, n), Lookup(w, n), k0, k1)
    requires LinksBetween(LinksOf(o), LinksOf(w), k0.links)
    ensures LinksBetween(LinksOf(o), LinksOf(w), k1.links)
    ensures InterfaceKind(n) == BridgeKind ==> forall l: (Name, Name) :: l.0 != n ==> (l in k1.links <==> l in k0.links)
  {
    if InterfaceKind(n) == BridgeKind {
      BridgeLinks(o, w, n, k0.links, k1.links);
    } else if Recreated(n, Lookup(o, n), Lookup(w, n)) {
      LinksWithoutBetween(o, w, n, k0.links, k1.links);
    }
  }

  lemma SetUpBridge(o: Config, w: Config, n: Name, k0: Kernel, k1: Kernel)
    requires n in w.interfaces && LinksBetween(LinksOf(o), LinksOf(w), k0.links) && InterfaceKind(n) == BridgeKind
    requires LinkStep(n, Lookup(o, n), Lookup(w, n), k0, k1)
    ensures BridgeDone(n, MembersIn(Lookup(o, n)), MembersOf(w.interfaces[n]), k0.links, k1.links) ==>
      forall l: (Name, Name) :: l.0 == n ==> (l in k1.links <==> l in LinksOf(w))
  {
    BridgeLinks(o, w, n, k0.links, k1.links);
  }

  /** What an interface refers to is hardware, or is configured before it. */
  predicate Layered(w: Config) {
    forall n :: n in w.interfaces ==>
      && (w.interfaces[n].vlan.Some? ==>
           var parent := w.interfaces[n].vlan.value.parent;
           parent != n && (!IsCloned(parent) || (parent in w.interfaces && Before(parent, n))))
      && (forall m :: m in MembersOf(w.interfaces[n]) ==> Before(m, n))
  }

  /** What must be there for configuring to go through, whatever else the kernel holds. */
  ghost predicate Prepared(o: Config, w: Config, k: Kernel) {
    && Shaped(o) && Shaped(w) && OneBridgeEach(w) && Layered(w) && HardwarePresent(w, k) && LinksSound(k)
    && forall n :: Stays(n, Lookup(o, n), Lookup(w, n)) ==> At(k, n).present
  }

  /** A kernel that realises `o` and can be brought to `w`, side conditions of the pair apart. */
  ghost predicate Fits(o: Config, w: Config, k: Kernel) {
    && Shaped(o) && Shaped(w) && Unambiguous(o) && Unambiguous(w) && Realises(o, k)
    && Layered(w) && HardwarePresent(w, k) && Ours(w, k)
  }

  lemma RealisedIsSound(o: Config, k: Kernel)
    requires Shaped(o) && Realises(o, k)
    ensures Sound(k) && forall n :: n in o.interfaces ==> At(k, n).present
  {
    hide SlotRealises, LinksOf;
    forall n ensures At(k, n).foreign || SlotWf(At(k, n)) { RealisedIsWf(o, k, n); }
    forall n | n in o.interfaces ensures At(k, n).present { WasThere(o, n, k); }
    forall l | l in k.links ensures InterfaceKind(l.0) == BridgeKind && At(k, l.0).present && At(k, l.1).present {
      assert l == (l.0, l.1);
      LinkShape(o, l.0, l.1);
    }
  }

  lemma RealisedIsWf(o: Config, k: Kernel, n: Name)
    requires Realises(o, k)
    ensures At(k, n).foreign || SlotWf(At(k, n))
  {
    assert SlotRealises(n, Lookup(o, n), BridgeOf(o, n), At(k, n));
  }

  lemma FitsIsBetween(o: Config, w: Config, k: Kernel)
    requires Fits(o, w, k)
    ensures Between(o, w, false, k) && (Gentle(o, w) ==> Appliable(o, w)) && Shaped(o) && Shaped(w)
  {
    hide Realises, Shaped, Layered, HardwarePresent, Ours, Between, Unambiguous;
    RealisedIsBetween(o, w, false, k);
  }

  lemma FitsIsPrepared(o: Config, w: Config, k: Kernel)
    requires Fits(o, w, k)
    ensures Prepared(o, w, k)
  {
    hide Realises, Shaped, Layered, HardwarePresent, OneBridgeEach, LinksSound;
    RealisedIsSound(o, k);
  }

  /** Configuring interfaces keeps what was there. */
  lemma StillPrepared(o: Config, w: Config, k0: Kernel, k1: Kernel)
    requires Prepared(o, w, k0) && LinksSound(k1)
    requires forall n :: !IsCloned(n) ==> At(k1, n).present == At(k0, n).present
    requires forall m :: m in w.interfaces ==> At(k1, m) == At(k0, m)
    ensures Prepared(o, w, k1)
  {
    hide Shaped, Layered, OneBridgeEach, LinksSound;
  }

  /** Fewer links, of the interfaces that are taken away alone. */
  lemma ClashStays(o: Config, w: Config, links0: set<(Name, Name)>, links1: set<(Name, Name)>)
    requires Shaped(w) && links1 <= links0
    requires forall l :: l in links0 && (l.0 in o.interfaces ==> l.0 in w.interfaces) && (l.1 in o.interfaces ==> l.1 in w.interfaces) ==>
      l in links1
    ensures MayClash(o, w, links1) ==> MayClash(o, w, links0)
    ensures forall b, d, m :: Must(o, w, links0, b, d, m) ==> Must(o, w, links1, b, d, m)
  {
    hide LinksOf, Before;
    forall b, d, m | May(o, w, links1, b, d, m) ensures May(o, w, links0, b, d, m) {}
    forall b, d, m | Must(o, w, links0, b, d, m) ensures Must(o, w, links1, b, d, m) { LinkShape(w, b, m); }
  }

  /** VLANs on hardware, and bridges without bridges as members, are always in order. */
  lemma PlainLayering(w: Config)
    requires Shaped(w)
    requires forall n :: n in w.interfaces && w.interfaces[n].vlan.Some? ==> !IsCloned(w.interfaces[n].vlan.value.parent)
    requires forall n, m :: n in w.interfaces && m in MembersOf(w.interfaces[n]) ==> InterfaceKind(m) != BridgeKind
    ensures Layered(w)
  {
    hide InterfaceKind;
    forall n | n in w.interfaces
      ensures w.interfaces[n].vlan.Some? ==> w.interfaces[n].vlan.value.parent != n
      ensures forall m :: m in MembersOf(w.interfaces[n]) ==> Before(m, n)
    {
      assert WellShaped(n, w.interfaces[n], w.interfaces.Keys);
    }
  }

  /** The interfaces that are not created are there. */
  ghost predicate HardwarePresent(w: Config, k: Kernel) {
    forall n :: n in w.interfaces ==>
      && (!IsCloned(n) ==> At(k, n).present)
      && (w.interfaces[n].vlan.Some? && !IsCloned(w.interfaces[n].vlan.value.parent) ==>
           At(k, w.interfaces[n].vlan.value.parent).present)
  }

  /** The interfaces among `done` are as the new configuration wants them, with their links. */
  ghost predicate Settled(w: Config, done: seq<Name>, k: Kernel) {
    && (forall n :: n in done ==> SlotRealises(n, Lookup(w, n), BridgeOf(w, n), At(k, n)))
    && LinksSettled(w, done, k.links)
  }

  lemma NoneSettled(w: Config, done: seq<Name>, k: Kernel)
    requires done == []
    ensures Settled(w, done, k)
  {
  }

  lemma EverySettled(w: Config, names: seq<Name>, k: Kernel)
    requires Settled(w, names, k) && forall n :: n in names <==> n in w.interfaces
    ensures forall n :: n in w.interfaces ==> SlotRealises(n, Lookup(w, n), BridgeOf(w, n), At(k, n))
    ensures forall l: (Name, Name) :: l.0 in w.interfaces ==> (l in k.links <==> l in LinksOf(w))
  {
  }

  /** The bridges among `done` have exactly their new members. */
  ghost predicate LinksSettled(w: Config, done: seq<Name>, links: set<(Name, Name)>) {
    forall l: (Name, Name) :: l.0 in done ==> (l in links <==> l in LinksOf(w))
  }

  lemma SettleBridge(w: Config, names: seq<Name>, j: nat, links0: set<(Name, Name)>, links1: set<(Name, Name)>)
    requires j < |names| && LinksSettled(w, names[..j], links0)
    requires forall l: (Name, Name) :: l.0 != names[j] ==> (l in links1 <==> l in links0)
    requires forall l: (Name, Name) :: l.0 == names[j] ==> (l in links1 <==> l in LinksOf(w))
    ensures LinksSettled(w, names[..j + 1], links1)
  {
  }

  /** Before the first bridge no settled interface has links, so losing some does no harm. */
  lemma SettleOther(o: Config, w: Config, names: seq<Name>, j: nat, links0: set<(Name, Name)>, links1: set<(Name, Name)>)
    requires Shaped(o) && Shaped(w) && SortedNames(names) && j < |names| && InterfaceKind(names[j]) != BridgeKind
    requires LinksBetween(LinksOf(o), LinksOf(w), links0) && links1 <= links0
    ensures LinksSettled(w, names[..j + 1], links1)
  {
    forall l: (Name, Name) | l.0 in names[..j + 1] ensures l !in links1 && l !in LinksOf(w) {
      var i :| 0 <= i <= j && names[i] == l.0;
      if i < j { SortedByKind(names, i, j); }
      assert l == (l.0, l.1);
      if l in LinksOf(w) { LinkShape(w, l.0, l.1); }
      if l in LinksOf(o) { LinkShape(o, l.0, l.1); }
    }
  }

  /** What an interface refers to comes earlier in the order, or is hardware. */
  lemma ReferencesSettled(o: Config, w: Config, names: seq<Name>, j: nat, k0: Kernel, k1: Kernel)
    requires Prepared(o, w, k0) && Cleared(o, w, k0.links) && !MayClash(o, w, k0.links)
    requires SortedNames(names) && j < |names| && forall n :: n in names <==> n in w.interfaces
    requires LinkHistory(o, w, ToSet(names[..j]), true, k0, k1)
    requires (forall n :: n in names[..j] ==> At(k1, n).present) && At(k1, names[j]) == At(k0, names[j])
    requires forall n :: !IsCloned(n) ==> At(k1, n).present == At(k0, n).present
    ensures names[j] in w.interfaces && ReferencesReady(names[j], Lookup(o, names[j]), w.interfaces[names[j]], k1)
  {
    hide SortedNames, InterfaceKind, Before, LinksOf, OneBridgeEach, FreeFor, LinkHistory, MayClash, Cleared, LinksSound;
    var n := names[j];
    assert n in names;
    var ni := w.interfaces[n];
    assert WellShaped(n, ni, w.interfaces.Keys);
    forall m | m in w.interfaces && Before(m, n) ensures m in names[..j] { IsEarlier(names, m, j); }
    forall m | m in Minus(MembersOf(ni), MembersIn(Lookup(o, n))) ensures FreeFor(n, m, k1.links) {
      NewMember(o, w, n, m);
      MemberIsFree(o, w, n, ToSet(names[..j]), k0, k1, m);
    }
  }

  /** Nothing stands in the way of setting up. */
  ghost predicate Unopposed(o: Config, w: Config, k: Kernel) {
    Prepared(o, w, k) && Cleared(o, w, k.links) && !MayClash(o, w, k.links)
  }

  lemma UnopposedMeans(o: Config, w: Config, k: Kernel)
    ensures Prepared(o, w, k) ==> Shaped(o) && Shaped(w) && LinksSound(k)
    ensures Unopposed(o, w, k) ==> Prepared(o, w, k)
  {
    hide Shaped, Layered, OneBridgeEach, LinksSound;
  }

  lemma GetsUnopposed(o: Config, w: Config, k0: Kernel, k1: Kernel)
    requires Prepared(o, w, k0) && LinksSound(k1) && Cleared(o, w, k1.links) && !MayClash(o, w, k1.links)
    requires forall n :: !IsCloned(n) ==> At(k1, n).present == At(k0, n).present
    requires forall m :: m in w.interfaces ==> At(k1, m) == At(k0, m)
    ensures Unopposed(o, w, k1)
  {
    hide Prepared;
    StillPrepared(o, w, k0, k1);
  }

  /** The first `j` interfaces have been set up; if nothing stood in the way, they are there. */
  ghost predicate OnTheWay(o: Config, w: Config, names: seq<Name>, j: nat, obeys: bool, clear: bool, k0: Kernel, k1: Kernel)
    requires j <= |names|
  {
    && (Shaped(o) && Shaped(w) ==> SoFar(o, w, ToSet(names[..j]), obeys, k0, k1))
    && (clear ==> obeys && Shaped(o) && Shaped(w) && Unopposed(o, w, k0) && forall n :: n in names[..j] ==> At(k1, n).present)
    && (forall m :: m !in names[..j] ==> At(k1, m) == At(k0, m))
    && (forall n :: !IsCloned(n) ==> At(k1, n).present == At(k0, n).present)
    && (LinksSound(k0) ==> LinksSound(k1))
  }

  lemma SetsOut(o: Config, w: Config, names: seq<Name>, obeys: bool, clear: bool, k: Kernel)
    requires clear ==> obeys && Unopposed(o, w, k)
    ensures OnTheWay(o, w, names, 0, obeys, clear, k, k)
  {
    hide SoFar, Unopposed, LinksSound;
    NothingYet(o, w, obeys, k);
    UnopposedMeans(o, w, k);
    assert ToSet(names[..0]) == {};
  }

  lemma Arrives(o: Config, w: Config, names: seq<Name>, obeys: bool, clear: bool, k0: Kernel, k1: Kernel)
    requires OnTheWay(o, w, names, |names|, obeys, clear, k0, k1) && forall n :: n in names <==> n in w.interfaces
    ensures Shaped(o) && Shaped(w) ==> Residues(o, w, obeys, k0, k1)
    ensures forall m :: m !in w.interfaces ==> At(k1, m) == At(k0, m)
    ensures LinksSound(k0) ==> LinksSound(k1)
  {
    hide SoFar, Unopposed, Residues, Shaped, LinksSound;
    assert names[..|names|] == names && ToSet(names) == w.interfaces.Keys;
    if Shaped(o) && Shaped(w) { SoFarAll(o, w, obeys, k0, k1); }
  }

  lemma NothingOpposes(o: Config, w: Config, names: seq<Name>, j: nat, k0: Kernel, k1: Kernel)
    requires SortedNames(names) && j < |names| && forall n :: n in names <==> n in w.interfaces
    requires Unopposed(o, w, k0) && SoFar(o, w, ToSet(names[..j]), true, k0, k1)
    requires (forall n :: n in names[..j] ==> At(k1, n).present) && At(k1, names[j]) == At(k0, names[j])
    requires forall n :: !IsCloned(n) ==> At(k1, n).present == At(k0, n).present
    ensures names[j] in w.interfaces && ReferencesReady(names[j], Lookup(o, names[j]), w.interfaces[names[j]], k1)
  {
    ReferencesSettled(o, w, names, j, k0, k1);
  }

  ghost predicate Spared(o: Config, w: Config, links: set<(Name, Name)>, b: Name) { forall d, m :: !Must(o, w, links, b, d, m) }

  lemma NoneBlocked(o: Config, w: Config, n: Name, done: set<Name>, obeys: bool, k0: Kernel, k1: Kernel)
    requires Shaped(o) && Shaped(w) && SoFar(o, w, done, obeys, k0, k1) && n !in done
    requires !Blocked(n, Lookup(o, n), Lookup(w, n), k1.links) && forall d :: d in done ==> !Before(n, d)
    ensures Spared(o, w, k0.links, n)
  {
    hide Blocked, LinkHistory, Must, Before;
    forall d, m ensures !Must(o, w, k0.links, n, d, m) {
      if Must(o, w, k0.links, n, d, m) { MustBlocks(o, w, n, done, obeys, k0, k1, d, m); }
    }
  }

  lemma NoMustClash(o: Config, w: Config, links: set<(Name, Name)>)
    requires Shaped(w) && forall b :: b in w.interfaces ==> Spared(o, w, links, b)
    ensures !MustClash(o, w, links)
  {
    hide Must, LinksOf;
    forall b, d, m ensures !Must(o, w, links, b, d, m) {
      if Must(o, w, links, b, d, m) {
        MustIsWanted(o, w, links, b, d, m);
        LinkShape(w, b, m);
      }
    }
  }

  /** Taking interfaces away first leaves no more than setting up does. */
  lemma ResiduesFromStart(o: Config, w: Config, less: bool, more: bool, k0: Kernel, k1: Kernel, k2: Kernel)
    requires Residues(o, w, more, k1, k2) && (less ==> more)
    requires forall m :: m in w.interfaces ==> At(k1, m) == At(k0, m)
    requires forall b, d, m :: Must(o, w, k0.links, b, d, m) ==> Must(o, w, k1.links, b, d, m)
    requires o.interfaces == map[] ==> k0.links <= k1.links
    ensures Residues(o, w, less, k0, k2)
  {
    hide Must, Adds;
    forall n | less ensures Unlinked(o, w, n, k0, k2) { assert Unlinked(o, w, n, k1, k2); }
    forall n | n in w.interfaces ensures Keeps(o, w, n, k0, k2) { assert Keeps(o, w, n, k1, k2); }
  }

  lemma NewMember(o: Config, w: Config, n: Name, m: Name)
    requires n in w.interfaces && m in Minus(MembersOf(w.interfaces[n]), MembersIn(Lookup(o, n)))
    ensures (n, m) in LinksOf(w) && (n, m) !in LinksOf(o)
  {
  }

  lemma IsEarlier(names: seq<Name>, d: Name, j: nat)
    requires SortedNames(names) && j < |names| && d in names && Before(d, names[j])
    ensures d in names[..j]
  {
    var i :| 0 <= i < |names| && names[i] == d;
    EarlierIndex(names, i, j);
    assert names[..j][i] == d;
  }

  lemma EarlierAreBefore(names: seq<Name>, j: nat)
    requires SortedNames(names) && Distinct(names) && j < |names|
    ensures names[j] !in names[..j] && forall d :: d in names[..j] ==> !Before(names[j], d)
  {
    hide Before;
  }

  lemma EarlierIndex(names: seq<Name>, i: nat, j: nat)
    requires SortedNames(names) && i < |names| && j < |names| && Before(names[i], names[j])
    ensures i < j
  {
    BeforeIrreflexive(names[i]);
  }

  /** One more settled interface. */
  lemma SettleNext(o: Config, w: Config, names: seq<Name>, j: nat, k0: Kernel, k1: Kernel)
    requires Shaped(o) && Shaped(w) && SortedNames(names) && Distinct(names) && j < |names|
    requires Settled(w, names[..j], k0) && LinksBetween(LinksOf(o), LinksOf(w), k0.links)
    requires forall m :: m != names[j] ==> At(k1, m) == At(k0, m)
    requires SlotRealises(names[j], Lookup(w, names[j]), BridgeOf(w, names[j]), At(k1, names[j]))
    requires if InterfaceKind(names[j]) != BridgeKind then k1.links <= k0.links
             else forall l: (Name, Name) :: l in k1.links <==> l in (if l.0 == names[j] then LinksOf(w) else k0.links)
    ensures Settled(w, names[..j + 1], k1)
  {
    hide SlotRealises;
    if InterfaceKind(names[j]) == BridgeKind {
      SettleBridge(w, names, j, k0.links, k1.links);
    } else {
      SettleOther(o, w, names, j, k0.links, k1.links);
    }
    forall n | n in names[..j + 1] ensures SlotRealises(n, Lookup(w, n), BridgeOf(w, n), At(k1, n)) {
      if n != names[j] { assert n in names[..j]; }
    }
  }

  /** The command is called for by a difference between the two configurations. */
  ghost predicate Justified(o: Config, w: Config, boot: bool, c: Cmd) {
    match c
    case OnIf(n, _) => Changed(o, w, n)
    case BrAdd(b, _) => Changed(o, w, b)
    case BrDel(b, _) => Changed(o, w, b)
    case SetHostname(h) => o.hostname != w.hostname
    case WriteResolv(_, _) => o.domain != w.domain || o.nameServers != w.nameServers
    case SetForward4(_) => boot || o.ipRouting != w.ipRouting
    case SetForward6(_) => boot || o.ipv6Routing != w.ipv6Routing
    case RouteAdd(r) => r in RoutesOf(w) && r !in RoutesOf(o)
    case RouteDel(p) => exists r :: r in RoutesOf(o) && r !in RoutesOf(w) && r.prefix == p
    case WriteNpf(_) => boot || Npf.ConfOf(o) != Npf.ConfOf(w)
    case NpfValidate => boot || Npf.ConfOf(o) != Npf.ConfOf(w)
    case NpfReload => boot || Npf.ConfOf(o) != Npf.ConfOf(w)
    case NpfStart => boot || Npf.ConfOf(o) != Npf.ConfOf(w)
    case _ => boot || !SameDhcpd(o, w)
  }

  /** Applying a configuration to itself calls for no command at all. */
  lemma NothingToDo(c: Config, cmd: Cmd)
    ensures !Justified(c, c, false, cmd)
  {
  }

  /** An interface whose entry differs only in its description and access lists, and whose bridge
      stays the same, is not touched. */
  lemma DescriptionsAreFree(o: Config, w: Config, n: Name, cmd: Cmd)
    requires n in o.interfaces && n in w.interfaces && Target(cmd) == Some(n)
    requires w.interfaces[n] == o.interfaces[n].(description := w.interfaces[n].description,
      groupIn := w.interfaces[n].groupIn, groupOut := w.interfaces[n].groupOut)
    requires forall b :: (b, n) in LinksOf(o) <==> (b, n) in LinksOf(w)
    requires OneBridgeEach(o) && OneBridgeEach(w)
    ensures !Justified(o, w, false, cmd)
  {
    hide LinksOf;
    SameBridge(o, w, n);
  }

  lemma SameBridge(o: Config, w: Config, n: Name)
    requires OneBridgeEach(o) && OneBridgeEach(w) && forall b :: (b, n) in LinksOf(o) <==> (b, n) in LinksOf(w)
    ensures BridgeOf(o, n) == BridgeOf(w, n)
  {
    hide LinksOf;
    if b :| (b, n) in LinksOf(o) {
      assert (BridgeOf(o, n), n) in LinksOf(o) && (BridgeOf(w, n), n) in LinksOf(w);
    }
  }

  predicate IsNpf(c: Cmd) { c.WriteNpf? || c.NpfValidate? || c.NpfReload? || c.NpfStart? }

  predicate IsDhcpd(c: Cmd) { c.StopDhcpd? || c.WriteDhcpd? || c.WriteLeases? || c.StartDhcpd? }

  lemma ServingNeedsPools(c: Config)
    ensures c.pools == map[] ==> ServingInterfaces(c) == {}
  {
  }

  /** A step of the interface phase. */
  datatype Visit = Removed(name: Name) | Configured(name: Name)

  /** Everything is removed before anything is configured, bridges before what they hold, and
      configured the other way round. */
  predicate MayPrecede(a: Visit, b: Visit) {
    match (a, b)
    case (Removed(m), Removed(n)) => !Before(m, n)
    case (Configured(m), Configured(n)) => !Before(n, m)
    case (x, _) => x.Removed?
  }

  predicate InDependencyOrder(visits: seq<Visit>) {
    forall i, j :: 0 <= i < j < |visits| ==> MayPrecede(visits[i], visits[j])
  }

  /** Each removed interface is removed, each configured one is configured, in dependency order. */
  ghost predicate VisitsAll(o: Config, w: Config, visits: seq<Visit>) {
    && InDependencyOrder(visits)
    && forall v :: v in visits <==>
         if v.Removed? then v.name in o.interfaces && v.name !in w.interfaces else v.name in w.interfaces
  }

  lemma VisitNext(visits: seq<Visit>, v: Visit)
    requires InDependencyOrder(visits) && forall x :: x in visits ==> MayPrecede(x, v)
    ensures InDependencyOrder(visits + [v])
    ensures forall x :: x in visits + [v] <==> x in visits || x == v
  {
  }

  ghost function ConfiguredAll(names: seq<Name>): seq<Visit> {
    seq(|names|, i requires 0 <= i < |names| => Configured(names[i]))
  }

  lemma NoneConfigured(names: seq<Name>)
    requires names == []
    ensures ConfiguredAll(names) == []
  {
  }

  lemma ConfiguredNext(names: seq<Name>, j: nat)
    requires j < |names|
    ensures ConfiguredAll(names[..j + 1]) == ConfiguredAll(names[..j]) + [Configured(names[j])]
  {
  }

  lemma ThenConfigured(visits: seq<Visit>, names: seq<Name>)
    requires InDependencyOrder(visits) && (forall v :: v in visits ==> v.Removed?) && SortedNames(names)
    ensures InDependencyOrder(visits + ConfiguredAll(names))
    ensures forall v :: v in visits + ConfiguredAll(names) <==> if v.Removed? then v in visits else v.name in names
  {
    hide Before;
    var more := ConfiguredAll(names);
    forall v ensures v in more <==> !v.Removed? && v.name in names {
      if !v.Removed? && v.name in names {
        var i :| 0 <= i < |names| && names[i] == v.name;
        assert more[i] == v;
      }
    }
  }

  lemma NoVisits()
    ensures InDependencyOrder([])
  {
  }

  ghost predicate VapsDefined(e: Config) {
    forall n :: n in e.interfaces ==> VapDefined(n, e.interfaces[n])
  }

  /** Effective never keeps a virtual access point without a radio and a mode, valid or not. */
  lemma EffectiveVaps(c: Config)
    ensures VapsDefined(Effective(c))
  {
    var kept := KeptInterfaces(c);
    forall n | n in kept ensures VapDefined(n, PruneBridge(kept[n], kept.Keys)) {
    }
  }

  /** The configuration Apply starts from. */
  /** The phases in which something went wrong. */
  function Unfinished(t: nat, t0: nat, t1: nat, t2: nat, t3: nat, t4: nat): (left: set<Phase>)
    requires t <= t0 <= t1 <= t2 <= t3 <= t4
    ensures |left| <= t4 - t
  {
    (if t < t0 then {Hosting} else {}) + (if t0 < t1 then {Linking} else {}) + (if t1 < t2 then {Routing} else {})
    + (if t2 < t3 then {Filtering} else {}) + (if t3 < t4 then {Leasing} else {})
  }

  lemma OthersFinished(w: Config, t: nat, t0: nat, t1: nat, t2: nat, t3: nat, t4: nat, k: Kernel)
    requires t <= t0 <= t1 <= t2 <= t3 <= t4
    requires (t == t0 ==> HostRealises(w, k.sys.host)) && (t0 == t1 ==> InterfacesRealise(w, k))
    requires (t1 == t2 ==> k.sys.routes == RoutesOf(w)) && (t2 == t3 ==> NpfRealises(w, k.sys.npf))
    requires t3 == t4 ==> DhcpdRealises(w, k.sys.dhcpd)
    ensures AllBut(w, Unfinished(t, t0, t1, t2, t3, t4), k)
  {
    hide HostRealises, InterfacesRealise, RoutesOf, NpfRealises, DhcpdRealises;
  }

  function StartOf(before: Option<Config>, booting: bool): Config {
    if before.None? || booting then NEW.(hostname := "") else before.value
  }

  lemma BetweenInterfaces(o: Config, w: Config, k0: Kernel, k1: Kernel)
    requires k1 == k0.(sys := k1.sys)
    ensures InterfacesBetween(o, w, k0) ==> InterfacesBetween(o, w, k1)
    ensures InterfacesRealise(w, k0) ==> InterfacesRealise(w, k1)
  {
    assert forall n :: At(k1, n) == At(k0, n);
    assert InterfacesRealise(w, k0) ==> forall n :: SlotRealises(n, Lookup(w, n), BridgeOf(w, n), At(k0, n));
    assert SlotsBetween(o, w, k0) ==> SlotsBetween(o, w, k1) by {
      if SlotsBetween(o, w, k0) {
        forall n ensures SlotBetween(n, Lookup(o, n), Lookup(w, n), BridgeOf(o, n), BridgeOf(w, n), At(k1, n)) {
          assert SlotBetween(n, Lookup(o, n), Lookup(w, n), BridgeOf(o, n), BridgeOf(w, n), At(k0, n));
        }
      }
    }
  }

  lemma ResiduesStay(o: Config, w: Config, more: bool, less: bool, k0: Kernel, k1: Kernel, k2: Kernel, k3: Kernel)
    requires k1 == k0.(sys := k1.sys) && k3 == k2.(sys := k3.sys) && (less ==> more)
    ensures Residues(o, w, more, k1, k2) ==> Residues(o, w, less, k0, k3)
  {
    hide Must, Adds;
    forall n ensures Unlinked(o, w, n, k1, k2) ==> Unlinked(o, w, n, k0, k3) {}
    forall n | n in w.interfaces ensures Keeps(o, w, n, k1, k2) ==> Keeps(o, w, n, k0, k3) {}
  }

  /** The new configuration is realised, and nothing is refused, exactly when the side conditions hold
      and no bridge is to get a member that another one still holds. */
  ghost predicate Exactly(o: Config, w: Config, failed: bool, k: Kernel) {
    var (may, must) := (MayClash(o, w, LinksOf(o)), MustClash(o, w, LinksOf(o)));
    && (must ==> failed) && (failed ==> may) && (Realises(w, k) ==> Gentle(o, w) && !must) && (Gentle(o, w) && !may ==> Realises(w, k))
    && (Told(w) ==> (failed <==> may) && (Realises(w, k) <==> Gentle(o, w) && !may))
  }

  /** So the applier does on a kernel that fits and obeys. */
  lemma FittingOutcome(o: Config, w: Config, k0: Kernel, k1: Kernel, quiet: bool)
    requires Fits(o, w, k0) && Residues(o, w, true, k0, k1)
    requires (!MayClash(o, w, k0.links) ==> quiet) && (quiet ==> !MustClash(o, w, k0.links))
    requires Appliable(o, w) && quiet ==> Realises(w, k1)
    ensures Exactly(o, w, !quiet, k1)
  {
    hide Shaped, InterfacesRealise, Gentle, MayClash, MustClash, Residues, LinksOf, Told;
    assert k0.links == LinksOf(o) by { LinksRealised(o, k0); }
    if Told(w) { ToldExact(o, w, LinksOf(o)); }
    if Realises(w, k1) { RealisedIsGentle(o, w, k0, k1); }
  }

  lemma LinksRealised(o: Config, k: Kernel)
    requires Realises(o, k)
    ensures k.links == LinksOf(o)
  {
  }

  /** Booting starts from an empty configuration. */
  lemma EmptyStart(before: Option<Config>)
    ensures var o := Effective(StartOf(before, true));
      o.interfaces == map[] && o.routes == [] && o.hostname == "" && o.nameServers == [] && Shaped(o)
  {
  }

  /** An interface that does not exist carries nothing, and bridges with members exist. */
  ghost predicate Sound(k: Kernel) {
    LinksSound(k) && forall n :: At(k, n).foreign || SlotWf(At(k, n))
  }

  /** A boot takes nothing away, so that what it ends in was not in the way before. */
  lemma RealisedAfterBoot(o: Config, w: Config, obeys: bool, k0: Kernel, k1: Kernel)
    requires o.interfaces == map[] && o.routes == [] && o.hostname == "" && o.nameServers == [] && Shaped(w) && Sound(k0)
    requires Residues(o, w, obeys, k0, k1)
    requires (forall m :: m !in w.interfaces ==> At(k1, m) == At(k0, m)) && k0.sys.routes <= k1.sys.routes && Realises(w, k1)
    ensures Between(o, w, true, k0)
  {
    hide Must, Residue, Gentle, SlotRealises, SlotBetween, LinksOf, RoutesOf, NpfRealises, DhcpdRealises, Adds, Unlinked;
    forall n ensures SlotBetween(n, Lookup(o, n), Lookup(w, n), BridgeOf(o, n), BridgeOf(w, n), At(k0, n)) {
      assert SlotRealises(n, Lookup(w, n), BridgeOf(w, n), At(k1, n));
      if n in w.interfaces {
        assert WellShaped(n, w.interfaces[n], w.interfaces.Keys) && Keeps(o, w, n, k0, k1);
        SlotWasBetween(n, w.interfaces[n], BridgeOf(o, n), BridgeOf(w, n), At(k0, n), At(k1, n));
      } else {
        BareIsBetween(n, BridgeOf(o, n), BridgeOf(w, n), At(k0, n));
      }
    }
    EmptySets(o);
  }

  lemma EmptySets(o: Config)
    requires o.interfaces == map[] && o.routes == []
    ensures LinksOf(o) == {} && RoutesOf(o) == {}
  {
  }

  lemma SlotWasBetween(n: Name, ni: Interface, ob: Name, nb: Name, s: Slot, t: Slot)
    requires (s.foreign || SlotWf(s)) && Adds(n, ni, s, t) && SlotRealises(n, Some(ni), nb, t)
    requires (InterfaceKind(n) == Wlan ==> ni.wireless.Some?) && (InterfaceKind(n) == VlanKind <==> ni.vlan.Some?)
    ensures SlotBetween(n, None, Some(ni), ob, nb, s)
  {
  }

  lemma BareIsBetween(n: Name, ob: Name, nb: Name, s: Slot)
    requires SlotRealises(n, None, nb, s)
    ensures SlotBetween(n, None, None, ob, nb, s)
  {
  }

  /** Whatever fails, hardware does not come and go, and bridges hold interfaces that exist. */
  ghost predicate SoundStays(k0: Kernel, k1: Kernel) {
    (forall n :: !IsCloned(n) ==> At(k1, n).present == At(k0, n).present) && (LinksSound(k0) ==> LinksSound(k1))
  }

  lemma SoundThroughout(k0: Kernel, k1: Kernel, k2: Kernel, k3: Kernel)
    requires k1 == k0.(sys := k1.sys) && k3 == k2.(sys := k3.sys)
    requires (forall n :: !IsCloned(n) ==> At(k2, n).present == At(k1, n).present) && (LinksSound(k1) ==> LinksSound(k2))
    ensures SoundStays(k0, k3)
  {
    hide IsCloned, InterfaceKind;
    assert forall n :: At(k1, n) == At(k0, n) && At(k3, n) == At(k2, n);
  }

  lemma PreparedStays(o: Config, w: Config, k0: Kernel, k1: Kernel)
    requires k1 == k0.(sys := k1.sys)
    ensures Prepared(o, w, k0) ==> Prepared(o, w, k1)
  {
    hide Shaped, Layered, OneBridgeEach;
    assert forall n :: At(k1, n) == At(k0, n);
  }

  /** An executor with the applier's step on top of it: the kernel, how many
      commands were issued, and the errors collected. */
  class Step {
    var k: Kernel
    var clock: nat
    var errs: seq<Msg>
    var boot: bool
    const replies: nat -> Reply
    /** Failures with a tolerated message although the object was not in the
        state the message claims, so that nothing was reported. */
    ghost var lies: nat
    /** The commands issued since the step began. */
    ghost var issued: set<Cmd>
    /** The interfaces that it has taken away and set up, in order. */
    ghost var visits: seq<Visit>
    /** The pair of configurations meets the side conditions and the kernel lay
        between them when the step began. Nothing is claimed about the kernel otherwise. */
    ghost var tracked: bool

    constructor (k: Kernel, replies: nat -> Reply)
      ensures this.k == k && this.replies == replies && errs == [] && lies == 0
    {
      this.k, this.replies, clock, errs, boot := k, replies, 0, [], false;
      lies, issued, visits, tracked := 0, {}, [], false;
    }

    /** Grows whenever a command neither had its effect nor could do without it. */
    ghost function Trouble(): nat
      reads this
    {
      |errs| + lies
    }

    /** From here on the kernel decides every command. */
    ghost predicate Obeying()
      reads this
    {
      forall i :: i >= clock ==> replies(i) == Obey
    }

    ghost predicate ObeyingFrom(t: nat)
      reads this
    {
      forall i :: i >= t ==> replies(i) == Obey
    }

    /** What every part of the applier does to the record of commands and errors. */
    twostate predicate Progress()
      reads this
    {
      && old(clock) <= clock && |old(errs)| <= |errs| && old(lies) <= lies && old(issued) <= issued
      && (old(Obeying()) ==> lies == old(lies))
      && (clock == old(clock) ==> k == old(k) && issued == old(issued) && Quiet())
    }

    /** Every command so far had its effect or could do without it. */
    twostate predicate Quiet()
      reads this
    {
      Trouble() == old(Trouble())
    }

    /** Like `Progress`, for commands on one interface that change only its slot. */
    twostate predicate Locally(n: Name)
      reads this
    {
      Progress() && OnlySlot(old(k), k, n) && AddedOn(old(issued), issued, n)
    }

    /** step.run: errors whose message is tolerated are ignored. */
    method Run(tolerate: set<Msg>, c: Cmd) returns (ok: bool)
      modifies this`k, this`clock, this`errs, this`lies, this`issued
      ensures Progress() && clock == old(clock) + 1 && issued == old(issued) + {c}
      ensures var (t, msg) := Outcome(old(k), replies(old(clock)), c);
        && k == t && (ok <==> msg.None? || msg.value in tolerate)
        && errs == old(errs) + if ok then [] else [msg.value]
      ensures k == old(k) || (VerdictOf(old(k), c).Fine? && k == EffectOf(old(k), c))
      ensures Quiet() ==> ok && k == Settle(old(k), c) && Harmless(old(k), c, tolerate)
      ensures !ok ==> |errs| > |old(errs)|
      ensures ok && tolerate == {} ==> Quiet()
      ensures old(Obeying()) && Harmless(old(k), c, tolerate) ==> Quiet()
    {
      var reply := replies(clock);
      clock, issued := clock + 1, issued + {c};
      var verdict := VerdictOf(k, c);
      if reply == Obey && verdict == Fine {
        k := EffectOf(k, c);
        return true;
      }
      var msg := if reply.Refuse? then reply.msg else verdict.msg;
      if msg in tolerate {
        if verdict != Fails(msg) { lies := lies + 1; }
        return true;
      }
      errs := errs + [msg];
      return false;
    }

    /** A command on one interface, other than its destruction. */
    method RunOn(tolerate: set<Msg>, n: Name, op: IfOp) returns (ok: bool)
      requires !op.Destroy?
      modifies this`k, this`clock, this`errs, this`lies, this`issued
      ensures Locally(n) && clock == old(clock) + 1
      ensures var s, v := At(old(k), n), VerdictOf(old(k), OnIf(n, op));
        && (At(k, n) == s || (v.Fine? && At(k, n) == OpEffect(s, op)))
        && (Quiet() ==> ok && At(k, n) == (if v.Fine? then OpEffect(s, op) else s) && (v.Fine? || v.msg in tolerate))
        && (old(Obeying()) && (v.Fine? || v.msg in tolerate) ==> Quiet())
      ensures !ok ==> |errs| > |old(errs)|
      ensures ok && tolerate == {} ==> Quiet()
    {
      ok := Run(tolerate, OnIf(n, op));
    }

    // ----- addresses

    /** delAddr: removal is by host alone. */
    method DeleteAddress(n: Name, a: Addr)
      modifies this`k, this`clock, this`errs, this`lies, this`issued
      ensures Locally(n) && (old(Obeying()) ==> Quiet())
      ensures var s, t := At(old(k), n), At(k, n);
        t == s || t == s.(addrs := Exclude(s.addrs, {a}))
      ensures Quiet() && SlotWf(At(old(k), n)) ==> At(k, n).addrs == Exclude(At(old(k), n).addrs, {a})
    {
      var _ := RunOn(TOL_MISSING, n, DelAddr(a));
      assert Exclude(At(old(k), n).addrs, {a}) == set p | p in At(old(k), n).addrs && p.addr != a;
    }

    method DeleteAddresses(n: Name, list: seq<Prefix>)
      modifies this`k, this`clock, this`errs, this`lies, this`issued
      ensures Locally(n) && (old(Obeying()) ==> Quiet())
      ensures At(k, n) == At(old(k), n).(addrs := At(k, n).addrs)
      ensures Exclude(At(old(k), n).addrs, HostsOf(ToSet(list))) <= At(k, n).addrs <= At(old(k), n).addrs
      ensures Quiet() && SlotWf(At(old(k), n)) ==>
        At(k, n).addrs == Exclude(At(old(k), n).addrs, HostsOf(ToSet(list)))
      ensures list == [] ==> clock == old(clock)
    {
      for j := 0 to |list|
        invariant Locally(n) && (old(Obeying()) ==> Quiet())
        invariant At(k, n) == At(old(k), n).(addrs := At(k, n).addrs)
        invariant Exclude(At(old(k), n).addrs, HostsOf(ToSet(list[..j]))) <= At(k, n).addrs <= At(old(k), n).addrs
        invariant Quiet() && SlotWf(At(old(k), n)) ==>
          At(k, n).addrs == Exclude(At(old(k), n).addrs, HostsOf(ToSet(list[..j])))
        invariant list == [] ==> clock == old(clock)
      {
        ExcludeMore(At(old(k), n).addrs, At(k, n).addrs, list, j);
        DeleteAddress(n, list[j].addr);
      }
      assert list[..|list|] == list;
    }

    /** addAddr: an address whose host is there already is left as it is. */
    method AddAddress(n: Name, p: Prefix)
      modifies this`k, this`clock, this`errs, this`lies, this`issued
      ensures Locally(n) && (old(Obeying()) && At(old(k), n).present ==> Quiet())
      ensures At(k, n) == At(old(k), n) ||
        (At(old(k), n).present && At(k, n) == At(old(k), n).(addrs := At(old(k), n).addrs + {p}))
      ensures Quiet() ==> p.addr in HostsOf(At(k, n).addrs)
    {
      var _ := RunOn(TOL_EXISTS, n, AddAddr(p));
    }

    method AddAddresses(n: Name, list: seq<Prefix>)
      modifies this`k, this`clock, this`errs, this`lies, this`issued
      ensures Locally(n) && (old(Obeying()) && At(old(k), n).present ==> Quiet())
      ensures At(k, n) == At(old(k), n).(addrs := At(k, n).addrs)
      ensures At(old(k), n).addrs <= At(k, n).addrs <= At(old(k), n).addrs + ToSet(list)
      ensures Quiet() ==> HostsOf(ToSet(list)) <= HostsOf(At(k, n).addrs)
      ensures !At(old(k), n).present ==> At(k, n) == At(old(k), n)
      ensures list == [] ==> clock == old(clock)
    {
      for j := 0 to |list|
        invariant Locally(n) && (old(Obeying()) && At(old(k), n).present ==> Quiet())
        invariant At(k, n) == At(old(k), n).(addrs := At(k, n).addrs)
        invariant At(old(k), n).addrs <= At(k, n).addrs <= At(old(k), n).addrs + ToSet(list[..j])
        invariant Quiet() ==> HostsOf(ToSet(list[..j])) <= HostsOf(At(k, n).addrs)
        invariant !At(old(k), n).present ==> At(k, n) == At(old(k), n)
        invariant list == [] ==> clock == old(clock)
      {
        ExcludeMore({}, {}, list, j);
        AddAddress(n, list[j]);
      }
      assert list[..|list|] == list;
    }

    /** The first half of an address change: what disappeared is deleted. */
    method DropOldAddresses(n: Name, oi: Interface, ni: Interface)
      requires tracked ==> SlotWf(At(k, n)) && Families(oi) && Families(ni) && UniqueHosts(AddrsOf(Some(oi)))
      modifies this`k, this`clock, this`errs, this`lies, this`issued
      ensures Locally(n) && (old(Obeying()) ==> Quiet())
      ensures At(k, n) == At(old(k), n).(addrs := At(k, n).addrs) && At(k, n).addrs <= At(old(k), n).addrs
      ensures tracked ==> At(old(k), n).addrs * AddrsOf(Some(oi)) * AddrsOf(Some(ni)) <= At(k, n).addrs
      ensures tracked && Quiet() && At(old(k), n).addrs <= AddrsOf(Some(oi)) + AddrsOf(Some(ni)) ==>
        At(k, n).addrs <= AddrsOf(Some(ni))
      ensures oi.ipv4 == ni.ipv4 && oi.ipv6 == ni.ipv6 ==> clock == old(clock)
      ensures oi.ipv4 == [] && oi.ipv6 == [] ==> clock == old(clock)
    {
      ghost var a0 := At(k, n).addrs;
      DeleteAddresses(n, Minus(oi.ipv4, ni.ipv4));
      ghost var a1 := At(k, n).addrs;
      DeleteAddresses(n, Minus(oi.ipv6, ni.ipv6));
      if tracked { SyncKeeps(oi, ni, a0, a1, At(k, n).addrs); }
      if tracked && Quiet() { OldAreDeleted(oi, ni, a0, a1, At(k, n).addrs); }
      if oi.ipv4 == ni.ipv4 { MinusSelf(oi.ipv4); }
      if oi.ipv6 == ni.ipv6 { MinusSelf(oi.ipv6); }
    }

    /** The second half: what is new is added. */
    method AddNewAddresses(n: Name, oi: Interface, ni: Interface)
      requires tracked ==> UniqueHosts(AddrsOf(Some(ni)))
      modifies this`k, this`clock, this`errs, this`lies, this`issued
      ensures Locally(n) && (old(Obeying()) && At(old(k), n).present ==> Quiet())
      ensures At(k, n) == At(old(k), n).(addrs := At(k, n).addrs)
      ensures At(old(k), n).addrs <= At(k, n).addrs <= At(old(k), n).addrs + AddrsOf(Some(ni))
      ensures !At(old(k), n).present ==> At(k, n) == At(old(k), n)
      ensures tracked && Quiet() && AddrsOf(Some(oi)) * AddrsOf(Some(ni)) <= At(old(k), n).addrs <= AddrsOf(Some(ni)) ==>
        At(k, n).addrs == AddrsOf(Some(ni))
      ensures oi.ipv4 == ni.ipv4 && oi.ipv6 == ni.ipv6 ==> clock == old(clock)
    {
      ghost var a2 := At(k, n).addrs;
      AddAddresses(n, Minus(ni.ipv4, oi.ipv4));
      ghost var a3 := At(k, n).addrs;
      AddAddresses(n, Minus(ni.ipv6, oi.ipv6));
      if tracked && Quiet() { NewAreAdded(oi, ni, a2, a3, At(k, n).addrs); }
      if oi.ipv4 == ni.ipv4 { MinusSelf(oi.ipv4); }
      if oi.ipv6 == ni.ipv6 { MinusSelf(oi.ipv6); }
    }

    // ----- wireless daemons

    method StopWireless(n: Name)
      modifies this`k, this`clock, this`errs, this`lies, this`issued
      ensures Locally(n) && (old(Obeying()) ==> Quiet())
      ensures At(k, n) == At(old(k), n).(wifi := At(k, n).wifi) && Stopping(At(old(k), n).wifi, At(k, n).wifi)
      ensures Quiet() ==> At(k, n).wifi.hostapd.None? && At(k, n).wifi.wpa.None?
    {
      var _ := RunOn(TOL_NONE, n, StopHostapd);
      var _ := RunOn(TOL_NONE, n, StopWpa);
    }

    /** The access-point branch of startWireless: the configuration is written, then the daemon started. */
    method LaunchHostapd(n: Name, conf: WifiConf)
      modifies this`k, this`clock, this`errs, this`lies, this`issued
      ensures Locally(n) && At(k, n) == At(old(k), n).(wifi := At(k, n).wifi)
      ensures At(k, n).wifi.wpa == At(old(k), n).wifi.wpa
      ensures At(k, n).wifi.hostapd in {At(old(k), n).wifi.hostapd, Some(conf)}
      ensures Quiet() ==> At(k, n).wifi.hostapd == Some(conf)
      ensures old(Obeying()) && At(old(k), n).present && At(old(k), n).wifi.hostapd.None? ==> Quiet()
    {
      var ok := RunOn(TOL_NONE, n, WriteHostapd(conf));
      if !ok { return; }
      var _ := RunOn(TOL_NONE, n, StartHostapd);
    }

    method LaunchWpa(n: Name, conf: WifiConf)
      modifies this`k, this`clock, this`errs, this`lies, this`issued
      ensures Locally(n) && At(k, n) == At(old(k), n).(wifi := At(k, n).wifi)
      ensures At(k, n).wifi.hostapd == At(old(k), n).wifi.hostapd
      ensures At(k, n).wifi.wpa in {At(old(k), n).wifi.wpa, Some(conf)}
      ensures Quiet() ==> At(k, n).wifi.wpa == Some(conf)
      ensures old(Obeying()) && At(old(k), n).present && At(old(k), n).wifi.wpa.None? ==> Quiet()
    {
      var ok := RunOn(TOL_NONE, n, WriteWpa(conf));
      if !ok { return; }
      var _ := RunOn(TOL_NONE, n, StartWpa);
    }

    /** startWireless. */
    method StartWireless(n: Name, w: Wireless, bridge: Name)
      modifies this`k, this`clock, this`errs, this`lies, this`issued
      ensures Locally(n) && At(k, n) == At(old(k), n).(wifi := At(k, n).wifi)
      ensures var a, b := At(old(k), n).wifi, At(k, n).wifi; var job := Some((w, bridge));
        Quiet() && a.hostapd.None? && a.wpa.None? ==> b.hostapd == HostapdFor(n, job) && b.wpa == WpaFor(job)
      ensures old(Obeying()) && At(old(k), n).present && At(old(k), n).wifi.hostapd.None? && At(old(k), n).wifi.wpa.None?
        ==> Quiet()
    {
      if w.mode == HostAP {
        LaunchHostapd(n, HostapdConf(n, w, bridge));
      } else {
        LaunchWpa(n, WpaConf(w));
      }
    }

    // ----- removing an interface

    /** The daemons of an interface that goes away. */
    method QuitServices(n: Name, oi: Interface)
      modifies this`k, this`clock, this`errs, this`lies, this`issued
      ensures Locally(n) && (old(Obeying()) ==> Quiet())
      ensures var s, t := At(old(k), n), At(k, n);
        && t == s.(dhcpcd := t.dhcpcd, wifi := t.wifi) && Stopping(s.wifi, t.wifi) && (t.dhcpcd ==> s.dhcpcd)
        && (Quiet() && oi.wireless.Some? ==> t.wifi.hostapd.None? && t.wifi.wpa.None?)
        && (Quiet() && oi.dhcp ==> !t.dhcpcd)
    {
      if oi.wireless.Some? { StopWireless(n); }
      if oi.dhcp { var _ := RunOn(TOL_MISSING, n, DhcpcdStop); }
    }

    /** What is undone on an interface that cannot be destroyed. */
    method ClearPhysical(n: Name, oi: Interface)
      requires tracked ==> SlotWf(At(k, n))
      modifies this`k, this`clock, this`errs, this`lies, this`issued
      ensures Locally(n) && (old(Obeying()) ==> Quiet())
      ensures var s, t := At(old(k), n), At(k, n);
        && t == s.(port := t.port, addrs := t.addrs) && t.addrs <= s.addrs
        && t.port == s.port.(up := t.port.up, ap := t.port.ap)
        && (t.port.up ==> s.port.up) && (t.port.ap ==> s.port.ap)
        && (tracked && Quiet() && s.addrs <= AddrsOf(Some(oi)) ==> t.addrs == {})
        && (tracked && Quiet() ==> !t.port.up)
        && (tracked && Quiet() && ApIn(Some(oi)) && oi.wireless.value.device == "" ==> !t.port.ap)
    {
      ghost var a0 := At(k, n).addrs;
      DeleteAddresses(n, oi.ipv4);
      ghost var a1 := At(k, n).addrs;
      DeleteAddresses(n, oi.ipv6);
      if tracked && Quiet() && a0 <= AddrsOf(Some(oi)) { NothingLeft(oi, a0, a1, At(k, n).addrs); }
      TakeDown(n, oi.wireless.Some? && oi.wireless.value.mode == HostAP && oi.wireless.value.device == "");
    }

    method TakeDown(n: Name, leaveAp: bool)
      modifies this`k, this`clock, this`errs, this`lies, this`issued
      ensures Locally(n) && (old(Obeying()) ==> Quiet())
      ensures var s, t := At(old(k), n), At(k, n);
        && t == s.(port := s.port.(up := t.port.up, ap := t.port.ap))
        && (t.port.up ==> s.port.up) && (t.port.ap ==> s.port.ap)
      ensures Quiet() && SlotWf(At(old(k), n)) ==> !At(k, n).port.up && (leaveAp ==> !At(k, n).port.ap)
    {
      if leaveAp { var _ := RunOn(TOL_MISSING, n, MediaOpt(false)); }
      var _ := RunOn(TOL_MISSING, n, Down);
    }

    method RemoveInterface(n: Name, oi: Interface)
      requires tracked ==> SlotWf(At(k, n))
      modifies this`k, this`clock, this`errs, this`lies, this`issued
      ensures Progress() && AddedOn(old(issued), issued, n) && (old(Obeying()) ==> Quiet())
      ensures k.sys == old(k).sys && forall m :: m != n ==> At(k, m) == At(old(k), m)
      ensures tracked ==> Shrunk(At(old(k), n), At(k, n))
      ensures Quiet() && oi.wireless.Some? ==> At(k, n).wifi.hostapd.None? && At(k, n).wifi.wpa.None?
      ensures Quiet() && oi.dhcp ==> !At(k, n).dhcpcd
      ensures IsCloned(n) && Quiet() ==> !At(k, n).present
      ensures k.links == if At(k, n).present == At(old(k), n).present then old(k).links else Without(old(k).links, n)
      ensures At(k, n).present ==> At(old(k), n).present
      ensures !IsCloned(n) ==> At(k, n).present == At(old(k), n).present
      ensures tracked && !IsCloned(n) && Quiet() ==> !At(k, n).port.up
      ensures tracked && !IsCloned(n) && Quiet() && At(old(k), n).addrs <= AddrsOf(Some(oi)) ==> At(k, n).addrs == {}
      ensures tracked && !IsCloned(n) && Quiet() && ApIn(Some(oi)) && oi.wireless.value.device == "" ==> !At(k, n).port.ap
    {
      QuitServices(n, oi);
      if IsCloned(n) {
        var _ := Run(TOL_MISSING, OnIf(n, Destroy));
        return;
      }
      ClearPhysical(n, oi);
    }

    // ----- configuring an interface

    /** "ifconfig create", for a cloned interface; a virtual access point gets its radio and mode. */
    method CreateInterface(n: Name, ni: Interface)
      requires IsCloned(n) && VapDefined(n, ni)
      modifies this`k, this`clock, this`errs, this`lies, this`issued
      ensures Locally(n) && (old(Obeying()) ==> Quiet())
      ensures At(k, n) == At(old(k), n) ||
        (!At(old(k), n).present && At(k, n) == At(old(k), n).(present := true, vap := CreatedVap(n, ni)))
      ensures Quiet() ==> At(k, n).present
    {
      if InterfaceKind(n) == Wlan {
        var mode := if ni.wireless.value.mode == HostAP then HostAP else Station;
        var _ := RunOn(TOL_EXISTS, n, Create(Some(VapId(ni.wireless.value.device, mode))));
      } else {
        var _ := RunOn(TOL_EXISTS, n, Create(None));
      }
    }

    /** Creation, judged against both sides of the change. */
    method CreateNew(n: Name, ghost o: Option<Interface>, ni: Interface, ghost ob: Name, ghost nb: Name)
      requires tracked ==> SlotBetween(n, o, Some(ni), ob, nb, At(k, n)) && !Stays(n, o, Some(ni))
      requires IsCloned(n) && VapDefined(n, ni)
      modifies this`k, this`clock, this`errs, this`lies, this`issued
      ensures Locally(n) && (old(Obeying()) ==> Quiet())
      ensures tracked ==> SlotBetween(n, o, Some(ni), ob, nb, At(k, n))
      ensures At(old(k), n).present || Quiet() ==> At(k, n).present
      ensures Adds(n, ni, At(old(k), n), At(k, n))
      ensures tracked && Quiet() && SlotBetween(n, None, Some(ni), ob, nb, At(old(k), n)) ==>
        SlotBetween(n, None, Some(ni), ob, nb, At(k, n))
    {
      ghost var s := At(k, n);
      CreateInterface(n, ni);
      if tracked && !s.present {
        CreatedBetween(n, o, Some(ni), ob, nb, s);
        if SlotBetween(n, None, Some(ni), ob, nb, s) { CreatedBetween(n, None, Some(ni), ob, nb, s); }
      }
    }

    /** A virtual access point whose radio or mode changed is removed first. */
    method Discard(n: Name, oi: Interface, ni: Interface, ghost ob: Name, ghost nb: Name)
      requires tracked ==> SlotBetween(n, Some(oi), Some(ni), ob, nb, At(k, n))
      requires Recreated(n, Some(oi), Some(ni)) && VapDefined(n, oi)
      modifies this`k, this`clock, this`errs, this`lies, this`issued
      ensures Progress() && AddedOn(old(issued), issued, n) && (old(Obeying()) ==> Quiet())
      ensures k.sys == old(k).sys && forall m :: m != n ==> At(k, m) == At(old(k), m)
      ensures Without(old(k).links, n) <= k.links <= old(k).links
      ensures old(Obeying()) && At(old(k), n).present ==> k.links == Without(old(k).links, n)
      ensures old(LinksSound(k)) ==> LinksSound(k)
      ensures tracked ==> SlotBetween(n, Some(oi), Some(ni), ob, nb, At(k, n))
      ensures tracked && Quiet() ==> SlotBetween(n, None, Some(ni), ob, nb, At(k, n))
    {
      RemoveInterface(n, oi);
      if tracked { ShrunkBetween(n, Some(oi), Some(ni), ob, nb, At(old(k), n), At(k, n)); }
      if tracked && Quiet() { GoneIsFresh(n, oi, ni, ob, nb, At(old(k), n), At(k, n)); }
    }

    /** The first part of configureInterface: makes sure a cloned interface exists, with
        the right radio and mode. Returns the state the rest starts from. */
    method Materialise(n: Name, o: Option<Interface>, ni: Interface, ghost ob: Name, ghost nb: Name)
        returns (oi: Interface, isNew: bool)
      requires tracked ==> SlotBetween(n, o, Some(ni), ob, nb, At(k, n))
      requires VapDefined(n, ni) && (o.Some? ==> VapDefined(n, o.value))
      modifies this`k, this`clock, this`errs, this`lies, this`issued
      ensures Progress() && AddedOn(old(issued), issued, n) && (old(Obeying()) ==> Quiet())
      ensures k.sys == old(k).sys && forall m :: m != n ==> At(k, m) == At(old(k), m)
      ensures Without(old(k).links, n) <= k.links <= old(k).links
      ensures old(Obeying()) && Recreated(n, o, Some(ni)) && At(old(k), n).present ==> k.links == Without(old(k).links, n)
      ensures StartsFrom(n, o, ni, oi, isNew)
      ensures !Recreated(n, o, Some(ni)) ==> k.links == old(k).links && (At(old(k), n).present ==> At(k, n).present)
      ensures !isNew || !IsCloned(n) ==> clock == old(clock)
      ensures tracked ==> SlotBetween(n, o, Some(ni), ob, nb, At(k, n))
      ensures tracked && Quiet() ==> SlotBetween(n, if isNew then None else o, Some(ni), ob, nb, At(k, n))
      ensures Quiet() && (!IsCloned(n) || Stays(n, o, Some(ni)) ==> At(old(k), n).present) ==> At(k, n).present
      ensures tracked && Quiet() && IsCloned(n) ==> At(k, n).present
      ensures o.None? ==> Adds(n, ni, At(old(k), n), At(k, n))
      ensures old(LinksSound(k)) ==> LinksSound(k)
    {
      oi, isNew := if o.Some? then o.value else EMPTY_INTERFACE, o.None?;
      if InterfaceKind(n) == Wlan && !isNew && VapIn(Some(oi)) != VapIn(Some(ni)) {
        Discard(n, oi, ni, ob, nb);
        oi, isNew := EMPTY_INTERFACE, true;
      }
      if isNew && IsCloned(n) { CreateNew(n, o, ni, ob, nb); }
    }

    method SyncVlan(n: Name, oi: Interface, ni: Interface)
      modifies this`k, this`clock, this`errs, this`lies, this`issued
      ensures Locally(n)
      ensures var s, t := At(old(k), n), At(k, n);
        t == s.(port := t.port) && t.port == s.port.(vlan := t.port.vlan)
      ensures InterfaceKind(n) != VlanKind || oi.vlan == ni.vlan ==> clock == old(clock)
      ensures InterfaceKind(n) == VlanKind && oi.vlan != ni.vlan && ni.vlan.Some? && Quiet() ==>
        At(k, n).port.vlan == ni.vlan
      ensures !At(old(k), n).present ==> At(k, n) == At(old(k), n)
      ensures old(Obeying()) && At(old(k), n).present && (ni.vlan.Some? ==> At(old(k), ni.vlan.value.parent).present)
        ==> Quiet()
    {
      if InterfaceKind(n) == VlanKind && oi.vlan != ni.vlan {
        if oi.vlan.Some? { var _ := RunOn(TOL_MISSING, n, VlanUnset); }
        if ni.vlan.Some? { var _ := RunOn(TOL_NONE, n, VlanSet(ni.vlan.value)); }
      }
    }

    method PutAp(n: Name, on: bool)
      modifies this`k, this`clock, this`errs, this`lies, this`issued
      ensures Locally(n) && clock > old(clock) && (old(Obeying()) && At(old(k), n).present ==> Quiet())
      ensures var s, t := At(old(k), n), At(k, n);
        && t == s.(port := t.port) && t.port == s.port.(ap := t.port.ap)
        && (!s.present ==> t == s) && (Quiet() ==> t.port.ap == on)
    {
      var _ := RunOn(TOL_NONE, n, MediaOpt(on));
    }

    method PutMtu(n: Name, mtu: int)
      modifies this`k, this`clock, this`errs, this`lies, this`issued
      ensures Locally(n) && clock > old(clock) && (old(Obeying()) && At(old(k), n).present ==> Quiet())
      ensures var s, t := At(old(k), n), At(k, n);
        && t == s.(port := t.port) && t.port == s.port.(mtu := t.port.mtu)
        && (!s.present ==> t == s) && (Quiet() ==> t.port.mtu == mtu)
    {
      var _ := RunOn(TOL_NONE, n, SetMtu(mtu));
    }

    method PutMedia(n: Name, media: string)
      modifies this`k, this`clock, this`errs, this`lies, this`issued
      ensures Locally(n) && clock > old(clock) && (old(Obeying()) && At(old(k), n).present ==> Quiet())
      ensures var s, t := At(old(k), n), At(k, n);
        && t == s.(port := t.port) && t.port == s.port.(media := t.port.media)
        && (!s.present ==> t == s) && (Quiet() ==> t.port.media == media)
    {
      var _ := RunOn(TOL_NONE, n, SetMedia(media));
    }

    /** Legacy wireless stack: a physical radio itself switches into access point mode. */
    method SyncApMode(n: Name, oi: Interface, isNew: bool, ni: Interface)
      requires isNew ==> oi == EMPTY_INTERFACE
      modifies this`k, this`clock, this`errs, this`lies, this`issued
      ensures Locally(n)
      ensures var s, t := At(old(k), n), At(k, n);
        t == s.(port := t.port) && t.port == s.port.(ap := t.port.ap) && (!s.present ==> t == s)
      ensures InterfaceKind(n) != Physical || ApIn(Some(oi)) == ApIn(Some(ni)) ==> clock == old(clock)
      ensures InterfaceKind(n) == Physical && ApIn(Some(oi)) != ApIn(Some(ni)) && Quiet() ==>
        At(k, n).port.ap == ApIn(Some(ni))
      ensures old(Obeying()) && At(old(k), n).present ==> Quiet()
    {
      if InterfaceKind(n) == Physical {
        var wasAp := oi.wireless.Some? && oi.wireless.value.mode == HostAP;
        var isAp := ni.wireless.Some? && ni.wireless.value.mode == HostAP;
        if isAp && (!wasAp || isNew) {
          PutAp(n, true);
        } else if !isAp && wasAp {
          PutAp(n, false);
        }
      }
    }

    method SyncMtu(n: Name, oi: Interface, isNew: bool, ni: Interface)
      modifies this`k, this`clock, this`errs, this`lies, this`issued
      ensures Locally(n)
      ensures var s, t := At(old(k), n), At(k, n);
        t == s.(port := t.port) && t.port == s.port.(mtu := t.port.mtu) && (!s.present ==> t == s)
      ensures !isNew && ni.mtu == oi.mtu ==> clock == old(clock)
      ensures Quiet() && ni.mtu != 0 && (ni.mtu != oi.mtu || isNew) ==> At(k, n).port.mtu == ni.mtu
      ensures old(Obeying()) && At(old(k), n).present ==> Quiet()
    {
      if ni.mtu != 0 && (ni.mtu != oi.mtu || isNew) { PutMtu(n, ni.mtu); }
    }

    method SyncMedia(n: Name, oi: Interface, isNew: bool, ni: Interface)
      modifies this`k, this`clock, this`errs, this`lies, this`issued
      ensures Locally(n)
      ensures var s, t := At(old(k), n), At(k, n);
        t == s.(port := t.port) && t.port == s.port.(media := t.port.media) && (!s.present ==> t == s)
      ensures !isNew && ni.media == oi.media ==> clock == old(clock)
      ensures Quiet() && ni.media != "" && (ni.media != oi.media || isNew) ==> At(k, n).port.media == ni.media
      ensures Quiet() && ni.media == "" && oi.media != "" ==> At(k, n).port.media == "autoselect"
      ensures old(Obeying()) && At(old(k), n).present ==> Quiet()
    {
      if ni.media != oi.media || (isNew && ni.media != "") {
        PutMedia(n, if ni.media == "" then "autoselect" else ni.media);
      }
    }

    // ----- bridge members

    method DeleteMembers(n: Name, list: seq<Name>)
      modifies this`k, this`clock, this`errs, this`lies, this`issued
      ensures Progress() && AddedOn(old(issued), issued, n) && (old(Obeying()) ==> Quiet())
      ensures k == old(k).(links := k.links)
      ensures old(k).links - PairsOf(n, list) <= k.links <= old(k).links
      ensures Quiet() ==> k.links == old(k).links - PairsOf(n, list)
      ensures list == [] ==> clock == old(clock)
    {
      for j := 0 to |list|
        invariant Progress() && AddedOn(old(issued), issued, n) && (old(Obeying()) ==> Quiet())
        invariant k == old(k).(links := k.links)
        invariant old(k).links - PairsOf(n, list[..j]) <= k.links <= old(k).links
        invariant Quiet() ==> k.links == old(k).links - PairsOf(n, list[..j])
        invariant list == [] ==> clock == old(clock)
      {
        PairsSnoc(n, list, j);
        var _ := Run(TOL_MISSING, BrDel(n, list[j]));
      }
      assert list[..|list|] == list;
    }

    method AddMembers(n: Name, list: seq<Name>)
      modifies this`k, this`clock, this`errs, this`lies, this`issued
      ensures Progress() && AddedOn(old(issued), issued, n)
      ensures old(Obeying()) && At(old(k), n).present && (forall m :: m in list ==> At(old(k), m).present && FreeFor(n, m, old(k).links)) ==> Quiet()
      ensures k == old(k).(links := k.links)
      ensures old(k).links <= k.links <= old(k).links + PairsOf(n, list)
      ensures forall l :: l in k.links && l !in old(k).links ==> FreeFor(n, l.1, old(k).links) && At(old(k), n).present && At(old(k), l.1).present
      ensures Quiet() ==> forall m :: m in list && (n, m) !in old(k).links ==> FreeFor(n, m, old(k).links)
      ensures !At(old(k), n).present ==> k.links == old(k).links
      ensures Quiet() ==> k.links == old(k).links + PairsOf(n, list)
      ensures list == [] ==> clock == old(clock)
    {
      for j := 0 to |list|
        invariant Progress() && AddedOn(old(issued), issued, n)
        invariant old(Obeying()) && At(old(k), n).present && (forall m :: m in list ==> At(old(k), m).present && FreeFor(n, m, old(k).links)) ==> Quiet()
        invariant k == old(k).(links := k.links)
        invariant old(k).links <= k.links <= old(k).links + PairsOf(n, list[..j])
        invariant forall l :: l in k.links && l !in old(k).links ==>
          FreeFor(n, l.1, old(k).links) && At(old(k), n).present && At(old(k), l.1).present
        invariant Quiet() ==> forall m :: m in list[..j] && (n, m) !in old(k).links ==> FreeFor(n, m, old(k).links)
        invariant !At(old(k), n).present ==> k.links == old(k).links
        invariant Quiet() ==> k.links == old(k).links + PairsOf(n, list[..j])
        invariant list == [] ==> clock == old(clock)
      {
        PairsSnoc(n, list, j);
        var _ := Run(TOL_EXISTS, BrAdd(n, list[j]));
      }
      assert list[..|list|] == list;
    }

    method SyncMembers(n: Name, oi: Interface, ni: Interface)
      requires InterfaceKind(n) == BridgeKind
      modifies this`k, this`clock, this`errs, this`lies, this`issued
      ensures Progress() && AddedOn(old(issued), issued, n)
      ensures k == old(k).(links := k.links)
      ensures LinkChange(n, Some(oi), Some(ni), old(Obeying()), At(old(k), n).present, old(k).links, k.links)
      ensures Quiet() ==> !Blocked(n, Some(oi), Some(ni), old(k).links)
      ensures Quiet() ==> BridgeDone(n, MembersOf(oi), MembersOf(ni), old(k).links, k.links)
      ensures !At(old(k), n).present ==> k.links <= old(k).links
      ensures old(LinksSound(k)) ==> LinksSound(k)
      ensures MembersOf(oi) == MembersOf(ni) ==> clock == old(clock)
      ensures (
        old(Obeying()) && At(old(k), n).present &&
        forall m :: m in Minus(MembersOf(ni), MembersOf(oi)) ==> At(old(k), m).present && FreeFor(n, m, old(k).links)
      ) ==> Quiet()
    {
      DeleteMembers(n, Minus(MembersOf(oi), MembersOf(ni)));
      AddMembers(n, Minus(MembersOf(ni), MembersOf(oi)));
      if MembersOf(oi) == MembersOf(ni) { MinusSelf(MembersOf(oi)); }
    }

    // ----- the parts of configureInterface that concern one slot

    /** VLAN, access point mode, MTU and media. */
    method ConfigurePort(n: Name, oi: Interface, isNew: bool, ni: Interface)
      requires isNew ==> oi == EMPTY_INTERFACE
      modifies this`k, this`clock, this`errs, this`lies, this`issued
      ensures Locally(n)
      ensures PortStep(n, oi, isNew, ni, At(old(k), n), At(k, n))
      ensures Quiet() ==> PortDone(n, oi, isNew, ni, At(k, n))
      ensures !isNew && SameForKernel(oi, ni) ==> clock == old(clock)
      ensures old(Obeying()) && At(old(k), n).present && (ni.vlan.Some? ==> At(old(k), ni.vlan.value.parent).present)
        ==> Quiet()
    {
      SyncVlan(n, oi, ni);
      SyncApMode(n, oi, isNew, ni);
      SyncMtu(n, oi, isNew, ni);
      SyncMedia(n, oi, isNew, ni);
    }

    method ConfigureAddresses(n: Name, oi: Interface, ni: Interface)
      requires tracked ==> SlotWf(At(k, n)) && Families(oi) && Families(ni)
      requires tracked ==> UniqueHosts(AddrsOf(Some(oi))) && UniqueHosts(AddrsOf(Some(ni)))
      modifies this`k, this`clock, this`errs, this`lies, this`issued
      ensures Locally(n)
      ensures At(k, n) == At(old(k), n).(addrs := At(k, n).addrs)
      ensures tracked ==> AddrStep(oi, ni, At(old(k), n), At(k, n))
      ensures tracked && Quiet() && AddrsBetween(true, AddrsOf(Some(oi)), AddrsOf(Some(ni)), At(old(k), n).addrs) ==>
        At(k, n).addrs == AddrsOf(Some(ni))
      ensures oi.ipv4 == ni.ipv4 && oi.ipv6 == ni.ipv6 ==> clock == old(clock)
      ensures oi.ipv4 == [] && oi.ipv6 == [] ==> At(old(k), n).addrs <= At(k, n).addrs
      ensures old(Obeying()) && At(old(k), n).present ==> Quiet()
    {
      DropOldAddresses(n, oi, ni);
      AddNewAddresses(n, oi, ni);
    }

    method PutUp(n: Name, on: bool)
      modifies this`k, this`clock, this`errs, this`lies, this`issued
      ensures Locally(n) && clock > old(clock) && (old(Obeying()) && At(old(k), n).present ==> Quiet())
      ensures var s, t := At(old(k), n), At(k, n);
        && t == s.(port := t.port) && t.port == s.port.(up := t.port.up)
        && (!s.present ==> t == s) && (Quiet() ==> t.port.up == on && s.present)
    {
      if on {
        var _ := RunOn(TOL_NONE, n, Up);
      } else {
        var _ := RunOn(TOL_NONE, n, Down);
      }
    }

    /** The branch of configureInterface for an interface that is to be shut down. */
    method ShutInterface(n: Name, oi: Interface, isNew: bool, ni: Interface)
      modifies this`k, this`clock, this`errs, this`lies, this`issued
      ensures Locally(n) && (old(Obeying()) && At(old(k), n).present ==> Quiet())
      ensures ShutStep(At(old(k), n), At(k, n))
      ensures oi.shutdown && !isNew ==> clock == old(clock)
      ensures Quiet() && (!oi.shutdown || isNew) ==> ShutDone(oi, isNew, ni, At(k, n))
      ensures ni.wireless.None? ==> At(k, n).wifi == At(old(k), n).wifi
      ensures isNew ==> At(k, n).dhcpcd == At(old(k), n).dhcpcd
    {
      if !oi.shutdown || isNew {
        if ni.wireless.Some? { StopWireless(n); }
        if oi.dhcp && !isNew { StopDhcpcd(n); }
        PutUp(n, false);
      }
    }

    method StopDhcpcd(n: Name)
      modifies this`k, this`clock, this`errs, this`lies, this`issued
      ensures Locally(n) && clock > old(clock) && (old(Obeying()) ==> Quiet())
      ensures At(k, n) == At(old(k), n).(dhcpcd := At(k, n).dhcpcd)
      ensures (At(k, n).dhcpcd ==> At(old(k), n).dhcpcd) && (Quiet() ==> !At(k, n).dhcpcd)
    {
      var _ := RunOn(TOL_MISSING, n, DhcpcdStop);
    }

    method StartDhcpcd(n: Name)
      modifies this`k, this`clock, this`errs, this`lies, this`issued
      ensures Locally(n) && clock > old(clock) && (old(Obeying()) && At(old(k), n).present ==> Quiet())
      ensures At(k, n) == At(old(k), n).(dhcpcd := At(k, n).dhcpcd)
      ensures (At(old(k), n).dhcpcd ==> At(k, n).dhcpcd) && (Quiet() ==> At(k, n).dhcpcd)
    {
      var _ := RunOn(TOL_EXISTS, n, DhcpcdStart);
    }

    method SyncDhcp(n: Name, oi: Interface, ni: Interface, cameUp: bool)
      modifies this`k, this`clock, this`errs, this`lies, this`issued
      ensures Locally(n) && (old(Obeying()) && At(old(k), n).present ==> Quiet())
      ensures At(k, n) == At(old(k), n).(dhcpcd := At(k, n).dhcpcd)
      ensures DhcpStep(oi, ni, cameUp, At(old(k), n).dhcpcd, At(k, n).dhcpcd)
      ensures Quiet() ==> DhcpDone(oi, ni, cameUp, At(old(k), n).dhcpcd, At(k, n).dhcpcd)
      ensures !cameUp && oi.dhcp == ni.dhcp ==> clock == old(clock)
    {
      if ni.dhcp && (!oi.dhcp || cameUp) {
        StartDhcpcd(n);
      } else if !ni.dhcp && oi.dhcp && !oi.shutdown {
        StopDhcpcd(n);
      }
    }

    method SyncWireless(n: Name, oi: Interface, ni: Interface, cameUp: bool, ob: Name, nb: Name)
      modifies this`k, this`clock, this`errs, this`lies, this`issued
      ensures Locally(n) && (old(Obeying()) && At(old(k), n).present ==> Quiet())
      ensures At(k, n) == At(old(k), n).(wifi := At(k, n).wifi)
      ensures !Restarts(oi, ni, cameUp, ob, nb) ==> clock == old(clock)
      ensures ni.wireless.None? ==> Stopping(At(old(k), n).wifi, At(k, n).wifi)
      ensures Quiet() && Restarts(oi, ni, cameUp, ob, nb) ==> WifiFor(n, ni.wireless, nb, At(k, n).wifi)
    {
      if (oi.wireless.Some? || ni.wireless.Some?) && (oi.wireless != ni.wireless || nb != ob || cameUp) {
        StopWireless(n);
        if ni.wireless.Some? { StartWireless(n, ni.wireless.value, nb); }
      }
    }

    /** The branch for an interface that is to be up: link, then dhcpcd, then wireless. */
    method RaiseInterface(n: Name, oi: Interface, isNew: bool, ni: Interface, ob: Name, nb: Name)
      modifies this`k, this`clock, this`errs, this`lies, this`issued
      ensures Locally(n) && (old(Obeying()) && At(old(k), n).present ==> Quiet())
      ensures RaiseStep(oi, isNew, ni, ob, nb, At(old(k), n), At(k, n))
      ensures Quiet() ==> RaiseDone(n, oi, isNew, ni, ob, nb, At(old(k), n), At(k, n))
      ensures !isNew && !oi.shutdown && oi.dhcp == ni.dhcp && oi.wireless == ni.wireless && ob == nb ==>
        clock == old(clock)
    {
      var cameUp := oi.shutdown || isNew;
      if cameUp { PutUp(n, true); }
      SyncDhcp(n, oi, ni, cameUp);
      SyncWireless(n, oi, ni, cameUp, ob, nb);
    }

    /** VLAN, port and addresses together, judged against both sides of the change. */
    method ConfigureLink(n: Name, ghost o: Option<Interface>, ni: Interface, oi: Interface, isNew: bool,
                         ghost ob: Name, ghost nb: Name)
      requires StartsFrom(n, o, ni, oi, isNew) && (tracked ==> SlotBetween(n, o, Some(ni), ob, nb, At(k, n)))
      requires tracked ==> ApplicableTo(n, ni) && Families(oi) && UniqueHosts(AddrsOf(Some(oi)))
      modifies this`k, this`clock, this`errs, this`lies, this`issued
      ensures Locally(n) && At(k, n).present == At(old(k), n).present && At(k, n).wifi == At(old(k), n).wifi
      ensures tracked ==> SlotBetween(n, o, Some(ni), ob, nb, At(k, n))
      ensures tracked && Quiet() && SlotBetween(n, if isNew then None else o, Some(ni), ob, nb, At(old(k), n)) ==>
        SlotBetween(n, if isNew then None else o, Some(ni), ob, nb, At(k, n)) && PortRealises(n, ni, At(k, n))
      ensures isNew ==> Adds(n, ni, At(old(k), n), At(k, n))
      ensures !isNew && SameForKernel(oi, ni) ==> clock == old(clock)
      ensures old(Obeying()) && At(old(k), n).present && (ni.vlan.Some? ==> At(old(k), ni.vlan.value.parent).present)
        ==> Quiet()
    {
      ghost var s0 := At(k, n);
      ConfigurePort(n, oi, isNew, ni);
      ghost var s1 := At(k, n);
      ConfigureAddresses(n, oi, ni);
      if tracked { PortBetween(n, o, ni, ob, nb, oi, isNew, s0, s1, At(k, n)); }
      ghost var start := if isNew then None else o;
      if tracked && Quiet() && SlotBetween(n, start, Some(ni), ob, nb, s0) {
        PortBetween(n, start, ni, ob, nb, oi, isNew, s0, s1, At(k, n));
        PortArrives(n, start, ni, ob, nb, oi, isNew, s0, s1, At(k, n));
      }
    }

    /** Shutting down or bringing up, judged against both sides of the change. */
    method Activate(n: Name, ghost o: Option<Interface>, ni: Interface, oi: Interface, isNew: bool, ob: Name, nb: Name)
      requires StartsFrom(n, o, ni, oi, isNew) && (tracked ==> SlotBetween(n, o, Some(ni), ob, nb, At(k, n)))
      requires tracked ==> ApplicableTo(n, ni) && (o.Some? ==> !Drops(o.value, ni))
      modifies this`k, this`clock, this`errs, this`lies, this`issued
      ensures Locally(n) && At(k, n).present == At(old(k), n).present
      ensures ni.shutdown && ni.wireless.None? ==> At(k, n).wifi == At(old(k), n).wifi
      ensures isNew ==> Adds(n, ni, At(old(k), n), At(k, n))
      ensures tracked ==> SlotBetween(n, o, Some(ni), ob, nb, At(k, n))
      ensures (
        tracked && Quiet() && PortRealises(n, ni, At(old(k), n)) && (IsCloned(n) ==> At(old(k), n).present) &&
        SlotBetween(n, if isNew then None else o, Some(ni), ob, nb, At(old(k), n))
      ) ==> SlotRealises(n, Some(ni), nb, At(k, n))
      ensures !isNew && SameForKernel(oi, ni) && ob == nb ==> clock == old(clock)
      ensures old(Obeying()) && At(old(k), n).present ==> Quiet()
    {
      ghost var s := At(k, n);
      ghost var start := if isNew then None else o;
      if ni.shutdown {
        ShutInterface(n, oi, isNew, ni);
        if tracked { ShutBetween(n, o, ni, ob, nb, oi, isNew, s, At(k, n)); }
        if tracked && Quiet() && PortRealises(n, ni, s) && (IsCloned(n) ==> s.present) && SlotBetween(n, start, Some(ni), ob, nb, s) {
          ShutArrives(n, start, ni, ob, nb, oi, isNew, s, At(k, n));
        }
      } else {
        RaiseInterface(n, oi, isNew, ni, ob, nb);
        if tracked { RaiseBetween(n, o, ni, ob, nb, oi, isNew, s, At(k, n)); }
        if tracked && Quiet() && PortRealises(n, ni, s) && (IsCloned(n) ==> s.present) && SlotBetween(n, start, Some(ni), ob, nb, s) {
          RaiseArrives(n, start, ni, ob, nb, oi, isNew, s, At(k, n));
        }
      }
    }

    /** The part of configureInterface up to the bridge members. */
    method ConfigureStatic(n: Name, ghost o: Option<Interface>, ni: Interface, oi: Interface, isNew: bool,
                           ghost ob: Name, ghost nb: Name)
      requires StartsFrom(n, o, ni, oi, isNew) && (tracked ==> SlotBetween(n, o, Some(ni), ob, nb, At(k, n)))
      requires tracked ==> ApplicableTo(n, ni) && Families(oi) && UniqueHosts(AddrsOf(Some(oi)))
      modifies this`k, this`clock, this`errs, this`lies, this`issued
      ensures Progress() && AddedOn(old(issued), issued, n)
      ensures k.sys == old(k).sys && forall m :: m != n ==> At(k, m) == At(old(k), m)
      ensures At(k, n).present == At(old(k), n).present && At(k, n).wifi == At(old(k), n).wifi
      ensures tracked ==> SlotBetween(n, o, Some(ni), ob, nb, At(k, n))
      ensures tracked && Quiet() && SlotBetween(n, if isNew then None else o, Some(ni), ob, nb, At(old(k), n)) ==>
        SlotBetween(n, if isNew then None else o, Some(ni), ob, nb, At(k, n)) && PortRealises(n, ni, At(k, n))
      ensures isNew ==> Adds(n, ni, At(old(k), n), At(k, n))
      ensures InterfaceKind(n) != BridgeKind ==> k.links == old(k).links
      ensures InterfaceKind(n) == BridgeKind ==> LinkChange(n, Some(oi), Some(ni), old(Obeying()), At(old(k), n).present, old(k).links, k.links)
      ensures Quiet() ==> !Blocked(n, Some(oi), Some(ni), old(k).links)
      ensures InterfaceKind(n) == BridgeKind && Quiet() ==>
        BridgeDone(n, MembersOf(oi), MembersOf(ni), old(k).links, k.links)
      ensures !At(k, n).present ==> k.links <= old(k).links
      ensures old(LinksSound(k)) ==> LinksSound(k)
      ensures !isNew && SameForKernel(oi, ni) ==> clock == old(clock)
      ensures old(Obeying()) && At(old(k), n).present && ReferencesReady(n, Some(oi), ni, old(k)) ==> Quiet()
    {
      hide SlotBetween, PortRealises, Adds, LinkChange;
      ConfigureLink(n, o, ni, oi, isNew, ob, nb);
      if InterfaceKind(n) == BridgeKind {
        ghost var k1, obeys := k, Obeying();
        SyncMembers(n, oi, ni);
        LinkChangeLess(n, Some(oi), Some(ni), obeys, old(Obeying()), At(k1, n).present, k1.links, k.links);
      }
    }

    /** The rest of configureInterface, on an interface that has been materialised. */
    method ConfigureExisting(n: Name, ghost o: Option<Interface>, ni: Interface, oi: Interface, isNew: bool,
                             ob: Name, nb: Name)
      requires StartsFrom(n, o, ni, oi, isNew) && (tracked ==> SlotBetween(n, o, Some(ni), ob, nb, At(k, n)))
      requires tracked ==> ApplicableTo(n, ni) && Families(oi) && UniqueHosts(AddrsOf(Some(oi)))
      requires tracked && o.Some? ==> !Drops(o.value, ni)
      modifies this`k, this`clock, this`errs, this`lies, this`issued
      ensures Progress() && AddedOn(old(issued), issued, n)
      ensures k.sys == old(k).sys && forall m :: m != n ==> At(k, m) == At(old(k), m)
      ensures At(k, n).present == At(old(k), n).present
      ensures ni.shutdown && ni.wireless.None? ==> At(k, n).wifi == At(old(k), n).wifi
      ensures isNew ==> Adds(n, ni, At(old(k), n), At(k, n))
      ensures tracked ==> SlotBetween(n, o, Some(ni), ob, nb, At(k, n))
      ensures (
        tracked && Quiet() && (IsCloned(n) ==> At(old(k), n).present) &&
        SlotBetween(n, if isNew then None else o, Some(ni), ob, nb, At(old(k), n))
      ) ==> SlotRealises(n, Some(ni), nb, At(k, n))
      ensures InterfaceKind(n) != BridgeKind ==> k.links == old(k).links
      ensures InterfaceKind(n) == BridgeKind ==> LinkChange(n, Some(oi), Some(ni), old(Obeying()), At(old(k), n).present, old(k).links, k.links)
      ensures Quiet() ==> !Blocked(n, Some(oi), Some(ni), old(k).links)
      ensures InterfaceKind(n) == BridgeKind && Quiet() ==>
        BridgeDone(n, MembersOf(oi), MembersOf(ni), old(k).links, k.links)
      ensures !At(k, n).present ==> k.links <= old(k).links
      ensures old(LinksSound(k)) ==> LinksSound(k)
      ensures !isNew && SameForKernel(oi, ni) && ob == nb ==> clock == old(clock)
      ensures old(Obeying()) && At(old(k), n).present && ReferencesReady(n, Some(oi), ni, old(k)) ==> Quiet()
    {
      hide SlotBetween, SlotRealises, PortRealises, LinkChange, Blocked;
      ConfigureStatic(n, o, ni, oi, isNew, ob, nb);
      Activate(n, o, ni, oi, isNew, ob, nb);
    }

    /** configureInterface. Whatever fails, the slot stays between the two sides; when
        nothing does, it realises the new one. */
    method ConfigureInterface(n: Name, o: Option<Interface>, ni: Interface, nb: Name, ob: Name)
      requires VapDefined(n, ni) && (o.Some? ==> VapDefined(n, o.value))
      requires tracked ==> SlotBetween(n, o, Some(ni), ob, nb, At(k, n))
      requires tracked ==> ApplicableTo(n, ni) && (o.Some? ==> ApplicableTo(n, o.value) && !Drops(o.value, ni))
      modifies this`k, this`clock, this`errs, this`lies, this`issued
      ensures Progress() && AddedOn(old(issued), issued, n)
      ensures k.sys == old(k).sys && forall m :: m != n ==> At(k, m) == At(old(k), m)
      ensures tracked ==> SlotBetween(n, o, Some(ni), ob, nb, At(k, n))
      ensures tracked && Quiet() ==> SlotRealises(n, Some(ni), nb, At(k, n))
      ensures !IsCloned(n) ==> At(k, n).present == At(old(k), n).present
      ensures LinkStep(n, o, Some(ni), old(k), k)
      ensures InterfaceKind(n) == BridgeKind && Quiet() ==>
        BridgeDone(n, MembersIn(o), MembersOf(ni), old(k).links, k.links)
      ensures Residue(n, o, Some(ni), old(Obeying()), old(k), k)
      ensures o.Some? && SameForKernel(o.value, ni) && ob == nb ==> clock == old(clock)
      ensures old(Obeying()) && ReferencesReady(n, o, ni, old(k)) ==> Quiet() && At(k, n).present
      ensures Quiet() ==> !Blocked(n, o, Some(ni), old(k).links)
    {
      hide SlotBetween, SlotRealises, LinkChange, LinkStep, Blocked, Adds, BridgeDone, LinksSound;
      var oi, isNew := Materialise(n, o, ni, ob, nb);
      ghost var k1, obeys := k, Obeying();
      ConfigureExisting(n, o, ni, oi, isNew, ob, nb);
      WholeChange(n, o, ni, oi, isNew, obeys, old(Obeying()), old(k), k1, k);
    }

    // ----- all interfaces

    /** Every command acts on an interface whose configuration changes, and hardware comes and goes only by hand. */
    twostate predicate OnChanged(o: Config, w: Config)
      reads this
    {
      && Progress() && k.sys == old(k).sys
      && (OneBridgeEach(o) && OneBridgeEach(w) ==>
           forall c :: c in issued ==> c in old(issued) || (Target(c).Some? && Changed(o, w, Target(c).value)))
      && (forall n :: !IsCloned(n) ==> At(k, n).present == At(old(k), n).present)
    }

    method RemoveOne(o: Config, w: Config, n: Name)
      requires n in o.interfaces && n !in w.interfaces
      requires tracked ==> Appliable(o, w) && InterfacesBetween(o, w, k)
      modifies this`k, this`clock, this`errs, this`lies, this`issued, this`visits
      ensures OnChanged(o, w) && (old(Obeying()) ==> Quiet())
      ensures k.links <= old(k).links && forall m :: m != n ==> At(k, m) == At(old(k), m)
      ensures tracked ==> InterfacesBetween(o, w, k)
      ensures tracked && Quiet() ==> SlotRealises(n, None, BridgeOf(w, n), At(k, n))
      ensures forall l :: l in old(k).links && l.0 != n && l.1 != n ==> l in k.links
      ensures old(LinksSound(k)) ==> LinksSound(k)
      ensures old(Obeying()) && old(LinksSound(k)) ==> forall l :: l in k.links ==> l.0 != n
      ensures visits == old(visits) + [Removed(n)]
    {
      hide Changed, SlotsBetween, SlotBetween, SlotRealises, SlotWf, BridgeOf, Shaped, Unambiguous, Gentle, LinksBetween;
      hide InterfaceKind;
      if tracked { SlotBetweenIsWf(o, w, k, n); }
      UnchangedMeans(o, w, n);
      RemoveInterface(n, o.interfaces[n]);
      if tracked {
        RemovedSlot(o, w, n, old(k), At(k, n));
        OneSlotBetween(o, w, old(k), k, n);
        LinksWithoutBetween(o, w, n, old(k).links, k.links);
      }
      visits := visits + [Removed(n)];
    }

    /** Removed interfaces are torn down in reverse order, bridges first. */
    method TearDown(o: Config, w: Config)
      requires visits == []
      requires tracked ==> Appliable(o, w) && InterfacesBetween(o, w, k)
      modifies this`k, this`clock, this`errs, this`lies, this`issued, this`visits
      ensures OnChanged(o, w) && (old(Obeying()) ==> Quiet())
      ensures k.links <= old(k).links && forall m :: m !in o.interfaces || m in w.interfaces ==> At(k, m) == At(old(k), m)
      ensures tracked ==> InterfacesBetween(o, w, k)
      ensures tracked && Quiet() ==> forall n :: n in o.interfaces && n !in w.interfaces ==>
        SlotRealises(n, None, BridgeOf(w, n), At(k, n))
      ensures forall l :: l in old(k).links && (l.0 in o.interfaces ==> l.0 in w.interfaces) && (l.1 in o.interfaces ==> l.1 in w.interfaces) ==>
        l in k.links
      ensures old(LinksSound(k)) ==> LinksSound(k) && (old(Obeying()) ==> Cleared(o, w, k.links))
      ensures InDependencyOrder(visits)
      ensures forall v :: v in visits <==> v.Removed? && v.name in o.interfaces && v.name !in w.interfaces
    {
      hide SlotsBetween, SlotBetween, SlotRealises, BridgesPresent, LinksBetween, Changed, BridgeOf, LinksOf, Appliable, IsCloned;
      hide Before, InDependencyOrder, LinksSound;
      var names := InterfaceNames(o);
      var j := |names|;
      NoVisits();
      while j > 0
        invariant 0 <= j <= |names|
        invariant OnChanged(o, w) && (old(Obeying()) ==> Quiet())
        invariant k.links <= old(k).links && forall m :: m !in o.interfaces || m in w.interfaces ==> At(k, m) == At(old(k), m)
        invariant tracked ==> InterfacesBetween(o, w, k)
        invariant tracked && Quiet() ==> forall i :: j <= i < |names| && names[i] !in w.interfaces ==>
          SlotRealises(names[i], None, BridgeOf(w, names[i]), At(k, names[i]))
        invariant forall l :: l in old(k).links && (l.0 in o.interfaces ==> l.0 in w.interfaces) && (l.1 in o.interfaces ==> l.1 in w.interfaces) ==>
          l in k.links
        invariant old(LinksSound(k)) ==> LinksSound(k)
        invariant old(Obeying()) && old(LinksSound(k)) ==> forall l :: l in k.links && l.0 in names[j..] ==> l.0 in w.interfaces
        invariant InDependencyOrder(visits)
        invariant forall v :: v in visits <==> v.Removed? && v.name in names[j..] && v.name !in w.interfaces
      {
        j := j - 1;
        if names[j] !in w.interfaces {
          assert names[j] in names;
          VisitNext(visits, Removed(names[j]));
          RemoveOne(o, w, names[j]);
        }
      }
    }

    /** bridgeOf: looks for a bridge that lists the interface. */
    method FindBridge(c: Config, n: Name) returns (b: Name)
      ensures OneBridgeEach(c) ==> b == BridgeOf(c, n)
    {
      var todo := c.interfaces.Keys;
      while todo != {}
        invariant todo <= c.interfaces.Keys
        invariant forall d :: (d, n) in LinksOf(c) ==> d in todo
        decreases todo
      {
        var d :| d in todo;
        if c.interfaces[d].bridge.Some? && n in c.interfaces[d].bridge.value {
          assert (d, n) in LinksOf(c);
          return d;
        }
        todo := todo - {d};
      }
      return "";
    }

    /** configureInterface, with the entries and bridges that the two configurations give. */
    method Reconfigure(o: Config, w: Config, n: Name)
      requires VapsDefined(o) && VapsDefined(w) && n in w.interfaces
      requires tracked ==> Appliable(o, w) && InterfacesBetween(o, w, k)
      modifies this`k, this`clock, this`errs, this`lies, this`issued
      ensures OnChanged(o, w) && forall m :: m != n ==> At(k, m) == At(old(k), m)
      ensures tracked ==> SlotBetween(n, Lookup(o, n), Lookup(w, n), BridgeOf(o, n), BridgeOf(w, n), At(k, n))
      ensures LinkStep(n, Lookup(o, n), Lookup(w, n), old(k), k)
      ensures Residue(n, Lookup(o, n), Lookup(w, n), old(Obeying()), old(k), k)
      ensures tracked && Quiet() ==> SlotRealises(n, Lookup(w, n), BridgeOf(w, n), At(k, n))
      ensures InterfaceKind(n) == BridgeKind && Quiet() ==>
        BridgeDone(n, MembersIn(Lookup(o, n)), MembersOf(w.interfaces[n]), old(k).links, k.links)
      ensures old(Obeying()) && ReferencesReady(n, Lookup(o, n), w.interfaces[n], old(k)) ==> Quiet() && At(k, n).present
      ensures Quiet() ==> !Blocked(n, Lookup(o, n), Lookup(w, n), old(k).links)
    {
      hide Changed, SlotsBetween, SlotBetween, SlotRealises, SlotWf, BridgeOf, Shaped, Gentle, ApplicableTo;
      hide LinksBetween, BridgesPresent, LinkStep, BridgeDone, InterfaceKind, IsCloned, SameForKernel, ReferencesReady;
      hide Blocked, Residue, OneBridgeEach, LinksOf, UniqueHosts, UniqueDestinations, Drops, VapDefined;
      UnchangedMeans(o, w, n);
      var nb := FindBridge(w, n);
      var ob := FindBridge(o, n);
      if tracked { SetUpApplicable(o, w, n, k); }
      ConfigureInterface(n, Lookup(o, n), w.interfaces[n], nb, ob);
    }

    method SetUpOne(o: Config, w: Config, n: Name)
      requires VapsDefined(o) && VapsDefined(w) && n in w.interfaces
      requires tracked ==> Appliable(o, w) && InterfacesBetween(o, w, k)
      modifies this`k, this`clock, this`errs, this`lies, this`issued, this`visits
      ensures OnChanged(o, w) && (tracked ==> InterfacesBetween(o, w, k))
      ensures forall m :: m != n ==> At(k, m) == At(old(k), m)
      ensures Residue(n, Lookup(o, n), Lookup(w, n), old(Obeying()), old(k), k)
      ensures tracked && Quiet() ==> SlotRealises(n, Lookup(w, n), BridgeOf(w, n), At(k, n))
      ensures tracked && InterfaceKind(n) != BridgeKind ==> k.links <= old(k).links
      ensures tracked && InterfaceKind(n) == BridgeKind ==>
        forall l: (Name, Name) :: l.0 != n ==> (l in k.links <==> l in old(k).links)
      ensures tracked && InterfaceKind(n) == BridgeKind && Quiet() ==>
        forall l: (Name, Name) :: l.0 == n ==> (l in k.links <==> l in LinksOf(w))
      ensures old(Obeying()) && ReferencesReady(n, Lookup(o, n), w.interfaces[n], old(k)) ==> Quiet() && At(k, n).present
      ensures Quiet() ==> !Blocked(n, Lookup(o, n), Lookup(w, n), old(k).links)
      ensures visits == old(visits) + [Configured(n)]
    {
      hide Changed, SlotsBetween, SlotBetween, SlotRealises, SlotWf, BridgeOf, Shaped, Gentle, VapsDefined, LinksOf, Unambiguous;
      hide Blocked, Residue, LinksBetween, BridgesPresent, LinkStep, BridgeDone, InterfaceKind, IsCloned, SameForKernel, ReferencesReady;
      Reconfigure(o, w, n);
      if tracked { SetUpBetween(o, w, n, old(k), k); }
      if tracked && InterfaceKind(n) == BridgeKind { SetUpBridge(o, w, n, old(k), k); }
      visits := visits + [Configured(n)];
    }

    /** One more interface in dependency order. `k0` is the kernel when the first one was configured, and
        `clear` says that nothing stood in the way then. */
    method SetUpNext(o: Config, w: Config, names: seq<Name>, j: nat, ghost obeys: bool, ghost clear: bool, ghost k0: Kernel)
      requires VapsDefined(o) && VapsDefined(w)
      requires tracked ==> Appliable(o, w) && InterfacesBetween(o, w, k)
      requires SortedNames(names) && Distinct(names) && j < |names| && forall n :: n in names <==> n in w.interfaces
      requires (obeys ==> Obeying()) && OnTheWay(o, w, names, j, obeys, clear, k0, k)
      modifies this`k, this`clock, this`errs, this`lies, this`issued, this`visits
      ensures OnChanged(o, w) && (tracked ==> InterfacesBetween(o, w, k))
      ensures OnTheWay(o, w, names, j + 1, obeys, clear, k0, k)
      ensures tracked && old(Settled(w, names[..j], k)) && Quiet() ==> Settled(w, names[..j + 1], k)
      ensures clear ==> Quiet()
      ensures Shaped(o) && Shaped(w) && Quiet() ==> Spared(o, w, k0.links, names[j])
      ensures visits == old(visits) + [Configured(names[j])]
    {
      hide Residue, SoFar, Shaped, SlotsBetween, SlotBetween, SlotRealises, BridgesPresent, Changed, BridgeOf, LinksOf, Settled;
      hide LinksSound, ReferencesReady, IsCloned, LinksBetween, InterfaceKind, Must, Blocked, Unopposed, Before, SortedNames, Spared;
      assert names[j] in names;
      EarlierAreBefore(names, j);
      assert names[..j + 1] == names[..j] + [names[j]] && ToSet(names[..j + 1]) == ToSet(names[..j]) + {names[j]};
      if clear { NothingOpposes(o, w, names, j, k0, k); }
      SetUpOne(o, w, names[j]);
      ResidueIsSound(names[j], Lookup(o, names[j]), Lookup(w, names[j]), old(Obeying()), old(k), k);
      if Shaped(o) && Shaped(w) {
        ResidueLess(names[j], Lookup(o, names[j]), Lookup(w, names[j]), old(Obeying()), obeys, old(k), k);
        SoFarNext(o, w, names[j], ToSet(names[..j]), obeys, k0, old(k), k);
        if Quiet() { NoneBlocked(o, w, names[j], ToSet(names[..j]), obeys, k0, old(k)); }
      }
      if tracked && old(Settled(w, names[..j], k)) && Quiet() { SettleNext(o, w, names, j, old(k), k); }
    }

    /** New and changed interfaces are configured in dependency order. */
    method SetUp(o: Config, w: Config)
      requires VapsDefined(o) && VapsDefined(w)
      requires InDependencyOrder(visits) && forall v :: v in visits ==> v.Removed?
      requires tracked ==> Appliable(o, w) && InterfacesBetween(o, w, k)
      modifies this`k, this`clock, this`errs, this`lies, this`issued, this`visits
      ensures OnChanged(o, w) && (tracked ==> InterfacesBetween(o, w, k))
      ensures forall m :: m !in w.interfaces ==> At(k, m) == At(old(k), m)
      ensures tracked && Quiet() ==> forall n :: n in w.interfaces ==> SlotRealises(n, Lookup(w, n), BridgeOf(w, n), At(k, n))
      ensures tracked && Quiet() ==> forall l: (Name, Name) :: l.0 in w.interfaces ==> (l in k.links <==> l in LinksOf(w))
      ensures old(Obeying() && Unopposed(o, w, k)) ==> Quiet()
      ensures Shaped(o) && Shaped(w) && Quiet() ==> !MustClash(o, w, old(k).links)
      ensures Shaped(o) && Shaped(w) ==> Residues(o, w, old(Obeying()), old(k), k)
      ensures old(LinksSound(k)) ==> LinksSound(k)
      ensures InDependencyOrder(visits)
      ensures forall v :: v in visits <==> if v.Removed? then v in old(visits) else v.name in w.interfaces
    {
      hide SlotsBetween, SlotBetween, SlotRealises, BridgesPresent, LinksBetween, Changed, BridgeOf, LinksOf, Appliable;
      hide Residues, OnTheWay, Shaped, Unopposed, Before, InDependencyOrder, IsCloned, MustClash, Spared;
      hide Settled, InterfacesBetween, ConfiguredAll, OneBridgeEach, VapsDefined, SortedNames, Target, LinksSound;
      var names := InterfaceNames(w);
      ghost var k0, clear := k, Obeying() && Unopposed(o, w, k);
      SetsOut(o, w, names, Obeying(), clear, k);
      NoneSettled(w, names[..0], k);
      NoneConfigured(names[..0]);
      for j := 0 to |names|
        invariant OnChanged(o, w) && (tracked ==> InterfacesBetween(o, w, k))
        invariant OnTheWay(o, w, names, j, old(Obeying()), clear, k0, k)
        invariant tracked && Quiet() ==> Settled(w, names[..j], k)
        invariant visits == old(visits) + ConfiguredAll(names[..j])
        invariant clear ==> Quiet()
        invariant Shaped(o) && Shaped(w) && Quiet() ==> forall b :: b in names[..j] ==> Spared(o, w, k0.links, b)
      {
        ConfiguredNext(names, j);
        SetUpNext(o, w, names, j, old(Obeying()), clear, k0);
        assert names[..j + 1] == names[..j] + [names[j]];
      }
      assert names[..|names|] == names;
      Arrives(o, w, names, old(Obeying()), clear, k0, k);
      if tracked && Quiet() { EverySettled(w, names, k); }
      if Shaped(o) && Shaped(w) && Quiet() { NoMustClash(o, w, k0.links); }
      ThenConfigured(old(visits), names);
    }

    method Interfaces(o: Config, w: Config)
      requires VapsDefined(o) && VapsDefined(w)
      requires visits == []
      requires tracked ==> Appliable(o, w) && InterfacesBetween(o, w, k)
      modifies this`k, this`clock, this`errs, this`lies, this`issued, this`visits
      ensures OnChanged(o, w) && (tracked ==> InterfacesBetween(o, w, k))
      ensures tracked && Quiet() ==> InterfacesRealise(w, k)
      ensures old(Obeying() && Prepared(o, w, k) && !MayClash(o, w, k.links)) ==> Quiet()
      ensures Shaped(o) && Shaped(w) && Quiet() ==> !MustClash(o, w, old(k).links)
      ensures Shaped(o) && Shaped(w) ==> Residues(o, w, old(Obeying()), old(k), k)
      ensures forall m :: m !in o.interfaces && m !in w.interfaces ==> At(k, m) == At(old(k), m)
      ensures old(LinksSound(k)) ==> LinksSound(k)
      ensures VisitsAll(o, w, visits)
    {
      hide SlotsBetween, SlotBetween, SlotRealises, BridgesPresent, LinksBetween, Changed, BridgeOf, LinksOf, InDependencyOrder;
      hide Must, MayClash, Residues, Shaped, Prepared, Unopposed, LinksSound, IsCloned, Cleared;
      UnopposedMeans(o, w, k);
      TearDown(o, w);
      ghost var k0, k1, obeys := old(k), k, Obeying();
      if Shaped(w) { ClashStays(o, w, k0.links, k1.links); }
      if old(Obeying()) && Prepared(o, w, k0) && !MayClash(o, w, k0.links) { GetsUnopposed(o, w, k0, k1); }
      SetUp(o, w);
      if Shaped(o) && Shaped(w) { ResiduesFromStart(o, w, old(Obeying()), obeys, k0, k1, k); }
      if tracked && Quiet() { AllSettled(o, w, k); }
    }

    // ----- the rest of the system

    /** A command outside the interfaces. */
    method RunSystem(tolerate: set<Msg>, c: Cmd) returns (ok: bool)
      requires Target(c).None?
      modifies this`k, this`clock, this`errs, this`lies, this`issued
      ensures Elsewhere() && clock == old(clock) + 1 && issued == old(issued) + {c}
      ensures replies(old(clock)).Refuse? ==> k == old(k) && (tolerate == {} ==> !ok)
      ensures replies(old(clock)).Obey? && SystemVerdict(old(k).sys, c).Fine? ==> ok && k.sys == SystemEffect(old(k).sys, c)
      ensures k.sys == old(k).sys || (SystemVerdict(old(k).sys, c).Fine? && k.sys == SystemEffect(old(k).sys, c))
      ensures Quiet() ==> var v := SystemVerdict(old(k).sys, c);
        ok && k.sys == (if v.Fine? then SystemEffect(old(k).sys, c) else old(k).sys) && (v.Fine? || v.msg in tolerate)
      ensures ok && tolerate == {} ==> Quiet()
      ensures !ok ==> |errs| > |old(errs)|
      ensures old(Obeying()) && (SystemVerdict(old(k).sys, c).Fine? || SystemVerdict(old(k).sys, c).msg in tolerate) ==> Quiet()
    {
      ok := Run(tolerate, c);
    }

    /** Interfaces and bridges are not touched. */
    twostate predicate Elsewhere()
      reads this
    {
      Progress() && k == old(k).(sys := k.sys)
    }

    /** Every command since then is one that the two configurations call for. */
    twostate predicate Justly(o: Config, w: Config)
      reads this
    {
      forall c :: c in issued ==> c in old(issued) || Justified(o, w, boot, c)
    }

    /** Host name and name servers, where the new configuration has them. */
    method ApplyNames(o: Config, w: Config)
      modifies this`k, this`clock, this`errs, this`lies, this`issued
      ensures Elsewhere() && Justly(o, w) && (old(Obeying()) ==> Quiet())
      ensures var s, t := old(k).sys, k.sys;
        && t == s.(host := t.host) && t.host == s.host.(hostname := t.host.hostname, resolv := t.host.resolv)
        && (w.hostname == o.hostname ==> t.host.hostname == s.host.hostname)
        && (w.domain == o.domain && w.nameServers == o.nameServers ==> t.host.resolv == s.host.resolv)
      ensures (w.hostname == "" ==> k.sys.host.hostname == old(k).sys.host.hostname)
        && (w.nameServers == [] ==> k.sys.host.resolv == old(k).sys.host.resolv)
      ensures Quiet() && w.hostname != "" && w.hostname != o.hostname ==> k.sys.host.hostname == w.hostname
      ensures Quiet() && w.nameServers != [] && (w.domain != o.domain || w.nameServers != o.nameServers) ==>
        k.sys.host.resolv == Some((w.domain, w.nameServers))
    {
      if w.hostname != "" && w.hostname != o.hostname {
        var _ := RunSystem(TOL_NONE, SetHostname(w.hostname));
      }
      if w.domain != o.domain || w.nameServers != o.nameServers {
        if |w.nameServers| > 0 {
          var _ := RunSystem(TOL_NONE, WriteResolv(w.domain, w.nameServers));
        }
      }
    }

    method ApplyForwarding(o: Config, w: Config)
      modifies this`k, this`clock, this`errs, this`lies, this`issued
      ensures Elsewhere() && Justly(o, w) && (old(Obeying()) ==> Quiet())
      ensures var s, t := old(k).sys, k.sys;
        && t == s.(host := t.host) && t.host == s.host.(forward4 := t.host.forward4, forward6 := t.host.forward6)
        && (!boot && w.ipRouting == o.ipRouting ==> t.host.forward4 == s.host.forward4)
        && (!boot && w.ipv6Routing == o.ipv6Routing ==> t.host.forward6 == s.host.forward6)
      ensures Quiet() && (boot || w.ipRouting != o.ipRouting) ==> k.sys.host.forward4 == w.ipRouting
      ensures Quiet() && (boot || w.ipv6Routing != o.ipv6Routing) ==> k.sys.host.forward6 == w.ipv6Routing
    {
      if w.ipRouting != o.ipRouting || boot {
        var _ := RunSystem(TOL_NONE, SetForward4(w.ipRouting));
      }
      if w.ipv6Routing != o.ipv6Routing || boot {
        var _ := RunSystem(TOL_NONE, SetForward6(w.ipv6Routing));
      }
    }

    /** Routes that disappeared are deleted, by destination alone. */
    method DropRoutes(o: Config, w: Config)
      requires tracked ==> UniqueDestinations(RoutesOf(o))
      modifies this`k, this`clock, this`errs, this`lies, this`issued
      ensures Elsewhere() && Justly(o, w) && (old(Obeying()) ==> Quiet())
      ensures k.sys == old(k).sys.(routes := k.sys.routes) && k.sys.routes <= old(k).sys.routes
      ensures tracked ==> old(k).sys.routes * RoutesOf(o) * RoutesOf(w) <= k.sys.routes
      ensures Quiet() && old(k).sys.routes <= RoutesOf(o) + RoutesOf(w) ==> k.sys.routes <= RoutesOf(w)
      ensures o.routes == [] ==> k == old(k)
    {
      for j := 0 to |o.routes|
        invariant Elsewhere() && Justly(o, w) && (old(Obeying()) ==> Quiet()) && (o.routes == [] ==> k == old(k))
        invariant k.sys == old(k).sys.(routes := k.sys.routes) && k.sys.routes <= old(k).sys.routes
        invariant tracked ==> old(k).sys.routes * RoutesOf(o) * RoutesOf(w) <= k.sys.routes
        invariant Quiet() ==> forall i :: 0 <= i < j && o.routes[i] !in RoutesOf(w) ==> o.routes[i] !in k.sys.routes
      {
        if o.routes[j] !in w.routes {
          var _ := RunSystem(TOL_MISSING, RouteDel(o.routes[j].prefix));
          assert o.routes[j] in RoutesOf(o);
        }
      }
      if Quiet() && old(k).sys.routes <= RoutesOf(o) + RoutesOf(w) {
        forall r | r in RoutesOf(o) && r !in RoutesOf(w) ensures r !in k.sys.routes {
          var i :| 0 <= i < |o.routes| && o.routes[i] == r;
        }
      }
    }

    /** Routes that are new are added. */
    method AddRoutes(o: Config, w: Config)
      requires tracked ==> UniqueDestinations(RoutesOf(w))
      modifies this`k, this`clock, this`errs, this`lies, this`issued
      ensures Elsewhere() && Justly(o, w) && (old(Obeying()) ==> Quiet())
      ensures k.sys == old(k).sys.(routes := k.sys.routes)
      ensures old(k).sys.routes <= k.sys.routes <= old(k).sys.routes + RoutesOf(w)
      ensures tracked && Quiet() && RoutesOf(o) * RoutesOf(w) <= old(k).sys.routes <= RoutesOf(w) ==> k.sys.routes == RoutesOf(w)
    {
      for j := 0 to |w.routes|
        invariant Elsewhere() && Justly(o, w) && (old(Obeying()) ==> Quiet())
        invariant k.sys == old(k).sys.(routes := k.sys.routes)
        invariant old(k).sys.routes <= k.sys.routes <= old(k).sys.routes + RoutesOf(w)
        invariant Quiet() ==> forall i :: 0 <= i < j && w.routes[i] !in RoutesOf(o) ==>
          w.routes[i].prefix in DestinationsOf(k.sys.routes)
      {
        if w.routes[j] !in o.routes {
          assert w.routes[j] in RoutesOf(w);
          ghost var before := k.sys.routes;
          var _ := RunSystem(TOL_EXISTS, RouteAdd(w.routes[j]));
          assert DestinationsOf(before) <= DestinationsOf(k.sys.routes);
        }
      }
      if tracked && Quiet() && RoutesOf(o) * RoutesOf(w) <= old(k).sys.routes <= RoutesOf(w) {
        forall r | r in RoutesOf(w) ensures r in k.sys.routes {
          if r !in RoutesOf(o) {
            var i :| 0 <= i < |w.routes| && w.routes[i] == r;
            var q :| q in k.sys.routes && q.prefix == r.prefix;
            assert q in RoutesOf(w);
          }
        }
      }
    }

    // ----- firewall and DHCP server

    /** Writes a file back without looking at the outcome. */
    method Attempt(c: Cmd)
      requires Target(c).None?
      modifies this`k, this`clock, this`issued
      ensures Elsewhere() && clock > old(clock) && issued == old(issued) + {c}
      ensures k.sys == old(k).sys || k.sys == SystemEffect(old(k).sys, c)
      ensures replies(old(clock)).Obey? && SystemVerdict(old(k).sys, c).Fine? ==> k.sys == SystemEffect(old(k).sys, c)
    {
      var reply := replies(clock);
      clock, issued := clock + 1, issued + {c};
      if reply == Obey && VerdictOf(k, c) == Fine { k := EffectOf(k, c); }
    }

    /** Writes and validates a rule set. When that fails nothing but the file can have changed, and
        the file before it comes back if that can be written. */
    method WriteRules(conf: Npf.Conf) returns (ok: bool)
      modifies this`k, this`clock, this`errs, this`lies, this`issued
      ensures Elsewhere() && (old(Obeying()) ==> Quiet() && ok) && (ok <==> Quiet())
      ensures forall c :: c in issued ==> c in old(issued) || IsNpf(c)
      ensures k.sys == old(k).sys.(npf := old(k).sys.npf.(file := k.sys.npf.file))
      ensures var (write, validate, undo) := (replies(old(clock)), replies(old(clock) + 1), replies(old(clock) + 2));
        && (ok <==> write.Obey? && validate.Obey?)
        && (ok ==> k.sys.npf.file == Some(conf))
        && (write.Refuse? ==> k.sys == old(k).sys)
        && (write.Obey? && validate.Refuse? && undo.Obey? && old(k).sys.npf.file.Some? ==> k.sys == old(k).sys)
    {
      var prev := k.sys.npf.file;
      ok := RunSystem(TOL_NONE, WriteNpf(conf));
      if !ok { return; }
      ok := RunSystem(TOL_NONE, NpfValidate);
      if !ok {
        // Keep the last good rule set on disk.
        if prev.Some? { Attempt(WriteNpf(prev.value)); }
      }
    }

    /** Writes, validates and loads a rule set. One that fails validation is never loaded. */
    method LoadRules(conf: Npf.Conf)
      modifies this`k, this`clock, this`errs, this`lies, this`issued
      ensures Elsewhere() && (old(Obeying()) ==> Quiet())
      ensures forall c :: c in issued ==> c in old(issued) || IsNpf(c)
      ensures k.sys == old(k).sys.(npf := k.sys.npf)
      ensures Quiet() ==> k.sys.npf.ruleset == Some(conf) && k.sys.npf.on
      ensures var (f, g) := (old(k).sys.npf, k.sys.npf);
        var (write, validate, undo) := (replies(old(clock)), replies(old(clock) + 1), replies(old(clock) + 2));
        && (write.Refuse? ==> g == f)
        && (write.Obey? && validate.Refuse? ==>
             g == f.(file := g.file) && (f.file.Some? && undo.Obey? ==> g.file == f.file))
    {
      var ok := WriteRules(conf);
      if !ok { return; }
      ok := RunSystem(TOL_NONE, NpfReload);
      if ok { var _ := RunSystem(TOL_ALREADY, NpfStart); }
    }

    method Firewall(o: Config, w: Config)
      modifies this`k, this`clock, this`errs, this`lies, this`issued
      ensures Elsewhere() && Justly(o, w) && (old(Obeying()) ==> Quiet())
      ensures k.sys == old(k).sys.(npf := k.sys.npf)
      ensures !boot && Npf.ConfOf(o) == Npf.ConfOf(w) ==> clock == old(clock)
      ensures Quiet() && (boot || Npf.ConfOf(o) != Npf.ConfOf(w)) ==>
        NpfRealises(w, k.sys.npf)
    {
      var newConf := Npf.Npf(w);
      var oldConf := Npf.Npf(o);
      if !boot && newConf == oldConf { return; }
      LoadRules(newConf);
    }

    /** Writes dhcpd's files and starts it. */
    method LaunchDhcpd(conf: DhcpdConf, ifs: set<Name>)
      modifies this`k, this`clock, this`errs, this`lies, this`issued
      ensures Elsewhere() && (old(Obeying()) && old(k).sys.dhcpd.running.None? ==> Quiet())
      ensures forall c :: c in issued ==> c in old(issued) || IsDhcpd(c)
      ensures k.sys == old(k).sys.(dhcpd := k.sys.dhcpd)
      ensures Quiet() ==> k.sys.dhcpd.running == Some((conf, ifs))
    {
      var ok := RunSystem(TOL_NONE, WriteDhcpd(conf));
      if !ok { return; }
      if !k.sys.dhcpd.leases { var _ := RunSystem(TOL_NONE, WriteLeases); }
      var _ := RunSystem(TOL_NONE, StartDhcpd(ifs));
    }

    /** Stops dhcpd, and starts it again when there is something to serve. */
    method RestartDhcpd(w: Config, conf: DhcpdConf, ifs: set<Name>)
      requires conf == SubnetsOf(w) && ifs == ServingInterfaces(w)
      modifies this`k, this`clock, this`errs, this`lies, this`issued
      ensures Elsewhere() && (old(Obeying()) ==> Quiet())
      ensures forall c :: c in issued ==> c in old(issued) || IsDhcpd(c)
      ensures k.sys == old(k).sys.(dhcpd := k.sys.dhcpd)
      ensures Quiet() ==> DhcpdRealises(w, k.sys.dhcpd)
    {
      hide ServingInterfaces, SubnetsOf;
      var _ := RunSystem(TOL_NONE, StopDhcpd);
      ServingNeedsPools(w);
      if w.pools == map[] || ifs == {} { return; }
      LaunchDhcpd(conf, ifs);
    }

    method DhcpServer(o: Config, w: Config)
      modifies this`k, this`clock, this`errs, this`lies, this`issued
      ensures Elsewhere() && Justly(o, w) && (old(Obeying()) ==> Quiet())
      ensures k.sys == old(k).sys.(dhcpd := k.sys.dhcpd)
      ensures !boot && SameDhcpd(o, w) ==> clock == old(clock)
      ensures Quiet() && (boot || !SameDhcpd(o, w)) ==> DhcpdRealises(w, k.sys.dhcpd)
    {
      hide ServingInterfaces, SubnetsOf, DhcpdRealises;
      var newConf, newIfs := Dhcpd(w);
      var oldConf, oldIfs := Dhcpd(o);
      if !boot && newConf == oldConf && newIfs == oldIfs { return; }
      RestartDhcpd(w, newConf, newIfs);
    }

    // ----- the whole applier

    method ApplySystem(o: Config, w: Config)
      requires tracked ==> HostBetween(o, w, boot, k.sys.host)
      modifies this`k, this`clock, this`errs, this`lies, this`issued
      ensures Elsewhere() && Justly(o, w) && (old(Obeying()) ==> Quiet())
      ensures k.sys == old(k).sys.(host := k.sys.host)
      ensures (w.hostname == "" ==> k.sys.host.hostname == old(k).sys.host.hostname)
        && (w.nameServers == [] ==> k.sys.host.resolv == old(k).sys.host.resolv)
      ensures tracked ==> HostBetween(o, w, boot, k.sys.host)
      ensures tracked && Quiet() ==> HostRealises(w, k.sys.host)
    {
      ApplyNames(o, w);
      ApplyForwarding(o, w);
    }

    method Routes(o: Config, w: Config)
      requires tracked ==> UniqueDestinations(RoutesOf(o)) && UniqueDestinations(RoutesOf(w))
      requires tracked ==> RoutesBetween(RoutesOf(o), RoutesOf(w), k.sys.routes)
      modifies this`k, this`clock, this`errs, this`lies, this`issued
      ensures Elsewhere() && Justly(o, w) && (old(Obeying()) ==> Quiet())
      ensures k.sys == old(k).sys.(routes := k.sys.routes)
      ensures tracked ==> RoutesBetween(RoutesOf(o), RoutesOf(w), k.sys.routes)
      ensures tracked && Quiet() ==> k.sys.routes == RoutesOf(w)
      ensures o.routes == [] ==> old(k).sys.routes <= k.sys.routes
    {
      DropRoutes(o, w);
      AddRoutes(o, w);
    }

    /** The phases after the interfaces. Each goes on whatever happened before it. */
    method ApplyRest(o: Config, w: Config) returns (ghost routed: nat, ghost filtered: nat)
      requires tracked ==> UniqueDestinations(RoutesOf(o)) && UniqueDestinations(RoutesOf(w))
      requires tracked ==> RoutesBetween(RoutesOf(o), RoutesOf(w), k.sys.routes)
      requires tracked ==> NpfBetween(o, w, boot, k.sys.npf) && DhcpdBetween(o, w, boot, k.sys.dhcpd)
      modifies this`k, this`clock, this`errs, this`lies, this`issued
      ensures Elsewhere() && Justly(o, w) && (old(Obeying()) ==> Quiet()) && k.sys.host == old(k).sys.host
      ensures tracked ==> RoutesBetween(RoutesOf(o), RoutesOf(w), k.sys.routes)
      ensures tracked ==> NpfBetween(o, w, boot, k.sys.npf) && DhcpdBetween(o, w, boot, k.sys.dhcpd)
      ensures o.routes == [] ==> old(k).sys.routes <= k.sys.routes
      ensures old(Trouble()) <= routed <= filtered <= Trouble()
      ensures tracked && routed == old(Trouble()) ==> k.sys.routes == RoutesOf(w)
      ensures tracked && filtered == routed ==> NpfRealises(w, k.sys.npf)
      ensures tracked && Trouble() == filtered ==> DhcpdRealises(w, k.sys.dhcpd)
    {
      hide RoutesOf, NpfRealises, DhcpdRealises, UniqueDestinations;
      Routes(o, w);
      routed := Trouble();
      Firewall(o, w);
      filtered := Trouble();
      DhcpServer(o, w);
    }

    /** The phases of Apply on effective configurations. No more of them are left unfinished than commands failed. */
    method ApplyEffective(o: Config, w: Config) returns (ghost left: set<Phase>)
      requires VapsDefined(o) && VapsDefined(w)
      requires visits == []
      requires tracked ==> Appliable(o, w) && Between(o, w, boot, k)
      modifies this`k, this`clock, this`errs, this`lies, this`issued, this`visits
      ensures Progress() && (OneBridgeEach(o) && OneBridgeEach(w) ==> Justly(o, w))
      ensures tracked ==> Between(o, w, boot, k)
      ensures tracked ==> AllBut(w, left, k) && |left| <= Trouble() - old(Trouble())
      ensures tracked && Quiet() ==> Realises(w, k)
      ensures old(Obeying() && Prepared(o, w, k) && !MayClash(o, w, k.links)) ==> Quiet()
      ensures Shaped(o) && Shaped(w) && Quiet() ==> !MustClash(o, w, old(k).links)
      ensures Shaped(o) && Shaped(w) ==> Residues(o, w, old(Obeying()), old(k), k)
      ensures o.routes == [] ==> old(k).sys.routes <= k.sys.routes
      ensures forall m :: m !in o.interfaces && m !in w.interfaces ==> At(k, m) == At(old(k), m)
      ensures SoundStays(old(k), k)
      ensures VisitsAll(o, w, visits)
    {
      hide InterfacesBetween, InterfacesRealise, Changed, HostBetween, HostRealises, NpfRealises, DhcpdRealises;
      hide RoutesOf, Prepared, MayClash, MustClash, Shaped, Gentle, VapsDefined, VisitsAll, Residues, OneBridgeEach, UniqueDestinations, LinksSound, SoundStays, IsCloned;
      hide AllBut, Unfinished;
      ApplySystem(o, w);
      ghost var t0 := Trouble();
      BetweenInterfaces(o, w, old(k), k);
      PreparedStays(o, w, old(k), k);
      ghost var k0, obeying := k, Obeying();
      Interfaces(o, w);
      ghost var k1, t1 := k, Trouble();
      ghost var t2, t3 := ApplyRest(o, w);
      left := Unfinished(old(Trouble()), t0, t1, t2, t3, Trouble());
      BetweenInterfaces(o, w, k1, k);
      if tracked { OthersFinished(w, old(Trouble()), t0, t1, t2, t3, Trouble(), k); }
      SoundThroughout(old(k), k0, k1, k);
      ResiduesStay(o, w, obeying, old(Obeying()), old(k), k0, k1, k);
    }

    /** Moves the system between two effective configurations, from a fresh record. */
    method Move(o: Config, w: Config, booting: bool)
      requires VapsDefined(o) && VapsDefined(w)
      requires booting ==> o.interfaces == map[] && o.routes == [] && o.hostname == "" && o.nameServers == [] && Shaped(o)
      modifies this
      ensures clock >= old(clock) && lies >= old(lies) && (old(Obeying()) ==> lies == old(lies))
      ensures VisitsAll(o, w, visits)
      ensures forall m :: m !in o.interfaces && m !in w.interfaces ==> At(k, m) == At(old(k), m)
      ensures SoundStays(old(k), k)
      ensures old(Obeying() && Prepared(o, w, k) && !MayClash(o, w, k.links)) ==> errs == []
      ensures Shaped(o) && Shaped(w) && errs == [] && lies == old(lies) ==> !MustClash(o, w, old(k).links)
      ensures !booting && old(Obeying() && Fits(o, w, k)) ==> Exactly(o, w, errs != [], k)
      ensures booting && Shaped(w) && old(Sound(k)) && Realises(w, k) ==> old(Between(o, w, true, k))
      ensures OneBridgeEach(o) && OneBridgeEach(w) ==> forall c :: c in issued ==> Justified(o, w, booting, c)
      ensures old(Appliable(o, w) && Between(o, w, booting, k)) ==>
        && Between(o, w, booting, k)
        && (errs == [] && lies == old(lies) ==> Realises(w, k))
        && UnfinishedAtMost(w, |errs| + (lies - old(lies)), k)
    {
      hide Effective, Shaped, Unambiguous, Gentle, Realises, Between, Prepared, Residues, VisitsAll, Justified, AllBut;
      hide OneBridgeEach, Ours, VapsDefined, MayClash, MustClash, LinksOf, Told, Sound, Layered, HardwarePresent, Exactly, SoundStays, Fits;
      boot, errs, issued, visits := booting, [], {}, [];
      ghost var k0, obeys := k, Obeying();
      ghost var fits := !booting && Obeying() && Fits(o, w, k0);
      if fits {
        FitsIsBetween(o, w, k0);
        FitsIsPrepared(o, w, k0);
      }
      tracked := Appliable(o, w) && Between(o, w, booting, k0);
      ghost var _ := ApplyEffective(o, w);
      ghost var quiet := errs == [] && lies == old(lies);
      if fits { FittingOutcome(o, w, k0, k, quiet); }
      if booting {
        if Shaped(w) && Sound(k0) && Realises(w, k) { RealisedAfterBoot(o, w, obeys, k0, k); }
      }
    }

    /** Apply: moves the system from one configuration to another. With `booting` set, the
        old one is treated as empty. The claims are made for a pair of configurations that
        meets the side conditions and a kernel that lies between them: whatever subset of the
        commands fails, it still does, and no more phases are left unfinished than commands failed;
        without a reported error, and if no failure carried a misleading message, it realises the
        new one. A kernel that obeys refuses something exactly when a bridge is to get a member that
        another one still holds. In any case every command is called for by a difference, as long as
        each interface is in one bridge at most. */
    method Apply(before: Option<Config>, after: Config, booting: bool) returns (failed: bool)
      modifies this
      ensures failed <==> errs != []
      ensures clock >= old(clock) && lies >= old(lies) && (old(Obeying()) ==> lies == old(lies))
      ensures VisitsAll(Effective(StartOf(before, booting)), Effective(after), visits)
      ensures var (o, w) := (Effective(StartOf(before, booting)), Effective(after));
        forall m :: m !in o.interfaces && m !in w.interfaces ==> At(k, m) == At(old(k), m)
      ensures SoundStays(old(k), k)
      ensures var (o, w) := (Effective(StartOf(before, booting)), Effective(after));
        && (old(Obeying() && Prepared(o, w, k) && !MayClash(o, w, k.links)) ==> !failed)
        && (Shaped(o) && Shaped(w) && !failed && lies == old(lies) ==> !MustClash(o, w, old(k).links))
      ensures var (o, w) := (Effective(StartOf(before, booting)), Effective(after));
        !booting && old(Obeying() && Fits(o, w, k)) ==> Exactly(o, w, failed, k)
      ensures var (o, w) := (Effective(StartOf(before, booting)), Effective(after));
        booting && Shaped(w) && old(Sound(k)) && Realises(w, k) ==> old(Between(o, w, true, k))
      ensures var (o, w) := (Effective(StartOf(before, booting)), Effective(after));
        OneBridgeEach(o) && OneBridgeEach(w) ==> forall c :: c in issued ==> Justified(o, w, booting, c)
      ensures var (o, w) := (Effective(StartOf(before, booting)), Effective(after));
        old(Appliable(o, w) && Between(o, w, booting, k)) ==>
        && Between(o, w, booting, k)
        && (!failed && lies == old(lies) ==> Realises(w, k))
        && UnfinishedAtMost(w, |errs| + (lies - old(lies)), k)
    {
      hide Effective, Appliable, Realises, Between, Prepared, VisitsAll, Justified, UnfinishedAtMost, Shaped, IsApplied;
      hide OneBridgeEach, VapsDefined, MayClash, MustClash, Sound, Exactly, SoundStays, Fits;
      var o := ComputeEffective(StartOf(before, booting));
      var w := ComputeEffective(after);
      EffectiveVaps(StartOf(before, booting));
      EffectiveVaps(after);
      if booting { EmptyStart(before); }
      Move(o, w, booting);
      failed := errs != [];
    }
  }
}
