/** Which members the bridges have while interfaces are configured one after another, and when one is refused. */
module Bridging {
  import opened Basics
  import opened Config
  import opened Kernel
  import opened EffectiveConfig
  import opened Agreement
  import opened SlotSteps

  function MembersIn(o: Option<Interface>): seq<Name> { if o.Some? then MembersOf(o.value) else [] }

  /** The pairs that configuring `n` deletes, and those that it adds. */
  function Dropped(n: Name, o: Option<Interface>, w: Option<Interface>): set<(Name, Name)> {
    if InterfaceKind(n) == BridgeKind then PairsOf(n, Minus(MembersIn(o), MembersIn(w))) else {}
  }

  function Added(n: Name, o: Option<Interface>, w: Option<Interface>): set<(Name, Name)> { Dropped(n, w, o) }

  /** No other bridge holds `m`. */
  ghost predicate FreeFor(n: Name, m: Name, links: set<(Name, Name)>) { forall d :: (d, m) in links ==> d == n }

  /** What configuring `n` does to the links, whatever fails. `obeys` says that the kernel decided, `there`
      that `n` existed. */
  ghost predicate LinkChange(n: Name, o: Option<Interface>, w: Option<Interface>, obeys: bool, there: bool,
                             links0: set<(Name, Name)>, links1: set<(Name, Name)>) {
    && links1 <= links0 + Added(n, o, w)
    && (if Recreated(n, o, w) then Without(links0, n) else links0) - Dropped(n, o, w) <= links1
    && (obeys ==> links1 !! Dropped(n, o, w))
    && (obeys && there && Recreated(n, o, w) ==> links1 <= Without(links0, n))
    && (forall l :: l in links1 && l !in links0 ==> FreeFor(l.0, l.1, links0))
  }

  lemma LinkChangeLess(n: Name, o: Option<Interface>, w: Option<Interface>, more: bool, less: bool, there: bool,
                       links0: set<(Name, Name)>, links1: set<(Name, Name)>)
    requires LinkChange(n, o, w, more, there, links0, links1) && (less ==> more)
    ensures LinkChange(n, o, w, less, there, links0, links1)
  {
    hide Dropped, Recreated;
  }

  /** Some member that `n` is to get is held by another bridge. */
  ghost predicate Blocked(n: Name, o: Option<Interface>, w: Option<Interface>, links: set<(Name, Name)>) {
    exists m :: (n, m) in Added(n, o, w) && (n, m) !in links && !FreeFor(n, m, links)
  }

  /** Bridges hold interfaces that exist. */
  ghost predicate LinksSound(k: Kernel) {
    forall l :: l in k.links ==> InterfaceKind(l.0) == BridgeKind && At(k, l.0).present && At(k, l.1).present
  }

  // ----- a member that changes bridges

  /** `b` is to get `m`, which `d` holds, and neither goes away before. */
  ghost predicate Conflict(o: Config, w: Config, links: set<(Name, Name)>, b: Name, d: Name, m: Name) {
    && (b, m) in LinksOf(w) && (b, m) !in LinksOf(o) && (d, m) in links && d != b && InterfaceKind(d) == BridgeKind
    && (d in w.interfaces || d !in o.interfaces) && !Recreated(m, Lookup(o, m), Lookup(w, m))
  }

  /** Configuring `d` takes `m` out of it. */
  predicate LetsGo(o: Config, w: Config, d: Name, m: Name) {
    (d, m) in LinksOf(o) && (d, m) !in LinksOf(w) && d in w.interfaces
  }

  /** The two predicates differ only for bridges that compare equal, which may be configured in either order. */
  ghost predicate May(o: Config, w: Config, links: set<(Name, Name)>, b: Name, d: Name, m: Name) {
    Conflict(o, w, links, b, d, m) && !(LetsGo(o, w, d, m) && Before(d, b))
  }

  ghost predicate Must(o: Config, w: Config, links: set<(Name, Name)>, b: Name, d: Name, m: Name) {
    Conflict(o, w, links, b, d, m) && (b, m) !in links && !(LetsGo(o, w, d, m) && !Before(b, d))
  }

  ghost predicate MayClash(o: Config, w: Config, links: set<(Name, Name)>) { exists b, d, m :: May(o, w, links, b, d, m) }

  ghost predicate MustClash(o: Config, w: Config, links: set<(Name, Name)>) { exists b, d, m :: Must(o, w, links, b, d, m) }

  /** No two bridges compare equal, as bridge1 and bridge01 do. */
  predicate Told(w: Config) {
    forall b, d :: b in w.interfaces && d in w.interfaces && InterfaceKind(b) == InterfaceKind(d) == BridgeKind && b != d ==>
      Before(b, d) || Before(d, b)
  }

  /** Then there is no difference. */
  lemma ToldExact(o: Config, w: Config, links: set<(Name, Name)>)
    requires Shaped(o) && Shaped(w) && Told(w)
    requires forall b, d, m :: (b, m) in links && (d, m) in links ==> b == d
    ensures MayClash(o, w, links) <==> MustClash(o, w, links)
  {
    hide Before, InterfaceKind, LinksOf;
    forall b, d, m ensures May(o, w, links, b, d, m) <==> Must(o, w, links, b, d, m) {
      if Conflict(o, w, links, b, d, m) && LetsGo(o, w, d, m) {
        LinkShape(w, b, m);
        NotBoth(b, d);
      }
    }
  }

  lemma NotBoth(a: Name, b: Name)
    ensures !(Before(a, b) && Before(b, a))
  {
    hide Before;
    if Before(a, b) && Before(b, a) {
      BeforeTransitive(a, b, a);
      BeforeIrreflexive(a);
    }
  }

  /** On a kernel that realises the old configuration: a member moves to a bridge that is configured
      before the one it leaves, and is not made anew on the way. */
  lemma ClashMeans(o: Config, w: Config)
    requires Shaped(o) && OneBridgeEach(o) && OneBridgeEach(w)
    ensures MayClash(o, w, LinksOf(o)) <==>
      exists b, d, m ::
        && (b, m) in LinksOf(w) && (d, m) in LinksOf(o) && b != d && d in w.interfaces && !Before(d, b)
        && !Recreated(m, Lookup(o, m), Lookup(w, m))
  {
    hide Before, InterfaceKind, LinksOf;
    forall b, d, m
      ensures May(o, w, LinksOf(o), b, d, m) <==>
        && (b, m) in LinksOf(w) && (d, m) in LinksOf(o) && b != d && d in w.interfaces && !Before(d, b)
        && !Recreated(m, Lookup(o, m), Lookup(w, m))
    {
      if (d, m) in LinksOf(o) { LinkShape(o, d, m); }
    }
  }

  // ----- interfaces configured one after another

  predicate Lost(o: Config, w: Config, done: set<Name>, l: (Name, Name)) {
    || (l.0 in done && l in LinksOf(o) && l !in LinksOf(w))
    || (l.0 in done && Recreated(l.0, Lookup(o, l.0), Lookup(w, l.0)))
    || (l.1 in done && Recreated(l.1, Lookup(o, l.1), Lookup(w, l.1)))
  }

  /** The links when the interfaces among `done` have been configured. */
  ghost predicate LinkHistory(o: Config, w: Config, done: set<Name>, obeys: bool, k0: Kernel, k1: Kernel) {
    && (forall l :: l in k1.links ==> l in k0.links || (l.0 in done && l in LinksOf(w) && l !in LinksOf(o)))
    && (forall l :: l in k0.links ==> l in k1.links || Lost(o, w, done, l))
    && (forall b, d, m :: b in done && Must(o, w, k0.links, b, d, m) ==> (b, m) !in k1.links)
    && (obeys ==> forall l :: l in k1.links && l.0 in done ==> !(l in LinksOf(o) && l !in LinksOf(w)))
    && (obeys ==> forall l :: l in k1.links && l.1 in done && Recreated(l.1, Lookup(o, l.1), Lookup(w, l.1)) && At(k0, l.1).present ==>
         l in LinksOf(w) && l !in LinksOf(o))
  }

  lemma NoHistory(o: Config, w: Config, obeys: bool, k: Kernel)
    ensures LinkHistory(o, w, {}, obeys, k, k)
  {
  }

  lemma AddedIsNew(o: Config, w: Config, n: Name, l: (Name, Name))
    requires Shaped(o) && Shaped(w)
    ensures l in Added(n, Lookup(o, n), Lookup(w, n)) <==> l.0 == n && l in LinksOf(w) && l !in LinksOf(o)
    ensures l in Dropped(n, Lookup(o, n), Lookup(w, n)) <==> l.0 == n && l in LinksOf(o) && l !in LinksOf(w)
  {
    assert l == (l.0, l.1);
    if l in LinksOf(w) { LinkShape(w, l.0, l.1); }
    if l in LinksOf(o) { LinkShape(o, l.0, l.1); }
  }

  /** One more interface, after everything that comes before it. */
  lemma HistoryNext(o: Config, w: Config, n: Name, done: set<Name>, obeys: bool, k0: Kernel, k1: Kernel, k2: Kernel)
    requires Shaped(o) && Shaped(w) && n in w.interfaces && n !in done && done <= w.interfaces.Keys
    requires LinkHistory(o, w, done, obeys, k0, k1) && At(k1, n).present == At(k0, n).present
    requires LinkChange(n, Lookup(o, n), Lookup(w, n), obeys, At(k1, n).present, k1.links, k2.links)
    requires forall d :: d in done ==> !Before(n, d)
    ensures LinkHistory(o, w, done + {n}, obeys, k0, k2)
  {
    hide LinksOf, Before, InterfaceKind, Dropped, Recreated;
    forall l ensures l in Added(n, Lookup(o, n), Lookup(w, n)) <==> l.0 == n && l in LinksOf(w) && l !in LinksOf(o)
      ensures l in Dropped(n, Lookup(o, n), Lookup(w, n)) <==> l.0 == n && l in LinksOf(o) && l !in LinksOf(w)
    {
      AddedIsNew(o, w, n, l);
    }
    forall b, d, m | b in done + {n} && Must(o, w, k0.links, b, d, m) ensures (b, m) !in k2.links {
      if b == n { StillHeld(o, w, n, done, obeys, k0, k1, d, m); }
    }
  }

  /** When `n` is configured, a member that it must be refused is still held by the other bridge. */
  lemma StillHeld(o: Config, w: Config, n: Name, done: set<Name>, obeys: bool, k0: Kernel, k1: Kernel, d: Name, m: Name)
    requires LinkHistory(o, w, done, obeys, k0, k1) && n !in done && done <= w.interfaces.Keys
    requires Must(o, w, k0.links, n, d, m) && forall d :: d in done ==> !Before(n, d)
    ensures (d, m) in k1.links && (n, m) !in k1.links && !FreeFor(n, m, k1.links)
  {
    hide LinksOf, Before;
  }

  /** Then the addition is refused. */
  lemma MustBlocks(o: Config, w: Config, n: Name, done: set<Name>, obeys: bool, k0: Kernel, k1: Kernel, d: Name, m: Name)
    requires Shaped(o) && Shaped(w) && LinkHistory(o, w, done, obeys, k0, k1) && n !in done && done <= w.interfaces.Keys
    requires Must(o, w, k0.links, n, d, m) && forall d :: d in done ==> !Before(n, d)
    ensures Blocked(n, Lookup(o, n), Lookup(w, n), k1.links)
  {
    hide LinksOf, Before, Added, Dropped;
    StillHeld(o, w, n, done, obeys, k0, k1, d, m);
    AddedIsNew(o, w, n, (n, m));
    assert (n, m) in Added(n, Lookup(o, n), Lookup(w, n));
  }

  /** No bridge that was taken away holds anything. */
  predicate Cleared(o: Config, w: Config, links: set<(Name, Name)>) {
    forall l :: l in links && l.0 in o.interfaces ==> l.0 in w.interfaces
  }

  /** Unless there may be a clash, whatever bridge held a new member has let go of it. */
  lemma MemberIsFree(o: Config, w: Config, n: Name, done: set<Name>, k0: Kernel, k1: Kernel, m: Name)
    requires Shaped(o) && Shaped(w) && OneBridgeEach(w) && LinksSound(k0) && Cleared(o, w, k0.links)
    requires LinkHistory(o, w, done, true, k0, k1) && !MayClash(o, w, k0.links)
    requires (n, m) in LinksOf(w) && (n, m) !in LinksOf(o) && m in done
    requires forall d :: d in w.interfaces && Before(d, n) ==> d in done
    ensures FreeFor(n, m, k1.links)
  {
    hide LinksOf, Before, Shaped;
    forall d | (d, m) in k1.links ensures d == n { assert !May(o, w, k0.links, n, d, m); }
  }
}
