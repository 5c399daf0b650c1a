/** Editing access lists (netcli/internal/cli/cmd_config.go), and what each edit does to their decisions. */
module AclEdit {
  import opened Basics
  import opened Config
  import opened AccessList
  import AceText

  datatype Edit = Changed | NoChange | Failed

  // ----- what the commands do to the entries

  function LastSeq(s: seq<Ace>): (last: int)
    ensures last >= 0 && forall x :: x in s ==> x.seqNo <= last
  {
    if s == [] then 0
    else
      var front := LastSeq(s[..|s| - 1]);
      var x := s[|s| - 1];
      assert s == s[..|s| - 1] + [x];
      if x.seqNo > front then x.seqNo else front
  }

  /** The next multiple of ten. */
  function NextSeq(s: seq<Ace>): int { (LastSeq(s) / 10 + 1) * 10 }

  /** A multiple of ten that comes after every entry. */
  predicate IsNext(s: seq<Ace>, n: int) { n > 0 && n % 10 == 0 && forall x :: x in s ==> x.seqNo < n }

  /** It is the least of them. */
  lemma NextSeqIsLeast(s: seq<Ace>)
    ensures IsNext(s, NextSeq(s)) && forall n :: IsNext(s, n) ==> NextSeq(s) <= n
  {
    LastSeqIsThere(s);
  }

  lemma {:induction false} LastSeqIsThere(s: seq<Ace>)
    ensures LastSeq(s) == 0 || exists x :: x in s && x.seqNo == LastSeq(s)
  {
    if s != [] {
      LastSeqIsThere(s[..|s| - 1]);
      assert s == s[..|s| - 1] + [s[|s| - 1]];
    }
  }

  ghost function Add(s: seq<Ace>, seqNo: Option<int>, e: Ace): (Edit, seq<Ace>) {
    if seqNo.Some? then
      if exists x :: x in s && x.seqNo == seqNo.value then (Failed, s) else (Changed, s + [e.(seqNo := seqNo.value)])
    else if exists x :: x in s && AceText.SameRule(x, e) then (NoChange, s)
    else (Changed, s + [e.(seqNo := NextSeq(s))])
  }

  /** The entries of `s` that do not satisfy `drop`. */
  ghost function Without(s: seq<Ace>, drop: Ace -> bool): seq<Ace> {
    if s == [] then [] else Without(s[..|s| - 1], drop) + if drop(s[|s| - 1]) then [] else [s[|s| - 1]]
  }

  ghost function IsRule(e: Ace): Ace -> bool { x => AceText.SameRule(x, e) }

  ghost function HasSeq(n: int): Ace -> bool { (x: Ace) => x.seqNo == n }

  function Renumber(s: seq<Ace>): seq<Ace> { seq(|s|, i requires 0 <= i < |s| => s[i].(seqNo := (i + 1) * 10)) }

  // ----- the commands

  method IsTaken(entries: seq<Ace>, n: int) returns (taken: bool)
    ensures taken <==> exists x :: x in entries && x.seqNo == n
  {
    for i := 0 to |entries|
      invariant forall j :: 0 <= j < i ==> entries[j].seqNo != n
    {
      if entries[i].seqNo == n {
        assert entries[i] in entries;
        return true;
      }
    }
    taken := false;
  }

  /** The number of a new entry, unless the list already has the rule. */
  method NumberFor(entries: seq<Ace>, e: Ace) returns (n: Option<int>)
    ensures n == if exists x :: x in entries && AceText.SameRule(x, e) then None else Some(NextSeq(entries))
  {
    hide AceText.SameRule;
    var last := 0;
    for i := 0 to |entries|
      invariant forall j :: 0 <= j < i ==> !AceText.SameRule(entries[j], e)
      invariant last == LastSeq(entries[..i])
    {
      var same := AceText.IsSameRule(entries[i], e);
      if same {
        assert entries[i] in entries;
        return None;
      }
      assert entries[..i + 1][..i] == entries[..i];
      last := if last > entries[i].seqNo then last else entries[i].seqNo;
    }
    assert entries[..|entries|] == entries;
    n := Some((last / 10 + 1) * 10);
  }

  /** The access lists of the configuration that is being changed. */
  class Lists {
    var acls: map<string, seq<Ace>>

    constructor (acls: map<string, seq<Ace>>)
      ensures this.acls == acls
    {
      this.acls := acls;
    }

    ghost function Entries(name: string): seq<Ace>
      reads this
    {
      if name in acls then acls[name] else []
    }

    ghost predicate OthersKept(name: string, was: map<string, seq<Ace>>)
      reads this
    {
      forall m :: m != name ==> (m in acls <==> m in was) && (m in acls ==> acls[m] == was[m])
    }

    /** addEntry. A list is created by its first entry. */
    method AddEntry(name: string, seqNo: Option<int>, e: Ace) returns (o: Edit)
      modifies this
      ensures (o, Entries(name)) == Add(old(Entries(name)), seqNo, e) && name in acls && OthersKept(name, old(acls))
      ensures o == Failed <==> seqNo.Some? && exists x :: x in old(Entries(name)) && x.seqNo == seqNo.value
      ensures o == NoChange <==> seqNo.None? && exists x :: x in old(Entries(name)) && AceText.SameRule(x, e)
      ensures o != Changed ==> Entries(name) == old(Entries(name))
    {
      hide AceText.SameRule, NextSeq;
      if name !in acls { acls := acls[name := []]; }
      var entries := acls[name];
      var n: Option<int>;
      if seqNo.Some? {
        var taken := IsTaken(entries, seqNo.value);
        if taken { return Failed; }
        n := seqNo;
      } else {
        n := NumberFor(entries, e);
        if n.None? { return NoChange; }
      }
      acls := acls[name := entries + [e.(seqNo := n.value)]];
      o := Changed;
    }

    /** delEntry: every entry that is the same rule goes. */
    method DeleteRule(name: string, e: Ace) returns (o: Edit)
      modifies this
      ensures Entries(name) == Without(old(Entries(name)), IsRule(e)) && OthersKept(name, old(acls))
      ensures o == if Entries(name) == old(Entries(name)) then Failed else Changed
    {
      if name !in acls { return Failed; }
      var entries, left := acls[name], [];
      ghost var drop := IsRule(e);
      for i := 0 to |entries|
        invariant acls == old(acls) && left == Without(entries[..i], drop)
        invariant |left| <= i && (|left| == i ==> left == entries[..i])
      {
        assert entries[..i + 1][..i] == entries[..i];
        var same := AceText.IsSameRule(entries[i], e);
        if !same { left := left + [entries[i]]; }
      }
      assert entries[..|entries|] == entries;
      acls := acls[name := left];
      o := if |left| == |entries| then Failed else Changed;
    }

    /** "no SEQ". */
    method DeleteSeq(name: string, seqNo: int) returns (o: Edit)
      modifies this
      ensures Entries(name) == Without(old(Entries(name)), HasSeq(seqNo)) && OthersKept(name, old(acls))
      ensures o == if Entries(name) == old(Entries(name)) then Failed else Changed
    {
      if name !in acls { return Failed; }
      var entries, left := acls[name], [];
      ghost var drop := HasSeq(seqNo);
      for i := 0 to |entries|
        invariant acls == old(acls) && left == Without(entries[..i], drop)
        invariant |left| <= i && (|left| == i ==> left == entries[..i])
      {
        assert entries[..i + 1][..i] == entries[..i];
        if entries[i].seqNo != seqNo { left := left + [entries[i]]; }
      }
      assert entries[..|entries|] == entries;
      acls := acls[name := left];
      o := if |left| == |entries| then Failed else Changed;
    }

    method Resequence(name: string) returns (o: Edit)
      modifies this
      ensures Entries(name) == Renumber(old(Entries(name))) && OthersKept(name, old(acls))
      ensures o == if name in old(acls) then Changed else NoChange
    {
      if name !in acls { return NoChange; }
      var entries := acls[name];
      ghost var was := entries;
      for i := 0 to |entries|
        invariant |entries| == |was|
        invariant forall j :: 0 <= j < |was| ==> entries[j] == if j < i then was[j].(seqNo := (j + 1) * 10) else was[j]
      {
        entries := entries[i := entries[i].(seqNo := (i + 1) * 10)];
      }
      assert entries == Renumber(was);
      acls := acls[name := entries];
      o := Changed;
    }
  }

  // ----- what the edits mean

  predicate StrictlySorted(s: seq<Ace>) { forall i, j :: 0 <= i < j < |s| ==> s[i].seqNo < s[j].seqNo }

  /** The lists of every recorded configuration are strictly sorted. */
  lemma RecordedListsSorted(c: Config, name: string)
    requires Normalized(c) && Valid(c) && name in c.acls
    ensures StrictlySorted(c.acls[name])
  {
    var s := c.acls[name];
    assert ValidEntries(s) && SortedEntries(s);
    forall i, j | 0 <= i < j < |s| ensures s[i].seqNo < s[j].seqNo {
      assert s[i].seqNo != s[j].seqNo;
    }
  }

  lemma {:induction false} FirstMatchConcat(a: seq<Ace>, b: seq<Ace>, p: Packet)
    ensures FirstMatch(a + b, p) == if FirstMatch(a, p) < |a| then FirstMatch(a, p) else |a| + FirstMatch(b, p)
  {
    if a == [] {
      assert a + b == b;
    } else if !Matches(a[0], p) {
      assert (a + b)[1..] == a[1..] + b;
      FirstMatchConcat(a[1..], b, p);
    }
  }

  /** A decision of two lists after each other. */
  lemma PermitsConcat(a: seq<Ace>, b: seq<Ace>, p: Packet)
    ensures Permits(a + b, p) <==> if FirstMatch(a, p) < |a| then Permits(a, p) else Permits(b, p)
  {
    hide Matches, FirstMatch;
    FirstMatchConcat(a, b, p);
    var (i, j, k) := (FirstMatch(a, p), FirstMatch(b, p), FirstMatch(a + b, p));
    if i < |a| {
      assert k == i && (a + b)[i] == a[i];
    } else if j < |b| {
      assert k == |a| + j && (a + b)[k] == b[j];
    }
  }

  lemma NumberIsIrrelevant(e: Ace, n: int, p: Packet)
    ensures Matches(e.(seqNo := n), p) <==> Matches(e, p)
  {
  }

  lemma PermitsOne(e: Ace, p: Packet)
    ensures FirstMatch([e], p) == (if Matches(e, p) then 0 else 1) && (Permits([e], p) <==> Matches(e, p) && e.permit)
  {
  }

  lemma AutoNumberSorts(s: seq<Ace>, n: Ace)
    requires StrictlySorted(s) && n.seqNo == NextSeq(s)
    ensures SortEntries(s + [n]) == s + [n] && StrictlySorted(s + [n]) && n.seqNo > 0 && n.seqNo % 10 == 0
  {
    hide SortEntries, LastSeq;
    forall i | 0 <= i < |s| ensures s[i].seqNo < n.seqNo { assert s[i] in s; }
    SortedIsFixed(s + [n]);
  }

  /** An auto-numbered entry goes to the end of the list, and decides only about packets that
      had reached the implicit deny. */
  lemma AutoNumberMeans(s: seq<Ace>, e: Ace, p: Packet)
    requires StrictlySorted(s)
    ensures var n := e.(seqNo := NextSeq(s));
      && SortEntries(s + [n]) == s + [n] && StrictlySorted(s + [n]) && n.seqNo > 0 && n.seqNo % 10 == 0
      && (Permits(s + [n], p) <==> if FirstMatch(s, p) < |s| then Permits(s, p) else Matches(e, p) && e.permit)
  {
    hide Matches, FirstMatch, Permits, SortEntries, StrictlySorted, NextSeq;
    var n := e.(seqNo := NextSeq(s));
    AutoNumberSorts(s, n);
    PermitsConcat(s, [n], p);
    PermitsOne(n, p);
    NumberIsIrrelevant(e, NextSeq(s), p);
  }

  /** Where an entry with this sequence number belongs. */
  lemma {:induction false} InsertSplits(s: seq<Ace>, e: Ace) returns (k: nat)
    requires StrictlySorted(s) && forall x :: x in s ==> x.seqNo != e.seqNo
    ensures k <= |s| && InsertEntry(s, e) == s[..k] + [e] + s[k..]
    ensures forall i :: 0 <= i < |s| ==> (s[i].seqNo < e.seqNo <==> i < k)
  {
    if s == [] || s[|s| - 1].seqNo <= e.seqNo {
      k := |s|;
      assert s[..k] == s && s[k..] == [];
      if s != [] { assert s[|s| - 1] in s; }
    } else {
      var front := s[..|s| - 1];
      k := InsertSplits(front, e);
      assert s[..k] == front[..k] && s[k..] == front[k..] + [s[|s| - 1]];
      assert forall i :: 0 <= i < |front| ==> front[i] == s[i];
    }
  }

  /** An entry inserted with a new sequence number decides only about packets that no lower
      entry matches; all other decisions stay. */
  lemma InsertMeans(s: seq<Ace>, e: Ace, p: Packet)
    requires StrictlySorted(s) && forall x :: x in s ==> x.seqNo != e.seqNo
    ensures var r := SortEntries(s + [e]);
      && StrictlySorted(r) && multiset(r) == multiset(s + [e])
      && (Permits(r, p) <==>
           if FirstMatch(s, p) < |s| && s[FirstMatch(s, p)].seqNo < e.seqNo then Permits(s, p)
           else if Matches(e, p) then e.permit else Permits(s, p))
  {
    hide Matches, FirstMatch, Permits, SortEntries, InsertEntry, StrictlySorted;
    SortSnoc(s, e);
    var k := InsertSplits(s, e);
    InsertSorted(s, e, k);
    InsertDecides(s, e, k, p);
    SortEntriesSorts(s + [e]);
  }

  lemma InsertSorted(s: seq<Ace>, e: Ace, k: nat)
    requires StrictlySorted(s) && k <= |s| && forall i :: 0 <= i < |s| ==> (s[i].seqNo < e.seqNo <==> i < k)
    requires forall x :: x in s ==> x.seqNo != e.seqNo
    ensures StrictlySorted(s[..k] + [e] + s[k..])
  {
    assert forall i :: k <= i < |s| ==> s[i] in s && s[i].seqNo > e.seqNo;
  }

  lemma InsertDecides(s: seq<Ace>, e: Ace, k: nat, p: Packet)
    requires k <= |s| && forall i :: 0 <= i < |s| ==> (s[i].seqNo < e.seqNo <==> i < k)
    ensures Permits(s[..k] + [e] + s[k..], p) <==>
      if FirstMatch(s, p) < k then Permits(s, p) else if Matches(e, p) then e.permit else Permits(s, p)
  {
    hide Matches, FirstMatch, Permits;
    var (lower, higher) := (s[..k], s[k..]);
    assert s == lower + higher && lower + [e] + higher == lower + ([e] + higher);
    PermitsConcat(lower, higher, p);
    PermitsConcat(lower, [e] + higher, p);
    PermitsConcat([e], higher, p);
    PermitsOne(e, p);
    FirstMatchConcat(lower, higher, p);
  }

  lemma {:induction false} SameMatches(a: seq<Ace>, b: seq<Ace>, p: Packet)
    requires |a| == |b| && forall i :: 0 <= i < |a| ==> (Matches(a[i], p) <==> Matches(b[i], p)) && a[i].permit == b[i].permit
    ensures FirstMatch(a, p) == FirstMatch(b, p) && (Permits(a, p) <==> Permits(b, p))
  {
    if a != [] {
      forall i | 0 <= i < |a| - 1
        ensures (Matches(a[1..][i], p) <==> Matches(b[1..][i], p)) && a[1..][i].permit == b[1..][i].permit
      {
        assert a[1..][i] == a[i + 1] && b[1..][i] == b[i + 1];
      }
      SameMatches(a[1..], b[1..], p);
    }
  }

  lemma {:induction false} RenumberedTo(s: seq<Ace>, i: nat)
    requires i <= |s|
    ensures LastSeq(Renumber(s)[..i]) == 10 * i
    ensures i < |s| ==> Renumber(s)[i].seqNo == NextSeq(Renumber(s)[..i])
  {
    if i > 0 {
      RenumberedTo(s, i - 1);
      assert Renumber(s)[..i][..i - 1] == Renumber(s)[..i - 1];
    }
  }

  /** Renumbering keeps the order of the entries and every decision. Each entry has the number that it would
      get if it were added after those before it. */
  lemma ResequenceMeans(s: seq<Ace>, p: Packet)
    ensures forall i :: 0 <= i < |s| ==> Renumber(s)[i].seqNo == NextSeq(Renumber(s)[..i])
    ensures StrictlySorted(Renumber(s)) && SortEntries(Renumber(s)) == Renumber(s)
    ensures Permits(Renumber(s), p) <==> Permits(s, p)
  {
    SortedIsFixed(Renumber(s));
    forall i | 0 <= i < |s| ensures Renumber(s)[i].seqNo == NextSeq(Renumber(s)[..i]) {
      hide NextSeq, Renumber;
      RenumberedTo(s, i);
    }
    hide NextSeq, LastSeq;
    forall i | 0 <= i < |s| ensures Matches(s[i], p) <==> Matches(Renumber(s)[i], p) {}
    SameMatches(s, Renumber(s), p);
  }

  lemma {:induction false} WithoutHas(s: seq<Ace>, drop: Ace -> bool)
    ensures forall x :: x in Without(s, drop) <==> x in s && !drop(x)
    ensures StrictlySorted(s) ==> StrictlySorted(Without(s, drop))
  {
    if s != [] {
      var (front, last) := (s[..|s| - 1], s[|s| - 1]);
      assert s == front + [last];
      WithoutHas(front, drop);
      forall i | 0 <= i < |Without(front, drop)| ensures Without(front, drop)[i] in front {
        assert Without(front, drop)[i] in Without(front, drop);
      }
    }
  }

  /** Deleting entries keeps every decision made by an entry that stays, and by the implicit deny. */
  lemma {:induction false} DeleteMeans(s: seq<Ace>, drop: Ace -> bool, p: Packet)
    ensures FirstMatch(s, p) == |s| ==> FirstMatch(Without(s, drop), p) == |Without(s, drop)|
    ensures FirstMatch(s, p) < |s| && !drop(s[FirstMatch(s, p)]) ==>
      FirstMatch(Without(s, drop), p) < |Without(s, drop)|
    ensures FirstMatch(s, p) == |s| || !drop(s[FirstMatch(s, p)]) ==> (Permits(Without(s, drop), p) <==> Permits(s, p))
  {
    hide Matches, FirstMatch;
    if s != [] {
      var (front, last) := (s[..|s| - 1], s[|s| - 1]);
      var left := Without(front, drop);
      assert s == front + [last] && Without(s, drop) == if drop(last) then left else left + [last];
      DeleteMeans(front, drop, p);
      assert FirstMatch(front, p) < |front| ==> s[FirstMatch(front, p)] == front[FirstMatch(front, p)];
      FirstMatchConcat(front, [last], p);
      FirstMatchConcat(left, [last], p);
      PermitsConcat(front, [last], p);
      PermitsConcat(left, [last], p);
      PermitsOne(last, p);
    }
  }

  /** Leaving out an entry that the list already has loses nothing. */
  lemma NoChangeIsRight(s: seq<Ace>, e: Ace, p: Packet)
    requires Add(s, None, e).0 == NoChange && AceText.Readable(e) && forall x :: x in s ==> AceText.Readable(x)
    ensures Permits(s + [e], p) <==> Permits(s, p)
  {
    var x :| x in s && AceText.SameRule(x, e);
    AceText.SameRuleMeans(x, e);
    assert Matches(x, p) <==> Matches(e, p);
    PermitsConcat(s, [e], p);
  }

  lemma {:induction false} NothingToDrop(s: seq<Ace>, drop: Ace -> bool)
    requires forall x :: x in s ==> !drop(x)
    ensures Without(s, drop) == s
  {
    if s != [] {
      assert s == s[..|s| - 1] + [s[|s| - 1]];
      NothingToDrop(s[..|s| - 1], drop);
    }
  }

  lemma NumberKeepsRule(e: Ace, n: int)
    ensures AceText.SameRule(e.(seqNo := n), e)
  {
  }

  /** "no" with the rule takes back what adding it did. */
  lemma DeleteUndoesAdd(s: seq<Ace>, e: Ace)
    requires Add(s, None, e).0 == Changed
    ensures Without(Add(s, None, e).1, IsRule(e)) == s
  {
    hide AceText.SameRule, NextSeq;
    var drop := IsRule(e);
    var n := e.(seqNo := NextSeq(s));
    assert (s + [n])[..|s|] == s;
    NothingToDrop(s, drop);
    NumberKeepsRule(e, NextSeq(s));
  }

  /** So does "no" with the sequence number. */
  lemma DeleteSeqUndoesAdd(s: seq<Ace>, n: int, e: Ace)
    requires StrictlySorted(s) && Add(s, Some(n), e).0 == Changed
    ensures Without(SortEntries(Add(s, Some(n), e).1), HasSeq(n)) == s
  {
    hide SortEntries, Without;
    var drop := HasSeq(n);
    var entry := e.(seqNo := n);
    SortSnoc(s, entry);
    var k := InsertSplits(s, entry);
    WithoutConcat(s[..k] + [entry], s[k..], drop);
    WithoutConcat(s[..k], [entry], drop);
    NothingToDrop(s[..k], drop);
    NothingToDrop(s[k..], drop);
    DropOne(entry, drop);
    assert s == s[..k] + s[k..];
  }

  lemma SortSnoc(s: seq<Ace>, e: Ace)
    requires StrictlySorted(s)
    ensures SortEntries(s + [e]) == InsertEntry(s, e)
  {
    assert (s + [e])[..|s|] == s;
    SortedIsFixed(s);
  }

  lemma DropOne(e: Ace, drop: Ace -> bool)
    requires drop(e)
    ensures Without([e], drop) == []
  {
  }

  lemma {:induction false} WithoutConcat(a: seq<Ace>, b: seq<Ace>, drop: Ace -> bool)
    ensures Without(a + b, drop) == Without(a, drop) + Without(b, drop)
  {
    if b == [] {
      assert a + b == a;
    } else {
      assert (a + b)[..|a + b| - 1] == a + b[..|b| - 1];
      WithoutConcat(a, b[..|b| - 1], drop);
    }
  }
}
