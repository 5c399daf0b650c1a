/** The line diff of two configuration texts (netcli/internal/manager/manager.go). */
module LineDiff {
  import opened Basics

  // ----- lines of a text

  function TrimNewlines(s: string): (r: string)
    ensures r <= s && (r == [] || r[|r| - 1] != '\n')
    ensures forall i :: |r| <= i < |s| ==> s[i] == '\n'
  {
    if s != [] && s[|s| - 1] == '\n' then TrimNewlines(s[..|s| - 1]) else s
  }

  function LinesOf(text: string): seq<string> { Split(TrimNewlines(text)) }

  function Join(lines: seq<string>): string
    requires lines != []
  {
    if |lines| == 1 then lines[0] else lines[0] + "\n" + Join(lines[1..])
  }

  /** The lines of a text, put together again, are the text up to its trailing line feeds. */
  lemma LinesJoin(text: string)
    ensures Join(LinesOf(text)) == TrimNewlines(text) && forall l :: l in LinesOf(text) ==> '\n' !in l
  {
    JoinSplit(TrimNewlines(text));
  }

  lemma {:induction false} JoinSplit(s: string)
    ensures Join(Split(s)) == s
  {
    if s != [] {
      JoinSplit(s[1..]);
      var rest := Split(s[1..]);
      if s[0] == '\n' {
        assert ([[]] + rest)[1..] == rest;
      } else {
        assert ([[s[0]] + rest[0]] + rest[1..])[1..] == rest[1..];
      }
      assert s == [s[0]] + s[1..];
    }
  }

  // ----- longest common subsequences

  /** The length that the table is filled with. */
  function Lcs(a: seq<string>, b: seq<string>): nat
    decreases |a| + |b|
  {
    if a == [] || b == [] then 0
    else if a[0] == b[0] then 1 + Lcs(a[1..], b[1..])
    else if Lcs(a[1..], b) >= Lcs(a, b[1..]) then Lcs(a[1..], b)
    else Lcs(a, b[1..])
  }

  /** No common subsequence is longer. */
  lemma {:induction false} LcsBounds(s: seq<string>, a: seq<string>, b: seq<string>)
    requires Subsequence(s, a) && Subsequence(s, b)
    ensures |s| <= Lcs(a, b)
    decreases |a| + |b|
  {
    if s != [] {
      if a[0] == b[0] {
        SubsequenceTail(s, a);
        SubsequenceTail(s, b);
        LcsBounds(s[1..], a[1..], b[1..]);
      } else if s[0] == a[0] {
        LcsBounds(s, a, b[1..]);
      } else {
        LcsBounds(s, a[1..], b);
      }
    }
  }

  // ----- edit scripts

  datatype Edit = Keep(line: string) | Del(line: string) | Ins(line: string)

  /** The text before, the text after, and the lines that are in both. */
  function Old(e: seq<Edit>): seq<string> {
    if e == [] then [] else (if e[0].Ins? then [] else [e[0].line]) + Old(e[1..])
  }

  function New(e: seq<Edit>): seq<string> {
    if e == [] then [] else (if e[0].Del? then [] else [e[0].line]) + New(e[1..])
  }

  function Kept(e: seq<Edit>): seq<string> {
    if e == [] then [] else (if e[0].Keep? then [e[0].line] else []) + Kept(e[1..])
  }

  function Changes(e: seq<Edit>): nat {
    if e == [] then 0 else (if e[0].Keep? then 0 else 1) + Changes(e[1..])
  }

  ghost predicate Turns(e: seq<Edit>, a: seq<string>, b: seq<string>) { Old(e) == a && New(e) == b }

  /** The choices that the second loop makes from the table. */
  function Script(a: seq<string>, b: seq<string>): seq<Edit>
    decreases |a| + |b|
  {
    if a != [] && b != [] then
      if a[0] == b[0] then [Keep(a[0])] + Script(a[1..], b[1..])
      else if Lcs(a[1..], b) >= Lcs(a, b[1..]) then [Del(a[0])] + Script(a[1..], b)
      else [Ins(b[0])] + Script(a, b[1..])
    else if a != [] then [Del(a[0])] + Script(a[1..], b)
    else if b != [] then [Ins(b[0])] + Script(a, b[1..])
    else []
  }

  lemma {:induction false} ScriptTurns(a: seq<string>, b: seq<string>)
    ensures Turns(Script(a, b), a, b) && |Kept(Script(a, b))| == Lcs(a, b)
    decreases |a| + |b|
  {
    if a != [] && b != [] {
      if a[0] == b[0] {
        ScriptTurns(a[1..], b[1..]);
      } else if Lcs(a[1..], b) >= Lcs(a, b[1..]) {
        ScriptTurns(a[1..], b);
      } else {
        ScriptTurns(a, b[1..]);
      }
    } else if a != [] {
      ScriptTurns(a[1..], b);
    } else if b != [] {
      ScriptTurns(a, b[1..]);
    }
  }

  /** What any edit script keeps is common to both texts, and the rest is what it changes. */
  lemma {:induction false} KeptIsCommon(e: seq<Edit>)
    ensures Subsequence(Kept(e), Old(e)) && Subsequence(Kept(e), New(e))
    ensures Changes(e) == |Old(e)| + |New(e)| - 2 * |Kept(e)|
  {
    if e != [] {
      KeptIsCommon(e[1..]);
      var (k, o, n) := (Kept(e[1..]), Old(e[1..]), New(e[1..]));
      match e[0] {
        case Keep(l) => assert ([l] + k)[1..] == k && ([l] + o)[1..] == o && ([l] + n)[1..] == n;
        case Del(l) =>
          assert ([l] + o)[1..] == o && Kept(e) == k && New(e) == n;
          SubsequenceWiden(k, [l] + o);
        case Ins(l) =>
          assert ([l] + n)[1..] == n && Kept(e) == k && Old(e) == o;
          SubsequenceWiden(k, [l] + n);
      }
    }
  }

  /** The diff is a minimal edit script, and keeps a longest common subsequence. */
  lemma ScriptIsMinimal(a: seq<string>, b: seq<string>, e: seq<Edit>)
    requires Turns(e, a, b)
    ensures Turns(Script(a, b), a, b)
    ensures Changes(Script(a, b)) == |a| + |b| - 2 * Lcs(a, b) <= Changes(e)
    ensures Subsequence(Kept(Script(a, b)), a) && Subsequence(Kept(Script(a, b)), b)
  {
    ScriptTurns(a, b);
    KeptIsCommon(Script(a, b));
    KeptIsCommon(e);
    LcsBounds(Kept(e), a, b);
  }

  // ----- what is printed

  datatype Out = Context(line: string) | Minus(line: string) | Plus(line: string)

  predicate Indented(line: string) { line != [] && line[0] == ' ' }

  function OutOf(e: Edit): Out
    requires !e.Keep?
  {
    if e.Del? then Minus(e.line) else Plus(e.line)
  }

  /** Changed lines inside a section are preceded by its header, unless that was the last one printed. */
  function Render(e: seq<Edit>, header: string, printed: string): seq<Out> {
    if e == [] then []
    else
      var next := if Indented(e[0].line) then header else e[0].line;
      if e[0].Keep? then Render(e[1..], next, printed)
      else if Indented(e[0].line) && header != "" && header != printed
      then [Context(header)] + ([OutOf(e[0])] + Render(e[1..], next, header))
      else [OutOf(e[0])] + Render(e[1..], next, printed)
  }

  function LineText(o: Out): string {
    match o
    case Context(h) => "  " + h + "\n"
    case Minus(l) => "- " + l + "\n"
    case Plus(l) => "+ " + l + "\n"
  }

  function TextOf(out: seq<Out>): string { if out == [] then [] else LineText(out[0]) + TextOf(out[1..]) }

  /** The printed changes, each with the context line it stands under. */
  function Placed(out: seq<Out>, context: string): seq<(string, Out)> {
    if out == [] then []
    else if out[0].Context? then Placed(out[1..], out[0].line)
    else [(context, out[0])] + Placed(out[1..], context)
  }

  /** The changes of a script, each with the last unindented line of the merged script before it. */
  function Sections(e: seq<Edit>, header: string): seq<(string, Out)> {
    if e == [] then []
    else
      var next := if Indented(e[0].line) then header else e[0].line;
      (if e[0].Keep? then [] else [(header, OutOf(e[0]))]) + Sections(e[1..], next)
  }

  lemma PlacedChange(o: Out, rest: seq<Out>, context: string)
    requires !o.Context?
    ensures Placed([o] + rest, context) == [(context, o)] + Placed(rest, context)
  {
    assert ([o] + rest)[1..] == rest;
  }

  lemma PlacedContext(header: string, rest: seq<Out>, context: string)
    ensures Placed([Context(header)] + rest, context) == Placed(rest, header)
  {
    assert ([Context(header)] + rest)[1..] == rest;
  }

  /** The same changes in the same order, and every indented one stands under the last unindented
      line before it, if there is one. */
  predicate StandsUnder(p: seq<(string, Out)>, s: seq<(string, Out)>) {
    |p| == |s| && forall i :: 0 <= i < |s| ==>
      p[i].1 == s[i].1 && (Indented(s[i].1.line) && s[i].0 != "" ==> p[i].0 == s[i].0)
  }

  lemma StandsUnderCons(p: seq<(string, Out)>, s: seq<(string, Out)>, context: string, header: string, o: Out)
    requires StandsUnder(p, s) && (Indented(o.line) && header != "" ==> context == header)
    ensures StandsUnder([(context, o)] + p, [(header, o)] + s)
  {
  }

  /** Exactly the changes are printed, each indented one under the last unindented line of the merged
      script before it. */
  lemma {:induction false} RenderPlaces(e: seq<Edit>, header: string, printed: string)
    ensures StandsUnder(Placed(Render(e, header, printed), printed), Sections(e, header))
    ensures |Sections(e, header)| == Changes(e)
  {
    hide Placed, StandsUnder;
    if e == [] {
      NothingPlaced(printed);
    } else {
      var next := if Indented(e[0].line) then header else e[0].line;
      var shows := !e[0].Keep? && Indented(e[0].line) && header != "" && header != printed;
      var context := if shows then header else printed;
      RenderPlaces(e[1..], next, context);
      var rest := Render(e[1..], next, context);
      if e[0].Keep? {
        assert Sections(e, header) == Sections(e[1..], next);
      } else {
        PlacedChange(OutOf(e[0]), rest, context);
        if shows { PlacedContext(header, [OutOf(e[0])] + rest, printed); }
        StandsUnderCons(Placed(rest, context), Sections(e[1..], next), context, header, OutOf(e[0]));
      }
    }
  }

  lemma NothingPlaced(context: string)
    ensures Placed([], context) == [] && StandsUnder([], [])
  {
  }

  /** A header is printed only right before an indented change, and never again while it is the last one printed. */
  predicate Sparing(out: seq<Out>, printed: string) {
    if out == [] then true
    else if out[0].Context? then
      && out[0].line != "" && out[0].line != printed
      && |out| > 1 && !out[1].Context? && Indented(out[1].line)
      && Sparing(out[1..], out[0].line)
    else Sparing(out[1..], printed)
  }

  lemma {:induction false} RenderIsSparing(e: seq<Edit>, header: string, printed: string)
    ensures Sparing(Render(e, header, printed), printed)
  {
    if e != [] {
      var next := if Indented(e[0].line) then header else e[0].line;
      var shows := !e[0].Keep? && Indented(e[0].line) && header != "" && header != printed;
      var context := if shows then header else printed;
      RenderIsSparing(e[1..], next, context);
      if !e[0].Keep? {
        var rest := Render(e[1..], next, context);
        assert ([OutOf(e[0])] + rest)[1..] == rest;
        assert ([Context(header)] + ([OutOf(e[0])] + rest))[1..] == [OutOf(e[0])] + rest;
      }
    }
  }

  // ----- reading the printed text

  /** What stands behind the sign `c` on the lines that begin with it. */
  function Signed(lines: seq<string>, c: char): seq<string> {
    if lines == [] then []
    else (if |lines[0]| >= 2 && lines[0][..2] == [c, ' '] then [lines[0][2..]] else []) + Signed(lines[1..], c)
  }

  /** The lines that a script takes away, and those that it adds. */
  function Deleted(e: seq<Edit>): seq<string> {
    if e == [] then [] else (if e[0].Del? then [e[0].line] else []) + Deleted(e[1..])
  }

  function Inserted(e: seq<Edit>): seq<string> {
    if e == [] then [] else (if e[0].Ins? then [e[0].line] else []) + Inserted(e[1..])
  }

  /** The section headers that are printed. */
  function Contexts(out: seq<Out>): seq<string> {
    if out == [] then [] else (if out[0].Context? then [out[0].line] else []) + Contexts(out[1..])
  }

  /** The "-" lines of the printed text are the deleted lines and the "+" lines the added ones, in their order;
      the lines with a blank are the section headers. */
  lemma SignsMean(x: string, y: string)
    ensures var e := Script(LinesOf(x), LinesOf(y));
      var shown := Split(TextOf(Render(e, "", "")));
      && Signed(shown, '-') == Deleted(e) && Signed(shown, '+') == Inserted(e)
      && Signed(shown, ' ') == Contexts(Render(e, "", ""))
  {
    hide Script, LinesOf;
    LinesJoin(x);
    LinesJoin(y);
    var e := Script(LinesOf(x), LinesOf(y));
    ScriptIsPlain(LinesOf(x), LinesOf(y));
    RenderIsSigned(e, "", "");
  }

  ghost predicate Plain(e: seq<Edit>) { forall k :: 0 <= k < |e| ==> '\n' !in e[k].line }

  lemma {:induction false} ScriptIsPlain(a: seq<string>, b: seq<string>)
    requires (forall l :: l in a ==> '\n' !in l) && forall l :: l in b ==> '\n' !in l
    ensures Plain(Script(a, b))
    decreases |a| + |b|
  {
    if a != [] && b != [] {
      if a[0] == b[0] {
        ScriptIsPlain(a[1..], b[1..]);
      } else if Lcs(a[1..], b) >= Lcs(a, b[1..]) {
        ScriptIsPlain(a[1..], b);
      } else {
        ScriptIsPlain(a, b[1..]);
      }
    } else if a != [] {
      ScriptIsPlain(a[1..], b);
    } else if b != [] {
      ScriptIsPlain(a, b[1..]);
    }
  }

  lemma {:induction false} RenderIsSigned(e: seq<Edit>, header: string, printed: string)
    requires Plain(e) && '\n' !in header
    ensures var shown := Split(TextOf(Render(e, header, printed)));
      && Signed(shown, '-') == Deleted(e) && Signed(shown, '+') == Inserted(e)
      && Signed(shown, ' ') == Contexts(Render(e, header, printed))
  {
    hide Split;
    if e == [] {
      NoLines();
    } else {
      var next := if Indented(e[0].line) then header else e[0].line;
      var shows := !e[0].Keep? && Indented(e[0].line) && header != "" && header != printed;
      RenderIsSigned(e[1..], next, if shows then header else printed);
      var rest := Render(e[1..], next, if shows then header else printed);
      if !e[0].Keep? {
        OneLine(OutOf(e[0]), rest);
        if shows { OneLine(Context(header), [OutOf(e[0])] + rest); }
      }
    }
  }

  lemma NoLines()
    ensures forall c :: Signed(Split(""), c) == []
  {
  }

  /** One printed line is one line of the text. */
  lemma OneLine(o: Out, rest: seq<Out>)
    requires '\n' !in o.line
    ensures var (shown, more) := (Split(TextOf([o] + rest)), Split(TextOf(rest)));
      && Signed(shown, '-') == (if o.Minus? then [o.line] else []) + Signed(more, '-')
      && Signed(shown, '+') == (if o.Plus? then [o.line] else []) + Signed(more, '+')
      && Signed(shown, ' ') == (if o.Context? then [o.line] else []) + Signed(more, ' ')
      && Contexts([o] + rest) == (if o.Context? then [o.line] else []) + Contexts(rest)
  {
    var text := (if o.Context? then "  " else if o.Minus? then "- " else "+ ") + o.line;
    assert ([o] + rest)[1..] == rest && TextOf([o] + rest) == text + ("\n" + TextOf(rest));
    SplitLine(text, "\n" + TextOf(rest));
    assert ("\n" + TextOf(rest))[1..] == TextOf(rest);
    assert ([text] + Split(TextOf(rest)))[1..] == Split(TextOf(rest));
  }

  // ----- the section of a line in its own text

  /** The last unindented line. */
  function Header(lines: seq<string>, header: string): string {
    if lines == [] then header else Header(lines[1..], if Indented(lines[0]) then header else lines[0])
  }

  /** The last unindented line of the merged script before edit `k`. */
  function MergedHeader(e: seq<Edit>, k: nat, header: string): string
    requires k <= |e|
  {
    if k == 0 then header else MergedHeader(e[1..], k - 1, if Indented(e[0].line) then header else e[0].line)
  }

  /** That line, if it is a change of the other text. */
  function Intruder(e: seq<Edit>, k: nat, deleted: bool, last: Option<string>): Option<string>
    requires k <= |e|
  {
    if k == 0 then last
    else
      Intruder(e[1..], k - 1, deleted,
               if Indented(e[0].line) then last
               else if !e[0].Keep? && (e[0].Ins? <==> deleted) then Some(e[0].line) else None)
  }

  function Own(e: seq<Edit>, deleted: bool): seq<string> { if deleted then Old(e) else New(e) }

  lemma {:induction false} IntruderDecides(e: seq<Edit>, k: nat, deleted: bool, merged: string, own: string, last: Option<string>)
    requires k <= |e| && (last.None? ==> merged == own) && (last.Some? ==> merged == last.value)
    ensures var r := Intruder(e, k, deleted, last);
      && (r.None? ==> MergedHeader(e, k, merged) == Header(Own(e[..k], deleted), own))
      && (r.Some? ==> MergedHeader(e, k, merged) == r.value)
  {
    if k > 0 {
      var (line, plain) := (e[0].line, Indented(e[0].line));
      var mine := e[0].Keep? || (e[0].Del? <==> deleted);
      assert e[..k][1..] == e[1..][..k - 1];
      var rest := Own(e[1..][..k - 1], deleted);
      assert Own(e[..k], deleted) == (if mine then [line] else []) + rest;
      if mine { assert Own(e[..k], deleted)[1..] == rest; } else { assert [] + rest == rest; }
      IntruderDecides(e[1..], k - 1, deleted, if plain then merged else line, if mine && !plain then line else own,
                      if plain then last else if mine then None else Some(line));
    }
  }

  lemma {:induction false} SectionAt(e: seq<Edit>, k: nat, header: string)
    requires k < |e| && !e[k].Keep?
    ensures Changes(e[..k]) < |Sections(e, header)|
    ensures Sections(e, header)[Changes(e[..k])] == (MergedHeader(e, k, header), OutOf(e[k]))
  {
    if k > 0 {
      assert e[..k][1..] == e[1..][..k - 1];
      SectionAt(e[1..], k - 1, if Indented(e[0].line) then header else e[0].line);
    }
  }

  /** A change stands under the section that it has in its own text, the old one for a deleted line
      and the new one for an added line, exactly when the last unindented line of the merged script
      is not a change of the other text, or reads the same. */
  lemma OwnSectionExact(e: seq<Edit>, k: nat)
    requires k < |e| && !e[k].Keep?
    ensures var (own, intruder) := (Header(Own(e[..k], e[k].Del?), ""), Intruder(e, k, e[k].Del?, None));
      && Changes(e[..k]) < |Sections(e, "")| && Sections(e, "")[Changes(e[..k])].1 == OutOf(e[k])
      && (Sections(e, "")[Changes(e[..k])].0 == own <==> intruder.None? || intruder.value == own)
  {
    SectionAt(e, k, "");
    IntruderDecides(e, k, e[k].Del?, "", "", None);
  }

  /** It may be another one: the second line of section A is deleted, and printed under B. */
  lemma WrongSection()
    ensures var (a, b) := (["A", " k", " x"], ["A", "B", " k"]);
      && Script(a, b) == [Keep("A"), Ins("B"), Keep(" k"), Del(" x")]
      && Render(Script(a, b), "", "") == [Plus("B"), Context("B"), Minus(" x")]
      && Header(Old(Script(a, b)[..3]), "") == "A"
  {
    var (a, b) := (["A", " k", " x"], ["A", "B", " k"]);
    var e := [Keep("A"), Ins("B"), Keep(" k"), Del(" x")];
    assert a[1..] == [" k", " x"] && b[1..] == ["B", " k"] && a[1..][1..] == [" x"] && b[1..][1..] == [" k"];
    assert [" k"][1..] == [] && [" x"][1..] == [];
    assert Lcs([" x"], []) == 0 && Lcs([], [" k"]) == 0 && Lcs([" x"], [" k"]) == 0;
    assert Lcs([" x"], ["B", " k"]) == 0 by { assert ["B", " k"][1..] == [" k"]; }
    assert Lcs([" k", " x"], [" k"]) == 1;
    assert Script([" x"], []) == [Del(" x")];
    assert Script([" k", " x"], [" k"]) == [Keep(" k")] + [Del(" x")];
    assert Script([" k", " x"], ["B", " k"]) == [Ins("B")] + Script([" k", " x"], [" k"]);
    assert Script(a, b) == e;
    RenderWrong(e);
    assert e[..3] == [Keep("A"), Ins("B"), Keep(" k")];
    assert e[..3][1..] == [Ins("B"), Keep(" k")] && e[..3][1..][1..] == [Keep(" k")];
    assert [Keep(" k")][1..] == [] && Old([Keep(" k")]) == [" k"] + [];
    assert Old([Ins("B"), Keep(" k")]) == [] + Old([Keep(" k")]);
    assert Old(e[..3]) == ["A"] + [" k"] == ["A", " k"] && ["A", " k"][1..] == [" k"];
  }

  lemma RenderWrong(e: seq<Edit>)
    requires e == [Keep("A"), Ins("B"), Keep(" k"), Del(" x")]
    ensures Render(e, "", "") == [Plus("B"), Context("B"), Minus(" x")]
  {
    assert e[1..] == [Ins("B"), Keep(" k"), Del(" x")];
    assert [Ins("B"), Keep(" k"), Del(" x")][1..] == [Keep(" k"), Del(" x")] && [Keep(" k"), Del(" x")][1..] == [Del(" x")];
    assert Render([Del(" x")], "B", "") == [Context("B"), Minus(" x")];
    assert Render([Keep(" k"), Del(" x")], "B", "") == [Context("B"), Minus(" x")];
    assert Render([Ins("B"), Keep(" k"), Del(" x")], "A", "") == [Plus("B")] + [Context("B"), Minus(" x")];
  }

  /** Nothing is printed exactly when the line lists are equal. */
  lemma EmptyMeansEqual(a: seq<string>, b: seq<string>)
    ensures TextOf(Render(Script(a, b), "", "")) == "" <==> a == b
  {
    var e := Script(a, b);
    ScriptTurns(a, b);
    KeptIsCommon(e);
    RenderPlaces(e, "", "");
    var out := Render(e, "", "");
    assert TextOf(out) == "" <==> out == [];
    if a == b { AllCommon(a); } else if Changes(e) == 0 { NoChange(e); }
    if out == [] { assert Placed(out, "") == []; }
    if Changes(e) == 0 { NothingRendered(e, "", ""); }
  }

  lemma {:induction false} AllCommon(a: seq<string>)
    ensures Lcs(a, a) == |a|
  {
    if a != [] { AllCommon(a[1..]); }
  }

  lemma NoChange(e: seq<Edit>)
    requires Changes(e) == 0
    ensures Old(e) == New(e)
  {
  }

  lemma {:induction false} NothingRendered(e: seq<Edit>, header: string, printed: string)
    requires Changes(e) == 0
    ensures Render(e, header, printed) == []
  {
    if e != [] { NothingRendered(e[1..], if Indented(e[0].line) then header else e[0].line, printed); }
  }

  // ----- the algorithm

  lemma LcsStep(a: seq<string>, b: seq<string>, i: nat, j: nat)
    requires i <= |a| && j <= |b|
    ensures Lcs(a[i..], b[j..]) ==
      if i == |a| || j == |b| then 0
      else if a[i] == b[j] then Lcs(a[i + 1..], b[j + 1..]) + 1
      else if Lcs(a[i + 1..], b[j..]) >= Lcs(a[i..], b[j + 1..]) then Lcs(a[i + 1..], b[j..])
      else Lcs(a[i..], b[j + 1..])
  {
    assert i < |a| ==> a[i..][1..] == a[i + 1..];
    assert j < |b| ==> b[j..][1..] == b[j + 1..];
  }

  /** The table of suffix lengths, filled from the far corner. */
  method Table(a: seq<string>, b: seq<string>) returns (t: array2<nat>)
    ensures fresh(t) && t.Length0 == |a| + 1 && t.Length1 == |b| + 1
    ensures forall i, j :: 0 <= i <= |a| && 0 <= j <= |b| ==> t[i, j] == Lcs(a[i..], b[j..])
  {
    hide Lcs;
    var n, m := |a|, |b|;
    forall i, j | 0 <= i <= n && 0 <= j <= m && (i == n || j == m) ensures Lcs(a[i..], b[j..]) == 0 { LcsStep(a, b, i, j); }
    t := new nat[n + 1, m + 1]((i, j) => 0);
    for i := n downto 0
      invariant forall k, j :: i <= k <= n && 0 <= j <= m ==> t[k, j] == Lcs(a[k..], b[j..])
      invariant forall k, j :: 0 <= k < i && 0 <= j <= m ==> t[k, j] == 0
    {
      for j := m downto 0
        invariant forall k, l :: i < k <= n && 0 <= l <= m ==> t[k, l] == Lcs(a[k..], b[l..])
        invariant forall l :: j <= l <= m ==> t[i, l] == Lcs(a[i..], b[l..])
        invariant forall k, l :: 0 <= k < i && 0 <= l <= m ==> t[k, l] == 0
      {
        LcsStep(a, b, i, j);
        if a[i] == b[j] {
          t[i, j] := t[i + 1, j + 1] + 1;
        } else if t[i + 1, j] >= t[i, j + 1] {
          t[i, j] := t[i + 1, j];
        } else {
          t[i, j] := t[i, j + 1];
        }
      }
    }
  }

  /** emit: writes one changed line, with its section header where needed. */
  method Emit(e: Edit, header: string, printed: string, out: seq<Out>, ghost rest: seq<Edit>)
      returns (out': seq<Out>, header': string, printed': string)
    requires !e.Keep?
    ensures out' + Render(rest, header', printed') == out + Render([e] + rest, header, printed)
  {
    out', header', printed' := out, header, printed;
    assert ([e] + rest)[1..] == rest;
    if !Indented(e.line) {
      header' := e.line;
    } else if header != "" && header != printed {
      out', printed' := out' + [Context(header)], header;
    }
    out' := out' + [OutOf(e)];
  }

  /** Diff. */
  method Diff(x: string, y: string) returns (text: string)
    ensures text == TextOf(Render(Script(LinesOf(x), LinesOf(y)), "", ""))
  {
    hide Lcs, Render, Script, LinesOf, TextOf, Indented;
    var a, b := LinesOf(x), LinesOf(y);
    var t := Table(a, b);
    var i, j, header, printed := 0, 0, "", "";
    var out: seq<Out> := [];
    assert a[0..] == a && b[0..] == b;
    while i < |a| && j < |b|
      modifies {}
      invariant 0 <= i <= |a| && 0 <= j <= |b|
      invariant out + Render(Script(a[i..], b[j..]), header, printed) == Render(Script(a, b), "", "")
    {
      ScriptStep(a, b, i, j);
      var (drop, add) := (t[i + 1, j], t[i, j + 1]);
      if a[i] == b[j] {
        RenderKeep(a[i], Script(a[i + 1..], b[j + 1..]), header, printed);
        if !Indented(a[i]) { header := a[i]; }

        i, j := i + 1, j + 1;
      } else if drop >= add {
        out, header, printed := Emit(Del(a[i]), header, printed, out, Script(a[i + 1..], b[j..]));
        i := i + 1;
      } else {
        out, header, printed := Emit(Ins(b[j]), header, printed, out, Script(a[i..], b[j + 1..]));
        j := j + 1;
      }
    }
    while i < |a|
      invariant 0 <= i <= |a| && 0 <= j <= |b| && (i == |a| || j == |b|)
      invariant out + Render(Script(a[i..], b[j..]), header, printed) == Render(Script(a, b), "", "")
    {
      ScriptStep(a, b, i, j);
      out, header, printed := Emit(Del(a[i]), header, printed, out, Script(a[i + 1..], b[j..]));
      i := i + 1;
    }
    while j < |b|
      invariant i == |a| && 0 <= j <= |b|
      invariant out + Render(Script(a[i..], b[j..]), header, printed) == Render(Script(a, b), "", "")
    {
      ScriptStep(a, b, i, j);
      out, header, printed := Emit(Ins(b[j]), header, printed, out, Script(a[i..], b[j + 1..]));
      j := j + 1;
    }
    assert a[i..] == [] && b[j..] == [];
    RenderNothing(header, printed);
    assert out + [] == out;
    text := TextOf(out);
  }

  lemma RenderNothing(header: string, printed: string)
    ensures Render([], header, printed) == [] && Script([], []) == []
  {
  }

  lemma ScriptStep(a: seq<string>, b: seq<string>, i: nat, j: nat)
    requires i <= |a| && j <= |b| && (i < |a| || j < |b|)
    ensures Script(a[i..], b[j..]) ==
      if i < |a| && j < |b| && a[i] == b[j] then [Keep(a[i])] + Script(a[i + 1..], b[j + 1..])
      else if i < |a| && (j == |b| || Lcs(a[i + 1..], b[j..]) >= Lcs(a[i..], b[j + 1..]))
      then [Del(a[i])] + Script(a[i + 1..], b[j..])
      else [Ins(b[j])] + Script(a[i..], b[j + 1..])
  {
    assert i < |a| ==> a[i..][1..] == a[i + 1..];
    assert j < |b| ==> b[j..][1..] == b[j + 1..];
  }

  lemma RenderKeep(line: string, rest: seq<Edit>, header: string, printed: string)
    ensures Render([Keep(line)] + rest, header, printed) == Render(rest, if Indented(line) then header else line, printed)
  {
    assert ([Keep(line)] + rest)[1..] == rest;
  }
}
