/** Splitting a command line into words, and quoting a word so that it survives
    (netcli/internal/cli/parser.go). */
module Tokenizer {
  import opened Basics

  /** A word, and where it stands in the line. */
  datatype Token = Token(text: string, start: nat, end: nat)

  predicate IsBlank(c: char) { c == ' ' || c == '\t' }

  // ----- one word

  /** What the inner loop makes of the rest of a line: the text of the word, how many
      characters it takes, and whether a quote is left open. */
  datatype Scanned = Scanned(text: string, used: nat, open: bool)

  function Scan(s: string, inQuote: bool): (r: Scanned)
    ensures r.used <= |s|
    ensures r.open ==> r.used == |s|
    ensures r.used < |s| ==> IsBlank(s[r.used])
    ensures !inQuote && s != [] && !IsBlank(s[0]) ==> r.used > 0
  {
    if s == [] then Scanned([], 0, inQuote)
    else if inQuote then
      if s[0] == '\\' && |s| > 1 then
        var r := Scan(s[2..], true);
        Scanned([s[1]] + r.text, r.used + 2, r.open)
      else if s[0] == '"' then
        var r := Scan(s[1..], false);
        Scanned(r.text, r.used + 1, r.open)
      else
        var r := Scan(s[1..], true);
        Scanned([s[0]] + r.text, r.used + 1, r.open)
    else if IsBlank(s[0]) then Scanned([], 0, false)
    else
      var r := Scan(s[1..], s[0] == '"');
      Scanned(if s[0] == '"' then r.text else [s[0]] + r.text, r.used + 1, r.open)
  }

  /** The words of the line from position `i` on, if every quote is closed. */
  function Words(line: string, i: nat): (r: Option<seq<Token>>)
    requires i <= |line|
    decreases |line| - i
  {
    if i == |line| then Some([])
    else if IsBlank(line[i]) then Words(line, i + 1)
    else
      var w := Scan(line[i..], false);
      if w.open then None
      else
        var rest := Words(line, i + w.used);
        if rest.None? then None else Some([Token(w.text, i, i + w.used)] + rest.value)
  }

  /** The inner loop: reads one word. */
  method ReadWord(line: string, start: nat) returns (text: string, end: nat, open: bool)
    requires start <= |line|
    ensures start <= end <= |line| && Scanned(text, end - start, open) == Scan(line[start..], false)
  {
    hide Scan;
    text, end, open := [], start, false;
    ghost var w := Scan(line[start..], false);
    while end < |line|
      invariant start <= end <= |line|
      invariant var r := Scan(line[end..], open); w == Scanned(text + r.text, end - start + r.used, r.open)
    {
      var ch := line[end];
      ScanStep(line, end, open);
      if open {
        if ch == '\\' && end + 1 < |line| {
          text, end := text + [line[end + 1]], end + 2;
        } else if ch == '"' {
          open, end := false, end + 1;
        } else {
          text, end := text + [ch], end + 1;
        }
      } else {
        if IsBlank(ch) { return; }
        if ch == '"' {
          open, end := true, end + 1;
        } else {
          text, end := text + [ch], end + 1;
        }
      }
    }
    assert line[end..] == [];
    ScanEnd(open);
  }

  lemma ScanEnd(inQuote: bool)
    ensures Scan([], inQuote) == Scanned([], 0, inQuote)
  {
  }

  /** tokenize. On failure the words before the open quote are returned. */
  method Tokenize(line: string) returns (toks: seq<Token>, ok: bool)
    ensures ok <==> Words(line, 0).Some?
    ensures ok ==> toks == Words(line, 0).value
  {
    hide Scan, IsBlank;
    toks, ok := [], true;
    var i := 0;
    while i < |line|
      invariant 0 <= i <= |line| && (Words(line, 0).Some? <==> Words(line, i).Some?)
      invariant Words(line, i).Some? ==> Words(line, 0).value == toks + Words(line, i).value
    {
      ghost var from := i;
      while i < |line| && IsBlank(line[i])
        invariant from <= i <= |line| && Words(line, from) == Words(line, i)
      {
        i := i + 1;
      }
      if i >= |line| { break; }
      var text, end, open := ReadWord(line, i);
      if open { return toks, false; }
      assert line[i..][0] == line[i];
      ScanProgress(line[i..]);
      toks, i := toks + [Token(text, i, end)], end;
    }
  }

  lemma ScanProgress(s: string)
    requires s != [] && !IsBlank(s[0])
    ensures Scan(s, false).used > 0
  {
  }

  lemma ScanStep(line: string, i: nat, inQuote: bool)
    requires i < |line|
    ensures var (s, r) := (line[i], Scan(line[i..], inQuote));
      && (inQuote && s == '\\' && i + 1 < |line| ==>
           var t := Scan(line[i + 2..], true); r == Scanned([line[i + 1]] + t.text, t.used + 2, t.open))
      && (inQuote && s == '"' ==> var t := Scan(line[i + 1..], false); r == Scanned(t.text, t.used + 1, t.open))
      && (inQuote && s != '"' && (s != '\\' || i + 1 == |line|) ==>
           var t := Scan(line[i + 1..], true); r == Scanned([s] + t.text, t.used + 1, t.open))
      && (!inQuote && IsBlank(s) ==> r == Scanned([], 0, false))
      && (!inQuote && s == '"' ==> var t := Scan(line[i + 1..], true); r == Scanned(t.text, t.used + 1, t.open))
      && (!inQuote && s != '"' && !IsBlank(s) ==>
           var t := Scan(line[i + 1..], false); r == Scanned([s] + t.text, t.used + 1, t.open))
  {
    assert line[i..][1..] == line[i + 1..];
    assert i + 1 < |line| ==> line[i..][2..] == line[i + 2..] && line[i..][1] == line[i + 1];
  }

  /** Words start and end inside the line. */
  lemma {:induction false} WordsInside(line: string, i: nat)
    requires i <= |line|
    ensures Words(line, i).Some? ==> forall t :: t in Words(line, i).value ==> i <= t.start < |line| && t.end <= |line|
    decreases |line| - i
  {
    if i < |line| {
      var w := Scan(line[i..], false);
      if IsBlank(line[i]) {
        WordsInside(line, i + 1);
      } else if !w.open {
        WordsInside(line, i + w.used);
      }
    }
  }

  // ----- when it fails

  /** Whether a quote is open at the end, reading the line character by character. */
  predicate QuoteLeftOpen(s: string, inQuote: bool) {
    if s == [] then inQuote
    else if inQuote && s[0] == '\\' && |s| > 1 then QuoteLeftOpen(s[2..], true)
    else QuoteLeftOpen(s[1..], if s[0] == '"' then !inQuote else inQuote)
  }

  lemma {:induction false} ScanKeepsQuotes(s: string, inQuote: bool)
    ensures var r := Scan(s, inQuote);
      QuoteLeftOpen(s, inQuote) <==> r.open || QuoteLeftOpen(s[r.used..], false)
    decreases |s|
  {
    var r := Scan(s, inQuote);
    if s == [] {
      assert s[r.used..] == [];
    } else if inQuote && s[0] == '\\' && |s| > 1 {
      var t := Scan(s[2..], true);
      assert r.used == t.used + 2 && r.open == t.open;
      ScanKeepsQuotes(s[2..], true);
      assert s[2..][t.used..] == s[r.used..];
    } else if inQuote || !IsBlank(s[0]) {
      var q := if s[0] == '"' then !inQuote else inQuote;
      var t := Scan(s[1..], q);
      assert r.used == t.used + 1 && r.open == t.open;
      ScanKeepsQuotes(s[1..], q);
      assert s[1..][t.used..] == s[r.used..];
    } else {
      assert s[r.used..] == s;
    }
  }

  /** Tokenizing fails exactly when a quote is left open. */
  lemma {:induction false} FailsOnOpenQuote(line: string, i: nat)
    requires i <= |line|
    ensures Words(line, i).None? <==> QuoteLeftOpen(line[i..], false)
    decreases |line| - i
  {
    if i < |line| {
      if IsBlank(line[i]) {
        FailsOnOpenQuote(line, i + 1);
        assert line[i..][1..] == line[i + 1..];
      } else {
        var w := Scan(line[i..], false);
        ScanKeepsQuotes(line[i..], false);
        if !w.open {
          FailsOnOpenQuote(line, i + w.used);
          assert line[i..][w.used..] == line[i + w.used..];
        } else {
          assert line[i..][w.used..] == [];
        }
      }
    }
  }

  // ----- where the words stand

  /** The words cover nonempty stretches from `i` on, in order and apart, and everything
      outside them is blank. */
  ghost predicate Covers(line: string, i: nat, toks: seq<Token>) {
    && (forall k :: 0 <= k < |toks| ==> i <= toks[k].start < toks[k].end <= |line|)
    && (forall k, l :: 0 <= k < l < |toks| ==> toks[k].end < toks[l].start)
    && (forall j :: i <= j < |line| && (forall k :: 0 <= k < |toks| ==> !(toks[k].start <= j < toks[k].end)) ==>
         IsBlank(line[j]))
  }

  lemma {:induction false} WordsCover(line: string, i: nat)
    requires i <= |line| && Words(line, i).Some?
    ensures Covers(line, i, Words(line, i).value)
    decreases |line| - i
  {
    if i < |line| {
      if IsBlank(line[i]) {
        WordsCover(line, i + 1);
      } else {
        var w := Scan(line[i..], false);
        var next := i + w.used;
        var rest := Words(line, next).value;
        WordsCover(line, next);
        if next < |line| {
          assert IsBlank(line[next]) by { assert line[i..][w.used] == line[next]; }
          NotAtBlank(line, next);
        }
        CoversMore(line, Token(w.text, i, next), rest);
      }
    }
  }

  lemma CoversMore(line: string, t: Token, rest: seq<Token>)
    requires t.start < t.end <= |line| && Covers(line, t.end, rest) && forall r :: r in rest ==> r.start > t.end
    ensures Covers(line, t.start, [t] + rest)
  {
    var toks := [t] + rest;
    assert forall l :: 0 < l < |toks| ==> toks[l] == rest[l - 1] && toks[l] in rest;
    forall j | t.start <= j < |line| && (forall k :: 0 <= k < |toks| ==> !(toks[k].start <= j < toks[k].end))
      ensures IsBlank(line[j])
    {
      assert !(toks[0].start <= j < toks[0].end);
      forall k | 0 <= k < |rest| ensures !(rest[k].start <= j < rest[k].end) {
        assert toks[k + 1] == rest[k];
      }
    }
  }

  lemma {:induction false} NotAtBlank(line: string, i: nat)
    requires i < |line| && IsBlank(line[i]) && Words(line, i).Some?
    ensures forall t :: t in Words(line, i).value ==> t.start > i
    decreases |line| - i
  {
    WordsCover(line, i + 1);
  }

  // ----- what the words say

  /** A word is made of bare characters and quoted stretches, in which a backslash takes the next character as it is. */
  datatype Piece = Bare(c: char) | Quoted(inside: seq<Char>)
  datatype Char = Raw(c: char) | Escaped(c: char)

  predicate Legal(ps: seq<Piece>) {
    forall i :: 0 <= i < |ps| ==> match ps[i] case Bare(c) => !IsBlank(c) && c != '"' case Quoted(q) => LegalInside(q)
  }

  predicate LegalInside(q: seq<Char>) { forall i :: 0 <= i < |q| ==> q[i].Raw? ==> q[i].c != '"' && q[i].c != '\\' }

  /** How the pieces are written, and what they say. */
  function Written(ps: seq<Piece>): string {
    if ps == [] then []
    else (match ps[0] case Bare(c) => [c] case Quoted(q) => "\"" + WrittenInside(q) + "\"") + Written(ps[1..])
  }

  function WrittenInside(q: seq<Char>): string { if q == [] then [] else WrittenChar(q[0]) + WrittenInside(q[1..]) }

  function WrittenChar(c: Char): string { if c.Raw? then [c.c] else ['\\', c.c] }

  function Said(ps: seq<Piece>): string {
    if ps == [] then [] else (match ps[0] case Bare(c) => [c] case Quoted(q) => SaidInside(q)) + Said(ps[1..])
  }

  function SaidInside(q: seq<Char>): string { if q == [] then [] else [q[0].c] + SaidInside(q[1..]) }

  ghost predicate Says(written: string, text: string) {
    exists ps :: Legal(ps) && Written(ps) == written && Said(ps) == text
  }

  lemma ScanChar(c: Char, t: string)
    requires LegalInside([c]) && t != []
    ensures Scan(WrittenChar(c) + t, true) == var r := Scan(t, true); Scanned([c.c] + r.text, |WrittenChar(c)| + r.used, r.open)
  {
    assert [c][0] == c && (WrittenChar(c) + t)[|WrittenChar(c)|..] == t;
  }

  lemma ScanClosing(t: string)
    ensures Scan("\"" + t, true) == var r := Scan(t, false); Scanned(r.text, 1 + r.used, r.open)
  {
    assert ("\"" + t)[1..] == t;
  }

  lemma {:induction false} ScanInside(q: seq<Char>, t: string)
    requires LegalInside(q)
    ensures Scan(WrittenInside(q) + ("\"" + t), true) ==
      var r := Scan(t, false); Scanned(SaidInside(q) + r.text, |WrittenInside(q)| + 1 + r.used, r.open)
  {
    hide Scan, WrittenChar;
    var line := WrittenInside(q) + ("\"" + t);
    if q == [] {
      assert line == "\"" + t;
      ScanClosing(t);
    } else {
      var rest := WrittenInside(q[1..]) + ("\"" + t);
      ScanInside(q[1..], t);
      ScanChar(q[0], rest);
      assert line == WrittenChar(q[0]) + rest;
    }
  }

  lemma ScanBare(c: char, t: string)
    requires !IsBlank(c) && c != '"'
    ensures Scan([c] + t, false) == var r := Scan(t, false); Scanned([c] + r.text, 1 + r.used, r.open)
  {
    assert ([c] + t)[1..] == t;
  }

  lemma ScanNothing(t: string)
    requires Ends(t)
    ensures Scan(t, false) == Scanned([], 0, false)
  {
  }

  /** Legal pieces are read for what they say. */
  lemma {:induction false} PiecesAreRead(ps: seq<Piece>, t: string)
    requires Legal(ps) && Ends(t)
    ensures Scan(Written(ps) + t, false) == Scanned(Said(ps), |Written(ps)|, false)
  {
    hide Scan, Legal, LegalInside, Written, WrittenInside, Said, SaidInside, Ends, IsBlank;
    var line := Written(ps) + t;
    if ps == [] {
      NoPieces();
      assert line == t;
      ScanNothing(t);
    } else {
      LegalHead(ps);
      PiecesCons(ps[0], ps[1..]);
      assert ps == [ps[0]] + ps[1..];
      PiecesAreRead(ps[1..], t);
      var rest := Written(ps[1..]) + t;
      match ps[0] {
        case Bare(c) =>
          ScanBare(c, rest);
          assert line == [c] + rest;
        case Quoted(q) =>
          ScanInside(q, rest);
          ScanOpens(WrittenInside(q) + ("\"" + rest));
          assert line == "\"" + (WrittenInside(q) + ("\"" + rest));
      }
    }
  }

  lemma LegalHead(ps: seq<Piece>)
    requires ps != [] && Legal(ps)
    ensures Legal(ps[1..]) && match ps[0] case Bare(c) => !IsBlank(c) && c != '"' case Quoted(q) => LegalInside(q)
  {
    hide LegalInside, IsBlank;
  }

  /** Whatever is read as a word is made of legal pieces. */
  lemma {:induction false} ScanHasPieces(s: string, inQuote: bool) returns (q: seq<Char>, ps: seq<Piece>)
    requires !Scan(s, inQuote).open
    ensures Legal(ps) && LegalInside(q)
    ensures var r := Scan(s, inQuote);
      if inQuote then s[..r.used] == WrittenInside(q) + "\"" + Written(ps) && r.text == SaidInside(q) + Said(ps)
      else s[..r.used] == Written(ps) && r.text == Said(ps)
    decreases |s|
  {
    hide Scan, Written, WrittenInside, Said, SaidInside, Legal, LegalInside, IsBlank;
    NoPieces();
    q, ps := [], [];
    var r := Scan(s, inQuote);
    if s == [] {
      ScanEnd(inQuote);
    } else {
      ScanStep(s, 0, inQuote);
      assert s[0..] == s;
      if inQuote {
        if s[0] == '\\' && |s| > 1 {
          q, ps := ScanHasPieces(s[2..], true);
          InsideCons(Escaped(s[1]), q);
          q := [Escaped(s[1])] + q;
          assert s[..r.used] == [s[0], s[1]] + s[2..][..r.used - 2];
        } else if s[0] == '"' {
          q, ps := ScanHasPieces(s[1..], false);
          q := [];
          assert s[..r.used] == [s[0]] + s[1..][..r.used - 1];
        } else {
          if |s| == 1 { ScanEnd(true); }
          q, ps := ScanHasPieces(s[1..], true);
          InsideCons(Raw(s[0]), q);
          q := [Raw(s[0])] + q;
          assert s[..r.used] == [s[0]] + s[1..][..r.used - 1];
        }
      } else if !IsBlank(s[0]) {
        q, ps := ScanHasPieces(s[1..], s[0] == '"');
        var p := if s[0] == '"' then Quoted(q) else Bare(s[0]);
        PiecesCons(p, ps);
        ps := [p] + ps;
        assert s[..r.used] == [s[0]] + s[1..][..r.used - 1];
      }
    }
  }

  lemma NoPieces()
    ensures Legal([]) && LegalInside([]) && Written([]) == "" && WrittenInside([]) == "" && Said([]) == "" && SaidInside([]) == ""
  {
  }

  lemma InsideCons(c: Char, q: seq<Char>)
    requires LegalInside(q) && (c.Raw? ==> c.c != '"' && c.c != '\\')
    ensures LegalInside([c] + q)
    ensures WrittenInside([c] + q) == (if c.Raw? then [c.c] else ['\\', c.c]) + WrittenInside(q)
    ensures SaidInside([c] + q) == [c.c] + SaidInside(q)
  {
    assert ([c] + q)[1..] == q;
  }

  lemma PiecesCons(p: Piece, ps: seq<Piece>)
    requires Legal(ps) && match p case Bare(c) => !IsBlank(c) && c != '"' case Quoted(q) => LegalInside(q)
    ensures Legal([p] + ps)
    ensures Written([p] + ps) == (match p case Bare(c) => [c] case Quoted(q) => "\"" + WrittenInside(q) + "\"") + Written(ps)
    ensures Said([p] + ps) == (match p case Bare(c) => [c] case Quoted(q) => SaidInside(q)) + Said(ps)
  {
    hide WrittenInside, SaidInside, LegalInside;
    assert ([p] + ps)[1..] == ps;
  }

  lemma ScanSays(s: string)
    requires !Scan(s, false).open
    ensures Says(s[..Scan(s, false).used], Scan(s, false).text)
  {
    hide Scan, Legal, LegalInside, Written, WrittenInside, Said, SaidInside;
    var _, ps := ScanHasPieces(s, false);
  }

  /** Every word says what is written for it. */
  lemma {:induction false} WordsSay(line: string, i: nat)
    requires i <= |line| && Words(line, i).Some?
    ensures forall t :: t in Words(line, i).value ==> t.start <= t.end <= |line| && Says(line[t.start..t.end], t.text)
    decreases |line| - i
  {
    if i < |line| {
      if IsBlank(line[i]) {
        WordsSay(line, i + 1);
      } else {
        hide Scan, IsBlank, Says;
        var w := Scan(line[i..], false);
        WordsSay(line, i + w.used);
        ScanSays(line[i..]);
        assert line[i..][..w.used] == line[i..i + w.used];
      }
    }
  }

  /** And nothing else: what is written says one thing only. */
  lemma SaysOneThing(written: string, a: string, b: string)
    requires Says(written, a) && Says(written, b)
    ensures a == b
  {
    var p :| Legal(p) && Written(p) == written && Said(p) == a;
    var q :| Legal(q) && Written(q) == written && Said(q) == b;
    PiecesAreRead(p, "");
    PiecesAreRead(q, "");
    assert written + "" == written;
  }

  // ----- quoting

  predicate IsSpecial(c: char) { IsBlank(c) || c == '"' || c == '\\' }

  function Escape(s: string): string {
    if s == [] then []
    else EscapeChar(s[0]) + Escape(s[1..])
  }

  /** quote: words that would not be read back as they are get quotes. */
  function Quote(s: string): string {
    if s != [] && (forall i :: 0 <= i < |s| ==> !IsSpecial(s[i])) then s else "\"" + Escape(s) + "\""
  }

  function Line(words: seq<string>): string {
    if words == [] then [] else if |words| == 1 then Quote(words[0]) else Quote(words[0]) + " " + Line(words[1..])
  }

  /** What follows a word: nothing, or a blank. */
  predicate Ends(t: string) { t == [] || IsBlank(t[0]) }

  lemma {:induction false} ScanPlain(s: string, t: string)
    requires (forall i :: 0 <= i < |s| ==> !IsSpecial(s[i])) && Ends(t)
    ensures Scan(s + t, false) == Scanned(s, |s|, false)
  {
    if s == [] {
      assert s + t == t;
    } else {
      assert (s + t)[1..] == s[1..] + t;
      ScanPlain(s[1..], t);
    }
  }

  function EscapeChar(c: char): string { if c == '"' || c == '\\' then ['\\', c] else [c] }

  lemma ScanEscapedChar(c: char, t: string)
    requires t != []
    ensures Scan(EscapeChar(c) + t, true) == var r := Scan(t, true); Scanned([c] + r.text, |EscapeChar(c)| + r.used, r.open)
  {
    var e := EscapeChar(c) + t;
    assert e[|EscapeChar(c)|..] == t;
  }

  lemma ScanCloses(t: string)
    requires Ends(t)
    ensures Scan("\"" + t, true) == Scanned([], 1, false)
  {
    assert ("\"" + t)[1..] == t;
  }

  lemma {:induction false} ScanEscaped(s: string, t: string)
    requires Ends(t)
    ensures Scan(Escape(s) + ("\"" + t), true) == Scanned(s, |Escape(s)| + 1, false)
  {
    hide Scan, Ends, EscapeChar;
    if s == [] {
      ScanCloses(t);
      assert Escape(s) + ("\"" + t) == "\"" + t;
    } else {
      var rest := Escape(s[1..]) + ("\"" + t);
      ScanEscaped(s[1..], t);
      ScanEscapedChar(s[0], rest);
      assert Escape(s) + ("\"" + t) == EscapeChar(s[0]) + rest;
    }
  }

  lemma QuoteStarts(s: string)
    ensures Quote(s) != [] && !IsBlank(Quote(s)[0])
  {
  }

  lemma ScanOpens(t: string)
    ensures Scan("\"" + t, false) == var r := Scan(t, true); Scanned(r.text, r.used + 1, r.open)
  {
    assert ("\"" + t)[1..] == t;
  }

  lemma ScanQuote(s: string, t: string)
    requires Ends(t)
    ensures Scan(Quote(s) + t, false) == Scanned(s, |Quote(s)|, false)
    ensures Quote(s) != [] && !IsBlank(Quote(s)[0])
  {
    hide Scan, Escape, IsSpecial;
    QuoteStarts(s);
    if s != [] && forall i :: 0 <= i < |s| ==> !IsSpecial(s[i]) {
      ScanPlain(s, t);
    } else {
      ScanEscaped(s, t);
      ScanOpens(Escape(s) + ("\"" + t));
      assert Quote(s) + t == "\"" + (Escape(s) + ("\"" + t));
    }
  }

  function Texts(toks: seq<Token>): seq<string> { seq(|toks|, i requires 0 <= i < |toks| => toks[i].text) }

  lemma TextsCons(t: Token, rest: seq<Token>)
    ensures Texts([t] + rest) == [t.text] + Texts(rest)
  {
  }

  /** Words depends only on what is left of the line. */
  lemma {:induction false} WordsShift(line: string, i: nat, other: string, j: nat)
    requires i <= |line| && j <= |other| && line[i..] == other[j..]
    ensures Words(line, i).Some? <==> Words(other, j).Some?
    ensures Words(line, i).Some? ==> Texts(Words(line, i).value) == Texts(Words(other, j).value)
    decreases |line| - i
  {
    assert |line| - i == |line[i..]| == |other[j..]| == |other| - j;
    if i < |line| {
      assert line[i] == line[i..][0] && other[j] == other[j..][0];
      if IsBlank(line[i]) {
        assert line[i + 1..] == line[i..][1..] == other[j..][1..] == other[j + 1..];
        WordsShift(line, i + 1, other, j + 1);
      } else {
        var w := Scan(line[i..], false);
        if !w.open {
          assert line[i + w.used..] == line[i..][w.used..] == other[j..][w.used..] == other[j + w.used..];
          WordsShift(line, i + w.used, other, j + w.used);
          if Words(line, i).Some? {
            TextsCons(Token(w.text, i, i + w.used), Words(line, i + w.used).value);
            TextsCons(Token(w.text, j, j + w.used), Words(other, j + w.used).value);
          }
        }
      }
    }
  }

  /** Any list of words, quoted and joined by blanks, is read back exactly. */
  lemma {:induction false} QuoteRoundTrip(words: seq<string>)
    ensures Words(Line(words), 0).Some? && Texts(Words(Line(words), 0).value) == words
  {
    if words != [] {
      var (line, q) := (Line(words), Quote(words[0]));
      var t := if |words| == 1 then "" else " " + Line(words[1..]);
      assert line == q + t && line[0..] == line;
      ScanQuote(words[0], t);
      assert line[0] == q[0];
      if |words| == 1 {
        assert Words(line, |q|) == Some([]);
      } else {
        QuoteRoundTrip(words[1..]);
        assert line[|q|] == ' ' && line[|q| + 1..] == Line(words[1..]) == Line(words[1..])[0..];
        WordsShift(line, |q| + 1, Line(words[1..]), 0);
      }
      var rest := Words(line, |q|).value;
      assert Words(line, 0) == Some([Token(words[0], 0, |q|)] + rest);
      TextsCons(Token(words[0], 0, |q|), rest);
    }
  }
}
