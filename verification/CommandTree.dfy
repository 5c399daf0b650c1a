/** Walking the command tree with abbreviated words, and completing them
    (netcli/internal/cli/parser.go). */
module CommandTree {
  import opened Basics

  /** What an argument accepts, what it offers for completion, and whether it takes the rest of the line. */
  datatype ArgType = ArgType(match_: Option<string -> bool>, complete: Option<string -> seq<string>>, rest: bool)

  /** A keyword or an argument; the graph of nodes is cyclic where an argument may be repeated. */
  class Node {
    const word: string
    const argType: Option<ArgType>
    const key: string
    const hidden: bool
    var children: seq<Node>

    constructor (word: string, argType: Option<ArgType>, key: string, hidden: bool)
      ensures this.word == word && this.argType == argType && this.key == key && this.hidden == hidden && children == []
    {
      this.word, this.argType, this.key, this.hidden, children := word, argType, key, hidden, [];
    }

    method Add(more: seq<Node>)
      modifies this
      ensures children == old(children) + more
    {
      children := children + more;
    }
  }

  predicate IsKeyword(n: Node) { n.argType.None? }

  predicate Accepts(n: Node, tok: string) {
    n.argType.Some? && (n.argType.value.match_.None? || n.argType.value.match_.value(tok))
  }

  /** strings.HasPrefix of lower-case words. */
  predicate Abbreviates(tok: string, word: string) { ToLower(tok) <= ToLower(word) }

  predicate SameWord(a: string, b: string) { ToLower(a) == ToLower(b) }

  // ----- one step

  datatype Choice = One(node: Node) | Ambiguous | NoMatch

  /** The children that a token may abbreviate. */
  function Abbreviated(children: seq<Node>, tok: string): seq<Node> {
    if children == [] then []
    else
      var c := children[|children| - 1];
      Abbreviated(children[..|children| - 1], tok)
      + if IsKeyword(c) && Abbreviates(tok, c.word) && !c.hidden then [c] else []
  }

  /** Where the first child with a property is, or the number of children. */
  function FirstIndex(children: seq<Node>, p: Node -> bool): (k: nat)
    ensures k <= |children| && (k < |children| ==> p(children[k]))
    ensures forall i :: 0 <= i < k ==> !p(children[i])
  {
    if children == [] || p(children[0]) then 0 else 1 + FirstIndex(children[1..], p)
  }

  function Exactly(tok: string): Node -> bool { (c: Node) => IsKeyword(c) && SameWord(c.word, tok) }

  function Accepting(tok: string): Node -> bool { (c: Node) => Accepts(c, tok) }

  /** candidates: an exact word wins, then the only word the token abbreviates, then an argument. */
  function Choose(children: seq<Node>, tok: string): Choice {
    var exact := FirstIndex(children, Exactly(tok));
    if exact < |children| then One(children[exact])
    else
      var prefix := Abbreviated(children, tok);
      if |prefix| == 1 then One(prefix[0])
      else if |prefix| > 1 then Ambiguous
      else
        var argument := FirstIndex(children, Accepting(tok));
        if argument < |children| then One(children[argument]) else NoMatch
  }

  method Candidates(n: Node, tok: string) returns (r: Choice)
    ensures r == Choose(n.children, tok)
  {
    var prefix := [];
    for i := 0 to |n.children|
      invariant forall j :: 0 <= j < i ==> !Exactly(tok)(n.children[j])
      invariant prefix == Abbreviated(n.children[..i], tok)
    {
      var c := n.children[i];
      assert n.children[..i + 1][..i] == n.children[..i];
      if c.argType.Some? { continue; }
      if ToLower(c.word) == ToLower(tok) {
        FirstIndexIs(n.children, Exactly(tok), i);
        return One(c);
      }
      if ToLower(tok) <= ToLower(c.word) && !c.hidden { prefix := prefix + [c]; }
    }
    assert n.children[..|n.children|] == n.children;
    FirstIndexIs(n.children, Exactly(tok), |n.children|);
    if |prefix| == 1 { return One(prefix[0]); }
    if |prefix| > 1 { return Ambiguous; }
    for i := 0 to |n.children|
      invariant forall j :: 0 <= j < i ==> !Accepting(tok)(n.children[j])
    {
      var c := n.children[i];
      if c.argType.Some? && (c.argType.value.match_.None? || c.argType.value.match_.value(tok)) {
        FirstIndexIs(n.children, Accepting(tok), i);
        return One(c);
      }
    }
    FirstIndexIs(n.children, Accepting(tok), |n.children|);
    r := NoMatch;
  }

  lemma FirstIndexIs(children: seq<Node>, p: Node -> bool, k: nat)
    requires k <= |children| && (forall i :: 0 <= i < k ==> !p(children[i])) && (k < |children| ==> p(children[k]))
    ensures FirstIndex(children, p) == k
  {
  }

  // ----- the walk

  /** A word, and the line from where it starts. */
  datatype Token = Token(text: string, tail: string)

  datatype Args = Args(words: set<string>, values: map<string, string>, multi: map<string, seq<string>>)

  const NO_ARGS := Args({}, map[], map[])

  function AllOf(a: Args, key: string): seq<string> { if key in a.multi then a.multi[key] else [] }

  function Remember(a: Args, key: string, value: string): Args {
    a.(values := a.values[key := value], multi := a.multi[key := AllOf(a, key) + [value]])
  }

  /** unicode.IsSpace. */
  predicate IsSpace(c: char) {
    || '\t' <= c <= '\r' || c == ' ' || c == '\U{85}' || c == '\U{A0}' || c == '\U{1680}' || '\U{2000}' <= c <= '\U{200A}'
    || c == '\U{2028}' || c == '\U{2029}' || c == '\U{202F}' || c == '\U{205F}' || c == '\U{3000}'
  }

  function TrimLeft(s: string): string { if s != [] && IsSpace(s[0]) then TrimLeft(s[1..]) else s }

  function TrimRight(s: string): string { if s != [] && IsSpace(s[|s| - 1]) then TrimRight(s[..|s| - 1]) else s }

  function TrimSpace(s: string): string { TrimRight(TrimLeft(s)) }

  /** The value of an argument that takes the rest of the line: its raw text, unless it is a
      single quoted word. */
  function RestValue(toks: seq<Token>): string
    requires toks != []
  {
    if |toks| > 1 || toks[0].tail == [] || toks[0].tail[0] != '"' then TrimSpace(toks[0].tail) else toks[0].text
  }

  datatype Walked = Arrived(node: Node, args: Args) | Stopped

  /** Every node reachable from `g` is in `g`. */
  ghost predicate Closed(g: set<Node>)
    reads g
  {
    forall n, c :: n in g && c in n.children ==> c in g
  }

  function Walk(g: set<Node>, n: Node, a: Args, toks: seq<Token>): Walked
    requires Closed(g) && n in g
    reads g
    decreases |toks|
  {
    if toks == [] then Arrived(n, a)
    else
      var c := Choose(n.children, toks[0].text);
      if !c.One? then Stopped
      else
        ChosenIsChild(n.children, toks[0].text);
        if IsKeyword(c.node) then Walk(g, c.node, a.(words := a.words + {c.node.word}), toks[1..])
        else if c.node.argType.value.rest then Arrived(c.node, Remember(a, c.node.key, RestValue(toks)))
        else Walk(g, c.node, Remember(a, c.node.key, toks[0].text), toks[1..])
  }

  lemma ChosenIsChild(children: seq<Node>, tok: string)
    ensures Choose(children, tok).One? ==> Choose(children, tok).node in children
  {
    AbbreviatedAre(children, tok);
  }

  predicate IsAbbreviated(children: seq<Node>, tok: string, c: Node) {
    c in children && IsKeyword(c) && Abbreviates(tok, c.word) && !c.hidden
  }

  lemma {:induction false} AbbreviatedAre(children: seq<Node>, tok: string)
    ensures forall c :: c in Abbreviated(children, tok) <==>
      c in children && IsKeyword(c) && Abbreviates(tok, c.word) && !c.hidden
    ensures forall i :: 0 <= i < |Abbreviated(children, tok)| ==> IsAbbreviated(children, tok, Abbreviated(children, tok)[i])
  {
    if children != [] {
      var k := |children| - 1;
      assert children == children[..k] + [children[k]];
      AbbreviatedAre(children[..k], tok);
      forall i | 0 <= i < |Abbreviated(children, tok)|
        ensures IsAbbreviated(children, tok, Abbreviated(children, tok)[i])
      {
        var c := Abbreviated(children, tok)[i];
        assert c in Abbreviated(children, tok) && c in children;
      }
    }
  }

  /** walk. */
  method DoWalk(ghost g: set<Node>, r: Node, toks: seq<Token>) returns (w: Walked)
    requires Closed(g) && r in g
    ensures w == Walk(g, r, NO_ARGS, toks)
  {
    var n, a := r, NO_ARGS;
    var i := 0;
    while i < |toks|
      invariant 0 <= i <= |toks| && n in g
      invariant Walk(g, r, NO_ARGS, toks) == Walk(g, n, a, toks[i..])
    {
      var t := toks[i];
      assert toks[i..][0] == t && toks[i..][1..] == toks[i + 1..];
      var c := Candidates(n, t.text);
      if !c.One? { return Stopped; }
      ChosenIsChild(n.children, t.text);
      if c.node.argType.Some? {
        var value := t.text;
        if c.node.argType.value.rest {
          if i < |toks| - 1 || t.tail == [] || t.tail[0] != '"' { value := TrimSpace(t.tail); }
          return Arrived(c.node, Remember(a, c.node.key, value));
        }
        a := Remember(a, c.node.key, value);
      } else {
        a := a.(words := a.words + {c.node.word});
      }
      n, i := c.node, i + 1;
    }
    w := Arrived(n, a);
  }

  // ----- what the walk finds

  predicate TakesRest(n: Node) { n.argType.Some? && n.argType.value.rest }

  /** The nodes that the tokens lead to, one for each, up to an argument that takes the rest of the line. */
  ghost predicate IsPath(n: Node, toks: seq<Token>, path: seq<Node>)
    reads n, path
  {
    if path == [] then toks == []
    else
      && toks != [] && Choose(n.children, toks[0].text) == One(path[0])
      && if TakesRest(path[0]) then |path| == 1 else IsPath(path[0], toks[1..], path[1..])
  }

  /** What the arguments of a path with this key were given, in order. */
  function Given(path: seq<Node>, toks: seq<Token>, key: string): seq<string> {
    if path == [] || toks == [] then [] else GivenTo(path[0], toks, key) + Given(path[1..], toks[1..], key)
  }

  function GivenTo(n: Node, toks: seq<Token>, key: string): seq<string>
    requires toks != []
  {
    if IsKeyword(n) || n.key != key then [] else if TakesRest(n) then [RestValue(toks)] else [toks[0].text]
  }

  function Keywords(path: seq<Node>): set<string> { set n | n in path && IsKeyword(n) :: n.word }

  /** A value is the last one given for its key, and `multi` has them all. */
  predicate Holds(a: Args, key: string, given: seq<string>) {
    && AllOf(a, key) == given
    && (key in a.values <==> given != [])
    && (key in a.values ==> a.values[key] == given[|given| - 1])
  }

  /** A line that has a path is accepted. It ends at the last node of the path, with the keywords of the path
      and what was given for each key. */
  lemma WalkMeans(g: set<Node>, n: Node, toks: seq<Token>, path: seq<Node>)
    requires Closed(g) && n in g && IsPath(n, toks, path)
    ensures var w := Walk(g, n, NO_ARGS, toks);
      && w.Arrived? && w.node == (if path == [] then n else path[|path| - 1])
      && w.args.words == Keywords(path) && forall key :: Holds(w.args, key, Given(path, toks, key))
  {
    PathWalks(g, n, NO_ARGS, toks, path);
    forall key ensures Holds(Walk(g, n, NO_ARGS, toks).args, key, Given(path, toks, key)) {
      assert Holds(NO_ARGS, key, []);
      PathGives(g, n, NO_ARGS, toks, path, key, []);
      assert [] + Given(path, toks, key) == Given(path, toks, key);
    }
  }

  /** Every line that is accepted has one. */
  lemma {:induction false} WalkHasPath(g: set<Node>, n: Node, a: Args, toks: seq<Token>) returns (path: seq<Node>)
    requires Closed(g) && n in g && Walk(g, n, a, toks).Arrived?
    ensures IsPath(n, toks, path)
    decreases |toks|
  {
    if toks == [] {
      path := [];
    } else {
      var c := Choose(n.children, toks[0].text).node;
      ChosenIsChild(n.children, toks[0].text);
      if TakesRest(c) {
        path := [c];
      } else {
        var more := WalkHasPath(g, c, Step(a, c, toks), toks[1..]);
        path := [c] + more;
        assert path[1..] == more;
      }
    }
  }

  function Step(a: Args, c: Node, toks: seq<Token>): Args
    requires toks != []
  {
    if IsKeyword(c) then a.(words := a.words + {c.word})
    else Remember(a, c.key, if TakesRest(c) then RestValue(toks) else toks[0].text)
  }

  lemma {:induction false} PathWalks(g: set<Node>, n: Node, a: Args, toks: seq<Token>, path: seq<Node>)
    requires Closed(g) && n in g && IsPath(n, toks, path)
    ensures var w := Walk(g, n, a, toks);
      w.Arrived? && w.node == (if path == [] then n else path[|path| - 1]) && w.args.words == a.words + Keywords(path)
    decreases |toks|
  {
    hide Choose, RestValue;
    if path != [] {
      ChosenIsChild(n.children, toks[0].text);
      var c := path[0];
      assert path == [c] + path[1..];
      assert Keywords(path) == (if IsKeyword(c) then {c.word} else {}) + Keywords(path[1..]);
      if TakesRest(c) { assert path[1..] == []; } else { PathWalks(g, c, Step(a, c, toks), toks[1..], path[1..]); }
    }
  }

  lemma {:induction false} PathGives(g: set<Node>, n: Node, a: Args, toks: seq<Token>, path: seq<Node>, key: string, before: seq<string>)
    requires Closed(g) && n in g && IsPath(n, toks, path) && Holds(a, key, before)
    ensures Walk(g, n, a, toks).Arrived? && Holds(Walk(g, n, a, toks).args, key, before + Given(path, toks, key))
    decreases |toks|
  {
    hide Choose, RestValue, Holds, GivenTo;
    if path == [] {
      assert before + [] == before;
    } else {
      ChosenIsChild(n.children, toks[0].text);
      var c := path[0];
      var first := GivenTo(c, toks, key);
      StepHolds(a, c, toks, key, before);
      assert before + Given(path, toks, key) == (before + first) + Given(path[1..], toks[1..], key);
      if TakesRest(c) {
        assert path[1..] == [] && before + first + [] == before + first;
      } else {
        PathGives(g, c, Step(a, c, toks), toks[1..], path[1..], key, before + first);
      }
    }
  }

  lemma StepHolds(a: Args, c: Node, toks: seq<Token>, key: string, before: seq<string>)
    requires toks != [] && Holds(a, key, before)
    ensures Holds(Step(a, c, toks), key, before + GivenTo(c, toks, key))
  {
    hide RestValue;
    assert before + [] == before;
  }

  predicate Blank(s: string) { forall i :: 0 <= i < |s| ==> IsSpace(s[i]) }

  predicate Trimmed(s: string) { s == [] || (!IsSpace(s[0]) && !IsSpace(s[|s| - 1])) }

  /** The rest of the line is taken as it stands between the blanks around it, or a single quoted word without its quotes. */
  lemma RestMeans(toks: seq<Token>)
    requires toks != []
    ensures if |toks| == 1 && "\"" <= toks[0].tail then RestValue(toks) == toks[0].text
            else Trimmed(RestValue(toks)) && exists l, r :: toks[0].tail == l + RestValue(toks) + r && Blank(l) && Blank(r)
  {
    var tail := toks[0].tail;
    if |toks| > 1 || !("\"" <= tail) { TrimMeans(tail); }
  }

  lemma TrimMeans(s: string)
    ensures Trimmed(TrimSpace(s)) && exists l, r :: s == l + TrimSpace(s) + r && Blank(l) && Blank(r)
  {
    hide TrimLeft, TrimRight;
    var t := TrimLeft(s);
    TrimLeftMeans(s);
    TrimRightMeans(t);
    var (l, v, r) := (s[..|s| - |t|], TrimRight(t), t[|TrimRight(t)|..]);
    assert t == v + r;
    assert s == l + t == l + v + r;
  }

  lemma {:induction false} TrimLeftMeans(s: string)
    ensures var t := TrimLeft(s); |t| <= |s| && s[|s| - |t|..] == t && Blank(s[..|s| - |t|]) && (t != [] ==> !IsSpace(t[0]))
  {
    if s != [] && IsSpace(s[0]) {
      TrimLeftMeans(s[1..]);
      var k := |s| - |TrimLeft(s)|;
      assert s[1..][k - 1..] == s[k..] && s[..k] == [s[0]] + s[1..][..k - 1];
    }
  }

  lemma {:induction false} TrimRightMeans(s: string)
    ensures var t := TrimRight(s); t <= s && Blank(s[|t|..]) && (t != [] ==> !IsSpace(t[|t| - 1]))
  {
    if s != [] && IsSpace(s[|s| - 1]) {
      TrimRightMeans(s[..|s| - 1]);
      assert s[|TrimRight(s)|..] == s[..|s| - 1][|TrimRight(s)|..] + [s[|s| - 1]];
    }
  }

  // ----- abbreviation is elaboration

  /** Sibling words differ, even ignoring case. */
  predicate WordsDistinct(children: seq<Node>) {
    forall i, j :: 0 <= i < j < |children| && IsKeyword(children[i]) && IsKeyword(children[j]) ==>
      !SameWord(children[i].word, children[j].word)
  }

  /** An exact word wins over every longer sibling. */
  lemma ExactWins(children: seq<Node>, c: Node, tok: string)
    requires WordsDistinct(children) && c in children && IsKeyword(c) && SameWord(c.word, tok)
    ensures Choose(children, tok) == One(c)
  {
    var i :| 0 <= i < |children| && children[i] == c;
    forall j | 0 <= j < i && IsKeyword(children[j]) ensures !SameWord(children[j].word, children[i].word) {}
    FirstIndexIs(children, Exactly(tok), i);
  }

  lemma NoneExact(children: seq<Node>, tok: string)
    requires forall d :: d in children && IsKeyword(d) ==> !SameWord(d.word, tok)
    ensures FirstIndex(children, Exactly(tok)) == |children|
  {
    forall i | 0 <= i < |children| && IsKeyword(children[i]) ensures !SameWord(children[i].word, tok) {
      assert children[i] in children;
    }
    FirstIndexIs(children, Exactly(tok), |children|);
  }

  lemma OnlyAbbreviated(children: seq<Node>, c: Node, tok: string)
    requires WordsDistinct(children)
    ensures Abbreviated(children, tok) == [c] <==>
      IsAbbreviated(children, tok, c) && forall d :: d in children && IsAbbreviated(children, tok, d) ==> d == c
  {
    AbbreviatedAre(children, tok);
    AbbreviatedDistinct(children, tok);
    var prefix := Abbreviated(children, tok);
    if |prefix| == 1 {
      assert IsAbbreviated(children, tok, prefix[0]) && prefix[0] in prefix && prefix == [prefix[0]];
    } else if |prefix| > 1 {
      assert IsAbbreviated(children, tok, prefix[0]) && IsAbbreviated(children, tok, prefix[1]);
      var d := if prefix[0] == c then prefix[1] else prefix[0];
      assert d != c;
    } else {
      assert c !in prefix;
    }
  }

  /** Exactly when a token stands for a keyword: it is the word, or it is the word of no sibling
      and abbreviates this visible word alone. */
  lemma StandsFor(children: seq<Node>, c: Node, tok: string)
    requires WordsDistinct(children) && c in children && IsKeyword(c)
    ensures Choose(children, tok) == One(c) <==>
      || SameWord(c.word, tok)
      || ((forall d :: d in children && IsKeyword(d) ==> !SameWord(d.word, tok))
          && IsAbbreviated(children, tok, c)
          && forall d :: d in children && IsAbbreviated(children, tok, d) ==> d == c)
  {
    hide Abbreviated, SameWord, WordsDistinct, Accepting, Exactly;
    OnlyAbbreviated(children, c, tok);
    if SameWord(c.word, tok) {
      ExactWins(children, c, tok);
    } else if d :| d in children && IsKeyword(d) && SameWord(d.word, tok) {
      ExactWins(children, d, tok);
    } else {
      NoneExact(children, tok);
      ArgumentChosen(children, tok);
    }
  }

  /** No keyword is meant. */
  predicate NoKeyword(children: seq<Node>, tok: string) {
    forall d :: d in children && IsKeyword(d) ==> !SameWord(d.word, tok) && !IsAbbreviated(children, tok, d)
  }

  predicate BothAbbreviated(children: seq<Node>, tok: string, c: Node, d: Node) {
    c != d && IsAbbreviated(children, tok, c) && IsAbbreviated(children, tok, d)
  }

  predicate FirstAccepting(children: seq<Node>, tok: string, k: nat) {
    k < |children| && Accepts(children[k], tok) && forall j :: 0 <= j < k ==> !Accepts(children[j], tok)
  }

  /** A token is ambiguous exactly when it is no word and abbreviates two of them. Where no keyword is meant it
      goes to the first argument that accepts it, and to nothing exactly when none does. */
  lemma ArgumentExact(children: seq<Node>, tok: string)
    requires WordsDistinct(children)
    ensures Choose(children, tok) == Ambiguous <==>
      (forall d :: d in children && IsKeyword(d) ==> !SameWord(d.word, tok)) && exists c, d :: BothAbbreviated(children, tok, c, d)
    ensures forall k: nat :: NoKeyword(children, tok) && FirstAccepting(children, tok, k) ==> Choose(children, tok) == One(children[k])
    ensures Choose(children, tok) == NoMatch <==> NoKeyword(children, tok) && forall d :: d in children ==> !Accepts(d, tok)
  {
    hide Abbreviated, SameWord, WordsDistinct, Accepts, Abbreviates;
    AbbreviatedAre(children, tok);
    AbbreviatedDistinct(children, tok);
    var prefix := Abbreviated(children, tok);
    if d :| d in children && IsKeyword(d) && SameWord(d.word, tok) {
      ExactWins(children, d, tok);
    } else {
      NoneExact(children, tok);
      if |prefix| > 1 { assert BothAbbreviated(children, tok, prefix[0], prefix[1]); }
      if c, d :| BothAbbreviated(children, tok, c, d) { assert c in prefix && d in prefix; }
      if |prefix| == 0 { assert NoKeyword(children, tok); } else { assert IsAbbreviated(children, tok, prefix[0]); }
      forall k: nat | FirstAccepting(children, tok, k)
        ensures FirstIndex(children, Accepting(tok)) == k
      {
        FirstIndexIs(children, Accepting(tok), k);
      }
    }
  }

  lemma ArgumentChosen(children: seq<Node>, tok: string)
    ensures var k := FirstIndex(children, Accepting(tok)); k < |children| ==> !IsKeyword(children[k])
  {
  }

  lemma {:induction false} AbbreviatedDistinct(children: seq<Node>, tok: string)
    requires WordsDistinct(children)
    ensures Distinct(Abbreviated(children, tok))
  {
    if children != [] {
      var k := |children| - 1;
      AbbreviatedDistinct(children[..k], tok);
      AbbreviatedAre(children[..k], tok);
      if IsKeyword(children[k]) {
        forall c | c in children[..k] && IsKeyword(c) ensures c != children[k] {
          var i :| 0 <= i < k && children[i] == c;
        }
      }
    }
  }

  /** The line with every keyword in full. What an argument takes stays as it was typed. */
  function Elaborated(g: set<Node>, n: Node, toks: seq<Token>): seq<Token>
    requires Closed(g) && n in g
    reads g
    decreases |toks|
  {
    if toks == [] then []
    else
      var c := Choose(n.children, toks[0].text);
      if !c.One? then toks
      else
        ChosenIsChild(n.children, toks[0].text);
        if IsKeyword(c.node) then [toks[0].(text := c.node.word)] + Elaborated(g, c.node, toks[1..])
        else if c.node.argType.value.rest then toks
        else [toks[0]] + Elaborated(g, c.node, toks[1..])
  }

  /** Writing every abbreviated keyword in full reaches the same node with the same arguments. */
  lemma {:induction false} AbbreviationIsElaboration(g: set<Node>, n: Node, a: Args, toks: seq<Token>)
    requires Closed(g) && n in g && forall m :: m in g ==> WordsDistinct(m.children)
    ensures Walk(g, n, a, Elaborated(g, n, toks)) == Walk(g, n, a, toks)
    decreases |toks|
  {
    if toks != [] {
      var c := Choose(n.children, toks[0].text);
      if c.One? {
        ChosenIsChild(n.children, toks[0].text);
        var rest := Elaborated(g, c.node, toks[1..]);
        if IsKeyword(c.node) {
          ExactWins(n.children, c.node, c.node.word);
          AbbreviationIsElaboration(g, c.node, a.(words := a.words + {c.node.word}), toks[1..]);
          assert ([toks[0].(text := c.node.word)] + rest)[1..] == rest;
        } else if !c.node.argType.value.rest {
          AbbreviationIsElaboration(g, c.node, Remember(a, c.node.key, toks[0].text), toks[1..]);
          assert ([toks[0]] + rest)[1..] == rest;
        }
      }
    }
  }

  // ----- completion

  /** What a child offers for a partial word. */
  predicate Offers(c: Node, partial: string, v: string) {
    && !c.hidden && Abbreviates(partial, v)
    && if IsKeyword(c) then v == c.word
       else c.argType.value.complete.Some? && v in c.argType.value.complete.value(partial)
  }

  ghost predicate Offered(children: seq<Node>, partial: string, v: string) {
    exists c :: c in children && Offers(c, partial, v)
  }

  /** The loop of complete, before sorting. */
  method Collect(children: seq<Node>, partial: string) returns (out: seq<string>)
    ensures forall v :: v in out <==> Offered(children, partial, v)
  {
    out := [];
    for i := 0 to |children|
      invariant forall v :: v in out <==> Offered(children[..i], partial, v)
    {
      var c := children[i];
      ghost var before := out;
      if !c.hidden {
        if c.argType.Some? {
          if c.argType.value.complete.Some? {
            var more := Matching(c.argType.value.complete.value(partial), partial);
            out := out + more;
          }
        } else if ToLower(partial) <= ToLower(c.word) {
          out := out + [c.word];
        }
      }
      OfferedMore(children, i, partial, before, out);
    }
    assert children[..|children|] == children;
  }

  method Matching(words: seq<string>, partial: string) returns (out: seq<string>)
    ensures forall v :: v in out <==> v in words && Abbreviates(partial, v)
  {
    out := [];
    for i := 0 to |words|
      invariant forall v :: v in out <==> v in words[..i] && Abbreviates(partial, v)
    {
      if ToLower(partial) <= ToLower(words[i]) { out := out + [words[i]]; }
    }
  }

  lemma OfferedMore(children: seq<Node>, i: nat, partial: string, before: seq<string>, after: seq<string>)
    requires i < |children| && forall v :: v in before <==> Offered(children[..i], partial, v)
    requires forall v :: v in after <==> v in before || Offers(children[i], partial, v)
    ensures forall v :: v in after <==> Offered(children[..i + 1], partial, v)
  {
    assert children[..i + 1] == children[..i] + [children[i]];
    forall v ensures v in after <==> Offered(children[..i + 1], partial, v) {
      if v in before {
        var c :| c in children[..i] && Offers(c, partial, v);
        assert c in children[..i + 1];
      } else if v in after {
        assert children[i] in children[..i + 1];
      }
    }
  }

  predicate SortedStrings(s: seq<string>) { forall i, j :: 0 <= i < j < |s| ==> !LexLess(s[j], s[i]) }

  predicate StrictlySorted(s: seq<string>) { forall i, j :: 0 <= i < j < |s| ==> LexLess(s[i], s[j]) }

  /** sort.Strings. */
  method SortStrings(s: seq<string>) returns (r: seq<string>)
    ensures SortedStrings(r) && forall v :: v in r <==> v in s
  {
    hide LexLess;
    r := [];
    for k := 0 to |s|
      invariant SortedStrings(r) && forall v :: v in r <==> v in s[..k]
    {
      var x, i := s[k], 0;
      while i < |r| && !LexLess(x, r[i])
        invariant 0 <= i <= |r| && forall j :: 0 <= j < i ==> !LexLess(x, r[j])
      {
        i := i + 1;
      }
      forall l | i <= l < |r| ensures !LexLess(r[l], x) {
        if LexLess(r[l], x) {
          LexLessTransitive(r[l], x, r[i]);
          LexLessIrreflexive(r[i]);
        }
      }
      assert r == r[..i] + r[i..];
      r := r[..i] + [x] + r[i..];
      assert s[..k + 1] == s[..k] + [x];
    }
    assert s[..|s|] == s;
  }

  method Dedupe(s: seq<string>) returns (r: seq<string>)
    requires SortedStrings(s)
    ensures StrictlySorted(r) && forall v :: v in r <==> v in s
  {
    hide LexLess;
    r := [];
    for i := 0 to |s|
      invariant StrictlySorted(r) && (forall v :: v in r <==> v in s[..i])
      invariant if i == 0 then r == [] else r != [] && r[|r| - 1] == s[i - 1]
    {
      if i == 0 || s[i] != s[i - 1] {
        if i > 0 { LexTotal(s[i - 1], s[i]); }
        forall j | 0 <= j < |r| ensures LexLess(r[j], s[i]) {
          if j < |r| - 1 { LexLessTransitive(r[j], s[i - 1], s[i]); }
        }
        r := r + [s[i]];
      }
      assert s[..i + 1] == s[..i] + [s[i]];
    }
    assert s[..|s|] == s;
  }

  /** complete: the offers at the node that the line before the partial word reaches, sorted and
      without repetition. */
  method Complete(ghost g: set<Node>, r: Node, toks: seq<Token>, partial: string) returns (out: seq<string>)
    requires Closed(g) && r in g
    ensures StrictlySorted(out)
    ensures var w := Walk(g, r, NO_ARGS, toks);
      forall v :: v in out <==> w.Arrived? && Offered(w.node.children, partial, v)
  {
    hide Offered, Walk;
    out := [];
    var w := DoWalk(g, r, toks);
    if w.Stopped? { return; }
    out := Collect(w.node.children, partial);
    out := SortStrings(out);
    out := Dedupe(out);
  }

  lemma {:induction false} WalkSnoc(g: set<Node>, n: Node, a: Args, toks: seq<Token>, t: Token)
    requires Closed(g) && n in g && Walk(g, n, a, toks).Arrived? && !TakesRest(Walk(g, n, a, toks).node)
    ensures var w := Walk(g, n, a, toks);
      w.node in g && Walk(g, n, a, toks + [t]) == Walk(g, w.node, w.args, [t])
    decreases |toks|
  {
    if toks == [] {
      assert toks + [t] == [t];
    } else {
      var c := Choose(n.children, toks[0].text).node;
      ChosenIsChild(n.children, toks[0].text);
      assert (toks + [t])[1..] == toks[1..] + [t];
      WalkSnoc(g, c, if IsKeyword(c) then a.(words := a.words + {c.word}) else Remember(a, c.key, toks[0].text), toks[1..], t);
    }
  }

  /** Every keyword that is offered is accepted in that position, and every visible keyword that
      the partial word stands for is offered. */
  lemma CompletionIsAccepted(g: set<Node>, r: Node, toks: seq<Token>, partial: string, c: Node)
    requires Closed(g) && r in g && forall m :: m in g ==> WordsDistinct(m.children)
    requires var w := Walk(g, r, NO_ARGS, toks); w.Arrived? && !TakesRest(w.node) && c in w.node.children
    requires IsKeyword(c) && !c.hidden
    ensures var w := Walk(g, r, NO_ARGS, toks);
      && (Offered(w.node.children, partial, c.word) ==>
           forall tail :: Walk(g, r, NO_ARGS, toks + [Token(c.word, tail)])
             == Arrived(c, w.args.(words := w.args.words + {c.word})))
      && (Choose(w.node.children, partial) == One(c) ==> Offered(w.node.children, partial, c.word))
  {
    var w := Walk(g, r, NO_ARGS, toks);
    WalkSnoc(g, r, NO_ARGS, toks, Token("", ""));
    forall tail ensures Walk(g, r, NO_ARGS, toks + [Token(c.word, tail)])
      == Arrived(c, w.args.(words := w.args.words + {c.word}))
    {
      WalkSnoc(g, r, NO_ARGS, toks, Token(c.word, tail));
      ExactWins(w.node.children, c, c.word);
      assert [Token(c.word, tail)][1..] == [];
    }
    if Choose(w.node.children, partial) == One(c) {
      StandsFor(w.node.children, c, partial);
      assert Abbreviates(partial, c.word);
    }
  }

  // ----- common prefix

  predicate AbbreviatesAll(p: string, s: seq<string>) { forall v :: v in s ==> Abbreviates(p, v) }

  /** commonPrefix: the longest start of the first word that all words have, ignoring case. */
  method CommonPrefix(s: seq<string>) returns (p: string)
    ensures s == [] ==> p == ""
    ensures s != [] ==> p <= s[0] && AbbreviatesAll(p, s)
    ensures s != [] ==> forall q :: q <= s[0] && AbbreviatesAll(q, s) ==> |q| <= |p|
  {
    hide ToLower;
    if s == [] { return ""; }
    p := s[0];
    for i := 1 to |s|
      invariant p <= s[0] && AbbreviatesAll(p, s[..i])
      invariant forall q :: q <= s[0] && AbbreviatesAll(q, s) ==> |q| <= |p|
    {
      ghost var was := p;
      while !(ToLower(p) <= ToLower(s[i]))
        invariant p <= was
        invariant forall q :: q <= s[0] && AbbreviatesAll(q, s) ==> |q| <= |p|
        decreases |p|
      {
        forall q | q <= s[0] && AbbreviatesAll(q, s) ensures |q| < |p| {
          assert s[i] in s;
          NotAsLong(p, q, s[0], s[i]);
        }
        p := p[..|p| - 1];
      }
      forall v | v in s[..i + 1] ensures Abbreviates(p, v) {
        if v in s[..i] {
          assert Abbreviates(was, v);
          LowerPrefix(p, was);
        }
      }
    }
    assert s[..|s|] == s;
  }

  lemma NotAsLong(p: string, q: string, s: string, v: string)
    requires p <= s && q <= s && |q| <= |p| && Abbreviates(q, v) && !Abbreviates(p, v)
    ensures |q| < |p|
  {
    assert |q| == |p| ==> q == p;
  }

  lemma LowerPrefix(p: string, q: string)
    requires p <= q
    ensures ToLower(p) <= ToLower(q)
  {
    forall i | 0 <= i < |p| ensures ToLower(p)[i] == ToLower(q)[i] {}
  }
}
