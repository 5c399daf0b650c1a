/** Text that survives being printed without quotes and typed back (netcli/internal/cli/text.go, parser.go). */
module Typing {
  import opened Basics
  import opened Config
  import opened Tokenizer
  import CommandTree
  import opened Commands

  /** One word without quotes or blanks. */
  predicate PlainWord(s: string) {
    s != "" && OneLine(s) && forall i :: 0 <= i < |s| ==> !IsBlank(s[i]) && s[i] != '"'
  }

  /** A line without white space around it, with every quote closed, that is not a single word in quotes. */
  predicate PlainText(s: string) {
    && s != "" && OneLine(s) && !CommandTree.IsSpace(s[0]) && !CommandTree.IsSpace(s[|s| - 1])
    && !QuoteLeftOpen(s, false)
    && (s[0] == '"' ==> Scan(s, false).used < |s|)
  }

  /** A secret in its stored form. */
  predicate PlainSecret(s: string) { PlainWord(s) && IsHashedSecret(s) }

  // ----- how long what is read can be

  lemma {:induction false} TrimLeftFixed(s: string)
    ensures CommandTree.TrimLeft(s) == s || |CommandTree.TrimLeft(s)| < |s|
    ensures CommandTree.TrimLeft(s) == s <==> s == "" || !CommandTree.IsSpace(s[0])
  {
    if s != "" { TrimLeftFixed(s[1..]); }
  }

  lemma {:induction false} TrimRightFixed(s: string)
    ensures |CommandTree.TrimRight(s)| <= |s|
    ensures CommandTree.TrimRight(s) == s <==> s == "" || !CommandTree.IsSpace(s[|s| - 1])
  {
    if s != "" { TrimRightFixed(s[..|s| - 1]); }
  }

  /** Trimming changes exactly the strings with a blank at either end. */
  lemma TrimFixed(s: string)
    ensures |CommandTree.TrimSpace(s)| <= |s|
    ensures CommandTree.TrimSpace(s) == s <==> s == "" || (!CommandTree.IsSpace(s[0]) && !CommandTree.IsSpace(s[|s| - 1]))
  {
    TrimLeftFixed(s);
    TrimRightFixed(CommandTree.TrimLeft(s));
  }

  /** A word is as long as its text exactly when it has no quotes, and then they are equal. */
  lemma {:induction false} ScanExact(s: string, inQuote: bool)
    ensures var r := Scan(s, inQuote);
      && |r.text| <= r.used
      && (!inQuote && '"' in s[..r.used] ==> |r.text| < r.used)
      && (!inQuote && '"' !in s[..r.used] ==> r.text == s[..r.used] && forall i :: 0 <= i < r.used ==> !IsBlank(s[i]))
    decreases |s|
  {
    var r := Scan(s, inQuote);
    if s == "" || (!inQuote && IsBlank(s[0])) {
    } else if inQuote {
      ScanExact(if s[0] == '\\' && |s| > 1 then s[2..] else s[1..], s[0] != '"');
    } else if s[0] == '"' {
      ScanExact(s[1..], true);
    } else {
      ScanExact(s[1..], false);
      var rest := Scan(s[1..], false);
      assert s[..r.used] == [s[0]] + s[1..][..rest.used];
      forall i | 0 <= i < r.used ensures '"' !in s[..r.used] ==> !IsBlank(s[i]) {
        if i > 0 { assert s[i] == s[1..][i - 1]; }
      }
    }
  }

  /** The first word of a line that has one. */
  lemma {:induction false} FirstWord(line: string, i: nat)
    requires i <= |line| && Words(line, i).Some? && exists j :: i <= j < |line| && !IsBlank(line[j])
    ensures var toks := Words(line, i).value;
      && toks != [] && i <= toks[0].start < |line| && !IsBlank(line[toks[0].start])
      && (toks[0].start == i <==> !IsBlank(line[i]))
      && var w := Scan(line[toks[0].start..], false);
         && toks[0] == Token(w.text, toks[0].start, toks[0].start + w.used) && !w.open
         && Words(line, toks[0].end) == Some(toks[1..])
    decreases |line| - i
  {
    if IsBlank(line[i]) {
      FirstWord(line, i + 1);
    } else {
      assert Words(line, i).value[1..] == Words(line, i + Scan(line[i..], false).used).value;
    }
  }

  /** Only blanks have no word. */
  lemma {:induction false} NoWord(line: string, i: nat)
    requires i <= |line| && Words(line, i) == Some([])
    ensures forall j :: i <= j < |line| ==> IsBlank(line[j])
    decreases |line| - i
  {
    if i < |line| { NoWord(line, i + 1); }
  }

  // ----- exactly what comes back as it was typed

  /** A word printed without quotes is read back exactly when it is plain. */
  lemma WordExact(s: string)
    ensures WordOf(s) == Some(s) <==> PlainWord(s)
  {
    if PlainWord(s) {
      PlainIsOneWord(s);
    } else if WordOf(s).Some? {
      NotBlank(s);
      FirstWord(s, 0);
      var t := Words(s, 0).value[0];
      if t.text == s { WholeWord(s, t.start); }
    }
  }

  /** A word whose text is the whole line has neither quotes nor blanks. */
  lemma WholeWord(s: string, i: nat)
    requires i < |s| && Scan(s[i..], false).text == s
    ensures forall j :: 0 <= j < |s| ==> !IsBlank(s[j]) && s[j] != '"'
  {
    ScanExact(s[i..], false);
    assert s[i..] == s && s[..Scan(s, false).used] == s;
  }

  lemma PlainIsOneWord(s: string)
    requires PlainWord(s)
    ensures Words(s, 0) == Some([Token(s, 0, |s|)])
  {
    assert s[0..] == s;
    ScanPlainWord(s);
    assert !IsBlank(s[0]) && Words(s, |s|) == Some([]);
    var toks := [Token(s, 0, |s|)];
    assert Words(s, 0) == Some(toks + []) && toks + [] == toks;
  }

  lemma {:induction false} ScanPlainWord(s: string)
    requires forall i :: 0 <= i < |s| ==> !IsBlank(s[i]) && s[i] != '"'
    ensures Scan(s, false) == Scanned(s, |s|, false)
  {
    if s != "" { ScanPlainWord(s[1..]); }
  }

  lemma NotBlank(s: string)
    requires Words(s, 0).Some? && Words(s, 0).value != []
    ensures exists j :: 0 <= j < |s| && !IsBlank(s[j])
  {
    WordsInside(s, 0);
    if forall j :: 0 <= j < |s| ==> IsBlank(s[j]) { AllBlank(s, 0); }
  }

  lemma {:induction false} AllBlank(s: string, i: nat)
    requires i <= |s| && forall j :: i <= j < |s| ==> IsBlank(s[j])
    ensures Words(s, i) == Some([])
    decreases |s| - i
  {
    if i < |s| { AllBlank(s, i + 1); }
  }

  /** The rest of a line printed as it is comes back exactly when it is plain. */
  lemma TextExact(s: string)
    ensures Typed(s) == Some(s) <==> PlainText(s)
    ensures Typed(s).Some? ==> |Typed(s).value| <= |s|
  {
    FailsOnOpenQuote(s, 0);
    assert s[0..] == s;
    if s != "" && OneLine(s) && Words(s, 0).Some? && Words(s, 0).value != [] {
      NotBlank(s);
      FirstWord(s, 0);
      var t := Words(s, 0).value[0];
      ScanExact(s[t.start..], false);
      TrimFixed(s[t.start..]);
      if s[t.start] == '"' { QuotedIsLonger(s, t.start); }
      OnlyWord(s, t);
    } else if s != "" && Words(s, 0) == Some([]) {
      NoWord(s, 0);
    }
  }

  lemma QuotedIsLonger(s: string, i: nat)
    requires i < |s| && s[i] == '"'
    ensures var w := Scan(s[i..], false); |w.text| < w.used
  {
    var w := Scan(s[i..], false);
    ScanExact(s[i..], false);
    assert s[i..][..w.used][0] == '"';
  }

  /** There are more words exactly when a line that does not end in a blank goes on after the first. */
  lemma OnlyWord(s: string, t: Token)
    requires Words(s, 0).Some? && Words(s, 0).value != [] && t == Words(s, 0).value[0]
    requires t.start < t.end <= |s| && Words(s, t.end) == Some(Words(s, 0).value[1..])
    ensures |Words(s, 0).value| == 1 <==> forall j :: t.end <= j < |s| ==> IsBlank(s[j])
  {
    if |Words(s, 0).value| == 1 {
      assert Words(s, 0).value[1..] == [];
      NoWord(s, t.end);
    } else if forall j :: t.end <= j < |s| ==> IsBlank(s[j]) {
      AllBlank(s, t.end);
    }
  }

  lemma SecretExact(s: string)
    ensures Secret(s) == Some(s) <==> PlainSecret(s)
  {
    WordExact(s);
  }

  /** A banner between delimiters loses them, so that it never comes back. */
  lemma BannerExact(s: string)
    ensures Typed(s).Some? && StripDelimiters(Typed(s).value) == s <==> PlainText(s) && !Delimited(s)
  {
    TextExact(s);
    if Typed(s).Some? {
      var v := Typed(s).value;
      if Delimited(v) { TrimFixed(v[1..|v| - 1]); }
    }
  }
}
