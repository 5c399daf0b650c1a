/** Small shared vocabulary: options, powers of two, byte strings and decimal numbers. */
module Basics {

  datatype Option<+T> = None | Some(value: T)

  function Pow2(n: nat): (r: nat)
    ensures r >= 1
  {
    if n == 0 then 1 else 2 * Pow2(n - 1)
  }

  lemma {:induction false} Pow2Add(a: nat, b: nat)
    ensures Pow2(a + b) == Pow2(a) * Pow2(b)
  {
    if a != 0 {
      Pow2Add(a - 1, b);
      assert Pow2(a + b) == 2 * Pow2(a - 1 + b);
    }
  }

  // ----- remainders

  lemma ModUnique(a: int, m: int, q: int, r: int)
    requires m > 0 && a == m * q + r && 0 <= r < m
    ensures a % m == r
  {
    var d := a / m - q;
    assert m * d == r - a % m by {
      assert a == m * (a / m) + a % m;
      assert m * (q + d) == m * q + m * d;
    }
    if d > 0 { MultipleIsLarge(m, d); } else if d < 0 { MultipleIsLarge(m, -d); }
  }

  lemma {:induction false} MultipleIsLarge(m: int, d: int)
    requires m > 0 && d > 0
    ensures m * d >= m && m * -d <= -m
  {
    if d > 1 {
      MultipleIsLarge(m, d - 1);
      assert m * d == m * (d - 1) + m && m * -d == -(m * d);
    }
  }

  // ----- characters and strings

  predicate IsDigit(c: char) { '0' <= c <= '9' }

  predicate IsLowerLetter(c: char) { 'a' <= c <= 'z' }

  predicate IsUpperLetter(c: char) { 'A' <= c <= 'Z' }

  predicate IsAlnum(c: char) { IsDigit(c) || IsLowerLetter(c) || IsUpperLetter(c) }

  function LowerChar(c: char): char {
    if IsUpperLetter(c) then c - 'A' + 'a' else c
  }

  /** strings.ToLower, restricted to ASCII. */
  function ToLower(s: string): (r: string)
    ensures |r| == |s|
    ensures forall i :: 0 <= i < |s| ==> r[i] == LowerChar(s[i])
  {
    if s == [] then [] else [LowerChar(s[0])] + ToLower(s[1..])
  }

  /** len: the number of bytes of the UTF-8 form. */
  function ByteLength(s: string): nat {
    if s == [] then 0
    else (if s[0] < '\U{80}' then 1 else if s[0] < '\U{800}' then 2 else if s[0] < '\U{10000}' then 3 else 4) + ByteLength(s[1..])
  }

  /** Byte-wise "<" of two strings. */
  predicate LexLess(a: string, b: string) {
    if b == [] then false
    else if a == [] then true
    else if a[0] != b[0] then a[0] < b[0]
    else LexLess(a[1..], b[1..])
  }

  lemma {:induction false} LexLessTransitive(a: string, b: string, c: string)
    requires LexLess(a, b) && LexLess(b, c)
    ensures LexLess(a, c)
  {
    if a != [] && a[0] == b[0] == c[0] {
      LexLessTransitive(a[1..], b[1..], c[1..]);
    }
  }

  lemma {:induction false} LexLessIrreflexive(a: string)
    ensures !LexLess(a, a)
  {
    if a != [] {
      LexLessIrreflexive(a[1..]);
    }
  }

  lemma {:induction false} LexTotal(a: string, b: string)
    ensures a == b || LexLess(a, b) || LexLess(b, a)
    ensures !(LexLess(a, b) && LexLess(b, a))
  {
    if a != [] && b != [] {
      LexTotal(a[1..], b[1..]);
      if a[0] == b[0] && a[1..] == b[1..] { assert a == [a[0]] + a[1..] == b; }
    }
  }

  // ----- decimal numbers

  function DigitValue(c: char): nat
    requires IsDigit(c)
  {
    (c - '0') as int
  }

  function DigitChar(d: nat): (c: char)
    requires d < 10
    ensures IsDigit(c) && DigitValue(c) == d
  {
    '0' + d as char
  }

  predicate AllDigits(s: string) { forall i :: 0 <= i < |s| ==> IsDigit(s[i]) }

  function DigitsValue(s: string): nat
    requires AllDigits(s)
  {
    if s == [] then 0 else 10 * DigitsValue(s[..|s| - 1]) + DigitValue(s[|s| - 1])
  }

  /** strconv.Atoi: an optional sign and at least one digit. Every caller
      range-checks the result, so overflow (an error in Go) is an
      out-of-range value here. */
  function Atoi(s: string): Option<int> {
    var body := if s != [] && (s[0] == '+' || s[0] == '-') then s[1..] else s;
    if body == [] || !AllDigits(body) then None
    else
      var v: int := DigitsValue(body);
      Some(if s[0] == '-' then -v else v)
  }

  /** strconv.Itoa for the non-negative numbers a configuration prints. */
  function Itoa(n: nat): (s: string)
    ensures s != [] && AllDigits(s)
  {
    if n < 10 then [DigitChar(n)] else Itoa(n / 10) + [DigitChar(n % 10)]
  }

  lemma {:induction false} AtoiItoa(n: nat)
    ensures Atoi(Itoa(n)) == Some(n)
  {
    DigitsItoa(n);
    assert IsDigit(Itoa(n)[0]);
  }

  lemma {:induction false} DigitsItoa(n: nat)
    ensures DigitsValue(Itoa(n)) == n
  {
    if n >= 10 {
      DigitsItoa(n / 10);
      assert Itoa(n)[..|Itoa(n)| - 1] == Itoa(n / 10);
    }
  }

  // ----- lines

  /** strings.Split(s, "\n"). */
  function Split(s: string): (lines: seq<string>)
    ensures lines != [] && forall l :: l in lines ==> '\n' !in l
  {
    if s == [] then [[]]
    else
      var rest := Split(s[1..]);
      if s[0] == '\n' then [[]] + rest else [[s[0]] + rest[0]] + rest[1..]
  }

  lemma {:induction false} SplitLine(line: string, rest: string)
    requires '\n' !in line && (rest == [] || rest[0] == '\n')
    ensures Split(line + rest) == [line] + (if rest == [] then [] else Split(rest[1..]))
  {
    if line == [] {
      assert line + rest == rest;
    } else {
      assert (line + rest)[1..] == line[1..] + rest && line == [line[0]] + line[1..] && line[0] in line;
      SplitLine(line[1..], rest);
      var tail := if rest == [] then [] else Split(rest[1..]);
      assert ([line[1..]] + tail)[1..] == tail;
    }
  }

  // ----- sequences

  predicate Distinct<T(==)>(s: seq<T>) {
    forall i, j :: 0 <= i < j < |s| ==> s[i] != s[j]
  }

  function ToSet<T>(s: seq<T>): set<T> { set x | x in s }

  /** What is left of a list in the same order. */
  predicate Subsequence<T(==)>(s: seq<T>, a: seq<T>) {
    s == [] || (a != [] && ((s[0] == a[0] && Subsequence(s[1..], a[1..])) || Subsequence(s, a[1..])))
  }

  lemma {:induction false} SubsequenceRemove<T>(s: seq<T>, a: seq<T>, i: nat)
    requires Subsequence(s, a) && i < |s|
    ensures Subsequence(s[..i] + s[i + 1..], a)
    decreases a
  {
    var r := s[..i] + s[i + 1..];
    if Subsequence(s, a[1..]) {
      SubsequenceRemove(s, a[1..], i);
    } else if i == 0 {
      assert r == s[1..];
      SubsequenceWiden(s[1..], a);
    } else {
      SubsequenceRemove(s[1..], a[1..], i - 1);
      assert r[1..] == s[1..][..i - 1] + s[1..][i..];
    }
  }

  lemma {:induction false} SubsequenceWiden<T>(s: seq<T>, a: seq<T>)
    requires a != [] && Subsequence(s, a[1..])
    ensures Subsequence(s, a)
  {
  }

  lemma {:induction false} SubsequenceMembers<T>(s: seq<T>, a: seq<T>)
    requires Subsequence(s, a)
    ensures forall x :: x in s ==> x in a
    decreases a
  {
    if s != [] {
      assert s == [s[0]] + s[1..] && a == [a[0]] + a[1..];
      if Subsequence(s, a[1..]) { SubsequenceMembers(s, a[1..]); } else { SubsequenceMembers(s[1..], a[1..]); }
    }
  }

  lemma {:induction false} SubsequenceRefl<T>(a: seq<T>)
    ensures Subsequence(a, a)
  {
    if a != [] { SubsequenceRefl(a[1..]); }
  }

  lemma {:induction false} SubsequenceTail<T>(s: seq<T>, a: seq<T>)
    requires s != [] && Subsequence(s, a)
    ensures a != [] && Subsequence(s[1..], a[1..])
    decreases a
  {
    if !(s[0] == a[0] && Subsequence(s[1..], a[1..])) { SubsequenceTail(s, a[1..]); SubsequenceWiden(s[1..], a[1..]); }
  }
}
