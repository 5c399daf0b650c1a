/** The boot loader's line reader (freebsd/x86/cf/site/boot/support.4th): lines are
    assembled from a file that arrives in chunks of at most 80 bytes. */
module LineReader {
  import opened Basics

  const READ_BUFFER_SIZE := 80

  const LF := '\n'

  // ----- what a text consists of

  function NonEmpty(lines: seq<string>): seq<string> {
    if lines == [] then [] else (if lines[0] == "" then [] else [lines[0]]) + NonEmpty(lines[1..])
  }

  /** The nonempty pieces between line feeds. */
  function Pieces(text: string): seq<string> { NonEmpty(Split(text)) }

  lemma PiecesAfterFeed(text: string)
    ensures Pieces([LF] + text) == Pieces(text)
  {
    assert ([LF] + text)[1..] == text;
    assert ([[]] + Split(text))[1..] == Split(text);
  }

  /** A line that ends at a line feed, or at the end, is one piece. */
  lemma PiecesOfLine(line: string, rest: string)
    requires LF !in line && (rest == [] || rest[0] == LF)
    ensures Pieces(line + rest) == NonEmpty([line]) + Pieces(rest)
  {
    hide Split;
    SplitLine(line, rest);
    var tail := if rest == [] then [] else Split(rest[1..]);
    assert ([line] + tail)[1..] == tail && [line][1..] == [];
    PiecesOfTail(rest);
  }

  lemma PiecesOfTail(rest: string)
    requires rest == [] || rest[0] == LF
    ensures Pieces(rest) == if rest == [] then [] else NonEmpty(Split(rest[1..]))
  {
    if rest != [] {
      assert rest == [LF] + rest[1..];
      PiecesAfterFeed(rest[1..]);
    } else {
      assert Split(rest) == [[]];
    }
  }

  function Feeds(n: nat): string { if n == 0 then [] else [LF] + Feeds(n - 1) }

  lemma {:induction false} PiecesAfterFeeds(n: nat, text: string)
    ensures Pieces(Feeds(n) + text) == Pieces(text)
  {
    hide Pieces;
    if n == 0 {
      assert Feeds(n) + text == text;
    } else {
      PiecesAfterFeeds(n - 1, text);
      PiecesAfterFeed(Feeds(n - 1) + text);
      Regroup([LF], Feeds(n - 1), text);
    }
  }

  // ----- the reader

  class Reader {
    /** The open file, the position of the file descriptor, and how much each read delivers at most. */
    var file: string
    var pos: nat
    var fills: nat
    const sizes: nat -> nat
    var buffer: array?<char>
    var len: nat
    var ptr: nat
    var line: string
    var eof: bool

    constructor (sizes: nat -> nat)
      ensures this.sizes == sizes && Valid() && Buffered() == "" && buffer == null
    {
      file, this.sizes, pos, fills, buffer, len, ptr, line, eof := "", sizes, 0, 0, null, 0, 0, "", true;
    }

    ghost predicate Valid()
      reads this`file, this`pos, this`buffer, this`len, this`ptr
    {
      && pos <= |file| && ptr <= len
      && (if buffer == null then len == 0 else buffer.Length == READ_BUFFER_SIZE && len <= buffer.Length)
    }

    /** What the buffer holds, read or not. */
    ghost function Buffered(): string
      requires Valid()
      reads this`file, this`pos, this`buffer, this`len, this`ptr, buffer
    {
      if buffer == null then "" else buffer[..len]
    }

    /** The next read delivers the whole file. */
    ghost predicate Whole()
      reads this`file, this`pos, this`fills
    {
      pos == 0 && |file| <= READ_BUFFER_SIZE && sizes(fills) >= |file|
    }

    /** reset_line_reading and fopen, as load_conf and peek_file start: the pointer is reset, and what
        the buffer holds is left there. */
    method Open(name: string)
      requires Valid()
      modifies this`ptr, this`eof, this`file, this`pos
      ensures Valid() && !eof && file == name && pos == 0 && Buffered() == old(Buffered()) && Rest() == Buffered() + name
    {
      eof := false;
      ptr := 0;
      file, pos := name, 0;
    }

    /** What is left in the buffer. */
    ghost function Stale(): string
      requires Valid()
      reads this`file, this`pos, this`buffer, this`len, this`ptr, buffer
    {
      if buffer == null then "" else buffer[ptr..len]
    }

    /** Everything that has not been read yet. */
    ghost function Rest(): string
      requires Valid()
      reads this`file, this`pos, this`buffer, this`len, this`ptr, buffer
    {
      Stale() + file[pos..]
    }

    /** fread: fills the start of the buffer; nothing is delivered at the end of the file only. */
    method Fread() returns (n: nat)
      requires Valid() && buffer != null
      modifies this`pos, this`fills, buffer
      ensures n <= READ_BUFFER_SIZE && pos == old(pos) + n <= |file| && buffer[..n] == file[old(pos)..pos]
      ensures n == 0 <==> old(pos) == |file|
      ensures fills == old(fills) + 1 && (old(Whole()) ==> pos == |file|)
    {
      n := sizes(fills);
      fills := fills + 1;
      if n == 0 { n := 1; }
      if n > READ_BUFFER_SIZE { n := READ_BUFFER_SIZE; }
      if n > |file| - pos { n := |file| - pos; }
      for i := 0 to n
        invariant pos == old(pos) && fills == old(fills) + 1 && buffer[..i] == file[pos..pos + i]
      {
        buffer[i] := file[pos + i];
        assert file[pos..pos + i + 1] == file[pos..pos + i] + [file[pos + i]];
      }
      pos := pos + n;
    }

    /** skip_newlines: within the buffer only. */
    method SkipNewlines() returns (ghost n: nat)
      requires Valid()
      modifies this`ptr
      ensures Valid() && old(Rest()) == Feeds(n) + Rest()
      ensures ptr < len ==> buffer[ptr] != LF
      ensures n == ptr - old(ptr)
    {
      hide Feeds;
      n := 0;
      while len > ptr
        invariant Valid() && ptr == old(ptr) + n
        invariant n > 0 ==> buffer != null && forall i :: old(ptr) <= i < ptr ==> buffer[i] == LF
        decreases len - ptr
      {
        if buffer[ptr] != LF { break; }
        ptr := ptr + 1;
        n := n + 1;
      }
      if buffer != null {
        assert buffer[old(ptr)..len] == buffer[old(ptr)..ptr] + buffer[ptr..len];
        AllFeeds(buffer[old(ptr)..ptr]);
        Regroup(buffer[old(ptr)..ptr], buffer[ptr..len], file[pos..]);
      } else {
        AllFeeds([]);
      }
    }

    /** scan_buffer: the text up to a line feed or to the end of the buffer. */
    method ScanBuffer() returns (text: string)
      requires Valid()
      modifies this`ptr
      ensures Valid() && old(Rest()) == text + Rest() && LF !in text
      ensures ptr == len || (buffer != null && buffer[ptr] == LF)
      ensures ptr == old(ptr) + |text|
    {
      if buffer == null { return ""; }
      var r := ptr;
      while len > r
        invariant ptr == old(ptr) && ptr <= r <= len && forall k :: ptr <= k < r ==> buffer[k] != LF
      {
        if buffer[r] == LF { break; }
        r := r + 1;
      }
      text := buffer[ptr..r];
      assert buffer[ptr..len] == text + buffer[r..len];
      Regroup(text, buffer[r..len], file[pos..]);
      ptr := r;
    }

    method RefillBuffer()
      requires Valid() && ptr == len && !eof
      modifies this`ptr, this`buffer, this`pos, this`fills, this`len, this`eof, buffer
      ensures Valid() && Rest() == old(Rest()) && ptr == 0 && (buffer == old(buffer) || fresh(buffer))
      ensures eof <==> len == 0
      ensures eof ==> Rest() == ""
      ensures fills == old(fills) + 1 && (old(Whole()) ==> pos == |file| && Buffered() == file)
      ensures old(pos) == |file| ==> eof
    {
      ghost var rest := Rest();
      assert rest == file[pos..];
      ptr := 0;
      if buffer == null { buffer := new char[READ_BUFFER_SIZE]; }
      len := 0;
      ghost var from := pos;
      var n := Fread();
      if n == 0 { eof := true; }
      len := n;
      assert file[from..] == file[from..pos] + file[pos..];
    }

    /** The loop of read_line: text is appended to the line, refilling as needed. */
    method CollectLine()
      requires Valid() && !eof && line == ""
      modifies this`ptr, this`buffer, this`pos, this`fills, this`len, this`eof, this`line, buffer
      ensures Valid() && (buffer == old(buffer) || fresh(buffer))
      ensures old(Rest()) == line + Rest() && LF !in line
      ensures if eof then Rest() == "" else ptr < len && buffer[ptr] == LF
      ensures old(ptr < len && buffer[ptr] != LF) ==> line != ""
      ensures old(ptr == len && Whole()) && !eof ==> Buffered() == file
    {
      hide Rest;
      ghost var rest := Rest();
      var text := ScanBuffer();
      line := text;
      assert rest == line + Rest();
      assert ptr < len ==> buffer[ptr] == LF;
      while len == ptr && !eof
        invariant Valid() && rest == line + Rest() && LF !in line && (buffer == old(buffer) || fresh(buffer))
        invariant ptr < len ==> buffer[ptr] == LF
        invariant eof ==> ptr == len && Rest() == ""
        invariant old(ptr < len && buffer[ptr] != LF) ==> line != ""
        invariant old(ptr == len && Whole()) && !eof ==> (Whole() && ptr == len) || (pos == |file| && Buffered() == file)
        decreases !eof, |Rest()|, ptr == len
      {
        RefillBuffer();
        ghost var middle := Rest();
        text := ScanBuffer();
        Regroup(line, text, Rest());
        line := line + text;
      }
    }

    /** read_line: skips line feeds in the buffer, then collects text up to a line feed, which
        stays, or to the end of the file. */
    method ReadLine()
      requires Valid() && !eof
      modifies this`ptr, this`buffer, this`pos, this`fills, this`len, this`eof, this`line, buffer
      ensures Valid() && (buffer == old(buffer) || fresh(buffer))
      ensures IsNextLine(old(Rest()), line, Rest())
      ensures if eof then Rest() == "" else ptr < len && Rest() != "" && Rest()[0] == LF
      ensures |Rest()| <= |old(Rest())| && (old(ptr < len) && !eof ==> |Rest()| < |old(Rest())|)
      ensures old(len == 0 && Whole()) && !eof ==> Buffered() == file
    {
      hide Feeds, IsNextLine;
      ghost var rest := Rest();
      line := "";
      ghost var n := SkipNewlines();
      CollectLine();
      NextLineIs(rest, n, line, Rest());
    }

    /** Reading a file line by line to its end, as process_conf does. Whatever the chunks, the
        nonempty lines are the nonempty pieces of the text that had not been read. */
    method ReadAll() returns (lines: seq<string>)
      requires Valid()
      modifies this`ptr, this`buffer, this`pos, this`fills, this`len, this`eof, this`line, buffer
      ensures Valid() && eof
      ensures !old(eof) ==> NonEmpty(lines) == Pieces(old(Rest()))
    {
      hide Pieces, NonEmpty, Feeds, Rest, Stale, IsNextLine;
      lines := [];
      NothingYet();
      while !eof
        invariant Valid() && (buffer == old(buffer) || fresh(buffer))
        invariant !old(eof) ==> NonEmpty(lines) + (if eof then [] else Pieces(Rest())) == Pieces(old(Rest()))
        decreases !eof, |Rest()|, ptr == len
      {
        ghost var before := Rest();
        ghost var found := NonEmpty(lines);
        ReadLine();
        LineIsNext(before, line, Rest());
        NonEmptySnoc(lines, line);
        Regroup(found, NonEmpty([line]), Pieces(Rest()));
        lines := lines + [line];
      }
    }

    /** load_conf: what the buffer held comes before the file, so that the lines are those of the file
        exactly when it held only line feeds. */
    method LoadConf(name: string) returns (lines: seq<string>)
      requires Valid()
      modifies this`ptr, this`buffer, this`pos, this`fills, this`len, this`eof, this`line, this`file, buffer
      ensures Valid() && NonEmpty(lines) == Pieces(old(Buffered()) + name)
      ensures NonEmpty(lines) == Pieces(name) <==> old(Buffered()) == Feeds(|old(Buffered())|)
    {
      hide Pieces, NonEmpty, Feeds;
      ghost var stale := Buffered();
      Open(name);
      lines := ReadAll();
      StaleBufferExact(stale, name);
    }

    /** peek_file: reads one line and leaves the rest in the buffer. */
    method PeekFile(name: string)
      requires Valid()
      modifies this`ptr, this`buffer, this`pos, this`fills, this`len, this`eof, this`line, this`file, buffer
      ensures Valid() && (buffer == old(buffer) || fresh(buffer)) && IsNextLine(old(Buffered()) + name, line, Rest())
      ensures old(Buffered()) == "" && |name| <= READ_BUFFER_SIZE && sizes(old(fills)) >= |name| && !eof ==> Buffered() == name
      ensures eof ==> Rest() == ""
    {
      hide Feeds, IsNextLine;
      Open(name);
      ReadLine();
    }
  }

  /** The case is real: a file that is peeked at and then another one that is loaded. */
  method PeekThenLoad(name: string) returns (lines: seq<string>)
    ensures NonEmpty(lines) == Pieces("a=1\n" + name) && NonEmpty(lines) != Pieces(name)
  {
    hide Pieces, NonEmpty, Feeds;
    var r := new Reader((i: nat) => READ_BUFFER_SIZE);
    r.PeekFile("a=1\n");
    ghost var stale := r.Buffered();
    if r.eof { NoLineLeft(r.line); }
    lines := r.LoadConf(name);
    NotOnlyFeeds();
  }

  lemma {:induction false} AllFeeds(s: string)
    requires forall i :: 0 <= i < |s| ==> s[i] == LF
    ensures s == Feeds(|s|)
  {
    if s != [] { AllFeeds(s[1..]); }
  }

  lemma {:induction false} FeedsLength(n: nat)
    ensures |Feeds(n)| == n
  {
    if n > 0 { FeedsLength(n - 1); }
  }

  lemma NothingYet()
    ensures NonEmpty([]) == []
  {
  }

  lemma Regroup<T>(a: seq<T>, b: seq<T>, c: seq<T>)
    ensures (a + b) + c == a + (b + c)
  {
  }

  /** The text before a read_line: line feeds, the line, and the text after it. */
  ghost predicate IsNextLine(before: string, line: string, after: string) {
    LF !in line && exists n :: before == Feeds(n) + (line + after)
  }

  lemma NextLineIs(before: string, n: nat, line: string, after: string)
    requires before == Feeds(n) + (line + after) && LF !in line
    ensures IsNextLine(before, line, after) && |before| == n + |line| + |after|
  {
    FeedsLength(n);
  }

  lemma LineIsNext(before: string, line: string, after: string)
    requires IsNextLine(before, line, after) && (after == [] || after[0] == LF)
    ensures Pieces(before) == NonEmpty([line]) + Pieces(after)
    ensures Pieces("") == []
  {
    var n :| before == Feeds(n) + (line + after);
    PiecesAfterFeeds(n, line + after);
    PiecesOfLine(line, after);
  }

  lemma {:induction false} NonEmptySnoc(lines: seq<string>, line: string)
    ensures NonEmpty(lines + [line]) == NonEmpty(lines) + NonEmpty([line])
  {
    if lines == [] {
      assert lines + [line] == [line];
    } else {
      assert (lines + [line])[1..] == lines[1..] + [line];
      NonEmptySnoc(lines[1..], line);
    }
  }

  // ----- what a stale buffer does

  function CountText(s: string): nat {
    if s == [] then 0 else (if s[0] == LF then 0 else 1) + CountText(s[1..])
  }

  function Total(lines: seq<string>): nat { if lines == [] then 0 else |lines[0]| + Total(lines[1..]) }

  lemma {:induction false} PiecesTotal(s: string)
    ensures Total(Pieces(s)) == CountText(s)
  {
    SplitTotal(s);
    NonEmptyTotal(Split(s));
  }

  lemma {:induction false} SplitTotal(s: string)
    ensures Total(Split(s)) == CountText(s)
  {
    if s != [] {
      SplitTotal(s[1..]);
      var rest := Split(s[1..]);
      if s[0] == LF {
        assert ([[]] + rest)[1..] == rest;
      } else {
        assert ([[s[0]] + rest[0]] + rest[1..])[1..] == rest[1..];
      }
    }
  }

  lemma {:induction false} NonEmptyTotal(lines: seq<string>)
    ensures Total(NonEmpty(lines)) == Total(lines)
  {
    if lines != [] {
      NonEmptyTotal(lines[1..]);
      assert ([lines[0]] + NonEmpty(lines[1..]))[1..] == NonEmpty(lines[1..]);
      assert [] + NonEmpty(lines[1..]) == NonEmpty(lines[1..]);
    }
  }

  lemma {:induction false} CountConcat(a: string, b: string)
    ensures CountText(a + b) == CountText(a) + CountText(b)
  {
    if a == [] {
      assert a + b == b;
    } else {
      assert (a + b)[1..] == a[1..] + b;
      CountConcat(a[1..], b);
    }
  }

  lemma {:induction false} OnlyFeeds(s: string)
    ensures CountText(s) == 0 <==> s == Feeds(|s|)
  {
    if s != [] {
      OnlyFeeds(s[1..]);
      assert s == [s[0]] + s[1..];
    }
  }

  /** Starting a file resets the pointer but keeps what the buffer holds, so that text comes
      first: the lines are those of the file exactly when the buffer holds only line feeds. */
  lemma StaleBufferExact(stale: string, file: string)
    ensures Pieces(stale + file) == Pieces(file) <==> stale == Feeds(|stale|)
  {
    PiecesTotal(stale + file);
    PiecesTotal(file);
    CountConcat(stale, file);
    OnlyFeeds(stale);
    if stale == Feeds(|stale|) { PiecesAfterFeeds(|stale|, file); }
  }

  /** A line does not reach past a line feed. */
  lemma NoLineLeft(line: string)
    ensures !IsNextLine("a=1\n", line, "")
  {
    var text := "a=1\n";
    forall n | text == Feeds(n) + (line + "") ensures LF in line {
      FeedsLength(n);
      FeedsHead(n);
      assert line + "" == line;
      assert text[3] == LF && text[0] != LF;
    }
  }

  lemma FeedsHead(n: nat)
    ensures n > 0 ==> Feeds(n)[0] == LF
  {
  }

  lemma NotOnlyFeeds()
    ensures "a=1\n" != Feeds(|"a=1\n"|)
  {
    assert Feeds(4)[0] == LF;
  }
}
