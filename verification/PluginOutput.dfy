/** The output of a check plugin: escaping, growable buffers, and taking the output apart into its short line, its
    long text and its performance data (src/utils.cc). */
module PluginOutput {
  import opened Options

  const NUL := '\0'

  /** The array holds the given text as a terminated string. */
  predicate Spells(s: seq<char>, text: string) {
    |text| < |s| && s[..|text|] == text && s[|text|] == NUL && NUL !in text
  }

  // ----- escaping -----

  function EscapedChar(c: char): string {
    if c == '\\' then ['\\', '\\'] else if c == '\n' then ['\\', 'n'] else [c]
  }

  function Escape(s: string): string {
    if s == [] then [] else EscapedChar(s[0]) + Escape(s[1..])
  }

  function Unescape(s: string): string {
    if s == [] then []
    else if |s| >= 2 && s[0] == '\\' && s[1] == '\\' then ['\\'] + Unescape(s[2..])
    else if |s| >= 2 && s[0] == '\\' && s[1] == 'n' then ['\n'] + Unescape(s[2..])
    else [s[0]] + Unescape(s[1..])
  }

  /** Unescaping after escaping is the identity. */
  lemma {:induction false} UnescapeEscape(s: string)
    ensures Unescape(Escape(s)) == s
  {
    if s != [] {
      UnescapeEscape(s[1..]);
      var rest := Escape(s[1..]);
      assert Escape(s) == EscapedChar(s[0]) + rest;
      hide Escape;
      if s[0] == '\\' || s[0] == '\n' {
        assert Escape(s)[2..] == rest;
      } else {
        assert Escape(s)[1..] == rest;
      }
      assert s == [s[0]] + s[1..];
    }
  }

  /** Escaped text is a single line, so it survives a line-oriented protocol. */
  lemma {:induction false} EscapedIsOneLine(s: string)
    ensures '\n' !in Escape(s) && (NUL in Escape(s) <==> NUL in s) && |s| <= |Escape(s)| <= 2 * |s|
  {
    if s != [] {
      EscapedIsOneLine(s[1..]);
      assert s == [s[0]] + s[1..];
    }
  }

  lemma EscapeFirst(s: string)
    requires s != []
    ensures Escape(s) == EscapedChar(s[0]) + Escape(s[1..])
  {
  }

  lemma {:induction false} EscapeConcat(s: string, more: string)
    ensures Escape(s + more) == Escape(s) + Escape(more)
  {
    hide EscapedChar;
    if s == [] {
      assert s + more == more;
    } else {
      hide Escape;
      EscapeConcat(s[1..], more);
      EscapeFirst(s);
      EscapeFirst(s + more);
      assert (s + more)[1..] == s[1..] + more by {
        TailOfConcat(s, more);
      }
      ConcatIsAssociative(EscapedChar(s[0]), Escape(s[1..]), Escape(more));
    }
  }

  lemma TailOfConcat(s: string, more: string)
    requires s != []
    ensures (s + more)[1..] == s[1..] + more && (s + more)[0] == s[0]
  {
  }

  lemma ConcatIsAssociative(a: string, b: string, c: string)
    ensures a + (b + c) == (a + b) + c
  {
  }

  lemma EscapeAppend(s: string, c: char)
    ensures Escape(s + [c]) == Escape(s) + EscapedChar(c)
  {
    hide EscapedChar;
    EscapeConcat(s, [c]);
    assert [c][1..] == [];
    assert Escape([c]) == EscapedChar(c) + [];
  }

  /** A text is escaped character by character: a backslash becomes two, a newline a backslash and an n, and nothing
      else changes. */
  lemma EscapeMeans(s: string, more: string, c: char)
    ensures Escape(s + more) == Escape(s) + Escape(more)
    ensures Escape([c]) == if c == '\\' then "\\\\" else if c == '\n' then "\\n" else [c]
  {
    EscapeConcat(s, more);
    assert [c][1..] == [];
  }

  lemma {:induction false} UnescapeFacts(s: string)
    requires NUL !in s
    ensures NUL !in Unescape(s) && |Unescape(s)| <= |s|
  {
    if s != [] {
      UnescapeFacts(s[1..]);
      if |s| >= 2 {
        UnescapeFacts(s[2..]);
      }
    }
  }

  /** One character of the loop in escape_newlines. */
  method PutEscaped(buf: array<char>, y: nat, c: char) returns (next: nat)
    requires y + 2 < buf.Length
    modifies buf
    ensures y < next <= y + 2 && buf[..next] == old(buf[..y]) + EscapedChar(c)
  {
    if c == '\\' {
      buf[y], buf[y + 1] := '\\', '\\';
      next := y + 2;
    } else if c == '\n' {
      buf[y], buf[y + 1] := '\\', 'n';
      next := y + 2;
    } else {
      buf[y] := c;
      next := y + 1;
    }
  }

  /** escape_newlines. */
  method EscapeNewlines(rawbuf: array?<char>, ghost text: string) returns (newbuf: array?<char>)
    requires rawbuf != null ==> Spells(rawbuf[..], text)
    ensures newbuf == null <==> rawbuf == null
    ensures newbuf != null ==> fresh(newbuf) && Spells(newbuf[..], Escape(text))
  {
    if rawbuf == null {
      return null;
    }
    var length := Strlen(rawbuf, text);
    newbuf := new char[length * 2 + 1];
    assert Escape(text[..0]) == [];
    hide Escape, EscapedChar;
    var x, y := 0, 0;
    while rawbuf[x] != NUL
      invariant 0 <= x <= |text| && y <= 2 * x
      invariant rawbuf[..|text|] == text && rawbuf[|text|] == NUL
      invariant newbuf[..y] == Escape(text[..x])
      decreases |text| - x
    {
      EscapeAppend(text[..x], text[x]);
      assert text[..x + 1] == text[..x] + [text[x]];
      y := PutEscaped(newbuf, y, rawbuf[x]);
      x := x + 1;
    }
    newbuf[y] := NUL;
    assert text[..x] == text;
    EscapedIsOneLine(text);
  }

  method Strlen(buf: array<char>, ghost text: string) returns (length: nat)
    requires Spells(buf[..], text)
    ensures length == |text|
  {
    length := 0;
    while buf[length] != NUL
      invariant length <= |text|
      decreases |text| - length
    {
      length := length + 1;
    }
  }

  /** How many characters of the text one unescaped character stands for, and which one it is. */
  function Width(s: string, x: nat): nat
    requires x < |s|
  {
    if s[x] == '\\' && x + 1 < |s| && (s[x + 1] == '\\' || s[x + 1] == 'n') then 2 else 1
  }

  function Meant(s: string, x: nat): char
    requires x < |s|
  {
    if Width(s, x) == 1 then s[x] else if s[x + 1] == 'n' then '\n' else '\\'
  }

  lemma UnescapeOne(s: string, x: nat)
    requires x < |s|
    ensures x + Width(s, x) <= |s|
    ensures Unescape(s[x..]) == [Meant(s, x)] + Unescape(s[x + Width(s, x)..])
  {
    var rest := s[x..];
    assert rest[1..] == s[x + 1..];
    if x + 1 < |s| {
      assert rest[2..] == s[x + 2..];
    }
  }

  /** The first loop of parse_check_output: escapes are undone in place, the write index trailing the read index. */
  method UnescapeInPlace(buf: array<char>, ghost text: string)
    requires Spells(buf[..], text)
    modifies buf
    ensures Spells(buf[..], Unescape(text))
  {
    hide Unescape;
    var x, y := 0, 0;
    assert text[0..] == text;
    while buf[x] != NUL
      invariant 0 <= y <= x <= |text|
      invariant buf[..y] + Unescape(text[x..]) == Unescape(text)
      invariant forall i :: x <= i < |text| ==> buf[i] == text[i]
      invariant buf[|text|] == NUL
      decreases |text| - x
    {
      UnescapeOne(text, x);
      ghost var done, rest := buf[..y], Unescape(text[x + Width(text, x)..]);
      if buf[x] == '\\' && buf[x + 1] == '\\' {
        x := x + 1;
        buf[y] := buf[x];
        y := y + 1;
      } else if buf[x] == '\\' && buf[x + 1] == 'n' {
        x := x + 1;
        buf[y] := '\n';
        y := y + 1;
      } else {
        buf[y] := buf[x];
        y := y + 1;
      }
      assert buf[..y] == done + [buf[y - 1]];
      x := x + 1;
      assert done + ([buf[y - 1]] + rest) == buf[..y] + rest;
    }
    UnescapeFacts(text);
    UnescapeEmpty(text, x);
    buf[y] := NUL;
  }

  lemma UnescapeEmpty(s: string, x: nat)
    requires x == |s|
    ensures Unescape(s[x..]) == []
  {
  }

  // ----- growable buffers -----

  /** (newSize / chunkSize + 1) * chunkSize: the division drops its remainder, the added chunk makes up for it. */
  lemma MemoryIsEnough(newSize: nat, chunkSize: nat)
    requires chunkSize >= 1
    ensures newSize < (newSize / chunkSize + 1) * chunkSize <= newSize + chunkSize
  {
    assert newSize == newSize / chunkSize * chunkSize + newSize % chunkSize;
    assert (newSize / chunkSize + 1) * chunkSize == newSize / chunkSize * chunkSize + chunkSize;
  }

  /** strcpy and strcat: the text is written from the given place on, and terminated. */
  method CopyText(buf: array<char>, at: nat, text: string)
    requires at + |text| < buf.Length
    modifies buf
    ensures buf[..at] == old(buf[..at]) && buf[at..at + |text|] == text && buf[at + |text|] == NUL
  {
    for x := 0 to |text|
      invariant buf[..at] == old(buf[..at]) && buf[at..at + x] == text[..x]
    {
      buf[at + x] := text[x];
    }
    buf[at + |text|] := NUL;
  }

  class DynamicBuffer {
    var buf: array?<char>
    var usedSize: nat
    var allocatedSize: nat
    const chunkSize: nat

    /** Memory, if any, is larger than what is used and holds a terminated string of that length. */
    ghost predicate Valid()
      reads this, buf
    {
      && chunkSize >= 1
      && (buf == null ==> usedSize == allocatedSize == 0)
      && (buf != null ==> buf.Length == allocatedSize > usedSize && Spells(buf[..], buf[..usedSize]))
    }

    ghost function Contents(): string
      requires Valid()
      reads this, buf
    {
      if buf == null then "" else buf[..usedSize]
    }

    /** dbuf_init. */
    constructor (chunkSize: nat)
      requires chunkSize >= 1
      ensures Valid() && Contents() == "" && buf == null
    {
      this.chunkSize := chunkSize;
      buf, usedSize, allocatedSize := null, 0, 0;
    }

    /** Room for newSize characters; resize_string copies what was there. */
    method Grow(newSize: nat)
      requires Valid() && newSize > usedSize
      modifies this`buf, this`allocatedSize
      ensures Valid() && buf != null && allocatedSize >= newSize && Contents() == old(Contents())
      ensures buf == old(buf) || fresh(buf)
    {
      if allocatedSize < newSize {
        var memoryNeeded := (newSize / chunkSize + 1) * chunkSize;
        MemoryIsEnough(newSize, chunkSize);
        var newBuf := new char[memoryNeeded];
        if buf != null {
          CopyText(newBuf, 0, buf[..usedSize]);
        }
        buf := newBuf;
        allocatedSize := memoryNeeded;
        buf[usedSize] := NUL;
      }
    }

    /** dbuf_strcat. */
    method StrCat(text: string)
      requires Valid() && NUL !in text
      modifies this, buf
      ensures Valid() && buf != null && Contents() == old(Contents()) + text && allocatedSize > usedSize
      ensures buf == old(buf) || fresh(buf)
    {
      var length := |text|;
      var newSize := usedSize + length + 1;
      Grow(newSize);
      CopyText(buf, usedSize, text);
      usedSize := usedSize + length;
      assert buf[..usedSize] == old(Contents()) + text;
    }
  }

  // ----- lines -----

  /** A line ends before a newline and, if newlines are escaped, before a backslash followed by n. */
  predicate EndsLine(s: string, x: nat, escaped: bool)
    requires x < |s|
  {
    s[x] == '\n' || (escaped && s[x] == '\\' && x + 1 < |s| && s[x + 1] == 'n')
  }

  /** Where the line after the end at x begins. */
  function NextLine(s: string, x: nat): nat
    requires x < |s|
  {
    if s[x] == '\n' then x + 1 else x + 2
  }

  function Split(s: string, escaped: bool): (lines: seq<string>)
    ensures |lines| >= 1
  {
    if s == [] then [[]]
    else if EndsLine(s, 0, escaped) then [[]] + Split(s[NextLine(s, 0)..], escaped)
    else
      var rest := Split(s[1..], escaped);
      [[s[0]] + rest[0]] + rest[1..]
  }

  /** Lines with a newline between any two. */
  function Join(lines: seq<string>): string {
    if lines == [] then []
    else if |lines| == 1 then lines[0]
    else lines[0] + "\n" + Join(lines[1..])
  }

  /** Splitting at newlines loses nothing, and leaves no newline in a line. */
  lemma {:induction false} JoinSplit(s: string)
    ensures Join(Split(s, false)) == s
    ensures forall line :: line in Split(s, false) ==> '\n' !in line
  {
    if s != [] {
      JoinSplit(s[1..]);
      var rest := Split(s[1..], false);
      assert s == [s[0]] + s[1..];
      assert Split(s, false) == if s[0] == '\n' then [[]] + rest else [[s[0]] + rest[0]] + rest[1..];
      hide Split;
      if s[0] == '\n' {
        assert Split(s, false)[1..] == rest;
      } else {
        assert Split(s, false)[1..] == rest[1..];
        assert Join(Split(s, false)) == [s[0]] + Join(rest);
      }
    }
  }

  /** Joining lines that have no newline in them loses nothing either. */
  lemma {:induction false} SplitJoin(lines: seq<string>)
    requires lines != [] && forall line :: line in lines ==> '\n' !in line
    ensures Split(Join(lines), false) == lines
  {
    var s := Join(lines);
    var x := |lines[0]|;
    assert lines[0] in lines;
    if |lines| == 1 {
      FirstLine(s, x, false);
      assert s[..x] == s;
    } else {
      assert s == lines[0] + "\n" + Join(lines[1..]);
      assert s[x] == '\n' && s[..x] == lines[0] && s[x + 1..] == Join(lines[1..]);
      FirstLine(s, x, false);
      SplitJoin(lines[1..]);
    }
  }

  predicate HasPair(s: string) {
    exists x :: 0 <= x < |s| - 1 && s[x] == '\\' && s[x + 1] == 'n'
  }

  /** The text with every backslash followed by n read as a newline. */
  function Fold(s: string): string {
    if s == [] then []
    else if s[0] == '\\' && |s| >= 2 && s[1] == 'n' then ['\n'] + Fold(s[2..])
    else [s[0]] + Fold(s[1..])
  }

  lemma {:induction false} SplitFold(s: string)
    ensures Split(s, true) == Split(Fold(s), false)
  {
    if s == [] {
    } else if s[0] == '\\' && |s| >= 2 && s[1] == 'n' {
      SplitFold(s[2..]);
      assert Fold(s)[1..] == Fold(s[2..]);
    } else {
      SplitFold(s[1..]);
      assert Fold(s)[1..] == Fold(s[1..]);
    }
  }

  lemma {:induction false} FoldIsIdentity(s: string)
    ensures |Fold(s)| <= |s| && (HasPair(s) ==> |Fold(s)| < |s|) && (!HasPair(s) ==> Fold(s) == s)
  {
    if s != [] {
      if s[0] == '\\' && |s| >= 2 && s[1] == 'n' {
        FoldIsIdentity(s[2..]);
      } else {
        FoldIsIdentity(s[1..]);
        if HasPair(s) {
          var x :| 0 <= x < |s| - 1 && s[x] == '\\' && s[x + 1] == 'n';
          assert s[1..][x - 1] == '\\' && s[1..][x - 1 + 1] == 'n';
        }
      }
    }
  }

  /** The line splitter undoes escaped newlines although all escapes were undone before. The lines of an escaped text
      are therefore those of the text exactly when it has no backslash followed by n. */
  lemma LinesOfEscapedText(s: string)
    ensures Split(Unescape(Escape(s)), true) == Split(s, false) <==> !HasPair(s)
  {
    UnescapeEscape(s);
    SplitFold(s);
    FoldIsIdentity(s);
    JoinSplit(s);
    JoinSplit(Fold(s));
  }

  /** No line ends before x, and one does at x if the text does not. */
  predicate FirstEnd(s: string, x: nat, escaped: bool)
    requires x <= |s|
  {
    (forall i :: 0 <= i < x ==> !EndsLine(s, i, escaped)) && (x < |s| ==> EndsLine(s, x, escaped))
  }

  lemma FirstEndOfRest(s: string, x: nat, escaped: bool)
    requires 0 < x <= |s| && FirstEnd(s, x, escaped)
    ensures !EndsLine(s, 0, escaped) && FirstEnd(s[1..], x - 1, escaped)
  {
    forall i | 0 <= i < x - 1 ensures !EndsLine(s[1..], i, escaped) {
      assert !EndsLine(s, i + 1, escaped);
    }
  }

  /** What the scan for the end of a line finds. */
  lemma {:induction false} FirstLine(s: string, x: nat, escaped: bool)
    requires x <= |s| && FirstEnd(s, x, escaped)
    ensures x < |s| ==> NextLine(s, x) <= |s|
    ensures Split(s, escaped) == if x == |s| then [s] else [s[..x]] + Split(s[NextLine(s, x)..], escaped)
  {
    if x > 0 {
      var rest := s[1..];
      FirstEndOfRest(s, x, escaped);
      FirstLine(rest, x - 1, escaped);
      assert Split(s, escaped) == [[s[0]] + Split(rest, escaped)[0]] + Split(rest, escaped)[1..];
      hide Split, EndsLine, FirstEnd;
      if x < |s| {
        assert rest[NextLine(rest, x - 1)..] == s[NextLine(s, x)..];
        assert [s[0]] + rest[..x - 1] == s[..x];
      } else {
        assert [s[0]] + rest == s;
      }
    } else {
      assert s[..0] == [];
    }
  }

  // ----- the parts of the output -----

  const BAR := '|'

  function SkipBars(s: string): string {
    if s != [] && s[0] == BAR then SkipBars(s[1..]) else s
  }

  function BeforeBar(s: string): string {
    if s == [] || s[0] == BAR then [] else [s[0]] + BeforeBar(s[1..])
  }

  function AfterBar(s: string): string {
    if s == [] then [] else if s[0] == BAR then s[1..] else AfterBar(s[1..])
  }

  /** A bar separates what comes before the first one from all that comes after it. */
  lemma {:induction false} BarSeparates(s: string)
    ensures BAR in s ==> s == BeforeBar(s) + "|" + AfterBar(s)
    ensures BAR !in s ==> BeforeBar(s) == s && AfterBar(s) == ""
    ensures BAR !in BeforeBar(s)
  {
    if s != [] {
      BarSeparates(s[1..]);
      assert s == [s[0]] + s[1..];
    }
  }

  /** The bars a text begins with are skipped, and nothing else. */
  lemma {:induction false} BarsAreSkipped(s: string) returns (n: nat)
    ensures n <= |s| && SkipBars(s) == s[n..] && (forall i :: 0 <= i < n ==> s[i] == '|') && (n < |s| ==> s[n] != '|')
  {
    n := 0;
    if s != [] && s[0] == BAR {
      var rest := BarsAreSkipped(s[1..]);
      n := rest + 1;
    }
  }

  /** The first bar separates what has none before it, whatever follows. */
  lemma {:induction false} FirstBarSeparates(a: string, b: string)
    requires '|' !in a
    ensures BeforeBar(a + "|" + b) == a && AfterBar(a + "|" + b) == b
  {
    var s := a + "|" + b;
    if a == [] {
      assert s[0] == BAR && s[1..] == b;
    } else {
      FirstBarSeparates(a[1..], b);
      assert s[1..] == a[1..] + "|" + b;
    }
  }

  /** What has been gathered from the lines so far. */
  datatype Gathered = Gathered(short: Option<string>, long: string, perf: string, inPerf: bool)

  function Spaced(s: string): string { if s == [] then [] else s + " " }

  function Separator(n: nat): string { if n > 2 then "\n" else "" }

  /** Line number n, counted from one. */
  function Gather(g: Gathered, n: nat, line: string): Gathered {
    if n == 1 then
      var token := SkipBars(line);
      if token == [] then g else g.(short := Some(BeforeBar(token)), perf := g.perf + AfterBar(token))
    else if g.inPerf then g.(perf := g.perf + line + " ")
    else if BAR in line then
      g.(long := g.long + Separator(n) + BeforeBar(line), perf := g.perf + Spaced(AfterBar(line)), inPerf := true)
    else g.(long := g.long + Separator(n) + line)
  }

  function GatherAll(lines: seq<string>): Gathered {
    if lines == [] then Gathered(None, "", "", false)
    else Gather(GatherAll(lines[..|lines| - 1]), |lines|, lines[|lines| - 1])
  }

  /** The first line from the given one on that has a bar. */
  function FirstBar(lines: seq<string>, from: nat): (m: nat)
    requires from <= |lines|
    ensures from <= m <= |lines| && (m < |lines| ==> BAR in lines[m])
    ensures forall i :: from <= i < m ==> BAR !in lines[i]
    decreases |lines| - from
  {
    if from == |lines| || BAR in lines[from] then from else FirstBar(lines, from + 1)
  }

  /** Long text: the lines from the second on up to the first one with a bar, which counts up to the bar. */
  function LongText(lines: seq<string>): string
    requires |lines| >= 1
  {
    var m := FirstBar(lines, 1);
    Join(lines[1..m] + if m < |lines| then [BeforeBar(lines[m])] else [])
  }

  function AllSpaced(lines: seq<string>): string {
    if lines == [] then [] else AllSpaced(lines[..|lines| - 1]) + lines[|lines| - 1] + " "
  }

  /** Performance data: what follows the first bar of the first line that is not at its beginning, what follows the
      bar that ends the long text, and all lines after that. */
  function PerfText(lines: seq<string>): string
    requires |lines| >= 1
  {
    var m := FirstBar(lines, 1);
    AfterBar(SkipBars(lines[0])) + if m < |lines| then Spaced(AfterBar(lines[m])) + AllSpaced(lines[m + 1..]) else ""
  }

  lemma {:induction false} JoinAppend(lines: seq<string>, line: string)
    ensures Join(lines + [line]) == if lines == [] then line else Join(lines) + "\n" + line
  {
    if lines != [] {
      JoinAppend(lines[1..], line);
      assert (lines + [line])[1..] == lines[1..] + [line];
    }
  }

  lemma {:induction false} FirstBarOfPrefix(lines: seq<string>, from: nat)
    requires from < |lines|
    ensures var n := |lines| - 1;
      FirstBar(lines, from) ==
        if FirstBar(lines[..n], from) < n then FirstBar(lines[..n], from) else if BAR in lines[n] then n else n + 1
    decreases |lines| - from
  {
    if from < |lines| - 1 {
      assert lines[..|lines| - 1][from] == lines[from];
      FirstBarOfPrefix(lines, from + 1);
    }
  }

  /** One more line of text, of which the last line is the current one. */
  lemma LongStep(lines: seq<string>)
    requires |lines| >= 2
    ensures var n := |lines| - 1;
      LongText(lines) ==
        if FirstBar(lines[..n], 1) < n then LongText(lines[..n])
        else
          LongText(lines[..n]) + Separator(n + 1) + if BAR in lines[n] then BeforeBar(lines[n]) else lines[n]
  {
    hide BeforeBar, FirstBar;
    var n := |lines| - 1;
    var before := lines[..n];
    FirstBarOfPrefix(lines, 1);
    assert before[1..n] + [] == lines[1..n];
    if FirstBar(before, 1) < n {
      assert lines[1..FirstBar(before, 1)] == before[1..FirstBar(before, 1)];
    } else if BAR in lines[n] {
      JoinAppend(lines[1..n], BeforeBar(lines[n]));
    } else {
      JoinAppend(lines[1..n], lines[n]);
      assert lines[1..n] + [lines[n]] == lines[1..n + 1] + [];
    }
  }

  lemma PerfStep(lines: seq<string>)
    requires |lines| >= 2
    ensures var n := |lines| - 1;
      PerfText(lines) ==
        if FirstBar(lines[..n], 1) < n then PerfText(lines[..n]) + lines[n] + " "
        else PerfText(lines[..n]) + if BAR in lines[n] then Spaced(AfterBar(lines[n])) else ""
  {
    var n := |lines| - 1;
    var m := FirstBar(lines[..n], 1);
    FirstBarOfPrefix(lines, 1);
    assert lines[..n][0] == lines[0];
    if m < n {
      assert lines[m + 1..][..n - m - 1] == lines[..n][m + 1..];
      assert lines[m + 1..][n - m - 1] == lines[n];
    } else {
      assert lines[n + 1..] == [];
    }
  }

  /** What the line by line processing gathers is the long text and the performance data. */
  lemma {:induction false} GatheredParts(lines: seq<string>)
    requires |lines| >= 1
    ensures var g := GatherAll(lines);
      && g.long == LongText(lines) && g.perf == PerfText(lines)
      && (g.inPerf <==> FirstBar(lines, 1) < |lines|)
      && g.short == (if SkipBars(lines[0]) == [] then None else Some(BeforeBar(SkipBars(lines[0]))))
  {
    var n := |lines| - 1;
    if n == 0 {
      OneLine(lines);
    } else {
      hide LongText, PerfText;
      GatheredParts(lines[..n]);
      FirstBarOfPrefix(lines, 1);
      LongStep(lines);
      PerfStep(lines);
    }
  }

  lemma OneLine(lines: seq<string>)
    requires |lines| == 1
    ensures LongText(lines) == "" && PerfText(lines) == AfterBar(SkipBars(lines[0]))
    ensures GatherAll(lines) == Gather(Gathered(None, "", "", false), 1, lines[0])
  {
    assert lines[..0] == [];
    assert lines[1..1] + [] == [];
  }

  predicate Blank(c: char) { c == ' ' || c == '\n' || c == '\r' || c == '\t' }

  function TrimStart(s: string): string {
    if s != [] && Blank(s[0]) then TrimStart(s[1..]) else s
  }

  function TrimEnd(s: string): string {
    if s != [] && Blank(s[|s| - 1]) then TrimEnd(s[..|s| - 1]) else s
  }

  function Strip(s: string): string {
    TrimStart(TrimEnd(s))
  }

  /** Stripping cuts blanks off both ends, as many as there are, and nothing else. */
  lemma StripCutsBlanks(s: string) returns (from: nat, to: nat)
    ensures from <= to <= |s| && Strip(s) == s[from..to]
    ensures forall i :: 0 <= i < from || to <= i < |s| ==> s[i] in {' ', '\n', '\r', '\t'}
    ensures from < to ==> s[from] !in {' ', '\n', '\r', '\t'} && s[to - 1] !in {' ', '\n', '\r', '\t'}
  {
    to := EndIsTrimmed(s);
    from := StartIsTrimmed(s[..to]);
  }

  lemma {:induction false} EndIsTrimmed(s: string) returns (to: nat)
    ensures to <= |s| && TrimEnd(s) == s[..to] && (forall i :: to <= i < |s| ==> Blank(s[i]))
    ensures to > 0 ==> !Blank(s[to - 1])
  {
    to := |s|;
    if s != [] && Blank(s[|s| - 1]) {
      to := EndIsTrimmed(s[..|s| - 1]);
      assert s[..|s| - 1][..to] == s[..to];
    }
  }

  lemma {:induction false} StartIsTrimmed(s: string) returns (from: nat)
    ensures from <= |s| && TrimStart(s) == s[from..] && (forall i :: 0 <= i < from ==> Blank(s[i]))
    ensures from < |s| ==> !Blank(s[from])
  {
    from := 0;
    if s != [] && Blank(s[0]) {
      var rest := StartIsTrimmed(s[1..]);
      from := rest + 1;
    }
  }

  datatype Output = Output(short: Option<string>, long: Option<string>, perf: Option<string>)

  /** The lines of a plugin's output. */
  function Lines(text: string, newlinesAreEscaped: bool): (lines: seq<string>)
    ensures |lines| >= 1
  {
    Split(if newlinesAreEscaped then Unescape(text) else text, newlinesAreEscaped)
  }

  function Finished(g: Gathered, escapeNewlines: bool): Output {
    Output(if g.short.None? then None else Some(Strip(g.short.value)),
           if g.long == "" then None else Some(if escapeNewlines then Escape(g.long) else g.long),
           if g.perf == "" then None else Some(Strip(g.perf)))
  }

  /** The parts of an output. */
  function PartsOf(text: string, escapeNewlines: bool, newlinesAreEscaped: bool): Output {
    if text == "" then Output(None, None, None)
    else Finished(GatherAll(Lines(text, newlinesAreEscaped)), escapeNewlines)
  }

  /** A text without backslash followed by n that reaches the parser escaped comes out by its own lines, and
      unescaping what is kept of its later lines gives back the long text. */
  lemma EscapedTextComesThrough(s: string)
    requires s != "" && !HasPair(s)
    ensures var lines := Split(s, false);
      var parts := PartsOf(Escape(s), true, true);
      && parts.short == (if SkipBars(lines[0]) == [] then None else Some(Strip(BeforeBar(SkipBars(lines[0])))))
      && (LongText(lines) == "" ==> parts.long.None?)
      && (LongText(lines) != "" ==> parts.long.Some? && Unescape(parts.long.value) == LongText(lines))
      && parts.perf == (if PerfText(lines) == "" then None else Some(Strip(PerfText(lines))))
  {
    hide Strip, LongText, PerfText;
    LinesOfEscapedText(s);
    EscapedIsOneLine(s);
    GatheredParts(Split(s, false));
    UnescapeEscape(LongText(Split(s, false)));
  }

  /** Text without backslashes keeps its lines, whether newlines are said to be escaped or not. */
  lemma PlainTextComesThrough(s: string, escapeNewlines: bool, newlinesAreEscaped: bool)
    requires s != "" && '\\' !in s
    ensures var lines := Split(s, false);
      var parts := PartsOf(s, escapeNewlines, newlinesAreEscaped);
      && parts.short == (if SkipBars(lines[0]) == [] then None else Some(Strip(BeforeBar(SkipBars(lines[0])))))
      && parts.long == (if LongText(lines) == "" then None
                        else Some(if escapeNewlines then Escape(LongText(lines)) else LongText(lines)))
      && parts.perf == (if PerfText(lines) == "" then None else Some(Strip(PerfText(lines))))
  {
    hide Strip, LongText, PerfText;
    PlainIsUnescaped(s);
    SplitFold(s);
    FoldIsIdentity(s);
    GatheredParts(Split(s, false));
  }

  lemma {:induction false} PlainIsUnescaped(s: string)
    requires '\\' !in s
    ensures Unescape(s) == s
  {
    if s != [] {
      PlainIsUnescaped(s[1..]);
    }
  }

  /** A single line: what comes before its first bar, and what comes after it, each without blanks at its ends. */
  lemma OneLineOutput(a: string, b: string, escapeNewlines: bool, newlinesAreEscaped: bool)
    requires a != "" && '|' !in a && '\n' !in a + b && '\\' !in a + b
    ensures PartsOf(a + "|" + b, escapeNewlines, newlinesAreEscaped) ==
            Output(Some(Strip(a)), None, if b == "" then None else Some(Strip(b)))
    ensures PartsOf(a, escapeNewlines, newlinesAreEscaped) == Output(Some(Strip(a)), None, None)
  {
    hide Strip, LongText, PerfText, PartsOf, Split;
    FirstBarSeparates(a, b);
    BarSeparates(a);
    OnlyLine(a + "|" + b);
    OnlyLine(a);
    PlainTextComesThrough(a + "|" + b, escapeNewlines, newlinesAreEscaped);
    PlainTextComesThrough(a, escapeNewlines, newlinesAreEscaped);
  }

  lemma OnlyLine(s: string)
    requires '\n' !in s
    ensures Split(s, false) == [s] && LongText([s]) == "" && PerfText([s]) == AfterBar(SkipBars(s))
  {
    SplitJoin([s]);
    OneLine([s]);
  }

  /** A plugin's whole output: a line of text and performance data, lines of text, the last of which has a bar, and a
      line of performance data. The long output is made of the lines of text, the performance data is put together
      from all three places; no space comes between that of the first line and the rest. */
  lemma WholeOutput(a: string, b: string, texts: seq<string>, last: string, p: string, q: string,
                    escapeNewlines: bool, newlinesAreEscaped: bool)
    requires a != "" && '|' !in a && '|' !in last && p != "" && forall t :: t in texts ==> '|' !in t
    requires forall t :: t in texts + [a, b, last, p, q] ==> '\n' !in t
    requires '\\' !in Join([a + "|" + b] + texts + [last + "|" + p, q])
    ensures var long := Join(texts + [last]);
      PartsOf(Join([a + "|" + b] + texts + [last + "|" + p, q]), escapeNewlines, newlinesAreEscaped) ==
        Output(Some(Strip(a)), if long == "" then None else Some(if escapeNewlines then Escape(long) else long),
               Some(Strip(b + p + " " + q + " ")))
  {
    hide Strip, LongText, PerfText, PartsOf, Split, Join;
    var lines := [a + "|" + b] + texts + [last + "|" + p, q];
    FirstBarSeparates(a, b);
    forall t | t in lines ensures '\n' !in t {
      assert forall u :: u in [a, b, last, p, q] ==> u in texts + [a, b, last, p, q];
    }
    SplitJoin(lines);
    PartsOfLines(a, b, texts, last, p, q);
    assert Join(lines) != "" by {
      JoinIsNotEmpty(lines);
    }
    PlainTextComesThrough(Join(lines), escapeNewlines, newlinesAreEscaped);
  }

  lemma JoinIsNotEmpty(lines: seq<string>)
    requires lines != [] && lines[0] != ""
    ensures Join(lines) != ""
  {
  }

  lemma PartsOfLines(a: string, b: string, texts: seq<string>, last: string, p: string, q: string)
    requires a != "" && '|' !in a && '|' !in last && p != "" && forall t :: t in texts ==> '|' !in t
    ensures var lines := [a + "|" + b] + texts + [last + "|" + p, q];
      && SkipBars(lines[0]) == lines[0]
      && LongText(lines) == Join(texts + [last]) && PerfText(lines) == b + p + " " + q + " "
  {
    hide Join, BeforeBar, AfterBar;
    var lines := [a + "|" + b] + texts + [last + "|" + p, q];
    var m := |texts| + 1;
    FirstBarSeparates(a, b);
    FirstBarSeparates(last, p);
    assert lines[0] == a + "|" + b && lines[m] == last + "|" + p && lines[1..m] == texts;
    assert lines[m][|last|] == BAR;
    assert forall i :: 1 <= i < m ==> lines[i] == texts[i - 1];
    assert FirstBar(lines, 1) == m;
    assert lines[m + 1..] == [q] && [q][..0] == [];
    assert AllSpaced([q]) == AllSpaced([]) + q + " ";
  }

  // ----- parse_check_output -----

  /** A copy of a terminated string. */
  method Duplicate(buf: array<char>, ghost text: string) returns (copy: string)
    requires Spells(buf[..], text)
    ensures copy == text
  {
    var length := Strlen(buf, text);
    copy := buf[..length];
  }

  /** One step of the scan: at the end of a line the line is cut off and the rest is moved to the front. */
  method TakeLine(buf: array<char>, x: nat, usedBuf: nat, newlinesAreEscaped: bool, ghost rest: string)
    returns (found: bool, eof: bool, line: string, left: nat)
    requires Spells(buf[..], rest) && x <= |rest| < usedBuf <= buf.Length
    modifies buf
    ensures !found ==> !eof && left == usedBuf && buf[..] == old(buf[..])
    ensures !found ==> x < |rest| && !EndsLine(rest, x, newlinesAreEscaped)
    ensures found ==> line == rest[..x] && NUL !in line && eof == (x == |rest|)
    ensures found && !eof ==> EndsLine(rest, x, newlinesAreEscaped)
    ensures found && !eof ==> left == usedBuf - NextLine(rest, x) && Spells(buf[..], rest[NextLine(rest, x)..])
  {
    ghost var before := buf[..];
    found, eof, line, left := false, false, "", usedBuf;
    var end := x;
    if buf[x] == '\n' {
      found := true;
    } else if buf[x] == '\\' && buf[x + 1] == 'n' && newlinesAreEscaped {
      found := true;
      buf[x] := NUL;
      end := x + 1;
    } else if buf[x] == NUL {
      found := true;
      eof := true;
    }
    if found {
      ghost var next := if eof then [] else rest[end + 1..];
      buf[end] := NUL;
      line := Duplicate(buf, rest[..x]);
      if !eof {
        TailSpells(before, rest, end + 1, usedBuf);
        assert buf[end + 1..usedBuf] == before[end + 1..usedBuf];
      }
      left := ShiftToFront(buf, end + 1, usedBuf, next);
    }
  }

  lemma TailSpells(s: seq<char>, text: string, from: nat, to: nat)
    requires Spells(s, text) && from <= |text| < to <= |s|
    ensures Spells(s[from..to], text[from..])
  {
    assert s[from..to][..|text| - from] == s[..|text|][from..];
  }

  /** The unread part of the buffer is moved to the front and terminated. */
  method ShiftToFront(buf: array<char>, from: nat, usedBuf: nat, ghost text: string) returns (left: nat)
    requires 1 <= from <= usedBuf <= buf.Length
    modifies buf
    ensures left == usedBuf - from
    ensures old(Spells(buf[from..usedBuf], text)) ==> Spells(buf[..], text)
  {
    ghost var before := buf[from..usedBuf];
    left := usedBuf - from;
    CopyText(buf, 0, buf[from..usedBuf]);
    assert buf[..left] == before;
    if Spells(before, text) {
      assert buf[..|text|] == before[..|text|] && buf[|text|] == before[|text|];
    }
  }

  /** The buffers share no memory. */
  ghost predicate Apart(db1: DynamicBuffer, db2: DynamicBuffer)
    reads db1, db2
  {
    db1 != db2 && (db1.buf != null ==> db1.buf != db2.buf)
  }

  /** The first line: short output and optional performance data. */
  method HandleFirstLine(line: string, db2: DynamicBuffer) returns (short: Option<string>)
    requires db2.Valid() && NUL !in line
    modifies db2, db2.buf
    ensures db2.Valid() && (db2.buf == old(db2.buf) || fresh(db2.buf))
    ensures db2.Contents() == old(db2.Contents()) + AfterBar(SkipBars(line))
    ensures short == if SkipBars(line) == [] then None else Some(BeforeBar(SkipBars(line)))
  {
    short := None;
    var token := SkipBars(line);
    BarsKeepText(line);
    if token != [] {
      short := Some(BeforeBar(token));
      var rest := AfterBar(token);
      if rest != [] {
        db2.StrCat(rest);
      }
    }
  }

  lemma {:induction false} BarsKeepText(s: string)
    ensures NUL !in s ==> NUL !in SkipBars(s) && NUL !in BeforeBar(s)
    ensures NUL !in s ==> NUL !in AfterBar(s) && NUL !in AfterBar(SkipBars(s))
  {
    if s != [] {
      BarsKeepText(s[1..]);
      assert s[0] in s;
    }
  }

  /** The text of a later line, on a line of its own. */
  method AppendLong(db: DynamicBuffer, currentLine: nat, text: string)
    requires db.Valid() && NUL !in text
    modifies db, db.buf
    ensures db.Valid() && (db.buf == old(db.buf) || fresh(db.buf))
    ensures db.Contents() == old(db.Contents()) + Separator(currentLine) + text
  {
    if currentLine > 2 {
      db.StrCat("\n");
    }
    db.StrCat(text);
  }

  /** Performance data, followed by a space. */
  method AppendPerf(db: DynamicBuffer, text: string)
    requires db.Valid() && NUL !in text
    modifies db, db.buf
    ensures db.Valid() && (db.buf == old(db.buf) || fresh(db.buf))
    ensures db.Contents() == old(db.Contents()) + text + " "
  {
    db.StrCat(text);
    db.StrCat(" ");
  }

  /** A later line while the long output lasts. */
  method HandleLongLine(line: string, currentLine: nat, db1: DynamicBuffer, db2: DynamicBuffer)
    returns (inPerfData: bool)
    requires db1.Valid() && db2.Valid() && Apart(db1, db2) && NUL !in line
    modifies db1, db1.buf, db2, db2.buf
    ensures db1.Valid() && db2.Valid() && Apart(db1, db2) && inPerfData == (BAR in line)
    ensures (db1.buf == old(db1.buf) || fresh(db1.buf)) && (db2.buf == old(db2.buf) || fresh(db2.buf))
    ensures db1.Contents() == old(db1.Contents()) + Separator(currentLine) +
      if BAR in line then BeforeBar(line) else line
    ensures db2.Contents() == old(db2.Contents()) + if BAR in line then Spaced(AfterBar(line)) else ""
  {
    hide BeforeBar, AfterBar, Separator;
    BarsKeepText(line);
    if BAR in line {
      AppendLong(db1, currentLine, BeforeBar(line));
      var rest := AfterBar(line);
      if rest != [] {
        AppendPerf(db2, rest);
      }
      inPerfData := true;
    } else {
      AppendLong(db1, currentLine, line);
      inPerfData := false;
    }
  }

  /** One line of input. */
  method HandleLine(line: string, currentLine: nat, short: Option<string>, inPerf: bool, db1: DynamicBuffer,
                    db2: DynamicBuffer)
    returns (newShort: Option<string>, newInPerf: bool)
    requires db1.Valid() && db2.Valid() && Apart(db1, db2) && NUL !in line && currentLine >= 1
    requires currentLine == 1 ==> short.None? && !inPerf
    modifies db1, db1.buf, db2, db2.buf
    ensures db1.Valid() && db2.Valid() && Apart(db1, db2)
    ensures (db1.buf == old(db1.buf) || fresh(db1.buf)) && (db2.buf == old(db2.buf) || fresh(db2.buf))
    ensures Gathered(newShort, db1.Contents(), db2.Contents(), newInPerf) ==
      Gather(Gathered(short, old(db1.Contents()), old(db2.Contents()), inPerf), currentLine, line)
  {
    newShort, newInPerf := short, inPerf;
    if currentLine == 1 {
      newShort := HandleFirstLine(line, db2);
    } else if inPerf {
      AppendPerf(db2, line);
    } else {
      newInPerf := HandleLongLine(line, currentLine, db1, db2);
    }
  }

  lemma GatherOneMore(lines: seq<string>, n: nat)
    requires n < |lines|
    ensures GatherAll(lines[..n + 1]) == Gather(GatherAll(lines[..n]), n + 1, lines[n])
  {
    assert lines[..n + 1][..n] == lines[..n];
  }

  /** The lines of the text are the ones taken so far and those of the rest. */
  lemma LineTaken(lines: seq<string>, taken: nat, rest: string, x: nat, escaped: bool)
    requires taken <= |lines| && lines[taken..] == Split(rest, escaped)
    requires x <= |rest| && FirstEnd(rest, x, escaped)
    ensures taken < |lines| && lines[taken] == rest[..x]
    ensures if x == |rest| then taken + 1 == |lines|
      else NextLine(rest, x) <= |rest| && lines[taken + 1..] == Split(rest[NextLine(rest, x)..], escaped)
  {
    FirstLine(rest, x, escaped);
    assert lines[taken] == lines[taken..][0];
    assert lines[taken + 1..] == lines[taken..][1..];
  }

  /** The loop of parse_check_output over the input, which is shifted to the front after every line. */
  method GatherLines(buf: array<char>, length: nat, newlinesAreEscaped: bool, ghost text: string)
    returns (short: Option<string>, db1: DynamicBuffer, db2: DynamicBuffer)
    requires Spells(buf[..], text) && |text| < length <= buf.Length
    modifies buf
    ensures fresh(db1) && fresh(db2) && db1.Valid() && db2.Valid()
    ensures var g := GatherAll(Split(text, newlinesAreEscaped));
      short == g.short && db1.Contents() == g.long && db2.Contents() == g.perf
  {
    hide Split, Gather, Spells, EndsLine, DynamicBuffer.Valid, DynamicBuffer.Contents;
    short := None;
    db1 := new DynamicBuffer(1024);
    db2 := new DynamicBuffer(1024);
    ghost var lines := Split(text, newlinesAreEscaped);
    ghost var rest := text;
    var currentLine, inPerfData, usedBuf, x, eof := 0, false, length, 0, false;
    while !eof
      invariant fresh(db1) && fresh(db2) && db1.Valid() && db2.Valid() && Apart(db1, db2)
      invariant (db1.buf != null ==> fresh(db1.buf)) && (db2.buf != null ==> fresh(db2.buf))
      invariant 0 <= currentLine <= |lines| && (currentLine == 0 ==> short.None? && !inPerfData)
      invariant GatherAll(lines[..currentLine]) == Gathered(short, db1.Contents(), db2.Contents(), inPerfData)
      invariant if eof then currentLine == |lines| else lines[currentLine..] == Split(rest, newlinesAreEscaped)
      invariant !eof ==> Spells(buf[..], rest) && x <= |rest| < usedBuf <= buf.Length
      invariant !eof ==> forall i :: 0 <= i < x ==> !EndsLine(rest, i, newlinesAreEscaped)
      decreases !eof, usedBuf - x
    {
      var found, end, line, left := TakeLine(buf, x, usedBuf, newlinesAreEscaped, rest);
      x := x + 1;
      if found {
        LineTaken(lines, currentLine, rest, x - 1, newlinesAreEscaped);
        GatherOneMore(lines, currentLine);
        currentLine := currentLine + 1;
        short, inPerfData := HandleLine(line, currentLine, short, inPerfData, db1, db2);
        if !end {
          rest := rest[NextLine(rest, x - 1)..];
        }
        eof, usedBuf, x := end, left, 0;
      }
    }
    assert lines[..currentLine] == lines;
  }

  /** parse_check_output: the input buffer is used up, the parts are returned. */
  method ParseCheckOutput(buf: array?<char>, escapeNewlines: bool, newlinesAreEscaped: bool, ghost text: string)
    returns (output: Output)
    requires buf != null ==> Spells(buf[..], text)
    modifies buf
    ensures output == if buf == null then Output(None, None, None)
      else PartsOf(text, escapeNewlines, newlinesAreEscaped)
  {
    hide GatherAll, Strip, Split;
    if buf == null || buf[0] == NUL {
      return Output(None, None, None);
    }
    var length := Strlen(buf, text);
    ghost var unescaped := text;
    if newlinesAreEscaped {
      UnescapeInPlace(buf, text);
      unescaped := Unescape(text);
      UnescapeFacts(text);
    }
    var short, db1, db2 := GatherLines(buf, length + 1, newlinesAreEscaped, unescaped);
    var long := LongOutput(db1, escapeNewlines);
    var perf := if db2.buf != null && db2.usedSize > 0 then Some(db2.buf[..db2.usedSize]) else None;
    output := Output(if short.None? then None else Some(Strip(short.value)), long,
                     if perf.None? then None else Some(Strip(perf.value)));
  }

  /** The long output is kept escaped if that is asked for. */
  method LongOutput(db: DynamicBuffer, escapeNewlines: bool) returns (long: Option<string>)
    requires db.Valid()
    ensures long == if db.Contents() == "" then None
      else Some(if escapeNewlines then Escape(db.Contents()) else db.Contents())
  {
    if db.buf == null || db.usedSize == 0 {
      return None;
    }
    if !escapeNewlines {
      var copy := Duplicate(db.buf, db.Contents());
      return Some(copy);
    }
    var escaped := EscapeNewlines(db.buf, db.Contents());
    var copy := Duplicate(escaped, Escape(db.Contents()));
    return Some(copy);
  }
}
