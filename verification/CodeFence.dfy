/** Code spans and fenced code blocks: what the web client writes, and what a CommonMark
    0.31 reader makes of it (sections 6.1 and 4.5). */
module CodeFence {
  import opened Prelude
  import opened Text

  const TICK := '`'

  // ------------------------------------------------------------ backtick runs

  /** How many backticks follow each other from position `i`. */
  function RunAt(s: string, i: nat): (n: nat)
    ensures i <= |s| ==> i + n <= |s|
    decreases |s| - i
  {
    if i < |s| && s[i] == TICK then 1 + RunAt(s, i + 1) else 0
  }

  /** The longest of the maximal runs from position `i` on. */
  function LongestFrom(s: string, i: nat): nat
    decreases |s| - i
  {
    if i >= |s| then 0
    else if s[i] != TICK then LongestFrom(s, i + 1)
    else
      var n := RunAt(s, i);
      var m := LongestFrom(s, i + n);
      if n > m then n else m
  }

  function LongestBacktickRun(text: string): nat {
    LongestFrom(text, 0)
  }

  lemma {:induction false} RunInterior(s: string, i: nat, k: nat)
    requires k <= RunAt(s, i)
    ensures RunAt(s, i + k) == RunAt(s, i) - k
    decreases k
  {
    if k > 0 {
      RunInterior(s, i + 1, k - 1);
    }
  }

  lemma {:induction false} LongestBoundsFrom(s: string, i: nat, k: nat)
    requires i <= k < |s|
    ensures RunAt(s, k) <= LongestFrom(s, i)
    decreases |s| - i
  {
    if s[i] != TICK {
      if i < k {
        LongestBoundsFrom(s, i + 1, k);
      }
    } else if k < i + RunAt(s, i) {
      RunInterior(s, i, k - i);
    } else {
      LongestBoundsFrom(s, i + RunAt(s, i), k);
    }
  }

  /** No run anywhere is longer ... */
  lemma LongestBounds(s: string, k: nat)
    ensures RunAt(s, k) <= LongestBacktickRun(s)
  {
    if k < |s| {
      LongestBoundsFrom(s, 0, k);
    }
  }

  /** ... and one is as long. */
  lemma {:induction false} LongestAttained(s: string, i: nat) returns (k: nat)
    requires i <= |s|
    ensures i <= k <= |s| && RunAt(s, k) == LongestFrom(s, i)
    decreases |s| - i
  {
    if i == |s| {
      k := i;
    } else if s[i] != TICK {
      k := LongestAttained(s, i + 1);
    } else {
      k := LongestAttained(s, i + RunAt(s, i));
      if RunAt(s, i) > RunAt(s, k) {
        k := i;
      }
    }
  }

  /** A run inside a part of the text that no backtick follows. */
  lemma {:induction false} RunInPart(s: string, a: nat, b: nat, k: nat)
    requires a <= k <= b <= |s| && (b < |s| ==> s[b] != TICK)
    ensures RunAt(s, k) == RunAt(s[a..b], k - a)
    decreases b - k
  {
    if k < b {
      RunInPart(s, a, b, k + 1);
    }
  }

  // -------------------------------------------------------------- the writers

  function Ticks(n: nat): (s: string)
    ensures |s| == n
  {
    seq(n, (i: nat) => TICK)
  }

  function Pad(text: string): string {
    if text != [] && (text[0] == TICK || text[|text| - 1] == TICK) then [' '] else []
  }

  /** What goes between the fences of a code span. */
  function Body(text: string): string {
    Pad(text) + text + Pad(text)
  }

  function InlineCode(text: string): string {
    var fence := Ticks(LongestBacktickRun(text) + 1);
    fence + Body(text) + fence
  }

  function FenceLength(text: string): nat {
    if LongestBacktickRun(text) + 1 > 3 then LongestBacktickRun(text) + 1 else 3
  }

  function CodeFence(text: string): string {
    var fence := Ticks(FenceLength(text));
    fence + ['\n'] + text + ['\n'] + fence
  }

  lemma {:induction false} TicksRun(s: string, a: nat, n: nat)
    requires a + n <= |s| && s[a..a + n] == Ticks(n) && (a + n < |s| ==> s[a + n] != TICK)
    ensures RunAt(s, a) == n
    decreases n
  {
    if n > 0 {
      assert s[a] == s[a..a + n][0];
      assert s[a + 1..a + n] == s[a..a + n][1..] == Ticks(n - 1);
      TicksRun(s, a + 1, n - 1);
    }
  }

  // ---------------------------------------------------- code spans, section 6.1

  /** The next maximal run of exactly `n` backticks from position `i` on; `i` is not
      inside a run. */
  function FindRun(s: string, i: nat, n: nat): (r: Option<nat>)
    ensures r.Some? ==> i <= r.value < |s|
    decreases |s| - i
  {
    if i >= |s| then None
    else if s[i] != TICK then FindRun(s, i + 1, n)
    else if RunAt(s, i) == n then Some(i)
    else FindRun(s, i + RunAt(s, i), n)
  }

  predicate HasLineEnding(s: string) {
    exists i :: 0 <= i < |s| && LineEnding(s[i])
  }

  /** Line endings become spaces, a carriage return and line feed pair a single one. */
  function Spaced(s: string): string {
    if s == [] then []
    else if s[0] == '\r' && |s| > 1 && s[1] == '\n' then [' '] + Spaced(s[2..])
    else [if LineEnding(s[0]) then ' ' else s[0]] + Spaced(s[1..])
  }

  predicate Blank(s: string) {
    forall i :: 0 <= i < |s| ==> s[i] == ' '
  }

  /** A space at both ends of a text that is more than spaces. */
  predicate Cushioned(s: string) {
    s != [] && s[0] == ' ' && s[|s| - 1] == ' ' && !Blank(s)
  }

  function Stripped(s: string): string {
    if Cushioned(s) && |s| >= 2 then s[1..|s| - 1] else s
  }

  datatype Span = Span(content: string, end: nat)

  /** The code span that starts with the document, if one does. */
  function ReadSpan(doc: string): Option<Span> {
    var n := RunAt(doc, 0);
    var close := FindRun(doc, n, n);
    if n == 0 || close.None? then None
    else Some(Span(Stripped(Spaced(doc[n..close.value])), close.value + n))
  }

  lemma {:induction false} FindSkips(s: string, i: nat, j: nat, n: nat)
    requires i <= j <= |s|
    requires forall k :: i <= k < j && s[k] == TICK ==> RunAt(s, k) != n && k + RunAt(s, k) <= j
    ensures FindRun(s, i, n) == FindRun(s, j, n)
    decreases j - i
  {
    if i < j {
      FindSkips(s, if s[i] == TICK then i + RunAt(s, i) else i + 1, j, n);
    }
  }

  lemma {:induction false} SpacedExact(s: string)
    ensures !HasLineEnding(Spaced(s))
    ensures Spaced(s) == s <==> !HasLineEnding(s)
  {
    if s != [] {
      var pair := s[0] == '\r' && |s| > 1 && s[1] == '\n';
      var rest := if pair then s[2..] else s[1..];
      SpacedExact(rest);
      var out := Spaced(s);
      assert out[1..] == Spaced(rest);
      forall i | 0 <= i < |out|
        ensures !LineEnding(out[i])
      {
        assert i > 0 ==> out[i] == Spaced(rest)[i - 1];
      }
      if LineEnding(s[0]) {
        assert out[0] == ' ';
      } else {
        assert forall i :: 0 <= i < |rest| ==> rest[i] == s[i + 1];
        assert s == [s[0]] + rest;
        assert HasLineEnding(s) ==> HasLineEnding(rest);
      }
    }
  }

  /** Written alone or before anything but a backtick, a code span is read to its very
      end, and gives a text back exactly when the text is not empty, has no line ending,
      and is not cushioned by spaces. */
  lemma InlineSurvives(text: string, rest: string)
    requires rest == [] || rest[0] != TICK
    ensures
      ReadSpan(InlineCode(text) + rest) == Some(Span(text, |InlineCode(text)|)) <==>
      text != [] && !HasLineEnding(text) && !Cushioned(text)
  {
    if text == [] {
      EmptyIsNoSpan(rest);
    } else {
      SpanCloses(text, rest);
      ContentExact(text);
    }
  }

  lemma EmptyIsNoSpan(rest: string)
    requires rest == [] || rest[0] != TICK
    ensures ReadSpan(InlineCode([]) + rest) != Some(Span([], 2))
  {
    var doc := InlineCode([]) + rest;
    assert doc[0..2] == Ticks(2);
    TicksRun(doc, 0, 2);
  }

  /** A run inside a part that does not end in a backtick ends inside it. */
  lemma {:induction false} RunInBody(s: string, a: nat, body: string, k: nat)
    requires a + |body| <= |s| && s[a..a + |body|] == body && body != [] && body[|body| - 1] != TICK && k < |body|
    ensures RunAt(s, a + k) == RunAt(body, k) && k + RunAt(body, k) < |body|
    decreases |body| - k
  {
    assert s[a + k] == s[a..a + |body|][k];
    if body[k] == TICK {
      RunInBody(s, a, body, k + 1);
    }
  }

  lemma BodyRuns(text: string, k: nat)
    requires text != [] && k < |Body(text)|
    ensures RunAt(Body(text), k) <= LongestBacktickRun(text)
  {
    var body := Body(text);
    if Pad(text) == [] {
      assert body == text;
      LongestBounds(text, k);
    } else {
      assert body == [' '] + text + [' '];
      if 1 <= k <= |text| {
        assert body[1..|text| + 1] == text;
        RunInPart(body, 1, |text| + 1, k);
        LongestBounds(text, k - 1);
      }
    }
  }

  /** A document that starts with a body between two fences of `n` backticks. */
  ghost predicate Fenced(doc: string, n: nat, body: string) {
    && n > 0 && body != [] && n + |body| + n <= |doc|
    && doc[0..n] == Ticks(n) && doc[n..n + |body|] == body && doc[n + |body|..n + |body| + n] == Ticks(n)
    && body[0] != TICK && body[|body| - 1] != TICK && (n + |body| + n < |doc| ==> doc[n + |body| + n] != TICK)
  }

  lemma FencedBody(doc: string, n: nat, body: string)
    requires Fenced(doc, n, body)
    ensures n > 0 && n + |body| < |doc| && doc[n..n + |body|] == body
  {
  }

  lemma FenceRuns(doc: string, n: nat, body: string)
    requires Fenced(doc, n, body)
    ensures RunAt(doc, 0) == n && RunAt(doc, n + |body|) == n && doc[n + |body|] == TICK
  {
    assert doc[n] == doc[n..n + |body|][0];
    assert doc[n + |body|] == doc[n + |body|..n + |body| + n][0];
    TicksRun(doc, 0, n);
    TicksRun(doc, n + |body|, n);
  }

  lemma BodySkipped(doc: string, n: nat, body: string)
    requires Fenced(doc, n, body) && forall k :: 0 <= k < |body| ==> RunAt(body, k) < n
    ensures FindRun(doc, n, n) == FindRun(doc, n + |body|, n)
  {
    hide Ticks, RunAt, FindRun;
    forall k | n <= k < n + |body| && doc[k] == TICK
      ensures RunAt(doc, k) != n && k + RunAt(doc, k) <= n + |body|
    {
      RunInBody(doc, n, body, k - n);
    }
    FindSkips(doc, n, n + |body|, n);
  }

  /** A span closes at the first run as long as the one that opened it. */
  lemma SpanReads(doc: string, n: nat, body: string)
    requires Fenced(doc, n, body) && forall k :: 0 <= k < |body| ==> RunAt(body, k) < n
    ensures ReadSpan(doc) == Some(Span(Stripped(Spaced(body)), n + |body| + n))
  {
    hide *;
    FencedBody(doc, n, body);
    FenceRuns(doc, n, body);
    BodySkipped(doc, n, body);
    SpanAt(doc, n, n + |body|);
  }

  lemma SpanAt(doc: string, n: nat, close: nat)
    requires n > 0 && n <= close < |doc| && RunAt(doc, 0) == n == RunAt(doc, close)
    requires FindRun(doc, n, n) == FindRun(doc, close, n) && doc[close] == TICK
    ensures ReadSpan(doc) == Some(Span(Stripped(Spaced(doc[n..close])), close + n))
  {
  }

  lemma Layout(fence: string, body: string, rest: string)
    requires body != []
    ensures
      var doc := fence + body + fence + rest;
      var n, j := |fence|, |fence| + |body|;
      && doc[0..n] == fence && doc[n..j] == body && doc[j..j + n] == fence
      && (j + n < |doc| ==> doc[j + n] == rest[0])
  {
  }

  lemma InlineFenced(text: string, rest: string)
    requires text != [] && (rest == [] || rest[0] != TICK)
    ensures Fenced(InlineCode(text) + rest, LongestBacktickRun(text) + 1, Body(text))
  {
    hide LongestBacktickRun, Ticks;
    Layout(Ticks(LongestBacktickRun(text) + 1), Body(text), rest);
  }

  /** The span closes at the final fence. */
  lemma SpanCloses(text: string, rest: string)
    requires text != [] && (rest == [] || rest[0] != TICK)
    ensures ReadSpan(InlineCode(text) + rest) == Some(Span(Stripped(Spaced(Body(text))), |InlineCode(text)|))
  {
    var n := LongestBacktickRun(text) + 1;
    assert |InlineCode(text)| == n + |Body(text)| + n;
    hide *;
    InlineFenced(text, rest);
    forall k | 0 <= k < |Body(text)|
      ensures RunAt(Body(text), k) < n
    {
      BodyRuns(text, k);
    }
    SpanReads(InlineCode(text) + rest, n, Body(text));
  }

  lemma ContentExact(text: string)
    requires text != []
    ensures Stripped(Spaced(Body(text))) == text <==> !HasLineEnding(text) && !Cushioned(text)
  {
    var body := Body(text);
    SpacedExact(body);
    if HasLineEnding(text) {
      assert !HasLineEnding(Stripped(Spaced(body)));
    } else {
      assert !HasLineEnding(body);
      if Pad(text) != [] {
        assert body == [' '] + text + [' '];
        assert body[1] == TICK || body[|body| - 2] == TICK;
        assert Cushioned(body);
        assert Stripped(body) == text;
      } else {
        assert body == text;
        assert Cushioned(text) ==> |text| >= 2;
      }
    }
  }

  // ------------------------------------------- fenced code blocks, section 4.5

  function LeadingSpaces(line: string): (n: nat)
    ensures n <= |line|
  {
    if line != [] && line[0] == ' ' then 1 + LeadingSpaces(line[1..]) else 0
  }

  /** A closing code fence for an opening fence of `n` backticks. */
  predicate Closes(line: string, n: nat) {
    var i := LeadingSpaces(line);
    var m := RunAt(line, i);
    i <= 3 && m >= n && forall k :: i + m <= k < |line| ==> line[k] == ' ' || line[k] == '\t'
  }

  /** The first closing line from line `k` on, or the end of the document. */
  function ClosingLine(lines: seq<string>, k: nat, n: nat): (c: nat)
    requires k <= |lines|
    ensures k <= c <= |lines|
    decreases |lines| - k
  {
    if k == |lines| || Closes(lines[k], n) then k else ClosingLine(lines, k + 1, n)
  }

  /** What a fenced block holds, and the number of its closing line. */
  datatype Block = Block(content: string, closedAt: nat)

  /** The fenced block that starts with the first line, if one does: a run of at least
      three backticks with no backtick after it. */
  function ReadBlock(lines: seq<string>): Option<Block>
    requires |lines| >= 1
  {
    var n := RunAt(lines[0], 0);
    if n < 3 || TICK in lines[0][n..] then None
    else
      var close := ClosingLine(lines, 1, n);
      Some(Block(Join(lines[1..close], '\n'), close))
  }

  /** The lines a text contributes when a line feed is put after it. */
  function TextLines(text: string): (lines: seq<string>)
    ensures |lines| >= 1
    decreases |text|
  {
    var e := LineEnd(text);
    if e == |text| || (text[e] == '\r' && e + 1 == |text|) then [text[..e]]
    else [text[..e]] + TextLines(text[NextLine(text)..])
  }

  lemma {:induction false} LinesAfterText(text: string, after: string)
    ensures Lines(text + ['\n'] + after) == TextLines(text) + Lines(after)
    decreases |text|
  {
    var doc := text + ['\n'] + after;
    var e := LineEnd(text);
    LineEndIs(doc, e);
    assert doc[..e] == text[..e];
    if e == |text| || (text[e] == '\r' && e + 1 == |text|) {
      assert NextLine(doc) == |text| + 1;
      assert doc[|text| + 1..] == after;
    } else {
      var j := NextLine(text);
      assert NextLine(doc) == j;
      assert doc[j..] == text[j..] + ['\n'] + after;
      LinesAfterText(text[j..], after);
    }
  }

  /** A piece of the text that a line ending, or the end of the text, follows. */
  predicate Piece(text: string, line: string, a: nat, b: nat) {
    a <= b <= |text| && line == text[a..b] && (b < |text| ==> LineEnding(text[b]))
  }

  lemma {:induction false} TextLineInside(text: string, k: nat) returns (a: nat, b: nat)
    requires k < |TextLines(text)|
    ensures Piece(text, TextLines(text)[k], a, b)
    decreases |text|
  {
    hide *;
    if k == 0 {
      a, b := 0, LineEnd(text);
      FirstTextLine(text);
    } else {
      var j := LaterTextLine(text, k);
      a, b := TextLineInside(text[j..], k - 1);
      PieceOfRest(text, TextLines(text)[k], j, a, b);
      a, b := j + a, j + b;
    }
  }

  lemma PieceOfRest(text: string, line: string, j: nat, a: nat, b: nat)
    requires j <= |text| && Piece(text[j..], line, a, b)
    ensures Piece(text, line, j + a, j + b)
  {
  }

  lemma FirstTextLine(text: string)
    ensures Piece(text, TextLines(text)[0], 0, LineEnd(text))
  {
    assert text[..LineEnd(text)] == text[0..LineEnd(text)];
  }

  lemma LaterTextLine(text: string, k: nat) returns (j: nat)
    requires 0 < k < |TextLines(text)|
    ensures 0 < j <= |text| && k - 1 < |TextLines(text[j..])|
    ensures TextLines(text)[k] == TextLines(text[j..])[k - 1]
  {
    j := NextLine(text);
  }

  /** The lines joined again, where the text has a further line. */
  lemma JoinedNext(text: string)
    requires LineEnd(text) < |text| && !(text[LineEnd(text)] == '\r' && LineEnd(text) + 1 == |text|)
    ensures Join(TextLines(text), '\n') ==
            text[..LineEnd(text)] + ['\n'] + Join(TextLines(text[NextLine(text)..]), '\n')
    ensures text[LineEnd(text)] == '\n' ==> text == text[..LineEnd(text)] + ['\n'] + text[NextLine(text)..]
    ensures '\r' !in text[..LineEnd(text)] + ['\n']
  {
    var e, j := LineEnd(text), NextLine(text);
    var rest := TextLines(text[j..]);
    assert TextLines(text) == [text[..e]] + rest;
    assert text[e] == '\n' ==> j == e + 1;
    assert forall i :: 0 <= i < e ==> text[i] != '\r';
    hide TextLines, LineEnd, NextLine, Join, LineEnding;
    JoinFirst(text[..e], rest, '\n');
    SplitAt(text, e);
  }

  lemma SplitAt(s: string, e: nat)
    requires e < |s| && forall i :: 0 <= i < e ==> s[i] != '\r'
    ensures s[e] == '\n' ==> s == s[..e] + ['\n'] + s[e + 1..]
    ensures '\r' !in s[..e] + ['\n']
  {
  }

  lemma {:induction false} JoinedLines(text: string)
    ensures '\r' !in Join(TextLines(text), '\n')
    ensures Join(TextLines(text), '\n') == text <==> '\r' !in text
    decreases |text|
  {
    var e := LineEnd(text);
    if e == |text| {
      assert text[..e] == text;
    } else if text[e] == '\r' && e + 1 == |text| {
      assert '\r' in text;
    } else {
      var line := text[..e] + ['\n'];
      var after := text[NextLine(text)..];
      JoinedNext(text);
      JoinedLines(after);
      assert LineEnding(text[e]);
      hide Join, TextLines, LineEnd, NextLine;
      CarriageFree(line, Join(TextLines(after), '\n'));
      if text[e] == '\r' {
        assert '\r' in text;
      } else {
        CarriageFree(line, after);
        JoinEqual(line, Join(TextLines(after), '\n'), after);
      }
    }
  }

  lemma CarriageFree(a: string, b: string)
    ensures '\r' in a + b <==> '\r' in a || '\r' in b
  {
  }

  lemma JoinEqual(a: string, b: string, c: string)
    ensures a + b == a + c <==> b == c
  {
    Halves(a, b);
    Halves(a, c);
  }

  /** No line of the text closes a fence longer than its backtick runs. */
  lemma TextNeverCloses(text: string, k: nat, n: nat)
    requires k < |TextLines(text)| && n > LongestBacktickRun(text)
    ensures !Closes(TextLines(text)[k], n)
  {
    var a, b := TextLineInside(text, k);
    hide TextLines, LeadingSpaces, LongestBacktickRun, RunAt;
    var i := LeadingSpaces(text[a..b]);
    RunInPart(text, a, b, a + i);
    LongestBounds(text, a + i);
  }

  lemma {:induction false} ClosingSkips(lines: seq<string>, i: nat, j: nat, n: nat)
    requires i <= j < |lines| && Closes(lines[j], n)
    requires forall k :: i <= k < j ==> !Closes(lines[k], n)
    ensures ClosingLine(lines, i, n) == j
    decreases j - i
  {
    if i < j {
      ClosingSkips(lines, i + 1, j, n);
    }
  }

  lemma Regroup(a: string, b: string, c: string, d: string, e: string, f: string)
    ensures a + b + c + d + e + f == a + b + (c + d + (e + f))
  {
  }

  lemma TicksLine(n: nat)
    ensures TextLines(Ticks(n)) == [Ticks(n)] && Lines(Ticks(n)) == [Ticks(n)]
  {
    LineEndIs(Ticks(n), n);
    assert Ticks(n)[..n] == Ticks(n);
  }

  /** Lines of what comes after the block's last fence. */
  function LinesAfter(tail: string): seq<string> {
    if tail == [] then [] else Lines(tail[1..])
  }

  lemma FenceLines(n: nat, tail: string)
    requires tail == [] || tail[0] == '\n'
    ensures Lines(Ticks(n) + tail) == [Ticks(n)] + LinesAfter(tail)
  {
    hide Lines, Ticks;
    TicksLine(n);
    if tail == [] {
      assert Ticks(n) + tail == Ticks(n);
    } else {
      assert tail == ['\n'] + tail[1..];
      ConcatAssociates(Ticks(n), ['\n'], tail[1..]);
      LinesAfterText(Ticks(n), tail[1..]);
    }
  }

  /** Lines of the whole block: the fence, the text's lines, the fence, what follows. */
  lemma BlockLines(text: string, tail: string)
    requires tail == [] || tail[0] == '\n'
    ensures
      var fence := Ticks(FenceLength(text));
      Lines(CodeFence(text) + tail) == [fence] + (TextLines(text) + ([fence] + LinesAfter(tail)))
  {
    var n := FenceLength(text);
    var fence := Ticks(n);
    assert CodeFence(text) == fence + ['\n'] + text + ['\n'] + fence;
    hide *;
    Regroup(fence, ['\n'], text, ['\n'], fence, tail);
    TicksLine(n);
    FenceLines(n, tail);
    LinesAfterText(fence, text + ['\n'] + (fence + tail));
    LinesAfterText(text, fence + tail);
  }

  lemma BlockReads(lines: seq<string>, n: nat, close: nat)
    requires n >= 3 && 0 < close < |lines| && lines[0] == lines[close] == Ticks(n)
    requires forall k :: 1 <= k < close ==> !Closes(lines[k], n)
    ensures ReadBlock(lines) == Some(Block(Join(lines[1..close], '\n'), close))
  {
    var fence := Ticks(n);
    assert fence[0..n] == fence;
    TicksRun(fence, 0, n);
    assert LeadingSpaces(fence) == 0;
    assert Closes(fence, n);
    hide Closes, Join, Ticks;
    ClosingSkips(lines, 1, close, n);
    assert fence[n..] == [];
  }

  lemma BlockLayout(fence: string, inner: seq<string>, after: seq<string>)
    ensures
      var lines := [fence] + (inner + ([fence] + after));
      var close := |inner| + 1;
      close < |lines| && lines[0] == lines[close] == fence && lines[1..close] == inner
  {
  }

  lemma TextBlock(lines: seq<string>, text: string, n: nat)
    requires n >= 3 && n > LongestBacktickRun(text)
    requires |TextLines(text)| + 1 < |lines| && lines[0] == lines[|TextLines(text)| + 1] == Ticks(n)
    requires lines[1..|TextLines(text)| + 1] == TextLines(text)
    ensures ReadBlock(lines) == Some(Block(Join(TextLines(text), '\n'), |TextLines(text)| + 1))
  {
    hide *;
    var close := |TextLines(text)| + 1;
    forall k | 1 <= k < close
      ensures !Closes(lines[k], n)
    {
      assert lines[k] == lines[1..close][k - 1];
      TextNeverCloses(text, k - 1, n);
    }
    BlockReads(lines, n, close);
  }

  /** A fenced block is closed by its own final fence and nothing before it, whatever the
      text and whatever follows; it gives the text back exactly when the text has no
      carriage return. */
  lemma BlockSurvives(text: string, tail: string)
    requires tail == [] || tail[0] == '\n'
    ensures
      var block := ReadBlock(Lines(CodeFence(text) + tail));
      && block.Some?
      && block.value.closedAt == |Lines(CodeFence(text))| - 1
      && (block.value.content == text <==> '\r' !in text)
    ensures Lines(CodeFence(text) + tail) == Lines(CodeFence(text)) + LinesAfter(tail)
  {
    BlockClosedAt(text, tail);
    BlockClosedAt(text, []);
    assert CodeFence(text) + [] == CodeFence(text);
    hide *;
    JoinedLines(text);
  }

  lemma BlockClosedAt(text: string, tail: string)
    requires tail == [] || tail[0] == '\n'
    ensures ReadBlock(Lines(CodeFence(text) + tail)) == Some(Block(Join(TextLines(text), '\n'), |TextLines(text)| + 1))
    ensures |Lines(CodeFence(text) + tail)| == |TextLines(text)| + 2 + |LinesAfter(tail)|
    ensures Lines(CodeFence(text) + tail) == Lines(CodeFence(text)) + LinesAfter(tail)
  {
    var fence := Ticks(FenceLength(text));
    assert FenceLength(text) >= 3 && FenceLength(text) > LongestBacktickRun(text);
    hide *;
    BlockLines(text, tail);
    BlockLayout(fence, TextLines(text), LinesAfter(tail));
    TextBlock(Lines(CodeFence(text) + tail), text, FenceLength(text));
    LinesTogether(text, tail);
  }

  lemma LinesTogether(text: string, tail: string)
    requires tail == [] || tail[0] == '\n'
    ensures Lines(CodeFence(text) + tail) == Lines(CodeFence(text)) + LinesAfter(tail)
  {
    var fence := [Ticks(FenceLength(text))];
    BlockLines(text, tail);
    BlockLines(text, []);
    assert LinesAfter([]) == [];
    assert CodeFence(text) + [] == CodeFence(text);
    hide *;
    ConcatAssociates(fence, TextLines(text) + fence, LinesAfter(tail));
    ConcatAssociates(TextLines(text), fence, LinesAfter(tail));
    assert fence + [] == fence;
  }
}
