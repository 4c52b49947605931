/** Character boundaries of UTF-8 text and reading a document in pieces.
    A byte is a `char` below 256; the syntax is section 4 of RFC 3629. */
module Utf8 {
  predicate IsTail(c: char) {
    0x80 as char <= c <= 0xBF as char
  }

  predicate In(c: char, lo: int, hi: int) {
    lo <= c as int <= hi
  }

  /** Length of the well-formed character at the front of `s`, zero if there is none. */
  function LeadLength(s: string): (n: nat)
    ensures n <= |s| && n <= 4
    ensures n > 0 ==> !IsTail(s[0]) && forall i :: 1 <= i < n ==> IsTail(s[i])
  {
    if s == "" then 0
    else
      var c := s[0];
      if In(c, 0, 0x7F) then 1
      else if In(c, 0xC2, 0xDF) && |s| >= 2 && IsTail(s[1]) then 2
      else if |s| >= 3 && IsTail(s[1]) && IsTail(s[2]) && In(c, 0xE0, 0xEF)
              && (c == 0xE0 as char ==> In(s[1], 0xA0, 0xBF)) && (c == 0xED as char ==> In(s[1], 0x80, 0x9F)) then 3
      else if |s| >= 4 && IsTail(s[1]) && IsTail(s[2]) && IsTail(s[3]) && In(c, 0xF0, 0xF4)
              && (c == 0xF0 as char ==> In(s[1], 0x90, 0xBF)) && (c == 0xF4 as char ==> In(s[1], 0x80, 0x8F)) then 4
      else 0
  }

  predicate ValidUtf8(s: string) {
    s == "" || (LeadLength(s) > 0 && ValidUtf8(s[LeadLength(s)..]))
  }

  /** Both ends, and every position whose byte does not continue a character. */
  predicate IsBoundary(s: string, p: nat) {
    p == 0 || p == |s| || (p < |s| && !IsTail(s[p]))
  }

  /** In valid text the boundaries are exactly the places where it can be cut into
      two valid texts. */
  lemma {:induction false} CutAtBoundary(s: string, p: nat)
    requires ValidUtf8(s) && p <= |s|
    ensures IsBoundary(s, p) <==> ValidUtf8(s[p..])
    ensures IsBoundary(s, p) <==> ValidUtf8(s[..p])
    decreases |s|
  {
    var n := LeadLength(s);
    if p == 0 {
      assert s[0..] == s;
    } else if p < n {
      assert IsTail(s[p]);
      assert s[p..][0] == s[p];
      assert LeadLength(s[..p]) == 0;
    } else {
      CutAtBoundary(s[n..], p - n);
      assert s[n..][p - n..] == s[p..];
      assert s[..p][n..] == s[n..][..p - n];
      assert LeadLength(s[..p]) == n;
    }
  }

  lemma BoundarySlice(s: string, i: nat, j: nat)
    requires ValidUtf8(s) && i <= j <= |s| && IsBoundary(s, i) && IsBoundary(s, j)
    ensures ValidUtf8(s[i..j])
  {
    CutAtBoundary(s, j);
    if i < j {
      assert IsBoundary(s[..j], i);
      CutAtBoundary(s[..j], i);
      assert s[..j][i..] == s[i..j];
    }
  }

  function Min(a: nat, b: nat): nat {
    if a < b then a else b
  }

  /** The greatest boundary not beyond `pos`. */
  function Floor(s: string, pos: nat): (r: nat)
    ensures r <= Min(pos, |s|) && IsBoundary(s, r)
    ensures forall q: nat :: r < q <= Min(pos, |s|) ==> !IsBoundary(s, q)
    decreases pos
  {
    if pos > |s| then |s|
    else if IsBoundary(s, pos) then pos
    else Floor(s, pos - 1)
  }

  /** The least boundary not before `pos`, or the end. */
  function Ceil(s: string, pos: nat): (r: nat)
    ensures Min(pos, |s|) <= r <= |s| && IsBoundary(s, r)
    ensures forall q: nat :: Min(pos, |s|) <= q < r ==> !IsBoundary(s, q)
    decreases |s| - pos
  {
    if pos >= |s| then |s|
    else if IsBoundary(s, pos) then pos
    else Ceil(s, pos + 1)
  }

  /** `a` is the last character boundary not after `at`, or the start. */
  ghost predicate LastBefore(content: string, at: nat, a: nat) {
    a <= at && IsBoundary(content, a) && forall q :: a < q <= at ==> !IsBoundary(content, q)
  }

  /** `b` is the first character boundary not before `at`, or the end. */
  ghost predicate FirstAfter(content: string, at: nat, b: nat) {
    at <= b <= |content| && IsBoundary(content, b) && forall q :: at <= q < b ==> !IsBoundary(content, q)
  }

  method FloorCharBoundary(s: string, pos: nat) returns (p: nat)
    ensures p == Floor(s, pos)
  {
    p := Min(pos, |s|);
    while p > 0 && !IsBoundary(s, p)
      invariant p <= Min(pos, |s|)
      invariant Floor(s, pos) == Floor(s, p)
    {
      p := p - 1;
    }
  }

  method CeilCharBoundary(s: string, pos: nat) returns (p: nat)
    ensures p == Ceil(s, pos)
  {
    p := Min(pos, |s|);
    while p < |s| && !IsBoundary(s, p)
      invariant p <= |s|
      invariant Ceil(s, pos) == Ceil(s, p)
    {
      p := p + 1;
    }
  }

  /** Where a read of `len` bytes from `start` stops. */
  function ReadEnd(content: string, start: nat, len: nat): (r: nat)
    requires start <= |content|
    ensures Min(start + len, |content|) <= r <= |content| && IsBoundary(content, r)
    ensures forall q: nat :: Min(start + len, |content|) <= q < r ==> !IsBoundary(content, q)
  {
    Ceil(content, Min(start + len, |content|))
  }

  /** The piece of `content` that a read at `offset` of `len` bytes returns. */
  function Read(content: string, offset: nat, len: nat): string {
    var start := Floor(content, Min(offset, |content|));
    content[start..ReadEnd(content, start, len)]
  }

  method ReadInDocument(content: string, offset: nat, len: nat) returns (r: string)
    ensures r == Read(content, offset, len)
    ensures exists a: nat, b: nat ::
              && LastBefore(content, Min(offset, |content|), a) && FirstAfter(content, Min(a + len, |content|), b)
              && a <= b && r == content[a..b]
  {
    var start := FloorCharBoundary(content, Min(offset, |content|));
    var end := CeilCharBoundary(content, Min(start + len, |content|));
    r := content[start..end];
  }

  /** A read from a boundary starts there, covers the bytes asked for and stops at the
      first boundary that does. */
  lemma ReadFromBoundary(content: string, offset: nat, len: nat)
    requires offset <= |content| && IsBoundary(content, offset)
    ensures Read(content, offset, len) == content[offset..ReadEnd(content, offset, len)]
  {
  }

  /** In valid text, whatever the offset, a read returns valid text. */
  lemma ReadValid(content: string, offset: nat, len: nat)
    requires ValidUtf8(content)
    ensures ValidUtf8(Read(content, offset, len))
  {
    var start := Floor(content, Min(offset, |content|));
    BoundarySlice(content, start, ReadEnd(content, start, len));
  }

  /** A read advances unless no bytes are asked for or none are left. */
  lemma ReadAdvances(content: string, offset: nat, len: nat)
    requires offset <= |content| && IsBoundary(content, offset)
    ensures Read(content, offset, len) == "" <==> len == 0 || offset == |content|
  {
  }

  /** The pieces of successive reads, each starting where the last one ended. */
  function ReadAll(content: string, offset: nat, len: nat): (pieces: seq<string>)
    requires len >= 1 && offset <= |content| && IsBoundary(content, offset)
    decreases |content| - offset
  {
    if offset == |content| then []
    else
      var r := Read(content, offset, len);
      assert offset + |r| == ReadEnd(content, offset, len);
      [r] + ReadAll(content, offset + |r|, len)
  }

  lemma ReadAllStep(content: string, offset: nat, len: nat)
    requires len >= 1 && offset < |content| && IsBoundary(content, offset)
    ensures
      var end := ReadEnd(content, offset, len);
      ReadAll(content, offset, len) == [content[offset..end]] + ReadAll(content, end, len)
  {
    hide Floor, Ceil, ReadEnd, Read, IsTail;
    ReadFromBoundary(content, offset, len);
  }

  function Concat(pieces: seq<string>): string {
    if pieces == [] then "" else pieces[0] + Concat(pieces[1..])
  }

  lemma ConcatFirst(piece: string, rest: seq<string>)
    ensures Concat([piece] + rest) == piece + Concat(rest)
  {
    assert ([piece] + rest)[1..] == rest;
  }

  lemma SplitAt(s: string, i: nat, j: nat)
    requires i <= j <= |s|
    ensures s[i..] == s[i..j] + s[j..]
  {
  }

  /** Sequential reads rebuild the document, without gap or overlap. */
  lemma {:induction false} ReadsReassemble(content: string, offset: nat, len: nat)
    requires len >= 1 && offset <= |content| && IsBoundary(content, offset)
    ensures Concat(ReadAll(content, offset, len)) == content[offset..]
    decreases |content| - offset
  {
    if offset < |content| {
      var end := ReadEnd(content, offset, len);
      var rest := ReadAll(content, end, len);
      ReadsReassemble(content, end, len);
      calc {
        Concat(ReadAll(content, offset, len));
        { ReadAllStep(content, offset, len); }
        Concat([content[offset..end]] + rest);
        { ConcatFirst(content[offset..end], rest); }
        content[offset..end] + content[end..];
        { SplitAt(content, offset, end); }
        content[offset..];
      }
    }
  }

  /** In valid text every piece is non-empty valid text of its own. */
  lemma {:induction false} PiecesValid(content: string, offset: nat, len: nat)
    requires ValidUtf8(content)
    requires len >= 1 && offset <= |content| && IsBoundary(content, offset)
    ensures forall piece <- ReadAll(content, offset, len) :: piece != "" && ValidUtf8(piece)
    decreases |content| - offset
  {
    if offset < |content| {
      var end := ReadEnd(content, offset, len);
      BoundarySlice(content, offset, end);
      ReadAllStep(content, offset, len);
      PiecesValid(content, end, len);
    }
  }
}
