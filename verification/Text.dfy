/** Text as JavaScript sees it: splitting, joining and trimming. */
module Text {
  import opened Prelude

  /** Where `c` first occurs, or the length of the text. */
  function IndexOf(s: string, c: char): (e: nat)
    ensures e <= |s| && (forall i :: 0 <= i < e ==> s[i] != c) && (e < |s| ==> s[e] == c)
  {
    if s == [] || s[0] == c then 0 else 1 + IndexOf(s[1..], c)
  }

  lemma IndexOfIs(s: string, c: char, e: nat)
    requires e <= |s| && (forall i :: 0 <= i < e ==> s[i] != c) && (e < |s| ==> s[e] == c)
    ensures IndexOf(s, c) == e
  {
  }

  function Split(s: string, c: char): (pieces: seq<string>)
    ensures |pieces| >= 1
    decreases |s|
  {
    var e := IndexOf(s, c);
    if e == |s| then [s] else [s[..e]] + Split(s[e + 1..], c)
  }

  function Join(pieces: seq<string>, c: char): string {
    if pieces == [] then []
    else if |pieces| == 1 then pieces[0]
    else pieces[0] + [c] + Join(pieces[1..], c)
  }

  lemma JoinFirst(piece: string, rest: seq<string>, c: char)
    requires rest != []
    ensures Join([piece] + rest, c) == piece + [c] + Join(rest, c)
  {
    assert ([piece] + rest)[1..] == rest;
  }

  lemma {:induction false} JoinSplit(s: string, c: char)
    ensures Join(Split(s, c), c) == s
    decreases |s|
  {
    var e := IndexOf(s, c);
    if e < |s| {
      assert Split(s, c) == [s[..e]] + Split(s[e + 1..], c);
      assert s[e] == c;
      hide *;
      JoinSplit(s[e + 1..], c);
      JoinFirst(s[..e], Split(s[e + 1..], c), c);
      assert s == s[..e] + [c] + s[e + 1..];
    }
  }

  /** No piece holds the separator. */
  ghost predicate Free(pieces: seq<string>, c: char) {
    forall i :: 0 <= i < |pieces| ==> c !in pieces[i]
  }

  lemma {:induction false} SplitFree(s: string, c: char)
    ensures Free(Split(s, c), c)
    decreases |s|
  {
    var e := IndexOf(s, c);
    if e < |s| {
      SplitFree(s[e + 1..], c);
    }
  }

  lemma SplitOnce(a: string, b: string, c: char)
    requires c !in a
    ensures Split(a + [c] + b, c) == [a] + Split(b, c)
  {
    var s := a + [c] + b;
    IndexOfIs(s, c, |a|);
    assert s[..|a|] == a && s[|a| + 1..] == b;
  }

  lemma {:induction false} SplitJoin(pieces: seq<string>, c: char)
    requires |pieces| >= 1 && Free(pieces, c)
    ensures Split(Join(pieces, c), c) == pieces
  {
    if |pieces| == 1 {
      IndexOfIs(pieces[0], c, |pieces[0]|);
    } else {
      SplitJoin(pieces[1..], c);
      SplitOnce(pieces[0], Join(pieces[1..], c), c);
      assert pieces == [pieces[0]] + pieces[1..];
    }
  }

  // ------------------------------------------------------------------- lines

  predicate LineEnding(c: char) {
    c == '\n' || c == '\r'
  }

  /** Where the first line ends. */
  function LineEnd(s: string): (e: nat)
    ensures e <= |s| && (forall i :: 0 <= i < e ==> !LineEnding(s[i])) && (e < |s| ==> LineEnding(s[e]))
  {
    if s == [] || LineEnding(s[0]) then 0 else 1 + LineEnd(s[1..])
  }

  /** Where the second line starts, given that there is one. */
  function NextLine(s: string): (j: nat)
    requires LineEnd(s) < |s|
    ensures 0 < j <= |s|
  {
    var e := LineEnd(s);
    if s[e] == '\r' && e + 1 < |s| && s[e + 1] == '\n' then e + 2 else e + 1
  }

  function Lines(s: string): (lines: seq<string>)
    ensures |lines| >= 1
    decreases |s|
  {
    var e := LineEnd(s);
    if e == |s| then [s] else [s[..e]] + Lines(s[NextLine(s)..])
  }

  lemma LineEndIs(s: string, e: nat)
    requires e <= |s| && (forall i :: 0 <= i < e ==> !LineEnding(s[i])) && (e < |s| ==> LineEnding(s[e]))
    ensures LineEnd(s) == e
  {
  }

  // ------------------------------------------------------------- white space

  /** White space and line terminators of ECMAScript. */
  predicate IsSpace(c: char) {
    || c == '\t' || c == '\U{0B}' || c == '\U{0C}' || c == ' ' || c == '\U{A0}' || c == '\U{FEFF}'
    || c == '\n' || c == '\r' || c == '\U{2028}' || c == '\U{2029}'
    || c == '\U{1680}' || '\U{2000}' <= c <= '\U{200A}' || c == '\U{202F}' || c == '\U{205F}' || c == '\U{3000}'
  }

  function TrimStart(s: string): string {
    if s != [] && IsSpace(s[0]) then TrimStart(s[1..]) else s
  }

  function TrimEnd(s: string): string {
    if s != [] && IsSpace(s[|s| - 1]) then TrimEnd(s[..|s| - 1]) else s
  }

  function Trim(s: string): string {
    TrimEnd(TrimStart(s))
  }

  predicate StartsClean(s: string) {
    s == [] || !IsSpace(s[0])
  }

  predicate EndsClean(s: string) {
    s == [] || !IsSpace(s[|s| - 1])
  }

  /** Trimming takes white space away and nothing else. */
  lemma {:induction false} TrimStartExact(s: string)
    ensures StartsClean(TrimStart(s))
    ensures TrimStart(s) == s <==> StartsClean(s)
    ensures |TrimStart(s)| <= |s| && s[|s| - |TrimStart(s)|..] == TrimStart(s)
    ensures forall i :: 0 <= i < |s| - |TrimStart(s)| ==> IsSpace(s[i])
  {
    if s != [] && IsSpace(s[0]) {
      TrimStartExact(s[1..]);
    }
  }

  lemma {:induction false} TrimEndExact(s: string)
    ensures EndsClean(TrimEnd(s))
    ensures TrimEnd(s) == s <==> EndsClean(s)
    ensures |TrimEnd(s)| <= |s| && s[..|TrimEnd(s)|] == TrimEnd(s)
    ensures forall i :: |TrimEnd(s)| <= i < |s| ==> IsSpace(s[i])
  {
    if s != [] && IsSpace(s[|s| - 1]) {
      TrimEndExact(s[..|s| - 1]);
    }
  }

  lemma TrimExact(s: string)
    ensures StartsClean(Trim(s)) && EndsClean(Trim(s))
    ensures Trim(s) == s <==> StartsClean(s) && EndsClean(s)
    ensures |Trim(s)| <= |s|
  {
    TrimStartExact(s);
    TrimEndExact(TrimStart(s));
  }
}
