/** The query tokenizer: its loops, each proved against a suffix-consuming function. */
module Tokenizer {
  import opened Prelude
  import opened QuerySyntax

  // ---------------------------------------------------------------- functions

  /** Text of a quoted phrase whose opening quote precedes `s`, with the number of
      characters of `s` it uses. */
  function QuotedText(s: string): (r: (string, nat))
    ensures r.1 <= |s|
  {
    if s == [] then ("", 0)
    else if s[0] == '\\' && |s| > 1 then
      var (t, n) := QuotedText(s[2..]);
      ([s[1]] + t, n + 2)
    else if s[0] == '"' then ("", 1)
    else
      var (t, n) := QuotedText(s[1..]);
      ([s[0]] + t, n + 1)
  }

  /** Length of the bare word at the front of `s`. */
  function WordLength(s: string): (n: nat)
    ensures n <= |s|
    ensures n < |s| ==> EndsWord(s[n])
    ensures forall i :: 0 <= i < n ==> !EndsWord(s[i])
  {
    if s == [] || EndsWord(s[0]) then 0 else 1 + WordLength(s[1..])
  }

  /** Position of the first `target` that no backslash escapes. */
  function UnescapedIndex(s: string, target: char): (r: Option<nat>)
    ensures r.Some? ==> r.value < |s| && s[r.value] == target
  {
    if s == [] then None
    else if s[0] == '\\' then
      if |s| == 1 then None
      else
        var r := UnescapedIndex(s[2..], target);
        if r.None? then None else Some(r.value + 2)
    else if s[0] == target then Some(0)
    else
      var r := UnescapedIndex(s[1..], target);
      if r.None? then None else Some(r.value + 1)
  }

  /** `\/` becomes `/`; every other escape pair is kept. */
  function Unescaped(s: string): string {
    if s == [] then ""
    else if s[0] == '\\' then
      if |s| == 1 then "\\"
      else (if s[1] == '/' then "/" else [s[0], s[1]]) + Unescaped(s[2..])
    else [s[0]] + Unescaped(s[1..])
  }

  function ClassifyWord(w: string): Token {
    if w == "AND" then AndOp
    else if w == "OR" then OrOp
    else if w == "NOT" then NotOp
    else Word(w)
  }

  /** The token at the front of `s`, if any, and how much of `s` it takes. */
  function NextToken(s: string): (r: (Option<Token>, nat))
    requires s != []
    ensures 1 <= r.1 <= |s|
  {
    var c := s[0];
    if IsSpace(c) then (None, 1)
    else if c == '(' then (Some(LParen), 1)
    else if c == ')' then (Some(RParen), 1)
    else if c == '+' then (Some(Plus), 1)
    else if c == '-' then (Some(Minus), 1)
    else if c == '"' then
      var (text, n) := QuotedText(s[1..]);
      (Some(Phrase(text)), n + 1)
    else if c == '/' && UnescapedIndex(s[1..], '/').Some? then
      var end := UnescapedIndex(s[1..], '/').value;
      (Some(Pattern(Unescaped(s[1..][..end]))), end + 2)
    else
      (Some(ClassifyWord(s[..WordLength(s)])), WordLength(s))
  }

  function Tokens(s: string): seq<Token> {
    if s == [] then []
    else
      var (t, n) := NextToken(s);
      (if t.Some? then [t.value] else []) + Tokens(s[n..])
  }

  // ------------------------------------------------------------------- loops

  method ReadQuoted(s: string) returns (buf: string, used: nat)
    requires s != [] && s[0] == '"'
    ensures buf == QuotedText(s[1..]).0
    ensures used == QuotedText(s[1..]).1 + 1
  {
    buf := "";
    var i := 1;
    while i < |s|
      invariant 1 <= i <= |s|
      invariant QuotedText(s[1..]).0 == buf + QuotedText(s[i..]).0
      invariant QuotedText(s[1..]).1 == i - 1 + QuotedText(s[i..]).1
    {
      var c := s[i];
      if c == '\\' && i + 1 < |s| {
        assert s[i..][2..] == s[i + 2..];
        ConcatAssociates(buf, [s[i + 1]], QuotedText(s[i + 2..]).0);
        buf := buf + [s[i + 1]];
        i := i + 2;
        continue;
      }
      if c == '"' {
        return buf, i + 1;
      }
      assert s[i..][1..] == s[i + 1..];
      ConcatAssociates(buf, [c], QuotedText(s[i + 1..]).0);
      buf := buf + [c];
      i := i + 1;
    }
    used := |s|;
  }

  method ReadWord(s: string) returns (buf: string, used: nat)
    ensures used == WordLength(s) && buf == s[..used]
  {
    buf := "";
    for i := 0 to |s|
      invariant buf == s[..i]
      invariant WordLength(s) == i + WordLength(s[i..])
    {
      if EndsWord(s[i]) {
        return buf, i;
      }
      assert s[i..][1..] == s[i + 1..];
      buf := buf + [s[i]];
    }
    used := |s|;
  }

  method FindUnescaped(s: string, target: char) returns (r: Option<nat>)
    requires target != '\\'
    ensures r == UnescapedIndex(s, target)
  {
    var prevBackslash := false;
    var i := 0;
    while i < |s|
      invariant 0 <= i <= |s|
      invariant prevBackslash ==> i >= 1 && s[i - 1] == '\\'
      invariant
        var from := if prevBackslash then i - 1 else i;
        UnescapedIndex(s, target) ==
        var t := UnescapedIndex(s[from..], target);
        if t.None? then None else Some(t.value + from)
    {
      if prevBackslash {
        assert s[i - 1..][2..] == s[i + 1..];
        prevBackslash := false;
      } else if s[i] == '\\' {
        prevBackslash := true;
      } else if s[i] == target {
        return Some(i);
      } else {
        assert s[i..][1..] == s[i + 1..];
      }
      i := i + 1;
    }
    r := None;
  }

  method UnescapeSlash(s: string) returns (out: string)
    ensures out == Unescaped(s)
  {
    out := "";
    var prevBackslash := false;
    var i := 0;
    while i < |s|
      invariant 0 <= i <= |s|
      invariant prevBackslash ==> i >= 1 && s[i - 1] == '\\'
      invariant Unescaped(s) == out + Unescaped(s[if prevBackslash then i - 1 else i..])
    {
      var ch := s[i];
      if prevBackslash {
        DropDrop(s, i - 1, 2);
        var pair := if ch == '/' then [ch] else ['\\', ch];
        ConcatAssociates(out, pair, Unescaped(s[i + 1..]));
        out := out + pair;
        prevBackslash := false;
      } else if ch == '\\' {
        prevBackslash := true;
      } else {
        DropDrop(s, i, 1);
        ConcatAssociates(out, [ch], Unescaped(s[i + 1..]));
        out := out + [ch];
      }
      i := i + 1;
    }
    if prevBackslash {
      out := out + ['\\'];
    }
  }

  /** The branch the tokenizer's loop takes at the front of `s`. The branch for an
      empty word cannot be reached: the front of `s` does not end a word here. */
  method ReadToken(s: string) returns (t: Option<Token>, used: nat)
    requires s != []
    ensures t == NextToken(s).0
    ensures used == NextToken(s).1
  {
    var c := s[0];
    if IsSpace(c) {
      return None, 1;
    } else if c == '(' {
      return Some(LParen), 1;
    } else if c == ')' {
      return Some(RParen), 1;
    } else if c == '+' {
      return Some(Plus), 1;
    } else if c == '-' {
      return Some(Minus), 1;
    } else if c == '"' {
      var lit, n := ReadQuoted(s);
      return Some(Phrase(lit)), n;
    }
    if c == '/' {
      var end := FindUnescaped(s[1..], '/');
      if end.Some? {
        var pat := UnescapeSlash(s[1..][..end.value]);
        return Some(Pattern(pat)), 1 + end.value + 1;
      }
    }
    var word, n := ReadWord(s);
    return Some(ClassifyWord(word)), n;
  }

  lemma TokensFrom(input: string, i: nat, used: nat, t: Option<Token>, out: seq<Token>)
    requires i < |input|
    requires t == NextToken(input[i..]).0
    requires used == NextToken(input[i..]).1
    ensures i + used <= |input|
    ensures out + Tokens(input[i..]) == (if t.Some? then out + [t.value] else out) + Tokens(input[i + used..])
  {
    var s := input[i..];
    assert s[used..] == input[i + used..];
    var rest := Tokens(s[used..]);
    assert Tokens(s) == (if t.Some? then [t.value] else []) + rest;
  }

  method Tokenize(input: string) returns (out: seq<Token>)
    ensures out == Tokens(input)
  {
    hide NextToken;
    out := [];
    var i := 0;
    while i < |input|
      invariant 0 <= i <= |input|
      invariant Tokens(input) == out + Tokens(input[i..])
    {
      var t, used := ReadToken(input[i..]);
      TokensFrom(input, i, used, t, out);
      if t.Some? {
        out := out + [t.value];
      }
      i := i + used;
    }
  }
}
