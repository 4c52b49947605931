/** What the tokenizer's scans find, said by counting backslashes: a character is escaped
    when an odd number of them stands directly before it. */
module Escaping {
  import opened Prelude
  import opened QuerySyntax
  import opened Tokenizer

  /** How many backslashes stand directly before position `i`. */
  function Backslashes(s: string, i: nat): nat
    requires i <= |s|
  {
    if i > 0 && s[i - 1] == '\\' then 1 + Backslashes(s, i - 1) else 0
  }

  predicate Escaped(s: string, i: nat)
    requires i <= |s|
  {
    Backslashes(s, i) % 2 == 1
  }

  /** `n` characters at the front that no later character depends on. */
  predicate Unit(s: string, n: nat) {
    n <= |s| && ((n == 2 && s[0] == '\\') || (n == 1 && s[0] != '\\'))
  }

  lemma {:induction false} EscapedBehind(s: string, n: nat, i: nat)
    requires Unit(s, n) && n <= i <= |s|
    ensures Escaped(s, i) == Escaped(s[n..], i - n)
    decreases i
  {
    var t := s[n..];
    if i > n {
      assert t[i - n - 1] == s[i - 1];
      EscapedBehind(s, n, i - 1);
      assert Backslashes(s, i) == if s[i - 1] == '\\' then 1 + Backslashes(s, i - 1) else 0;
      assert Backslashes(t, i - n) == if t[i - n - 1] == '\\' then 1 + Backslashes(t, i - n - 1) else 0;
    } else if n == 2 {
      assert Backslashes(s, 1) == 1;
      assert Backslashes(s, 2) == if s[1] == '\\' then 2 else 0;
    }
  }

  lemma EscapedWithin(s: string, n: nat)
    requires Unit(s, n)
    ensures !Escaped(s, 0) && (n == 2 ==> Escaped(s, 1))
  {
  }

  /** Position `i` is an occurrence that no backslash escapes. */
  predicate Stands(s: string, target: char, i: nat) {
    i < |s| && s[i] == target && !Escaped(s, i)
  }

  lemma StandsBehind(s: string, target: char, n: nat)
    requires Unit(s, n)
    ensures forall i: nat :: Stands(s[n..], target, i) <==> Stands(s, target, n + i)
  {
    forall i: nat | n + i < |s|
      ensures Stands(s[n..], target, i) <==> Stands(s, target, n + i)
    {
      EscapedBehind(s, n, n + i);
    }
  }

  /** `e` is where the first such occurrence stands, or the end. */
  ghost predicate FirstStands(s: string, target: char, e: nat) {
    e <= |s| && (e < |s| ==> Stands(s, target, e)) && forall i: nat :: i < e ==> !Stands(s, target, i)
  }

  /** The search for a closing slash finds the first that is not escaped, or that there
      is none. */
  lemma {:induction false} UnescapedFirst(s: string, target: char)
    requires target != '\\'
    ensures FirstStands(s, target, if UnescapedIndex(s, target).Some? then UnescapedIndex(s, target).value else |s|)
    decreases |s|
  {
    if s == "" {
    } else if s == "\\" {
    } else if s[0] == target {
      EscapedWithin(s, 1);
    } else {
      var n := if s[0] == '\\' then 2 else 1;
      EscapedWithin(s, n);
      UnescapedFirst(s[n..], target);
      FirstBehind(s, target, n, if UnescapedIndex(s[n..], target).Some? then UnescapedIndex(s[n..], target).value
                                else |s| - n);
    }
  }

  lemma FirstBehind(s: string, target: char, n: nat, e: nat)
    requires Unit(s, n) && target != '\\' && s[0] != target && FirstStands(s[n..], target, e)
    ensures FirstStands(s, target, n + e)
  {
    StandsBehind(s, target, n);
    EscapedWithin(s, n);
    forall i: nat | i < n + e
      ensures !Stands(s, target, i)
    {
      if i >= n {
        assert !Stands(s[n..], target, i - n);
      }
    }
  }

  // ------------------------------------------------------------------- texts

  /** A backslash that escapes what follows; among slashes, only one that escapes a
      slash. */
  predicate Dropped(s: string, i: nat, slashes: bool)
    requires i < |s|
  {
    s[i] == '\\' && !Escaped(s, i) && i + 1 < |s| && (slashes ==> s[i + 1] == '/')
  }

  /** The first `n` characters without those. */
  function Kept(s: string, n: nat, slashes: bool): string
    requires n <= |s|
  {
    if n == 0 then ""
    else Kept(s, n - 1, slashes) + (if Dropped(s, n - 1, slashes) then "" else [s[n - 1]])
  }

  lemma DroppedBehind(s: string, n: nat, i: nat, slashes: bool)
    requires Unit(s, n) && n <= i < |s|
    ensures Dropped(s, i, slashes) == Dropped(s[n..], i - n, slashes)
  {
    EscapedBehind(s, n, i);
  }

  lemma {:induction false} KeptBehind(s: string, n: nat, m: nat, slashes: bool)
    requires Unit(s, n) && n <= m <= |s|
    ensures Kept(s, m, slashes) == Kept(s, n, slashes) + Kept(s[n..], m - n, slashes)
    decreases m
  {
    if m == n {
      assert Kept(s, n, slashes) + "" == Kept(s, n, slashes);
    } else {
      KeptBehind(s, n, m - 1, slashes);
      DroppedBehind(s, n, m - 1, slashes);
      var c := if Dropped(s, m - 1, slashes) then "" else [s[m - 1]];
      ConcatAssociates(Kept(s, n, slashes), Kept(s[n..], m - 1 - n, slashes), c);
    }
  }

  /** What one unit keeps. */
  lemma KeptUnit(s: string, n: nat, slashes: bool)
    requires Unit(s, n)
    ensures Kept(s, n, slashes) == if n == 2 && (slashes ==> s[1] == '/') then [s[1]] else s[..n]
  {
    EscapedWithin(s, n);
    assert Kept(s, 0, slashes) == "";
    assert Kept(s, 1, slashes) == (if Dropped(s, 0, slashes) then "" else [s[0]]);
    if n == 2 {
      assert Kept(s, 2, slashes) == Kept(s, 1, slashes) + [s[1]];
    }
  }

  /** A phrase ends at the first quote that is not escaped, or with the input, and its
      text is what stands before without the backslashes that escape. */
  lemma {:induction false} QuotedExact(s: string, e: nat)
    requires FirstStands(s, '"', e)
    ensures QuotedText(s) == (Kept(s, e, false), if e < |s| then e + 1 else e)
    decreases |s|
  {
    if s == "" {
    } else if s == "\\" {
      assert !Stands(s, '"', 0) && e == 1;
      LoneBackslash(s, false);
      assert s[1..] == "" && QuotedText("") == ("", 0);
      assert [s[0]] + "" == s;
    } else if s[0] == '"' {
      EscapedWithin(s, 1);
      assert Stands(s, '"', 0);
    } else {
      var n := if s[0] == '\\' then 2 else 1;
      EscapedWithin(s, n);
      assert e >= n;
      QuotedUnit(s, n);
      hide *;
      FirstAhead(s, '"', n, e);
      QuotedExact(s[n..], e - n);
      KeptBehind(s, n, e, false);
      KeptUnit(s, n, false);
    }
  }

  lemma QuotedUnit(s: string, n: nat)
    requires s != "" && n == (if s[0] == '\\' then 2 else 1) && n <= |s| && s[0] != '"'
    ensures Unit(s, n)
    ensures QuotedText(s).0 == (if n == 2 then [s[1]] else s[..n]) + QuotedText(s[n..]).0
    ensures QuotedText(s).1 == n + QuotedText(s[n..]).1
  {
    assert s[..1] == [s[0]];
  }

  lemma FirstAhead(s: string, target: char, n: nat, e: nat)
    requires Unit(s, n) && n <= e && FirstStands(s, target, e)
    ensures FirstStands(s[n..], target, e - n)
  {
    StandsBehind(s, target, n);
    forall i: nat | i < e - n
      ensures !Stands(s[n..], target, i)
    {
      assert !Stands(s, target, n + i);
    }
  }

  /** Between slashes only the backslashes go that escape a slash. */
  lemma {:induction false} UnescapedExact(s: string)
    ensures Unescaped(s) == Kept(s, |s|, true)
    decreases |s|
  {
    if s == "" {
    } else if s == "\\" {
      LoneBackslash(s, true);
    } else {
      var n := if s[0] == '\\' then 2 else 1;
      UnescapedUnit(s, n);
      hide *;
      UnescapedExact(s[n..]);
      KeptBehind(s, n, |s|, true);
      KeptUnit(s, n, true);
    }
  }

  lemma UnescapedUnit(s: string, n: nat)
    requires s != "" && n == (if s[0] == '\\' then 2 else 1) && n <= |s|
    ensures Unit(s, n)
    ensures Unescaped(s) == (if n == 2 && s[1] == '/' then [s[1]] else s[..n]) + Unescaped(s[n..])
  {
    var rest := Unescaped(s[n..]);
    if n == 1 {
      assert Unescaped(s) == [s[0]] + rest;
      assert s[..1] == [s[0]];
    } else {
      var pair := if s[1] == '/' then [s[1]] else [s[0], s[1]];
      assert Unescaped(s) == pair + rest;
      assert s[..2] == [s[0], s[1]];
    }
  }

  lemma LoneBackslash(s: string, slashes: bool)
    requires s == "\\"
    ensures Kept(s, 1, slashes) == s
  {
    assert Kept(s, 0, slashes) == "";
    assert !Dropped(s, 0, slashes);
  }

  /** A slash opens a regex exactly when another one that is not escaped follows, and
      closes it there; else it is a letter of a word like any other. */
  lemma SlashExact(s: string, e: nat)
    requires s != "" && s[0] == '/' && FirstStands(s[1..], '/', e)
    ensures
      NextToken(s) ==
      if e < |s| - 1 then (Some(Pattern(Kept(s[1..][..e], e, true))), e + 2)
      else (Some(Word(s[..WordLength(s)])), WordLength(s))
  {
    var rest := s[1..];
    UnescapedFirst(rest, '/');
    var r := UnescapedIndex(rest, '/');
    var f := if r.Some? then r.value else |rest|;
    FirstOnly(rest, '/', e, f);
    if r.Some? {
      UnescapedExact(rest[..e]);
    } else {
      assert s[..WordLength(s)][0] == '/';
    }
  }

  lemma FirstOnly(s: string, target: char, e: nat, f: nat)
    requires FirstStands(s, target, e) && FirstStands(s, target, f)
    ensures e == f
  {
  }
}
