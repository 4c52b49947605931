/** Parsing a query string: trimming, the bare-word check, and the main results. */
module Query {
  import opened Prelude
  import opened QuerySyntax
  import opened Tokenizer
  import opened QueryParser
  import opened QueryGrammar
  import opened QueryPrinter

  datatype ParsedQuery = ParsedQuery(expr: Option<Expr>, bareKeywords: Option<seq<string>>)

  function TrimStart(s: string): string {
    if s != "" && IsSpace(s[0]) then TrimStart(s[1..]) else s
  }

  function TrimEnd(s: string): string {
    if s != "" && IsSpace(s[|s| - 1]) then TrimEnd(s[..|s| - 1]) else s
  }

  function Trim(s: string): string {
    TrimEnd(TrimStart(s))
  }

  function LowerChar(c: char): char {
    if 'A' <= c <= 'Z' then c + ('a' - 'A') else c
  }

  /** ASCII lower-casing. */
  function Lower(s: string): (r: string)
    ensures |r| == |s|
    ensures forall i :: 0 <= i < |s| ==> r[i] == LowerChar(s[i])
  {
    seq(|s|, i requires 0 <= i < |s| => LowerChar(s[i]))
  }

  /** The same letter, whatever its case, or the same character. */
  predicate SameLetter(a: char, b: char) {
    a == b || ('A' <= a <= 'Z' && b as int == a as int + 32) || ('A' <= b <= 'Z' && a as int == b as int + 32)
  }

  /** Two texts fold to one exactly when they differ at most in the case of letters. */
  lemma LowerFolds(a: string, b: string)
    ensures Lower(a) == Lower(b) <==> |a| == |b| && forall i :: 0 <= i < |a| ==> SameLetter(a[i], b[i])
  {
    if Lower(a) == Lower(b) {
      assert |a| == |b|;
      forall i | 0 <= i < |a|
        ensures SameLetter(a[i], b[i])
      {
        assert Lower(a)[i] == Lower(b)[i];
      }
    }
  }

  /** Words separated by white space. */
  function Words(s: string): (r: seq<string>)
    ensures forall w <- r :: w != ""
    decreases |s|
  {
    if s == "" then []
    else if IsSpace(s[0]) then Words(s[1..])
    else
      var n := BlackLength(s);
      [s[..n]] + Words(s[n..])
  }

  /** Length of the run of non-space characters at the front. */
  function BlackLength(s: string): (n: nat)
    ensures n <= |s|
    ensures s != "" && !IsSpace(s[0]) ==> n > 0
    ensures forall i :: 0 <= i < n ==> !IsSpace(s[i])
    ensures n < |s| ==> IsSpace(s[n])
  {
    if s == "" || IsSpace(s[0]) then 0 else 1 + BlackLength(s[1..])
  }

  /** A character that makes a query structured. */
  predicate IsOperatorChar(c: char) {
    c in {'"', '+', '-', '(', ')', '/'}
  }

  predicate IsBare(s: string) {
    && (forall c <- s :: !IsOperatorChar(c))
    && (forall w <- Words(s) :: !IsOperatorWord(w))
    && Words(s) != []
  }

  function LowerAll(ws: seq<string>): (r: seq<string>)
    ensures |r| == |ws|
    ensures forall i :: 0 <= i < |ws| ==> r[i] == Lower(ws[i])
  {
    seq(|ws|, i requires 0 <= i < |ws| => Lower(ws[i]))
  }

  function BareKeywords(s: string): Option<seq<string>> {
    if IsBare(s) then Some(LowerAll(Words(s))) else None
  }

  function ParseTrimmed(s: string): Option<Expr> {
    ParseOr(Tokens(s), 0).expr
  }

  function Parse(input: string): ParsedQuery {
    var s := Trim(input);
    ParsedQuery(ParseTrimmed(s), BareKeywords(s))
  }

  lemma NoWords()
    ensures Words("") == []
  {
  }

  /** No character of the six and no word of the three, but at least one word. */
  lemma BareExact(s: string)
    ensures BareKeywords(s).Some? <==>
              && Words(s) != []
              && (forall c <- s :: c != '"' && c != '+' && c != '-' && c != '(' && c != ')' && c != '/')
              && forall w <- Words(s) :: w != "AND" && w != "OR" && w != "NOT"
    ensures BareKeywords(s).Some? ==> BareKeywords(s).value == LowerAll(Words(s))
  {
    hide Words, LowerAll;
  }

  method ExtractBareKeywords(input: string) returns (r: Option<seq<string>>)
    ensures r.Some? <==>
              && Words(input) != []
              && (forall c <- input :: c != '"' && c != '+' && c != '-' && c != '(' && c != ')' && c != '/')
              && forall w <- Words(input) :: w != "AND" && w != "OR" && w != "NOT"
    ensures r.Some? ==> r.value == LowerAll(Words(input))
    ensures r == BareKeywords(input)
  {
    BareExact(input);
    hide Words;
    if input == "" {
      NoWords();
      return None;
    }
    for i := 0 to |input|
      invariant forall c <- input[..i] :: !IsOperatorChar(c)
    {
      if IsOperatorChar(input[i]) {
        assert input[i] in input;
        return None;
      }
    }
    assert input[..|input|] == input;
    var parts := Words(input);
    var words: seq<string> := [];
    for i := 0 to |parts|
      invariant forall w <- parts[..i] :: !IsOperatorWord(w)
      invariant words == LowerAll(parts[..i])
    {
      if IsOperatorWord(parts[i]) {
        assert parts[i] in parts;
        return None;
      }
      words := words + [Lower(parts[i])];
    }
    assert parts[..|parts|] == parts;
    r := if words == [] then None else Some(words);
  }

  method ParseQuery(input: string) returns (r: ParsedQuery)
    ensures r == Parse(input)
  {
    var trimmed := Trim(input);
    var bare := ExtractBareKeywords(trimmed);
    var tokens := Tokenize(trimmed);
    var p := new TokenParser(tokens);
    var e, next := p.RunOr(0);
    assert ParseOr(tokens, 0) == Parsed(e, p.Unread(), next);
    r := ParsedQuery(e, bare);
  }

  // ------------------------------------------------------------- round trips

  lemma {:induction false} TrimLead(lead: string, s: string)
    requires AllSpace(lead)
    ensures TrimStart(lead + s) == TrimStart(s)
  {
    if lead == "" {
      assert lead + s == s;
    } else {
      assert (lead + s)[1..] == lead[1..] + s;
      assert IsSpace(lead[0]);
      TrimLead(lead[1..], s);
    }
  }

  lemma {:induction false} TrimTrail(s: string, trail: string)
    requires AllSpace(trail) && s != "" && !IsSpace(s[|s| - 1])
    ensures TrimEnd(s + trail) == s
  {
    if trail == "" {
      assert s + trail == s;
    } else {
      var n := |trail| - 1;
      assert (s + trail)[..|s + trail| - 1] == s + trail[..n];
      assert IsSpace(trail[n]);
      TrimTrail(s, trail[..n]);
    }
  }

  lemma TrimWrapped(lead: string, s: string, trail: string)
    requires AllSpace(lead) && AllSpace(trail) && s != "" && !IsSpace(s[0]) && !IsSpace(s[|s| - 1])
    ensures Trim(lead + (s + trail)) == s
  {
    TrimLead(lead, s + trail);
    TrimTrail(s, trail);
  }

  /** The query language is read as documented: however a query is spelled, spaced and
      wrapped in white space, it parses to the tree it stands for, every token read. */
  lemma EverySpelling(q: Alternatives, ws: seq<Spelled>, lead: string, trail: string)
    requires Spaced(ws) && TokensOf(ws) == QueryTokens(q)
    requires AllSpace(lead) && AllSpace(trail)
    ensures Parse(lead + (Render(ws) + trail)).expr == Some(Tree(q, 0))
    ensures ParseOr(Tokens(Trim(lead + (Render(ws) + trail))), 0).rest == []
  {
    QueryNotEmpty(q);
    RenderTrimmed(ws);
    TrimWrapped(lead, Render(ws), trail);
    LexRender(ws);
    QueryParses(q, 0, []);
    assert QueryTokens(q) + [] == QueryTokens(q);
  }

  function Print(e: Expr): string
    requires WellFormed(e)
  {
    CanonSpellable(e);
    QueryPrintable(Canon(e));
    Render(SingleSpaced(TopTokens(e)))
  }

  /** Printing then parsing is the identity on every well-formed query whose terms
      are numbered from zero: every token is consumed and the tree comes back. */
  lemma ParsePrint(e: Expr)
    requires WellFormed(e) && Numbered(e, 0)
    ensures Parse(Print(e)).expr == Some(e)
    ensures ParseOr(Tokens(Trim(Print(e))), 0).rest == []
  {
    CanonSpellable(e);
    QueryPrintable(Canon(e));
    EverySpelling(Canon(e), SingleSpaced(TopTokens(e)), "", "");
    CanonTree(e, 0);
    assert "" + (Print(e) + "") == Print(e);
  }

  /** What stands between two slashes always unescapes to something that can be
      written between slashes again. */
  lemma {:induction false} UnescapedRepresentable(s: string, tail: string)
    requires UnescapedIndex(s + ("/" + tail), '/') == Some(|s|)
    ensures Representable(Unescaped(s))
    decreases |s|
  {
    var all := s + ("/" + tail);
    if s == "" {
    } else if s[0] == '\\' {
      if |s| == 1 {
        assert false;
      }
      assert all[2..] == s[2..] + ("/" + tail);
      UnescapedRepresentable(s[2..], tail);
      var u := Unescaped(s[2..]);
      var w := Unescaped(s);
      if s[1] == '/' {
        assert w[1..] == u;
      } else {
        assert w == [s[0], s[1]] + u;
        assert w[2..] == u;
      }
    } else {
      assert all[1..] == s[1..] + ("/" + tail);
      UnescapedRepresentable(s[1..], tail);
      assert Unescaped(s)[1..] == Unescaped(s[1..]);
    }
  }

  lemma PatternLexed(s: string)
    requires s != "" && NextToken(s).0.Some? && NextToken(s).0.value.Pattern?
    ensures Representable(NextToken(s).0.value.text)
  {
    var end := UnescapedIndex(s[1..], '/').value;
    var body := s[1..][..end];
    assert s[1..] == body + ("/" + s[1..][end + 1..]);
    hide WordLength, QuotedText;
    UnescapedRepresentable(body, s[1..][end + 1..]);
  }

  lemma {:induction false} TokensLexed(s: string)
    ensures Lexed(Tokens(s))
    decreases |s|
  {
    hide NextToken, Representable;
    if s != "" {
      var (t, n) := NextToken(s);
      TokensLexed(s[n..]);
      if t.Some? && t.value.Pattern? {
        PatternLexed(s);
      }
    }
  }

  /** Whatever the input, the parsed query is well formed and its terms carry the
      ids 0, 1, 2, ... from left to right, none twice. */
  lemma ParseSound(input: string)
    ensures
      var r := Parse(input).expr;
      r.Some? ==> WellFormed(r.value) && Numbered(r.value, 0)
  {
    TokensLexed(Trim(input));
    ParseOrSound(Tokens(Trim(input)), 0);
  }

  /** The printed form is canonical: it parses to what the original parsed to. */
  lemma PrintIsCanonical(input: string)
    requires Parse(input).expr.Some?
    ensures WellFormed(Parse(input).expr.value)
    ensures Parse(Print(Parse(input).expr.value)).expr == Parse(input).expr
  {
    ParseSound(input);
    ParsePrint(Parse(input).expr.value);
  }

  /** A regex text can be queried between slashes exactly when, read in escape
      pairs, it escapes no slash and leaves no backslash dangling. */
  lemma RegexExpressible(p: string)
    ensures Representable(p) <==> exists s: string :: Parse(s).expr == Some(Regex(0, p))
  {
    if Representable(p) {
      ParsePrint(Regex(0, p));
      assert Parse(Print(Regex(0, p))).expr == Some(Regex(0, p));
    }
    forall s: string | Parse(s).expr == Some(Regex(0, p))
      ensures Representable(p)
    {
      ParseSound(s);
    }
  }

  // -------------------------------------------------------------- bare words

  /** The tokens of bare words. */
  function WordTokens(ws: seq<string>): (r: seq<Token>)
    ensures |r| == |ws|
    ensures forall i :: 0 <= i < |ws| ==> r[i] == Word(ws[i])
  {
    seq(|ws|, i requires 0 <= i < |ws| => Word(ws[i]))
  }

  /** Literals numbered by position. */
  function WordLiterals(ws: seq<string>, n: nat): (r: seq<Expr>)
    ensures |r| == |ws|
    ensures forall i :: 0 <= i < |ws| ==> r[i] == Literal(n + i, ws[i])
  {
    seq(|ws|, i requires 0 <= i < |ws| => Literal(n + i, ws[i]))
  }

  lemma {:induction false} WordLengthIsBlackLength(s: string)
    requires forall c <- s :: !IsOperatorChar(c)
    ensures WordLength(s) == BlackLength(s)
  {
    if s != "" {
      assert !IsOperatorChar(s[0]);
      WordLengthIsBlackLength(s[1..]);
    }
  }

  /** No operator character, and no word that is an operator. */
  ghost predicate PlainWords(s: string) {
    (forall c <- s :: !IsOperatorChar(c)) && forall w <- Words(s) :: !IsOperatorWord(w)
  }

  lemma PlainSpace(s: string)
    requires PlainWords(s) && s != "" && IsSpace(s[0])
    ensures PlainWords(s[1..]) && Words(s) == Words(s[1..]) && NextToken(s) == (None, 1)
  {
  }

  lemma PlainWord(s: string) returns (n: nat)
    requires PlainWords(s) && s != "" && !IsSpace(s[0])
    ensures 1 <= n <= |s| && PlainWords(s[n..])
    ensures Words(s) == [s[..n]] + Words(s[n..]) && NextToken(s) == (Some(Word(s[..n])), n)
  {
    n := BlackLength(s);
    WordLengthIsBlackLength(s);
    assert !IsOperatorChar(s[0]);
    var more := Words(s[n..]);
    assert Words(s) == [s[..n]] + more;
    hide Words, WordLength, BlackLength;
    assert forall w :: w in more ==> w in Words(s);
    assert s[..n] in Words(s);
  }

  lemma WordTokensFirst(w: string, ws: seq<string>)
    ensures WordTokens([w] + ws) == [Word(w)] + WordTokens(ws)
  {
    assert ([w] + ws)[1..] == ws;
  }

  lemma NoWordTokens()
    ensures Tokens("") == WordTokens(Words(""))
  {
  }

  lemma {:induction false} BareTokens(s: string)
    requires PlainWords(s)
    ensures Tokens(s) == WordTokens(Words(s))
    decreases |s|
  {
    hide *;
    if s == "" {
      NoWordTokens();
    } else if IsSpace(s[0]) {
      PlainSpace(s);
      BareTokens(s[1..]);
      TokensStep(s, None, s[1..]);
      assert [] + Tokens(s[1..]) == Tokens(s[1..]);
    } else {
      var n := PlainWord(s);
      BareTokens(s[n..]);
      TokensStep(s, Some(Word(s[..n])), s[n..]);
      WordTokensFirst(s[..n], Words(s[n..]));
    }
  }

  lemma {:induction false} ParseWords(ws: seq<string>, n: nat, conj: seq<Expr>)
    ensures ParseAndTail(WordTokens(ws), n, conj)
         == Parsed(GroupAnd(conj + WordLiterals(ws, n)), [], n + |ws|)
    decreases |ws|
  {
    hide WordTokens, WordLiterals;
    var ts := WordTokens(ws);
    if ws == [] {
      assert conj + WordLiterals(ws, n) == conj;
    } else {
      assert ts[1..] == WordTokens(ws[1..]);
      assert ParseUnary(ts, n) == Parsed(Some(Literal(n, ws[0])), ts[1..], n + 1);
      ParseWords(ws[1..], n + 1, conj + [Literal(n, ws[0])]);
      assert conj + [Literal(n, ws[0])] + WordLiterals(ws[1..], n + 1) == conj + WordLiterals(ws, n);
    }
  }

  /** A query of plain words parses to their conjunction, and keyword i has term id i. */
  lemma BareParse(s: string)
    requires IsBare(s)
    ensures ParseTrimmed(s) == GroupAnd(WordLiterals(Words(s), 0))
  {
    BareTokens(s);
    var ws := Words(s);
    ParseWords(ws, 0, []);
    var lits := WordLiterals(ws, 0);
    assert [] + lits == lits;
    var e := GroupAnd(lits).value;
    assert ParseAnd(Tokens(s), 0) == Parsed(Some(e), [], |ws|);
    assert Append([], Some(e)) == [e];
    assert ParseOrTail([], |ws|, [e]) == Parsed(Some(e), [], |ws|);
  }
}
