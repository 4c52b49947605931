/** A printer for parsed queries, and the proof that tokenizing and parsing undo it. */
module QueryPrinter {
  import opened Prelude
  import opened QuerySyntax
  import opened Tokenizer
  import opened QueryParser
  import opened QueryGrammar

  // ----------------------------------------------- expressions to written queries

  function CanonAtom(e: Expr): Atom
    requires WellFormed(e)
    decreases e, 3
  {
    match e
    case Literal(_, s) => Quoted(s)
    case Regex(_, p) => Slashes(p)
    case _ => Group(Canon(e))
  }

  function CanonOperand(e: Expr): Operand
    requires WellFormed(e)
    decreases e, 4
  {
    if e.Not? then Operand(NotWord, CanonAtom(e.inner)) else Operand(Unsigned, CanonAtom(e))
  }

  /** An expression with every connective spelled, and parentheses around groups only. */
  function Canon(e: Expr): Alternatives
    requires WellFormed(e)
    decreases e, 2
  {
    match e
    case And(cs) => One(CanonConj(cs))
    case Or(cs) => CanonAlternatives(cs)
    case Not(x) => One(Last(Operand(NotWord, CanonAtom(x))))
    case Literal(_, s) => One(Last(Operand(Unsigned, Quoted(s))))
    case Regex(_, p) => One(Last(Operand(Unsigned, Slashes(p))))
  }

  function CanonConj(cs: seq<Expr>): Conjunction
    requires cs != [] && WellFormedAll(cs)
    decreases cs, 0
  {
    if |cs| == 1 then Last(CanonOperand(cs[0])) else Join(CanonOperand(cs[0]), true, CanonConj(cs[1..]))
  }

  function CanonAlternatives(cs: seq<Expr>): Alternatives
    requires cs != [] && WellFormedAll(cs)
    decreases cs, 0
  {
    var c := Last(CanonOperand(cs[0]));
    if |cs| == 1 then One(c) else Either(c, CanonAlternatives(cs[1..]))
  }

  function TopTokens(e: Expr): seq<Token>
    requires WellFormed(e)
  {
    QueryTokens(Canon(e))
  }

  // --------------------------------------------------------- parsing undoes it

  lemma LoneConjunction(c: Conjunction, n: nat)
    ensures Tree(One(c), n) == ConjTree(c, n)
  {
    assert Disjuncts(One(c), n) == [ConjTree(c, n)];
  }

  lemma LoneOperand(o: Operand, n: nat)
    ensures ConjTree(Last(o), n) == OperandTree(o, n) == Tree(One(Last(o)), n)
  {
    assert Conjuncts(Last(o), n) == [OperandTree(o, n)];
    LoneConjunction(Last(o), n);
  }

  lemma {:induction false} CanonTree(e: Expr, n: nat)
    requires WellFormed(e) && Numbered(e, n)
    ensures Tree(Canon(e), n) == e
    decreases e, 2
  {
    match e
    case And(cs) =>
      CanonConjuncts(cs, n);
      LoneConjunction(CanonConj(cs), n);
    case Or(cs) => CanonDisjuncts(cs, n);
    case Not(x) =>
      CanonAtomTree(x, n);
      LoneOperand(Operand(NotWord, CanonAtom(x)), n);
    case _ => LoneOperand(Operand(Unsigned, CanonAtom(e)), n);
  }

  lemma {:induction false} CanonAtomTree(e: Expr, n: nat)
    requires WellFormed(e) && Numbered(e, n)
    ensures AtomTree(CanonAtom(e), n) == e
    decreases e, 3
  {
    if !e.Literal? && !e.Regex? {
      CanonTree(e, n);
    }
  }

  lemma {:induction false} CanonOperandTree(e: Expr, n: nat)
    requires WellFormed(e) && Numbered(e, n)
    ensures OperandTree(CanonOperand(e), n) == e
    decreases e, 4
  {
    CanonAtomTree(if e.Not? then e.inner else e, n);
  }

  lemma {:induction false} CanonConjuncts(cs: seq<Expr>, n: nat)
    requires cs != [] && WellFormedAll(cs) && NumberedAll(cs, n)
    ensures Conjuncts(CanonConj(cs), n) == cs
    decreases cs, 0
  {
    CanonOperandTree(cs[0], n);
    if |cs| > 1 {
      CanonConjuncts(cs[1..], n + Terms(cs[0]));
    }
  }

  lemma {:induction false} CanonDisjuncts(cs: seq<Expr>, n: nat)
    requires cs != [] && WellFormedAll(cs) && NumberedAll(cs, n)
    ensures Disjuncts(CanonAlternatives(cs), n) == cs
    decreases cs, 0
  {
    CanonOperandTree(cs[0], n);
    LoneOperand(CanonOperand(cs[0]), n);
    if |cs| > 1 {
      CanonDisjuncts(cs[1..], n + Terms(cs[0]));
    }
  }

  lemma ParseTopPrinted(e: Expr, n: nat)
    requires WellFormed(e) && Numbered(e, n)
    ensures ParseOr(TopTokens(e), n) == Parsed(Some(e), [], n + Terms(e))
  {
    CanonTree(e, n);
    QueryParses(Canon(e), n, []);
    assert TopTokens(e) + [] == TopTokens(e);
  }

  // --------------------------------------------------------- tokens to a string

  /** Escapes the two characters that are special between quotes. */
  function Escape(s: string): string {
    if s == [] then ""
    else (if s[0] in {'"', '\\'} then ['\\', s[0]] else [s[0]]) + Escape(s[1..])
  }

  /** Escapes slashes, leaving the regex's own escape pairs alone. */
  function EscapeSlash(p: string): string
    requires Representable(p)
  {
    if p == [] then ""
    else if p[0] == '\\' then p[..2] + EscapeSlash(p[2..])
    else (if p[0] == '/' then "\\/" else [p[0]]) + EscapeSlash(p[1..])
  }

  predicate IsOperatorWord(w: string) {
    w in {"AND", "OR", "NOT"}
  }

  /** A word that reads as one token, whatever stands behind it. */
  predicate PlainText(w: string) {
    w != "" && (forall c <- w :: !EndsWord(c)) && w[0] !in {'+', '-', '/'} && !IsOperatorWord(w)
  }

  /** Tokens that can be spelled. */
  predicate Printable(t: Token) {
    match t
    case Pattern(p) => Representable(p)
    case Word(w) => PlainText(w)
    case _ => true
  }

  function TokenText(t: Token): string
    requires Printable(t)
  {
    match t
    case LParen => "("
    case RParen => ")"
    case Plus => "+"
    case Minus => "-"
    case AndOp => "AND"
    case OrOp => "OR"
    case NotOp => "NOT"
    case Phrase(s) => "\"" + Escape(s) + "\""
    case Pattern(p) => "/" + EscapeSlash(p) + "/"
    case Word(w) => w
  }

  predicate AllPrintable(ts: seq<Token>) {
    forall t <- ts :: Printable(t)
  }

  /** A token and the white space behind it. */
  datatype Spelled = Spelled(token: Token, gap: string)

  predicate AllSpace(s: string) {
    forall c <- s :: IsSpace(c)
  }

  /** Letters run on into what follows, so they need a space before more letters. */
  predicate Wordy(t: Token) {
    t.Word? || t.AndOp? || t.OrOp? || t.NotOp?
  }

  /** What may follow a word without a space. */
  predicate Delimits(t: Token) {
    t.LParen? || t.RParen? || t.Phrase?
  }

  /** Any white space between tokens, and none only where they stay apart without. */
  predicate Spaced(ws: seq<Spelled>) {
    ws == []
    || (&& Printable(ws[0].token) && AllSpace(ws[0].gap) && Spaced(ws[1..])
        && if |ws| == 1 then ws[0].gap == ""
           else Wordy(ws[0].token) && ws[0].gap == "" ==> Delimits(ws[1].token))
  }

  function Render(ws: seq<Spelled>): string
    requires Spaced(ws)
  {
    if ws == [] then "" else TokenText(ws[0].token) + (ws[0].gap + Render(ws[1..]))
  }

  function TokensOf(ws: seq<Spelled>): seq<Token> {
    if ws == [] then [] else [ws[0].token] + TokensOf(ws[1..])
  }

  /** Single spaces between tokens. */
  function SingleSpaced(ts: seq<Token>): (ws: seq<Spelled>)
    requires AllPrintable(ts)
    ensures |ws| == |ts| && Spaced(ws) && TokensOf(ws) == ts
  {
    if ts == [] then []
    else [Spelled(ts[0], if |ts| == 1 then "" else " ")] + SingleSpaced(ts[1..])
  }

  // ------------------------------------------------------ tokenizing undoes it

  lemma {:induction false} QuotedEscape(s: string, tail: string)
    ensures QuotedText(Escape(s) + ("\"" + tail)).0 == s
    ensures QuotedText(Escape(s) + ("\"" + tail)).1 == |Escape(s)| + 1
  {
    if s != [] {
      var head := if s[0] in {'"', '\\'} then ['\\', s[0]] else [s[0]];
      var rest := Escape(s[1..]) + ("\"" + tail);
      QuotedEscape(s[1..], tail);
      ConcatAssociates(head, Escape(s[1..]), "\"" + tail);
      Halves(head, rest);
    }
  }

  lemma {:induction false} SlashEscape(p: string, tail: string)
    requires Representable(p)
    ensures UnescapedIndex(EscapeSlash(p) + ("/" + tail), '/') == Some(|EscapeSlash(p)|)
    ensures Unescaped(EscapeSlash(p)) == p
  {
    if p != [] {
      var n := if p[0] == '\\' then 2 else 1;
      var head := if p[0] == '/' then "\\/" else p[..n];
      var more := EscapeSlash(p[n..]);
      SlashEscape(p[n..], tail);
      assert EscapeSlash(p) == head + more;
      ConcatAssociates(head, more, "/" + tail);
      SlashIndexStep(head, more + ("/" + tail), |more|);
      UnescapedStep(head, more);
      assert p == p[..n] + p[n..];
    }
  }

  lemma SlashIndexStep(head: string, rest: string, n: nat)
    requires UnescapedIndex(rest, '/') == Some(n)
    requires head != "" && (head[0] == '\\' ==> |head| == 2) && (head[0] != '\\' ==> |head| == 1)
    requires head[0] != '/'
    ensures UnescapedIndex(head + rest, '/') == Some(|head| + n)
  {
    Halves(head, rest);
  }

  lemma UnescapedStep(head: string, more: string)
    requires head != "" && (head[0] == '\\' ==> |head| == 2) && (head[0] != '\\' ==> |head| == 1)
    ensures Unescaped(head + more) == (if head == "\\/" then "/" else head) + Unescaped(more)
  {
    Halves(head, more);
  }

  lemma {:induction false} WordStops(w: string, tail: string)
    requires forall c <- w :: !EndsWord(c)
    requires tail == "" || EndsWord(tail[0])
    ensures WordLength(w + tail) == |w|
  {
    if w != [] {
      assert (w + tail)[1..] == w[1..] + tail;
      WordStops(w[1..], tail);
    } else {
      assert w + tail == tail;
    }
  }

  lemma LexPhrase(s: string, tail: string)
    ensures NextToken(TokenText(Phrase(s)) + tail).0 == Some(Phrase(s))
    ensures NextToken(TokenText(Phrase(s)) + tail).1 == |Escape(s)| + 2
  {
    var body := Escape(s);
    QuotedEscape(s, tail);
    ConcatAssociates("\"" + body, "\"", tail);
    ConcatAssociates("\"", body, "\"" + tail);
    Halves("\"", body + ("\"" + tail));
  }

  lemma SlashToken(body: string, tail: string)
    requires UnescapedIndex(body + tail, '/') == Some(|body|)
    ensures NextToken("/" + (body + tail)).0 == Some(Pattern(Unescaped(body)))
    ensures NextToken("/" + (body + tail)).1 == |body| + 2
  {
    var all := "/" + (body + tail);
    assert all[1..] == body + tail;
    assert (body + tail)[..|body|] == body;
  }

  lemma LexPattern(p: string, tail: string)
    requires Representable(p)
    ensures NextToken(TokenText(Pattern(p)) + tail).0 == Some(Pattern(p))
    ensures NextToken(TokenText(Pattern(p)) + tail).1 == |EscapeSlash(p)| + 2
  {
    var body := EscapeSlash(p);
    assert TokenText(Pattern(p)) == "/" + body + "/";
    hide *;
    SlashEscape(p, tail);
    SlashToken(body, "/" + tail);
    ConcatAssociates("/" + body, "/", tail);
    ConcatAssociates("/", body, "/" + tail);
  }

  lemma LexWord(w: string, tail: string)
    requires w != "" && (forall c <- w :: !EndsWord(c)) && w[0] !in {'+', '-', '/'}
    requires tail == "" || EndsWord(tail[0])
    ensures NextToken(w + tail) == (Some(ClassifyWord(w)), |w|)
  {
    WordStops(w, tail);
    assert (w + tail)[..|w|] == w;
    assert w[0] in w;
  }

  /** Nothing of `tail` belongs to the token before it. */
  predicate Apart(t: Token, tail: string) {
    Wordy(t) ==> tail == "" || EndsWord(tail[0])
  }

  lemma LexText(t: Token, tail: string)
    requires Printable(t) && Apart(t, tail)
    ensures TokenText(t) != "" && !IsSpace(TokenText(t)[0]) && !IsSpace(TokenText(t)[|TokenText(t)| - 1])
    ensures NextToken(TokenText(t) + tail).0 == Some(t)
    ensures NextToken(TokenText(t) + tail).1 == |TokenText(t)|
  {
    match t
    case Phrase(s) => LexPhrase(s, tail);
    case Pattern(p) => LexPattern(p, tail);
    case AndOp => LexWord("AND", tail);
    case OrOp => LexWord("OR", tail);
    case NotOp => LexWord("NOT", tail);
    case Word(w) =>
      LexWord(w, tail);
      assert w[0] in w && w[|w| - 1] in w;
    case _ =>
  }

  lemma TokensStep(s: string, t: Option<Token>, rest: string)
    requires s != "" && NextToken(s).0 == t && s[NextToken(s).1..] == rest
    ensures Tokens(s) == (if t.Some? then [t.value] else []) + Tokens(rest)
  {
  }

  /** One token and what is kept apart from it. */
  lemma LexStep(t: Token, tail: string)
    requires Printable(t) && Apart(t, tail)
    ensures Tokens(TokenText(t) + tail) == [t] + Tokens(tail)
  {
    var text := TokenText(t);
    LexText(t, tail);
    hide *;
    Halves(text, tail);
    TokensStep(text + tail, Some(t), tail);
  }

  lemma {:induction false} LeadingSpace(gap: string, tail: string)
    requires AllSpace(gap)
    ensures Tokens(gap + tail) == Tokens(tail)
  {
    if gap == "" {
      assert gap + tail == tail;
    } else {
      LeadingSpace(gap[1..], tail);
      var s := gap + tail;
      assert s[1..] == gap[1..] + tail;
      assert IsSpace(gap[0]);
      TokensStep(s, None, s[1..]);
      assert [] + Tokens(s[1..]) == Tokens(s[1..]);
    }
  }

  /** What a rendering starts with. */
  lemma RenderStarts(ws: seq<Spelled>)
    requires Spaced(ws) && ws != []
    ensures Render(ws) != "" && !IsSpace(Render(ws)[0])
    ensures Delimits(ws[0].token) ==> EndsWord(Render(ws)[0])
  {
    LexText(ws[0].token, "");
    Halves(TokenText(ws[0].token), ws[0].gap + Render(ws[1..]));
  }

  lemma GapKeepsApart(ws: seq<Spelled>)
    requires Spaced(ws) && ws != []
    ensures Spaced(ws[1..]) && Apart(ws[0].token, ws[0].gap + Render(ws[1..]))
  {
    if |ws| > 1 {
      RenderStarts(ws[1..]);
    }
    if ws[0].gap != "" {
      assert ws[0].gap[0] in ws[0].gap;
    }
  }

  lemma RenderStep(ws: seq<Spelled>)
    requires Spaced(ws) && ws != []
    ensures Printable(ws[0].token) && AllSpace(ws[0].gap) && Spaced(ws[1..])
    ensures Render(ws) == TokenText(ws[0].token) + (ws[0].gap + Render(ws[1..]))
    ensures TokensOf(ws) == [ws[0].token] + TokensOf(ws[1..])
  {
  }

  /** Tokenizing any spelling of printable tokens gives those tokens back. */
  lemma {:induction false} LexRender(ws: seq<Spelled>)
    requires Spaced(ws)
    ensures Tokens(Render(ws)) == TokensOf(ws)
  {
    if ws != [] {
      hide *;
      RenderStep(ws);
      GapKeepsApart(ws);
      var rest := Render(ws[1..]);
      LexStep(ws[0].token, ws[0].gap + rest);
      LeadingSpace(ws[0].gap, rest);
      LexRender(ws[1..]);
    }
  }

  /** A rendering neither starts nor ends with white space. */
  lemma {:induction false} RenderTrimmed(ws: seq<Spelled>)
    requires Spaced(ws) && ws != []
    ensures var r := Render(ws); r != "" && !IsSpace(r[0]) && !IsSpace(r[|r| - 1])
  {
    RenderStarts(ws);
    LexText(ws[0].token, "");
    if |ws| > 1 {
      RenderTrimmed(ws[1..]);
    } else {
      assert ws[1..] == [];
      assert Render(ws) == TokenText(ws[0].token);
    }
  }

  /** The terms of a written query are ones that can be spelled. */
  predicate Spellable(q: Alternatives) {
    match q
    case One(c) => SpellableConj(c)
    case Either(c, more) => SpellableConj(c) && Spellable(more)
  }

  predicate SpellableConj(c: Conjunction) {
    match c
    case Last(o) => SpellableAtom(o.atom)
    case Join(o, _, more) => SpellableAtom(o.atom) && SpellableConj(more)
  }

  predicate SpellableAtom(a: Atom) {
    match a
    case Bare(w) => PlainText(w)
    case Quoted(_) => true
    case Slashes(p) => Representable(p)
    case Group(q) => Spellable(q)
  }

  lemma {:induction false} QueryPrintable(q: Alternatives)
    requires Spellable(q)
    ensures AllPrintable(QueryTokens(q)) && QueryTokens(q) != []
    decreases q, 3
  {
    ConjPrintable(q.conj);
    if q.Either? {
      QueryPrintable(q.more);
    }
  }

  lemma {:induction false} ConjPrintable(c: Conjunction)
    requires SpellableConj(c)
    ensures AllPrintable(ConjTokens(c)) && ConjTokens(c) != []
    decreases c, 2
  {
    AtomPrintable(c.operand.atom);
    AtomStarts(c.operand.atom);
    if c.Join? {
      ConjPrintable(c.more);
    }
  }

  lemma {:induction false} AtomPrintable(a: Atom)
    requires SpellableAtom(a)
    ensures AllPrintable(AtomTokens(a))
    decreases a, 1
  {
    if a.Group? {
      QueryPrintable(a.inner);
    }
  }

  lemma {:induction false} CanonSpellable(e: Expr)
    requires WellFormed(e)
    ensures Spellable(Canon(e)) && SpellableAtom(CanonAtom(e)) && SpellableAtom(CanonOperand(e).atom)
    decreases e, 1
  {
    match e
    case And(cs) => CanonAllSpellable(cs);
    case Or(cs) => CanonAllSpellable(cs);
    case Not(x) => CanonSpellable(x);
    case _ =>
  }

  lemma {:induction false} CanonAllSpellable(cs: seq<Expr>)
    requires cs != [] && WellFormedAll(cs)
    ensures SpellableConj(CanonConj(cs)) && Spellable(CanonAlternatives(cs))
    decreases cs, 0
  {
    CanonSpellable(cs[0]);
    if |cs| > 1 {
      CanonAllSpellable(cs[1..]);
    }
  }
}
