/** The documented query language as a grammar: every way to write a query down, the
    tree it stands for, and the proof that the parser reads each one as that tree. */
module QueryGrammar {
  import opened Prelude
  import opened QuerySyntax
  import opened QueryParser

  datatype Sign = Unsigned | PlusSign | MinusSign | NotWord

  datatype Atom = Bare(text: string) | Quoted(text: string) | Slashes(text: string) | Group(inner: Alternatives)

  datatype Operand = Operand(sign: Sign, atom: Atom)

  /** Operands side by side, or with an AND spelled between them. */
  datatype Conjunction = Last(operand: Operand) | Join(operand: Operand, spelled: bool, more: Conjunction)

  datatype Alternatives = One(conj: Conjunction) | Either(conj: Conjunction, more: Alternatives)

  // ----------------------------------------------------------- how it is written

  function SignTokens(s: Sign): seq<Token> {
    match s
    case Unsigned => []
    case PlusSign => [Plus]
    case MinusSign => [Minus]
    case NotWord => [NotOp]
  }

  function AtomTokens(a: Atom): seq<Token> {
    match a
    case Bare(s) => [Word(s)]
    case Quoted(s) => [Phrase(s)]
    case Slashes(s) => [Pattern(s)]
    case Group(q) => [LParen] + QueryTokens(q) + [RParen]
  }

  function OperandTokens(o: Operand): seq<Token> {
    SignTokens(o.sign) + AtomTokens(o.atom)
  }

  function ConjTokens(c: Conjunction): seq<Token> {
    match c
    case Last(o) => OperandTokens(o)
    case Join(o, spelled, more) => OperandTokens(o) + (if spelled then [AndOp] else []) + ConjTokens(more)
  }

  function QueryTokens(q: Alternatives): seq<Token> {
    match q
    case One(c) => ConjTokens(c)
    case Either(c, more) => ConjTokens(c) + [OrOp] + QueryTokens(more)
  }

  // ------------------------------------------------------------- what it stands for

  /** A term, or the tree of the group; terms are numbered from n. */
  function AtomTree(a: Atom, n: nat): Expr
    decreases a, 0
  {
    match a
    case Bare(s) => Literal(n, s)
    case Quoted(s) => Literal(n, s)
    case Slashes(s) => Regex(n, s)
    case Group(q) => Tree(q, n)
  }

  /** A minus and the word NOT exclude; a plus changes nothing. */
  function OperandTree(o: Operand, n: nat): Expr
    decreases o, 0
  {
    var e := AtomTree(o.atom, n);
    if o.sign.MinusSign? || o.sign.NotWord? then Not(e) else e
  }

  function Conjuncts(c: Conjunction, n: nat): (es: seq<Expr>)
    ensures es != []
    decreases c, 0
  {
    match c
    case Last(o) => [OperandTree(o, n)]
    case Join(o, _, more) =>
      var e := OperandTree(o, n);
      [e] + Conjuncts(more, n + Terms(e))
  }

  function ConjTree(c: Conjunction, n: nat): Expr
    decreases c, 1
  {
    var es := Conjuncts(c, n);
    if |es| == 1 then es[0] else And(es)
  }

  function Disjuncts(q: Alternatives, n: nat): (es: seq<Expr>)
    ensures es != []
    decreases q, 0
  {
    match q
    case One(c) => [ConjTree(c, n)]
    case Either(c, more) =>
      var e := ConjTree(c, n);
      [e] + Disjuncts(more, n + Terms(e))
  }

  /** OR binds least, then the conjunction, then the signs. */
  function Tree(q: Alternatives, n: nat): Expr
    decreases q, 1
  {
    var es := Disjuncts(q, n);
    if |es| == 1 then es[0] else Or(es)
  }

  // ------------------------------------------------------------ the parser reads it

  lemma OneTerms(e: Expr)
    ensures TermsAll([e]) == Terms(e)
  {
    assert [e][1..] == [];
  }

  lemma FirstTerms(e: Expr, es: seq<Expr>)
    ensures TermsAll([e] + es) == Terms(e) + TermsAll(es)
  {
    assert ([e] + es)[1..] == es;
  }

  /** A group counts the terms of its members. */
  lemma GroupedTerms(es: seq<Expr>)
    requires es != []
    ensures |es| == 1 ==> TermsAll(es) == Terms(es[0])
    ensures Terms(And(es)) == TermsAll(es) == Terms(Or(es))
  {
    if |es| == 1 {
      assert es == [es[0]];
      OneTerms(es[0]);
    }
  }

  lemma {:induction false} AtomStarts(a: Atom)
    ensures var ts := AtomTokens(a); ts != [] && (ts[0].Word? || ts[0].Phrase? || ts[0].Pattern? || ts[0].LParen?)
  {
  }

  lemma OperandStarts(o: Operand)
    ensures OperandTokens(o) != [] && !EndsAnd(OperandTokens(o)) && !OperandTokens(o)[0].AndOp?
  {
    AtomStarts(o.atom);
  }

  lemma QueryNotEmpty(q: Alternatives)
    ensures QueryTokens(q) != []
  {
    OperandStarts(q.conj.operand);
  }

  lemma {:induction false} AtomParses(a: Atom, n: nat, rest: seq<Token>)
    ensures ParseAtom(AtomTokens(a) + rest, n) == Parsed(Some(AtomTree(a, n)), rest, n + Terms(AtomTree(a, n)))
    decreases a, 0
  {
    if a.Group? {
      QueryParses(a.inner, n, [RParen] + rest);
      GroupParses(QueryTokens(a.inner), rest, n, Tree(a.inner, n));
    }
  }

  lemma GroupParses(inner: seq<Token>, rest: seq<Token>, n: nat, e: Expr)
    requires ParseOr(inner + ([RParen] + rest), n) == Parsed(Some(e), [RParen] + rest, n + Terms(e))
    ensures ParseAtom([LParen] + inner + [RParen] + rest, n) == Parsed(Some(e), rest, n + Terms(e))
  {
    hide ParseOr;
    var close := [RParen] + rest;
    ConcatAssociates([LParen] + inner, [RParen], rest);
    ConcatAssociates([LParen], inner, close);
    var ts := [LParen] + (inner + close);
    assert ts[1..] == inner + close;
    assert close[1..] == rest;
  }

  lemma {:induction false} OperandParses(o: Operand, n: nat, rest: seq<Token>)
    ensures ParseUnary(OperandTokens(o) + rest, n) ==
            Parsed(Some(OperandTree(o, n)), rest, n + Terms(OperandTree(o, n)))
    decreases o, 1
  {
    var ts := AtomTokens(o.atom);
    AtomParses(o.atom, n, rest);
    AtomStarts(o.atom);
    ConcatAssociates(SignTokens(o.sign), ts, rest);
    SignRead(o.sign, ts + rest, n);
    assert [] + (ts + rest) == ts + rest;
  }

  /** The unary routine passes over a sign. */
  lemma SignRead(sign: Sign, ts: seq<Token>, n: nat)
    requires ts != [] && !ts[0].Plus? && !ts[0].Minus? && !ts[0].NotOp?
    ensures
      var a := ParseAtom(ts, n);
      ParseUnary(SignTokens(sign) + ts, n) ==
      if (sign.MinusSign? || sign.NotWord?) && a.expr.Some? then a.(expr := Some(Not(a.expr.value))) else a
  {
    if sign.Unsigned? {
      assert [] + ts == ts;
    } else {
      assert (SignTokens(sign) + ts)[1..] == ts;
    }
  }

  /** What follows a conjunction has no part in it. */
  lemma {:induction false} ConjParses(c: Conjunction, n: nat, rest: seq<Token>, conj: seq<Expr>)
    requires EndsAnd(rest)
    ensures ParseAndTail(ConjTokens(c) + rest, n, conj)
         == Parsed(GroupAnd(conj + Conjuncts(c, n)), rest, n + TermsAll(Conjuncts(c, n)))
    decreases c, 2
  {
    hide *;
    var o := c.operand;
    var e := OperandTree(o, n);
    var more := Following(c) + rest;
    ConjSplits(c, rest);
    OperandParses(o, n, more);
    OperandStarts(o);
    OneOperand(OperandTokens(o), more, n, conj, e);
    ConjunctsAre(c, n);
    match c {
      case Last(_) =>
        OneTerms(e);
        Stops(rest, n + Terms(e), conj + [e]);
        assert more == rest;
      case Join(_, spelled, next) =>
        FirstTerms(e, Conjuncts(next, n + Terms(e)));
        SpelledAnd(spelled, ConjTokens(next) + rest, n + Terms(e), conj + [e]);
        ConjParses(next, n + Terms(e), rest, conj + [e]);
        ConcatAssociates(conj, [e], Conjuncts(next, n + Terms(e)));
    }
  }

  /** The tokens of a conjunction after its first operand. */
  function Following(c: Conjunction): seq<Token> {
    match c
    case Last(_) => []
    case Join(_, spelled, more) => (if spelled then [AndOp] else []) + ConjTokens(more)
  }

  lemma ConjSplits(c: Conjunction, rest: seq<Token>)
    ensures ConjTokens(c) + rest == OperandTokens(c.operand) + (Following(c) + rest)
    ensures c.Last? ==> Following(c) + rest == rest
    ensures c.Join? ==>
              Following(c) + rest == (if c.spelled then [AndOp] else []) + (ConjTokens(c.more) + rest)
  {
    ConcatAssociates(OperandTokens(c.operand), Following(c), rest);
    if c.Join? {
      var sep := if c.spelled then [AndOp] else [];
      ConcatAssociates(OperandTokens(c.operand), sep, ConjTokens(c.more));
      ConcatAssociates(sep, ConjTokens(c.more), rest);
    }
  }

  lemma ConjunctsAre(c: Conjunction, n: nat)
    ensures
      var e := OperandTree(c.operand, n);
      Conjuncts(c, n) == if c.Last? then [e] else [e] + Conjuncts(c.more, n + Terms(e))
  {
  }

  lemma OneOperand(o: seq<Token>, more: seq<Token>, n: nat, conj: seq<Expr>, e: Expr)
    requires o != [] && !EndsAnd(o) && !o[0].AndOp?
    requires ParseUnary(o + more, n) == Parsed(Some(e), more, n + Terms(e))
    ensures ParseAndTail(o + more, n, conj) == ParseAndTail(more, n + Terms(e), conj + [e])
  {
  }

  lemma Stops(rest: seq<Token>, n: nat, conj: seq<Expr>)
    requires EndsAnd(rest)
    ensures ParseAndTail(rest, n, conj) == Parsed(GroupAnd(conj), rest, n)
  {
  }

  lemma SpelledAnd(spelled: bool, ts: seq<Token>, n: nat, conj: seq<Expr>)
    ensures ParseAndTail((if spelled then [AndOp] else []) + ts, n, conj) == ParseAndTail(ts, n, conj)
  {
    if spelled {
      assert ([AndOp] + ts)[1..] == ts;
    } else {
      assert [] + ts == ts;
    }
  }

  lemma {:induction false} ConjAlone(c: Conjunction, n: nat, rest: seq<Token>)
    requires EndsAnd(rest)
    ensures ParseAnd(ConjTokens(c) + rest, n) == Parsed(Some(ConjTree(c, n)), rest, n + Terms(ConjTree(c, n)))
    decreases c, 3
  {
    ConjParses(c, n, rest, []);
    var es := Conjuncts(c, n);
    assert [] + es == es;
    GroupedTerms(es);
  }

  lemma {:induction false} AlternativesParse(q: Alternatives, n: nat, rest: seq<Token>, alts: seq<Expr>)
    requires rest == [] || rest[0].RParen?
    ensures ParseOrTail([OrOp] + (QueryTokens(q) + rest), n, alts)
         == Parsed(GroupOr(alts + Disjuncts(q, n)), rest, n + TermsAll(Disjuncts(q, n)))
    decreases q, 4
  {
    var c := q.conj;
    var e := ConjTree(c, n);
    var ts := QueryTokens(q) + rest;
    assert ([OrOp] + ts)[1..] == ts;
    match q {
      case One(_) =>
        OneTerms(e);
        ConjAlone(c, n, rest);
      case Either(_, next) =>
        var more := [OrOp] + (QueryTokens(next) + rest);
        ConcatAssociates(ConjTokens(c) + [OrOp], QueryTokens(next), rest);
        ConcatAssociates(ConjTokens(c), [OrOp], QueryTokens(next) + rest);
        ConjAlone(c, n, more);
        FirstTerms(e, Disjuncts(next, n + Terms(e)));
        AlternativesParse(next, n + Terms(e), rest, alts + [e]);
        ConcatAssociates(alts, [e], Disjuncts(next, n + Terms(e)));
    }
  }

  /** Every written query, followed by nothing or by a closing parenthesis, is read as
      the tree it stands for, and what follows is left unread. */
  lemma {:induction false} QueryParses(q: Alternatives, n: nat, rest: seq<Token>)
    requires rest == [] || rest[0].RParen?
    ensures ParseOr(QueryTokens(q) + rest, n) == Parsed(Some(Tree(q, n)), rest, n + Terms(Tree(q, n)))
    decreases q, 5
  {
    var ts := QueryTokens(q) + rest;
    assert ([OrOp] + ts)[1..] == ts;
    assert ParseOr(ts, n) == ParseOrTail([OrOp] + ts, n, []);
    AlternativesParse(q, n, rest, []);
    var es := Disjuncts(q, n);
    assert [] + es == es;
    GroupedTerms(es);
  }
}
