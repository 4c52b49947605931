/** Tokens and expressions of the knowledge-base query language.

    A Rust string is modelled by its bytes, each held in a `char` below 256, so
    that "character" and "byte" coincide exactly on ASCII text. */
module QuerySyntax {

  datatype Token =
    | LParen
    | RParen
    | Plus
    | Minus
    | AndOp
    | OrOp
    | NotOp
    | Phrase(text: string)
    | Pattern(text: string)
    | Word(text: string)

  /** `id` keys the compiled term; `display` is the spelling shown to the caller. */
  datatype Expr =
    | Literal(id: nat, display: string)
    | Regex(id: nat, display: string)
    | And(children: seq<Expr>)
    | Or(children: seq<Expr>)
    | Not(inner: Expr)

  /** White_Space restricted to ASCII. */
  predicate IsSpace(c: char) {
    c == ' ' || '\t' <= c <= '\r'
  }

  /** A character that ends a bare word. */
  predicate EndsWord(c: char) {
    IsSpace(c) || c in {'(', ')', '"'}
  }

  /** Number of terms, counted with multiplicity. */
  function Terms(e: Expr): nat
    decreases e, 1
  {
    match e
    case Literal(_, _) => 1
    case Regex(_, _) => 1
    case And(cs) => TermsAll(cs)
    case Or(cs) => TermsAll(cs)
    case Not(x) => Terms(x)
  }

  function TermsAll(cs: seq<Expr>): nat
    decreases cs, 0
  {
    if cs == [] then 0 else Terms(cs[0]) + TermsAll(cs[1..])
  }

  /** The term ids of `e`, left to right, are n, n+1, n+2, ... */
  predicate Numbered(e: Expr, n: nat)
    decreases e, 1
  {
    match e
    case Literal(id, _) => id == n
    case Regex(id, _) => id == n
    case And(cs) => NumberedAll(cs, n)
    case Or(cs) => NumberedAll(cs, n)
    case Not(x) => Numbered(x, n)
  }

  predicate NumberedAll(cs: seq<Expr>, n: nat)
    decreases cs, 0
  {
    cs == [] || (Numbered(cs[0], n) && NumberedAll(cs[1..], n + Terms(cs[0])))
  }

  /** A regex text that can stand between two slashes: read in escape pairs, no
      pair escapes a slash and no backslash is left dangling at the end. */
  predicate Representable(p: string) {
    if p == [] then true
    else if p[0] == '\\' then |p| >= 2 && p[1] != '/' && Representable(p[2..])
    else Representable(p[1..])
  }

  /** The shape every parsed expression has: groups of two or more, regexes that
      can be written between slashes. */
  predicate WellFormed(e: Expr)
    decreases e, 1
  {
    match e
    case Literal(_, _) => true
    case Regex(_, p) => Representable(p)
    case And(cs) => |cs| >= 2 && WellFormedAll(cs)
    case Or(cs) => |cs| >= 2 && WellFormedAll(cs)
    case Not(x) => WellFormed(x)
  }

  predicate WellFormedAll(cs: seq<Expr>)
    decreases cs, 0
  {
    cs == [] || (WellFormed(cs[0]) && WellFormedAll(cs[1..]))
  }

  lemma {:induction false} AppendAll(cs: seq<Expr>, e: Expr, n: nat)
    ensures TermsAll(cs + [e]) == TermsAll(cs) + Terms(e)
    ensures NumberedAll(cs, n) && Numbered(e, n + TermsAll(cs)) ==> NumberedAll(cs + [e], n)
    ensures WellFormedAll(cs) && WellFormed(e) ==> WellFormedAll(cs + [e])
  {
    if cs == [] {
      assert [e][1..] == [];
      assert cs + [e] == [e];
    } else {
      assert (cs + [e])[1..] == cs[1..] + [e];
      AppendAll(cs[1..], e, n + Terms(cs[0]));
    }
  }
}
