/** The recursive-descent parser (or, and, unary, atom): a function from token
    suffixes, and the cursor object whose methods compute it. */
module QueryParser {
  import opened Prelude
  import opened QuerySyntax
  import opened Tokenizer

  /** What a parsing routine leaves: its expression, the unread tokens, the next id. */
  datatype Parsed = Parsed(expr: Option<Expr>, rest: seq<Token>, next: nat)

  function Append(es: seq<Expr>, e: Option<Expr>): seq<Expr> {
    if e.Some? then es + [e.value] else es
  }

  function GroupOr(es: seq<Expr>): Option<Expr> {
    if |es| == 0 then None else if |es| == 1 then Some(es[0]) else Some(Or(es))
  }

  function GroupAnd(es: seq<Expr>): Option<Expr> {
    if |es| == 0 then None else if |es| == 1 then Some(es[0]) else Some(And(es))
  }

  /** Where a conjunction stops. */
  predicate EndsAnd(ts: seq<Token>) {
    ts == [] || ts[0].RParen? || ts[0].OrOp?
  }

  function Drop(ts: seq<Token>): seq<Token> {
    if ts == [] then [] else ts[1..]
  }

  function ParseOr(ts: seq<Token>, n: nat): (r: Parsed)
    ensures |r.rest| <= |ts|
    decreases |ts|, 5
  {
    var a := ParseAnd(ts, n);
    ParseOrTail(a.rest, a.next, Append([], a.expr))
  }

  function ParseOrTail(ts: seq<Token>, n: nat, alts: seq<Expr>): (r: Parsed)
    ensures |r.rest| <= |ts|
    decreases |ts|, 4
  {
    if ts != [] && ts[0].OrOp? then
      var a := ParseAnd(ts[1..], n);
      ParseOrTail(a.rest, a.next, Append(alts, a.expr))
    else
      Parsed(GroupOr(alts), ts, n)
  }

  function ParseAnd(ts: seq<Token>, n: nat): (r: Parsed)
    ensures |r.rest| <= |ts|
    decreases |ts|, 3
  {
    ParseAndTail(ts, n, [])
  }

  function ParseAndTail(ts: seq<Token>, n: nat, conj: seq<Expr>): (r: Parsed)
    ensures |r.rest| <= |ts|
    decreases |ts|, 2
  {
    if EndsAnd(ts) then Parsed(GroupAnd(conj), ts, n)
    else if ts[0].AndOp? then ParseAndTail(ts[1..], n, conj)
    else
      var u := ParseUnary(ts, n);
      if u.expr.Some? then ParseAndTail(u.rest, u.next, conj + [u.expr.value])
      else ParseAndTail(Drop(u.rest), u.next, conj)  // one more token is dropped
  }

  function ParseUnary(ts: seq<Token>, n: nat): (r: Parsed)
    ensures |r.rest| <= |ts| && (ts != [] ==> |r.rest| < |ts|)
    decreases |ts|, 1
  {
    if ts == [] then Parsed(None, ts, n)
    else if ts[0].Plus? then ParseAtom(ts[1..], n)
    else if ts[0].Minus? || ts[0].NotOp? then
      var a := ParseAtom(ts[1..], n);
      if a.expr.Some? then a.(expr := Some(Not(a.expr.value))) else a
    else ParseAtom(ts, n)
  }

  function ParseAtom(ts: seq<Token>, n: nat): (r: Parsed)
    ensures |r.rest| <= |ts| && (ts != [] ==> |r.rest| < |ts|)
    decreases |ts|, 0
  {
    if ts == [] then Parsed(None, ts, n)
    else
      match ts[0]
      case LParen =>
        var e := ParseOr(ts[1..], n);
        if e.rest != [] && e.rest[0].RParen? then e.(rest := e.rest[1..]) else e
      case Phrase(s) => Parsed(Some(Literal(n, s)), ts[1..], n + 1)
      case Pattern(s) => Parsed(Some(Regex(n, s)), ts[1..], n + 1)
      case Word(s) => Parsed(Some(Literal(n, s)), ts[1..], n + 1)
      case _ => Parsed(None, ts[1..], n)
  }

  /** The cursor over a token list. */
  class TokenParser {
    const tokens: seq<Token>
    var pos: nat

    ghost predicate Valid() reads this { pos <= |tokens| }

    ghost function Unread(): seq<Token>
      requires Valid()
      reads this
    {
      tokens[pos..]
    }

    constructor (tokens: seq<Token>)
      ensures Valid() && this.tokens == tokens && Unread() == tokens
    {
      this.tokens := tokens;
      pos := 0;
    }

    method Peek() returns (t: Option<Token>)
      requires Valid()
      ensures t == if Unread() == [] then None else Some(Unread()[0])
    {
      t := if pos < |tokens| then Some(tokens[pos]) else None;
    }

    method Bump() returns (t: Option<Token>)
      requires Valid()
      modifies this
      ensures Valid() && Unread() == Drop(old(Unread()))
      ensures old(Unread()) == [] ==> t == None && pos == old(pos)
      ensures old(Unread()) != [] ==> t == Some(old(Unread()[0])) && pos == old(pos) + 1
    {
      t := Peek();
      if t.Some? {
        pos := pos + 1;
      }
    }

    method RunOr(nextId: nat) returns (e: Option<Expr>, next: nat)
      requires Valid()
      modifies this
      ensures Valid() && old(pos) <= pos
      ensures Parsed(e, Unread(), next) == ParseOr(old(Unread()), nextId)
      decreases |tokens| - pos, 5
    {
      var alts: seq<Expr> := [];
      ghost var ts := Unread();
      e, next := RunAnd(nextId);
      alts := Append(alts, e);
      var t := Peek();
      while t == Some(OrOp)
        invariant Valid() && old(pos) <= pos
        invariant t == if Unread() == [] then None else Some(Unread()[0])
        invariant ParseOr(ts, nextId) == ParseOrTail(Unread(), next, alts)
        decreases |tokens| - pos
      {
        t := Bump();
        e, next := RunAnd(next);
        alts := Append(alts, e);
        t := Peek();
      }
      e := GroupOr(alts);
    }

    method RunAnd(nextId: nat) returns (e: Option<Expr>, next: nat)
      requires Valid()
      modifies this
      ensures Valid() && old(pos) <= pos
      ensures Parsed(e, Unread(), next) == ParseAnd(old(Unread()), nextId)
      decreases |tokens| - pos, 3
    {
      var conj: seq<Expr> := [];
      ghost var ts := Unread();
      next := nextId;
      while true
        invariant Valid() && old(pos) <= pos
        invariant ParseAnd(ts, nextId) == ParseAndTail(Unread(), next, conj)
        decreases |tokens| - pos
      {
        var t := Peek();
        if t.None? || t.value.RParen? || t.value.OrOp? {
          break;
        }
        if t.value.AndOp? {
          t := Bump();
          continue;
        }
        e, next := RunUnary(next);
        if e.Some? {
          conj := conj + [e.value];
        } else {
          t := Bump();
        }
      }
      e := GroupAnd(conj);
    }

    method RunUnary(nextId: nat) returns (e: Option<Expr>, next: nat)
      requires Valid()
      modifies this
      ensures Valid() && old(pos) <= pos && (old(Unread()) != [] ==> old(pos) < pos)
      ensures Parsed(e, Unread(), next) == ParseUnary(old(Unread()), nextId)
      decreases |tokens| - pos, 1
    {
      var t := Peek();
      if t.None? {
        return None, nextId;
      }
      if t.value.Plus? {
        t := Bump();
        e, next := RunAtom(nextId);
      } else if t.value.Minus? || t.value.NotOp? {
        t := Bump();
        e, next := RunAtom(nextId);
        if e.Some? {
          e := Some(Not(e.value));
        }
      } else {
        e, next := RunAtom(nextId);
      }
    }

    method RunAtom(nextId: nat) returns (e: Option<Expr>, next: nat)
      requires Valid()
      modifies this
      ensures Valid() && old(pos) <= pos && (old(Unread()) != [] ==> old(pos) < pos)
      ensures Parsed(e, Unread(), next) == ParseAtom(old(Unread()), nextId)
      decreases |tokens| - pos, 0
    {
      var t := Bump();
      if t.None? {
        return None, nextId;
      }
      match t.value {
        case LParen =>
          e, next := RunOr(nextId);
          t := Peek();
          if t == Some(RParen) {
            t := Bump();
          }
        case Phrase(s) => e, next := Some(Literal(nextId, s)), nextId + 1;
        case Pattern(s) => e, next := Some(Regex(nextId, s)), nextId + 1;
        case Word(s) => e, next := Some(Literal(nextId, s)), nextId + 1;
        case _ => e, next := None, nextId;
      }
    }
  }

  // ------------------------------------------------------- every parse result

  /** No token holds a regex that could not have come from between slashes. */
  predicate Lexed(ts: seq<Token>) {
    forall t <- ts :: t.Pattern? ==> Representable(t.text)
  }

  /** Shape and numbering of a routine's result, relative to the ids it was given. */
  ghost predicate Sound(r: Parsed, n: nat) {
    && Lexed(r.rest)
    && match r.expr
       case None => r.next == n
       case Some(e) => r.next == n + Terms(e) && Numbered(e, n) && WellFormed(e)
  }

  ghost predicate SoundList(es: seq<Expr>, n: nat, next: nat) {
    next == n + TermsAll(es) && NumberedAll(es, n) && WellFormedAll(es)
  }

  lemma Singleton(e: Expr, n: nat)
    ensures TermsAll([e]) == Terms(e)
    ensures NumberedAll([e], n) == Numbered(e, n)
    ensures WellFormedAll([e]) == WellFormed(e)
  {
    assert [e][1..] == [];
  }

  lemma SoundAppend(es: seq<Expr>, n: nat, mid: nat, r: Parsed)
    requires SoundList(es, n, mid) && Sound(r, mid)
    ensures SoundList(Append(es, r.expr), n, r.next)
  {
    if r.expr.Some? {
      AppendAll(es, r.expr.value, n);
    }
  }

  lemma SoundGroup(es: seq<Expr>, n: nat, next: nat, rest: seq<Token>)
    requires SoundList(es, n, next) && Lexed(rest)
    ensures Sound(Parsed(GroupOr(es), rest, next), n)
    ensures Sound(Parsed(GroupAnd(es), rest, next), n)
  {
    if |es| == 1 {
      assert es == [es[0]];
      Singleton(es[0], n);
    }
  }

  lemma {:induction false} ParseOrSound(ts: seq<Token>, n: nat)
    requires Lexed(ts)
    ensures Sound(ParseOr(ts, n), n)
    decreases |ts|, 5
  {
    var a := ParseAnd(ts, n);
    ParseAndTailSound(ts, n, [], n);
    SoundAppend([], n, n, a);
    ParseOrTailSound(a.rest, a.next, Append([], a.expr), n);
  }

  lemma {:induction false} ParseOrTailSound(ts: seq<Token>, mid: nat, alts: seq<Expr>, n: nat)
    requires Lexed(ts) && SoundList(alts, n, mid)
    ensures Sound(ParseOrTail(ts, mid, alts), n)
    decreases |ts|, 4
  {
    if ts != [] && ts[0].OrOp? {
      var a := ParseAnd(ts[1..], mid);
      ParseAndTailSound(ts[1..], mid, [], mid);
      SoundAppend(alts, n, mid, a);
      ParseOrTailSound(a.rest, a.next, Append(alts, a.expr), n);
    } else {
      SoundGroup(alts, n, mid, ts);
    }
  }

  lemma {:induction false} ParseAndTailSound(ts: seq<Token>, mid: nat, conj: seq<Expr>, n: nat)
    requires Lexed(ts) && SoundList(conj, n, mid)
    ensures Sound(ParseAndTail(ts, mid, conj), n)
    decreases |ts|, 2
  {
    if EndsAnd(ts) {
      SoundGroup(conj, n, mid, ts);
    } else if ts[0].AndOp? {
      ParseAndTailSound(ts[1..], mid, conj, n);
    } else {
      var u := ParseUnary(ts, mid);
      ParseUnarySound(ts, mid);
      SoundAppend(conj, n, mid, u);
      if u.expr.Some? {
        ParseAndTailSound(u.rest, u.next, conj + [u.expr.value], n);
      } else {
        ParseAndTailSound(Drop(u.rest), u.next, conj, n);
      }
    }
  }

  lemma {:induction false} ParseUnarySound(ts: seq<Token>, n: nat)
    requires Lexed(ts)
    ensures Sound(ParseUnary(ts, n), n)
    decreases |ts|, 1
  {
    if ts != [] && (ts[0].Plus? || ts[0].Minus? || ts[0].NotOp?) {
      ParseAtomSound(ts[1..], n);
    } else {
      ParseAtomSound(ts, n);
    }
  }

  lemma {:induction false} ParseAtomSound(ts: seq<Token>, n: nat)
    requires Lexed(ts)
    ensures Sound(ParseAtom(ts, n), n)
    decreases |ts|, 0
  {
    if ts != [] && ts[0].LParen? {
      ParseOrSound(ts[1..], n);
    }
  }

  /** The parser stops at the end of the input or at a closing parenthesis that
      nothing opened; what follows such a parenthesis is never read. */
  lemma StopsAtEndOrParen(ts: seq<Token>, n: nat)
    ensures var rest := ParseOr(ts, n).rest; rest == [] || rest[0].RParen?
  {
    var a := ParseAnd(ts, n);
    AndStops(ts, n, []);
    OrStops(a.rest, a.next, Append([], a.expr));
  }

  lemma {:induction false} OrStops(ts: seq<Token>, n: nat, alts: seq<Expr>)
    requires EndsAnd(ts)
    ensures var rest := ParseOrTail(ts, n, alts).rest; rest == [] || rest[0].RParen?
    decreases |ts|
  {
    if ts != [] && ts[0].OrOp? {
      var a := ParseAnd(ts[1..], n);
      AndStops(ts[1..], n, []);
      OrStops(a.rest, a.next, Append(alts, a.expr));
    }
  }

  lemma {:induction false} AndStops(ts: seq<Token>, n: nat, conj: seq<Expr>)
    ensures EndsAnd(ParseAndTail(ts, n, conj).rest)
    decreases |ts|
  {
    if EndsAnd(ts) {
    } else if ts[0].AndOp? {
      AndStops(ts[1..], n, conj);
    } else {
      var u := ParseUnary(ts, n);
      if u.expr.Some? {
        AndStops(u.rest, u.next, conj + [u.expr.value]);
      } else {
        AndStops(Drop(u.rest), u.next, conj);
      }
    }
  }
}
