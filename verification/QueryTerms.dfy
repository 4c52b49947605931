/** Which terms of a query reach its tree. */
module QueryTerms {
  import opened Prelude
  import opened QuerySyntax
  import opened Tokenizer
  import opened QueryParser
  import opened Query
  import opened QueryEval

  // ------------------------------------------------------------------- terms

  datatype Spelling = Text(text: string) | Slashed(text: string)

  predicate IsTerm(t: Token) {
    t.Phrase? || t.Word? || t.Pattern?
  }

  predicate IsSign(t: Token) {
    t.Plus? || t.Minus? || t.NotOp?
  }

  function SpellingOf(t: Token): Spelling
    requires IsTerm(t)
  {
    if t.Pattern? then Slashed(t.text) else Text(t.text)
  }

  /** The terms of a token list, in order. */
  function TokenTerms(ts: seq<Token>): seq<Spelling> {
    if ts == [] then []
    else (if IsTerm(ts[0]) then [SpellingOf(ts[0])] else []) + TokenTerms(ts[1..])
  }

  function LeafTerms(leaves: seq<Expr>): seq<Spelling>
    requires AreLeaves(leaves)
  {
    if leaves == [] then []
    else [if leaves[0].Regex? then Slashed(leaves[0].display) else Text(leaves[0].display)] + LeafTerms(leaves[1..])
  }

  /** The terms of a tree, from left to right. */
  function TreeTerms(e: Option<Expr>): seq<Spelling> {
    if e.None? then [] else LeafTerms(Leaves(e.value))
  }

  function ListTerms(es: seq<Expr>): seq<Spelling> {
    LeafTerms(LeavesAll(es))
  }

  lemma {:induction false} LeafTermsConcat(a: seq<Expr>, b: seq<Expr>)
    requires AreLeaves(a) && AreLeaves(b)
    ensures AreLeaves(a + b) && LeafTerms(a + b) == LeafTerms(a) + LeafTerms(b)
  {
    if a == [] {
      assert a + b == b;
    } else {
      assert (a + b)[1..] == a[1..] + b;
      LeafTermsConcat(a[1..], b);
    }
  }

  lemma {:induction false} LeavesAppend(es: seq<Expr>, e: Expr)
    ensures LeavesAll(es + [e]) == LeavesAll(es) + Leaves(e)
  {
    if es == [] {
      assert es + [e] == [e] && [e][1..] == [];
    } else {
      assert (es + [e])[1..] == es[1..] + [e];
      LeavesAppend(es[1..], e);
    }
  }

  lemma AppendTerms(es: seq<Expr>, e: Option<Expr>)
    ensures ListTerms(Append(es, e)) == ListTerms(es) + TreeTerms(e)
  {
    if e.Some? {
      LeavesAppend(es, e.value);
      LeafTermsConcat(LeavesAll(es), Leaves(e.value));
    }
  }

  lemma GroupTerms(es: seq<Expr>)
    ensures TreeTerms(GroupOr(es)) == ListTerms(es) == TreeTerms(GroupAnd(es))
    ensures GroupOr(es).Some? == (es != []) == GroupAnd(es).Some?
  {
    if |es| == 1 {
      assert es[1..] == [];
      assert LeavesAll(es) == Leaves(es[0]);
    }
  }

  // -------------------------------------------------------------- one reading

  /** The groups around a position, and whether each has a term already. */
  datatype Nest = Top | In(found: bool, outer: Nest)

  /** What the next token meets: an operand is awaited, a sign was read, or the parser
      gave up on an operand and drops whatever comes. */
  datatype Mode = Open | Signed | Skip

  datatype Outcome = Outcome(kept: seq<Spelling>, rest: seq<Token>)

  function Keep(terms: seq<Spelling>, o: Outcome): Outcome {
    o.(kept := terms + o.kept)
  }

  /** One pass over the tokens, without a tree: the terms kept and the tokens unread. */
  function Scan(ts: seq<Token>, found: bool, outer: Nest, mode: Mode): Outcome
    decreases |ts|
  {
    if ts == [] then Outcome([], [])
    else
      var t, more := ts[0], ts[1..];
      if mode.Skip? then Scan(more, found, outer, Open)
      else if IsTerm(t) then Keep([SpellingOf(t)], Scan(more, true, outer, Open))
      else if t.LParen? then Scan(more, false, In(found, outer), Open)
      else if mode.Signed? then Scan(more, found, outer, Skip)
      else if IsSign(t) then Scan(more, found, outer, Signed)
      else if !t.RParen? then Scan(more, found, outer, Open)
      else if outer.Top? then Outcome([], ts)
      else if found then Scan(more, true, outer.outer, Open)
      else Scan(more, outer.found, outer.outer, Skip)
  }

  /** The same pass, asking only whether a term is ever dropped or left unread: none
      follows a sign that takes no operand, none follows an empty group, and no
      parenthesis closes what was not opened. */
  predicate LosesNothing(ts: seq<Token>, found: bool, outer: Nest, mode: Mode)
    decreases |ts|
  {
    ts == [] ||
    var t, more := ts[0], ts[1..];
    if mode.Skip? then !IsTerm(t) && LosesNothing(more, found, outer, Open)
    else if IsTerm(t) then LosesNothing(more, true, outer, Open)
    else if t.LParen? then LosesNothing(more, false, In(found, outer), Open)
    else if mode.Signed? then LosesNothing(more, found, outer, Skip)
    else if IsSign(t) then LosesNothing(more, found, outer, Signed)
    else if !t.RParen? then LosesNothing(more, found, outer, Open)
    else if outer.Top? then false
    else if found then LosesNothing(more, true, outer.outer, Open)
    else LosesNothing(more, outer.found, outer.outer, Skip)
  }

  // ------------------------------------------------- the parser reads this way

  function After(e: Option<Expr>): Mode {
    if e.Some? then Open else Skip
  }

  lemma KeepKeep(a: seq<Spelling>, b: seq<Spelling>, o: Outcome)
    ensures Keep(a, Keep(b, o)) == Keep(a + b, o) && Keep([], o) == o
  {
    ConcatAssociates(a, b, o.kept);
  }

  lemma {:induction false} OrScans(ts: seq<Token>, n: nat, found: bool, outer: Nest)
    ensures
      var r := ParseOr(ts, n);
      Scan(ts, found, outer, Open) == Keep(TreeTerms(r.expr), Scan(r.rest, found || r.expr.Some?, outer, Open))
    decreases |ts|, 5
  {
    hide *;
    var a := OrStarts(ts, n);
    AndScans(ts, n, [], found, outer);
    AppendTerms([], a.expr);
    NoTerms();
    KeepKeep([], [], Scan(ts, found, outer, Open));
    OrTailScans(a.rest, a.next, Append([], a.expr), found, outer);
    AppendSome([], a.expr);
    assert [] + TreeTerms(a.expr) == TreeTerms(a.expr);
  }

  lemma OrStarts(ts: seq<Token>, n: nat) returns (a: Parsed)
    ensures a == ParseAndTail(ts, n, []) && |a.rest| <= |ts|
    ensures ParseOr(ts, n) == ParseOrTail(a.rest, a.next, Append([], a.expr))
  {
    a := ParseAnd(ts, n);
    hide ParseOrTail, ParseAndTail;
  }

  lemma NoTerms()
    ensures ListTerms([]) == []
  {
  }

  lemma AppendSome(es: seq<Expr>, e: Option<Expr>)
    ensures Append(es, e) != [] <==> es != [] || e.Some?
  {
  }

  lemma {:induction false} OrTailScans(ts: seq<Token>, n: nat, alts: seq<Expr>, found: bool, outer: Nest)
    ensures
      var r := ParseOrTail(ts, n, alts);
      Keep(ListTerms(alts), Scan(ts, found || alts != [], outer, Open)) ==
      Keep(TreeTerms(r.expr), Scan(r.rest, found || r.expr.Some?, outer, Open))
    decreases |ts|, 4
  {
    GroupTerms(alts);
    if ts != [] && ts[0].OrOp? {
      var a := ParseAnd(ts[1..], n);
      assert Scan(ts, found || alts != [], outer, Open) == Scan(ts[1..], found || alts != [], outer, Open);
      assert a == ParseAndTail(ts[1..], n, []);
      assert ParseOrTail(ts, n, alts) == ParseOrTail(a.rest, a.next, Append(alts, a.expr));
      hide *;
      AndScans(ts[1..], n, [], found || alts != [], outer);
      NoTerms();
      KeepKeep([], [], Scan(ts[1..], found || alts != [], outer, Open));
      AppendTerms(alts, a.expr);
      AppendSome(alts, a.expr);
      KeepKeep(ListTerms(alts), TreeTerms(a.expr), Scan(a.rest, found || alts != [] || a.expr.Some?, outer, Open));
      OrTailScans(a.rest, a.next, Append(alts, a.expr), found, outer);
    }
  }

  lemma {:induction false} AndScans(ts: seq<Token>, n: nat, conj: seq<Expr>, found: bool, outer: Nest)
    ensures
      var r := ParseAndTail(ts, n, conj);
      Keep(ListTerms(conj), Scan(ts, found || conj != [], outer, Open)) ==
      Keep(TreeTerms(r.expr), Scan(r.rest, found || r.expr.Some?, outer, Open))
    decreases |ts|, 2
  {
    GroupTerms(conj);
    if EndsAnd(ts) {
    } else if ts[0].AndOp? {
      assert Scan(ts, found || conj != [], outer, Open) == Scan(ts[1..], found || conj != [], outer, Open);
      AndScans(ts[1..], n, conj, found, outer);
    } else {
      var u := ParseUnary(ts, n);
      var next := Append(conj, u.expr);
      var rest := if u.expr.Some? then u.rest else Drop(u.rest);
      assert ParseAndTail(ts, n, conj) == ParseAndTail(rest, u.next, next);
      SkipDrops(u.rest, found || conj != [], outer);
      hide *;
      UnaryScans(ts, n, found || conj != [], outer);
      AppendTerms(conj, u.expr);
      AppendSome(conj, u.expr);
      AfterIs(u.expr);
      KeepKeep(ListTerms(conj), TreeTerms(u.expr), Scan(rest, found || conj != [] || u.expr.Some?, outer, Open));
      AndScans(rest, u.next, next, found, outer);
    }
  }

  lemma SkipDrops(ts: seq<Token>, found: bool, outer: Nest)
    ensures Scan(ts, found, outer, Skip) == Scan(Drop(ts), found, outer, Open) && |Drop(ts)| <= |ts|
  {
  }

  lemma AfterIs(e: Option<Expr>)
    ensures After(e) == if e.Some? then Open else Skip
  {
  }

  lemma {:induction false} UnaryScans(ts: seq<Token>, n: nat, found: bool, outer: Nest)
    requires !EndsAnd(ts) && !ts[0].AndOp?
    ensures
      var r := ParseUnary(ts, n);
      && |r.rest| < |ts|
      && Scan(ts, found, outer, Open) ==
         Keep(TreeTerms(r.expr), Scan(r.rest, found || r.expr.Some?, outer, After(r.expr)))
    decreases |ts|, 1
  {
    if IsSign(ts[0]) {
      AtomScans(ts[1..], n, found, outer);
    } else {
      AtomScans(ts, n, found, outer);
      assert Scan(ts, found, outer, Open) == Scan(ts, found, outer, Signed);
    }
  }

  lemma {:induction false} AtomScans(ts: seq<Token>, n: nat, found: bool, outer: Nest)
    ensures
      var r := ParseAtom(ts, n);
      Scan(ts, found, outer, Signed) ==
      Keep(TreeTerms(r.expr), Scan(r.rest, found || r.expr.Some?, outer, After(r.expr)))
    decreases |ts|, 0
  {
    if ts == [] {
    } else if ts[0].LParen? {
      var e := ParseOr(ts[1..], n);
      OrScans(ts[1..], n, false, In(found, outer));
      StopsAtEndOrParen(ts[1..], n);
      assert Scan(ts, found, outer, Signed) == Scan(ts[1..], false, In(found, outer), Open);
      GroupCloses(e.rest, e.expr.Some?, found, outer);
      assert ParseAtom(ts, n) == if e.rest != [] then e.(rest := e.rest[1..]) else e;
    } else if IsTerm(ts[0]) {
      LeafKept(ts, n);
    }
  }

  /** The end of a group, or of the input. */
  lemma GroupCloses(rest: seq<Token>, inner: bool, found: bool, outer: Nest)
    requires rest == [] || rest[0].RParen?
    ensures Scan(rest, inner, In(found, outer), Open) ==
            if rest == [] then Outcome([], [])
            else Scan(rest[1..], found || inner, outer, if inner then Open else Skip)
  {
  }

  lemma LeafKept(ts: seq<Token>, n: nat)
    requires ts != [] && IsTerm(ts[0])
    ensures ParseAtom(ts, n).expr.Some? && ParseAtom(ts, n).rest == ts[1..]
    ensures TreeTerms(ParseAtom(ts, n).expr) == [SpellingOf(ts[0])]
  {
    var leaf := ParseAtom(ts, n).expr.value;
    assert Leaves(leaf) == [leaf];
    assert [leaf][1..] == [] && LeafTerms([]) == [];
    assert LeafTerms([leaf]) == [if leaf.Regex? then Slashed(leaf.display) else Text(leaf.display)];
  }

  // ---------------------------------------------------------------- the result

  /** A scan keeps every term and reads every token exactly when it loses nothing. */
  lemma {:induction false} ScanExact(ts: seq<Token>, found: bool, outer: Nest, mode: Mode)
    ensures |Scan(ts, found, outer, mode).kept| <= |TokenTerms(ts)|
    ensures LosesNothing(ts, found, outer, mode) <==> Scan(ts, found, outer, mode) == Outcome(TokenTerms(ts), [])
    decreases |ts|
  {
    if ts != [] {
      var t, more := ts[0], ts[1..];
      if mode.Skip? {
        ScanExact(more, found, outer, Open);
      } else if IsTerm(t) {
        ScanExact(more, true, outer, Open);
        Halves([SpellingOf(t)], Scan(more, true, outer, Open).kept);
        Halves([SpellingOf(t)], TokenTerms(more));
      } else if t.LParen? {
        ScanExact(more, false, In(found, outer), Open);
      } else if mode.Signed? {
        ScanExact(more, found, outer, Skip);
      } else if IsSign(t) {
        ScanExact(more, found, outer, Signed);
      } else if !t.RParen? {
        ScanExact(more, found, outer, Open);
      } else if outer.Top? {
      } else if found {
        ScanExact(more, true, outer.outer, Open);
      } else {
        ScanExact(more, outer.found, outer.outer, Skip);
      }
    }
  }

  /** Every term of a query reaches its tree, in order, and every token is read, exactly
      when one pass over the tokens loses nothing. */
  lemma TermsReachTree(ts: seq<Token>, n: nat)
    ensures
      var r := ParseOr(ts, n);
      TreeTerms(r.expr) == TokenTerms(ts) && r.rest == [] <==> LosesNothing(ts, false, Top, Open)
  {
    var r := ParseOr(ts, n);
    OrScans(ts, n, false, Top);
    StopsAtEndOrParen(ts, n);
    assert Scan(r.rest, r.expr.Some?, Top, Open) == Outcome([], r.rest);
    ScanExact(ts, false, Top, Open);
    hide *;
    KeptAlone(TreeTerms(r.expr), r.rest);
  }

  lemma KeptAlone(terms: seq<Spelling>, rest: seq<Token>)
    ensures Keep(terms, Outcome([], rest)) == Outcome(terms, rest)
  {
  }

  // ------------------------------------------------------------- tidy queries

  predicate StartsOperand(t: Token) {
    IsTerm(t) || t.LParen?
  }

  /** Every sign stands before a term or a group, every group starts with an operand. */
  ghost predicate Tidy(ts: seq<Token>) {
    && (forall i :: 0 <= i < |ts| && IsSign(ts[i]) ==> i + 1 < |ts| && StartsOperand(ts[i + 1]))
    && forall i :: 0 <= i < |ts| - 1 && ts[i].LParen? ==> StartsOperand(ts[i + 1]) || IsSign(ts[i + 1])
  }

  /** No parenthesis closes what was not opened, `depth` being open already. */
  predicate NothingStray(ts: seq<Token>, depth: nat) {
    ts == []
    || (if ts[0].LParen? then NothingStray(ts[1..], depth + 1)
        else if ts[0].RParen? then depth > 0 && NothingStray(ts[1..], depth - 1)
        else NothingStray(ts[1..], depth))
  }

  function Depth(outer: Nest): nat {
    if outer.Top? then 0 else 1 + Depth(outer.outer)
  }

  /** What is left of a tidy query is tidy. */
  lemma TidyRest(ts: seq<Token>)
    requires Tidy(ts) && ts != []
    ensures Tidy(ts[1..])
    ensures IsSign(ts[0]) ==> |ts| > 1 && StartsOperand(ts[1])
    ensures ts[0].LParen? && |ts| > 1 ==> StartsOperand(ts[1]) || IsSign(ts[1])
  {
    var more := ts[1..];
    assert forall i :: 0 <= i < |more| ==> more[i] == ts[i + 1];
  }

  /** An operand comes next wherever one must. */
  predicate OperandNext(ts: seq<Token>, found: bool, outer: Nest, mode: Mode) {
    match mode
    case Open => !found && outer.In? && ts != [] ==> StartsOperand(ts[0]) || IsSign(ts[0])
    case Signed => ts != [] && StartsOperand(ts[0])
    case Skip => false
  }

  lemma {:induction false} TidyScans(ts: seq<Token>, found: bool, outer: Nest, mode: Mode)
    requires Tidy(ts) && NothingStray(ts, Depth(outer)) && OperandNext(ts, found, outer, mode)
    ensures LosesNothing(ts, found, outer, mode)
    decreases |ts|
  {
    if ts != [] {
      TidyRest(ts);
      var t, more := ts[0], ts[1..];
      if IsTerm(t) {
        TidyScans(more, true, outer, Open);
      } else if t.LParen? {
        TidyScans(more, false, In(found, outer), Open);
      } else if IsSign(t) {
        TidyScans(more, found, outer, Signed);
      } else if !t.RParen? {
        TidyScans(more, found, outer, Open);
      } else {
        TidyScans(more, true, outer.outer, Open);
      }
    }
  }

  /** In particular nothing is lost when signs stand before terms or groups, groups start
      with an operand, and parentheses close only what was opened. */
  lemma TidyQueryKeepsTerms(ts: seq<Token>, n: nat)
    requires Tidy(ts) && NothingStray(ts, 0)
    ensures TreeTerms(ParseOr(ts, n).expr) == TokenTerms(ts) && ParseOr(ts, n).rest == []
  {
    TidyScans(ts, false, Top, Open);
    TermsReachTree(ts, n);
  }

  /** The failing families: a sign before another sign or an operator, and an empty
      group, each take the next term along; so does a stray parenthesis, with all that
      follows. */
  lemma LosingFamilies(sign: Token, other: Token, t: Token, rest: seq<Token>, found: bool)
    requires IsSign(sign) && IsTerm(t) && !StartsOperand(other)
    ensures !LosesNothing([sign, other, t] + rest, found, Top, Open)
    ensures !LosesNothing([LParen, RParen, t] + rest, found, Top, Open)
    ensures !LosesNothing([RParen] + rest, found, Top, Open)
  {
    var a := [sign, other, t] + rest;
    assert a[1..] == [other, t] + rest && a[1..][1..] == [t] + rest;
    assert !LosesNothing([t] + rest, found, Top, Skip);
    assert !LosesNothing([other, t] + rest, found, Top, Signed);
    var b := [LParen, RParen, t] + rest;
    assert b[1..] == [RParen, t] + rest && b[1..][1..] == [t] + rest;
  }
}
