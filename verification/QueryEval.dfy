/** Compiling a query into term slots and evaluating it on a line. */
module QueryEval {
  import opened Prelude
  import opened QuerySyntax
  import opened Query

  /** The regular-expression library, case-insensitive: which texts compile, and the
      first match of a text on a line as a half-open column range. */
  datatype RegexEngine = RegexEngine(compiles: string -> bool, find: (string, string) -> Option<(nat, nat)>)
  {
    ghost predicate Valid() {
      forall p, line :: find(p, line).Some? ==> find(p, line).value.0 <= find(p, line).value.1 <= |line|
    }
  }

  /** `needle` stands in `hay` at position `i`. */
  predicate OccursAt(hay: string, needle: string, i: nat) {
    i + |needle| <= |hay| && hay[i..i + |needle|] == needle
  }

  /** Leftmost position of `needle` in `hay`. */
  function Find(hay: string, needle: string): (r: Option<nat>)
    ensures r.Some? ==> OccursAt(hay, needle, r.value) && forall i: nat :: i < r.value ==> !OccursAt(hay, needle, i)
    ensures r.None? ==> forall i: nat :: !OccursAt(hay, needle, i)
  {
    FindFrom(hay, needle, 0)
  }

  function FindFrom(hay: string, needle: string, from: nat): (r: Option<nat>)
    ensures r.Some? ==> from <= r.value && OccursAt(hay, needle, r.value)
    ensures r.Some? ==> forall i: nat :: from <= i < r.value ==> !OccursAt(hay, needle, i)
    ensures r.None? ==> forall i: nat :: from <= i ==> !OccursAt(hay, needle, i)
    decreases |hay| - from
  {
    if from + |needle| > |hay| then None
    else if OccursAt(hay, needle, from) then Some(from)
    else FindFrom(hay, needle, from + 1)
  }

  // --------------------------------------------------------------- terms

  /** The terms of `e`, left to right. */
  function Leaves(e: Expr): (r: seq<Expr>)
    ensures |r| == Terms(e)
    ensures forall x <- r :: x.Literal? || x.Regex?
    decreases e, 1
  {
    match e
    case And(cs) => LeavesAll(cs)
    case Or(cs) => LeavesAll(cs)
    case Not(x) => Leaves(x)
    case _ => [e]
  }

  function LeavesAll(cs: seq<Expr>): (r: seq<Expr>)
    ensures |r| == TermsAll(cs)
    ensures forall x <- r :: x.Literal? || x.Regex?
    decreases cs, 0
  {
    if cs == [] then [] else Leaves(cs[0]) + LeavesAll(cs[1..])
  }

  predicate AreLeaves(ls: seq<Expr>) {
    forall x <- ls :: x.Literal? || x.Regex?
  }

  /** The k-th of these terms has id n + k. */
  predicate IdsFrom(ls: seq<Expr>, n: nat)
    requires AreLeaves(ls)
  {
    forall k :: 0 <= k < |ls| ==> ls[k].id == n + k
  }

  lemma IdsFromAppend(a: seq<Expr>, b: seq<Expr>, n: nat)
    requires AreLeaves(a) && AreLeaves(b)
    ensures AreLeaves(a + b)
    ensures IdsFrom(a + b, n) <==> IdsFrom(a, n) && IdsFrom(b, n + |a|)
  {
    if IdsFrom(a + b, n) {
      assert forall k :: 0 <= k < |a| ==> (a + b)[k] == a[k];
      assert forall k :: 0 <= k < |b| ==> (a + b)[|a| + k] == b[k];
    }
  }

  /** The numbering that parsing establishes: the k-th term from the left has id n + k. */
  lemma {:induction false} LeafIds(e: Expr, n: nat)
    ensures Numbered(e, n) <==> IdsFrom(Leaves(e), n)
    decreases e, 1
  {
    match e
    case And(cs) => LeafIdsAll(cs, n);
    case Or(cs) => LeafIdsAll(cs, n);
    case Not(x) => LeafIds(x, n);
    case _ => assert Leaves(e)[0] == e;
  }

  lemma {:induction false} LeafIdsAll(cs: seq<Expr>, n: nat)
    ensures NumberedAll(cs, n) <==> IdsFrom(LeavesAll(cs), n)
    decreases cs, 0
  {
    if cs != [] {
      LeafIds(cs[0], n);
      LeafIdsAll(cs[1..], n + Terms(cs[0]));
      IdsFromAppend(Leaves(cs[0]), LeavesAll(cs[1..]), n);
    }
  }

  // ------------------------------------------------------------- compilation

  /** One slot per term id: a lowercased literal, or a regex that compiled. */
  datatype Compiled = Compiled(lits: seq<Option<string>>, regexes: seq<Option<string>>)

  function LitSlot(leaf: Expr): Option<string> {
    if leaf.Literal? then Some(Lower(leaf.display)) else None
  }

  function RegexSlot(leaf: Expr, engine: RegexEngine): Option<string> {
    if leaf.Regex? && engine.compiles(leaf.display) then Some(leaf.display) else None
  }

  function LitSlots(leaves: seq<Expr>): (r: seq<Option<string>>)
    ensures |r| == |leaves| && forall k :: 0 <= k < |r| ==> r[k] == LitSlot(leaves[k])
  {
    seq(|leaves|, k requires 0 <= k < |leaves| => LitSlot(leaves[k]))
  }

  function RegexSlots(leaves: seq<Expr>, engine: RegexEngine): (r: seq<Option<string>>)
    ensures |r| == |leaves| && forall k :: 0 <= k < |r| ==> r[k] == RegexSlot(leaves[k], engine)
  {
    seq(|leaves|, k requires 0 <= k < |leaves| => RegexSlot(leaves[k], engine))
  }

  /** The slots of a whole query. */
  function CompiledOf(e: Expr, engine: RegexEngine): Compiled {
    Compiled(LitSlots(Leaves(e)), RegexSlots(Leaves(e), engine))
  }

  lemma SlotsAppend(a: seq<Expr>, b: seq<Expr>, engine: RegexEngine)
    ensures LitSlots(a + b) == LitSlots(a) + LitSlots(b)
    ensures RegexSlots(a + b, engine) == RegexSlots(a, engine) + RegexSlots(b, engine)
  {
  }

  class Compiler {
    var lits: seq<Option<string>>
    var regexes: seq<Option<string>>

    ghost predicate Valid() reads this { |lits| == |regexes| }

    constructor ()
      ensures Valid() && lits == [] && regexes == []
    {
      lits, regexes := [], [];
    }

    /** Grows both pools until `id` has a slot. */
    method Ensure(id: nat)
      requires Valid()
      modifies this
      ensures Valid() && |lits| == (if old(|lits|) <= id then id + 1 else old(|lits|))
      ensures old(lits) <= lits && old(regexes) <= regexes
      ensures forall k :: old(|lits|) <= k < |lits| ==> lits[k] == None && regexes[k] == None
    {
      while |lits| <= id
        invariant Valid() && old(|lits|) <= |lits|
        invariant |lits| <= (if old(|lits|) <= id then id + 1 else old(|lits|))
        invariant old(lits) <= lits && old(regexes) <= regexes
        invariant forall k :: old(|lits|) <= k < |lits| ==> lits[k] == None && regexes[k] == None
      {
        lits := lits + [None];
        regexes := regexes + [None];
      }
    }

    /** On a query numbered from the first free slot, compilation appends exactly one
        slot per term, in order. */
    method Compile(e: Expr, engine: RegexEngine)
      requires Valid() && Numbered(e, |lits|)
      modifies this
      ensures Valid()
      ensures lits == old(lits) + LitSlots(Leaves(e))
      ensures regexes == old(regexes) + RegexSlots(Leaves(e), engine)
      decreases e, 1
    {
      match e {
        case Literal(id, display) =>
          Ensure(id);
          lits := lits[id := Some(Lower(display))];
        case Regex(id, display) =>
          Ensure(id);
          regexes := regexes[id := if engine.compiles(display) then Some(display) else None];
        case And(cs) => CompileAll(cs, engine);
        case Or(cs) => CompileAll(cs, engine);
        case Not(inner) => Compile(inner, engine);
      }
    }

    method CompileAll(cs: seq<Expr>, engine: RegexEngine)
      requires Valid() && NumberedAll(cs, |lits|)
      modifies this
      ensures Valid()
      ensures lits == old(lits) + LitSlots(LeavesAll(cs))
      ensures regexes == old(regexes) + RegexSlots(LeavesAll(cs), engine)
      decreases cs, 0
    {
      if cs != [] {
        ghost var a, b := Leaves(cs[0]), LeavesAll(cs[1..]);
        SlotsAppend(a, b, engine);
        assert LeavesAll(cs) == a + b && NumberedAll(cs[1..], |lits| + Terms(cs[0]));
        hide *;
        Compile(cs[0], engine);
        CompileAll(cs[1..], engine);
        ConcatAssociates(old(lits), LitSlots(a), LitSlots(b));
        ConcatAssociates(old(regexes), RegexSlots(a, engine), RegexSlots(b, engine));
      }
    }
  }

  // -------------------------------------------------------------- evaluation

  function Slot(slots: seq<Option<string>>, id: nat): Option<string> {
    if id < |slots| then slots[id] else None
  }

  predicate TermMatches(c: Compiled, engine: RegexEngine, id: nat, line: string, lineLower: string) {
    var lit := Slot(c.lits, id);
    var re := Slot(c.regexes, id);
    if lit.Some? && lit.value != "" && Find(lineLower, lit.value).Some? then true
    else re.Some? && engine.find(re.value, line).Some?
  }

  predicate EvalExpr(e: Expr, c: Compiled, engine: RegexEngine, line: string, lineLower: string) {
    match e
    case Literal(id, _) => TermMatches(c, engine, id, line, lineLower)
    case Regex(id, _) => TermMatches(c, engine, id, line, lineLower)
    case And(cs) =>
      (exists x <- cs :: !x.Not?) && forall x <- cs :: EvalExpr(x, c, engine, line, lineLower)
    case Or(cs) => exists x <- cs :: EvalExpr(x, c, engine, line, lineLower)
    case Not(x) => !EvalExpr(x, c, engine, line, lineLower)
  }

  /** What a query says about a line, read off its spelling alone: no ids, no slots.
      A conjunction of nothing but negations is false. */
  ghost predicate Accepts(e: Expr, engine: RegexEngine, line: string) {
    match e
    case Literal(_, s) => s != "" && exists i: nat :: OccursAt(Lower(line), Lower(s), i)
    case Regex(_, p) => engine.compiles(p) && engine.find(p, line).Some?
    case And(cs) => (exists x <- cs :: !x.Not?) && forall x <- cs :: Accepts(x, engine, line)
    case Or(cs) => exists x <- cs :: Accepts(x, engine, line)
    case Not(x) => !Accepts(x, engine, line)
  }

  /** Slots n, n+1, ... of `c` are the slots of the terms of `e`. */
  ghost predicate SlotsHold(leaves: seq<Expr>, n: nat, c: Compiled, engine: RegexEngine) {
    forall k :: 0 <= k < |leaves| ==>
      Slot(c.lits, n + k) == LitSlot(leaves[k]) && Slot(c.regexes, n + k) == RegexSlot(leaves[k], engine)
  }

  lemma SlotsOfAppend(a: seq<Expr>, b: seq<Expr>, n: nat, c: Compiled, engine: RegexEngine)
    requires SlotsHold(a + b, n, c, engine)
    ensures SlotsHold(a, n, c, engine) && SlotsHold(b, n + |a|, c, engine)
  {
    var all := a + b;
    assert forall k :: 0 <= k < |a| ==> all[k] == a[k];
    forall k | 0 <= k < |b|
      ensures Slot(c.lits, n + |a| + k) == LitSlot(b[k])
      ensures Slot(c.regexes, n + |a| + k) == RegexSlot(b[k], engine)
    {
      assert all[|a| + k] == b[k];
      assert n + |a| + k == n + (|a| + k);
    }
  }

  lemma {:induction false} EvalIsAccepts(e: Expr, n: nat, c: Compiled, engine: RegexEngine, line: string)
    requires Numbered(e, n) && SlotsHold(Leaves(e), n, c, engine)
    ensures EvalExpr(e, c, engine, line, Lower(line)) == Accepts(e, engine, line)
    decreases e, 1
  {
    match e
    case And(cs) => EvalAllIsAccepts(cs, n, c, engine, line);
    case Or(cs) => EvalAllIsAccepts(cs, n, c, engine, line);
    case Not(x) => EvalIsAccepts(x, n, c, engine, line);
    case _ =>
      assert Leaves(e)[0] == e;
      assert Slot(c.lits, n + 0) == LitSlot(e) && Slot(c.regexes, n + 0) == RegexSlot(e, engine);
  }

  lemma {:induction false} EvalAllIsAccepts(cs: seq<Expr>, n: nat, c: Compiled, engine: RegexEngine, line: string)
    requires NumberedAll(cs, n) && SlotsHold(LeavesAll(cs), n, c, engine)
    ensures forall x <- cs :: EvalExpr(x, c, engine, line, Lower(line)) == Accepts(x, engine, line)
    decreases cs, 0
  {
    if cs != [] {
      SlotsOfAppend(Leaves(cs[0]), LeavesAll(cs[1..]), n, c, engine);
      EvalIsAccepts(cs[0], n, c, engine, line);
      EvalAllIsAccepts(cs[1..], n + Terms(cs[0]), c, engine, line);
    }
  }

  /** Evaluating through the compiled slots means what the query's spelling means. */
  lemma EvaluationFaithful(e: Expr, engine: RegexEngine, line: string)
    requires Numbered(e, 0)
    ensures EvalExpr(e, CompiledOf(e, engine), engine, line, Lower(line)) == Accepts(e, engine, line)
  {
    EvalIsAccepts(e, 0, CompiledOf(e, engine), engine, line);
  }
}
