/** Lines of a document, the lines a query selects, and the relaxation of bare words. */
module LineSearch {
  import opened Prelude
  import opened QuerySyntax
  import opened QueryParser
  import opened Query
  import opened QueryEval

  // ------------------------------------------------------------------- lines

  /** A half-open range of positions. */
  datatype Span = Span(start: nat, end: nat)

  predicate SpanOf(content: string, span: Span) {
    span.start <= span.end <= |content| && '\n' !in content[span.start..span.end]
  }

  /** The spans cut `content` at its newlines: they start at `start`, end at the end,
      each holds no newline and exactly one newline separates neighbours. */
  predicate CutsFrom(content: string, start: nat, spans: seq<Span>) {
    && spans != []
    && spans[0].start == start && spans[|spans| - 1].end == |content|
    && (forall k :: 0 <= k < |spans| ==> SpanOf(content, spans[k]))
    && (forall k :: 0 <= k < |spans| - 1 ==>
          spans[k].end < |content| && content[spans[k].end] == '\n' && spans[k + 1].start == spans[k].end + 1)
  }

  method ComputeLineSpans(content: string) returns (spans: seq<Span>)
    ensures CutsFrom(content, 0, spans)
    ensures spans == LineSpans(content)
  {
    hide CutsFrom, SpanOf;
    spans := [];
    var start := 0;
    for i := 0 to |content|
      invariant start <= i
      invariant '\n' !in content[start..i]
      invariant LineSpans(content) == spans + SpansFrom(content, start, i)
    {
      if content[i] == '\n' {
        ConcatAssociates(spans, [Span(start, i)], SpansFrom(content, i + 1, i + 1));
        spans := spans + [Span(start, i)];
        start := i + 1;
      }
    }
    spans := spans + [Span(start, |content|)];
  }

  function LineSpans(content: string): (spans: seq<Span>)
    ensures CutsFrom(content, 0, spans)
  {
    SpansFrom(content, 0, 0)
  }

  function SpansFrom(content: string, start: nat, i: nat): (spans: seq<Span>)
    requires start <= i <= |content| && '\n' !in content[start..i]
    ensures CutsFrom(content, start, spans)
    decreases |content| - i
  {
    if i == |content| then [Span(start, i)]
    else if content[i] == '\n' then [Span(start, i)] + SpansFrom(content, i + 1, i + 1)
    else SpansFrom(content, start, i + 1)
  }

  lemma FirstCut(content: string, start: nat, a: seq<Span>, b: seq<Span>)
    requires CutsFrom(content, start, a) && CutsFrom(content, start, b)
    ensures a[0].end <= b[0].end
  {
    if b[0].end < a[0].end {
      NewlineInside(content, a[0], b[0].end);
    }
  }

  lemma NewlineInside(content: string, span: Span, x: nat)
    requires SpanOf(content, span) && span.start <= x < span.end
    ensures content[x] != '\n'
  {
    assert content[span.start..span.end][x - span.start] == content[x];
  }

  /** A text is cut into lines in one way only. */
  lemma {:induction false} CutIsUnique(content: string, start: nat, a: seq<Span>, b: seq<Span>)
    requires CutsFrom(content, start, a) && CutsFrom(content, start, b)
    ensures a == b
    decreases |a|
  {
    FirstCut(content, start, a, b);
    FirstCut(content, start, b, a);
    if |a| > 1 && |b| > 1 {
      CutIsUnique(content, a[1].start, a[1..], b[1..]);
    } else {
      LastCut(content, start, a);
      LastCut(content, start, b);
    }
  }

  /** Only the last line ends at the end of the text. */
  lemma LastCut(content: string, start: nat, a: seq<Span>)
    requires CutsFrom(content, start, a)
    ensures |a| == 1 <==> a[0].end == |content|
  {
  }

  function LinesAt(content: string, spans: seq<Span>): (lines: seq<string>)
    requires forall k :: 0 <= k < |spans| ==> spans[k].start <= spans[k].end <= |content|
    ensures |lines| == |spans|
    ensures forall k :: 0 <= k < |lines| ==> lines[k] == content[spans[k].start..spans[k].end]
  {
    seq(|spans|, k requires 0 <= k < |spans| => content[spans[k].start..spans[k].end])
  }

  function Lines(content: string): seq<string> {
    LinesAt(content, LineSpans(content))
  }

  // --------------------------------------------------------------- selection

  predicate Ascending(xs: seq<nat>) {
    forall i, j :: 0 <= i < j < |xs| ==> xs[i] < xs[j]
  }

  /** The indices below `n` that satisfy `p`, in order. */
  function Select(n: nat, p: nat -> bool): (r: seq<nat>)
    ensures Ascending(r)
    ensures forall i: nat :: i in r <==> i < n && p(i)
  {
    if n == 0 then []
    else
      var front := Select(n - 1, p);
      assert forall i :: 0 <= i < |front| ==> front[i] in front;
      front + (if p(n - 1) then [n - 1] else [])
  }

  lemma {:induction false} SelectSame(n: nat, p: nat -> bool, q: nat -> bool)
    requires forall i: nat :: i < n ==> p(i) == q(i)
    ensures Select(n, p) == Select(n, q)
  {
    if n > 0 {
      SelectSame(n - 1, p, q);
    }
  }

  /** How many of the terms 0 .. n - 1 match a line. */
  function CountHits(c: Compiled, engine: RegexEngine, n: nat, line: string): nat {
    if n == 0 then 0
    else CountHits(c, engine, n - 1, line) + (if TermMatches(c, engine, n - 1, line, Lower(line)) then 1 else 0)
  }

  function Collect(c: Compiled, engine: RegexEngine, n: nat, lines: seq<string>, threshold: nat): seq<nat> {
    Select(|lines|, (i: nat) => i < |lines| && CountHits(c, engine, n, lines[i]) >= threshold)
  }

  /** The lines selected for bare words, with the tag of the tier that was used. */
  function SelectWithFallback(keywords: seq<string>, c: Compiled, engine: RegexEngine, lines: seq<string>)
    : (seq<nat>, Option<string>)
  {
    var n := |keywords|;
    if n == 0 then ([], None)
    else
      var half := (n + 1) / 2;
      var all := Collect(c, engine, n, lines, n);
      if all != [] then (all, if n > 1 then Some("all") else None)
      else if half < n && Collect(c, engine, n, lines, half) != [] then
        (Collect(c, engine, n, lines, half), Some("half"))
      else
        var any := Collect(c, engine, n, lines, 1);
        if any == [] then ([], None) else (any, Some("any"))
  }

  /** The lines a query selects: all accepted lines, or a relaxed tier for bare words. */
  function Matched(q: ParsedQuery, e: Expr, c: Compiled, engine: RegexEngine, lines: seq<string>)
    : (seq<nat>, Option<string>)
  {
    if q.bareKeywords.Some? then SelectWithFallback(q.bareKeywords.value, c, engine, lines)
    else
      (Select(|lines|, (i: nat) => i < |lines| && EvalExpr(e, c, engine, lines[i], Lower(lines[i]))), None)
  }

  // -------------------------------------------------------------- relaxation

  predicate HasKeyword(w: string, line: string) {
    Find(Lower(line), Lower(w)).Some?
  }

  /** How many positions of the keyword list name a keyword that the line contains. */
  function KeywordHits(ws: seq<string>, line: string): (r: nat)
    ensures r <= |ws|
  {
    if ws == [] then 0
    else KeywordHits(ws[..|ws| - 1], line) + (if HasKeyword(ws[|ws| - 1], line) then 1 else 0)
  }

  /** The lines that contain at least `threshold` of the keywords. */
  function Tier(ws: seq<string>, lines: seq<string>, threshold: nat): seq<nat> {
    Select(|lines|, (i: nat) => i < |lines| && KeywordHits(ws, lines[i]) >= threshold)
  }

  lemma {:induction false} AllHits(ws: seq<string>, line: string)
    ensures KeywordHits(ws, line) == |ws| <==> forall w <- ws :: HasKeyword(w, line)
    ensures KeywordHits(ws, line) == 0 <==> forall w <- ws :: !HasKeyword(w, line)
  {
    if ws != [] {
      var front := ws[..|ws| - 1];
      AllHits(front, line);
      assert ws == front + [ws[|ws| - 1]];
    }
  }

  /** The compiled terms of a bare query count its keywords. */
  lemma {:induction false} CountIsKeywordHits(ws: seq<string>, c: Compiled, engine: RegexEngine, n: nat, line: string)
    requires n <= |ws|
    requires forall w <- ws :: w != ""
    requires forall k :: 0 <= k < |ws| ==>
               Slot(c.lits, k) == Some(Lower(ws[k])) && Slot(c.regexes, k) == None
    ensures CountHits(c, engine, n, line) == KeywordHits(ws[..n], line)
  {
    if n > 0 {
      CountIsKeywordHits(ws, c, engine, n - 1, line);
      assert ws[..n][..n - 1] == ws[..n - 1];
      assert ws[n - 1] in ws;
      assert Lower(ws[n - 1]) != "";
    }
  }

  lemma {:induction false} WordLiteralLeaves(ws: seq<string>, n: nat)
    ensures LeavesAll(WordLiterals(ws, n)) == WordLiterals(ws, n)
    ensures NumberedAll(WordLiterals(ws, n), n)
  {
    var lits := WordLiterals(ws, n);
    if ws != [] {
      WordLiteralLeaves(ws[1..], n + 1);
      assert lits[1..] == WordLiterals(ws[1..], n + 1);
      assert lits == [lits[0]] + lits[1..];
    }
  }

  /** `e` accepts exactly the lines that contain every keyword. */
  ghost predicate NeedsEvery(e: Expr, ws: seq<string>, engine: RegexEngine) {
    forall line :: Accepts(e, engine, line) <==> KeywordHits(ws, line) == |ws|
  }

  /** The parsed form of a bare query: keyword i is term i, its slot holds the
      lowercased keyword, and the parsed tree accepts a line with every keyword. */
  lemma BareQuery(s: string, engine: RegexEngine)
    requires IsBare(s)
    ensures ParseTrimmed(s).Some?
    ensures
      var e := ParseTrimmed(s).value;
      Numbered(e, 0) && Leaves(e) == WordLiterals(Words(s), 0) && NeedsEvery(e, Words(s), engine)
  {
    var ws := Words(s);
    var lits := WordLiterals(ws, 0);
    BareParse(s);
    WordLiteralLeaves(ws, 0);
    var e := ParseTrimmed(s).value;
    if |ws| == 1 {
      Singleton(lits[0], 0);
    }
    forall line
      ensures Accepts(e, engine, line) <==> KeywordHits(ws, line) == |ws|
    {
      BareAccepts(ws, e, engine, line);
      AllHits(ws, line);
    }
  }

  lemma BareAccepts(ws: seq<string>, e: Expr, engine: RegexEngine, line: string)
    requires ws != [] && GroupAnd(WordLiterals(ws, 0)) == Some(e)
    requires forall w <- ws :: w != ""
    ensures Accepts(e, engine, line) <==> forall w <- ws :: HasKeyword(w, line)
  {
    var lits := WordLiterals(ws, 0);
    assert forall k :: 0 <= k < |ws| ==> ws[k] in ws && lits[k] in lits;
    forall k | 0 <= k < |ws|
      ensures Accepts(lits[k], engine, line) <==> HasKeyword(ws[k], line)
    {
      var found := Find(Lower(line), Lower(ws[k]));
      if found.Some? {
        assert OccursAt(Lower(line), Lower(ws[k]), found.value);
      }
    }
    if |ws| > 1 {
      assert e == And(lits);
      assert !lits[0].Not?;
    }
  }

  /** Fewer required keywords select no fewer lines. */
  lemma TiersNested(ws: seq<string>, lines: seq<string>, strict: nat, loose: nat)
    requires loose <= strict
    ensures forall i <- Tier(ws, lines, strict) :: i in Tier(ws, lines, loose)
    ensures Tier(ws, lines, strict) != [] ==> Tier(ws, lines, loose) != []
  {
    var t := Tier(ws, lines, strict);
    if t != [] {
      assert t[0] in t;
    }
  }

  /** The choice between three tiers. */
  function Strictest(n: nat, all: seq<nat>, half: seq<nat>, any: seq<nat>): (seq<nat>, Option<string>) {
    if all != [] then (all, if n > 1 then Some("all") else None)
    else if half != [] then (half, Some("half"))
    else if any != [] then (any, Some("any"))
    else ([], None)
  }

  lemma FallbackPicks(keywords: seq<string>, c: Compiled, engine: RegexEngine, lines: seq<string>,
                      all: seq<nat>, half: seq<nat>, any: seq<nat>)
    requires keywords != []
    requires all == Collect(c, engine, |keywords|, lines, |keywords|)
    requires half == Collect(c, engine, |keywords|, lines, (|keywords| + 1) / 2)
    requires any == Collect(c, engine, |keywords|, lines, 1)
    requires half != [] ==> any != []
    ensures SelectWithFallback(keywords, c, engine, lines) == Strictest(|keywords|, all, half, any)
  {
  }

  /** For plain words the lines returned are exactly the strictest non-empty tier. */
  lemma RelaxationExact(s: string, engine: RegexEngine, lines: seq<string>)
    requires IsBare(s)
    ensures ParseTrimmed(s).Some?
    ensures
      var ws := Words(s);
      var n := |ws|;
      var c := CompiledOf(ParseTrimmed(s).value, engine);
      SelectWithFallback(LowerAll(ws), c, engine, lines) ==
      Strictest(n, Tier(ws, lines, n), Tier(ws, lines, (n + 1) / 2), Tier(ws, lines, 1))
  {
    var ws := Words(s);
    var n := |ws|;
    assert ws != [];
    hide *;
    BareQuery(s, engine);
    var e := ParseTrimmed(s).value;
    CollectIsTier(ws, e, engine, lines, n);
    CollectIsTier(ws, e, engine, lines, (n + 1) / 2);
    CollectIsTier(ws, e, engine, lines, 1);
    TiersNested(ws, lines, (n + 1) / 2, 1);
    FallbackPicks(LowerAll(ws), CompiledOf(e, engine), engine, lines,
                  Tier(ws, lines, n), Tier(ws, lines, (n + 1) / 2), Tier(ws, lines, 1));
  }

  /** The strictest tier is what the parsed conjunction accepts, the tiers are nested,
      and nothing is returned only when no keyword occurs anywhere. */
  lemma TiersExact(s: string, engine: RegexEngine, lines: seq<string>)
    requires IsBare(s)
    ensures ParseTrimmed(s).Some?
    ensures
      var ws := Words(s);
      var n := |ws|;
      var e := ParseTrimmed(s).value;
      var all, half, any := Tier(ws, lines, n), Tier(ws, lines, (n + 1) / 2), Tier(ws, lines, 1);
      && (forall i: nat :: i in all <==> i < |lines| && Accepts(e, engine, lines[i]))
      && (forall i <- all :: i in half) && (forall i <- half :: i in any)
      && (Strictest(n, all, half, any).0 == [] <==> forall line <- lines, w <- ws :: !HasKeyword(w, line))
  {
    var ws := Words(s);
    var n := |ws|;
    assert ws != [];
    hide Words, ParseTrimmed, Accepts, HasKeyword, IsBare, KeywordHits;
    BareQuery(s, engine);
    TiersNested(ws, lines, n, (n + 1) / 2);
    TiersNested(ws, lines, (n + 1) / 2, 1);
    EmptyAny(ws, lines);
  }

  lemma CollectIsTier(ws: seq<string>, e: Expr, engine: RegexEngine, lines: seq<string>, t: nat)
    requires Leaves(e) == WordLiterals(ws, 0)
    requires forall w <- ws :: w != ""
    ensures Collect(CompiledOf(e, engine), engine, |ws|, lines, t) == Tier(ws, lines, t)
  {
    var c := CompiledOf(e, engine);
    forall i: nat | i < |lines|
      ensures CountHits(c, engine, |ws|, lines[i]) == KeywordHits(ws, lines[i])
    {
      CountIsKeywordHits(ws, c, engine, |ws|, lines[i]);
      assert ws[..|ws|] == ws;
    }
    SelectSame(|lines|, (i: nat) => i < |lines| && CountHits(c, engine, |ws|, lines[i]) >= t,
               (i: nat) => i < |lines| && KeywordHits(ws, lines[i]) >= t);
  }

  lemma EmptyAny(ws: seq<string>, lines: seq<string>)
    ensures Tier(ws, lines, 1) == [] <==> forall line <- lines, w <- ws :: !HasKeyword(w, line)
  {
    var any := Tier(ws, lines, 1);
    if any == [] {
      forall line, w | line in lines && w in ws
        ensures !HasKeyword(w, line)
      {
        var i: nat :| i < |lines| && lines[i] == line;
        assert i !in any;
        AllHits(ws, line);
      }
    } else {
      assert any[0] in any;
      AllHits(ws, lines[any[0]]);
    }
  }
}
