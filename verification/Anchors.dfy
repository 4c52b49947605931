/** Where a selected line is reported: the earliest hit of a term that no negation covers. */
module Anchors {
  import opened Prelude
  import opened QuerySyntax
  import opened Query
  import opened QueryEval
  import opened LineSearch

  /** A term's hit on a line, in columns; on a document, in byte offsets. */
  datatype Anchor = Anchor(keyword: string, start: nat, end: nat)

  /** The earlier of two candidates; the first one on a tie. */
  function Best(a: Option<Anchor>, b: Option<Anchor>): Option<Anchor> {
    if a.None? then b
    else if b.None? || a.value.start <= b.value.start then a
    else b
  }

  function FirstAnchor(e: Expr, c: Compiled, engine: RegexEngine, line: string, lineLower: string): Option<Anchor>
    decreases e, 1
  {
    match e
    case Literal(id, display) =>
      var lit := Slot(c.lits, id);
      if lit.None? || lit.value == "" then None
      else
        var pos := Find(lineLower, lit.value);
        if pos.None? then None else Some(Anchor(display, pos.value, pos.value + |lit.value|))
    case Regex(id, display) =>
      var re := Slot(c.regexes, id);
      if re.None? then None
      else
        var m := engine.find(re.value, line);
        if m.None? then None else Some(Anchor(display, m.value.0, m.value.1))
    case And(cs) => BestChild(cs, c, engine, line, lineLower, None)
    case Or(cs) => BestChild(cs, c, engine, line, lineLower, None)
    case Not(_) => None
  }

  function BestChild(cs: seq<Expr>, c: Compiled, engine: RegexEngine, line: string, lineLower: string,
                     best: Option<Anchor>): Option<Anchor>
    decreases cs, 0
  {
    if cs == [] then best
    else BestChild(cs[1..], c, engine, line, lineLower, Best(best, FirstAnchor(cs[0], c, engine, line, lineLower)))
  }

  /** The anchor of a line through the query's own slots. */
  function LineAnchor(e: Expr, engine: RegexEngine, line: string): Option<Anchor> {
    FirstAnchor(e, CompiledOf(e, engine), engine, line, Lower(line))
  }

  // ------------------------------------------------- what an anchor should be

  /** The terms that no negation covers, left to right. */
  function Positive(e: Expr): (r: seq<Expr>)
    ensures forall x <- r :: x.Literal? || x.Regex?
    decreases e, 1
  {
    match e
    case And(cs) => PositiveAll(cs)
    case Or(cs) => PositiveAll(cs)
    case Not(_) => []
    case _ => [e]
  }

  function PositiveAll(cs: seq<Expr>): (r: seq<Expr>)
    ensures forall x <- r :: x.Literal? || x.Regex?
    decreases cs, 0
  {
    if cs == [] then [] else Positive(cs[0]) + PositiveAll(cs[1..])
  }

  predicate NotFree(e: Expr)
    decreases e, 1
  {
    match e
    case And(cs) => NotFreeAll(cs)
    case Or(cs) => NotFreeAll(cs)
    case Not(_) => false
    case _ => true
  }

  predicate NotFreeAll(cs: seq<Expr>)
    decreases cs, 0
  {
    cs == [] || (NotFree(cs[0]) && NotFreeAll(cs[1..]))
  }

  /** The first hit of one term on a line, from its spelling alone. */
  function Hit(leaf: Expr, engine: RegexEngine, line: string): (r: Option<Anchor>)
    requires leaf.Literal? || leaf.Regex?
    ensures r.Some? ==> r.value.keyword == leaf.display
  {
    if leaf.Literal? then
      var pos := Find(Lower(line), Lower(leaf.display));
      if leaf.display == "" || pos.None? then None
      else Some(Anchor(leaf.display, pos.value, pos.value + |leaf.display|))
    else
      var m := engine.find(leaf.display, line);
      if !engine.compiles(leaf.display) || m.None? then None
      else Some(Anchor(leaf.display, m.value.0, m.value.1))
  }

  /** `a` is the hit of term `k`: no term hits earlier, no term before k as early. */
  ghost predicate IsEarliest(leaves: seq<Expr>, k: nat, a: Anchor, engine: RegexEngine, line: string)
    requires AreLeaves(leaves)
  {
    && k < |leaves| && Hit(leaves[k], engine, line) == Some(a)
    && forall j :: 0 <= j < |leaves| && Hit(leaves[j], engine, line).Some? ==>
         var h := Hit(leaves[j], engine, line).value;
         a.start <= h.start && (j < k ==> a.start < h.start)
  }

  function Earliest(leaves: seq<Expr>, engine: RegexEngine, line: string): Option<Anchor>
    requires AreLeaves(leaves)
  {
    if leaves == [] then None
    else Best(Hit(leaves[0], engine, line), Earliest(leaves[1..], engine, line))
  }

  lemma {:induction false} EarliestIsEarliest(leaves: seq<Expr>, engine: RegexEngine, line: string) returns (k: nat)
    requires AreLeaves(leaves)
    ensures
      var r := Earliest(leaves, engine, line);
      && (r.None? ==> forall leaf <- leaves :: Hit(leaf, engine, line).None?)
      && (r.Some? ==> IsEarliest(leaves, k, r.value, engine, line))
  {
    k := 0;
    if leaves != [] {
      var m := EarliestIsEarliest(leaves[1..], engine, line);
      var first := Hit(leaves[0], engine, line);
      var rest := Earliest(leaves[1..], engine, line);
      assert forall j :: 1 <= j < |leaves| ==> leaves[j] == leaves[1..][j - 1] && leaves[j] in leaves[1..];
      if rest.Some? && (first.None? || rest.value.start < first.value.start) {
        k := m + 1;
      }
    }
  }

  lemma {:induction false} EarliestAppend(a: seq<Expr>, b: seq<Expr>, engine: RegexEngine, line: string)
    requires AreLeaves(a) && AreLeaves(b)
    ensures Earliest(a + b, engine, line) == Best(Earliest(a, engine, line), Earliest(b, engine, line))
  {
    if a == [] {
      assert a + b == b;
    } else {
      assert (a + b)[1..] == a[1..] + b;
      EarliestAppend(a[1..], b, engine, line);
    }
  }

  lemma {:induction false} AnchorIsEarliest(e: Expr, n: nat, c: Compiled, engine: RegexEngine, line: string)
    requires Numbered(e, n) && SlotsHold(Leaves(e), n, c, engine)
    ensures FirstAnchor(e, c, engine, line, Lower(line)) == Earliest(Positive(e), engine, line)
    decreases e, 1
  {
    match e
    case And(cs) => ChildrenEarliest(cs, n, c, engine, line, None);
    case Or(cs) => ChildrenEarliest(cs, n, c, engine, line, None);
    case Not(_) =>
    case _ =>
      assert Leaves(e)[0] == e;
      assert Slot(c.lits, n + 0) == LitSlot(e) && Slot(c.regexes, n + 0) == RegexSlot(e, engine);
  }

  lemma {:induction false} ChildrenEarliest(cs: seq<Expr>, n: nat, c: Compiled, engine: RegexEngine, line: string,
                                            best: Option<Anchor>)
    requires NumberedAll(cs, n) && SlotsHold(LeavesAll(cs), n, c, engine)
    ensures BestChild(cs, c, engine, line, Lower(line), best) == Best(best, Earliest(PositiveAll(cs), engine, line))
    decreases cs, 0
  {
    if cs != [] {
      SlotsOfAppend(Leaves(cs[0]), LeavesAll(cs[1..]), n, c, engine);
      AnchorIsEarliest(cs[0], n, c, engine, line);
      var a := FirstAnchor(cs[0], c, engine, line, Lower(line));
      ChildrenEarliest(cs[1..], n + Terms(cs[0]), c, engine, line, Best(best, a));
      EarliestAppend(Positive(cs[0]), PositiveAll(cs[1..]), engine, line);
    }
  }

  /** The anchor of a parsed query: none exactly when no positive term hits, else the
      hit that starts first, of the leftmost such term, `k`. */
  lemma AnchorLeftmost(e: Expr, engine: RegexEngine, line: string) returns (k: nat)
    requires Numbered(e, 0)
    ensures
      var r := LineAnchor(e, engine, line);
      && (r.None? ==> forall leaf <- Positive(e) :: Hit(leaf, engine, line).None?)
      && (r.Some? ==> IsEarliest(Positive(e), k, r.value, engine, line))
  {
    AnchorIsEarliest(e, 0, CompiledOf(e, engine), engine, line);
    k := EarliestIsEarliest(Positive(e), engine, line);
  }

  /** A hit lies in its line, and a literal's slice is its keyword up to case. */
  lemma HitInLine(leaf: Expr, engine: RegexEngine, line: string)
    requires (leaf.Literal? || leaf.Regex?) && engine.Valid()
    ensures
      var h := Hit(leaf, engine, line);
      h.Some? ==>
        && h.value.start <= h.value.end <= |line|
        && (leaf.Literal? ==> Lower(line[h.value.start..h.value.end]) == Lower(leaf.display))
  {
    var h := Hit(leaf, engine, line);
    if h.Some? && leaf.Literal? {
      assert OccursAt(Lower(line), Lower(leaf.display), h.value.start);
      assert Lower(line[h.value.start..h.value.end]) == Lower(line)[h.value.start..h.value.end];
    }
  }

  lemma {:induction false} AcceptedHasHit(e: Expr, engine: RegexEngine, line: string)
    requires NotFree(e) && Accepts(e, engine, line)
    ensures exists leaf <- Positive(e) :: Hit(leaf, engine, line).Some?
    decreases e, 1
  {
    match e
    case And(cs) =>
      var x :| x in cs && !x.Not?;
      AcceptedChildHasHit(cs, x, engine, line);
    case Or(cs) =>
      var x :| x in cs && Accepts(x, engine, line);
      AcceptedChildHasHit(cs, x, engine, line);
    case Literal(_, _) =>
      assert e in Positive(e);
      var i: nat :| OccursAt(Lower(line), Lower(e.display), i);
    case Regex(_, _) =>
      assert e in Positive(e);
    case Not(_) =>
  }

  lemma {:induction false} AcceptedChildHasHit(cs: seq<Expr>, x: Expr, engine: RegexEngine, line: string)
    requires NotFreeAll(cs) && x in cs && Accepts(x, engine, line)
    ensures exists leaf <- PositiveAll(cs) :: Hit(leaf, engine, line).Some?
    decreases cs, 0
  {
    if x == cs[0] {
      AcceptedHasHit(x, engine, line);
      var leaf :| leaf in Positive(x) && Hit(leaf, engine, line).Some?;
      assert leaf in PositiveAll(cs);
    } else {
      AcceptedChildHasHit(cs[1..], x, engine, line);
      var leaf :| leaf in PositiveAll(cs[1..]) && Hit(leaf, engine, line).Some?;
      assert leaf in PositiveAll(cs);
    }
  }

  // ------------------------------------------------------------- occurrences

  /** The anchor of a line, moved to where the line starts in the document. */
  function At(span: Span, a: Anchor): Anchor {
    Anchor(a.keyword, span.start + a.start, span.start + a.end)
  }

  predicate Below(xs: seq<nat>, n: nat) {
    forall k :: 0 <= k < |xs| ==> xs[k] < n
  }

  /** The anchors of the given lines, in their order, lines without one left out. */
  function AnchorsOf(e: Expr, engine: RegexEngine, content: string, matched: seq<nat>): seq<Anchor>
    requires Below(matched, |LineSpans(content)|)
  {
    if matched == [] then []
    else
      var last := matched[|matched| - 1];
      var a := LineAnchor(e, engine, Lines(content)[last]);
      AnchorsOf(e, engine, content, matched[..|matched| - 1]) +
      (if a.None? then [] else [At(LineSpans(content)[last], a.value)])
  }

  lemma AnchorsOfPrefix(e: Expr, engine: RegexEngine, content: string, matched: seq<nat>, k: nat)
    requires Below(matched, |LineSpans(content)|) && k < |matched|
    ensures Below(matched[..k], |LineSpans(content)|) && Below(matched[..k + 1], |LineSpans(content)|)
    ensures
      var a := LineAnchor(e, engine, Lines(content)[matched[k]]);
      AnchorsOf(e, engine, content, matched[..k + 1]) ==
      AnchorsOf(e, engine, content, matched[..k]) +
      (if a.None? then [] else [At(LineSpans(content)[matched[k]], a.value)])
  {
    hide LineSpans, LineAnchor;
    assert matched[..k + 1][..k] == matched[..k];
  }

  predicate StartsAscend(os: seq<Anchor>) {
    forall i, j :: 0 <= i < j < |os| ==> os[i].start < os[j].start
  }

  /** Stable insertion into a list sorted by start. */
  function Insert(o: Anchor, os: seq<Anchor>): seq<Anchor> {
    if os == [] || o.start <= os[0].start then [o] + os else [os[0]] + Insert(o, os[1..])
  }

  function SortByStart(os: seq<Anchor>): seq<Anchor> {
    if os == [] then [] else Insert(os[0], SortByStart(os[1..]))
  }

  lemma {:induction false} SortIdentity(os: seq<Anchor>)
    requires StartsAscend(os)
    ensures SortByStart(os) == os
  {
    if os != [] {
      SortIdentity(os[1..]);
    }
  }

  method CollectOccurrences(e: Expr, c: Compiled, engine: RegexEngine, content: string, spans: seq<Span>,
                            lines: seq<string>, matched: seq<nat>) returns (out: seq<Anchor>)
    requires c == CompiledOf(e, engine)
    requires spans == LineSpans(content) && lines == Lines(content)
    requires engine.Valid() && Numbered(e, 0)
    requires Ascending(matched) && Below(matched, |lines|)
    ensures out == AnchorsOf(e, engine, content, matched)
  {
    out := [];
    assert Below(matched[..0], |LineSpans(content)|) && AnchorsOf(e, engine, content, matched[..0]) == [];
    hide AnchorsOf, LineSpans, FirstAnchor;
    for k := 0 to |matched|
      invariant Below(matched[..k], |LineSpans(content)|)
      invariant out == AnchorsOf(e, engine, content, matched[..k])
    {
      AnchorsOfPrefix(e, engine, content, matched, k);
      var idx := matched[k];
      var a := FirstAnchor(e, c, engine, lines[idx], Lower(lines[idx]));
      if a.Some? {
        out := out + [At(spans[idx], a.value)];
      }
    }
    assert matched[..|matched|] == matched;
    AnchorsAscend(e, engine, content, matched);
    SortIdentity(out);
    out := SortByStart(out);
  }

  /** An occurrence stands inside line `i`, is the leftmost positive hit there, of term
      `k`, and a literal's bytes are its keyword up to case. */
  ghost predicate ReportsTerm(o: Anchor, e: Expr, engine: RegexEngine, content: string, i: nat, k: nat) {
    && i < |LineSpans(content)|
    && var span := LineSpans(content)[i];
       && span.start <= o.start <= o.end <= span.end <= |content|
       && IsEarliest(Positive(e), k, Anchor(o.keyword, o.start - span.start, o.end - span.start), engine,
                     Lines(content)[i])
       && (Positive(e)[k].Literal? ==> Lower(content[o.start..o.end]) == Lower(o.keyword))
  }

  ghost predicate Reports(o: Anchor, e: Expr, engine: RegexEngine, content: string, i: nat) {
    exists k: nat :: ReportsTerm(o, e, engine, content, i, k)
  }

  lemma LineReports(e: Expr, engine: RegexEngine, content: string, i: nat)
    requires engine.Valid() && Numbered(e, 0) && i < |LineSpans(content)|
    ensures
      var a := LineAnchor(e, engine, Lines(content)[i]);
      a.Some? ==> Reports(At(LineSpans(content)[i], a.value), e, engine, content, i)
  {
    assert |Lines(content)| == |LineSpans(content)|;
    hide *;
    var span, line := LineSpans(content)[i], Lines(content)[i];
    var k := AnchorLeftmost(e, engine, line);
    var r := LineAnchor(e, engine, line);
    if r.Some? {
      LineCut(content, i);
      EarliestHits(e, k, r.value, engine, line);
      HitReports(r.value, Positive(e)[k], engine, content, span, line);
      TermReports(r.value, e, engine, content, i, k);
      ReportsByTerm(At(span, r.value), e, engine, content, i, k);
    }
  }

  lemma LineCut(content: string, i: nat)
    requires i < |LineSpans(content)|
    ensures |Lines(content)| == |LineSpans(content)| && SpanOf(content, LineSpans(content)[i])
    ensures LineSpans(content)[i].start <= LineSpans(content)[i].end <= |content|
    ensures Lines(content)[i] == content[LineSpans(content)[i].start..LineSpans(content)[i].end]
  {
    hide SpansFrom;
  }

  lemma EarliestHits(e: Expr, k: nat, a: Anchor, engine: RegexEngine, line: string)
    requires IsEarliest(Positive(e), k, a, engine, line)
    ensures k < |Positive(e)| && (Positive(e)[k].Literal? || Positive(e)[k].Regex?)
    ensures Hit(Positive(e)[k], engine, line) == Some(a)
  {
    hide Hit;
  }

  lemma TermReports(a: Anchor, e: Expr, engine: RegexEngine, content: string, i: nat, k: nat)
    requires i < |LineSpans(content)| == |Lines(content)|
    requires IsEarliest(Positive(e), k, a, engine, Lines(content)[i]) && k < |Positive(e)|
    requires
      var span := LineSpans(content)[i];
      var o := At(span, a);
      && span.start <= o.start <= o.end <= span.end <= |content|
      && (Positive(e)[k].Literal? ==> Lower(content[o.start..o.end]) == Lower(o.keyword))
    ensures ReportsTerm(At(LineSpans(content)[i], a), e, engine, content, i, k)
  {
    var span := LineSpans(content)[i];
    assert Anchor(a.keyword, (span.start + a.start) - span.start, (span.start + a.end) - span.start) == a;
    hide Lower, Lines, LineSpans, CutsFrom, IsEarliest, Positive, Hit;
  }

  lemma ReportsByTerm(o: Anchor, e: Expr, engine: RegexEngine, content: string, i: nat, k: nat)
    requires ReportsTerm(o, e, engine, content, i, k)
    ensures Reports(o, e, engine, content, i)
  {
  }

  /** A hit on a line, seen in the document. */
  lemma HitReports(a: Anchor, leaf: Expr, engine: RegexEngine, content: string, span: Span, line: string)
    requires engine.Valid() && (leaf.Literal? || leaf.Regex?) && Hit(leaf, engine, line) == Some(a)
    requires SpanOf(content, span) && line == content[span.start..span.end]
    ensures span.start <= At(span, a).start <= At(span, a).end <= span.end <= |content|
    ensures At(span, a).keyword == a.keyword
    ensures leaf.Literal? ==> Lower(content[At(span, a).start..At(span, a).end]) == Lower(a.keyword)
  {
    assert leaf.Literal? ==> a.keyword == leaf.display;
    hide Lower, Hit;
    HitInLine(leaf, engine, line);
    SliceOfSlice(content, span.start, span.end, a.start, a.end);
  }

  lemma {:induction false} SpansAscend(content: string, i: nat, j: nat)
    requires i < j < |LineSpans(content)|
    ensures LineSpans(content)[i].end < LineSpans(content)[j].start
  {
    if i + 1 < j {
      SpansAscend(content, i, j - 1);
      assert LineSpans(content)[j].start == LineSpans(content)[j - 1].end + 1;
    }
  }

  /** Every occurrence soundly reports one of the given lines. */
  lemma {:induction false} AnchorsReport(e: Expr, engine: RegexEngine, content: string, matched: seq<nat>)
    requires engine.Valid() && Numbered(e, 0) && Below(matched, |LineSpans(content)|)
    ensures forall o <- AnchorsOf(e, engine, content, matched) ::
              exists i <- matched :: Reports(o, e, engine, content, i)
  {
    if matched != [] {
      var last := matched[|matched| - 1];
      var front := matched[..|matched| - 1];
      assert matched == front + [last];
      AnchorsReport(e, engine, content, front);
      LineReports(e, engine, content, last);
      var before := AnchorsOf(e, engine, content, front);
      forall o | o in AnchorsOf(e, engine, content, matched)
        ensures exists i <- matched :: Reports(o, e, engine, content, i)
      {
        if o in before {
          var i :| i in front && Reports(o, e, engine, content, i);
          assert i in matched;
        } else {
          assert last in matched;
        }
      }
    }
  }

  /** Occurrences start strictly further on. */
  lemma {:induction false} AnchorsAscend(e: Expr, engine: RegexEngine, content: string, matched: seq<nat>)
    requires engine.Valid() && Numbered(e, 0)
    requires Ascending(matched) && Below(matched, |LineSpans(content)|)
    ensures StartsAscend(AnchorsOf(e, engine, content, matched))
  {
    if matched != [] {
      var last := matched[|matched| - 1];
      var front := matched[..|matched| - 1];
      AnchorsAscend(e, engine, content, front);
      AnchorsReport(e, engine, content, front);
      LineReports(e, engine, content, last);
      forall o | o in AnchorsOf(e, engine, content, front)
        ensures o.start < LineSpans(content)[last].start
      {
        var i :| i in front && Reports(o, e, engine, content, i);
        SpansAscend(content, i, last);
      }
    }
  }

  lemma ReportHits(o: Anchor, e: Expr, engine: RegexEngine, content: string, i: nat)
    requires Reports(o, e, engine, content, i)
    ensures exists leaf <- Positive(e) :: Hit(leaf, engine, Lines(content)[i]).Some?
  {
    var k: nat :| ReportsTerm(o, e, engine, content, i, k);
    var leaves := Positive(e);
    assert leaves[k] in leaves;
  }

  /** A given line is reported exactly when one of its positive terms hits. */
  lemma {:induction false} AnchorsComplete(e: Expr, engine: RegexEngine, content: string, matched: seq<nat>, i: nat)
    requires engine.Valid() && Numbered(e, 0) && Below(matched, |LineSpans(content)|)
    requires i in matched
    ensures
      (exists leaf <- Positive(e) :: Hit(leaf, engine, Lines(content)[i]).Some?) <==>
      (exists o <- AnchorsOf(e, engine, content, matched) :: Reports(o, e, engine, content, i))
  {
    forall o | Reports(o, e, engine, content, i)
      ensures exists leaf <- Positive(e) :: Hit(leaf, engine, Lines(content)[i]).Some?
    {
      ReportHits(o, e, engine, content, i);
    }
    if exists leaf <- Positive(e) :: Hit(leaf, engine, Lines(content)[i]).Some? {
      LineReported(e, engine, content, matched, i);
      var k := AnchorLeftmost(e, engine, Lines(content)[i]);
      LineReports(e, engine, content, i);
    }
  }

  lemma {:induction false} LineReported(e: Expr, engine: RegexEngine, content: string, matched: seq<nat>, i: nat)
    requires Below(matched, |LineSpans(content)|) && i in matched
    ensures
      var a := LineAnchor(e, engine, Lines(content)[i]);
      a.Some? ==> At(LineSpans(content)[i], a.value) in AnchorsOf(e, engine, content, matched)
  {
    var last := matched[|matched| - 1];
    var front := matched[..|matched| - 1];
    if i != last {
      assert matched == front + [last];
      LineReported(e, engine, content, front, i);
    }
  }

  /** Occurrences start strictly further on, each soundly reports one of the given lines,
      and a given line is reported exactly when one of its positive terms hits. */
  ghost predicate ReportsExactly(os: seq<Anchor>, e: Expr, engine: RegexEngine, content: string, matched: seq<nat>)
    requires Below(matched, |LineSpans(content)|)
  {
    && StartsAscend(os)
    && (forall o <- os :: exists i <- matched :: Reports(o, e, engine, content, i))
    && (forall i <- matched ::
          (exists leaf <- Positive(e) :: Hit(leaf, engine, Lines(content)[i]).Some?) <==>
          (exists o <- os :: Reports(o, e, engine, content, i)))
  }

  lemma AnchorsSound(e: Expr, engine: RegexEngine, content: string, matched: seq<nat>)
    requires engine.Valid() && Numbered(e, 0)
    requires Ascending(matched) && Below(matched, |LineSpans(content)|)
    ensures ReportsExactly(AnchorsOf(e, engine, content, matched), e, engine, content, matched)
  {
    AnchorsReport(e, engine, content, matched);
    AnchorsAscend(e, engine, content, matched);
    forall i | i in matched
      ensures
        (exists leaf <- Positive(e) :: Hit(leaf, engine, Lines(content)[i]).Some?) <==>
        (exists o <- AnchorsOf(e, engine, content, matched) :: Reports(o, e, engine, content, i))
    {
      AnchorsComplete(e, engine, content, matched, i);
    }
  }

  /** A query without negation reports every line it accepts. */
  lemma NotFreeReportsAll(e: Expr, engine: RegexEngine, content: string, matched: seq<nat>, i: nat)
    requires engine.Valid() && Numbered(e, 0) && NotFree(e) && Below(matched, |LineSpans(content)|)
    requires i in matched && Accepts(e, engine, Lines(content)[i])
    ensures exists o <- AnchorsOf(e, engine, content, matched) :: Reports(o, e, engine, content, i)
  {
    AcceptedHasHit(e, engine, Lines(content)[i]);
    AnchorsComplete(e, engine, content, matched, i);
  }
}
