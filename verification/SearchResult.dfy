/** What a search answers, from the pattern to the last page. */
module SearchResult {
  import opened Prelude
  import opened QuerySyntax
  import opened QueryParser
  import opened Query
  import opened QueryEval
  import opened LineSearch
  import opened Anchors
  import opened Paging

  /** Where every selected line has an anchor, there is one occurrence for each. */
  lemma {:induction false} OnePerLine(e: Expr, engine: RegexEngine, content: string, matched: seq<nat>, j: nat)
    requires engine.Valid() && Numbered(e, 0) && Below(matched, |LineSpans(content)|) && j < |matched|
    requires |Lines(content)| == |LineSpans(content)|
    requires forall k :: 0 <= k < |matched| ==> LineAnchor(e, engine, Lines(content)[matched[k]]).Some?
    ensures |AnchorsOf(e, engine, content, matched)| == |matched|
    ensures Reports(AnchorsOf(e, engine, content, matched)[j], e, engine, content, matched[j])
    decreases |matched|
  {
    hide *;
    var n := |matched| - 1;
    var front := matched[..n];
    assert matched[..n + 1] == matched;
    AnchorsOfPrefix(e, engine, content, matched, n);
    LineBelow(content, matched, n);
    LineReports(e, engine, content, matched[n]);
    if n > 0 {
      OnePerLine(e, engine, content, front, if j < n then j else 0);
    } else {
      NoAnchors(e, engine, content);
      assert front == [];
    }
  }

  lemma LineBelow(content: string, matched: seq<nat>, n: nat)
    requires Below(matched, |LineSpans(content)|) && n < |matched|
    ensures matched[n] < |LineSpans(content)|
  {
  }

  lemma NoAnchors(e: Expr, engine: RegexEngine, content: string)
    requires Below([], |LineSpans(content)|)
    ensures AnchorsOf(e, engine, content, []) == []
  {
  }

  /** A line that a query without negation accepts has an anchor. */
  lemma AcceptedAnchored(e: Expr, engine: RegexEngine, line: string)
    requires Numbered(e, 0) && NotFree(e) && Accepts(e, engine, line)
    ensures LineAnchor(e, engine, line).Some?
  {
    AcceptedHasHit(e, engine, line);
    var k := AnchorLeftmost(e, engine, line);
  }

  /** The lines a structured query selects are those it accepts, in order. */
  lemma StructuredSelects(q: ParsedQuery, e: Expr, engine: RegexEngine, lines: seq<string>)
    requires q.bareKeywords.None? && Numbered(e, 0)
    ensures
      var m := Matched(q, e, CompiledOf(e, engine), engine, lines).0;
      Ascending(m) && forall i: nat :: i in m <==> i < |lines| && Accepts(e, engine, lines[i])
  {
    forall i: nat | i < |lines|
      ensures EvalExpr(e, CompiledOf(e, engine), engine, lines[i], Lower(lines[i])) == Accepts(e, engine, lines[i])
    {
      EvaluationFaithful(e, engine, lines[i]);
    }
    hide CompiledOf, EvalExpr, Accepts;
  }

  /** A match and what it reports: the earliest hit of a line, with its surroundings. */
  ghost predicate Shows(m: FindMatch, e: Expr, engine: RegexEngine, content: string, margin: nat, i: nat) {
    exists o: Anchor ::
      && Reports(o, e, engine, content, i)
      && m.keyword == o.keyword && m.start == o.start && m.end == o.end
      && Surrounds(content, o, margin, m.context)
  }

  /** One match for each of the lines, in their order. */
  ghost predicate OneEach(ms: seq<FindMatch>, e: Expr, engine: RegexEngine, content: string, margin: nat,
                          selected: seq<nat>)
  {
    |ms| == |selected| && forall j :: 0 <= j < |ms| ==> Shows(ms[j], e, engine, content, margin, selected[j])
  }

  lemma MatchShows(e: Expr, engine: RegexEngine, content: string, margin: nat, selected: seq<nat>, hits: seq<Anchor>,
                   j: nat)
    requires engine.Valid() && Paging.Ordered(hits) && j < |hits|
    requires j < |selected| && Reports(hits[j], e, engine, content, selected[j])
    ensures Shows(ToMatches(content, margin, hits)[j], e, engine, content, margin, selected[j])
  {
    ToMatchesAt(content, margin, hits, j);
    ReportInside(hits[j], e, engine, content, selected[j]);
    ContextSurrounds(content, margin, hits[j]);
    hide Surrounds, Reports;
    assert ToMatch(content, margin, hits[j]).keyword == hits[j].keyword;
  }

  lemma ReportInside(o: Anchor, e: Expr, engine: RegexEngine, content: string, i: nat)
    requires Reports(o, e, engine, content, i)
    ensures o.start <= o.end <= |content|
  {
    hide LineSpans;
    var k: nat :| ReportsTerm(o, e, engine, content, i, k);
  }

  /** Where every selected line has an anchor, the answers of a search, followed to the
      last, hold one match for each selected line. */
  lemma AnswersOneEach(id: string, content: string, e: Expr, engine: RegexEngine, k: nat, margin: nat,
                       selected: seq<nat>, found: Found)
    requires engine.Valid() && k >= 1 && Numbered(e, 0) && Below(selected, |LineSpans(content)|)
    requires |Lines(content)| == |LineSpans(content)|
    requires forall i <- selected :: LineAnchor(e, engine, Lines(content)[i]).Some?
    requires found.hits == AnchorsOf(e, engine, content, selected)
    ensures OneEach(AllMatches(Answers(id, content, found, 0, k, margin)), e, engine, content, margin, selected)
  {
    hide *;
    var hits := found.hits;
    var matches := ToMatches(content, margin, hits);
    AnswersComplete(id, content, found, 0, k, margin);
    FromStart(matches);
    if selected == [] {
      NoAnchors(e, engine, content);
    } else {
      assert forall i :: 0 <= i < |selected| ==> selected[i] in selected;
      OnePerLine(e, engine, content, selected, 0);
    }
    forall j | 0 <= j < |matches|
      ensures Shows(matches[j], e, engine, content, margin, selected[j])
    {
      OnePerLine(e, engine, content, selected, j);
      MatchShows(e, engine, content, margin, selected, hits, j);
    }
    OneEachHolds(matches, e, engine, content, margin, selected);
  }

  lemma FromStart(ms: seq<FindMatch>)
    ensures From(ms, 0) == ms
  {
  }

  lemma OneEachHolds(ms: seq<FindMatch>, e: Expr, engine: RegexEngine, content: string, margin: nat, selected: seq<nat>)
    requires |ms| == |selected|
    requires forall j :: 0 <= j < |ms| ==> Shows(ms[j], e, engine, content, margin, selected[j])
    ensures OneEach(ms, e, engine, content, margin, selected)
  {
    hide Shows;
  }

  /** The occurrences of a pattern are the anchors of the lines it selects. */
  lemma OccurrencesAre(content: string, pattern: string, engine: RegexEngine)
    requires engine.Valid() && Trim(pattern) != "" && Parse(pattern).expr.Some?
    ensures |Lines(content)| == |LineSpans(content)|
    ensures
      var q := Parse(pattern);
      var e := q.expr.value;
      var m := Matched(q, e, CompiledOf(e, engine), engine, Lines(content));
      var found := Occurrences(content, pattern, engine);
      && Ascending(m.0) && Below(m.0, |LineSpans(content)|) && (forall i <- m.0 :: i < |Lines(content)|)
      && found.hits == AnchorsOf(e, engine, content, m.0) && found.relaxation == m.1
  {
    var q := Parse(pattern);
    MatchedBelow(q, q.expr.value, CompiledOf(q.expr.value, engine), engine, Lines(content));
    hide Parse, Matched, AnchorsOf, LineSpans;
  }

  /** A structured pattern without negation, followed from the first answer to the last:
      exactly one match for each accepted line, in the order of the lines, no tag. */
  lemma SearchComplete(id: string, content: string, pattern: string, engine: RegexEngine, k: nat, margin: nat)
      returns (accepted: seq<nat>)
    requires engine.Valid() && k >= 1 && Trim(pattern) != ""
    requires Parse(pattern).expr.Some? && Parse(pattern).bareKeywords.None? && NotFree(Parse(pattern).expr.value)
    ensures Ascending(accepted)
    ensures
      var e := Parse(pattern).expr.value;
      && (forall i: nat :: i in accepted <==> i < |Lines(content)| && Accepts(e, engine, Lines(content)[i]))
      && Occurrences(content, pattern, engine).relaxation == None
      && OneEach(AllMatches(Answers(id, content, Occurrences(content, pattern, engine), 0, k, margin)),
                 e, engine, content, margin, accepted)
  {
    var q := Parse(pattern);
    var e := q.expr.value;
    var m := Matched(q, e, CompiledOf(e, engine), engine, Lines(content));
    assert m.1 == None;
    hide *;
    accepted := m.0;
    ParseSound(pattern);
    StructuredSelects(q, e, engine, Lines(content));
    OccurrencesAre(content, pattern, engine);
    var found := Occurrences(content, pattern, engine);
    forall i | i in accepted
      ensures LineAnchor(e, engine, Lines(content)[i]).Some?
    {
      AcceptedAnchored(e, engine, Lines(content)[i]);
    }
    AnswersOneEach(id, content, e, engine, k, margin, accepted, found);
  }

  /** A line with one of the keywords has an anchor. */
  lemma KeywordAnchored(s: string, engine: RegexEngine, line: string)
    requires IsBare(s) && KeywordHits(Words(s), line) > 0
    ensures ParseTrimmed(s).Some? && LineAnchor(ParseTrimmed(s).value, engine, line).Some?
  {
    var ws := Words(s);
    BareQuery(s, engine);
    BareParse(s);
    AllHits(ws, line);
    var e := ParseTrimmed(s).value;
    var i :| 0 <= i < |ws| && HasKeyword(ws[i], line);
    assert ws[i] in ws;
    var lits := WordLiterals(ws, 0);
    PositiveWords(ws, 0);
    GroupPositive(lits);
    var k := AnchorLeftmost(e, engine, line);
    hide *;
    assert lits[i] in lits;
    WordHit(lits[i], ws[i], engine, line);
  }

  lemma WordHit(leaf: Expr, w: string, engine: RegexEngine, line: string)
    requires leaf.Literal? && leaf.display == w && w != "" && HasKeyword(w, line)
    ensures Hit(leaf, engine, line).Some?
  {
  }

  lemma {:induction false} PositiveWords(ws: seq<string>, n: nat)
    ensures PositiveAll(WordLiterals(ws, n)) == WordLiterals(ws, n)
  {
    var lits := WordLiterals(ws, n);
    if ws != [] {
      PositiveWords(ws[1..], n + 1);
      assert lits[1..] == WordLiterals(ws[1..], n + 1);
      assert lits == [lits[0]] + lits[1..];
    }
  }

  lemma GroupPositive(lits: seq<Expr>)
    requires lits != []
    ensures Positive(GroupAnd(lits).value) == PositiveAll(lits)
  {
    if |lits| == 1 {
      assert lits[1..] == [];
    }
  }

  /** A query of plain words, followed from the first answer to the last: exactly one
      match for each line of the strictest tier that is not empty, in the order of the
      lines, and the tag of that tier. */
  lemma PlainSearchComplete(id: string, content: string, pattern: string, engine: RegexEngine, k: nat, margin: nat)
      returns (selected: seq<nat>)
    requires engine.Valid() && k >= 1 && IsBare(Trim(pattern))
    ensures Ascending(selected) && Parse(pattern).expr.Some?
    ensures
      var ws, lines := Words(Trim(pattern)), Lines(content);
      var n := |ws|;
      var found := Occurrences(content, pattern, engine);
      && (selected, found.relaxation) ==
         Strictest(n, Tier(ws, lines, n), Tier(ws, lines, (n + 1) / 2), Tier(ws, lines, 1))
      && OneEach(AllMatches(Answers(id, content, found, 0, k, margin)),
                 Parse(pattern).expr.value, engine, content, margin, selected)
  {
    hide *;
    var s := Trim(pattern);
    BareNotEmpty(pattern);
    RelaxationExact(s, engine, Lines(content));
    var q := Parse(pattern);
    var e := q.expr.value;
    PlainSelects(pattern, engine, Lines(content));
    var m := Matched(q, e, CompiledOf(e, engine), engine, Lines(content));
    selected := m.0;
    ParseSound(pattern);
    OccurrencesAre(content, pattern, engine);
    var found := Occurrences(content, pattern, engine);
    forall i | i in selected
      ensures LineAnchor(e, engine, Lines(content)[i]).Some?
    {
      SelectedHasKeyword(Words(s), Lines(content), selected, i);
      KeywordAnchored(s, engine, Lines(content)[i]);
    }
    AnswersOneEach(id, content, e, engine, k, margin, selected, found);
  }

  lemma BareNotEmpty(pattern: string)
    requires IsBare(Trim(pattern))
    ensures Trim(pattern) != "" && Words(Trim(pattern)) != []
    ensures Parse(pattern) == ParsedQuery(ParseTrimmed(Trim(pattern)), Some(LowerAll(Words(Trim(pattern)))))
  {
    hide ParseTrimmed;
  }

  /** The lines a query of plain words selects, with the tag. */
  lemma PlainSelects(pattern: string, engine: RegexEngine, lines: seq<string>)
    requires IsBare(Trim(pattern)) && Parse(pattern).expr.Some?
    ensures
      var q := Parse(pattern);
      var c := CompiledOf(q.expr.value, engine);
      Matched(q, q.expr.value, c, engine, lines) == SelectWithFallback(LowerAll(Words(Trim(pattern))), c, engine, lines)
  {
    BareNotEmpty(pattern);
    hide Parse, SelectWithFallback;
  }

  /** Every line of whichever tier was chosen has a keyword. */
  lemma SelectedHasKeyword(ws: seq<string>, lines: seq<string>, selected: seq<nat>, i: nat)
    requires ws != [] && i in selected
    requires
      var n := |ws|;
      selected == Strictest(n, Tier(ws, lines, n), Tier(ws, lines, (n + 1) / 2), Tier(ws, lines, 1)).0
    ensures i < |lines| && KeywordHits(ws, lines[i]) > 0
  {
    hide *;
    var n := |ws|;
    var half := (n + 1) / 2;
    OneOfThree(n, Tier(ws, lines, n), Tier(ws, lines, half), Tier(ws, lines, 1), i);
    TierMember(ws, lines, n, i);
    TierMember(ws, lines, half, i);
    TierMember(ws, lines, 1, i);
  }

  lemma OneOfThree(n: nat, all: seq<nat>, half: seq<nat>, any: seq<nat>, i: nat)
    requires i in Strictest(n, all, half, any).0
    ensures i in all || i in half || i in any
  {
  }

  lemma TierMember(ws: seq<string>, lines: seq<string>, threshold: nat, i: nat)
    requires threshold >= 1
    ensures i in Tier(ws, lines, threshold) ==> i < |lines| && KeywordHits(ws, lines[i]) > 0
  {
    hide KeywordHits;
  }
}
