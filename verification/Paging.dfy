/** Result pages of a document search, and the search itself. */
module Paging {
  import opened Prelude
  import opened QuerySyntax
  import opened Query
  import opened QueryEval
  import opened LineSearch
  import opened Anchors
  import opened Utf8

  const MAX_OUTPUT_CHARS: nat := 8000

  datatype FindMatch = FindMatch(keyword: string, start: nat, end: nat, context: string)

  datatype FindResult =
    FindResult(id: string, nextCursor: Option<nat>, relaxation: Option<string>, matches: seq<FindMatch>)

  predicate Ordered(os: seq<Anchor>) {
    forall k :: 0 <= k < |os| ==> os[k].start <= os[k].end
  }

  function ContextStart(content: string, o: Anchor, margin: nat): (a: nat)
    ensures a <= |content| && a <= o.start
    ensures o.start <= |content| ==> LastBefore(content, if o.start < margin then 0 else o.start - margin, a)
  {
    Floor(content, if o.start < margin then 0 else o.start - margin)
  }

  function ContextEnd(content: string, o: Anchor, margin: nat): (b: nat)
    ensures FirstAfter(content, Min(o.end + margin, |content|), b)
    ensures b <= |content| && (o.end <= |content| ==> o.end <= b)
  {
    Ceil(content, Min(o.end + margin, |content|))
  }

  function ToMatch(content: string, margin: nat, o: Anchor): FindMatch
    requires o.start <= o.end
  {
    FindMatch(o.keyword, o.start, o.end,
              content[ContextStart(content, o, margin)..ContextEnd(content, o, margin)])
  }

  /** The context is the stretch from the boundary at or before the margin on the left to
      the one at or after the margin on the right, with the hit in its place. */
  ghost predicate Stretch(content: string, o: Anchor, margin: nat, context: string, a: nat, b: nat) {
    && LastBefore(content, if o.start < margin then 0 else o.start - margin, a)
    && FirstAfter(content, Min(o.end + margin, |content|), b)
    && a <= o.start <= o.end <= b <= |content| && context == content[a..b]
    && context[o.start - a..o.end - a] == content[o.start..o.end]
  }

  ghost predicate Surrounds(content: string, o: Anchor, margin: nat, context: string) {
    exists a: nat, b: nat :: Stretch(content, o, margin, context, a, b)
  }

  lemma ContextSurrounds(content: string, margin: nat, o: Anchor)
    requires o.start <= o.end <= |content|
    ensures Surrounds(content, o, margin, ToMatch(content, margin, o).context)
  {
    hide ContextStart, ContextEnd, LastBefore, FirstAfter;
    var a, b := ContextStart(content, o, margin), ContextEnd(content, o, margin);
    SliceOfSlice(content, a, b, o.start - a, o.end - a);
    assert Stretch(content, o, margin, content[a..b], a, b);
  }

  function ToMatches(content: string, margin: nat, os: seq<Anchor>): (r: seq<FindMatch>)
    requires Ordered(os)
    ensures |r| == |os|
  {
    if os == [] then []
    else ToMatches(content, margin, os[..|os| - 1]) + [ToMatch(content, margin, os[|os| - 1])]
  }

  lemma {:induction false} ToMatchesAt(content: string, margin: nat, os: seq<Anchor>, k: nat)
    requires Ordered(os) && k < |os|
    ensures ToMatches(content, margin, os)[k] == ToMatch(content, margin, os[k])
  {
    if k < |os| - 1 {
      ToMatchesAt(content, margin, os[..|os| - 1], k);
    }
  }

  function ContextSize(ms: seq<FindMatch>): nat {
    if ms == [] then 0 else ContextSize(ms[..|ms| - 1]) + |ms[|ms| - 1].context|
  }

  /** No more than k matches, and all but the last stay below the output size. */
  predicate WithinLimits(ms: seq<FindMatch>, k: nat, n: nat) {
    n <= |ms| && n <= k && (n > 0 ==> ContextSize(ms[..n - 1]) < MAX_OUTPUT_CHARS)
  }

  /** One of the two limits is reached. */
  predicate AtLimit(ms: seq<FindMatch>, k: nat, n: nat)
    requires n <= |ms|
  {
    n >= k || ContextSize(ms[..n]) >= MAX_OUTPUT_CHARS
  }

  /** How many of `ms` a page takes: all of them, unless k matches or the output size
      stops it first; the match that crosses the size limit is still taken. */
  predicate IsPageLength(ms: seq<FindMatch>, k: nat, n: nat) {
    WithinLimits(ms, k, n) && (n < |ms| ==> AtLimit(ms, k, n))
  }

  lemma {:induction false} ContextGrows(ms: seq<FindMatch>, i: nat, j: nat)
    requires i <= j <= |ms|
    ensures ContextSize(ms[..i]) <= ContextSize(ms[..j])
    decreases j
  {
    if i < j {
      ContextGrows(ms, i, j - 1);
      assert ms[..j][..j - 1] == ms[..j - 1];
    }
  }

  lemma PageLengthUnique(ms: seq<FindMatch>, k: nat, m: nat, n: nat)
    requires IsPageLength(ms, k, m) && IsPageLength(ms, k, n)
    ensures m == n
  {
    if m < n {
      ContextGrows(ms, m, n - 1);
    } else if n < m {
      ContextGrows(ms, n, m - 1);
    }
  }

  /** The list from position `cursor` on, empty beyond its end. */
  function From(ms: seq<FindMatch>, cursor: nat): (r: seq<FindMatch>)
    ensures |r| == |ms| - Min(cursor, |ms|)
  {
    ms[Min(cursor, |ms|)..]
  }

  /** What a page has taken so far. */
  predicate Taken(rest: seq<FindMatch>, k: nat, page: seq<FindMatch>) {
    WithinLimits(rest, k, |page|) && page == rest[..|page|]
  }

  /** A whole page. */
  predicate IsPage(rest: seq<FindMatch>, k: nat, page: seq<FindMatch>) {
    Taken(rest, k, page) && (|page| < |rest| ==> AtLimit(rest, k, |page|))
  }

  lemma TakesOne(ms: seq<FindMatch>, cursor: nat, k: nat, page: seq<FindMatch>, m: FindMatch)
    requires Taken(From(ms, cursor), k, page)
    requires cursor + |page| < |ms| && m == ms[cursor + |page|]
    requires |page| < k && ContextSize(page) < MAX_OUTPUT_CHARS
    ensures Taken(From(ms, cursor), k, page + [m])
    ensures ContextSize(page + [m]) == ContextSize(page) + |m.context|
  {
    var rest := From(ms, cursor);
    assert rest[|page|] == m;
    PrefixGrows(rest, |page|);
    assert (page + [m])[..|page|] == page;
  }

  lemma TakesNoMore(rest: seq<FindMatch>, k: nat, page: seq<FindMatch>)
    requires Taken(rest, k, page)
    requires |page| >= |rest| || |page| >= k || ContextSize(page) >= MAX_OUTPUT_CHARS
    ensures IsPage(rest, k, page)
  {
  }

  /** A page and where the next one starts. */
  method Page(os: seq<Anchor>, content: string, cursor: nat, k: nat, margin: nat)
    returns (matches: seq<FindMatch>, next: Option<nat>)
    requires Ordered(os)
    ensures IsPage(From(ToMatches(content, margin, os), cursor), k, matches)
    ensures next == if cursor + |matches| < |os| then Some(cursor + |matches|) else None
  {
    hide Surrounds, ToMatch;
    matches := [];
    var outputChars := 0;
    var total := |os|;
    ghost var ms := ToMatches(content, margin, os);
    for i := 0 to total
      invariant |matches| == (if i < cursor then 0 else i - cursor)
      invariant outputChars == ContextSize(matches)
      invariant Taken(From(ms, cursor), k, matches)
    {
      if i < cursor {
        continue;
      }
      if |matches| >= k || outputChars >= MAX_OUTPUT_CHARS {
        break;
      }
      var m := Excerpt(content, os[i], margin);
      assert m == ms[i] by {
        ToMatchesAt(content, margin, os, i);
      }
      TakesOne(ms, cursor, k, matches, m);
      outputChars := outputChars + |m.context|;
      matches := matches + [m];
    }
    TakesNoMore(From(ms, cursor), k, matches);
    next := if cursor + |matches| < total then Some(cursor + |matches|) else None;
  }

  /** The reported match with its surrounding text, cut at character boundaries. */
  method Excerpt(content: string, o: Anchor, margin: nat) returns (m: FindMatch)
    requires o.start <= o.end
    ensures m == ToMatch(content, margin, o)
    ensures m.keyword == o.keyword && m.start == o.start && m.end == o.end
    ensures o.end <= |content| ==> Surrounds(content, o, margin, m.context)
  {
    var ctxStart := FloorCharBoundary(content, if o.start < margin then 0 else o.start - margin);
    var ctxEnd := CeilCharBoundary(content, Min(o.end + margin, |content|));
    assert ctxStart == ContextStart(content, o, margin) && ctxEnd == ContextEnd(content, o, margin);
    m := FindMatch(o.keyword, o.start, o.end, content[ctxStart..ctxEnd]);
    if o.end <= |content| {
      ContextSurrounds(content, margin, o);
    }
  }

  /** The same page as a value. */
  function PageLength(ms: seq<FindMatch>, k: nat): (n: nat)
    ensures IsPageLength(ms, k, n)
  {
    PageLengthFrom(ms, k, 0)
  }

  function PageLengthFrom(ms: seq<FindMatch>, k: nat, from: nat): (n: nat)
    requires from <= |ms| && from <= k
    requires from > 0 ==> ContextSize(ms[..from - 1]) < MAX_OUTPUT_CHARS
    ensures IsPageLength(ms, k, n)
    decreases |ms| - from
  {
    if from == |ms| || from == k || ContextSize(ms[..from]) >= MAX_OUTPUT_CHARS then from
    else PageLengthFrom(ms, k, from + 1)
  }

  /** A page makes progress exactly when at least one match per page is allowed. */
  lemma PageProgress(ms: seq<FindMatch>, k: nat)
    requires ms != []
    ensures PageLength(ms, k) > 0 <==> k > 0
  {
    assert ContextSize(ms[..0]) == 0;
  }

  function PageAt(ms: seq<FindMatch>, cursor: nat, k: nat): seq<FindMatch> {
    From(ms, cursor)[..PageLength(From(ms, cursor), k)]
  }

  /** There is one page at each cursor. */
  lemma PageDetermined(ms: seq<FindMatch>, cursor: nat, k: nat, page: seq<FindMatch>)
    requires IsPage(From(ms, cursor), k, page)
    ensures page == PageAt(ms, cursor, k)
  {
    PageLengthUnique(From(ms, cursor), k, |page|, PageLength(From(ms, cursor), k));
  }

  // ------------------------------------------------------------------ search

  type Hits = os: seq<Anchor> | Ordered(os) witness []

  datatype Found = Found(hits: Hits, relaxation: Option<string>)

  lemma MatchedBelow(q: ParsedQuery, e: Expr, c: Compiled, engine: RegexEngine, lines: seq<string>)
    ensures Below(Matched(q, e, c, engine, lines).0, |lines|)
    ensures Ascending(Matched(q, e, c, engine, lines).0)
  {
    var xs := Matched(q, e, c, engine, lines).0;
    assert forall k :: 0 <= k < |xs| ==> xs[k] in xs;
  }

  lemma AnchorsOrdered(e: Expr, engine: RegexEngine, content: string, matched: seq<nat>)
    requires engine.Valid() && Numbered(e, 0) && Below(matched, |LineSpans(content)|)
    ensures Ordered(AnchorsOf(e, engine, content, matched))
  {
    AnchorsReport(e, engine, content, matched);
    var os := AnchorsOf(e, engine, content, matched);
    assert forall k :: 0 <= k < |os| ==> os[k] in os;
  }

  /** All occurrences of a pattern, and the tier that was used. */
  ghost function Occurrences(content: string, pattern: string, engine: RegexEngine): Found
    requires engine.Valid()
  {
    var q := Parse(pattern);
    if Trim(pattern) == "" || q.expr.None? then Found([], None)
    else
      var e := q.expr.value;
      var m := Matched(q, e, CompiledOf(e, engine), engine, Lines(content));
      MatchedBelow(q, e, CompiledOf(e, engine), engine, Lines(content));
      ParseSound(pattern);
      AnchorsOrdered(e, engine, content, m.0);
      Found(AnchorsOf(e, engine, content, m.0), m.1)
  }

  /** The occurrences of a parsed pattern report exactly the selected lines that a
      positive term hits, each soundly, in document order. */
  lemma OccurrencesSound(content: string, pattern: string, engine: RegexEngine)
    requires engine.Valid() && Trim(pattern) != "" && Parse(pattern).expr.Some?
    ensures
      var e := Parse(pattern).expr.value;
      var selected := Matched(Parse(pattern), e, CompiledOf(e, engine), engine, Lines(content)).0;
      && Below(selected, |LineSpans(content)|)
      && ReportsExactly(Occurrences(content, pattern, engine).hits, e, engine, content, selected)
  {
    var q := Parse(pattern);
    var e := q.expr.value;
    var selected := Matched(q, e, CompiledOf(e, engine), engine, Lines(content)).0;
    ParseSound(pattern);
    MatchedBelow(q, e, CompiledOf(e, engine), engine, Lines(content));
    AnchorsSound(e, engine, content, selected);
  }

  /** Parse, compile, select lines and anchor them: everything but the page. */
  method FindOccurrences(content: string, pattern: string, engine: RegexEngine) returns (found: Found)
    requires engine.Valid()
    ensures found == Occurrences(content, pattern, engine)
  {
    var q := ParseQuery(pattern);
    if Trim(pattern) == "" || q.expr.None? {
      return Found([], None);
    }
    var e := q.expr.value;
    ParseSound(pattern);
    var spans := ComputeLineSpans(content);
    var lines := LinesAt(content, spans);
    var compiler := new Compiler();
    compiler.Compile(e, engine);
    var c := Compiled(compiler.lits, compiler.regexes);
    assert c == CompiledOf(e, engine);
    var (matched, tag) := Matched(q, e, c, engine, lines);
    MatchedBelow(q, e, c, engine, lines);
    var os := CollectOccurrences(e, c, engine, content, spans, lines, matched);
    AnchorsOrdered(e, engine, content, matched);
    found := Found(os, tag);
  }

  /** The search result: the page of the occurrence list that starts at `cursor`. */
  function Answer(id: string, content: string, found: Found, cursor: nat, k: nat, margin: nat): FindResult {
    var page := PageAt(ToMatches(content, margin, found.hits), cursor, k);
    FindResult(id, if cursor + |page| < |found.hits| then Some(cursor + |page|) else None, found.relaxation, page)
  }

  /** What one answer says: the document and the tag, a page of the matches from the
      cursor on, and a next cursor just behind it, exactly when some remain. */
  ghost predicate IsAnswer(r: FindResult, id: string, content: string, found: Found, cursor: nat, k: nat, margin: nat) {
    && r.id == id && r.relaxation == found.relaxation
    && IsPage(From(ToMatches(content, margin, found.hits), cursor), k, r.matches)
    && (r.nextCursor.Some? <==> cursor + |r.matches| < |found.hits|)
    && (r.nextCursor.Some? ==> r.nextCursor.value == cursor + |r.matches|)
  }

  lemma AnswerSays(id: string, content: string, found: Found, cursor: nat, k: nat, margin: nat)
    ensures IsAnswer(Answer(id, content, found, cursor, k, margin), id, content, found, cursor, k, margin)
  {
    hide ToMatches;
  }

  /** The page and cursor that the page loop yields make up the answer. */
  lemma PageAnswers(id: string, content: string, found: Found, cursor: nat, k: nat, margin: nat,
                    matches: seq<FindMatch>, next: Option<nat>)
    requires IsPage(From(ToMatches(content, margin, found.hits), cursor), k, matches)
    requires next == if cursor + |matches| < |found.hits| then Some(cursor + |matches|) else None
    ensures FindResult(id, next, found.relaxation, matches) == Answer(id, content, found, cursor, k, margin)
  {
    hide ToMatches, IsPage;
    PageDetermined(ToMatches(content, margin, found.hits), cursor, k, matches);
    hide PageAt;
  }

  method FindInDocument(id: string, content: string, pattern: string, cursor: nat, k: nat, margin: nat,
                        engine: RegexEngine) returns (r: FindResult)
    requires engine.Valid()
    ensures IsAnswer(r, id, content, Occurrences(content, pattern, engine), cursor, k, margin)
    ensures r == Answer(id, content, Occurrences(content, pattern, engine), cursor, k, margin)
  {
    hide *;
    var found := FindOccurrences(content, pattern, engine);
    var matches, next := Page(found.hits, content, cursor, k, margin);
    PageAnswers(id, content, found, cursor, k, margin, matches, next);
    r := FindResult(id, next, found.relaxation, matches);
    AnswerSays(id, content, found, cursor, k, margin);
  }

  /** An answer that names a next cursor moved forward, if pages may hold a match. */
  lemma AnswerAdvances(id: string, content: string, found: Found, cursor: nat, k: nat, margin: nat)
    requires k >= 1
    ensures
      var next := Answer(id, content, found, cursor, k, margin).nextCursor;
      next.Some? ==> cursor < next.value < |found.hits|
  {
    if cursor < |found.hits| {
      PageProgress(From(ToMatches(content, margin, found.hits), cursor), k);
    }
  }

  /** What a caller gets who asks again with each answer's own next cursor until an
      answer names none; that there is such a list is that the asking ends. */
  function Answers(id: string, content: string, found: Found, cursor: nat, k: nat, margin: nat): (rs: seq<FindResult>)
    requires k >= 1
    ensures rs != [] && rs[0] == Answer(id, content, found, cursor, k, margin)
    decreases |found.hits| - cursor
  {
    var r := Answer(id, content, found, cursor, k, margin);
    AnswerAdvances(id, content, found, cursor, k, margin);
    [r] + if r.nextCursor.Some? then Answers(id, content, found, r.nextCursor.value, k, margin) else []
  }

  /** The matches of a list of answers, in order. */
  function AllMatches(rs: seq<FindResult>): seq<FindMatch> {
    if rs == [] then [] else rs[0].matches + AllMatches(rs[1..])
  }

  /** Following the cursors loses nothing and repeats nothing, wherever the limits cut,
      and only the last answer names no next cursor. */
  lemma {:induction false} AnswersComplete(id: string, content: string, found: Found, cursor: nat, k: nat, margin: nat)
    requires k >= 1
    ensures
      var rs := Answers(id, content, found, cursor, k, margin);
      && AllMatches(rs) == From(ToMatches(content, margin, found.hits), cursor)
      && forall i :: 0 <= i < |rs| ==>
           rs[i].id == id && rs[i].relaxation == found.relaxation && (rs[i].nextCursor.None? <==> i == |rs| - 1)
    decreases |found.hits| - cursor
  {
    hide *;
    var r := Answer(id, content, found, cursor, k, margin);
    AnswersAre(id, content, found, cursor, k, margin);
    AnswerSays(id, content, found, cursor, k, margin);
    AnswerAdvances(id, content, found, cursor, k, margin);
    PageThenRest(id, content, found, cursor, k, margin);
    if r.nextCursor.Some? {
      var more := Answers(id, content, found, r.nextCursor.value, k, margin);
      AnswersComplete(id, content, found, r.nextCursor.value, k, margin);
      MatchesStep(r, more);
    } else {
      MatchesStep(r, []);
      NoAnswers();
      assert r.matches + [] == r.matches;
    }
  }

  lemma AnswersAre(id: string, content: string, found: Found, cursor: nat, k: nat, margin: nat)
    requires k >= 1
    ensures
      var r := Answer(id, content, found, cursor, k, margin);
      && r.id == id && r.relaxation == found.relaxation
      && Answers(id, content, found, cursor, k, margin) ==
         [r] + if r.nextCursor.Some? then Answers(id, content, found, r.nextCursor.value, k, margin) else []
  {
    hide PageAt, ToMatches;
  }

  /** An answer's page and what its next cursor leads to make up the rest of the list. */
  lemma PageThenRest(id: string, content: string, found: Found, cursor: nat, k: nat, margin: nat)
    ensures
      var ms := ToMatches(content, margin, found.hits);
      var r := Answer(id, content, found, cursor, k, margin);
      From(ms, cursor) == r.matches + if r.nextCursor.Some? then From(ms, r.nextCursor.value) else []
  {
    hide ToMatches;
    var ms := ToMatches(content, margin, found.hits);
    var n := |PageAt(ms, cursor, k)|;
    if cursor + n < |ms| {
      assert ms[cursor..] == ms[cursor..][..n] + ms[cursor + n..];
    }
  }

  lemma MatchesStep(r: FindResult, more: seq<FindResult>)
    ensures AllMatches([r] + more) == r.matches + AllMatches(more)
  {
    assert ([r] + more)[1..] == more;
  }

  lemma NoAnswers()
    ensures AllMatches([]) == []
  {
  }
}
