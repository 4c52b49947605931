/** Expansion of cron expressions. The cron library is an oracle for the next occurrence
    of an expression; instants are integers. */
module Cron {
  import opened Prelude

  /** The instants of an expression, and the search for the first of them at or after
      the cursor, or strictly after it. */
  datatype Schedule = Schedule(occurs: int -> bool, find: (int, bool) -> Option<int>)

  predicate Past(cursor: int, inclusive: bool, t: int) {
    if inclusive then cursor <= t else cursor < t
  }

  /** What the library promises: the least occurrence past the cursor, or none. */
  ghost predicate Oracle(s: Schedule) {
    && (forall c: int, i: bool :: s.find(c, i).Some? ==>
          var t := s.find(c, i).value;
          s.occurs(t) && Past(c, i, t) && forall u: int :: Past(c, i, u) && s.occurs(u) ==> t <= u)
    && (forall c: int, i: bool, u: int :: s.find(c, i).None? && Past(c, i, u) ==> !s.occurs(u))
  }

  // ------------------------------------------------------------ the expression

  /** Unicode white space. */
  predicate IsWhite(c: char) {
    || '\t' <= c <= '\r' || c == ' ' || c == '\U{85}' || c == '\U{A0}' || c == '\U{1680}'
    || '\U{2000}' <= c <= '\U{200A}' || c == '\U{2028}' || c == '\U{2029}' || c == '\U{202F}' || c == '\U{205F}'
    || c == '\U{3000}'
  }

  /** How many runs of other characters the text has. */
  function FieldCount(s: string): nat {
    if s == [] then 0
    else if IsWhite(s[0]) then FieldCount(s[1..])
    else if |s| == 1 || IsWhite(s[1]) then 1 + FieldCount(s[1..])
    else FieldCount(s[1..])
  }

  /** A field and the white space behind it. */
  datatype Piece = Piece(field: string, gap: string)

  predicate AllWhite(s: string) {
    forall c <- s :: IsWhite(c)
  }

  /** Fields that are not empty and hold no white space, some of it between any two. */
  predicate Spread(ps: seq<Piece>) {
    ps == []
    || (&& ps[0].field != "" && (forall c <- ps[0].field :: !IsWhite(c)) && AllWhite(ps[0].gap)
        && (|ps| > 1 ==> ps[0].gap != "") && Spread(ps[1..]))
  }

  function Written(ps: seq<Piece>): string {
    if ps == [] then "" else ps[0].field + (ps[0].gap + Written(ps[1..]))
  }

  lemma {:induction false} CountAfterWhite(gap: string, rest: string)
    requires AllWhite(gap)
    ensures FieldCount(gap + rest) == FieldCount(rest)
  {
    if gap == "" {
      assert gap + rest == rest;
    } else {
      assert (gap + rest)[1..] == gap[1..] + rest;
      assert IsWhite(gap[0]);
      CountAfterWhite(gap[1..], rest);
    }
  }

  lemma {:induction false} CountField(field: string, rest: string)
    requires field != "" && (forall c <- field :: !IsWhite(c)) && (rest == "" || IsWhite(rest[0]))
    ensures FieldCount(field + rest) == 1 + FieldCount(rest)
    decreases |field|
  {
    var s := field + rest;
    assert field[0] in field;
    assert s[1..] == field[1..] + rest;
    if |field| == 1 {
      assert field[1..] + rest == rest;
    } else {
      assert field[1] in field && s[1] == field[1];
      CountField(field[1..], rest);
    }
  }

  /** However fields are spread over a text, they are counted. */
  lemma {:induction false} FieldsCounted(lead: string, ps: seq<Piece>)
    requires AllWhite(lead) && Spread(ps)
    ensures FieldCount(lead + Written(ps)) == |ps|
    decreases |ps|
  {
    CountAfterWhite(lead, Written(ps));
    if ps != [] {
      var p, rest := ps[0], ps[1..];
      FieldsCounted(p.gap, rest);
      if p.gap != "" {
        assert p.gap[0] in p.gap;
      } else {
        assert rest == [];
      }
      CountField(p.field, p.gap + Written(rest));
    }
  }

  datatype CronError = BadTimezone | NotFiveFields(n: nat) | BadExpression | NoOccurrence
  datatype Result<+T> = Ok(value: T) | Err(error: CronError)

  /** The time zone database and the expression parser. */
  datatype Library = Library(zone: string -> bool, compile: (string, string) -> Option<Schedule>)

  ghost predicate Sound(lib: Library) {
    forall e: string, z: string :: lib.compile(e, z).Some? ==> Oracle(lib.compile(e, z).value)
  }

  function Compiled(lib: Library, expr: string, tz: string): Result<Schedule> {
    if !lib.zone(tz) then Err(BadTimezone)
    else if FieldCount(expr) != 5 then Err(NotFiveFields(FieldCount(expr)))
    else if lib.compile(expr, tz).None? then Err(BadExpression)
    else Ok(lib.compile(expr, tz).value)
  }

  /** The first occurrence strictly after `after`. */
  function NextFireAfter(lib: Library, expr: string, tz: string, after: int): Result<int> {
    var s := Compiled(lib, expr, tz);
    if s.Err? then Err(s.error)
    else
      var next := s.value.find(after, false);
      if next.None? then Err(NoOccurrence) else Ok(next.value)
  }

  // ------------------------------------------------------------- the expansion

  ghost predicate Ascending(out: seq<int>) {
    forall i, j :: 0 <= i < j < |out| ==> out[i] < out[j]
  }

  /** An occurrence in the half-open window. */
  predicate Within(s: Schedule, from: int, until: int, t: int) {
    from <= t < until && s.occurs(t)
  }

  /** The first occurrences of the window, in order: none missing before the last. */
  ghost predicate Leading(s: Schedule, from: int, until: int, out: seq<int>) {
    && Ascending(out)
    && (forall t <- out :: Within(s, from, until, t))
    && forall t :: Within(s, from, until, t) && |out| > 0 && t <= out[|out| - 1] ==> t in out
  }

  /** The cap that is really applied: one occurrence is returned even for zero. */
  function Cap(max: nat): nat {
    if max < 1 then 1 else max
  }

  ghost function Occurrences(s: Schedule, from: int, until: int): set<int> {
    set t: int | from <= t < until && Within(s, from, until, t)
  }

  /** The loop of the calendar preview. */
  method Expand(s: Schedule, from: int, until: int, max: nat) returns (out: seq<int>, truncated: bool)
    requires Oracle(s)
    ensures Leading(s, from, until, out)
    ensures |out| <= Cap(max) && (truncated <==> |out| == Cap(max))
    ensures !truncated ==> forall t :: Within(s, from, until, t) ==> t in out
  {
    out := [];
    var cursor, inclusive := from, true;
    while true
      invariant Leading(s, from, until, out) && |out| < Cap(max)
      invariant inclusive <==> out == []
      invariant cursor == if out == [] then from else out[|out| - 1]
      decreases until - cursor, inclusive
    {
      var next := s.find(cursor, inclusive);
      if next.None? || next.value >= until {
        ExhaustedAfter(s, from, until, out, next);
        return out, false;
      }
      LeadingGrows(s, from, until, out, next.value);
      out := out + [next.value];
      if |out| >= max {
        return out, true;
      }
      cursor, inclusive := next.value, false;
    }
  }

  lemma LeadingGrows(s: Schedule, from: int, until: int, out: seq<int>, t: int)
    requires Oracle(s) && Leading(s, from, until, out) && t < until
    requires s.find(if out == [] then from else out[|out| - 1], out == []) == Some(t)
    ensures Leading(s, from, until, out + [t])
  {
    var more := out + [t];
    if out != [] {
      assert out[|out| - 1] in out;
    }
    assert Within(s, from, until, t);
    forall u | Within(s, from, until, u) && u <= t
      ensures u in more
    {
      if u < t {
        assert !Past(if out == [] then from else out[|out| - 1], out == [], u);
        assert u in out;
      } else {
        assert more[|out|] == t;
      }
    }
  }

  lemma ExhaustedAfter(s: Schedule, from: int, until: int, out: seq<int>, next: Option<int>)
    requires Oracle(s) && Leading(s, from, until, out)
    requires s.find(if out == [] then from else out[|out| - 1], out == []) == next
    requires next.None? || next.value >= until
    ensures forall t :: Within(s, from, until, t) ==> t in out
  {
    forall t | Within(s, from, until, t)
      ensures t in out
    {
      assert !Past(if out == [] then from else out[|out| - 1], out == [], t);
    }
  }

  lemma {:induction false} AscendingSize(out: seq<int>)
    requires Ascending(out)
    ensures |set t | t in out| == |out|
    decreases |out|
  {
    if out == [] {
      assert (set t | t in out) == {};
    } else {
      var init := out[..|out| - 1];
      var last := out[|out| - 1];
      AscendingSize(init);
      assert out == init + [last];
      assert (set t | t in out) == (set t | t in init) + {last};
      assert last !in init;
    }
  }

  /** What the loop promises fixes its result: as many occurrences as there are, up to
      the cap. */
  lemma LeadingCount(s: Schedule, from: int, until: int, out: seq<int>, max: nat, truncated: bool)
    requires Leading(s, from, until, out) && |out| <= Cap(max) && (truncated <==> |out| == Cap(max))
    requires !truncated ==> forall t :: Within(s, from, until, t) ==> t in out
    ensures
      var count := |Occurrences(s, from, until)|;
      |out| == (if count < Cap(max) then count else Cap(max)) && (truncated <==> count >= Cap(max))
  {
    var all := Occurrences(s, from, until);
    var some := set t | t in out;
    AscendingSize(out);
    assert some <= all;
    SubsetSize(some, all);
    if !truncated {
      assert all <= some;
      assert all == some;
    }
  }

  lemma {:induction false} SubsetSize(a: set<int>, b: set<int>)
    requires a <= b
    ensures |a| <= |b|
  {
    assert b == a + (b - a);
    assert |b| == |a| + |b - a|;
  }

  /** Two leading lists of one length are the same. */
  lemma {:induction false} LeadingUnique(s: Schedule, from: int, until: int, a: seq<int>, b: seq<int>)
    requires Leading(s, from, until, a) && Leading(s, from, until, b) && |a| == |b|
    ensures a == b
    decreases |a|
  {
    if a != [] {
      var m, n := a[|a| - 1], b[|b| - 1];
      LeadingInit(s, from, until, a);
      LeadingInit(s, from, until, b);
      LeadingUnique(s, from, until, a[..|a| - 1], b[..|b| - 1]);
      assert m !in a[..|a| - 1] && n !in b[..|b| - 1];
      assert a == a[..|a| - 1] + [m] && b == b[..|b| - 1] + [n];
      assert m in a && n in b;
      assert m <= n ==> m in b;
      assert n <= m ==> n in a;
    }
  }

  lemma LeadingInit(s: Schedule, from: int, until: int, out: seq<int>)
    requires Leading(s, from, until, out) && out != []
    ensures Leading(s, from, until, out[..|out| - 1])
  {
    var init := out[..|out| - 1];
    assert out == init + [out[|out| - 1]];
    forall t | Within(s, from, until, t) && |init| > 0 && t <= init[|init| - 1]
      ensures t in init
    {
      assert t in out && t < out[|out| - 1];
    }
  }

  lemma NoneBetween(out: seq<int>, i: nat, t: int)
    requires Ascending(out) && i + 1 < |out| && out[i] < t < out[i + 1]
    ensures t !in out
  {
    forall k | 0 <= k < |out|
      ensures out[k] != t
    {
      if k <= i {
        assert out[k] <= out[i];
      } else {
        assert out[i + 1] <= out[k];
      }
    }
  }

  /** Each occurrence after the first is the next fire after the one before: previewing
      and firing step through the same instants. */
  lemma PreviewSteps(lib: Library, expr: string, tz: string, from: int, until: int, out: seq<int>, i: nat)
    requires Sound(lib) && Compiled(lib, expr, tz).Ok?
    requires Leading(Compiled(lib, expr, tz).value, from, until, out) && i + 1 < |out|
    ensures NextFireAfter(lib, expr, tz, out[i]) == Ok(out[i + 1])
  {
    var s := Compiled(lib, expr, tz).value;
    assert out[i] in out && out[i + 1] in out;
    assert Past(out[i], false, out[i + 1]);
    var next := s.find(out[i], false);
    assert next.Some? && next.value <= out[i + 1];
    if next.value < out[i + 1] {
      assert out[i + 1] <= out[|out| - 1];
      NoneBetween(out, i, next.value);
    }
  }

  /** Truncation is also reported when the cap took the window's last occurrence: the
      flag means "more exist" except in exactly that case. */
  lemma TruncationExact(s: Schedule, from: int, until: int, out: seq<int>, max: nat, truncated: bool)
    requires Leading(s, from, until, out) && |out| <= Cap(max) && (truncated <==> |out| == Cap(max))
    requires !truncated ==> forall t :: Within(s, from, until, t) ==> t in out
    ensures
      (truncated <==> exists t :: Within(s, from, until, t) && t !in out) <==> |Occurrences(s, from, until)| != Cap(max)
  {
    LeadingCount(s, from, until, out, max, truncated);
    var all := Occurrences(s, from, until);
    var some := set t | t in out;
    AscendingSize(out);
    assert some <= all;
    if truncated {
      if |all| == Cap(max) {
        assert all - some == {} by {
          SubsetSize(some, all);
          assert |all - some| == |all| - |some|;
        }
        assert forall t :: Within(s, from, until, t) ==> t in all;
      } else {
        assert |all - some| == |all| - |some|;
        var t :| t in all - some;
        assert Within(s, from, until, t) && t !in out;
      }
    }
  }

  method OccurrencesBetween(lib: Library, expr: string, tz: string, from: int, until: int, max: nat)
    returns (result: Result<(seq<int>, bool)>)
    requires Sound(lib)
    ensures result == Err(BadTimezone) <==> !lib.zone(tz)
    ensures result.Err? && result.error.NotFiveFields? <==> lib.zone(tz) && FieldCount(expr) != 5
    ensures result == Err(BadExpression) <==>
              lib.zone(tz) && FieldCount(expr) == 5 && lib.compile(expr, tz).None?
    ensures result.Err? <==> Compiled(lib, expr, tz).Err?
    ensures result.Err? ==> result.error == Compiled(lib, expr, tz).error
    ensures result.Ok? ==>
              var s := Compiled(lib, expr, tz).value;
              && Leading(s, from, until, result.value.0)
              && |result.value.0| <= Cap(max) && (result.value.1 <==> |result.value.0| == Cap(max))
              && (!result.value.1 ==> forall t :: Within(s, from, until, t) ==> t in result.value.0)
  {
    var s := Compiled(lib, expr, tz);
    if s.Err? {
      return Err(s.error);
    }
    var out, truncated := Expand(s.value, from, until, max);
    return Ok((out, truncated));
  }
}
