/** Printing and reading of schedules undo each other where a caller may expect it. */
module ScheduleRoundTrip {
  import opened Prelude
  import opened Decimal
  import opened Text
  import opened SchedulePicker

  // ----------------------------------------------------------- lines of fields

  predicate Solid(s: string) {
    s != [] && forall i :: 0 <= i < |s| ==> !IsSpace(s[i])
  }

  predicate AllSolid(f: Fields) {
    Solid(f.m) && Solid(f.h) && Solid(f.dom) && Solid(f.mon) && Solid(f.dow)
  }

  lemma FirstSpaceIs(s: string, e: nat)
    requires e <= |s| && (forall i :: 0 <= i < e ==> !IsSpace(s[i])) && (e < |s| ==> IsSpace(s[e]))
    ensures FirstSpace(s) == e
  {
    hide IsSpace;
  }

  lemma WordsFirst(a: string, rest: string)
    requires Solid(a) && rest != [] && !IsSpace(rest[0])
    ensures Words(a + ([' '] + rest)) == [a] + Words(rest)
  {
    var s := a + ([' '] + rest);
    assert IsSpace(' ');
    hide IsSpace;
    FirstSpaceIs(s, |a|);
    assert s[..|a|] == a && s[|a|..] == [' '] + rest;
    assert ([' '] + rest)[1..] == rest;
    assert TrimStart([' '] + rest) == rest;
  }

  lemma WordsLast(a: string)
    requires Solid(a)
    ensures Words(a) == [a]
  {
    FirstSpaceIs(a, |a|);
  }

  /** The words of a line, and its ends. */
  lemma LineWords(f: Fields)
    requires AllSolid(f)
    ensures
      var s := Line(f.m, f.h, f.dom, f.mon, f.dow);
      && s != [] && StartsClean(s) && EndsClean(s)
      && Words(s) == [f.m, f.h, f.dom, f.mon, f.dow]
  {
    hide IsSpace, Words;
    var d := f.mon + ([' '] + f.dow);
    var c := f.dom + ([' '] + d);
    var b := f.h + ([' '] + c);
    var s := f.m + ([' '] + b);
    assert Line(f.m, f.h, f.dom, f.mon, f.dow) == s;
    WordsLast(f.dow);
    assert d[0] == f.mon[0] && c[0] == f.dom[0] && b[0] == f.h[0] && s[0] == f.m[0];
    assert s[|s| - 1] == f.dow[|f.dow| - 1];
    WordsFirst(f.mon, f.dow);
    WordsFirst(f.dom, d);
    WordsFirst(f.h, c);
    WordsFirst(f.m, b);
  }

  lemma FieldsOfLine(f: Fields)
    requires AllSolid(f)
    ensures Line(f.m, f.h, f.dom, f.mon, f.dow) != []
    ensures FieldsOf(Line(f.m, f.h, f.dom, f.mon, f.dow)) == Some(f)
  {
    LineWords(f);
    TrimExact(Line(f.m, f.h, f.dom, f.mon, f.dow));
    hide Words, Trim, Line;
  }

  // ------------------------------------------------------------ kinds of items

  /** A digit string is a number and a list, and nothing else. */
  lemma NumberIsNumber(s: string)
    requires s != [] && AllDigits(s)
    ensures Solid(s) && NumberItem(s) == Some(Number(s))
    ensures StepItem(s).None? && NthItem(s).None? && LastItem(s).None? && IsList(s)
    ensures s != "*" && s != "L"
  {
    assert IsDigit(s[0]) && IsDigit(s[|s| - 1]);
    assert IndexOf(s, '#') == |s|;
  }

  lemma DigitsItem(n: nat)
    ensures Solid(Digits(n)) && NumberItem(Digits(n)) == Some(n)
    ensures StepItem(Digits(n)).None? && NthItem(Digits(n)).None? && LastItem(Digits(n)).None?
    ensures Digits(n) != "*" && Digits(n) != "L"
  {
    NumberIsNumber(Digits(n));
    NumberDigits(n);
  }

  lemma StepPrinted(n: nat)
    ensures StepItem("*/" + Digits(n)) == Some(n) && Solid("*/" + Digits(n)) && NumberItem("*/" + Digits(n)).None?
  {
    var s := "*/" + Digits(n);
    DigitsItem(n);
    assert s[2..] == Digits(n);
    assert !IsDigit(s[0]);
  }

  lemma NthPrinted(d: nat, n: nat)
    ensures
      var s := Digits(d) + "#" + Digits(n);
      NthItem(s) == Some((d, n)) && Solid(s) && s != "*"
  {
    var s := Digits(d) + "#" + Digits(n);
    DigitsItem(d);
    DigitsItem(n);
    IndexOfIs(s, '#', |Digits(d)|);
    assert s[..|Digits(d)|] == Digits(d) && s[|Digits(d)| + 1..] == Digits(n);
  }

  lemma LastPrinted(d: nat)
    ensures
      var s := Digits(d) + "L";
      LastItem(s) == Some(d) && NthItem(s).None? && Solid(s) && s != "*"
  {
    var s := Digits(d) + "L";
    DigitsItem(d);
    IndexOfIs(s, '#', |s|);
    assert s[..|s| - 1] == Digits(d);
  }

  // ------------------------------------------------------------ weekday lists

  predicate IsName(s: string) {
    s != [] && AllDigits(s) && Number(s) <= 6
  }

  lemma {:induction false} AscendingNames(days: set<Weekday>, d: nat, i: nat)
    requires d <= 7 && i < |Ascending(days, d)|
    ensures IsName(Ascending(days, d)[i])
    decreases 7 - d
  {
    var first := if d in days then [Digits(d)] else [];
    assert Ascending(days, d) == first + Ascending(days, d + 1);
    hide Ascending, Number, Digits, AllDigits;
    if i < |first| {
      NumberDigits(d);
    } else {
      AscendingNames(days, d + 1, i - |first|);
    }
  }

  ghost predicate AllNames(pieces: seq<string>) {
    forall i :: 0 <= i < |pieces| ==> IsName(pieces[i])
  }

  lemma AllAscendingNames(days: set<Weekday>, d: nat)
    requires d <= 7
    ensures AllNames(Ascending(days, d))
  {
    forall i | 0 <= i < |Ascending(days, d)|
      ensures IsName(Ascending(days, d)[i])
    {
      AscendingNames(days, d, i);
    }
  }

  lemma DaysOfFirst(d: Weekday, rest: seq<string>)
    requires AllNames(rest)
    ensures AllNames([Digits(d)] + rest) && DaysOf([Digits(d)] + rest) == {d} + DaysOf(rest)
  {
    NumberDigits(d);
    hide Digits, Number;
    assert ([Digits(d)] + rest)[1..] == rest;
  }

  /** The days of the list of names, from `d` on. */
  function From(days: set<Weekday>, d: nat): set<Weekday> {
    set x | x in days && x >= d
  }

  lemma {:induction false} AscendingDays(days: set<Weekday>, d: nat)
    requires d <= 7
    ensures AllNames(Ascending(days, d)) && DaysOf(Ascending(days, d)) == From(days, d)
    decreases 7 - d
  {
    AllAscendingNames(days, d);
    if d < 7 {
      AscendingDays(days, d + 1);
      assert Ascending(days, d) == (if d in days then [Digits(d)] else []) + Ascending(days, d + 1);
      assert From(days, d) == (if d in days then {d} else {}) + From(days, d + 1);
      hide *;
      if d in days {
        DaysOfFirst(d, Ascending(days, d + 1));
      } else {
        assert [] + Ascending(days, d + 1) == Ascending(days, d + 1);
      }
    }
  }

  lemma SelectedNames(days: set<Weekday>)
    requires days != {}
    ensures Ascending(days, 0) != [] && AllNames(Ascending(days, 0)) && DaysOf(Ascending(days, 0)) == days
  {
    AscendingDays(days, 0);
    assert From(days, 0) == days;
    hide Ascending;
  }

  /** What a printed list stands for: Monday when nothing is selected. */
  function Implied(days: set<Weekday>): set<Weekday> {
    if days == {} then {WEEKDAY_FALLBACK} else days
  }

  /** A list of digit strings, joined by commas. */
  lemma {:induction false} JoinedList(names: seq<string>)
    requires names != [] && forall i :: 0 <= i < |names| ==> names[i] != [] && AllDigits(names[i])
    ensures IsList(Join(names, ',')) && Split(Join(names, ','), ',') == names
  {
    forall i | 0 <= i < |names|
      ensures ',' !in names[i]
    {
    }
    SplitJoin(names, ',');
    if |names| > 1 {
      JoinedList(names[1..]);
    }
  }

  lemma ListIsList(s: string)
    requires IsList(s)
    ensures Solid(s) && NthItem(s).None? && LastItem(s).None? && s != "*"
  {
    IndexOfIs(s, '#', |s|);
    assert IsDigit(s[|s| - 1]) || s[|s| - 1] == ',';
    assert IsDigit(s[0]) || s[0] == ',';
  }

  lemma NamesJoined(days: set<Weekday>) returns (names: seq<string>)
    ensures names != [] && AllNames(names) && DaysOf(names) == Implied(days) && WeekdayList(days) == Join(names, ',')
  {
    if days == {} {
      names := [Digits(1)];
      NumberDigits(1);
      assert [Digits(1)][1..] == [];
    } else {
      names := Ascending(days, 0);
      SelectedNames(days);
    }
  }

  lemma ListPrinted(days: set<Weekday>)
    ensures
      var s := WeekdayList(days);
      && IsList(s) && NthItem(s).None? && LastItem(s).None? && Solid(s) && s != "*"
      && AllNames(Split(s, ',')) && DaysOf(Split(s, ',')) == Implied(days)
  {
    var names := NamesJoined(days);
    hide WeekdayList, DaysOf, Implied, Ascending, Split, Join;
    JoinedList(names);
    ListIsList(WeekdayList(days));
  }

  // --------------------------------------------------------------- the states

  /** What printing and reading makes of a state's own fields. */
  function Clamped(s: State): State {
    s.(minuteInterval := AtLeastOne(s.minuteInterval),
       interval := AtLeastOne(s.interval),
       weekdays := Implied(s.weekdays),
       nth := AtLeastOne(if s.nth > 5 then 5 else s.nth))
  }

  /** Two states alike in every field their unit uses. */
  predicate Agree(s: State, t: State) {
    s.unit == t.unit &&
    match s.unit
    case Minute => s.minuteInterval == t.minuteInterval
    case Hour => s.interval == t.interval
    case Day => s.hour == t.hour && s.minute == t.minute
    case Week => s.hour == t.hour && s.minute == t.minute && s.weekdays == t.weekdays
    case Month =>
      && s.hour == t.hour && s.minute == t.minute && s.monthlyMode == t.monthlyMode
      && (if s.monthlyMode.ByDay? then s.lastDay == t.lastDay && (s.lastDay || s.dayOfMonth == t.dayOfMonth)
          else s.nthLast == t.nthLast && s.nthWeekday == t.nthWeekday && (s.nthLast || s.nth == t.nth))
    case Custom => s.customExpr == t.customExpr
  }

  /** The values the picker's own controls give the fields in use. */
  predicate Canonical(s: State) {
    match s.unit
    case Minute => s.minuteInterval >= 1
    case Hour => s.interval >= 1
    case Week => s.weekdays != {}
    case Month => s.monthlyMode.ByWeekday? && !s.nthLast ==> 1 <= s.nth <= 5
    case _ => true
  }

  /** What a state prints has the shape of a line, and parses to that state. */
  ghost predicate Reads(s: State, base: State)
    requires !s.unit.Custom?
  {
    && AllSolid(Printed(s))
    && var parsed := ParseFields(Printed(s), base);
       parsed.Some? && Agree(parsed.value, Clamped(s)) && parsed.value.tz == base.tz
  }

  /** The literal fields. */
  lemma Literals()
    ensures Solid("*") && Solid("0") && Solid("L")
    ensures NumberItem("*").None? && NumberItem("L").None? && StepItem("*").None? && StepItem("0").None?
  {
  }

  lemma MinuteReads(s: State, base: State)
    requires s.unit.Minute?
    ensures Reads(s, base)
  {
    Literals();
    StepPrinted(AtLeastOne(s.minuteInterval));
    hide StepItem, NumberItem, Solid, Digits;
  }

  lemma HourReads(s: State, base: State)
    requires s.unit.Hour?
    ensures Reads(s, base)
  {
    Literals();
    StepPrinted(AtLeastOne(s.interval));
    hide StepItem, NumberItem, Solid, Digits;
  }

  lemma DayReads(s: State, base: State)
    requires s.unit.Day?
    ensures Reads(s, base)
  {
    Literals();
    DigitsItem(s.minute);
    DigitsItem(s.hour);
    hide StepItem, NumberItem, Solid, Digits;
  }

  /** Fields of a state that names its time of day. */
  lemma TimedParses(f: Fields, minute: nat, hour: nat, base: State)
    requires f.m == Digits(minute) && f.h == Digits(hour) && f.mon == "*"
    ensures ParseFields(f, base) == ParseTimed(f.dom, f.dow, base.(hour := hour, minute := minute))
  {
    DigitsItem(minute);
    DigitsItem(hour);
    hide StepItem, NumberItem, ParseTimed, Digits;
  }

  lemma ListTimed(days: set<Weekday>, timed: State)
    ensures ParseTimed("*", WeekdayList(days), timed) == Some(timed.(unit := Week, weekdays := Implied(days)))
    ensures Solid(WeekdayList(days))
  {
    ListPrinted(days);
    hide WeekdayList, IsList, NthItem, LastItem, Solid, Implied;
  }

  lemma NthTimed(d: nat, n: nat, timed: State)
    ensures ParseTimed("*", Digits(d) + "#" + Digits(n), timed) ==
            Some(timed.(unit := Month, monthlyMode := ByWeekday, nthWeekday := d, nth := n))
    ensures Solid(Digits(d) + "#" + Digits(n))
  {
    NthPrinted(d, n);
    hide NthItem, Digits;
  }

  lemma LastTimed(d: nat, timed: State)
    ensures ParseTimed("*", Digits(d) + "L", timed) ==
            Some(timed.(unit := Month, monthlyMode := ByWeekday, nthWeekday := d, nthLast := true))
    ensures Solid(Digits(d) + "L")
  {
    LastPrinted(d);
    hide NthItem, LastItem, Digits;
  }

  lemma DayTimed(n: nat, timed: State)
    ensures ParseTimed(Digits(n), "*", timed) == Some(timed.(unit := Month, monthlyMode := ByDay, dayOfMonth := n))
    ensures ParseTimed("L", "*", timed) == Some(timed.(unit := Month, monthlyMode := ByDay, lastDay := true))
  {
    DigitsItem(n);
    Literals();
    hide NumberItem, Digits;
  }

  lemma WeekReads(s: State, base: State)
    requires s.unit.Week?
    ensures Reads(s, base)
  {
    Literals();
    DigitsItem(s.minute);
    DigitsItem(s.hour);
    hide Digits, WeekdayList, ParseFields, Implied, ParseTimed, Solid;
    TimedParses(Printed(s), s.minute, s.hour, base);
    ListTimed(s.weekdays, base.(hour := s.hour, minute := s.minute));
  }

  lemma MonthDayReads(s: State, base: State)
    requires s.unit.Month? && s.monthlyMode.ByDay? && !base.lastDay
    ensures Reads(s, base)
  {
    Literals();
    DigitsItem(s.minute);
    DigitsItem(s.hour);
    DigitsItem(s.dayOfMonth);
    hide Digits, ParseFields, ParseTimed, Solid;
    TimedParses(Printed(s), s.minute, s.hour, base);
    DayTimed(s.dayOfMonth, base.(hour := s.hour, minute := s.minute));
  }

  lemma MonthWeekdayReads(s: State, base: State)
    requires s.unit.Month? && s.monthlyMode.ByWeekday? && !base.nthLast
    ensures Reads(s, base)
  {
    Literals();
    DigitsItem(s.minute);
    DigitsItem(s.hour);
    hide Digits, ParseFields, ParseTimed, Solid;
    TimedParses(Printed(s), s.minute, s.hour, base);
    var timed := base.(hour := s.hour, minute := s.minute);
    if s.nthLast {
      LastTimed(s.nthWeekday, timed);
    } else {
      NthTimed(s.nthWeekday, Clamped(s).nth, timed);
    }
  }

  lemma PrintedReads(s: State, tz: string, expr: string)
    requires !s.unit.Custom?
    ensures Reads(s, DefaultState(tz, expr))
  {
    var base := DefaultState(tz, expr);
    hide Reads;
    match s.unit
    case Minute => MinuteReads(s, base);
    case Hour => HourReads(s, base);
    case Day => DayReads(s, base);
    case Week => WeekReads(s, base);
    case Month =>
      if s.monthlyMode.ByDay? {
        MonthDayReads(s, base);
      } else {
        MonthWeekdayReads(s, base);
      }
  }

  /** Reading a printed state back gives every field it uses, clamped. */
  lemma ParsePrinted(s: State, tz: string)
    requires !s.unit.Custom?
    ensures Agree(ParseCron(SpecToCron(s), tz), Clamped(s)) && ParseCron(SpecToCron(s), tz).tz == tz
  {
    PrintedReads(s, tz, SpecToCron(s));
    FieldsOfLine(Printed(s));
    hide ParseFields, Printed, Line, Agree, FieldsOf;
  }

  /** So a state comes back as it was exactly when its controls could have made it. */
  lemma ParsePrintExact(s: State, tz: string)
    requires !s.unit.Custom?
    ensures Agree(ParseCron(SpecToCron(s), tz), s) <==> Canonical(s)
  {
    ParsePrinted(s, tz);
    hide ParseCron, SpecToCron;
  }

  /** Printing looks only at the fields in use, and clamps them itself. */
  lemma PrintingClamps(s: State, t: State)
    requires Agree(t, Clamped(s))
    ensures SpecToCron(t) == SpecToCron(s)
  {
    hide Line, Digits;
  }

  /** An expression the picker does not know is kept as it is. */
  lemma CustomKept(expr: string, tz: string)
    requires ParseCron(expr, tz).unit.Custom?
    ensures SpecToCron(ParseCron(expr, tz)) == expr
  {
  }

  /** Opening an expression in the picker and saving it a second time changes nothing
      more, whatever the expression. */
  lemma RewriteIdempotent(expr: string, tz: string)
    ensures
      var once := SpecToCron(ParseCron(expr, tz));
      SpecToCron(ParseCron(once, tz)) == once
  {
    var s := ParseCron(expr, tz);
    if s.unit.Custom? {
      CustomKept(expr, tz);
    } else {
      ParsePrinted(s, tz);
      PrintingClamps(s, ParseCron(SpecToCron(s), tz));
    }
  }

  /** A bare star for the minutes, or for the hours of a zeroth minute, opens as the
      interval of one, like the step it abbreviates. */
  lemma ShorthandOpens(base: State)
    ensures
      var star := "*";
      && ParseFields(Fields(star, star, star, star, star), base) == Some(base.(unit := Minute, minuteInterval := 1))
      && ParseFields(Fields("*/1", star, star, star, star), base) == Some(base.(unit := Minute, minuteInterval := 1))
      && ParseFields(Fields("0", star, star, star, star), base) == Some(base.(unit := Hour, interval := 1))
      && ParseFields(Fields("0", "*/1", star, star, star), base) == Some(base.(unit := Hour, interval := 1))
  {
    var one, star := "*/1", "*";
    assert one[2..] == "1" == Digits(1);
    StepPrinted(1);
    assert "*/" + Digits(1) == one;
    assert StepItem(one) == Some(1);
    assert StepItem(star).None? && StepItem("0").None?;
  }

  /** Nothing at all opens as nine o'clock every day. */
  lemma EmptyIsNine(tz: string)
    ensures SpecToCron(ParseCron([], tz)) == "0 9 * * *" && !ParseCron([], tz).unit.Custom?
  {
    assert Digits(0) == "0" && Digits(9) == "9";
  }
}
