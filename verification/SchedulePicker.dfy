/** The schedule picker: recurrence states printed as five-field cron expressions and
    read back from them. */
module SchedulePicker {
  import opened Prelude
  import opened Decimal
  import opened Text

  datatype Unit = Minute | Hour | Day | Week | Month | Custom
  datatype MonthlyMode = ByDay | ByWeekday

  type Weekday = d: nat | d < 7

  datatype State = State(
    unit: Unit,
    minuteInterval: nat,
    interval: nat,
    hour: nat,
    minute: nat,
    weekdays: set<Weekday>,
    monthlyMode: MonthlyMode,
    dayOfMonth: nat,
    lastDay: bool,
    nth: nat,
    nthLast: bool,
    nthWeekday: nat,
    customExpr: string,
    tz: string)

  const WEEKDAY_FALLBACK: Weekday := 1

  function DefaultState(tz: string, expr: string): State {
    State(Day, 5, 1, 9, 0, {1, 2, 3, 4, 5}, ByDay, 1, false, 1, false, 1, if expr == [] then "0 9 * * *" else expr, tz)
  }

  // ---------------------------------------------------------------- printing

  function AtLeastOne(n: nat): nat {
    if n < 1 then 1 else n
  }

  /** The selected weekdays from `d` on, in ascending order. */
  function Ascending(days: set<Weekday>, d: nat): (names: seq<string>)
    requires d <= 7
    decreases 7 - d
  {
    if d == 7 then []
    else (if d in days then [Digits(d)] else []) + Ascending(days, d + 1)
  }

  function WeekdayList(days: set<Weekday>): string {
    if days == {} then Digits(WEEKDAY_FALLBACK) else Join(Ascending(days, 0), ',')
  }

  function Line(m: string, h: string, dom: string, mon: string, dow: string): string {
    m + [' '] + (h + [' '] + (dom + [' '] + (mon + [' '] + dow)))
  }

  /** The five fields of a state that is not custom. */
  datatype Fields = Fields(m: string, h: string, dom: string, mon: string, dow: string)

  function Printed(s: State): Fields
    requires !s.unit.Custom?
  {
    match s.unit
    case Minute => Fields("*/" + Digits(AtLeastOne(s.minuteInterval)), "*", "*", "*", "*")
    case Hour => Fields("0", "*/" + Digits(AtLeastOne(s.interval)), "*", "*", "*")
    case Day => Fields(Digits(s.minute), Digits(s.hour), "*", "*", "*")
    case Week => Fields(Digits(s.minute), Digits(s.hour), "*", "*", WeekdayList(s.weekdays))
    case Month =>
      if s.monthlyMode.ByDay? then
        Fields(Digits(s.minute), Digits(s.hour), if s.lastDay then "L" else Digits(s.dayOfMonth), "*", "*")
      else if s.nthLast then
        Fields(Digits(s.minute), Digits(s.hour), "*", "*", Digits(s.nthWeekday) + "L")
      else
        Fields(Digits(s.minute), Digits(s.hour), "*", "*",
               Digits(s.nthWeekday) + "#" + Digits(AtLeastOne(if s.nth > 5 then 5 else s.nth)))
  }

  function SpecToCron(s: State): string {
    if s.unit.Custom? then s.customExpr
    else var f := Printed(s); Line(f.m, f.h, f.dom, f.mon, f.dow)
  }

  // ----------------------------------------------------------------- parsing

  function FirstSpace(s: string): (e: nat)
    ensures e <= |s| && (forall i :: 0 <= i < e ==> !IsSpace(s[i])) && (e < |s| ==> IsSpace(s[e]))
  {
    if s == [] || IsSpace(s[0]) then 0 else 1 + FirstSpace(s[1..])
  }

  /** Splitting at runs of white space. */
  function Words(s: string): (words: seq<string>)
    decreases |s|
  {
    var e := FirstSpace(s);
    TrimStartExact(s[e..]);
    if e == |s| then [s] else [s[..e]] + Words(TrimStart(s[e..]))
  }

  /** `\d+` */
  function NumberItem(s: string): Option<nat> {
    if s != [] && AllDigits(s) then Some(Number(s)) else None
  }

  /** `*` `/` `\d+` */
  function StepItem(s: string): Option<nat> {
    if |s| >= 2 && s[0] == '*' && s[1] == '/' then NumberItem(s[2..]) else None
  }

  /** `\d+#\d+` */
  function NthItem(s: string): Option<(nat, nat)> {
    var e := IndexOf(s, '#');
    if e == |s| then None
    else
      var d, n := NumberItem(s[..e]), NumberItem(s[e + 1..]);
      if d.Some? && n.Some? then Some((d.value, n.value)) else None
  }

  /** `\d+L` */
  function LastItem(s: string): Option<nat> {
    if s != [] && s[|s| - 1] == 'L' then NumberItem(s[..|s| - 1]) else None
  }

  /** `[\d,]+` */
  predicate IsList(s: string) {
    s != [] && forall i :: 0 <= i < |s| ==> IsDigit(s[i]) || s[i] == ','
  }

  /** The weekdays in a list; an empty piece counts as zero, numbers beyond six are
      dropped. */
  function DaysOf(pieces: seq<string>): (days: set<Weekday>)
    requires forall i :: 0 <= i < |pieces| ==> AllDigits(pieces[i])
  {
    if pieces == [] then {}
    else
      var n := Number(pieces[0]);
      (if n <= 6 then {n} else {}) + DaysOf(pieces[1..])
  }

  lemma {:induction false} ListPieces(s: string)
    requires forall i :: 0 <= i < |s| ==> IsDigit(s[i]) || s[i] == ','
    ensures forall i :: 0 <= i < |Split(s, ',')| ==> AllDigits(Split(s, ',')[i])
    decreases |s|
  {
    var e := IndexOf(s, ',');
    if e < |s| {
      ListPieces(s[e + 1..]);
    }
  }

  /** The forms that name a time of day, told apart by their two day fields. */
  function ParseTimed(dom: string, dow: string, timed: State): Option<State> {
    if dom == "*" && dow == "*" then Some(timed.(unit := Day))
    else if dom == "*" && NthItem(dow).Some? then
      Some(timed.(unit := Month, monthlyMode := ByWeekday,
                  nthWeekday := NthItem(dow).value.0, nth := NthItem(dow).value.1))
    else if dom == "*" && LastItem(dow).Some? then
      Some(timed.(unit := Month, monthlyMode := ByWeekday, nthWeekday := LastItem(dow).value, nthLast := true))
    else if dom == "*" && IsList(dow) then
      ListPieces(dow);
      Some(timed.(unit := Week, weekdays := DaysOf(Split(dow, ','))))
    else if NumberItem(dom).Some? && dow == "*" then
      Some(timed.(unit := Month, monthlyMode := ByDay, dayOfMonth := NumberItem(dom).value))
    else if dom == "L" && dow == "*" then
      Some(timed.(unit := Month, monthlyMode := ByDay, lastDay := true))
    else None
  }

  /** None when the fields are none of the picker's own. */
  function ParseFields(f: Fields, base: State): Option<State> {
    var minute, hour := NumberItem(f.m), NumberItem(f.h);
    if StepItem(f.m).Some? && f.h == f.dom == f.mon == f.dow == "*" then
      Some(base.(unit := Minute, minuteInterval := StepItem(f.m).value))
    else if f.m == f.h == f.dom == f.mon == f.dow == "*" then
      Some(base.(unit := Minute, minuteInterval := 1))
    else if f.m == "0" && StepItem(f.h).Some? && f.dom == f.mon == f.dow == "*" then
      Some(base.(unit := Hour, interval := StepItem(f.h).value))
    else if f.m == "0" && f.h == f.dom == f.mon == f.dow == "*" then
      Some(base.(unit := Hour, interval := 1))
    else if minute.Some? && hour.Some? && f.mon == "*" then
      ParseTimed(f.dom, f.dow, base.(hour := hour.value, minute := minute.value))
    else None
  }

  function FieldsOf(expr: string): Option<Fields> {
    var parts := Words(Trim(expr));
    if |parts| != 5 then None else Some(Fields(parts[0], parts[1], parts[2], parts[3], parts[4]))
  }

  function ParseCron(expr: string, tz: string): State {
    var fallback := DefaultState(tz, expr);
    if expr == [] then fallback
    else
      var f := FieldsOf(expr);
      var parsed := if f.Some? then ParseFields(f.value, fallback) else None;
      if parsed.Some? then parsed.value else fallback.(unit := Custom, customExpr := expr)
  }
}
