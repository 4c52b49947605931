/** When a schedule fires: the crontab of IEEE Std 1003.1 with the steps `*` `/N`, the
    weekday forms `d#n` and `dL`, the last day `L`, and 7 as a second name of Sunday. */
module ScheduleMeaning {
  import opened Prelude
  import opened Decimal
  import opened Text
  import opened SchedulePicker
  import opened ScheduleRoundTrip

  /** A minute of the calendar; the first day of the month is 1, Sunday is 0. */
  datatype Moment = Moment(minute: nat, hour: nat, day: nat, month: nat, weekday: nat, monthLength: nat)

  predicate Real(t: Moment) {
    t.minute < 60 && t.hour < 24 && 1 <= t.day <= t.monthLength <= 31 && 1 <= t.month <= 12 && t.weekday < 7
  }

  /** `\d+-\d+` */
  function RangeItem(s: string): Option<(nat, nat)> {
    var e := IndexOf(s, '-');
    if e == |s| then None
    else
      var a, b := NumberItem(s[..e]), NumberItem(s[e + 1..]);
      if a.Some? && b.Some? then Some((a.value, b.value)) else None
  }

  /** One item of a field whose values start at `low`. */
  predicate ItemHits(item: string, v: nat, low: nat) {
    if NumberItem(item).Some? then NumberItem(item).value == v
    else if StepItem(item).Some? then StepItem(item).value >= 1 && v >= low && (v - low) % StepItem(item).value == 0
    else if RangeItem(item).Some? then RangeItem(item).value.0 <= v <= RangeItem(item).value.1
    else item == "*"
  }

  predicate DayItemHits(item: string, t: Moment) {
    if item == "L" then t.day == t.monthLength else ItemHits(item, t.day, 1)
  }

  predicate WeekdayItemHits(item: string, t: Moment) {
    if NumberItem(item).Some? then NumberItem(item).value % 7 == t.weekday
    else if NthItem(item).Some? then
      NthItem(item).value.0 % 7 == t.weekday && (t.day - 1) / 7 + 1 == NthItem(item).value.1
    else if LastItem(item).Some? then LastItem(item).value % 7 == t.weekday && t.day + 7 > t.monthLength
    else ItemHits(item, t.weekday, 0) || (RangeItem(item).Some? && ItemHits(item, t.weekday + 7, 0))
  }

  predicate FieldHits(field: string, v: nat, low: nat) {
    exists i :: 0 <= i < |Split(field, ',')| && ItemHits(Split(field, ',')[i], v, low)
  }

  predicate DayFieldHits(field: string, t: Moment) {
    exists i :: 0 <= i < |Split(field, ',')| && DayItemHits(Split(field, ',')[i], t)
  }

  predicate WeekdayFieldHits(field: string, t: Moment) {
    exists i :: 0 <= i < |Split(field, ',')| && WeekdayItemHits(Split(field, ',')[i], t)
  }

  /** Both day fields restricted: either one suffices. */
  predicate DaysHit(f: Fields, t: Moment) {
    if f.dom == "*" then WeekdayFieldHits(f.dow, t)
    else if f.dow == "*" then DayFieldHits(f.dom, t)
    else WeekdayFieldHits(f.dow, t) || DayFieldHits(f.dom, t)
  }

  predicate Fires(f: Fields, t: Moment) {
    FieldHits(f.m, t.minute, 0) && FieldHits(f.h, t.hour, 0) && FieldHits(f.mon, t.month, 1) && DaysHit(f, t)
  }

  // --------------------------------------------------------- well-formed fields

  predicate ItemOk(item: string, low: nat, high: nat) {
    && item != []
    && (NumberItem(item).Some? ==> low <= NumberItem(item).value <= high)
    && (StepItem(item).Some? ==> StepItem(item).value >= 1)
  }

  predicate WeekdayItemOk(item: string) {
    && ItemOk(item, 0, 7)
    && (NthItem(item).Some? ==> NthItem(item).value.0 <= 7 && 1 <= NthItem(item).value.1 <= 5)
    && (LastItem(item).Some? ==> LastItem(item).value <= 7)
  }

  ghost predicate FieldOk(field: string, low: nat, high: nat) {
    forall i :: 0 <= i < |Split(field, ',')| ==> ItemOk(Split(field, ',')[i], low, high)
  }

  ghost predicate WellFormed(f: Fields) {
    && FieldOk(f.m, 0, 59) && FieldOk(f.h, 0, 23) && FieldOk(f.dom, 1, 31) && FieldOk(f.mon, 1, 12)
    && forall i :: 0 <= i < |Split(f.dow, ',')| ==> WeekdayItemOk(Split(f.dow, ',')[i])
  }

  // ------------------------------------------------------ what a field hits

  /** A field of one item. */
  lemma OneItem(field: string)
    requires ',' !in field
    ensures Split(field, ',') == [field]
  {
    IndexOfIs(field, ',', |field|);
  }

  lemma NumberField(field: string, n: nat)
    requires NumberItem(field) == Some(n)
    ensures Split(field, ',') == [field]
    ensures forall v: nat, low: nat :: FieldHits(field, v, low) <==> v == n
    ensures forall t: Moment :: field != "L" && (DayFieldHits(field, t) <==> t.day == n)
  {
    OneItem(field);
    assert Split(field, ',')[0] == field;
    NumberIsNumber(field);
    hide Split;
  }

  lemma StepField(field: string, n: nat)
    requires StepItem(field) == Some(n)
    ensures Split(field, ',') == [field]
    ensures n >= 1 ==> forall v: nat :: FieldHits(field, v, 0) <==> v % n == 0
  {
    assert AllDigits(field[2..]);
    assert forall i :: 2 <= i < |field| ==> field[i] == field[2..][i - 2];
    OneItem(field);
    assert Split(field, ',')[0] == field;
    assert !IsDigit(field[0]);
    hide Split;
  }

  lemma StarField(t: Moment, v: nat, low: nat)
    ensures FieldHits("*", v, low) && DayFieldHits("*", t) && WeekdayFieldHits("*", t)
  {
    OneItem("*");
    assert Split("*", ',')[0] == "*";
    Literals();
    hide Split, NumberItem, StepItem;
    assert IndexOf("*", '-') == 1;
    IndexOfIs("*", '#', 1);
    assert NthItem("*").None? && RangeItem("*").None? && LastItem("*").None?;
  }

  lemma LastDayField(t: Moment)
    ensures DayFieldHits("L", t) <==> t.day == t.monthLength
  {
    OneItem("L");
    assert Split("L", ',')[0] == "L";
  }

  lemma NthField(field: string, d: nat, n: nat, t: Moment)
    requires NthItem(field) == Some((d, n))
    ensures Split(field, ',') == [field]
    ensures WeekdayFieldHits(field, t) <==> d % 7 == t.weekday && (t.day - 1) / 7 + 1 == n
  {
    var e := IndexOf(field, '#');
    assert AllDigits(field[..e]) && AllDigits(field[e + 1..]);
    assert forall i :: 0 <= i < |field| ==>
      field[i] == if i < e then field[..e][i] else if i == e then '#' else field[e + 1..][i - e - 1];
    OneItem(field);
    assert Split(field, ',')[0] == field;
    assert !IsDigit(field[e]);
    hide Split;
  }

  lemma LastField(field: string, d: nat, t: Moment)
    requires LastItem(field) == Some(d)
    ensures Split(field, ',') == [field]
    ensures WeekdayFieldHits(field, t) <==> d % 7 == t.weekday && t.day + 7 > t.monthLength
  {
    var k := |field| - 1;
    assert forall i :: 0 <= i < k ==> field[i] == field[..k][i];
    OneItem(field);
    assert Split(field, ',')[0] == field;
    IndexOfIs(field, '#', |field|);
    assert !IsDigit(field[k]);
    hide Split;
  }

  /** A list with an item that is the number `n`. */
  predicate Names(list: string, n: nat) {
    exists i :: 0 <= i < |Split(list, ',')| && NumberItem(Split(list, ',')[i]) == Some(n)
  }

  /** A list of numbers up to seven, none of them missing. */
  ghost predicate ListOk(list: string) {
    IsList(list) && forall i :: 0 <= i < |Split(list, ',')| ==> WeekdayItemOk(Split(list, ',')[i])
  }

  lemma ListNumber(list: string, i: nat)
    requires ListOk(list) && i < |Split(list, ',')|
    ensures
      var p := Split(list, ',')[i];
      AllDigits(p) && NumberItem(p) == Some(Number(p)) && Number(p) <= 7
  {
    ListPieces(list);
    assert WeekdayItemOk(Split(list, ',')[i]);
    hide Split, NthItem, LastItem, StepItem;
  }

  /** A list hits the weekdays it names; 7 names Sunday. */
  lemma ListField(list: string, t: Moment)
    requires ListOk(list) && Real(t)
    ensures WeekdayFieldHits(list, t) <==> Names(list, t.weekday) || (t.weekday == 0 && Names(list, 7))
  {
    var ps := Split(list, ',');
    forall i | 0 <= i < |ps|
      ensures WeekdayItemHits(ps[i], t) <==>
              NumberItem(ps[i]) == Some(t.weekday) || (t.weekday == 0 && NumberItem(ps[i]) == Some(7))
    {
      ListNumber(list, i);
    }
    hide Split, WeekdayItemHits, NumberItem, ListOk, IsList;
  }

  lemma {:induction false} DaysOfExact(pieces: seq<string>, w: Weekday)
    requires forall i :: 0 <= i < |pieces| ==> AllDigits(pieces[i])
    ensures w in DaysOf(pieces) <==> exists i :: 0 <= i < |pieces| && Number(pieces[i]) == w
  {
    if pieces != [] {
      DaysOfExact(pieces[1..], w);
      if w in DaysOf(pieces[1..]) {
        var i :| 0 <= i < |pieces[1..]| && Number(pieces[1..][i]) == w;
        assert Number(pieces[i + 1]) == w;
      }
      if k: nat :| k < |pieces| && Number(pieces[k]) == w && k > 0 {
        assert Number(pieces[1..][k - 1]) == w;
      }
    }
  }

  /** The weekdays of a list are the numbers below seven that it names. */
  lemma ListDays(list: string, w: Weekday)
    requires ListOk(list)
    ensures forall i :: 0 <= i < |Split(list, ',')| ==> AllDigits(Split(list, ',')[i])
    ensures w in DaysOf(Split(list, ',')) <==> Names(list, w)
  {
    var ps := Split(list, ',');
    forall i | 0 <= i < |ps|
      ensures AllDigits(ps[i]) && NumberItem(ps[i]) == Some(Number(ps[i]))
    {
      ListNumber(list, i);
    }
    DaysOfExact(ps, w);
    hide Split, NumberItem, Number, AllDigits, ListOk;
  }

  /** A list without a weekday below seven names seven. */
  lemma ListNotEmpty(list: string)
    requires ListOk(list)
    requires forall w: Weekday :: !Names(list, w)
    ensures Names(list, 7)
  {
    ListNumber(list, 0);
    var n := Number(Split(list, ',')[0]);
    assert NumberItem(Split(list, ',')[0]) == Some(n) && Names(list, n);
  }

  /** The day list of a printed state hits the days it implies. */
  lemma PrintedListHits(days: set<Weekday>, t: Moment)
    requires Real(t)
    ensures WeekdayFieldHits(WeekdayList(days), t) <==> t.weekday in Implied(days)
  {
    var s := WeekdayList(days);
    ListPrinted(days);
    PrintedListOk(days);
    hide WeekdayList, IsList, Split, NthItem, LastItem, NumberItem, Solid, ListOk, WeekdayFieldHits, Names, Implied;
    ListField(s, t);
    ListDays(s, t.weekday);
    PrintedNoSeven(days);
  }

  lemma PrintedListOk(days: set<Weekday>)
    ensures ListOk(WeekdayList(days))
  {
    ListPrinted(days);
    var ps := Split(WeekdayList(days), ',');
    hide WeekdayList, Split, IsList, NthItem, LastItem, StepItem, Number, Implied;
    forall i | 0 <= i < |ps|
      ensures WeekdayItemOk(ps[i])
    {
      NumberIsNumber(ps[i]);
    }
  }

  lemma PrintedNoSeven(days: set<Weekday>)
    ensures !Names(WeekdayList(days), 7)
  {
    ListPrinted(days);
    hide WeekdayList, Split, IsList, NthItem, LastItem, Number, Implied;
  }

  // ------------------------------------------------------ what a state means

  /** The minutes a state describes, in its own terms. */
  predicate Meant(s: State, t: Moment)
    requires !s.unit.Custom?
  {
    match s.unit
    case Minute => t.minute % AtLeastOne(s.minuteInterval) == 0
    case Hour => t.minute == 0 && t.hour % AtLeastOne(s.interval) == 0
    case Day => t.minute == s.minute && t.hour == s.hour
    case Week => t.minute == s.minute && t.hour == s.hour && t.weekday in Implied(s.weekdays)
    case Month =>
      t.minute == s.minute && t.hour == s.hour &&
      if s.monthlyMode.ByDay? then t.day == (if s.lastDay then t.monthLength else s.dayOfMonth)
      else
        && t.weekday == s.nthWeekday % 7
        && (if s.nthLast then t.day + 7 > t.monthLength else (t.day - 1) / 7 + 1 == Clamped(s).nth)
  }

  lemma IntervalMeans(n: nat, t: Moment)
    requires n >= 1 && Real(t)
    ensures Fires(Fields("*/" + Digits(n), "*", "*", "*", "*"), t) <==> t.minute % n == 0
    ensures Fires(Fields("0", "*/" + Digits(n), "*", "*", "*"), t) <==> t.minute == 0 && t.hour % n == 0
  {
    StepPrinted(n);
    StepField("*/" + Digits(n), n);
    NumberIsNumber("0");
    assert "0"[..0] == [];
    NumberField("0", 0);
    StarField(t, t.hour, 0);
    StarField(t, t.month, 1);
    hide FieldHits, WeekdayFieldHits, DayFieldHits, Digits, NumberItem, StepItem;
  }

  lemma TimeMeans(f: Fields, minute: nat, hour: nat, t: Moment)
    requires f.m == Digits(minute) && f.h == Digits(hour) && f.mon == "*"
    ensures Fires(f, t) <==> t.minute == minute && t.hour == hour && DaysHit(f, t)
  {
    DigitsItem(minute);
    DigitsItem(hour);
    NumberField(f.m, minute);
    NumberField(f.h, hour);
    StarField(t, t.month, 1);
    hide FieldHits, DaysHit, Digits, NumberItem;
  }

  lemma MonthDayMeans(n: nat, t: Moment)
    ensures Digits(n) != "*" && (DayFieldHits(Digits(n), t) <==> t.day == n)
  {
    DigitsItem(n);
    NumberField(Digits(n), n);
  }

  lemma NthMeans(d: nat, n: nat, t: Moment)
    ensures WeekdayFieldHits(Digits(d) + "#" + Digits(n), t) <==> t.weekday == d % 7 && (t.day - 1) / 7 + 1 == n
    ensures WeekdayFieldHits(Digits(d) + "L", t) <==> t.weekday == d % 7 && t.day + 7 > t.monthLength
  {
    NthPrinted(d, n);
    NthField(Digits(d) + "#" + Digits(n), d, n, t);
    LastPrinted(d);
    LastField(Digits(d) + "L", d, t);
  }

  /** A printed state fires at exactly the minutes the state describes. */
  lemma PrintedMeans(s: State, t: Moment)
    requires !s.unit.Custom? && Real(t)
    ensures Fires(Printed(s), t) <==> Meant(s, t)
  {
    if s.unit.Minute? {
      IntervalMeans(AtLeastOne(s.minuteInterval), t);
    } else if s.unit.Hour? {
      IntervalMeans(AtLeastOne(s.interval), t);
    } else {
      TimeMeans(Printed(s), s.minute, s.hour, t);
      StarField(t, 0, 0);
      hide Digits, WeekdayList, FieldHits, WeekdayFieldHits, DayFieldHits, Implied, Fires, AtLeastOne, Real;
      if s.unit.Week? {
        PrintedListHits(s.weekdays, t);
      } else if s.unit.Month? {
        MonthDayMeans(s.dayOfMonth, t);
        LastDayField(t);
        NthMeans(s.nthWeekday, Clamped(s).nth, t);
      }
    }
  }

  // ------------------------------------------------------- the rewritten fields

  /** A weekday list that names Sunday by 7 and not by 0, in a form the picker knows. */
  predicate SundayLost(f: Fields) {
    && NumberItem(f.m).Some? && NumberItem(f.h).Some? && f.dom == "*" && f.mon == "*" && IsList(f.dow)
    && Names(f.dow, 7) && !Names(f.dow, 0)
  }

  /** Two expressions fire at the same minutes. */
  ghost predicate SameFirings(f: Fields, g: Fields) {
    forall t :: Real(t) ==> (Fires(f, t) <==> Fires(g, t))
  }

  lemma MinuteForm(f: Fields, g: Fields, n: nat, t: Moment)
    requires f.h == f.dom == f.mon == f.dow == "*" && (StepItem(f.m) == Some(n) || (f.m == "*" && n == 1))
    requires n >= 1 && g == Fields("*/" + Digits(n), "*", "*", "*", "*")
    ensures Fires(g, t) <==> Fires(f, t)
  {
    StepPrinted(n);
    StepField(g.m, n);
    if f.m == "*" {
      StarField(t, t.minute, 0);
    } else {
      StepField(f.m, n);
    }
    hide FieldHits, DaysHit, Digits, StepItem;
  }

  lemma HourForm(f: Fields, g: Fields, n: nat, t: Moment)
    requires f.dom == f.mon == f.dow == "*" && (StepItem(f.h) == Some(n) || (f.h == "*" && n == 1))
    requires n >= 1 && f.m == "0" && g == Fields("0", "*/" + Digits(n), "*", "*", "*")
    ensures Fires(g, t) <==> Fires(f, t)
  {
    StepPrinted(n);
    StepField(g.h, n);
    if f.h == "*" {
      StarField(t, t.hour, 0);
    } else {
      StepField(f.h, n);
    }
    hide FieldHits, DaysHit, Digits, StepItem;
  }

  /** Equal times of day leave only the days to compare. */
  lemma TimedForm(f: Fields, g: Fields, minute: nat, hour: nat, t: Moment)
    requires NumberItem(f.m) == Some(minute) && NumberItem(f.h) == Some(hour) && f.mon == g.mon == "*"
    requires g.m == Digits(minute) && g.h == Digits(hour)
    ensures DaysHit(f, t) == DaysHit(g, t) ==> (Fires(g, t) <==> Fires(f, t))
    ensures t.minute == minute && t.hour == hour ==> Fires(f, t) == DaysHit(f, t) && Fires(g, t) == DaysHit(g, t)
  {
    DigitsItem(minute);
    DigitsItem(hour);
    hide Digits, NumberItem;
    NumberField(f.m, minute);
    NumberField(f.h, hour);
    NumberField(g.m, minute);
    NumberField(g.h, hour);
    StarField(t, t.month, 1);
    hide FieldHits, DaysHit;
  }

  lemma NthForm(dow: string, d: nat, n: nat, t: Moment)
    requires NthItem(dow) == Some((d, n))
    ensures WeekdayFieldHits(Digits(d) + "#" + Digits(n), t) <==> WeekdayFieldHits(dow, t)
  {
    NthPrinted(d, n);
    NthField(dow, d, n, t);
    NthField(Digits(d) + "#" + Digits(n), d, n, t);
  }

  lemma LastForm(dow: string, d: nat, t: Moment)
    requires LastItem(dow) == Some(d)
    ensures WeekdayFieldHits(Digits(d) + "L", t) <==> WeekdayFieldHits(dow, t)
  {
    LastPrinted(d);
    LastField(dow, d, t);
    LastField(Digits(d) + "L", d, t);
  }

  /** A list and its rewriting: the same days, but for a Sunday that was named by 7. */
  lemma ListForm(dow: string, days: set<Weekday>, t: Moment)
    requires ListOk(dow) && Real(t)
    requires forall i :: 0 <= i < |Split(dow, ',')| ==> AllDigits(Split(dow, ',')[i])
    requires days == DaysOf(Split(dow, ','))
    ensures !(Names(dow, 7) && !Names(dow, 0)) ==>
              (WeekdayFieldHits(WeekdayList(days), t) <==> WeekdayFieldHits(dow, t))
    ensures Names(dow, 7) && !Names(dow, 0) && t.weekday == 0 ==>
              WeekdayFieldHits(dow, t) && !WeekdayFieldHits(WeekdayList(days), t)
  {
    ListField(dow, t);
    PrintedListHits(days, t);
    ListDays(dow, t.weekday);
    forall w: Weekday
      ensures w in days <==> Names(dow, w)
    {
      ListDays(dow, w);
    }
    hide Split, WeekdayFieldHits, WeekdayList, DaysOf, AllDigits, Names, ListOk;
    if days == {} {
      ListNotEmpty(dow);
      assert 0 !in days;
    }
  }

  // ---------------------------------------------------------------- the result

  /** The days of a form with a time of day, before and after. */
  ghost predicate DaysKept(f: Fields, g: Fields, t: Moment) {
    && (!SundayLost(f) ==> DaysHit(g, t) == DaysHit(f, t))
    && (SundayLost(f) && t.weekday == 0 ==> DaysHit(f, t) && !DaysHit(g, t))
  }

  lemma NotAList(f: Fields)
    requires f.dow == "*" || NthItem(f.dow).Some? || LastItem(f.dow).Some? || f.dom != "*"
    ensures !SundayLost(f)
  {
    if IsList(f.dow) {
      ListIsList(f.dow);
    }
  }

  lemma NthDays(f: Fields, g: Fields, d: nat, n: nat, t: Moment)
    requires WellFormed(f) && f.dom == g.dom == "*" && NthItem(f.dow) == Some((d, n))
    requires g.dow == Digits(d) + "#" + Digits(AtLeastOne(if n > 5 then 5 else n))
    ensures DaysKept(f, g, t)
  {
    NthField(f.dow, d, n, t);
    assert WeekdayItemOk(Split(f.dow, ',')[0]);
    NthForm(f.dow, d, n, t);
    NotAList(f);
    hide NthItem, Digits, WeekdayFieldHits, SundayLost, WellFormed, Split;
  }

  lemma LastDays(f: Fields, g: Fields, d: nat, t: Moment)
    requires f.dom == g.dom == "*" && LastItem(f.dow) == Some(d) && g.dow == Digits(d) + "L"
    ensures DaysKept(f, g, t)
  {
    hide LastItem, Digits, WeekdayFieldHits, SundayLost;
    LastForm(f.dow, d, t);
    NotAList(f);
  }

  lemma ListDaysKept(f: Fields, g: Fields, days: set<Weekday>, t: Moment)
    requires WellFormed(f) && Real(t) && f.dom == g.dom == f.mon == "*" && IsList(f.dow)
    requires NumberItem(f.m).Some? && NumberItem(f.h).Some?
    requires (forall i :: 0 <= i < |Split(f.dow, ',')| ==> AllDigits(Split(f.dow, ',')[i]))
             && days == DaysOf(Split(f.dow, ','))
    requires g.dow == WeekdayList(days)
    ensures DaysKept(f, g, t)
  {
    assert ListOk(f.dow);
    assert SundayLost(f) == (Names(f.dow, 7) && !Names(f.dow, 0));
    hide IsList, WeekdayList, WeekdayFieldHits, SundayLost, Split, DaysOf, NumberItem, AllDigits, WellFormed;
    ListForm(f.dow, days, t);
  }

  lemma NumberDays(f: Fields, g: Fields, n: nat, t: Moment)
    requires f.dow == g.dow == "*" && NumberItem(f.dom) == Some(n) && g.dom == Digits(n)
    ensures DaysKept(f, g, t)
  {
    Literals();
    DigitsItem(n);
    NotAList(f);
    hide NumberItem, Digits, DayFieldHits, SundayLost;
    NumberField(f.dom, n);
    NumberField(g.dom, n);
  }

  lemma TimedDays(f: Fields, timed: State, t: Moment)
    requires WellFormed(f) && Real(t) && !timed.lastDay && !timed.nthLast
    requires NumberItem(f.m).Some? && NumberItem(f.h).Some? && f.mon == "*"
    requires ParseTimed(f.dom, f.dow, timed).Some?
    ensures DaysKept(f, Printed(ParseTimed(f.dom, f.dow, timed).value), t)
  {
    var s := ParseTimed(f.dom, f.dow, timed).value;
    var g := Printed(s);
    hide DaysKept, Digits, NumberItem, NthItem, LastItem, IsList, AllDigits, DaysOf, Split, WeekdayList, WellFormed;
    if f.dom == "*" && f.dow == "*" {
      NothingChanged(f, g, t);
    } else if f.dom == "*" && NthItem(f.dow).Some? {
      NthDays(f, g, s.nthWeekday, s.nth, t);
    } else if f.dom == "*" && LastItem(f.dow).Some? {
      LastDays(f, g, s.nthWeekday, t);
    } else if f.dom == "*" && IsList(f.dow) {
      ListPieces(f.dow) by {
        ListChars(f.dow);
      }
      ListDaysKept(f, g, s.weekdays, t);
    } else if NumberItem(f.dom).Some? && f.dow == "*" {
      NumberDays(f, g, s.dayOfMonth, t);
    } else {
      NothingChanged(f, g, t);
    }
  }

  lemma ListChars(s: string)
    requires IsList(s)
    ensures forall i :: 0 <= i < |s| ==> IsDigit(s[i]) || s[i] == ','
  {
  }

  lemma NothingChanged(f: Fields, g: Fields, t: Moment)
    requires f.dow == g.dow == "*" && f.dom == g.dom
    ensures DaysKept(f, g, t)
  {
    NotAList(f);
  }

  /** What the picker makes of a form with a time of day, compared with the original. */
  lemma TimedRewritten(f: Fields, base: State, minute: nat, hour: nat, t: Moment)
    requires WellFormed(f) && Real(t) && !base.lastDay && !base.nthLast
    requires NumberItem(f.m) == Some(minute) && NumberItem(f.h) == Some(hour) && f.mon == "*"
    requires ParseTimed(f.dom, f.dow, base.(hour := hour, minute := minute)).Some?
    ensures
      var g := Printed(ParseTimed(f.dom, f.dow, base.(hour := hour, minute := minute)).value);
      && (!SundayLost(f) ==> (Fires(g, t) <==> Fires(f, t)))
      && (SundayLost(f) && t.minute == minute && t.hour == hour && t.weekday == 0 ==> Fires(f, t) && !Fires(g, t))
  {
    var timed := base.(hour := hour, minute := minute);
    var g := Printed(ParseTimed(f.dom, f.dow, timed).value);
    assert g.m == Digits(minute) && g.h == Digits(hour) && g.mon == "*";
    hide *;
    TimedForm(f, g, minute, hour, t);
    TimedDays(f, timed, t);
    DaysKeptSays(f, g, t);
  }

  lemma DaysKeptSays(f: Fields, g: Fields, t: Moment)
    requires DaysKept(f, g, t)
    ensures !SundayLost(f) ==> DaysHit(g, t) == DaysHit(f, t)
    ensures SundayLost(f) && t.weekday == 0 ==> DaysHit(f, t) && !DaysHit(g, t)
  {
  }

  /** Fields the picker knows, and what it makes of them, at one minute. */
  lemma FieldsRewritten(f: Fields, tz: string, expr: string, t: Moment)
    requires WellFormed(f) && Real(t) && ParseFields(f, DefaultState(tz, expr)).Some?
    ensures
      var s := ParseFields(f, DefaultState(tz, expr)).value;
      && !s.unit.Custom?
      && (!SundayLost(f) ==> (Fires(Printed(s), t) <==> Fires(f, t)))
      && (SundayLost(f) && t.minute == NumberItem(f.m).value && t.hour == NumberItem(f.h).value && t.weekday == 0 ==>
            Fires(f, t) && !Fires(Printed(s), t))
  {
    var base := DefaultState(tz, expr);
    var s := ParseFields(f, base).value;
    var g := Printed(s);
    StepsOk(f);
    hide StepItem, NumberItem, Digits, Fires, WellFormed, ParseTimed, SundayLost;
    if f.dow == "*" {
      NotAList(f);
    }
    if StepItem(f.m).Some? && f.h == f.dom == f.mon == f.dow == "*" {
      MinuteForm(f, g, s.minuteInterval, t);
    } else if f.m == f.h == f.dom == f.mon == f.dow == "*" {
      MinuteForm(f, g, 1, t);
    } else if f.m == "0" && StepItem(f.h).Some? && f.dom == f.mon == f.dow == "*" {
      HourForm(f, g, s.interval, t);
    } else if f.m == "0" && f.h == f.dom == f.mon == f.dow == "*" {
      HourForm(f, g, 1, t);
    } else {
      TimedRewritten(f, base, NumberItem(f.m).value, NumberItem(f.h).value, t);
      TimedUnit(f.dom, f.dow, base.(hour := NumberItem(f.h).value, minute := NumberItem(f.m).value));
    }
  }

  lemma TimedUnit(dom: string, dow: string, timed: State)
    requires ParseTimed(dom, dow, timed).Some?
    ensures !ParseTimed(dom, dow, timed).value.unit.Custom?
  {
  }

  lemma StepsOk(f: Fields)
    requires WellFormed(f)
    ensures StepItem(f.m).Some? ==> StepItem(f.m).value >= 1
    ensures StepItem(f.h).Some? ==> StepItem(f.h).value >= 1
  {
    if StepItem(f.m).Some? {
      StepField(f.m, StepItem(f.m).value);
      assert ItemOk(Split(f.m, ',')[0], 0, 59);
    }
    if StepItem(f.h).Some? {
      StepField(f.h, StepItem(f.h).value);
      assert ItemOk(Split(f.h, ',')[0], 0, 23);
    }
  }

  /** What opening an expression in the picker and saving it does to its fields. */
  lemma RewrittenFields(expr: string, tz: string, f: Fields)
    requires FieldsOf(expr) == Some(f)
    ensures
      var parsed := ParseFields(f, DefaultState(tz, expr));
      FieldsOf(SpecToCron(ParseCron(expr, tz))) ==
      Some(if parsed.Some? && !parsed.value.unit.Custom? then Printed(parsed.value) else f)
  {
    var parsed := ParseFields(f, DefaultState(tz, expr));
    assert expr != [] by {
      if expr == [] {
        WordsOfNothing();
      }
    }
    if parsed.Some? {
      FieldsNeverCustom(f, DefaultState(tz, expr));
      PrintedReads(parsed.value, tz, expr);
      FieldsOfLine(Printed(parsed.value));
    }
    hide ParseFields, Printed, FieldsOf, Line, Reads;
  }

  lemma WordsOfNothing()
    ensures FieldsOf([]).None?
  {
    assert Trim([]) == [];
    assert Words([]) == [[]];
  }

  lemma FieldsNeverCustom(f: Fields, base: State)
    requires ParseFields(f, base).Some?
    ensures !ParseFields(f, base).value.unit.Custom?
  {
    hide ParseTimed;
    if NumberItem(f.m).Some? && NumberItem(f.h).Some? {
      var timed := base.(hour := NumberItem(f.h).value, minute := NumberItem(f.m).value);
      if ParseTimed(f.dom, f.dow, timed).Some? {
        TimedUnit(f.dom, f.dow, timed);
      }
    }
  }

  /** Opening a well-formed expression in the picker and saving it keeps the minutes it
      fires at, exactly unless it is a weekday list that names Sunday by 7 alone. */
  lemma RewriteKeepsFirings(expr: string, tz: string, f: Fields)
    requires FieldsOf(expr) == Some(f) && WellFormed(f)
    ensures FieldsOf(SpecToCron(ParseCron(expr, tz))).Some?
    ensures SameFirings(FieldsOf(SpecToCron(ParseCron(expr, tz))).value, f) <==> !SundayLost(f)
  {
    RewrittenFields(expr, tz, f);
    var parsed := ParseFields(f, DefaultState(tz, expr));
    if SundayLost(f) {
      LostIsKnown(f, DefaultState(tz, expr));
      var minute, hour := NumberItem(f.m).value, NumberItem(f.h).value;
      var sunday := Moment(minute, hour, 1, 1, 0, 31);
      TimeOk(f);
      assert Real(sunday);
      FieldsRewritten(f, tz, expr, sunday);
    } else if parsed.Some? {
      FieldsNeverCustom(f, DefaultState(tz, expr));
      forall t | Real(t)
        ensures Fires(Printed(parsed.value), t) <==> Fires(f, t)
      {
        FieldsRewritten(f, tz, expr, t);
      }
    }
    hide ParseFields, Printed, FieldsOf, Fires, SundayLost, WellFormed, ParseCron, SpecToCron;
  }

  lemma LostIsKnown(f: Fields, base: State)
    requires SundayLost(f)
    ensures ParseFields(f, base).Some? && !ParseFields(f, base).value.unit.Custom?
  {
    NumberIsNumber(f.m);
    NumberIsNumber(f.h);
    ListIsList(f.dow);
    hide NumberItem, StepItem, NthItem, LastItem, IsList, Names;
  }

  lemma TimeOk(f: Fields)
    requires WellFormed(f) && NumberItem(f.m).Some? && NumberItem(f.h).Some?
    ensures NumberItem(f.m).value < 60 && NumberItem(f.h).value < 24
  {
    NumberField(f.m, NumberItem(f.m).value);
    NumberField(f.h, NumberItem(f.h).value);
    assert ItemOk(Split(f.m, ',')[0], 0, 59) && ItemOk(Split(f.h, ',')[0], 0, 23);
  }

  /** A time of day on Sundays, written with a lone 7, is saved as that time on Mondays. */
  lemma SundayBecomesMonday(m: string, h: string, tz: string)
    requires NumberItem(m).Some? && NumberItem(h).Some?
    ensures
      var f := Fields(m, h, "*", "*", "7");
      FieldsOf(SpecToCron(ParseCron(Line(m, h, "*", "*", "7"), tz))) ==
      Some(Fields(Digits(Number(m)), Digits(Number(h)), "*", "*", "1"))
  {
    var f := Fields(m, h, "*", "*", "7");
    var expr := Line(m, h, "*", "*", "7");
    Seven();
    NumberIsNumber(m);
    NumberIsNumber(h);
    Literals();
    var base := DefaultState(tz, expr);
    var timed := base.(hour := Number(h), minute := Number(m));
    assert ParseFields(f, base) == ParseTimed("*", "7", timed) by {
      hide ParseTimed, NumberItem, StepItem;
    }
    assert ParseTimed("*", "7", timed) == Some(timed.(unit := Week, weekdays := {})) by {
      hide NumberItem, NthItem, LastItem, IsList, DaysOf, Split;
    }
    hide *;
    FieldsOfLine(f) by {
      SolidFields(f);
    }
    RewrittenFields(expr, tz, f);
    PrintedMonday(timed.(unit := Week, weekdays := {}));
  }

  lemma SolidFields(f: Fields)
    requires Solid(f.m) && Solid(f.h) && Solid(f.dom) && Solid(f.mon) && Solid(f.dow)
    ensures AllSolid(f)
  {
  }

  lemma PrintedMonday(s: State)
    requires s.unit.Week? && s.weekdays == {}
    ensures Printed(s) == Fields(Digits(s.minute), Digits(s.hour), "*", "*", "1")
  {
    assert Digits(1) == "1";
  }

  lemma Seven()
    ensures IsList("7") && NthItem("7").None? && LastItem("7").None? && Solid("7") && "7" != "*"
    ensures Split("7", ',') == ["7"] && AllDigits("7") && DaysOf(["7"]) == {}
  {
    NumberIsNumber("7");
    OneItem("7");
    assert "7"[..0] == [];
    assert Number("7") == 7;
    assert ["7"][1..] == [];
  }
}
