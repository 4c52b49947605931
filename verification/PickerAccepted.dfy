/** What the picker writes is what the server accepts. */
module PickerAccepted {
  import opened Prelude
  import opened Decimal
  import opened Text
  import opened SchedulePicker
  import opened ScheduleRoundTrip
  import opened Cron

  /** Visible ASCII characters, white space to nobody. */
  predicate Inked(s: string) {
    s != [] && forall i :: 0 <= i < |s| ==> '!' <= s[i] <= '~'
  }

  lemma CountWord(a: string, rest: string)
    requires Inked(a) && (rest == [] || IsWhite(rest[0]))
    ensures FieldCount(a + rest) == 1 + FieldCount(rest)
  {
    CountField(a, rest);
  }

  lemma CountFirst(a: string, rest: string)
    requires Inked(a)
    ensures FieldCount(a + ([' '] + rest)) == 1 + FieldCount(rest)
  {
    CountWord(a, [' '] + rest);
    assert ([' '] + rest)[1..] == rest;
  }

  lemma LineCount(m: string, h: string, dom: string, mon: string, dow: string)
    requires Inked(m) && Inked(h) && Inked(dom) && Inked(mon) && Inked(dow)
    ensures FieldCount(Line(m, h, dom, mon, dow)) == 5
  {
    var d := mon + ([' '] + dow);
    var c := dom + ([' '] + d);
    var b := h + ([' '] + c);
    assert Line(m, h, dom, mon, dow) == m + ([' '] + b);
    hide FieldCount, Inked, Line;
    CountAlone(dow);
    CountFirst(mon, dow);
    CountFirst(dom, d);
    CountFirst(h, c);
    CountFirst(m, b);
  }

  lemma CountAlone(a: string)
    requires Inked(a)
    ensures FieldCount(a) == 1
  {
    CountWord(a, []);
    assert a + [] == a;
  }

  lemma DigitsInked(s: string)
    requires s != [] && AllDigits(s)
    ensures Inked(s)
  {
    forall i | 0 <= i < |s|
      ensures '!' <= s[i] <= '~'
    {
      assert IsDigit(s[i]);
    }
  }

  lemma InkedConcat(a: string, b: string)
    requires Inked(a) && Inked(b)
    ensures Inked(a + b)
  {
  }

  lemma TimedInked(s: State)
    ensures Inked("*") && Inked("0") && Inked("L")
    ensures Inked(Digits(s.minute)) && Inked(Digits(s.hour)) && Inked(Digits(s.dayOfMonth))
  {
    DigitsInked(Digits(s.minute));
    DigitsInked(Digits(s.hour));
    DigitsInked(Digits(s.dayOfMonth));
  }

  lemma StepInked(n: nat)
    ensures Inked("*/" + Digits(n))
  {
    DigitsInked(Digits(n));
    InkedConcat("*/", Digits(n));
  }

  lemma WeekdayInked(d: nat, n: nat)
    ensures Inked(Digits(d) + "L") && Inked(Digits(d) + "#" + Digits(n))
  {
    DigitsInked(Digits(d));
    DigitsInked(Digits(n));
    InkedConcat(Digits(d), "L");
    InkedConcat(Digits(d), "#");
    InkedConcat(Digits(d) + "#", Digits(n));
  }

  lemma ListInked(days: set<Weekday>)
    ensures Inked(WeekdayList(days))
  {
    ListPrinted(days);
    hide WeekdayList, Split, DaysOf;
  }

  lemma PrintedInked(s: State)
    requires !s.unit.Custom?
    ensures
      var f := Printed(s);
      Inked(f.m) && Inked(f.h) && Inked(f.dom) && Inked(f.mon) && Inked(f.dow)
  {
    var n := AtLeastOne(if s.nth > 5 then 5 else s.nth);
    hide Inked, Digits, WeekdayList, AtLeastOne;
    TimedInked(s);
    StepInked(AtLeastOne(s.minuteInterval));
    StepInked(AtLeastOne(s.interval));
    WeekdayInked(s.nthWeekday, n);
    ListInked(s.weekdays);
  }

  /** No state of the picker's own units is ever turned down for its number of fields. */
  lemma PickerHasFiveFields(s: State, lib: Library, tz: string)
    requires !s.unit.Custom?
    ensures FieldCount(SpecToCron(s)) == 5
    ensures Compiled(lib, SpecToCron(s), tz).Err? ==> !Compiled(lib, SpecToCron(s), tz).error.NotFiveFields?
  {
    PrintedInked(s);
    var f := Printed(s);
    LineCount(f.m, f.h, f.dom, f.mon, f.dow);
    hide FieldCount, Inked, Line, Printed;
  }
}
