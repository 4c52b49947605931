/** The clock text given to the agent: ISO 8601 in UTC. */
module Timestamp {
  import opened Prelude
  import opened Decimal
  import opened Civil

  /** Two digits of each field after the year, with their separators. */
  function Tail(mo: nat, d: nat, h: nat, mi: nat, s: nat): string {
    Fields(Padded(mo, 2), Padded(d, 2), Padded(h, 2), Padded(mi, 2), Padded(s, 2))
  }

  function Fields(mo: string, d: string, h: string, mi: string, s: string): string {
    ['-'] + mo + ['-'] + d + ['T'] + h + [':'] + mi + [':'] + s + ['Z']
  }

  lemma SinceEpoch(days: nat)
    ensures Valid(CivilFromDays(days)) && CivilFromDays(days).year >= 1970
  {
    CivilCounts(days);
    if Earlier(CivilFromDays(days), Date(1970, 1, 1)) {
      CountOrdered(CivilFromDays(days), Date(1970, 1, 1));
    }
  }

  function Iso8601(secs: nat): string {
    var days := secs / 86_400;
    var sod := secs % 86_400;
    SinceEpoch(days);
    var date := CivilFromDays(days);
    Padded(date.year, 4) + Tail(date.month, date.day, sod / 3600, sod % 3600 / 60, sod % 60)
  }

  // ---------------------------------------------------------------- reading

  /** A field of two digits. */
  predicate Field(s: string, at: nat) {
    at + 2 <= |s| && IsDigit(s[at]) && IsDigit(s[at + 1])
  }

  function FieldValue(s: string, at: nat): nat
    requires Field(s, at)
  {
    10 * ValueOf(s[at]) + ValueOf(s[at + 1])
  }

  predicate TailShape(t: string) {
    && |t| == 16
    && t[0] == '-' && t[3] == '-' && t[6] == 'T' && t[9] == ':' && t[12] == ':' && t[15] == 'Z'
    && Field(t, 1) && Field(t, 4) && Field(t, 7) && Field(t, 10) && Field(t, 13)
  }

  /** The extended format of a UTC instant, with at least four digits of year. */
  predicate IsoShape(s: string) {
    |s| >= 20 && AllDigits(s[..|s| - 16]) && TailShape(s[|s| - 16..])
  }

  function IsoDate(s: string): Date
    requires IsoShape(s)
  {
    var t := s[|s| - 16..];
    Date(Number(s[..|s| - 16]), FieldValue(t, 1), FieldValue(t, 4))
  }

  function IsoSecondOfDay(s: string): nat
    requires IsoShape(s)
  {
    var t := s[|s| - 16..];
    3600 * FieldValue(t, 7) + 60 * FieldValue(t, 10) + FieldValue(t, 13)
  }

  lemma FieldOf(n: nat, s: string, at: nat)
    requires n < 100 && at + 2 <= |s| && s[at..at + 2] == Padded(n, 2)
    ensures Field(s, at) && FieldValue(s, at) == n
  {
    TwoDigits(n);
    NumberPadded(n, 2);
    var f := s[at..at + 2];
    assert s[at] == f[0] && s[at + 1] == f[1];
    assert f[..1][..0] == [];
    assert Number(f[..1]) == ValueOf(f[0]);
  }

  lemma FieldsLaidOut(mo: string, d: string, h: string, mi: string, s: string)
    requires |mo| == 2 && |d| == 2 && |h| == 2 && |mi| == 2 && |s| == 2
    ensures
      var t := Fields(mo, d, h, mi, s);
      && |t| == 16
      && t[0] == '-' && t[3] == '-' && t[6] == 'T' && t[9] == ':' && t[12] == ':' && t[15] == 'Z'
      && t[1..3] == mo && t[4..6] == d && t[7..9] == h && t[10..12] == mi && t[13..15] == s
  {
    var t := Fields(mo, d, h, mi, s);
    assert t == ['-', mo[0], mo[1], '-', d[0], d[1], 'T', h[0], h[1], ':', mi[0], mi[1], ':', s[0], s[1], 'Z'];
  }

  lemma TailReads(mo: nat, d: nat, h: nat, mi: nat, s: nat)
    requires mo < 100 && d < 100 && h < 100 && mi < 100 && s < 100
    ensures
      var t := Tail(mo, d, h, mi, s);
      && TailShape(t)
      && FieldValue(t, 1) == mo && FieldValue(t, 4) == d
      && FieldValue(t, 7) == h && FieldValue(t, 10) == mi && FieldValue(t, 13) == s
  {
    var t := Tail(mo, d, h, mi, s);
    TwoDigits(mo);
    TwoDigits(d);
    TwoDigits(h);
    TwoDigits(mi);
    TwoDigits(s);
    hide Padded, Fields, FieldValue, Field;
    FieldsLaidOut(Padded(mo, 2), Padded(d, 2), Padded(h, 2), Padded(mi, 2), Padded(s, 2));
    FieldOf(mo, t, 1);
    FieldOf(d, t, 4);
    FieldOf(h, t, 7);
    FieldOf(mi, t, 10);
    FieldOf(s, t, 13);
  }

  lemma TimeOfDay(sod: nat)
    requires sod < 86_400
    ensures sod / 3600 < 24 && sod % 3600 / 60 < 60
    ensures 3600 * (sod / 3600) + 60 * (sod % 3600 / 60) + sod % 60 == sod
  {
    assert sod % 60 == sod % 3600 % 60;
  }

  /** The text, by its two parts. */
  lemma IsoParts(secs: nat) returns (days: nat, sod: nat, year: string, t: string)
    ensures secs == 86_400 * days + sod && sod < 86_400
    ensures Valid(CivilFromDays(days)) && CivilFromDays(days).year >= 1970
    ensures year == Padded(CivilFromDays(days).year, 4)
    ensures t == Tail(CivilFromDays(days).month, CivilFromDays(days).day, sod / 3600, sod % 3600 / 60, sod % 60)
    ensures Iso8601(secs) == year + t
  {
    days := secs / 86_400;
    sod := secs % 86_400;
    SinceEpoch(days);
    hide CivilFromDays, Padded, Tail;
    var date := CivilFromDays(days);
    year := Padded(date.year, 4);
    t := Tail(date.month, date.day, sod / 3600, sod % 3600 / 60, sod % 60);
  }

  /** The text names exactly its instant: read back as a calendar date and a time of
      day, it gives the seconds it was made from, so different instants differ. */
  lemma IsoReadsBack(secs: nat)
    ensures IsoShape(Iso8601(secs)) && Valid(IsoDate(Iso8601(secs)))
    ensures IsoSecondOfDay(Iso8601(secs)) < 86_400
    ensures 86_400 * DayNumber(IsoDate(Iso8601(secs))) + IsoSecondOfDay(Iso8601(secs)) == secs
  {
    hide *;
    var days, sod, year, t := IsoParts(secs);
    var date := CivilFromDays(days);
    CivilCounts(days);
    DateFields(date);
    TimeOfDay(sod);
    TailReads(date.month, date.day, sod / 3600, sod % 3600 / 60, sod % 60);
    NumberPadded(date.year, 4);
    ShapeOf(year, t);
    ReadOf(year, t);
  }

  lemma DateFields(date: Date)
    requires Valid(date)
    ensures 1 <= date.month <= 12 && 1 <= date.day <= 31
  {
  }

  lemma ShapeOf(year: string, t: string)
    requires |year| >= 4 && AllDigits(year) && TailShape(t)
    ensures IsoShape(year + t)
  {
    Halves(year, t);
  }

  lemma ReadOf(year: string, t: string)
    requires |year| >= 4 && AllDigits(year) && TailShape(t) && IsoShape(year + t)
    ensures IsoDate(year + t) == Date(Number(year), FieldValue(t, 1), FieldValue(t, 4))
    ensures IsoSecondOfDay(year + t) == 3600 * FieldValue(t, 7) + 60 * FieldValue(t, 10) + FieldValue(t, 13)
  {
    Halves(year, t);
  }
}
