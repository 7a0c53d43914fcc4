/** src/common/utils/time.util.ts: Vietnam calendar days and the monthly reset. */
module VnTime {
  import opened Prelude
  import opened Calendar
  import opened Text

  const VN_OFFSET_MS := 7 * 60 * 60 * 1000

  /** An instant whose Vietnam-shifted copy is still a valid Date. */
  type Instant = t: int | -MAX_TIME <= t <= MAX_TIME - VN_OFFSET_MS witness 0

  /** `new Date(t)`: outside the range the Date is invalid. */
  function TimeClip(t: int): Option<int> {
    if InRange(t) then Some(t) else None
  }

  function VnDay(t: int): int {
    Day(t + VN_OFFSET_MS)
  }

  function VnCivil(t: int): Civil {
    CivilFromDay(VnDay(t))
  }

  predicate FourDigitYear(c: Civil) {
    0 <= c.year <= 9999
  }

  function MonthPart(c: Civil): string
    requires 0 <= c.month
  {
    "-" + Pad(c.month + 1, 2)
  }

  function DatePart(c: Civil): string
    requires 0 <= c.date
  {
    "-" + Pad(c.date, 2)
  }

  function AbsYear(c: Civil): nat {
    if c.year < 0 then -c.year else c.year
  }

  function YearSign(c: Civil): char {
    if c.year < 0 then '-' else '+'
  }

  /** The date part of toISOString; other years use a sign and six digits. */
  function IsoDate(c: Civil): string
    requires 0 <= c.month && 0 <= c.date
  {
    (if FourDigitYear(c) then Pad(c.year, 4) else [YearSign(c)] + Pad(AbsYear(c), 6))
    + MonthPart(c) + DatePart(c)
  }

  /** vnDayKey; None where toISOString throws a RangeError. The time of day that
      follows the date never reaches the first ten characters. */
  function VnDayKey(t: int): (key: Option<string>)
    ensures key.Some? <==> InRange(t + VN_OFFSET_MS)
  {
    match TimeClip(t + VN_OFFSET_MS)
    case None => None
    case Some(v) => Some(IsoDate(CivilFromDay(Day(v)))[..10])
  }

  /** isSameVnDay. */
  function IsSameVnDay(a: int, b: int): Option<bool> {
    match (VnDayKey(a), VnDayKey(b))
    case (Some(j), Some(k)) => Some(j == k)
    case _ => None
  }

  lemma YearBound(t: int)
    requires InRange(t)
    ensures -999_999 <= CivilFromDay(Day(t)).year <= 999_999
  {
    var d := Day(t);
    var y := CivilFromDay(d).year;
    YearsIncrease(-999_999, 1970);
    YearsIncrease(1970, 999_999);
    CivilFromDayBounds(d);
    if y < -999_999 { YearsIncrease(y + 1, -999_999); }
    if 999_999 < y { YearsIncrease(999_999, y); }
  }

  /** What a key says: the whole date up to year 9999, only year and month outside. */
  lemma KeyParts(t: Instant)
    ensures var c := VnCivil(t);
            VnDayKey(t) == Some(
              if FourDigitYear(c) then Pad(c.year, 4) + (MonthPart(c) + DatePart(c))
              else [YearSign(c)] + (Pad(AbsYear(c), 6) + MonthPart(c)))
  {
    hide CivilFromDay, Pad;
    var c := VnCivil(t);
    if FourDigitYear(c) {
      assert IsoDate(c)[..10] == Pad(c.year, 4) + (MonthPart(c) + DatePart(c));
    } else {
      assert IsoDate(c)[..10] == [YearSign(c)] + (Pad(AbsYear(c), 6) + MonthPart(c));
    }
  }

  lemma Dashed(n: nat, m: nat)
    requires n < 100 && m < 100
    ensures "-" + Pad(n, 2) == "-" + Pad(m, 2) <==> n == m
    ensures LexLess("-" + Pad(n, 2), "-" + Pad(m, 2)) <==> n < m
  {
    SplitEqual("-", "-", Pad(n, 2), Pad(m, 2));
    LexConcat("-", "-", Pad(n, 2), Pad(m, 2));
    PadInjective(n, m, 2);
    PadOrder(n, m, 2);
  }

  lemma SameFullKey(c: Civil, d: Civil)
    requires FourDigitYear(c) && FourDigitYear(d) && ValidCivil(c) && ValidCivil(d)
    ensures Pad(c.year, 4) + (MonthPart(c) + DatePart(c)) == Pad(d.year, 4) + (MonthPart(d) + DatePart(d))
            <==> c == d
  {
    hide Pad;
    SplitEqual(Pad(c.year, 4), Pad(d.year, 4), MonthPart(c) + DatePart(c), MonthPart(d) + DatePart(d));
    SplitEqual(MonthPart(c), MonthPart(d), DatePart(c), DatePart(d));
    PadInjective(c.year, d.year, 4);
    Dashed(c.month + 1, d.month + 1);
    Dashed(c.date, d.date);
  }

  lemma SameMonthKey(c: Civil, d: Civil)
    requires AbsYear(c) <= 999_999 && AbsYear(d) <= 999_999 && ValidCivil(c) && ValidCivil(d)
    requires !FourDigitYear(c) && !FourDigitYear(d)
    ensures [YearSign(c)] + (Pad(AbsYear(c), 6) + MonthPart(c)) == [YearSign(d)] + (Pad(AbsYear(d), 6) + MonthPart(d))
            <==> c.year == d.year && c.month == d.month
  {
    hide Pad;
    SplitEqual([YearSign(c)], [YearSign(d)], Pad(AbsYear(c), 6) + MonthPart(c), Pad(AbsYear(d), 6) + MonthPart(d));
    SplitEqual(Pad(AbsYear(c), 6), Pad(AbsYear(d), 6), MonthPart(c), MonthPart(d));
    PadInjective(AbsYear(c), AbsYear(d), 6);
    Dashed(c.month + 1, d.month + 1);
    assert [YearSign(c)][0] == YearSign(c) && [YearSign(d)][0] == YearSign(d);
  }

  /** isSameVnDay decides the Vietnam day exactly, except that outside the years
      0 to 9999 it cannot tell two days of one month apart. */
  lemma SameKeyIff(a: Instant, b: Instant)
    ensures var (c, d) := (VnCivil(a), VnCivil(b));
            IsSameVnDay(a, b) == Some(
              || VnDay(a) == VnDay(b)
              || (!FourDigitYear(c) && !FourDigitYear(d) && c.year == d.year && c.month == d.month))
  {
    hide CivilFromDay, Pad, VnDayKey, Day, MakeDay;
    var c, d := VnCivil(a), VnCivil(b);
    KeyParts(a); KeyParts(b);
    YearBound(a + VN_OFFSET_MS); YearBound(b + VN_OFFSET_MS);
    DayToCivilToDay(VnDay(a)); DayToCivilToDay(VnDay(b));
    if FourDigitYear(c) && FourDigitYear(d) {
      SameFullKey(c, d);
    } else if !FourDigitYear(c) && !FourDigitYear(d) {
      SameMonthKey(c, d);
    } else {
      PadDigit(if FourDigitYear(c) then c.year else d.year, 4);
      assert VnDayKey(a).value[0] != VnDayKey(b).value[0];
    }
  }

  /** An instant between two instants of one key has that key too. */
  lemma SameDayBetween(a: Instant, b: Instant, c: Instant)
    requires a <= b <= c && IsSameVnDay(a, c) == Some(true)
    ensures IsSameVnDay(b, c) == Some(true)
  {
    hide CivilFromDay, IsSameVnDay;
    SameKeyIff(a, c);
    SameKeyIff(b, c);
    CivilOrder(VnDay(a), VnDay(b));
    CivilOrder(VnDay(b), VnDay(c));
  }

  /** Up to year 9999 the key is an order embedding of Vietnam days. */
  lemma KeyOrder(a: Instant, b: Instant)
    requires FourDigitYear(VnCivil(a)) && FourDigitYear(VnCivil(b))
    ensures LexLess(VnDayKey(a).value, VnDayKey(b).value) <==> VnDay(a) < VnDay(b)
  {
    hide CivilFromDay, Pad, VnDayKey, Day, LexLess;
    var c, d := VnCivil(a), VnCivil(b);
    KeyParts(a); KeyParts(b);
    CivilOrder(VnDay(a), VnDay(b));
    LexConcat(Pad(c.year, 4), Pad(d.year, 4), MonthPart(c) + DatePart(c), MonthPart(d) + DatePart(d));
    LexConcat(MonthPart(c), MonthPart(d), DatePart(c), DatePart(d));
    PadOrder(c.year, d.year, 4);
    PadInjective(c.year, d.year, 4);
    Dashed(c.month + 1, d.month + 1);
    Dashed(c.date, d.date);
  }

  function InstantOf(year: int, month: int, date: int): int {
    MakeDay(year, month, date) * MS_PER_DAY - VN_OFFSET_MS
  }

  /** Midnight of 1 and 2 January 10000: different days, one key. */
  lemma KeyCoarseAfter9999()
    ensures var (a, b) := (InstantOf(10000, 0, 1), InstantOf(10000, 0, 2));
            VnDay(a) != VnDay(b) && IsSameVnDay(a, b) == Some(true)
  {
    hide CivilFromDay, IsSameVnDay;
    var (a, b) := (InstantOf(10000, 0, 1), InstantOf(10000, 0, 2));
    CivilToDayToCivil(Civil(10000, 0, 1));
    CivilToDayToCivil(Civil(10000, 0, 2));
    assert VnDay(a) == MakeDay(10000, 0, 1) && VnDay(b) == MakeDay(10000, 0, 2);
    SameKeyIff(a, b);
  }

  /** Date.UTC at midnight (section 21.4.3.4): years 0 to 99 mean 1900 to 1999. */
  function DateUtc(year: int, month: int, date: int): Option<int> {
    var y := if 0 <= year <= 99 then 1900 + year else year;
    TimeClip(MakeDay(y, month, date) * MS_PER_DAY)
  }

  /** nextMonthlyResetAt; None stands for an invalid Date. */
  function NextMonthlyResetAt(now: int): Option<int> {
    match TimeClip(now + VN_OFFSET_MS)
    case None => None
    case Some(vn) =>
      var c := CivilFromDay(Day(vn));
      match DateUtc(c.year, c.month + 1, 1)
      case None => None
      case Some(u) => TimeClip(u - VN_OFFSET_MS)
  }

  /** 00:00 Vietnam time on the first of a month. */
  predicate IsVnMonthStart(s: int) {
    (s + VN_OFFSET_MS) % MS_PER_DAY == 0 && VnCivil(s).date == 1
  }

  ghost predicate IsNextVnMonthStart(r: int, now: int) {
    now < r && IsVnMonthStart(r) && forall s :: now < s < r ==> !IsVnMonthStart(s)
  }

  lemma NextMonthStartUnique(now: int, r: int, s: int)
    requires IsNextVnMonthStart(r, now) && IsNextVnMonthStart(s, now)
    ensures r == s
  {
  }

  /** The end of the Vietnam month of now, with no clipping and no year remapping. */
  function MonthEnd(now: int): int {
    InstantOf(VnCivil(now).year, VnCivil(now).month + 1, 1)
  }

  function FollowingMonth(c: Civil): Civil {
    if c.month < 11 then Civil(c.year, c.month + 1, 1) else Civil(c.year + 1, 0, 1)
  }

  lemma MonthEndCivil(now: int)
    ensures VnCivil(MonthEnd(now)) == FollowingMonth(VnCivil(now))
    ensures (MonthEnd(now) + VN_OFFSET_MS) % MS_PER_DAY == 0
  {
    hide CivilFromDay, DayFromYear, MonthStart;
    var c := VnCivil(now);
    var n := FollowingMonth(c);
    assert MakeDay(c.year, c.month + 1, 1) == MakeDay(n.year, n.month, n.date);
    CivilToDayToCivil(n);
    assert VnDay(MonthEnd(now)) == MakeDay(n.year, n.month, n.date);
  }

  lemma MonthEndIsNext(now: int)
    ensures IsNextVnMonthStart(MonthEnd(now), now)
  {
    hide CivilFromDay, MonthEnd;
    var r := MonthEnd(now);
    MonthEndCivil(now);
    CivilOrder(VnDay(now), VnDay(r));
    forall s | now < s < r ensures !IsVnMonthStart(s) {
      if IsVnMonthStart(s) {
        CivilOrder(VnDay(now), VnDay(s));
        CivilOrder(VnDay(s), VnDay(now));
        CivilOrder(VnDay(s), VnDay(r));
        assert false;
      }
    }
  }

  predicate RemappedYear(now: int) {
    0 <= VnCivil(now).year <= 99
  }

  function EffectiveYear(now: int): int {
    VnCivil(now).year + if RemappedYear(now) then 1900 else 0
  }

  lemma ResetValue(now: int)
    ensures var u := MakeDay(EffectiveYear(now), VnCivil(now).month + 1, 1) * MS_PER_DAY;
            NextMonthlyResetAt(now) ==
            if InRange(now + VN_OFFSET_MS) && InRange(u) && InRange(u - VN_OFFSET_MS) then Some(u - VN_OFFSET_MS)
            else None
  {
    hide CivilFromDay, MakeDay;
  }

  lemma LaterCentury(y: int, m: int)
    requires 0 <= m < 12
    ensures MakeDay(y, m + 1, 1) < MakeDay(1900 + y, m + 1, 1)
  {
    var k := (m + 1) / 12;
    YearsIncrease(y + k, y + k + 1900);
  }

  /** The reset instant is the next first-of-month midnight in Vietnam exactly when
      the year is not one that Date.UTC remaps. */
  lemma NextResetCorrect(now: int)
    requires NextMonthlyResetAt(now).Some?
    ensures IsNextVnMonthStart(NextMonthlyResetAt(now).value, now) <==> !RemappedYear(now)
  {
    hide CivilFromDay, MakeDay, NextMonthlyResetAt, IsVnMonthStart;
    ResetValue(now);
    MonthEndIsNext(now);
    LaterCentury(VnCivil(now).year, VnCivil(now).month);
  }

  lemma EarlyYearsInRange(y: int, m: int)
    requires 1900 <= y <= 1999 && 0 <= m < 12
    ensures -100_000 <= MakeDay(y, m + 1, 1) <= 100_000
  {
    var k := (m + 1) / 12;
    YearsIncrease(1900, y + k);
    YearsIncrease(1900, 1970);
    YearsIncrease(1970, 2000);
    YearsIncrease(y + k, 2000);
  }

  /** It is missing exactly when the shifted instant, or the next month start in
      shifted time, is past the last valid Date. */
  lemma NextResetDefined(now: int)
    requires InRange(now)
    ensures NextMonthlyResetAt(now).None? <==>
            || now + VN_OFFSET_MS > MAX_TIME
            || (!RemappedYear(now) && MonthEnd(now) + VN_OFFSET_MS > MAX_TIME)
  {
    hide CivilFromDay, MakeDay, NextMonthlyResetAt, IsVnMonthStart;
    ResetValue(now);
    MonthEndIsNext(now);
    if RemappedYear(now) { EarlyYearsInRange(EffectiveYear(now), VnCivil(now).month); }
  }

  lemma ResetConstantInMonth(a: int, b: int)
    requires InRange(a + VN_OFFSET_MS) && InRange(b + VN_OFFSET_MS)
    requires VnCivil(a).year == VnCivil(b).year && VnCivil(a).month == VnCivil(b).month
    ensures NextMonthlyResetAt(a) == NextMonthlyResetAt(b)
  {
    hide CivilFromDay, MakeDay, NextMonthlyResetAt;
    ResetValue(a);
    ResetValue(b);
  }

  /** Two resets in a row are one whole month apart. */
  lemma ResetSpacing(now: int)
    requires NextMonthlyResetAt(now).Some? && !RemappedYear(now)
    requires var r := NextMonthlyResetAt(now).value; NextMonthlyResetAt(r).Some? && !RemappedYear(r)
    ensures var r := NextMonthlyResetAt(now).value;
            var days := DaysInMonth(VnCivil(r).year, VnCivil(r).month);
            28 <= days <= 31 && NextMonthlyResetAt(r).value - r == days * MS_PER_DAY
  {
    hide CivilFromDay, MakeDay, NextMonthlyResetAt, DaysInMonth;
    var r := NextMonthlyResetAt(now).value;
    ResetValue(now);
    ResetValue(r);
    MonthEndCivil(now);
    var c := VnCivil(r);
    assert VnCivil(r).date == 1;
    DayToCivilToDay(VnDay(r));
    MonthGap(c.year, c.month);
  }

  lemma MonthGap(y: int, m: int)
    requires 0 <= m < 12
    ensures 28 <= DaysInMonth(y, m) <= 31
    ensures MakeDay(y, m + 1, 1) - MakeDay(y, m, 1) == DaysInMonth(y, m)
  {
    hide MonthStart, DayFromYear;
    MonthLength(y, m);
    YearEnds(y);
    YearEnds(y + 1);
    assert m / 12 == 0 && m % 12 == m;
    assert m < 11 ==> (m + 1) / 12 == 0 && (m + 1) % 12 == m + 1;
  }
}
