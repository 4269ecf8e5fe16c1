/** The civil calendar: two integer algorithms, their text form, and what compaction asks of both. */
module Calendar {
  import opened Text

  const MICROS_PER_DAY := 86_400_000_000

  datatype Civil = Civil(y: int, m: int, d: int)

  // ---- the two algorithms ---------------------------------------------------

  function DaysFromCivil(y: int, m: int, d: int): int {
    var yy := if m <= 2 then y - 1 else y;
    var era := yy / 400;
    var yoe := yy - era * 400;
    var doy := (153 * (if m > 2 then m - 3 else m + 9) + 2) / 5 + d - 1;
    var doe := yoe * 365 + yoe / 4 - yoe / 100 + doy;
    era * 146_097 + doe - 719_468
  }

  function CivilFromDays(z: int): Civil {
    var era := (z + 719_468) / 146_097;
    var doe := (z + 719_468) % 146_097;
    var yoe := YearOfEra(doe);
    var doy := doe - (365 * yoe + yoe / 4 - yoe / 100);
    var mp := (5 * doy + 2) / 153;
    var d := doy - (153 * mp + 2) / 5 + 1;
    var m := if mp < 10 then mp + 3 else mp - 9;
    Civil(if m <= 2 then yoe + era * 400 + 1 else yoe + era * 400, m, d)
  }

  function YearOfEra(doe: int): int {
    (doe - doe / 1460 + doe / 36524 - doe / 146_096) / 365
  }

  // ---- the Gregorian calendar, said independently of them -------------------

  /** The leap rule of Appendix C of RFC 3339. */
  predicate IsLeap(y: int) {
    y % 4 == 0 && (y % 100 != 0 || y % 400 == 0)
  }

  /** The month lengths of section 5.7 of RFC 3339. */
  function MonthLength(y: int, m: int): int {
    if m == 2 then if IsLeap(y) then 29 else 28
    else if m == 4 || m == 6 || m == 9 || m == 11 then 30
    else 31
  }

  predicate IsDate(c: Civil) {
    1 <= c.m <= 12 && 1 <= c.d <= MonthLength(c.y, c.m)
  }

  function NextDay(c: Civil): Civil {
    if c.d < MonthLength(c.y, c.m) then Civil(c.y, c.m, c.d + 1)
    else if c.m < 12 then Civil(c.y, c.m + 1, 1)
    else Civil(c.y + 1, 1, 1)
  }

  predicate DateBefore(a: Civil, b: Civil) {
    a.y < b.y || (a.y == b.y && (a.m < b.m || (a.m == b.m && a.d < b.d)))
  }

  // ---- inside one era of 400 years, each year beginning in March ------------

  function YearStart(yoe: int): int {
    365 * yoe + yoe / 4 - yoe / 100
  }

  /** The length of the March-based year, whose last day is in February of the next one. */
  function YearLength(yoe: int): int {
    if IsLeap(yoe + 1) then 366 else 365
  }

  lemma YearOfEraExact(c: int, q: int, r: int, doy: int)
    requires 0 <= c < 4 && 0 <= q < 25 && 0 <= r < 4
    requires 0 <= doy < YearLength(100 * c + 4 * q + r)
    ensures YearOfEra(YearStart(100 * c + 4 * q + r) + doy) == 100 * c + 4 * q + r
    ensures 0 <= YearStart(100 * c + 4 * q + r) + doy < 146_097
  {
    var yoe := 100 * c + 4 * q + r;
    assert yoe / 4 == 25 * c + q && yoe / 100 == c;
    var doe := YearStart(yoe) + doy;
    assert doe == 36524 * c + 1461 * q + 365 * r + doy;
    var over := if 24 * c + q + 365 * r + doy < 1460 then 0 else 1;
    assert doe / 1460 == 25 * c + q + over;
    var last := if doe == 146_096 then 1 else 0;
    assert doe <= 146_096;
    assert doe / 36524 == c + last;
    assert (doe - doe / 1460 + doe / 36524 - doe / 146_096) / 365 == yoe;
  }

  lemma YearOfEraAt(yoe: int, doy: int)
    requires 0 <= yoe < 400 && 0 <= doy < YearLength(yoe)
    ensures YearOfEra(YearStart(yoe) + doy) == yoe && 0 <= YearStart(yoe) + doy < 146_097
  {
    var c, q, r := yoe / 100, yoe % 100 / 4, yoe % 4;
    assert yoe == 100 * c + 4 * q + r;
    YearOfEraExact(c, q, r, doy);
  }

  lemma YearStartAt(c: int, q: int, r: int)
    requires 0 <= c < 4 && 0 <= q < 25 && 0 <= r < 4
    ensures YearStart(100 * c + 4 * q + r) == 36524 * c + 1461 * q + 365 * r
    ensures YearLength(100 * c + 4 * q + r) == if r == 3 && (q < 24 || c == 3) then 366 else 365
  {
  }

  lemma YearOfEraFound(doe: int) returns (yoe: int)
    requires 0 <= doe < 146_097
    ensures yoe == YearOfEra(doe) && 0 <= yoe < 400
    ensures 0 <= doe - YearStart(yoe) < YearLength(yoe)
  {
    var c := if doe < 3 * 36524 then doe / 36524 else 3;
    var inCentury := doe - 36524 * c;
    assert 0 <= c < 4 && 0 <= inCentury < 36525 && (c < 3 ==> inCentury < 36524);
    var q := inCentury / 1461;
    var inFour := inCentury - 1461 * q;
    assert 0 <= q < 25 && 0 <= inFour < 1461 && (c < 3 && q == 24 ==> inFour < 1460);
    var r := if inFour < 3 * 365 then inFour / 365 else 3;
    assert 0 <= r < 4 && 0 <= inFour - 365 * r < 366 && (r < 3 ==> inFour - 365 * r < 365);
    yoe := 100 * c + 4 * q + r;
    YearStartAt(c, q, r);
    YearOfEraExact(c, q, r, inFour - 365 * r);
  }

  /** The first day of a March-based month, counted from March the first. */
  function MonthStart(mp: int): int {
    (153 * mp + 2) / 5
  }

  lemma MonthOfYear(yoe: int, doy: int)
    requires 0 <= doy < YearLength(yoe)
    ensures var mp := (5 * doy + 2) / 153;
            var m := if mp < 10 then mp + 3 else mp - 9;
            && 0 <= mp < 12
            && 0 <= doy - MonthStart(mp) < MonthLength(if m <= 2 then yoe + 1 else yoe, m)
  {
    var mp := (5 * doy + 2) / 153;
    assert 0 <= mp < 12;
  }

  lemma MonthFound(y: int, m: int, d: int)
    requires IsDate(Civil(y, m, d))
    ensures var mp := if m > 2 then m - 3 else m + 9;
            var doy := MonthStart(mp) + d - 1;
            && (5 * doy + 2) / 153 == mp
            && 0 <= doy < YearLength(if m <= 2 then y - 1 else y)
  {
    var mp := if m > 2 then m - 3 else m + 9;
    assert 0 <= mp < 12;
  }

  lemma Remainder400(q: int, r: int)
    requires 0 <= r < 400
    ensures (400 * q + r) % 400 == r
  {
  }

  lemma ShiftBy400(y: int, era: int)
    ensures (y + era * 400) % 400 == y % 400
  {
    assert y + era * 400 == 400 * (y / 400 + era) + y % 400;
    Remainder400(y / 400 + era, y % 400);
  }

  lemma Remainder100(q: int, r: int)
    requires 0 <= r < 100
    ensures (100 * q + r) % 100 == r
  {
  }

  lemma ShiftBy100(y: int, era: int)
    ensures (y + era * 400) % 100 == y % 100
  {
    assert y + era * 400 == 100 * (y / 100 + 4 * era) + y % 100;
    Remainder100(y / 100 + 4 * era, y % 100);
  }

  lemma Remainder4(q: int, r: int)
    requires 0 <= r < 4
    ensures (4 * q + r) % 4 == r
  {
  }

  lemma ShiftBy4(y: int, era: int)
    ensures (y + era * 400) % 4 == y % 4
  {
    assert y + era * 400 == 4 * (y / 4 + 100 * era) + y % 4;
    Remainder4(y / 4 + 100 * era, y % 4);
  }

  lemma LeapByEra(y: int, era: int)
    ensures IsLeap(y + era * 400) == IsLeap(y)
  {
    ShiftBy400(y, era);
    ShiftBy100(y, era);
    ShiftBy4(y, era);
  }

  // ---- the theorems ---------------------------------------------------------

  /** Every day number names a real Gregorian date, and that date names the day number back. */
  lemma DaysRoundTrip(z: int)
    ensures var c := CivilFromDays(z);
            IsDate(c) && DaysFromCivil(c.y, c.m, c.d) == z
  {
    var era, doe := (z + 719_468) / 146_097, (z + 719_468) % 146_097;
    var yoe := YearOfEraFound(doe);
    MonthOfYear(yoe, doe - YearStart(yoe));
    LeapByEra(yoe, era);
    LeapByEra(yoe + 1, era);
    var c := CivilFromDays(z);
    var yy := if c.m <= 2 then c.y - 1 else c.y;
    assert yy == yoe + era * 400 && yy / 400 == era;
  }

  lemma EraSplits(era: int, doe: int)
    requires 0 <= doe < 146_097
    ensures (era * 146_097 + doe) / 146_097 == era && (era * 146_097 + doe) % 146_097 == doe
  {
  }

  lemma DaysInEra(era: int, yoe: int, m: int, d: int)
    requires 0 <= yoe < 400 && 1 <= m <= 12
    ensures DaysFromCivil(if m <= 2 then era * 400 + yoe + 1 else era * 400 + yoe, m, d)
            == era * 146_097 + YearStart(yoe) + MonthStart(if m > 2 then m - 3 else m + 9) + d - 1 - 719_468
  {
    assert (era * 400 + yoe) / 400 == era;
  }

  lemma DayInYear(era: int, yoe: int, y: int, m: int, d: int)
    requires 0 <= yoe < 400 && y == if m <= 2 then era * 400 + yoe + 1 else era * 400 + yoe
    requires IsDate(Civil(y, m, d))
    ensures var mp := if m > 2 then m - 3 else m + 9;
            var doy := MonthStart(mp) + d - 1;
            (5 * doy + 2) / 153 == mp && 0 <= doy < YearLength(yoe)
  {
    LeapByEra(yoe + 1, era);
    assert yoe + 1 + era * 400 == era * 400 + yoe + 1;
    MonthFound(y, m, d);
  }

  lemma CivilInEra(era: int, yoe: int, doy: int, mp: int, z: int)
    requires 0 <= yoe < 400 && 0 <= doy < YearLength(yoe) && (5 * doy + 2) / 153 == mp
    requires z == era * 146_097 + (YearStart(yoe) + doy) - 719_468
    ensures CivilFromDays(z) ==
      var m := if mp < 10 then mp + 3 else mp - 9;
      Civil(if m <= 2 then yoe + era * 400 + 1 else yoe + era * 400, m, doy - MonthStart(mp) + 1)
  {
    YearOfEraAt(yoe, doy);
    EraSplits(era, YearStart(yoe) + doy);
  }

  lemma DateRoundTrip(y: int, m: int, d: int)
    requires IsDate(Civil(y, m, d))
    ensures CivilFromDays(DaysFromCivil(y, m, d)) == Civil(y, m, d)
  {
    var yy := if m <= 2 then y - 1 else y;
    var era, yoe := yy / 400, yy % 400;
    var mp := if m > 2 then m - 3 else m + 9;
    var doy := MonthStart(mp) + d - 1;
    DayInYear(era, yoe, y, m, d);
    DaysInEra(era, yoe, m, d);
    CivilInEra(era, yoe, doy, mp, DaysFromCivil(y, m, d));
  }

  /** The round trip stands in for a month-length table: it succeeds exactly on real dates. */
  lemma RoundTripIsTheMonthTable(y: int, m: int, d: int)
    requires 1 <= m <= 12 && d >= 1
    ensures CivilFromDays(DaysFromCivil(y, m, d)) == Civil(y, m, d) <==> d <= MonthLength(y, m)
  {
    if d <= MonthLength(y, m) {
      DateRoundTrip(y, m, d);
    } else {
      DaysRoundTrip(DaysFromCivil(y, m, d));
    }
  }

  lemma YearStartSteps(yoe: int)
    requires 0 <= yoe < 400
    ensures YearStart(yoe) + YearLength(yoe) == if yoe == 399 then 146_097 else YearStart(yoe + 1)
  {
  }

  lemma FebruaryEnds(y: int)
    ensures DaysFromCivil(y, 3, 1) == DaysFromCivil(y, 2, MonthLength(y, 2)) + 1
  {
    var era, yoe := (y - 1) / 400, (y - 1) % 400;
    LeapByEra(yoe + 1, era);
    YearStartSteps(yoe);
    assert y / 400 == if yoe == 399 then era + 1 else era;
    assert DaysFromCivil(y, 2, MonthLength(y, 2)) == era * 146_097 + YearStart(yoe) + YearLength(yoe) - 1 - 719_468;
  }

  lemma NextDayIsNextNumber(c: Civil)
    requires IsDate(c)
    ensures var n := NextDay(c);
            IsDate(n) && DaysFromCivil(n.y, n.m, n.d) == DaysFromCivil(c.y, c.m, c.d) + 1
  {
    if c.m == 2 && c.d == MonthLength(c.y, 2) { FebruaryEnds(c.y); }
  }

  lemma EpochIsDayZero()
    ensures DaysFromCivil(1970, 1, 1) == 0
  {
  }

  /** Counting days is counting Gregorian days: from 1970-01-01, one at a time, in both directions. */
  lemma CountsGregorianDays(z: int)
    ensures CivilFromDays(0) == Civil(1970, 1, 1)
    ensures CivilFromDays(z + 1) == NextDay(CivilFromDays(z))
  {
    EpochIsDayZero();
    DateRoundTrip(1970, 1, 1);
    DaysRoundTrip(z);
    NextDayIsNextNumber(CivilFromDays(z));
    var n := NextDay(CivilFromDays(z));
    DateRoundTrip(n.y, n.m, n.d);
  }

  lemma NextDayIsLater(a: Civil, b: Civil)
    requires IsDate(b) && (a == b || DateBefore(a, b))
    ensures DateBefore(a, NextDay(b))
  {
  }

  lemma {:induction false} SuccessiveDaysAreLater(day: int -> Civil, z: int, n: nat)
    requires n > 0
    requires forall i :: IsDate(day(i)) && day(i + 1) == NextDay(day(i))
    ensures DateBefore(day(z), day(z + n))
    decreases n
  {
    if n > 1 { SuccessiveDaysAreLater(day, z, n - 1); }
    assert day(z + n - 1 + 1) == NextDay(day(z + n - 1));
    NextDayIsLater(day(z), day(z + n - 1));
  }

  lemma LaterIsBefore(day: int -> Civil, z: int, z': int)
    requires forall i :: IsDate(day(i)) && day(i + 1) == NextDay(day(i))
    ensures DateBefore(day(z), day(z')) <==> z < z'
  {
    if z < z' { SuccessiveDaysAreLater(day, z, z' - z); }
    if z' < z { SuccessiveDaysAreLater(day, z', z - z'); }
  }

  /** Dates in calendar order are days in order. */
  lemma DateOrderIsDayOrder(z: int, z': int)
    ensures DateBefore(CivilFromDays(z), CivilFromDays(z')) <==> z < z'
  {
    forall i ensures IsDate(CivilFromDays(i)) && CivilFromDays(i + 1) == NextDay(CivilFromDays(i)) {
      DaysRoundTrip(i);
      CountsGregorianDays(i);
    }
    LaterIsBefore(CivilFromDays, z, z');
  }

  // ---- the text form, full-date of section 5.6 of RFC 3339 -------------------

  function DateText(c: Civil): string
    requires c.m >= 0 && c.d >= 0
  {
    Signed(c.y, 4) + "-" + Padded(c.m, 2) + "-" + Padded(c.d, 2)
  }

  function DateOf(micros: int): string {
    var c := CivilFromDays(micros / MICROS_PER_DAY);
    DaysRoundTrip(micros / MICROS_PER_DAY);
    DateText(c)
  }

  /** The three numbers in ten characters of `YYYY-MM-DD`, each as the integer parse reads it. */
  function ParseDate(date: string): (c: Option<Civil>)
    ensures c.Some? ==> c.value.m >= 0 && c.value.d >= 0
  {
    if |date| != 10 || date[4] != '-' || date[7] != '-' then None
    else
      match (ParseSigned(date[0..4]), ParseUnsigned(date[5..7]), ParseUnsigned(date[8..10]))
      case (Some(y), Some(m), Some(d)) => Some(Civil(y, m, d))
      case _ => None
  }

  /** The day check, with no month-length table: a real month and day survive the round trip. */
  function MidnightOfCivil(c: Civil): Option<int> {
    if !(1 <= c.m <= 12) || c.d < 1 then None
    else if CivilFromDays(DaysFromCivil(c.y, c.m, c.d)) != c then None
    else Some(DaysFromCivil(c.y, c.m, c.d) * MICROS_PER_DAY)
  }

  function MidnightOf(date: string): Option<int> {
    match ParseDate(date)
    case Some(c) => MidnightOfCivil(c)
    case None => None
  }

  function YearOf(micros: int): int {
    CivilFromDays(micros / MICROS_PER_DAY).y
  }

  lemma DateTextShape(c: Civil)
    requires IsDate(c)
    ensures |Padded(c.m, 2)| == |Padded(c.d, 2)| == 2
    ensures |DateText(c)| == |Signed(c.y, 4)| + 6
    ensures |Signed(c.y, 4)| == 4 <==> -999 <= c.y <= 9999
  {
    assert Pow10(2) == 10 * Pow10(1) == 100 * Pow10(0);
    assert Pow10(4) == 10 * Pow10(3) == 100 * Pow10(2);
    PaddedWidth(c.m, 2);
    PaddedWidth(c.d, 2);
    if c.y < 0 { PaddedWidth(-c.y, 3); } else { PaddedWidth(c.y, 4); }
  }

  lemma ParseDateText(c: Civil)
    requires IsDate(c)
    ensures ParseDate(DateText(c)) == if -999 <= c.y <= 9999 then Some(c) else None
  {
    DateTextShape(c);
    var s := DateText(c);
    if -999 <= c.y <= 9999 {
      assert s[0..4] == Signed(c.y, 4) && s[5..7] == Padded(c.m, 2) && s[8..10] == Padded(c.d, 2);
      ParseSignedText(c.y, 4);
      ParsePadded(c.m, 2);
      ParsePadded(c.d, 2);
    }
  }

  lemma MidnightOfRealDate(c: Civil)
    requires IsDate(c)
    ensures MidnightOfCivil(c) == Some(DaysFromCivil(c.y, c.m, c.d) * MICROS_PER_DAY)
    ensures DateOf(MidnightOfCivil(c).value) == DateText(c)
  {
    DateRoundTrip(c.y, c.m, c.d);
    var days := DaysFromCivil(c.y, c.m, c.d);
    assert days * MICROS_PER_DAY / MICROS_PER_DAY == days;
  }

  lemma RealDateOfMidnight(c: Civil)
    requires MidnightOfCivil(c).Some?
    ensures IsDate(c)
  {
    DaysRoundTrip(DaysFromCivil(c.y, c.m, c.d));
  }

  lemma DayHolds(t: int)
    ensures var start := t / MICROS_PER_DAY * MICROS_PER_DAY;
            start % MICROS_PER_DAY == 0 && start <= t < start + MICROS_PER_DAY
  {
  }

  lemma MidnightOfText(c: Civil, days: int)
    requires IsDate(c) && DaysFromCivil(c.y, c.m, c.d) == days
    ensures MidnightOf(DateText(c)) == if -999 <= c.y <= 9999 then Some(days * MICROS_PER_DAY) else None
  {
    ParseDateText(c);
    MidnightOfRealDate(c);
  }

  lemma MidnightIs(t: int)
    ensures MidnightOf(DateOf(t)) == if -999 <= YearOf(t) <= 9999 then Some(t / MICROS_PER_DAY * MICROS_PER_DAY) else None
  {
    DaysRoundTrip(t / MICROS_PER_DAY);
    MidnightOfText(CivilFromDays(t / MICROS_PER_DAY), t / MICROS_PER_DAY);
  }

  /** A date read back is midnight of its own day, exactly where the year fits its four places. */
  lemma MidnightOfDate(t: int)
    ensures MidnightOf(DateOf(t)).Some? <==> -999 <= YearOf(t) <= 9999
    ensures -999 <= YearOf(t) <= 9999 ==>
      var midnight := MidnightOf(DateOf(t)).value;
      midnight % MICROS_PER_DAY == 0 && midnight <= t < midnight + MICROS_PER_DAY
  {
    MidnightIs(t);
    DayHolds(t);
  }

  /** The instant of a time of day, that many days after 1970-01-01, in microseconds. */
  function InstantOf(days: int, hour: int, minute: int, second: int, micro: int): int {
    (((days * 24 + hour) * 60 + minute) * 60 + second) * 1_000_000 + micro
  }

  lemma ClockWithinDay(days: int, hour: int, minute: int, second: int, micro: int)
    requires 0 <= hour < 24 && 0 <= minute < 60 && 0 <= second < 60 && 0 <= micro < 1_000_000
    ensures InstantOf(days, hour, minute, second, micro) / MICROS_PER_DAY == days
    ensures InstantOf(days, 0, 0, 0, 0) == days * MICROS_PER_DAY
  {
    var within := ((hour * 60 + minute) * 60 + second) * 1_000_000 + micro;
    assert InstantOf(days, hour, minute, second, micro) == days * MICROS_PER_DAY + within;
  }

  lemma DatedByItsDay(c: Civil, days: int, t: int)
    requires IsDate(c) && DaysFromCivil(c.y, c.m, c.d) == days && t / MICROS_PER_DAY == days
    ensures DateOf(t) == DateText(c)
  {
    DateRoundTrip(c.y, c.m, c.d);
  }

  /** Whatever a clock shows through a day, the instant is dated to that day, and the day's text begins at its first instant. */
  lemma ClockTimesAreOfTheirDate(c: Civil, days: int, hour: int, minute: int, second: int, micro: int)
    requires IsDate(c) && DaysFromCivil(c.y, c.m, c.d) == days
    requires 0 <= hour < 24 && 0 <= minute < 60 && 0 <= second < 60 && 0 <= micro < 1_000_000
    ensures DateOf(InstantOf(days, hour, minute, second, micro)) == DateText(c)
    ensures MidnightOf(DateText(c)) == if -999 <= c.y <= 9999 then Some(InstantOf(days, 0, 0, 0, 0)) else None
  {
    ClockWithinDay(days, hour, minute, second, micro);
    DatedByItsDay(c, days, InstantOf(days, hour, minute, second, micro));
    MidnightOfText(c, days);
  }

  lemma ThreeZeros()
    ensures Padded(0, 3) == "000" && ValueOf("000") == 0
  {
    assert Padded(0, 1) == "0";
    assert Padded(0, 2) == "00";
    ValueOfPadded(0, 3);
  }

  lemma {:induction false} SignedOfParsed(s: string)
    requires |s| == 4 && ParseSigned(s).Some?
    ensures Signed(ParseSigned(s).value, 4) == s <==> '+' !in s && s != "-000"
  {
    ThreeZeros();
    var v := ParseSigned(s).value;
    if s[0] == '-' {
      PaddedOfValue(s[1..]);
      assert s == "-" + s[1..];
      assert s == "-000" ==> s[1..] == "000";
      if ValueOf(s[1..]) == 0 { assert IsDigit(Signed(v, 4)[0]); }
      assert '+' !in s;
    } else if s[0] == '+' {
      assert '+' in s && '+' !in Signed(v, 4);
    } else {
      PaddedOfValue(s);
      assert '+' !in s;
    }
  }

  lemma PaddedOfParsed(s: string)
    requires |s| == 2 && ParseUnsigned(s).Some?
    ensures Padded(ParseUnsigned(s).value, 2) == s <==> '+' !in s
  {
    if s[0] != '+' {
      PaddedOfValue(s);
    } else {
      assert '+' in s && '+' !in Padded(ParseUnsigned(s).value, 2);
    }
  }

  lemma ParsedTextPrintsBack(s: string)
    requires ParseDate(s).Some? && IsDate(ParseDate(s).value)
    ensures DateText(ParseDate(s).value) == s <==> '+' !in s && s[..4] != "-000"
  {
    var c := ParseDate(s).value;
    assert s[0..4] == s[..4];
    SignedOfParsed(s[0..4]);
    PaddedOfParsed(s[5..7]);
    PaddedOfParsed(s[8..10]);
    assert s == s[0..4] + "-" + s[5..7] + "-" + s[8..10];
    DateTextShape(c);
    assert '+' in s <==> '+' in s[0..4] || '+' in s[5..7] || '+' in s[8..10];
    if DateText(c) == s {
      var t := DateText(c);
      assert t[0..|t| - 6] == Signed(c.y, 4) && t[|t| - 5..|t| - 3] == Padded(c.m, 2) && t[|t| - 2..] == Padded(c.d, 2);
    }
  }

  /**
    Accepted text names the date it prints back to, except where the integer parse
    let a sign through: a `+` anywhere, or a year of minus zero.
   */
  lemma AcceptedTextPrintsBack(s: string)
    requires MidnightOf(s).Some?
    ensures DateOf(MidnightOf(s).value) == s <==> '+' !in s && s[..4] != "-000"
  {
    var c := ParseDate(s).value;
    RealDateOfMidnight(c);
    MidnightOfRealDate(c);
    ParsedTextPrintsBack(s);
  }

  lemma AcceptedWhenReal(s: string)
    requires ParseDate(s).Some? && IsDate(ParseDate(s).value)
    ensures MidnightOf(s).Some?
  {
    MidnightOfRealDate(ParseDate(s).value);
  }

  lemma SignedTextParses()
    ensures ParseDate("+026-01-01") == Some(Civil(26, 1, 1)) && ParseDate("2026-+1-01") == Some(Civil(2026, 1, 1))
  {
    DigitsAre('0', '1');
    var s, t := "+026-01-01", "2026-+1-01";
    assert ValueOf("026") == 26 by { DigitsAre('0', '2'); assert "026"[..2] == "02"; }
    assert ValueOf("2026") == 2026 by { DigitsAre('2', '0'); assert "2026"[..3] == "202" && "202"[..2] == "20"; }
    assert s[0..4] == "+026" && "+026"[1..] == "026" && s[5..7] == "01" && s[8..10] == "01";
    assert t[0..4] == "2026" && t[5..7] == "+1" && "+1"[1..] == "1" && t[8..10] == "01" && "1"[..0] == "";
  }

  /** Signs do get through, whatever the doc comment says of ten characters of YYYY-MM-DD. */
  lemma SignedTextIsAccepted()
    ensures MidnightOf("+026-01-01").Some? && MidnightOf("2026-+1-01").Some?
  {
    SignedTextParses();
    AcceptedWhenReal("+026-01-01");
    AcceptedWhenReal("2026-+1-01");
  }

  lemma DigitsAre(a: char, b: char)
    requires IsDigit(a) && IsDigit(b)
    ensures ValueOf([a, b]) == 10 * (a as int - '0' as int) + (b as int - '0' as int)
  {
    assert [a][..0] == "" && ValueOf([a]) == a as int - '0' as int;
    assert [a, b][..1] == [a] && AllDigits([a, b]);
  }

  /** String order of dates is time order, wherever a year is four digits. */
  lemma DateTextOrder(t: int, t': int)
    requires 0 <= YearOf(t) <= 9999 && 0 <= YearOf(t') <= 9999
    ensures Before(DateOf(t), DateOf(t')) <==> t / MICROS_PER_DAY < t' / MICROS_PER_DAY
  {
    var a, b := CivilFromDays(t / MICROS_PER_DAY), CivilFromDays(t' / MICROS_PER_DAY);
    DaysRoundTrip(t / MICROS_PER_DAY);
    DaysRoundTrip(t' / MICROS_PER_DAY);
    DateOrderIsDayOrder(t / MICROS_PER_DAY, t' / MICROS_PER_DAY);
    CivilTextOrder(a, b);
  }

  lemma CivilTextOrder(a: Civil, b: Civil)
    requires IsDate(a) && IsDate(b) && 0 <= a.y <= 9999 && 0 <= b.y <= 9999
    ensures Before(DateText(a), DateText(b)) <==> DateBefore(a, b)
  {
    DateTextShape(a);
    DateTextShape(b);
    assert Pow10(4) == 10 * Pow10(3) == 100 * Pow10(2) == 1000 * Pow10(1) == 10_000 * Pow10(0);
    PaddedOrder(a.y, b.y, 4);
    PaddedOrder(a.m, b.m, 2);
    PaddedOrder(a.d, b.d, 2);
    ValueOfPadded(a.y, 4);
    ValueOfPadded(b.y, 4);
    ValueOfPadded(a.m, 2);
    ValueOfPadded(b.m, 2);
    var ad, bd := "-" + Padded(a.d, 2), "-" + Padded(b.d, 2);
    var am, bm := "-" + (Padded(a.m, 2) + ad), "-" + (Padded(b.m, 2) + bd);
    assert DateText(a) == Padded(a.y, 4) + am && DateText(b) == Padded(b.y, 4) + bm;
    BeforeAppend(Padded(a.y, 4), Padded(b.y, 4), am, bm);
    BeforeAppend("-", "-", Padded(a.m, 2) + ad, Padded(b.m, 2) + bd);
    BeforeAppend(Padded(a.m, 2), Padded(b.m, 2), ad, bd);
    BeforeAppend("-", "-", Padded(a.d, 2), Padded(b.d, 2));
  }

  // ---- what compaction asks of the text ---------------------------------------

  const DATE_LEVEL := "date="

  /** Whether a partition's `date=` level names a day before `today`. */
  predicate IsClosed(levels: seq<string>, today: string) {
    exists i :: 0 <= i < |levels| && DATE_LEVEL <= levels[i] && Before(levels[i][|DATE_LEVEL|..], today)
  }

  lemma SameDateIsSameDay(t: int, r: int)
    requires 0 <= YearOf(t) <= 9999 && 0 <= YearOf(r) <= 9999
    ensures DateOf(t) == DateOf(r) <==> t / MICROS_PER_DAY == r / MICROS_PER_DAY
  {
    DateTextOrder(t, r);
    DateTextOrder(r, t);
    DateTextOrder(t, t);
  }

  lemma BeforeDay(t: int, day: int)
    ensures t < day * MICROS_PER_DAY <==> t / MICROS_PER_DAY < day
  {
  }

  lemma PastDayIsBefore(t: int, now: int)
    requires -999 <= YearOf(now) <= 9999
    ensures MidnightOf(DateOf(now)).Some?
    ensures t < MidnightOf(DateOf(now)).value <==> t / MICROS_PER_DAY < now / MICROS_PER_DAY
  {
    MidnightIs(now);
    BeforeDay(t, now / MICROS_PER_DAY);
  }

  /** A closed partition can take no more rows: every receipt dated as it is lies before today began. */
  lemma ClosedIsPast(levels: seq<string>, at: nat, t: int, now: int)
    requires 0 <= YearOf(t) <= 9999 && 0 <= YearOf(now) <= 9999
    requires at < |levels| && levels[at] == "date=" + DateOf(t)
    requires forall i :: 0 <= i < |levels| && "date=" <= levels[i] ==> i == at
    ensures MidnightOf(DateOf(now)).Some?
    ensures IsClosed(levels, DateOf(now)) <==>
            (forall r :: 0 <= YearOf(r) <= 9999 && DateOf(r) == DateOf(t) ==> r < MidnightOf(DateOf(now)).value)
  {
    assert levels[at][|DATE_LEVEL|..] == DateOf(t);
    assert IsClosed(levels, DateOf(now)) <==> Before(DateOf(t), DateOf(now));
    DateTextOrder(t, now);
    PastDayIsBefore(t, now);
    forall r | 0 <= YearOf(r) <= 9999 && DateOf(r) == DateOf(t)
      ensures r < MidnightOf(DateOf(now)).value <==> t < MidnightOf(DateOf(now)).value
    {
      SameDateIsSameDay(t, r);
      PastDayIsBefore(r, now);
    }
  }
}
