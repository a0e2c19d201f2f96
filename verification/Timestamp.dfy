/** Reading an ISO-8601 instant well enough to put two of them in order: `YYYY-MM-DD`, optionally
    followed by `THH:MM:SS[.fff][Z]`. */
module Timestamp {
  import opened Prelude
  import opened Digits
  import opened Number

  datatype Timestamp = Timestamp(year: nat, month: nat, day: nat, hour: nat, minute: nat, second: nat,
                                 nanosecond: nat)
  {
    /** The fields in descending significance, which is what the derived order compares. */
    function Fields(): seq<int> {
      [year, month, day, hour, minute, second, nanosecond]
    }

    /** A date on the calendar and a reading of a clock, a leap second included. */
    predicate Valid() {
      && 1 <= month <= 12 && 1 <= day <= DaysInMonth(year, month)
      && hour <= 23 && minute <= 59 && second <= 60 && nanosecond < 1_000_000_000
    }
  }

  /** The order of two instants: field by field. */
  function Order(a: Timestamp, b: Timestamp): Ordering {
    Lexicographic(a.Fields(), b.Fields())
  }

  predicate IsLeap(year: nat) {
    year % 400 == 0 || (year % 4 == 0 && year % 100 != 0)
  }

  /** The number of days in one Gregorian month; no other month has any. */
  function DaysInMonth(year: nat, month: nat): nat {
    if month in {1, 3, 5, 7, 8, 10, 12} then 31
    else if month in {4, 6, 9, 11} then 30
    else if month == 2 then (if IsLeap(year) then 29 else 28)
    else 0
  }

  // --- Reading ------------------------------------------------------------------------------------

  /** A fixed-width, all-digit field. */
  function Field(s: string, width: nat): Option<nat> {
    if |s| == width && AllDigits(s) then Some(Nat(DigitsOf(s))) else None
  }

  predicate IsClockMark(c: char) {
    c == 'T' || c == 't' || c == ' '
  }

  predicate IsZulu(c: char) {
    c == 'Z' || c == 'z'
  }

  function ReadDate(s: string): (t: Option<Timestamp>)
    ensures t.Some? ==> t.value.Valid()
  {
    var parts := Split(s, '-');
    if |parts| != 3 then None else
    var year :- Field(parts[0], 4);
    var month :- Field(parts[1], 2);
    var day :- Field(parts[2], 2);
    if !(1 <= month <= 12) || day == 0 || day > DaysInMonth(year, month) then None
    else Some(Timestamp(year, month, day, 0, 0, 0, 0))
  }

  /** Up to nine fractional digits, in nanoseconds. */
  function ReadFraction(digits: string): (n: Option<nat>)
    ensures n.Some? ==> n.value < 1_000_000_000
  {
    if digits == [] || |digits| > 9 || !AllDigits(digits) then None
    else
      NanosecondsFit(DigitsOf(digits));
      Some(Shift(Nat(DigitsOf(digits)), 9 - |digits|))
  }

  lemma NanosecondsFit(ds: seq<Digit>)
    requires |ds| <= 9
    ensures 0 <= Shift(Nat(ds), 9 - |ds|) < 1_000_000_000
  {
    NatBound(ds);
    ShiftMono(Nat(ds), Shift(1, |ds|), 9 - |ds|);
    ShiftMono(0, Nat(ds), 9 - |ds|);
    ShiftShift(1, |ds|, 9 - |ds|);
    NineZeros();
  }

  lemma NineZeros()
    ensures Shift(1, 9) == 1_000_000_000
  {
    assert Shift(1, 3) == 1000;
    assert Shift(1, 6) == 1_000_000;
  }

  /** The loop that scales written digits to nine of them. */
  method Nanoseconds(ds: seq<Digit>) returns (scaled: nat)
    requires |ds| <= 9
    ensures scaled == Shift(Nat(ds), 9 - |ds|) < 1_000_000_000
  {
    scaled := Nat(ds);
    for places := |ds| to 9
      invariant scaled == Shift(Nat(ds), places - |ds|)
    {
      scaled := scaled * 10;
    }
    NanosecondsFit(ds);
  }

  function ReadClock(date: Timestamp, clock: string, fraction: Option<string>): (t: Option<Timestamp>)
    requires date.Valid()
    ensures t.Some? ==> t.value.Valid()
  {
    var parts := Split(clock, ':');
    if |parts| != 3 then None else
    var hour :- Field(parts[0], 2);
    var minute :- Field(parts[1], 2);
    var second :- Field(parts[2], 2);
    if hour > 23 || minute > 59 || second > 60 then None else
    var nanosecond :- if fraction.None? then Some(0) else ReadFraction(fraction.value);
    Some(date.(hour := hour, minute := minute, second := second, nanosecond := nanosecond))
  }

  /** The clock part without its zone mark; an explicit offset is refused. */
  function WithoutZone(rest: string): Option<string> {
    if rest != [] && IsZulu(rest[|rest| - 1]) then Some(rest[..|rest| - 1])
    else if '+' in rest || (rest != [] && '-' in rest[1..]) then None
    else Some(rest)
  }

  /** Reads an instant, or says nothing at all. */
  function Parse(s: string): (t: Option<Timestamp>)
    ensures t.Some? ==> t.value.Valid()
  {
    var value := Trim(s);
    var at := FirstIndex(value, IsClockMark);
    if at == 10 && |value| > 11 then
      var date :- ReadDate(value[..10]);
      var rest :- WithoutZone(value[11..]);
      var split := SplitOnce(rest, IsPoint);
      match split
      case Some((clock, fraction)) => ReadClock(date, clock, Some(fraction))
      case None => ReadClock(date, rest, None)
    else ReadDate(value)
  }

  /** Fractions written with different numbers of digits are one nanosecond count exactly when they
      are one fraction. */
  lemma EqualFractionsReadEqual(a: string, b: string)
    requires ReadFraction(a).Some? && ReadFraction(b).Some?
    ensures ReadFraction(a) == ReadFraction(b)
       <==> Scale(Nat(DigitsOf(a)) as real, 0 - |a|) == Scale(Nat(DigitsOf(b)) as real, 0 - |b|)
  {
    hide Nat, Shift, Scale;
    NinePlaces(Nat(DigitsOf(a)), |a|, Nat(DigitsOf(b)), |b|);
  }

  lemma NinePlaces(m: nat, j: nat, n: nat, k: nat)
    requires j <= 9 && k <= 9
    ensures Shift(m, 9 - j) == Shift(n, 9 - k) <==> Scale(m as real, 0 - j) == Scale(n as real, 0 - k)
  {
    hide Shift, Scale;
    ScaleOfShift(m, 9 - j, -9);
    ScaleOfShift(n, 9 - k, -9);
    ScaledOrder(Shift(m, 9 - j), Shift(n, 9 - k), -9);
  }

  // --- The calendar -------------------------------------------------------------------------------

  function DaysBeforeMonth(year: nat, month: nat): nat {
    if month <= 1 then 0 else DaysBeforeMonth(year, month - 1) + DaysInMonth(year, month - 1)
  }

  function DaysInYear(year: nat): nat {
    DaysBeforeMonth(year, 13)
  }

  function DaysBeforeYear(year: nat): nat {
    if year == 0 then 0 else DaysBeforeYear(year - 1) + DaysInYear(year - 1)
  }

  /** How many days lie before this one. */
  function DayNumber(t: Timestamp): int {
    DaysBeforeYear(t.year) + DaysBeforeMonth(t.year, t.month) + t.day - 1
  }

  function MinuteOfDay(t: Timestamp): nat {
    t.hour * 60 + t.minute
  }

  /** A leap second is the sixty-first of its minute. */
  function SecondOfDay(t: Timestamp): nat {
    MinuteOfDay(t) * 60 + t.second
  }

  lemma YearLength(year: nat)
    ensures DaysInYear(year) == if IsLeap(year) then 366 else 365
  {
    var february := DaysInMonth(year, 2);
    assert DaysBeforeMonth(year, 2) == 31;
    assert DaysBeforeMonth(year, 3) == 31 + february;
    assert DaysBeforeMonth(year, 5) == 92 + february;
    assert DaysBeforeMonth(year, 7) == 153 + february;
    assert DaysBeforeMonth(year, 9) == 215 + february;
    assert DaysBeforeMonth(year, 11) == 276 + february;
    assert DaysBeforeMonth(year, 12) == 306 + february;
    assert DaysBeforeMonth(year, 13) == 337 + february;
  }

  /** How many of the years before this one are leap years: every fourth, less every hundredth, and every
      four-hundredth again. */
  function LeapYearsBefore(year: nat): int {
    (year + 3) / 4 - (year + 99) / 100 + (year + 399) / 400
  }

  lemma LeapYearsStep(year: nat)
    ensures LeapYearsBefore(year + 1) == LeapYearsBefore(year) + if IsLeap(year) then 1 else 0
  {
    assert (year + 4) / 4 == (year + 3) / 4 + if year % 4 == 0 then 1 else 0;
    assert (year + 100) / 100 == (year + 99) / 100 + if year % 100 == 0 then 1 else 0;
    assert (year + 400) / 400 == (year + 399) / 400 + if year % 400 == 0 then 1 else 0;
    assert year % 400 == 0 ==> year % 100 == 0;
    assert year % 100 == 0 ==> year % 4 == 0;
  }

  /** Summed month by month and year by year, the days before a year are the Gregorian count. */
  lemma {:induction false} GregorianYears(year: nat)
    ensures DaysBeforeYear(year) == 365 * year + LeapYearsBefore(year)
  {
    hide DaysInYear, IsLeap, LeapYearsBefore;
    if year == 0 {
      NoLeapYearsYet();
    } else {
      GregorianYears(year - 1);
      YearLength(year - 1);
      LeapYearsStep(year - 1);
    }
  }

  lemma NoLeapYearsYet()
    ensures LeapYearsBefore(0) == 0
  {
  }

  /** The calendar repeats every 400 years, after 146,097 days. */
  lemma CalendarRepeats(t: Timestamp)
    ensures DayNumber(t.(year := t.year + 400)) == DayNumber(t) + 146_097
  {
    hide DaysBeforeYear, DaysBeforeMonth, LeapYearsBefore;
    GregorianYears(t.year);
    GregorianYears(t.year + 400);
    LeapYearsRepeat(t.year);
    SameMonths(t.year, t.month);
  }

  lemma LeapYearsRepeat(year: nat)
    ensures LeapYearsBefore(year + 400) == LeapYearsBefore(year) + 97
    ensures IsLeap(year + 400) == IsLeap(year)
  {
    assert (year + 403) / 4 == (year + 3) / 4 + 100 && (year + 400) % 4 == year % 4;
    assert (year + 499) / 100 == (year + 99) / 100 + 4 && (year + 400) % 100 == year % 100;
    assert (year + 799) / 400 == (year + 399) / 400 + 1 && (year + 400) % 400 == year % 400;
  }

  lemma {:induction false} SameMonths(year: nat, month: nat)
    ensures DaysBeforeMonth(year + 400, month) == DaysBeforeMonth(year, month)
  {
    hide IsLeap, LeapYearsBefore;
    LeapYearsRepeat(year);
    if month > 1 {
      SameMonths(year, month - 1);
    }
  }

  lemma {:induction false} LaterMonth(year: nat, m: nat, n: nat)
    requires 1 <= m < n
    ensures DaysBeforeMonth(year, m) + DaysInMonth(year, m) <= DaysBeforeMonth(year, n)
  {
    if m + 1 < n {
      LaterMonth(year, m, n - 1);
    }
  }

  lemma {:induction false} LaterYear(y: nat, z: nat)
    requires y < z
    ensures DaysBeforeYear(y) + DaysInYear(y) <= DaysBeforeYear(z)
  {
    if y + 1 < z {
      LaterYear(y, z - 1);
    }
  }

  lemma DayWithinYear(t: Timestamp)
    requires t.Valid()
    ensures DaysBeforeYear(t.year) <= DayNumber(t) < DaysBeforeYear(t.year) + DaysInYear(t.year)
  {
    LaterMonth(t.year, t.month, 13);
  }

  /** Dates are ordered by year, month and day exactly as their days are on the calendar. */
  lemma DatesByDayNumber(a: Timestamp, b: Timestamp)
    requires a.Valid() && b.Valid()
    ensures OrderInt(DayNumber(a), DayNumber(b))
         == Lexicographic([a.year, a.month, a.day], [b.year, b.month, b.day])
  {
    DayWithinYear(a);
    DayWithinYear(b);
    if a.year < b.year {
      LaterYear(a.year, b.year);
    } else if b.year < a.year {
      LaterYear(b.year, a.year);
    } else if a.month < b.month {
      LaterMonth(a.year, a.month, b.month);
    } else if b.month < a.month {
      LaterMonth(a.year, b.month, a.month);
    }
    ThreeFields(a.year, a.month, a.day, b.year, b.month, b.day);
  }

  lemma ThreeFields(x: int, y: int, z: int, u: int, v: int, w: int)
    ensures Lexicographic([x, y, z], [u, v, w])
         == if x != u then OrderInt(x, u) else if y != v then OrderInt(y, v) else OrderInt(z, w)
  {
    Peel(x, [y, z], u, [v, w]);
    Peel(y, [z], v, [w]);
    Peel(z, [], w, []);
  }

  lemma Peel(x: int, a: seq<int>, y: int, b: seq<int>)
    ensures Lexicographic([x] + a, [y] + b) == if x != y then OrderInt(x, y) else Lexicographic(a, b)
  {
    assert ([x] + a)[1..] == a && ([y] + b)[1..] == b;
  }

  lemma {:induction false} PrefixFirst(a: seq<int>, b: seq<int>, c: seq<int>, d: seq<int>)
    requires |a| == |b|
    ensures Lexicographic(a + c, b + d)
         == if Lexicographic(a, b) != Equal then Lexicographic(a, b) else Lexicographic(c, d)
  {
    if a == [] {
      assert a + c == c && b + d == d;
    } else {
      assert (a + c)[1..] == a[1..] + c && (b + d)[1..] == b[1..] + d;
      PrefixFirst(a[1..], b[1..], c, d);
    }
  }

  function Then(first: Ordering, second: Ordering): Ordering {
    if first != Equal then first else second
  }

  /** Field by field is chronological: the day, the minute of it, the second of that (sixty in a leap
      second), the nanoseconds. */
  lemma OrderIsChronological(a: Timestamp, b: Timestamp)
    requires a.Valid() && b.Valid()
    ensures Order(a, b)
         == Then(OrderInt(DayNumber(a), DayNumber(b)),
                 Then(OrderInt(MinuteOfDay(a), MinuteOfDay(b)),
                      Then(OrderInt(a.second, b.second), OrderInt(a.nanosecond, b.nanosecond))))
  {
    DatesByDayNumber(a, b);
    var x, y := [a.year, a.month, a.day], [b.year, b.month, b.day];
    var u, v := [a.hour, a.minute, a.second, a.nanosecond], [b.hour, b.minute, b.second, b.nanosecond];
    assert a.Fields() == x + u && b.Fields() == y + v;
    PrefixFirst(x, y, u, v);
    Peel(a.hour, u[1..], b.hour, v[1..]);
    assert u == [a.hour] + u[1..] && v == [b.hour] + v[1..];
    ThreeFields(a.minute, a.second, a.nanosecond, b.minute, b.second, b.nanosecond);
    assert u[1..] == [a.minute, a.second, a.nanosecond] && v[1..] == [b.minute, b.second, b.nanosecond];
  }

  /** `a` is a leap second and `b` the first second of the next minute, on one day, with no more
      nanoseconds: counted in seconds of the day, `a` is not before `b`. */
  predicate LeapSecondMeets(a: Timestamp, b: Timestamp) {
    && DayNumber(a) == DayNumber(b)
    && a.second == 60 && b.second == 0 && MinuteOfDay(b) == MinuteOfDay(a) + 1
    && a.nanosecond >= b.nanosecond
  }

  /** Counting whole seconds of the day instead agrees with the field order exactly when no leap
      second meets the second after it. */
  lemma OrderBySeconds(a: Timestamp, b: Timestamp)
    requires a.Valid() && b.Valid()
    ensures Order(a, b)
         == Then(OrderInt(DayNumber(a), DayNumber(b)),
                 Then(OrderInt(SecondOfDay(a), SecondOfDay(b)), OrderInt(a.nanosecond, b.nanosecond)))
       <==> !LeapSecondMeets(a, b) && !LeapSecondMeets(b, a)
  {
    OrderIsChronological(a, b);
  }

  /** A pair on which the two orders part: 12:30:60 stands before 12:31:00, at the same second of
      the day. */
  lemma LeapSecondExample()
    ensures var a := Timestamp(2016, 12, 31, 12, 30, 60, 0);
            var b := Timestamp(2016, 12, 31, 12, 31, 0, 0);
            && a.Valid() && b.Valid() && Order(a, b) == Less
            && SecondOfDay(a) == SecondOfDay(b)
  {
    var a := Timestamp(2016, 12, 31, 12, 30, 60, 0);
    var b := Timestamp(2016, 12, 31, 12, 31, 0, 0);
    OrderIsChronological(a, b);
  }

  /** Any two texts that are read compare as their instants do: by day, minute of the day, second of
      that minute, and nanosecond. */
  lemma ReadInstantsOrder(s: string, t: string)
    requires Parse(s).Some? && Parse(t).Some?
    ensures var a, b := Parse(s).value, Parse(t).value;
            Order(a, b) == Then(OrderInt(DayNumber(a), DayNumber(b)),
                                Then(OrderInt(MinuteOfDay(a), MinuteOfDay(b)),
                                     Then(OrderInt(a.second, b.second), OrderInt(a.nanosecond, b.nanosecond))))
  {
    OrderIsChronological(Parse(s).value, Parse(t).value);
  }
}
