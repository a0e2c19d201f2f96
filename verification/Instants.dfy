/** Which texts are instants, and which instants they are: every accepted spelling, character by character. */
module Instants {
  import opened Prelude
  import opened Digits
  import opened Number
  import opened Timestamp

  /** Exactly so many digits, leading zeros included, worth this. */
  predicate Padded(s: string, width: nat, n: nat) {
    |s| == width && AllDigits(s) && Nat(DigitsOf(s)) == n
  }

  /** `YYYY-MM-DD`. */
  predicate DateText(s: string, t: Timestamp) {
    && |s| == 10 && s[4] == '-' && s[7] == '-'
    && Padded(s[..4], 4, t.year) && Padded(s[5..7], 2, t.month) && Padded(s[8..], 2, t.day)
  }

  /** `HH:MM:SS`. */
  predicate ClockText(s: string, t: Timestamp) {
    && |s| == 8 && s[2] == ':' && s[5] == ':'
    && Padded(s[..2], 2, t.hour) && Padded(s[3..5], 2, t.minute) && Padded(s[6..], 2, t.second)
  }

  /** Nothing, or a point and up to nine digits of a second. */
  predicate FractionText(s: string, nanosecond: nat) {
    if s == "" then nanosecond == 0
    else
      && s[0] == '.' && 2 <= |s| <= 10 && AllDigits(s[1..])
      && Scale(nanosecond as real, -9) == Scale(Nat(DigitsOf(s[1..])) as real, 1 - |s|)
  }

  predicate ZoneText(s: string) {
    s == "" || s == "Z" || s == "z"
  }

  /** A date and a `T`, `t` or space, a clock, its fraction, and a zone mark or none. */
  predicate MomentText(s: string, t: Timestamp, fraction: string, zone: string) {
    && |s| >= 19 && DateText(s[..10], t) && (s[10] == 'T' || s[10] == 't' || s[10] == ' ')
    && ClockText(s[11..19], t) && s[19..] == fraction + zone
    && FractionText(fraction, t.nanosecond) && ZoneText(zone)
  }

  predicate Midnight(t: Timestamp) {
    t.hour == 0 && t.minute == 0 && t.second == 0 && t.nanosecond == 0
  }

  ghost predicate InstantText(s: string, t: Timestamp) {
    && t.Valid()
    && ((DateText(s, t) && Midnight(t)) || exists fraction, zone :: MomentText(s, t, fraction, zone))
  }

  // --- Dates and clocks ---------------------------------------------------------------------------

  lemma ThreePieces(s: string, c: char, a: string, b: string, d: string)
    ensures Split(s, c) == [a, b, d] <==> c !in a && c !in b && c !in d && s == a + [c] + b + [c] + d
  {
    hide Split;
    SplitExactly(s, c, [a, b, d]);
    assert [a, b, d][1..] == [b, d] && [b, d][1..] == [d];
    assert Joined([b, d], c) == b + [c] + d;
    assert Joined([a, b, d], c) == a + [c] + Joined([b, d], c);
    assert a + [c] + (b + [c] + d) == a + [c] + b + [c] + d;
    assert a in [a, b, d] && b in [a, b, d] && d in [a, b, d];
  }

  lemma PaddedHasNo(s: string, width: nat, n: nat, c: char)
    requires Padded(s, width, n) && !IsDigit(c)
    ensures c !in s
  {
  }

  lemma DateMeans(s: string, t: Timestamp)
    ensures ReadDate(s) == Some(t) <==> DateText(s, t) && Midnight(t) && t.Valid()
  {
    hide Split, Nat, DaysInMonth;
    var parts := Split(s, '-');
    if ReadDate(s) == Some(t) {
      var a, b, d := parts[0], parts[1], parts[2];
      assert parts == [a, b, d];
      ThreePieces(s, '-', a, b, d);
      assert s[..4] == a && s[5..7] == b && s[8..] == d;
    }
    if DateText(s, t) && Midnight(t) && t.Valid() {
      var a, b, d := s[..4], s[5..7], s[8..];
      PaddedHasNo(a, 4, t.year, '-');
      PaddedHasNo(b, 2, t.month, '-');
      PaddedHasNo(d, 2, t.day, '-');
      assert s == a + ['-'] + b + ['-'] + d;
      ThreePieces(s, '-', a, b, d);
    }
  }

  /** The date a moment is on. */
  function DateOf(t: Timestamp): Timestamp {
    Timestamp(t.year, t.month, t.day, 0, 0, 0, 0)
  }

  lemma FractionMeans(digits: string, nanosecond: nat)
    ensures ReadFraction(digits) == Some(nanosecond) <==> FractionText("." + digits, nanosecond)
  {
    hide Nat, Shift, Scale;
    var s := "." + digits;
    assert s[1..] == digits;
    if digits != "" && |digits| <= 9 && AllDigits(digits) {
      var n: nat := Nat(DigitsOf(digits));
      ScaleOfShift(n, 9 - |digits|, -9);
      NanosecondsFit(DigitsOf(digits));
      ScaledOrder(nanosecond, Shift(n, 9 - |digits|), -9);
    }
  }

  lemma ClockMeans(date: Timestamp, clock: string, fraction: Option<string>, t: Timestamp)
    requires date.Valid()
    ensures ReadClock(date, clock, fraction) == Some(t)
       <==> && DateOf(t) == DateOf(date) && ClockText(clock, t) && t.hour <= 23 && t.minute <= 59 && t.second <= 60
            && FractionText(if fraction.Some? then "." + fraction.value else "", t.nanosecond)
  {
    hide Split, Nat, ReadFraction, FractionText, Timestamp.Valid;
    var parts := Split(clock, ':');
    if fraction.Some? {
      FractionMeans(fraction.value, t.nanosecond);
    }
    NoFraction(t.nanosecond);
    if ReadClock(date, clock, fraction).Some? {
      var a, b, d := parts[0], parts[1], parts[2];
      assert parts == [a, b, d];
      ThreePieces(clock, ':', a, b, d);
      assert clock[..2] == a && clock[3..5] == b && clock[6..] == d;
    }
    if ClockText(clock, t) {
      var a, b, d := clock[..2], clock[3..5], clock[6..];
      PaddedHasNo(a, 2, t.hour, ':');
      PaddedHasNo(b, 2, t.minute, ':');
      PaddedHasNo(d, 2, t.second, ':');
      assert clock == a + [':'] + b + [':'] + d;
      ThreePieces(clock, ':', a, b, d);
    }
  }

  lemma NoFraction(nanosecond: nat)
    ensures FractionText("", nanosecond) <==> nanosecond == 0
  {
  }

  // --- White space --------------------------------------------------------------------------------

  /** White space, a text that neither starts nor ends with any, and white space. */
  predicate Padding(s: string, before: string, text: string, after: string) {
    && s == before + text + after && Blank(before) && Blank(after)
    && (text != "" ==> !IsSpace(text[0]) && !IsSpace(text[|text| - 1]))
  }

  lemma {:induction false} TrimStartSkips(before: string, s: string)
    requires Blank(before) && (s == "" || !IsSpace(s[0]))
    ensures TrimStart(before + s) == s
  {
    if before == "" {
      assert before + s == s;
    } else {
      assert (before + s)[1..] == before[1..] + s;
      TrimStartSkips(before[1..], s);
    }
  }

  lemma {:induction false} TrimEndSkips(s: string, after: string)
    requires Blank(after) && (s == "" || !IsSpace(s[|s| - 1]))
    ensures TrimEnd(s + after) == s
  {
    if after == "" {
      assert s + after == s;
    } else {
      assert (s + after)[..|s + after| - 1] == s + after[..|after| - 1];
      TrimEndSkips(s, after[..|after| - 1]);
    }
  }

  lemma {:induction false} TrimStartLeaves(s: string) returns (before: string)
    ensures s == before + TrimStart(s) && Blank(before)
  {
    if s != "" && IsSpace(s[0]) {
      var rest := TrimStartLeaves(s[1..]);
      before := [s[0]] + rest;
      assert s == [s[0]] + s[1..];
    } else {
      before := "";
    }
  }

  lemma {:induction false} TrimEndLeaves(s: string) returns (after: string)
    ensures s == TrimEnd(s) + after && Blank(after)
  {
    if s != "" && IsSpace(s[|s| - 1]) {
      var rest := TrimEndLeaves(s[..|s| - 1]);
      after := rest + [s[|s| - 1]];
      assert s == s[..|s| - 1] + [s[|s| - 1]];
    } else {
      after := "";
    }
  }

  /** Trimming is dropping the white space at both ends, and nothing else. */
  lemma TrimMeans(s: string, text: string)
    requires text != ""
    ensures Trim(s) == text <==> exists before, after :: Padding(s, before, text, after)
  {
    hide TrimStart, TrimEnd, IsSpace, Blank;
    if Trim(s) == text {
      var before := TrimStartLeaves(s);
      var after := TrimEndLeaves(TrimStart(s));
      assert s == before + (text + after);
      assert text[0] == TrimStart(s)[0];
      assert Padding(s, before, text, after);
    }
    if before, after :| Padding(s, before, text, after) {
      assert s == before + (text + after) && (text + after)[0] == text[0];
      TrimStartSkips(before, text + after);
      TrimEndSkips(text, after);
    }
  }

  // --- Reading ------------------------------------------------------------------------------------

  lemma DateHasNoMark(s: string, t: Timestamp)
    requires DateText(s, t)
    ensures forall i | 0 <= i < 10 :: !IsClockMark(s[i])
  {
    assert forall i | 0 <= i < 4 :: s[i] == s[..4][i];
    assert forall i | 5 <= i < 7 :: s[i] == s[5..7][i - 5];
    assert forall i | 8 <= i < 10 :: s[i] == s[8..][i - 8];
  }

  lemma ClockHasNoPoint(s: string, t: Timestamp)
    requires ClockText(s, t)
    ensures forall i | 0 <= i < 8 :: s[i] != '.' && s[i] != '+' && s[i] != '-' && !IsZulu(s[i])
  {
    assert forall i | 0 <= i < 2 :: s[i] == s[..2][i];
    assert forall i | 3 <= i < 5 :: s[i] == s[3..5][i - 3];
    assert forall i | 6 <= i < 8 :: s[i] == s[6..][i - 6];
  }

  /** What follows the mark: a clock with its fraction, and a zone mark or none. */
  predicate ClockPart(rest: string, t: Timestamp, fraction: string, zone: string) {
    && |rest| >= 8 && ClockText(rest[..8], t) && rest[8..] == fraction + zone
    && FractionText(fraction, t.nanosecond) && ZoneText(zone)
  }

  /** The clock part as the reader reads it. */
  function ReadRest(date: Timestamp, rest: string): Option<Timestamp>
    requires date.Valid()
  {
    var clock :- WithoutZone(rest);
    ReadWhole(date, clock)
  }

  function ReadWhole(date: Timestamp, clock: string): Option<Timestamp>
    requires date.Valid()
  {
    match SplitOnce(clock, IsPoint)
    case Some((whole, fraction)) => ReadClock(date, whole, Some(fraction))
    case None => ReadClock(date, clock, None)
  }

  predicate InDay(t: Timestamp) {
    t.hour <= 23 && t.minute <= 59 && t.second <= 60
  }

  /** Reading what is left once the zone is dropped. */
  lemma ClockIsRead(date: Timestamp, clock: string, t: Timestamp)
    requires date.Valid()
    ensures ReadWhole(date, clock) == Some(t)
       <==> && DateOf(t) == DateOf(date) && InDay(t) && |clock| >= 8 && ClockText(clock[..8], t)
            && FractionText(clock[8..], t.nanosecond)
  {
    hide ReadClock, ClockText, FractionText, Timestamp.Valid;
    var i := FirstIndex(clock, IsPoint);
    FirstIndexIsFirst(clock, IsPoint);
    if i < |clock| {
      var whole, fraction := clock[..i], clock[i + 1..];
      ClockMeans(date, whole, Some(fraction), t);
      assert clock[i..] == "." + fraction;
      ClockThenPoint(clock, i, t);
    } else {
      ClockMeans(date, clock, None, t);
      NoFraction(t.nanosecond);
      ClockWithoutPoint(clock, t);
    }
  }

  lemma ClockThenPoint(clock: string, i: nat, t: Timestamp)
    requires i < |clock| && clock[i] == '.' && forall j | 0 <= j < i :: clock[j] != '.'
    ensures ClockText(clock[..i], t) && FractionText(clock[i..], t.nanosecond)
       <==> |clock| >= 8 && ClockText(clock[..8], t) && FractionText(clock[8..], t.nanosecond)
  {
    hide FractionText;
    if |clock| >= 8 && ClockText(clock[..8], t) {
      ClockHasNoPoint(clock[..8], t);
      assert forall j | 0 <= j < 8 :: clock[j] == clock[..8][j];
      if FractionText(clock[8..], t.nanosecond) {
        FractionStarts(clock[8..], t.nanosecond);
      }
    }
    if ClockText(clock[..i], t) {
      assert i == 8;
    }
  }

  lemma FractionStarts(s: string, nanosecond: nat)
    requires FractionText(s, nanosecond)
    ensures s == "" || s[0] == '.'
  {
    hide Scale;
  }

  lemma ClockWithoutPoint(clock: string, t: Timestamp)
    requires forall j | 0 <= j < |clock| :: clock[j] != '.'
    ensures ClockText(clock, t) && t.nanosecond == 0
       <==> |clock| >= 8 && ClockText(clock[..8], t) && FractionText(clock[8..], t.nanosecond)
  {
    hide Scale;
    if |clock| == 8 {
      assert clock[..8] == clock;
    } else if |clock| > 8 {
      assert clock[8..][0] == clock[8];
    }
  }

  lemma PartCharacters(rest: string, t: Timestamp, fraction: string)
    requires |rest| >= 8 && ClockText(rest[..8], t) && rest[8..] == fraction && FractionText(fraction, t.nanosecond)
    ensures forall i | 0 <= i < |rest| :: rest[i] != '+' && rest[i] != '-' && !IsZulu(rest[i])
  {
    hide Scale, Nat;
    ClockHasNoPoint(rest[..8], t);
    assert forall i | 0 <= i < 8 :: rest[i] == rest[..8][i];
    assert forall i | 8 <= i < |rest| :: rest[i] == fraction[i - 8];
    if fraction != "" {
      assert forall i | 1 <= i < |fraction| :: fraction[i] == fraction[1..][i - 1];
    }
  }

  lemma PartSplits(rest: string, t: Timestamp, fraction: string, zone: string)
    requires ClockPart(rest, t, fraction, zone)
    ensures var clock := rest[..|rest| - |zone|];
            && |clock| >= 8 && clock[..8] == rest[..8] && clock[8..] == fraction
            && WithoutZone(rest) == Some(clock)
  {
    hide ClockText, FractionText;
    var clock := rest[..|rest| - |zone|];
    assert clock[..8] == rest[..8] && clock[8..] == fraction;
    PartCharacters(clock, t, fraction);
    if zone == "" {
      assert clock == rest;
      assert !IsZulu(rest[|rest| - 1]);
    } else {
      assert rest[|rest| - 1] == rest[8..][|rest| - 9] == zone[0];
    }
  }

  lemma RestMeans(date: Timestamp, rest: string, t: Timestamp)
    requires date.Valid()
    ensures ReadRest(date, rest) == Some(t)
       <==> DateOf(t) == DateOf(date) && InDay(t) && exists fraction, zone :: ClockPart(rest, t, fraction, zone)
  {
    hide ReadWhole, ClockText, FractionText, Timestamp.Valid;
    if fraction, zone :| ClockPart(rest, t, fraction, zone) {
      PartSplits(rest, t, fraction, zone);
      ClockIsRead(date, rest[..|rest| - |zone|], t);
    }
    if ReadRest(date, rest) == Some(t) {
      var clock := WithoutZone(rest).value;
      ClockIsRead(date, clock, t);
      var zone := rest[|clock|..];
      assert rest[..8] == clock[..8] && rest[8..] == clock[8..] + zone;
      assert ClockPart(rest, t, clock[8..], zone);
    }
  }

  lemma MomentParts(s: string, t: Timestamp, fraction: string, zone: string)
    ensures MomentText(s, t, fraction, zone)
       <==> |s| > 11 && IsClockMark(s[10]) && DateText(s[..10], t) && ClockPart(s[11..], t, fraction, zone)
  {
    hide DateText, ClockText, FractionText;
    if |s| > 11 {
      var rest := s[11..];
      if |s| >= 19 {
        assert rest[..8] == s[11..19] && rest[8..] == s[19..];
      }
    }
  }

  /** Without white space around it, a text is read as exactly the instant it spells. */
  lemma TrimmedMeans(s: string, t: Timestamp)
    requires Trim(s) == s
    ensures Parse(s) == Some(t) <==> InstantText(s, t)
  {
    hide ReadDate, WithoutZone, ReadClock, DateText, ClockPart, MomentText, Timestamp.Valid, Trim;
    var at := FirstIndex(s, IsClockMark);
    FirstIndexIsFirst(s, IsClockMark);
    if exists fraction, zone :: MomentText(s, t, fraction, zone) {
      var fraction, zone :| MomentText(s, t, fraction, zone);
      MomentParts(s, t, fraction, zone);
      DateHasNoMark(s[..10], t);
      assert forall i | 0 <= i < 10 :: s[i] == s[..10][i];
      assert at == 10;
    }
    if at == 10 && |s| > 11 {
      MomentIsRead(s, t);
    } else {
      DateMeans(s, t);
    }
  }

  lemma DateTextLength(s: string, t: Timestamp)
    requires DateText(s, t)
    ensures |s| == 10
  {
  }

  lemma MomentIsRead(s: string, t: Timestamp)
    requires Trim(s) == s && FirstIndex(s, IsClockMark) == 10 && |s| > 11
    ensures Parse(s) == Some(t) <==> InstantText(s, t)
  {
    hide ReadDate, ClockPart, DateText, MomentText, Timestamp.Valid, Trim, WithoutZone, ReadClock;
    FirstIndexIsFirst(s, IsClockMark);
    var date := ReadDate(s[..10]);
    assert Parse(s) == if date.None? then None else ReadRest(date.value, s[11..]);
    assert !DateText(s, t) by {
      if DateText(s, t) {
        DateTextLength(s, t);
      }
    }
    DateMeans(s[..10], DateOf(t));
    SameDate(s[..10], t);
    forall fraction, zone
      ensures MomentText(s, t, fraction, zone) <==> DateText(s[..10], t) && ClockPart(s[11..], t, fraction, zone)
    {
      MomentParts(s, t, fraction, zone);
    }
    if date.Some? {
      DateMeans(s[..10], date.value);
      RestMeans(date.value, s[11..], t);
      SameDates(s[..10], date.value, t);
    }
    ValidParts(t);
    if fraction, zone :| ClockPart(s[11..], t, fraction, zone) {
      PartsFit(s[11..], t, fraction, zone);
    }
  }

  lemma SameDate(s: string, t: Timestamp)
    ensures DateText(s, t) <==> DateText(s, DateOf(t))
  {
  }

  lemma SameDates(s: string, a: Timestamp, b: Timestamp)
    requires DateText(s, a) && Midnight(a)
    ensures DateText(s, b) <==> DateOf(b) == a
  {
    hide Nat;
  }

  lemma ValidParts(t: Timestamp)
    ensures t.Valid() <==> DateOf(t).Valid() && InDay(t) && t.nanosecond < 1_000_000_000
    ensures Midnight(DateOf(t))
  {
  }

  lemma PartsFit(rest: string, t: Timestamp, fraction: string, zone: string)
    requires ClockPart(rest, t, fraction, zone)
    ensures t.nanosecond < 1_000_000_000
  {
    hide ClockText, Scale, Nat, Shift;
    if fraction != "" {
      assert "." + fraction[1..] == fraction;
      FractionMeans(fraction[1..], t.nanosecond);
    }
  }

  /** A text is read as an instant exactly when, white space aside, it spells that instant. */
  lemma ParseMeans(s: string, t: Timestamp)
    ensures Parse(s) == Some(t)
       <==> exists before, text, after :: Padding(s, before, text, after) && InstantText(text, t)
  {
    hide ReadDate, InstantText, Padding, TrimStart, TrimEnd, WithoutZone, ReadClock;
    var text := Trim(s);
    TrimmedOnce(s);
    TrimmedMeans(text, t);
    assert Parse(s) == Parse(text);
    if Parse(s) == Some(t) {
      NotEmpty(text, t);
      TrimMeans(s, text);
    }
    if before, v, after :| Padding(s, before, v, after) && InstantText(v, t) {
      NotEmpty(v, t);
      TrimMeans(s, v);
    }
  }

  lemma NotEmpty(s: string, t: Timestamp)
    requires InstantText(s, t)
    ensures s != ""
  {
    hide ClockText, FractionText, Timestamp.Valid;
  }

  lemma TrimmedOnce(s: string)
    ensures Trim(Trim(s)) == Trim(s)
  {
    var text := Trim(s);
    assert text != "" ==> text[0] == TrimStart(s)[0];
    TrimStartSkips("", text);
    TrimEndSkips(text, "");
    assert "" + text == text && text + "" == text;
  }
}
