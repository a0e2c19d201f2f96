/** Exact decimals `units × 10^-scale`: reading authored text, spelling it back, and ordering pairs
    without ever scaling one into an overflow. */
module Observed {
  import opened Prelude
  import opened Digits
  import opened Number
  import opened Sum

  /** The largest scale an exact decimal may carry. */
  const MAX_SCALE: nat := 255

  datatype Pair = Pair(units: int, scale: nat) {
    /** `units × 10^-scale`. */
    function Value(): real {
      Scale(units as real, 0 - scale)
    }

    /** Trailing fractional zeros are gone, so one value has one pair. */
    predicate Normalized() {
      scale > 0 ==> units % 10 != 0
    }

    /** What a 128-bit integer and an 8-bit scale hold. */
    predicate InRange() {
      I128_MIN <= units <= I128_MAX && scale <= MAX_SCALE
    }
  }

  predicate IsDigits(s: string) {
    s != [] && AllDigits(s)
  }

  /** Cuts `[+-]?digits[.digits][eE[+-]?digits]`, or nothing where the text is not that. */
  function CutDecimal(s: string): (token: Option<Token>)
    ensures token.Some? ==> token.value.Readable()
  {
    if s == [] then None else
    var rest := if IsSign(s[0]) then s[1..] else s;
    var split := SplitOnce(rest, IsExponentMark);
    var mantissa := if split.Some? then split.value.0 else rest;
    var point := SplitOnce(mantissa, IsPoint);
    var whole := if point.Some? then point.value.0 else mantissa;
    var fraction := if point.Some? then point.value.1 else "";
    var exponent := if split.Some? then split.value.1 else "0";
    if point.Some? && fraction == [] then None
    else if !IsDigits(whole) || !AllDigits(fraction) then None
    else if !IsInteger(exponent) || IntegerValue(exponent) > I64_MAX || IntegerValue(exponent) < -I64_MAX
    then None
    else Some(Token(Negative(s), whole, fraction, exponent))
  }

  /** Drops trailing zeros of the units while there is a scale to drop them from. */
  function Reduced(units: nat, scale: nat): (nat, nat) {
    if scale > 0 && units % 10 == 0 then Reduced(units / 10, scale - 1) else (units, scale)
  }

  /** Units at a scale of at least zero, reduced, where 128 bits and 255 places hold them. */
  function Fitted(units: nat, scale: int): Option<(nat, nat)> {
    if units > I128_MAX then None else
    ShiftMono(0, units, AbsInt(scale));
    var raised: nat := if scale < 0 then Shift(units, -scale) else units;
    if raised > I128_MAX then None else
    var (u, s) := Reduced(raised, if scale < 0 then 0 else scale);
    var place := if u == 0 then 0 else s;
    if place > MAX_SCALE then None else Some((u, place))
  }

  /** The exact pair an authored decimal text is read as. */
  function ReadExact(s: string): Option<Pair> {
    var token :- CutDecimal(s);
    PairOf(token)
  }

  function PairOf(token: Token): Option<Pair>
    requires token.Readable()
  {
    var (units, scale) :- Fitted(Nat(token.Raw()), 0 - token.LowestPlace());
    Some(Pair(SignedInt(token.negative, units), scale))
  }

  /** What a 64-bit subtraction leaves of a difference that is at most one turn away. */
  function Wrapped(n: int): int {
    if n > I64_MAX then n - (U64_MAX + 1) else if n < I64_MIN then n + (U64_MAX + 1) else n
  }

  /** The pair read when the fraction's length less the exponent is taken in 64 bits. */
  function ReadWrapped(s: string): Option<Pair> {
    var token :- CutDecimal(s);
    var (units, scale) :- Fitted(Nat(token.Raw()), Wrapped(0 - token.LowestPlace()));
    Some(Pair(SignedInt(token.negative, units), scale))
  }

  /** The loops that scale up, then normalize, as the reader runs them: every text a machine can hold reads
      as if the subtraction could not wrap. */
  method ExactOfDecimalText(s: string) returns (pair: Option<Pair>)
    ensures pair == ReadWrapped(s)
    ensures |s| <= 0x4000_0000_0000_0000 ==> pair == ReadExact(s)
  {
    hide CutDecimal, Fitted, Nat;
    if |s| <= 0x4000_0000_0000_0000 {
      SixtyFourBitsSuffice(s);
    }
    var token := CutDecimal(s);
    if token.None? {
      return None;
    }
    var fitted := FitUnits(Nat(token.value.Raw()), Wrapped(0 - token.value.LowestPlace()));
    if fitted.None? {
      return None;
    }
    return Some(Pair(SignedInt(token.value.negative, fitted.value.0), fitted.value.1));
  }

  method FitUnits(written: nat, place: int) returns (fitted: Option<(nat, nat)>)
    ensures fitted == Fitted(written, place)
  {
    var units: nat, scale: int := written, place;
    if units > I128_MAX {
      return None;
    }
    while scale < 0
      invariant RaisedSoFar(written, place, units, scale)
    {
      RaiseStep(written, place, units, scale);
      if units * 10 > I128_MAX {
        return None;
      }
      units, scale := units * 10, scale + 1;
    }
    ghost var raised: nat, lifted: nat := units, scale;
    while scale > 0 && units % 10 == 0
      invariant 0 <= scale
      invariant Reduced(units, scale) == Reduced(raised, lifted)
      decreases scale
    {
      units, scale := units / 10, scale - 1;
    }
    if units == 0 {
      scale := 0;
    }
    return if scale > MAX_SCALE then None else Some((units, scale));
  }

  /** The units raised so far; what is left to raise only grows them. */
  ghost predicate RaisedSoFar(written: nat, place: int, units: nat, scale: int) {
    && units <= I128_MAX && written <= I128_MAX
    && (place >= 0 ==> scale == place && units == written)
    && (place < 0 ==> place <= scale <= 0 && units == Shift(written, scale - place))
  }

  lemma RaiseStep(written: nat, place: int, units: nat, scale: int)
    requires scale < 0 && RaisedSoFar(written, place, units, scale)
    ensures units * 10 == Shift(written, scale + 1 - place)
    ensures units * 10 > I128_MAX ==> Fitted(written, place) == None
  {
    ShiftShift(written, scale + 1 - place, -scale - 1);
    ShiftMono(0, units * 10, -scale - 1);
    ShiftNoSmaller(units * 10, -scale - 1);
  }

  lemma {:induction false} ShiftNoSmaller(n: nat, k: nat)
    ensures n <= Shift(n, k)
  {
    if k > 0 {
      ShiftNoSmaller(n, k - 1);
    }
  }

  // --- What is read -------------------------------------------------------------------------------

  lemma {:induction false} ReducedKeepsValue(units: nat, scale: nat)
    ensures var (u, s) := Reduced(units, scale);
            && s <= scale && units == Shift(u, scale - s) && u <= units
            && (s > 0 ==> u % 10 != 0)
  {
    if scale > 0 && units % 10 == 0 {
      ReducedKeepsValue(units / 10, scale - 1);
    }
  }

  lemma FittedKeepsValue(units: nat, scale: int)
    requires Fitted(units, scale).Some?
    ensures var (u, s) := Fitted(units, scale).value;
            && u <= I128_MAX && s <= MAX_SCALE && (s > 0 ==> u % 10 != 0)
            && Scale(u as real, 0 - s) == Scale(units as real, 0 - scale)
  {
    var n := if scale < 0 then -scale else 0;
    ShiftMono(0, units, n);
    var raised: nat := Shift(units, n);
    var lifted := if scale < 0 then 0 else scale;
    ReducedKeepsValue(raised, lifted);
    var (u, s) := Reduced(raised, lifted);
    ScaleOfShift(units, n, 0 - lifted);
    ScaleOfShift(u, lifted - s, 0 - lifted);
    ScaleMono(0.0, 0.0, 0 - s);
    ScaleMono(0.0, 0.0, 0);
  }

  lemma SignedScale(negative: bool, n: nat, e: int)
    ensures Scale(SignedInt(negative, n) as real, e) == Signed(negative, Scale(n as real, e))
  {
    ScaleMono(n as real, 0.0, e);
  }

  lemma PairKeepsValue(token: Token)
    requires token.Readable() && PairOf(token).Some?
    ensures var pair := PairOf(token).value;
            && pair.Value() == token.Value()
            && pair.Normalized() && pair.InRange() && pair.units > I128_MIN
  {
    var n, place := Nat(token.Raw()), token.LowestPlace();
    FittedKeepsValue(n, 0 - place);
    var (units, scale) := Fitted(n, 0 - place).value;
    SignedScale(token.negative, units, 0 - scale);
    NegatedRemainder(units);
  }

  /** Reading keeps the value and yields the normalized pair of it, inside the range. */
  lemma ReadKeepsValue(s: string)
    requires ReadExact(s).Some?
    ensures CutDecimal(s).Some?
    ensures var pair := ReadExact(s).value;
            && pair.Value() == CutDecimal(s).value.Value()
            && pair.Normalized() && pair.InRange() && pair.units > I128_MIN
  {
    PairKeepsValue(CutDecimal(s).value);
  }

  // --- Sixty-four bits ----------------------------------------------------------------------------

  lemma ZeroFits(place: int)
    ensures Fitted(0, place) == Some((0, 0))
  {
    ShiftMono(0, 0, if place < 0 then -place else 0);
    NothingReduced(if place < 0 then 0 else place);
  }

  lemma {:induction false} NothingReduced(scale: nat)
    ensures Reduced(0, scale) == (0, 0)
  {
    if scale > 0 {
      NothingReduced(scale - 1);
    }
  }

  lemma Thousand(n: int)
    ensures Shift(n, 3) == 1000 * n
  {
    assert Shift(n, 1) == 10 * n;
    assert Shift(n, 2) == 100 * n;
  }

  lemma Trillion(n: int)
    ensures Shift(n, 12) == 1_000_000_000_000 * n
  {
    hide Shift;
    Thousand(n);
    ShiftShift(n, 3, 3);
    Thousand(1000 * n);
    ShiftShift(n, 6, 3);
    Thousand(1_000_000 * n);
    ShiftShift(n, 9, 3);
    Thousand(1_000_000_000 * n);
  }

  lemma TenTo39()
    ensures Shift(1, 39) > I128_MAX
  {
    hide Shift;
    Trillion(1);
    ShiftShift(1, 12, 12);
    Trillion(1_000_000_000_000);
    ShiftShift(1, 24, 12);
    Trillion(1_000_000_000_000_000_000_000_000);
    ShiftShift(1, 36, 3);
    Thousand(1_000_000_000_000_000_000_000_000_000_000_000_000);
  }

  lemma FarRaised(units: nat, k: nat)
    requires units > 0 && k >= 39
    ensures Shift(units, k) > I128_MAX
  {
    hide Shift;
    TenTo39();
    ShiftOneGrows(39, k);
    ShiftMono(1, units, k);
  }

  /** Far outside what a pair carries, nothing but zero fits. */
  lemma FarOutOfReach(units: nat, place: int)
    requires units > 0 && (place <= -39 || place >= MAX_SCALE + 39)
    ensures Fitted(units, place) == None
  {
    hide Shift;
    if units <= I128_MAX {
      if place < 0 {
        FarRaised(units, -place);
        ShiftMono(0, units, -place);
      } else {
        ReducedKeepsValue(units, place);
        var (u, s) := Reduced(units, place);
        ShiftMono(0, 0, place - s);
        assert u > 0;
        if place - s >= 39 {
          FarRaised(u, place - s);
        }
      }
    }
  }

  /** For every text a machine can hold, taking that subtraction in 64 bits reads the same pair: it wraps
      only where nothing but zero could fit either way. */
  lemma SixtyFourBitsSuffice(s: string)
    requires |s| <= 0x4000_0000_0000_0000
    ensures ReadWrapped(s) == ReadExact(s)
  {
    hide CutDecimal, Fitted, Nat;
    if CutDecimal(s).Some? {
      var token := CutDecimal(s).value;
      CutIsShort(s);
      var units, place := Nat(token.Raw()), 0 - token.LowestPlace();
      if Wrapped(place) != place {
        if units == 0 {
          ZeroFits(place);
          ZeroFits(Wrapped(place));
        } else {
          FarOutOfReach(units, place);
          FarOutOfReach(units, Wrapped(place));
        }
      }
    }
  }

  lemma CutIsShort(s: string)
    requires CutDecimal(s).Some?
    ensures var token := CutDecimal(s).value;
            |token.fraction| <= |s| && -I64_MAX <= IntegerValue(token.exponent) <= I64_MAX
  {
    hide Nat;
    assert DigitsOf("0") == [0];
    assert [0][..0] == [];
    ZeroText();
  }

  lemma ZeroText()
    ensures IsInteger("0") && IntegerValue("0") == 0
  {
    assert DigitsOf("0") == [0];
    assert [0][..0] == [];
  }

  lemma NegatedRemainder(n: int)
    ensures (0 - n) % 10 == 0 <==> n % 10 == 0
  {
  }

  lemma ShiftedEndsInZero(n: int, k: nat)
    ensures if k == 0 then Shift(n, k) == n else Shift(n, k) % 10 == 0
  {
  }

  /** A value has one normalized pair. */
  lemma NormalizedUnique(p: Pair, q: Pair)
    requires p.Normalized() && q.Normalized() && p.Value() == q.Value()
    ensures p == q
    decreases p.scale < q.scale
  {
    if p.scale < q.scale {
      NormalizedUnique(q, p);
    } else {
      var k := p.scale - q.scale;
      ScaleOfShift(q.units, k, 0 - p.scale);
      ScaledOrder(p.units, Shift(q.units, k), 0 - p.scale);
      ShiftedEndsInZero(q.units, k);
    }
  }

  // --- Spelling -----------------------------------------------------------------------------------

  /** Digits with a point `scale` places from their end. */
  function PointedText(sign: string, digits: string, scale: nat): string {
    if scale == 0 then sign + digits
    else if |digits| > scale then
      var split := |digits| - scale;
      sign + digits[..split] + "." + digits[split..]
    else sign + "0." + Zeroes(scale - |digits|) + digits
  }

  /** `units × 10^-scale` with a sign, no exponent and no trailing fractional zero. */
  function ExactText(pair: Pair): string {
    PointedText(if pair.units < 0 then "-" else "", NatText(AbsInt(pair.units)), pair.scale)
  }

  /** The digits of a natural number with `0` for zero. */
  function WrittenDigits(n: nat): (ds: seq<Digit>)
    ensures ds != [] && Nat(ds) == n && TextOf(ds) == NatText(n)
    ensures ds[0] == 0 ==> |ds| == 1
  {
    DigitsOf(NatText(n))
  }

  function PointedParts(ds: seq<Digit>, scale: nat): (parts: (seq<Digit>, seq<Digit>))
    requires ds != []
    ensures parts.0 != [] && |parts.1| == scale
    ensures (ds[0] == 0 ==> |ds| == 1) ==> parts.0[0] == 0 ==> |parts.0| == 1
  {
    if |ds| > scale then (ds[..|ds| - scale], ds[|ds| - scale..])
    else ([0], Zeros(scale - |ds|) + ds)
  }

  function ExactParts(pair: Pair): (parts: (seq<Digit>, seq<Digit>))
    ensures parts.0 != [] && |parts.1| == pair.scale
    ensures parts.0[0] == 0 ==> |parts.0| == 1
  {
    PointedParts(WrittenDigits(AbsInt(pair.units)), pair.scale)
  }

  lemma TextIsPlain(negative: bool, ds: seq<Digit>, scale: nat)
    requires ds != []
    ensures var (whole, fraction) := PointedParts(ds, scale);
            PointedText(if negative then "-" else "", TextOf(ds), scale) == Plain(negative, whole, fraction)
  {
    hide TextOf, DigitsOf, AllDigits, Zeroes, Zeros, Plain;
    if scale == 0 {
      WholeIsPlain(negative, ds);
    } else if |ds| > scale {
      PlainMixed(negative, ds, |ds| - scale);
    } else {
      PlainFraction(negative, ds, scale - |ds|);
    }
  }

  lemma WholeIsPlain(negative: bool, ds: seq<Digit>)
    requires ds != []
    ensures PointedParts(ds, 0) == (ds, []) && Plain(negative, ds, []) == (if negative then "-" else "") + TextOf(ds)
  {
    hide TextOf, DigitsOf, AllDigits, Zeroes, Zeros;
    assert PointedParts(ds, 0).0 == ds;
  }

  lemma ExactTextIsPlain(pair: Pair)
    ensures var (whole, fraction) := ExactParts(pair);
            ExactText(pair) == Plain(pair.units < 0, whole, fraction)
  {
    TextIsPlain(pair.units < 0, WrittenDigits(AbsInt(pair.units)), pair.scale);
  }

  lemma ExactPartsValue(pair: Pair)
    ensures var (whole, fraction) := ExactParts(pair);
            Nat(whole + fraction) == AbsInt(pair.units)
  {
    var ds := WrittenDigits(AbsInt(pair.units));
    PartsValue(ds, pair.scale);
  }

  lemma PartsValue(ds: seq<Digit>, scale: nat)
    requires ds != []
    ensures var (whole, fraction) := PointedParts(ds, scale);
            Nat(whole + fraction) == Nat(ds)
  {
    var (whole, fraction) := PointedParts(ds, scale);
    if |ds| > scale {
      assert whole + fraction == ds;
    } else {
      assert whole + fraction == Zeros(1 + scale - |ds|) + ds;
      NatPadded(ds, 1 + scale - |ds|);
    }
  }

  lemma ExactToken(pair: Pair)
    ensures var (whole, fraction) := ExactParts(pair);
            var token := Token(pair.units < 0, TextOf(whole), TextOf(fraction), "0");
            && token.WellFormed() && Nat(token.Raw()) == AbsInt(pair.units)
            && token.LowestPlace() == 0 - pair.scale && IntegerValue("0") == 0
  {
    var (whole, fraction) := ExactParts(pair);
    PlainToken(pair.units < 0, whole, fraction);
    ExactPartsValue(pair);
  }

  lemma ExactTokenValue(pair: Pair, token: Token)
    requires token.Readable() && Nat(token.Raw()) == AbsInt(pair.units)
    requires token.negative == (pair.units < 0) && token.LowestPlace() == 0 - pair.scale
    ensures token.Value() == pair.Value()
  {
    SignedScale(pair.units < 0, AbsInt(pair.units), 0 - pair.scale);
  }

  /** The text is a JSON number with exactly the pair's value. */
  lemma ExactTextValue(pair: Pair)
    ensures IsNumber(ExactText(pair)) && Value(ExactText(pair)) == pair.Value()
  {
    var (whole, fraction) := ExactParts(pair);
    ExactTextIsPlain(pair);
    PlainRead(pair.units < 0, whole, fraction);
    ExactToken(pair);
    ExactTokenValue(pair, Token(pair.units < 0, TextOf(whole), TextOf(fraction), "0"));
  }

  /** Normalized pairs of one text are one pair, the smallest 128-bit integer included. */
  lemma ExactTextInjective(p: Pair, q: Pair)
    requires p.Normalized() && q.Normalized() && ExactText(p) == ExactText(q)
    ensures p == q
  {
    ExactTextValue(p);
    ExactTextValue(q);
    NormalizedUnique(p, q);
  }

  lemma CutParts(s: string, negative: bool, rest: string, whole: string, fraction: string)
    requires s != [] && IsSign(s[0]) == negative == Negative(s) && rest == if negative then s[1..] else s
    requires SplitOnce(rest, IsExponentMark).None? && IsDigits(whole) && AllDigits(fraction)
    requires if fraction == [] then SplitOnce(rest, IsPoint).None? && rest == whole
             else SplitOnce(rest, IsPoint) == Some((whole, fraction))
    ensures CutDecimal(s) == Some(Token(negative, whole, fraction, "0"))
  {
    ZeroText();
  }

  lemma PlainRest(negative: bool, whole: seq<Digit>, fraction: seq<Digit>)
    requires whole != []
    ensures var s := Plain(negative, whole, fraction);
            && s != [] && IsSign(s[0]) == negative == Negative(s)
            && (if negative then s[1..] else s)
            == TextOf(whole) + (if fraction == [] then "" else "." + TextOf(fraction))
  {
    assert IsDigit(TextOf(whole)[0]);
  }

  lemma CutPlain(negative: bool, whole: seq<Digit>, fraction: seq<Digit>)
    requires whole != []
    ensures CutDecimal(Plain(negative, whole, fraction))
         == Some(Token(negative, TextOf(whole), TextOf(fraction), "0"))
  {
    hide CutDecimal, Plain, Nat, DigitsOf;
    var s := Plain(negative, whole, fraction);
    var rest := TextOf(whole) + (if fraction == [] then "" else "." + TextOf(fraction));
    PlainRest(negative, whole, fraction);
    SplitOnceNowhere(rest, IsExponentMark);
    if fraction == [] {
      assert rest == TextOf(whole);
      SplitOnceNowhere(rest, IsPoint);
    } else {
      assert rest == TextOf(whole) + ['.'] + TextOf(fraction);
      SplitOnceAt(TextOf(whole), '.', TextOf(fraction), IsPoint);
    }
    CutParts(s, negative, rest, TextOf(whole), TextOf(fraction));
  }

  lemma PairOfToken(pair: Pair, token: Token)
    requires pair.Normalized() && pair.InRange()
    requires token.Readable() && Nat(token.Raw()) == AbsInt(pair.units)
    requires token.negative == (pair.units < 0) && token.LowestPlace() == 0 - pair.scale
    ensures PairOf(token) == if pair.units == I128_MIN then None else Some(pair)
  {
    NegatedRemainder(pair.units);
    FittedNormal(AbsInt(pair.units), pair.scale);
  }

  /** What the reader makes of a spelled pair. */
  lemma ReadSpelled(pair: Pair)
    requires pair.Normalized() && pair.InRange()
    ensures ReadExact(ExactText(pair)) == if pair.units == I128_MIN then None else Some(pair)
  {
    var (whole, fraction) := ExactParts(pair);
    ExactTextIsPlain(pair);
    CutPlain(pair.units < 0, whole, fraction);
    ExactToken(pair);
    PairOfToken(pair, Token(pair.units < 0, TextOf(whole), TextOf(fraction), "0"));
  }

  lemma FittedNormal(units: nat, scale: nat)
    requires scale <= MAX_SCALE && (scale > 0 ==> units % 10 != 0)
    ensures Fitted(units, scale) == if units > I128_MAX then None else Some((units, scale))
  {
  }

  /** Spelling a pair and reading it back gives the pair, except at the smallest 128-bit integer,
      whose digits alone do not fit. */
  lemma SpelledReadsBack(pair: Pair)
    requires pair.Normalized() && pair.InRange()
    ensures ReadExact(ExactText(pair)) == Some(pair) <==> pair.units != I128_MIN
  {
    ReadSpelled(pair);
  }

  lemma SmallestUnitsDoNotReadBack()
    ensures Pair(I128_MIN, 0).Normalized() && Pair(I128_MIN, 0).InRange()
    ensures ReadExact(ExactText(Pair(I128_MIN, 0))) == None
  {
    ReadSpelled(Pair(I128_MIN, 0));
  }

  /** Reading any text and spelling what was read is stable: it reads as the same pair again. */
  lemma ReadSpellsBack(s: string)
    requires ReadExact(s).Some?
    ensures ReadExact(ExactText(ReadExact(s).value)) == ReadExact(s)
  {
    ReadKeepsValue(s);
    ReadSpelled(ReadExact(s).value);
  }

  // --- Ordering -----------------------------------------------------------------------------------

  /** The exponent of the most significant digit first, then the digits padded to one width: the
      order of the magnitudes, with nothing multiplied. */
  function MagnitudeCompare(left: seq<Digit>, leftScale: nat, right: seq<Digit>, rightScale: nat)
    : (order: Ordering)
    requires left != [] && left[0] != 0 && right != [] && right[0] != 0
    ensures order == OrderReal(Scale(Nat(left) as real, 0 - leftScale),
                               Scale(Nat(right) as real, 0 - rightScale))
  {
    PointedOrderIsNumeric(left, |left| - leftScale, right, |right| - rightScale);
    var l, r := |left| - 1 - leftScale, |right| - 1 - rightScale;
    if l != r then OrderInt(l, r) else
      var width := if |left| < |right| then |right| else |left|;
      Lexicographic(PadTo(left, width), PadTo(right, width))
  }

  function Signum(n: int): int {
    if n < 0 then -1 else if n == 0 then 0 else 1
  }

  lemma WrittenTopDigit(n: nat)
    requires n > 0
    ensures WrittenDigits(n)[0] != 0
  {
    if |WrittenDigits(n)| == 1 {
      assert WrittenDigits(n)[..0] == [];
    }
  }

  /** Two magnitudes through the digits they are written with. */
  function MagnitudesOrder(m: nat, s: nat, n: nat, t: nat): (order: Ordering)
    requires m > 0 && n > 0
    ensures order == OrderReal(Scale(m as real, 0 - s), Scale(n as real, 0 - t))
  {
    var a, b := WrittenDigits(m), WrittenDigits(n);
    WrittenTopDigit(m);
    WrittenTopDigit(n);
    MagnitudeCompare(a, s, b, t)
  }

  lemma OrderReverses(x: real, y: real)
    ensures OrderReal(-x, -y) == OrderReal(x, y).Reverse()
  {
  }

  lemma SignOfValue(pair: Pair)
    ensures OrderReal(pair.Value(), 0.0) == OrderInt(pair.units, 0)
    ensures pair.Value() == Signed(pair.units < 0, Scale(AbsInt(pair.units) as real, 0 - pair.scale))
  {
    ScaledOrder(pair.units, 0, 0 - pair.scale);
    ScaleMono(0.0, 0.0, 0 - pair.scale);
    SignedScale(pair.units < 0, AbsInt(pair.units), 0 - pair.scale);
  }

  /** Orders two exact decimals without scaling either: signs first, then magnitudes. The order is
      that of the values (`ExactCompareIsNumeric`). */
  function ExactCompare(left: Pair, right: Pair): Ordering {
    var l, r := Signum(left.units), Signum(right.units);
    if l == 0 || r == 0 || l != r then OrderInt(l, r)
    else
      var order := MagnitudesOrder(AbsInt(left.units), left.scale, AbsInt(right.units), right.scale);
      if l < 0 then order.Reverse() else order
  }

  lemma ExactCompareIsNumeric(left: Pair, right: Pair)
    ensures ExactCompare(left, right) == OrderReal(left.Value(), right.Value())
  {
    hide Scale, MagnitudesOrder;
    SignOfValue(left);
    SignOfValue(right);
    OrderReverses(Scale(AbsInt(left.units) as real, 0 - left.scale),
                  Scale(AbsInt(right.units) as real, 0 - right.scale));
  }

  /** The unscaled order is the cross-multiplied one, for all units and scales. */
  lemma ExactCompareIsCrossMultiplied(left: Pair, right: Pair)
    ensures ExactCompare(left, right)
         == OrderInt(Shift(left.units, right.scale), Shift(right.units, left.scale))
  {
    ExactCompareIsNumeric(left, right);
    CrossMultiplied(left.units, left.scale, right.units, right.scale);
  }

  lemma CrossMultiplied(m: int, s: nat, n: int, t: nat)
    ensures OrderReal(Scale(m as real, 0 - s), Scale(n as real, 0 - t))
         == OrderInt(Shift(m, t), Shift(n, s))
  {
    hide Shift, Scale;
    ScaleOfShift(m, t, 0 - s - t);
    ScaleOfShift(n, s, 0 - s - t);
    ScaledOrder(Shift(m, t), Shift(n, s), 0 - s - t);
  }
}
