/** Which authored texts are read as exact decimals, and as which: the spelling and the range, both ways. */
module Decimals {
  import opened Prelude
  import opened Digits
  import opened Number
  import opened Sum
  import opened Observed

  // --- Spelling -----------------------------------------------------------------------------------

  /** An optional sign, digits, an optional point with digits behind it, an optional exponent in 64 bits. */
  predicate Spelt(s: string, sign: string, whole: string, point: string, power: string, token: Token) {
    && s == sign + whole + point + power
    && (sign == "" || sign == "+" || sign == "-") && token.negative == (sign == "-")
    && IsDigits(whole) && token.whole == whole
    && (if point == "" then token.fraction == ""
        else point[0] == '.' && IsDigits(point[1..]) && token.fraction == point[1..])
    && (if power == "" then token.exponent == "0"
        else
          && IsExponentMark(power[0]) && IsInteger(power[1..]) && token.exponent == power[1..]
          && -I64_MAX <= IntegerValue(power[1..]) <= I64_MAX)
  }

  ghost predicate Authored(s: string, token: Token) {
    exists sign, whole, point, power :: Spelt(s, sign, whole, point, power, token)
  }

  /** The mantissa's two halves. */
  lemma PointCut(mantissa: string, whole: string, point: string)
    requires mantissa == whole + point && AllDigits(whole) && (point == "" || (point[0] == '.' && AllDigits(point[1..])))
    ensures SplitOnce(mantissa, IsPoint) == if point == "" then None else Some((whole, point[1..]))
  {
    if point == "" {
      SplitOnceNowhere(mantissa, IsPoint);
    } else {
      assert mantissa == whole + ['.'] + point[1..];
      SplitOnceAt(whole, '.', point[1..], IsPoint);
    }
  }

  lemma PowerCut(rest: string, mantissa: string, power: string)
    requires rest == mantissa + power && (forall i | 0 <= i < |mantissa| :: !IsExponentMark(mantissa[i]))
    requires power == "" || IsExponentMark(power[0])
    ensures SplitOnce(rest, IsExponentMark) == if power == "" then None else Some((mantissa, power[1..]))
  {
    if power == "" {
      assert rest == mantissa;
      SplitOnceNowhere(rest, IsExponentMark);
    } else {
      assert rest == mantissa + [power[0]] + power[1..];
      SplitOnceAt(mantissa, power[0], power[1..], IsExponentMark);
    }
  }

  lemma MantissaHasNoMark(whole: string, point: string)
    requires AllDigits(whole) && (point == "" || (point[0] == '.' && AllDigits(point[1..])))
    ensures forall i | 0 <= i < |whole + point| :: !IsExponentMark((whole + point)[i])
  {
    forall i | 0 <= i < |whole + point|
      ensures !IsExponentMark((whole + point)[i])
    {
      if i > |whole| {
        assert (whole + point)[i] == point[1..][i - |whole| - 1];
      }
    }
  }

  /** What is left once the sign is taken and the exponent is cut off. */
  function CutMantissa(negative: bool, mantissa: string, exponent: string): Option<Token> {
    var point := SplitOnce(mantissa, IsPoint);
    var whole := if point.Some? then point.value.0 else mantissa;
    var fraction := if point.Some? then point.value.1 else "";
    if point.Some? && fraction == [] then None
    else if !IsDigits(whole) || !AllDigits(fraction) then None
    else if !IsInteger(exponent) || IntegerValue(exponent) > I64_MAX || IntegerValue(exponent) < -I64_MAX
    then None
    else Some(Token(negative, whole, fraction, exponent))
  }

  lemma CutInTwo(s: string, sign: string, mantissa: string, power: string)
    requires s == sign + mantissa + power && (sign == "" || sign == "+" || sign == "-")
    requires sign == "" ==> mantissa + power != "" && !IsSign((mantissa + power)[0])
    requires (forall i | 0 <= i < |mantissa| :: !IsExponentMark(mantissa[i])) && (power == "" || IsExponentMark(power[0]))
    requires s != ""
    ensures CutDecimal(s) == CutMantissa(sign == "-", mantissa, if power == "" then "0" else power[1..])
  {
    hide Nat, IsInteger, IntegerValue, SplitOnce, AllDigits;
    var rest := mantissa + power;
    assert s == sign + rest;
    assert rest == if IsSign(s[0]) then s[1..] else s;
    assert Negative(s) == (sign == "-");
    PowerCut(rest, mantissa, power);
    if power == "" {
      assert rest == mantissa;
    }
  }

  lemma MantissaMeans(negative: bool, whole: string, point: string, exponent: string)
    requires IsDigits(whole) && (point == "" || (point[0] == '.' && AllDigits(point[1..])))
    requires IsInteger(exponent) && -I64_MAX <= IntegerValue(exponent) <= I64_MAX
    ensures CutMantissa(negative, whole + point, exponent)
         == if point == "" then Some(Token(negative, whole, "", exponent))
            else if point[1..] == "" then None
            else Some(Token(negative, whole, point[1..], exponent))
  {
    hide Nat, IsInteger, IntegerValue, SplitOnce;
    PointCut(whole + point, whole, point);
    assert point == "" ==> whole + point == whole;
  }

  lemma SpeltIsCut(s: string, sign: string, whole: string, point: string, power: string, token: Token)
    requires Spelt(s, sign, whole, point, power, token)
    ensures CutDecimal(s) == Some(token)
  {
    hide CutDecimal, CutMantissa, Nat, IntegerValue;
    var mantissa := whole + point;
    assert (mantissa + power)[0] == whole[0] && IsDigit(whole[0]);
    assert s == sign + mantissa + power;
    MantissaHasNoMark(whole, point);
    CutInTwo(s, sign, mantissa, power);
    ZeroText();
    MantissaMeans(sign == "-", whole, point, if power == "" then "0" else power[1..]);
  }

  lemma MantissaIsSpelt(negative: bool, mantissa: string, exponent: string) returns (whole: string, point: string)
    requires CutMantissa(negative, mantissa, exponent).Some?
    ensures mantissa == whole + point && IsDigits(whole)
    ensures point == "" || (point[0] == '.' && IsDigits(point[1..]))
    ensures CutMantissa(negative, mantissa, exponent).value
         == Token(negative, whole, if point == "" then "" else point[1..], exponent)
    ensures IsInteger(exponent) && -I64_MAX <= IntegerValue(exponent) <= I64_MAX
  {
    hide Nat, IsInteger, IntegerValue;
    var p := FirstIndex(mantissa, IsPoint);
    FirstIndexIsFirst(mantissa, IsPoint);
    whole, point := mantissa[..p], mantissa[p..];
    assert point != "" ==> point[1..] == mantissa[p + 1..];
  }

  /** A text is its sign, its mantissa and its power. */
  lemma ThreeParts(s: string) returns (sign: string, mantissa: string, power: string)
    requires s != ""
    ensures s == sign + mantissa + power
    ensures if IsSign(s[0]) then sign == s[..1] else sign == "" && mantissa + power == s
    ensures (forall i | 0 <= i < |mantissa| :: !IsExponentMark(mantissa[i])) && (power == "" || IsExponentMark(power[0]))
  {
    sign := if IsSign(s[0]) then s[..1] else "";
    var rest := if IsSign(s[0]) then s[1..] else s;
    var e := FirstIndex(rest, IsExponentMark);
    FirstIndexIsFirst(rest, IsExponentMark);
    mantissa, power := rest[..e], rest[e..];
    assert rest == mantissa + power;
    assert s == sign + rest;
  }

  lemma CutIsSpelt(s: string)
    requires CutDecimal(s).Some?
    ensures Authored(s, CutDecimal(s).value)
  {
    hide CutDecimal, CutMantissa, Nat, IntegerValue, IsInteger, Spelt, AllDigits;
    SignTaken(s);
    var sign, mantissa, power := ThreeParts(s);
    CutInTwo(s, sign, mantissa, power);
    var exponent := if power == "" then "0" else power[1..];
    var whole, point := MantissaIsSpelt(sign == "-", mantissa, exponent);
    SpeltFrom(s, sign, mantissa, whole, point, power, exponent);
  }

  lemma SpeltFrom(s: string, sign: string, mantissa: string, whole: string, point: string, power: string,
                  exponent: string)
    requires s == sign + mantissa + power && mantissa == whole + point && (sign == "" || sign == "+" || sign == "-")
    requires IsDigits(whole) && (point == "" || (point[0] == '.' && IsDigits(point[1..])))
    requires exponent == if power == "" then "0" else power[1..]
    requires power == "" || IsExponentMark(power[0])
    requires IsInteger(exponent) && -I64_MAX <= IntegerValue(exponent) <= I64_MAX
    ensures Spelt(s, sign, whole, point, power,
                  Token(sign == "-", whole, if point == "" then "" else point[1..], exponent))
  {
    hide IsInteger, IntegerValue, AllDigits, IsExponentMark;
    assert sign + (whole + point) + power == sign + whole + point + power;
  }

  lemma SignTaken(s: string)
    requires CutDecimal(s).Some?
    ensures s != "" && (!IsSign(s[0]) ==> s != "")
    ensures IsSign(s[0]) ==> s[..1] == "+" || s[..1] == "-"
  {
    hide Nat, IntegerValue;
  }

  /** A text is cut into exactly the parts it is spelled from. */
  lemma CutMeans(s: string, token: Token)
    ensures CutDecimal(s) == Some(token) <==> Authored(s, token)
  {
    hide CutDecimal, Spelt;
    if CutDecimal(s) == Some(token) {
      CutIsSpelt(s);
    }
    if sign, whole, point, power :| Spelt(s, sign, whole, point, power, token) {
      SpeltIsCut(s, sign, whole, point, power, token);
    }
  }

  // --- Range --------------------------------------------------------------------------------------

  /** A pair within 128 bits and 255 places, no zero of its fraction written. */
  predicate Fitting(units: nat, scale: nat) {
    units <= I128_MAX && scale <= MAX_SCALE && (scale > 0 ==> units % 10 != 0)
  }

  lemma FittedIsFitting(n: nat, place: int)
    requires Fitted(n, place).Some?
    ensures var (u, s) := Fitted(n, place).value;
            n <= I128_MAX && Fitting(u, s) && Scale(u as real, 0 - s) == Scale(n as real, 0 - place)
  {
    FittedKeepsValue(n, place);
    var k := if place < 0 then -place else 0;
    ShiftMono(0, n, k);
    ShiftNoSmaller(n, k);
  }

  lemma FittingIsFitted(n: nat, place: int, u: nat, s: nat)
    requires n <= I128_MAX && Fitting(u, s) && Scale(u as real, 0 - s) == Scale(n as real, 0 - place)
    ensures Fitted(n, place) == Some((u, s))
  {
    hide Scale, Shift;
    var k := if place < 0 then -place else 0;
    ShiftMono(0, n, k);
    var raised: nat, lifted := Shift(n, k), if place < 0 then 0 else place;
    ScaleOfShift(n, k, 0 - lifted);
    ReducedKeepsValue(raised, lifted);
    var (v, t) := Reduced(raised, lifted);
    ScaleOfShift(v, lifted - t, 0 - lifted);
    NormalizedUnique(Pair(u, s), Pair(v, t));
    ReducedRaised(raised, lifted, place, n);
  }

  /** Raised units are reduced only where nothing was raised. */
  lemma ReducedRaised(raised: nat, lifted: nat, place: int, n: nat)
    requires place < 0 ==> lifted == 0
    requires place >= 0 ==> raised == Shift(n, 0)
    ensures place < 0 ==> Reduced(raised, lifted) == (raised, 0)
    ensures place >= 0 ==> raised == n
  {
  }

  /** The written digits fit 128 bits, and the pair is the normalized one of the value, in range. */
  predicate ReadAs(token: Token, pair: Observed.Pair) {
    && token.Readable() && Nat(token.Raw()) <= I128_MAX && pair.Normalized()
    && 0 <= pair.scale <= MAX_SCALE && -I128_MAX <= pair.units <= I128_MAX && pair.Value() == token.Value()
  }

  /** A text is read exactly when it is spelled as a decimal whose digits fit 128 bits and whose value has a
      normalized pair in range, and as that pair. */
  lemma ReadsExactly(s: string, pair: Observed.Pair)
    ensures ReadExact(s) == Some(pair)
       <==> exists token: Token :: Authored(s, token) && ReadAs(token, pair)
  {
    hide CutDecimal, Fitted, Authored, Nat;
    if ReadExact(s) == Some(pair) {
      var token := CutDecimal(s).value;
      CutMeans(s, token);
      ReadKeepsValue(s);
      FittedIsFitting(Nat(token.Raw()), 0 - token.LowestPlace());
    }
    if token: Token :| Authored(s, token) && ReadAs(token, pair) {
      CutMeans(s, token);
      SignedFits(token, pair);
    }
  }

  lemma SignedFits(token: Token, pair: Observed.Pair)
    requires ReadAs(token, pair)
    ensures token.Readable() && PairOf(token) == Some(pair)
  {
    hide Fitted, Nat, Scale;
    var n := Nat(token.Raw());
    var u := AbsInt(pair.units);
    SignedUnits(token, pair, n);
    NegatedRemainder(u);
    FittingIsFitted(n, 0 - token.LowestPlace(), u, pair.scale);
  }

  lemma SignedUnits(token: Token, pair: Observed.Pair, n: nat)
    requires token.Readable() && n == Nat(token.Raw()) && pair.Value() == token.Value()
    ensures Scale(AbsInt(pair.units) as real, 0 - pair.scale) == Scale(n as real, token.LowestPlace())
    ensures pair.units == SignedInt(token.negative, AbsInt(pair.units))
  {
    hide Nat;
    ScaleMono(AbsInt(pair.units) as real, 0.0, 0 - pair.scale);
    ScaleMono(0.0, AbsInt(pair.units) as real, 0 - pair.scale);
    ScaleMono(n as real, 0.0, token.LowestPlace());
    ScaleMono(0.0, n as real, token.LowestPlace());
  }
}
