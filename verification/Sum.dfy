/** Exact addition of two JSON number texts on aligned digit vectors, and the canonical text of the
    sum. */
module Sum {
  import opened Prelude
  import opened Digits
  import opened Number

  /** The most decimal places the two operands may span, the units place included. */
  const MAX_SUM_PLACES: int := 1024

  /** `digits × 10^exponent`, with no leading or trailing zero digit; zero has no digits. */
  datatype Exact = Exact(negative: bool, digits: seq<Digit>, exponent: int) {
    predicate Normal() {
      && Bare(digits)
      && (digits == [] ==> !negative && exponent == 0)
    }

    function Value(): real {
      Signed(negative, Scale(Nat(digits) as real, exponent))
    }

    /** The highest place a digit occupies; the units place is `0`. */
    function High(): int {
      exponent + |digits| - 1
    }

    /** The digit at `place`, zero outside the digits. */
    function At(place: int): Digit {
      if exponent <= place <= High() then digits[High() - place] else 0
    }
  }

  /** Strips the zeros at both ends, moving the trailing ones into the exponent. */
  function Normalized(negative: bool, digits: seq<Digit>, exponent: int): (x: Option<Exact>)
    ensures x.Some? ==> x.value.Normal()
  {
    var bare := Strip(digits);
    if bare == [] then Some(Exact(false, [], 0))
    else if !InI64(exponent + Trailing(digits)) then None
    else Some(Exact(negative, bare, exponent + Trailing(digits)))
  }

  /** The same normal form, draining and truncating a digit vector. */
  method Normalize(negative: bool, vector: seq<Digit>, exponent: int) returns (x: Option<Exact>)
    ensures x == Normalized(negative, vector, exponent)
  {
    var digits, trailing := DropZeros(vector);
    if digits == [] {
      return Some(Exact(false, [], 0));
    }
    return if InI64(exponent + trailing) then Some(Exact(negative, digits, exponent + trailing)) else None;
  }

  method DropZeros(vector: seq<Digit>) returns (digits: seq<Digit>, trailing: nat)
    ensures digits == Strip(vector) && trailing == Trailing(vector)
  {
    digits, trailing := vector, 0;
    while digits != [] && digits[0] == 0
      invariant LeadingDropped(vector, digits)
    {
      digits := digits[1..];
    }
    ghost var led := digits;
    while digits != [] && digits[|digits| - 1] == 0
      invariant TrailingDropped(led, digits, trailing)
    {
      digits, trailing := digits[..|digits| - 1], trailing + 1;
    }
  }

  ghost predicate LeadingDropped(vector: seq<Digit>, digits: seq<Digit>) {
    && |digits| <= |vector| && digits == vector[|vector| - |digits|..]
    && LeadingZeros(vector) == |vector| - |digits| + LeadingZeros(digits)
  }

  ghost predicate TrailingDropped(led: seq<Digit>, digits: seq<Digit>, trailing: nat) {
    && trailing + |digits| == |led| && digits == led[..|digits|]
    && TrailingZeros(led) == trailing + TrailingZeros(digits)
  }

  /** What an addition reads from a number text: none when its exponent leaves 64 bits. */
  function Parsed(token: Token): (x: Option<Exact>)
    requires token.Readable()
    ensures x.Some? ==> x.value.Normal()
  {
    if !InI64(IntegerValue(token.exponent)) || !InI64(token.LowestPlace()) then None
    else Normalized(token.negative, token.Raw(), token.LowestPlace())
  }

  lemma NormalizedValue(negative: bool, digits: seq<Digit>, exponent: int)
    requires Normalized(negative, digits, exponent).Some?
    ensures Normalized(negative, digits, exponent).value.Value()
         == Signed(negative, Scale(Nat(digits) as real, exponent))
  {
    StripValue(digits);
    ScaleOfShift(Nat(Strip(digits)), Trailing(digits), exponent);
    ScaleMono(0.0, 0.0, exponent);
    ScaleMono(0.0, 0.0, 0);
  }

  lemma ParsedValue(token: Token)
    requires token.Readable() && Parsed(token).Some?
    ensures Parsed(token).value.Value() == token.Value()
  {
    NormalizedValue(token.negative, token.Raw(), token.LowestPlace());
  }

  // --- Aligning -----------------------------------------------------------------------------------

  function Max(a: int, b: int): int {
    if a < b then b else a
  }

  function Min(a: int, b: int): int {
    if a < b then a else b
  }

  /** The highest place either operand reaches, no lower than the units. */
  function HighPlace(a: Exact, b: Exact): int {
    Max(if a.digits == [] then 0 else Max(a.High(), 0), if b.digits == [] then 0 else b.High())
  }

  /** The lowest place either operand reaches, no higher than the units. */
  function LowPlace(a: Exact, b: Exact): int {
    Min(if a.digits == [] then 0 else Min(a.exponent, 0), if b.digits == [] then 0 else b.exponent)
  }

  /** How many places an exact sum materializes. */
  function Span(a: Exact, b: Exact): int {
    HighPlace(a, b) - LowPlace(a, b) + 1
  }

  /** An operand in units of the place `low`. */
  function Units(x: Exact, low: int): int
    requires low <= x.exponent
  {
    SignedInt(x.negative, Shift(Nat(x.digits), x.exponent - low))
  }

  lemma UnitsValue(x: Exact, low: int)
    requires low <= x.exponent
    ensures Scale(Units(x, low) as real, low) == x.Value()
  {
    ScaleOfShift(Nat(x.digits), x.exponent - low, low);
    ScaleMono(Shift(Nat(x.digits), x.exponent - low) as real, 0.0, low);
  }

  function AbsInt(n: int): nat {
    if n < 0 then -n else n
  }

  /** The sum of two operands as one normal form. */
  function Total(a: Exact, b: Exact): (x: Option<Exact>)
    requires a.Normal() && b.Normal()
    ensures x.Some? ==> x.value.Normal()
  {
    var low := LowPlace(a, b);
    if Span(a, b) > MAX_SUM_PLACES then None
    else
      var units := Units(a, low) + Units(b, low);
      Normalized(units < 0, NatDigits(AbsInt(units)), low)
  }

  lemma SignedAbs(n: int, e: int)
    ensures Signed(n < 0, Scale(AbsInt(n) as real, e)) == Scale(n as real, e)
  {
    ScaleMono(AbsInt(n) as real, 0.0, e);
  }

  lemma TotalValue(a: Exact, b: Exact)
    requires a.Normal() && b.Normal() && Total(a, b).Some?
    ensures Total(a, b).value.Value() == a.Value() + b.Value()
  {
    hide Shift, Scale, Nat, NatDigits, Strip, Trailing;
    var low := LowPlace(a, b);
    var units := Units(a, low) + Units(b, low);
    NormalizedValue(units < 0, NatDigits(AbsInt(units)), low);
    SignedAbs(units, low);
    UnitsValue(a, low);
    UnitsValue(b, low);
    ScaleAdds(Units(a, low) as real, Units(b, low) as real, low);
  }

  /** The digits of one operand from `low` to `high`, least significant first. */
  function Magnitude(x: Exact, low: int, high: int): (ds: seq<Digit>)
    requires low <= high
    ensures |ds| == high - low + 1
    ensures forall k | 0 <= k < |ds| :: ds[k] == x.At(low + k)
  {
    seq<Digit>(high - low + 1, i => x.At(low + i))
  }

  lemma EmptyMagnitude(x: Exact, low: int, high: int)
    requires x.digits == [] && low <= high
    ensures Lsb(Magnitude(x, low, high)) == 0
  {
    assert [] + Zeros(high - low + 1) == Magnitude(x, low, high);
    LsbPadded([], high - low + 1);
  }

  lemma MagnitudeShape(x: Exact, low: int, high: int)
    requires x.digits != [] && low <= x.exponent && x.High() <= high
    ensures Magnitude(x, low, high)
         == Zeros(x.exponent - low) + Reverse(x.digits) + Zeros(high - x.High())
  {
  }

  lemma LsbRaised(ds: seq<Digit>, n: nat)
    ensures Lsb(Zeros(n) + Reverse(ds)) == Shift(Nat(ds), n)
  {
    LsbIsReversedNat(Zeros(n) + Reverse(ds));
    assert Reverse(Zeros(n) + Reverse(ds)) == ds + Zeros(n);
    NatPadded(ds, n);
  }

  lemma MagnitudeValue(x: Exact, low: int, high: int)
    requires low <= high && low <= x.exponent
    requires x.digits != [] ==> x.High() <= high
    ensures Lsb(Magnitude(x, low, high)) == Shift(Nat(x.digits), x.exponent - low)
  {
    if x.digits == [] {
      EmptyMagnitude(x, low, high);
      ShiftMono(0, 0, x.exponent - low);
    } else {
      MagnitudeShape(x, low, high);
      LsbRaised(x.digits, x.exponent - low);
      LsbPadded(Zeros(x.exponent - low) + Reverse(x.digits), high - x.High());
    }
  }

  // --- Digit vectors ------------------------------------------------------------------------------

  /** Two equal-width magnitudes, least significant digit first, added with carry. */
  method AddMagnitudes(left: seq<Digit>, right: seq<Digit>) returns (sum: seq<Digit>)
    requires |left| == |right|
    ensures |sum| == |left| + 1
    ensures Lsb(sum) == Lsb(left) + Lsb(right)
  {
    sum := [];
    var carry: Digit := 0;
    for i := 0 to |left|
      invariant Added(left, right, sum, carry, i)
    {
      var place: int := left[i] + right[i] + carry;
      AddPlace(left, right, sum, carry, i);
      sum := sum + [place % 10];
      carry := place / 10;
    }
    TakeAll(left);
    TakeAll(right);
    LsbSnoc(sum, carry);
    sum := sum + [carry];
  }

  ghost predicate Added(left: seq<Digit>, right: seq<Digit>, sum: seq<Digit>, carry: Digit, i: nat) {
    && i == |sum| <= |left| == |right|
    && carry <= 1
    && Lsb(sum) + Shift(carry, i) == Lsb(left[..i]) + Lsb(right[..i])
  }

  lemma AddPlace(left: seq<Digit>, right: seq<Digit>, sum: seq<Digit>, carry: Digit, i: nat)
    requires i < |left| && Added(left, right, sum, carry, i)
    ensures var place: int := left[i] + right[i] + carry;
            0 <= place < 20 && Added(left, right, sum + [place % 10], place / 10, i + 1)
  {
    LsbTake(left, i);
    LsbTake(right, i);
    LsbSnoc(sum, (left[i] + right[i] + carry) % 10);
    SumStep(left[i], right[i], carry, i);
  }

  /** `larger - smaller` for two equal-width magnitudes, least significant digit first. */
  method SubtractMagnitudes(larger: seq<Digit>, smaller: seq<Digit>) returns (difference: seq<Digit>)
    requires |larger| == |smaller| && Lsb(smaller) <= Lsb(larger)
    ensures |difference| == |larger|
    ensures Lsb(difference) == Lsb(larger) - Lsb(smaller)
  {
    difference := [];
    var borrow := 0;
    for i := 0 to |larger|
      invariant Subtracted(larger, smaller, difference, borrow, i)
    {
      var place: int := larger[i] as int - smaller[i] as int - borrow;
      SubtractPlace(larger, smaller, difference, borrow, i);
      borrow := if place < 0 then 1 else 0;
      difference := difference + [place + borrow * 10];
    }
    TakeAll(larger);
    TakeAll(smaller);
    NothingBorrowed(difference, borrow, Lsb(larger) - Lsb(smaller));
  }

  ghost predicate Subtracted(larger: seq<Digit>, smaller: seq<Digit>, difference: seq<Digit>,
                             borrow: int, i: nat)
  {
    && i == |difference| <= |larger| == |smaller|
    && 0 <= borrow <= 1
    && Lsb(difference) - Shift(borrow, i) == Lsb(larger[..i]) - Lsb(smaller[..i])
  }

  lemma SubtractPlace(larger: seq<Digit>, smaller: seq<Digit>, difference: seq<Digit>, borrow: int, i: nat)
    requires i < |larger| && Subtracted(larger, smaller, difference, borrow, i)
    ensures var place: int := larger[i] as int - smaller[i] as int - borrow;
            var borrowed := if place < 0 then 1 else 0;
            && 0 <= place + borrowed * 10 < 10
            && Subtracted(larger, smaller, difference + [place + borrowed * 10], borrowed, i + 1)
  {
    var place: int := larger[i] as int - smaller[i] as int - borrow;
    var borrowed := if place < 0 then 1 else 0;
    LsbTake(larger, i);
    LsbTake(smaller, i);
    LsbSnoc(difference, place + borrowed * 10);
    BorrowStep(larger[i], smaller[i], borrow, borrowed, i);
  }

  /** The aligned sum: add the magnitudes, or take the smaller from the larger. */
  method Plus(a: Exact, b: Exact) returns (sum: Option<Exact>)
    requires a.Normal() && b.Normal()
    ensures sum == Total(a, b)
  {
    hide Shift, Nat, NatDigits, Lsb, Reverse, Normalized, Magnitude;
    var high, low := HighPlace(a, b), LowPlace(a, b);
    if high - low + 1 > MAX_SUM_PLACES {
      return None;
    }
    MagnitudeValue(a, low, high);
    MagnitudeValue(b, low, high);
    var negative, digits :=
      SignedSum(a.negative, Magnitude(a, low, high), b.negative, Magnitude(b, low, high));
    SignIrrelevantToZero(negative, Units(a, low) + Units(b, low), Reverse(digits), low);
    sum := Normalize(negative, Reverse(digits), low);
  }

  function SignedInt(negative: bool, magnitude: int): int {
    if negative then -magnitude else magnitude
  }

  /** Adds magnitudes of one sign, or takes the smaller from the larger and keeps its sign. */
  method SignedSum(m: bool, left: seq<Digit>, n: bool, right: seq<Digit>)
    returns (negative: bool, digits: seq<Digit>)
    requires |left| == |right|
    ensures var units := SignedInt(m, Lsb(left)) + SignedInt(n, Lsb(right));
            Nat(Reverse(digits)) == AbsInt(units) && (units != 0 ==> negative == (units < 0))
  {
    LsbBound(left);
    LsbBound(right);
    if m == n {
      negative := m;
      digits := AddMagnitudes(left, right);
    } else {
      LexicographicIsNumeric(Reverse(left), Reverse(right));
      LsbIsReversedNat(left);
      LsbIsReversedNat(right);
      if Lexicographic(Reverse(left), Reverse(right)) == Less {
        negative := n;
        digits := SubtractMagnitudes(right, left);
      } else {
        negative := m;
        digits := SubtractMagnitudes(left, right);
      }
    }
    LsbIsReversedNat(digits);
  }

  lemma SignIrrelevantToZero(negative: bool, units: int, digits: seq<Digit>, low: int)
    requires Nat(digits) == AbsInt(units)
    requires units != 0 ==> negative == (units < 0)
    ensures Normalized(negative, digits, low) == Normalized(units < 0, NatDigits(AbsInt(units)), low)
  {
    hide Nat, Shift, NatDigits;
    StripDependsOnValue(digits, NatDigits(AbsInt(units)));
    StripValue(digits);
  }

  // --- The canonical text of a sum ----------------------------------------------------------------

  function Zeroes(n: nat): (s: string)
    ensures s == TextOf(Zeros(n))
  {
    seq(n, i => '0')
  }

  /** Positional digits with no exponent. */
  function Spelled(x: Exact): string {
    var digits := TextOf(x.digits);
    var sign := if x.negative then "-" else "";
    if x.digits == [] then "0"
    else if x.exponent >= 0 then sign + digits + Zeroes(x.exponent)
    else
      var point := |x.digits| + x.exponent;
      if point > 0 then sign + digits[..point] + "." + digits[point..]
      else sign + "0." + Zeroes(-point) + digits
  }

  /** The exact sum of two number texts, or none when the operands lie too far apart to align. */
  function ExactSum(left: Number, right: Number): Option<string> {
    var x :- TokenSum(Lex(left), Lex(right));
    Some(Spelled(x))
  }

  function TokenSum(left: Token, right: Token): (x: Option<Exact>)
    requires left.Readable() && right.Readable()
    ensures x.Some? ==> x.value.Normal()
  {
    var a :- Parsed(left);
    var b :- Parsed(right);
    Total(a, b)
  }

  /** The digit-vector addition computes that sum. */
  method Add(left: Number, right: Number) returns (sum: Option<string>)
    ensures sum == ExactSum(left, right)
  {
    sum := AddTokens(Lex(left), Lex(right));
  }

  method AddTokens(left: Token, right: Token) returns (sum: Option<string>)
    requires left.Readable() && right.Readable()
    ensures sum == var x := TokenSum(left, right); if x.None? then None else Some(Spelled(x.value))
  {
    var a, b := Parsed(left), Parsed(right);
    if a.None? || b.None? {
      return None;
    }
    var x := Plus(a.value, b.value);
    return if x.None? then None else Some(Spelled(x.value));
  }

  /** The whole and fractional digits `Spelled` writes. */
  function SpelledParts(x: Exact): (parts: (seq<Digit>, seq<Digit>))
    requires x.Normal()
    ensures parts.0 != [] && (parts.0[0] == 0 ==> |parts.0| == 1)
  {
    if x.digits == [] then ([0], [])
    else if x.exponent >= 0 then (x.digits + Zeros(x.exponent), [])
    else
      var point := |x.digits| + x.exponent;
      if point > 0 then (x.digits[..point], x.digits[point..])
      else ([0], Zeros(-point) + x.digits)
  }

  function Plain(negative: bool, whole: seq<Digit>, fraction: seq<Digit>): string {
    (if negative then "-" else "") + TextOf(whole)
      + (if fraction == [] then "" else "." + TextOf(fraction))
  }

  lemma TextConcat(a: seq<Digit>, b: seq<Digit>)
    ensures TextOf(a + b) == TextOf(a) + TextOf(b)
  {
  }

  lemma PlainZero()
    ensures Plain(false, [0], []) == "0"
  {
    assert TextOf([0]) == "0";
  }

  lemma PlainWhole(negative: bool, digits: seq<Digit>, zeros: nat)
    ensures Plain(negative, digits + Zeros(zeros), [])
         == (if negative then "-" else "") + TextOf(digits) + Zeroes(zeros)
  {
    TextConcat(digits, Zeros(zeros));
  }

  lemma PlainMixed(negative: bool, digits: seq<Digit>, point: nat)
    requires point < |digits|
    ensures Plain(negative, digits[..point], digits[point..])
         == (if negative then "-" else "") + TextOf(digits)[..point] + "." + TextOf(digits)[point..]
  {
    assert TextOf(digits)[..point] == TextOf(digits[..point]);
    assert TextOf(digits)[point..] == TextOf(digits[point..]);
  }

  lemma PlainFraction(negative: bool, digits: seq<Digit>, zeros: nat)
    requires digits != []
    ensures Plain(negative, [0], Zeros(zeros) + digits)
         == (if negative then "-" else "") + "0." + Zeroes(zeros) + TextOf(digits)
  {
    TextConcat(Zeros(zeros), digits);
    assert TextOf([0]) + "." == "0.";
  }

  lemma SpelledIsPlain(x: Exact)
    requires x.Normal()
    ensures var (whole, fraction) := SpelledParts(x);
            Spelled(x) == Plain(x.negative, whole, fraction)
  {
    var point := |x.digits| + x.exponent;
    if x.digits == [] {
      PlainZero();
    } else if x.exponent >= 0 {
      PlainWhole(x.negative, x.digits, x.exponent);
    } else if point > 0 {
      PlainMixed(x.negative, x.digits, point);
    } else {
      PlainFraction(x.negative, x.digits, -point);
    }
  }

  /** A text of digits around at most one point is cut where it was joined. */
  lemma LexPlain(negative: bool, whole: seq<Digit>, fraction: seq<Digit>)
    requires whole != []
    ensures Lex(Plain(negative, whole, fraction))
         == Token(negative, TextOf(whole), TextOf(fraction), "0")
    ensures '.' in Plain(negative, whole, fraction) ==> fraction != []
  {
    var s := Plain(negative, whole, fraction);
    var unsigned := TextOf(whole) + (if fraction == [] then "" else "." + TextOf(fraction));
    assert IsDigit(TextOf(whole)[0]);
    assert DropMinus(s) == unsigned;
    SplitOnceNowhere(unsigned, IsExponentMark);
    if fraction == [] {
      assert unsigned == TextOf(whole);
      SplitOnceNowhere(unsigned, IsPoint);
    } else {
      assert unsigned == TextOf(whole) + ['.'] + TextOf(fraction);
      SplitOnceAt(TextOf(whole), '.', TextOf(fraction), IsPoint);
    }
  }

  lemma {:induction false} TrailingPadded(ds: seq<Digit>, k: nat)
    requires ds != [] && ds[|ds| - 1] != 0
    ensures TrailingZeros(ds + Zeros(k)) == k
  {
    if k == 0 {
      assert ds + Zeros(0) == ds;
    } else {
      assert (ds + Zeros(k))[..|ds| + k - 1] == ds + Zeros(k - 1);
      TrailingPadded(ds, k - 1);
    }
  }

  lemma StripPadded(m: nat, ds: seq<Digit>, k: nat)
    requires Bare(ds) && ds != []
    ensures Strip(Zeros(m) + (ds + Zeros(k))) == ds && Trailing(Zeros(m) + (ds + Zeros(k))) == k
  {
    NatPadded(ds + Zeros(k), m);
    StripDependsOnValue(Zeros(m) + (ds + Zeros(k)), ds + Zeros(k));
    assert (ds + Zeros(k))[0..] == ds + Zeros(k);
    TrailingPadded(ds, k);
    assert (ds + Zeros(k))[..|ds|] == ds;
  }

  /** The written digits strip back to the number's own. */
  lemma SpelledDigits(x: Exact)
    requires x.Normal() && InI64(x.exponent)
    ensures var (whole, fraction) := SpelledParts(x);
            Normalized(x.negative, whole + fraction, 0 - |fraction|) == Some(x)
  {
    if x.digits == [] {
      ZeroStrips();
    } else {
      var m, k := LeadingWritten(x), if x.exponent >= 0 then x.exponent else 0;
      SpelledShape(x);
      StripPadded(m, x.digits, k);
    }
  }

  lemma ZeroStrips()
    ensures Strip([0]) == []
  {
    assert [0][..0] == [];
    StripValue([0]);
  }

  /** How many zeros `Spelled` writes before the first digit. */
  function LeadingWritten(x: Exact): nat {
    var point := |x.digits| + x.exponent;
    if x.exponent < 0 && point <= 0 then 1 - point else 0
  }

  lemma SpelledShape(x: Exact)
    requires x.Normal() && x.digits != []
    ensures var (whole, fraction) := SpelledParts(x);
            && whole + fraction
               == Zeros(LeadingWritten(x)) + (x.digits + Zeros(if x.exponent >= 0 then x.exponent else 0))
            && |fraction| == if x.exponent >= 0 then 0 else -x.exponent
  {
  }

  /** A plain text is a number, and reads as its digits in units of the lowest one. */
  lemma PlainRead(negative: bool, whole: seq<Digit>, fraction: seq<Digit>)
    requires whole != [] && (whole[0] == 0 ==> |whole| == 1)
    ensures var s := Plain(negative, whole, fraction);
            && IsNumber(s) && Lex(s) == Token(negative, TextOf(whole), TextOf(fraction), "0")
  {
    LexPlain(negative, whole, fraction);
    assert IsDigit(TextOf(whole)[0]);
  }

  lemma PlainToken(negative: bool, whole: seq<Digit>, fraction: seq<Digit>)
    requires whole != [] && (whole[0] == 0 ==> |whole| == 1)
    ensures var token := Token(negative, TextOf(whole), TextOf(fraction), "0");
            && token.WellFormed() && token.Raw() == whole + fraction
            && token.LowestPlace() == 0 - |fraction|
  {
    assert IsDigit(TextOf(whole)[0]);
    assert DigitsOf("0") == [0];
    assert [0][..0] == [];
  }

  lemma PlainParsed(negative: bool, whole: seq<Digit>, fraction: seq<Digit>)
    requires whole != [] && (whole[0] == 0 ==> |whole| == 1) && |fraction| <= I64_MAX
    ensures var token := Token(negative, TextOf(whole), TextOf(fraction), "0");
            token.WellFormed() && Parsed(token) == Normalized(negative, whole + fraction, 0 - |fraction|)
  {
    hide Normalized, Nat;
    PlainToken(negative, whole, fraction);
    var token := Token(negative, TextOf(whole), TextOf(fraction), "0");
    assert IntegerValue("0") == token.LowestPlace() + |fraction|;
  }

  /** Reading a spelled number gives back exactly the number spelled. */
  lemma SpelledRoundTrip(x: Exact)
    requires x.Normal() && InI64(x.exponent) && |SpelledParts(x).1| <= I64_MAX
    ensures IsNumber(Spelled(x)) && Parsed(Lex(Spelled(x))) == Some(x)
    ensures Lex(Spelled(x)).exponent == "0"
  {
    var (whole, fraction) := SpelledParts(x);
    SpelledIsPlain(x);
    PlainRead(x.negative, whole, fraction);
    PlainParsed(x.negative, whole, fraction);
    SpelledDigits(x);
  }

  // --- What a sum is ------------------------------------------------------------------------------

  /** The exponent, and what stripping zeros makes of it, stay within 64 bits. */
  predicate ExponentFits(token: Token)
    requires token.Readable()
  {
    && InI64(IntegerValue(token.exponent)) && InI64(token.LowestPlace())
    && (token.Digits() == [] || InI64(token.LowestPlace() + Trailing(token.Raw())))
  }

  /** The places two numbers occupy between them, the units place always counted. */
  function PlacesSpanned(left: Token, right: Token): int
    requires left.Readable() && right.Readable()
  {
    var high := Max(if left.Digits() == [] then 0 else Max(left.Places() - 1, 0),
                    if right.Digits() == [] then 0 else right.Places() - 1);
    var low := Min(if left.Digits() == [] then 0 else Min(left.LowestPlace() + Trailing(left.Raw()), 0),
                   if right.Digits() == [] then 0 else right.LowestPlace() + Trailing(right.Raw()));
    high - low + 1
  }

  lemma ParsedFits(token: Token)
    requires token.Readable()
    ensures Parsed(token).Some? <==> ExponentFits(token)
    ensures Parsed(token).Some? ==>
              var x := Parsed(token).value;
              && x.digits == token.Digits()
              && (x.digits != [] ==> x.exponent == token.LowestPlace() + Trailing(token.Raw())
                                     && x.High() == token.Places() - 1)
  {
  }

  lemma {:induction false} DigitCount(n: nat, k: nat)
    requires n < Shift(1, k)
    ensures |NatDigits(n)| <= k
  {
    var ds := NatDigits(n);
    if |ds| > k {
      NatAtLeast(ds);
      ShiftOneGrows(k, |ds| - 1);
    }
  }

  lemma UnitsBound(x: Exact, low: int, width: nat)
    requires x.Normal() && low <= x.exponent
    requires x.digits != [] ==> x.High() - low < width
    ensures -Shift(1, width) < Units(x, low) < Shift(1, width)
  {
    ShiftMono(0, 1, width);
    if x.digits == [] {
      ShiftMono(0, 0, x.exponent - low);
    } else {
      var k := x.exponent - low;
      NatBound(x.digits);
      ShiftMono(Nat(x.digits), Shift(1, |x.digits|), k);
      ShiftMono(0, Nat(x.digits), k);
      ShiftShift(1, |x.digits|, k);
      ShiftOneGrows(|x.digits| + k, width);
    }
  }

  lemma UnitsSumBound(a: Exact, b: Exact)
    requires a.Normal() && b.Normal()
    ensures var low := LowPlace(a, b);
            |NatDigits(AbsInt(Units(a, low) + Units(b, low)))| <= Span(a, b) + 1
  {
    var low := LowPlace(a, b);
    var width := Span(a, b);
    UnitsBound(a, low, width);
    UnitsBound(b, low, width);
    ShiftMono(0, 1, width);
    DigitCount(AbsInt(Units(a, low) + Units(b, low)), width + 1);
  }

  /** Operands within the span always have a sum, and it fits. */
  lemma TotalExists(a: Exact, b: Exact)
    requires a.Normal() && b.Normal() && Span(a, b) <= MAX_SUM_PLACES
    ensures Total(a, b).Some?
    ensures -MAX_SUM_PLACES <= Total(a, b).value.exponent <= MAX_SUM_PLACES + 1
  {
    hide Normalized, NatDigits, Units;
    var units := Units(a, LowPlace(a, b)) + Units(b, LowPlace(a, b));
    UnitsSumBound(a, b);
    SpanBounds(a, b);
    NormalizedExists(units < 0, NatDigits(AbsInt(units)), LowPlace(a, b));
    assert Total(a, b) == Normalized(units < 0, NatDigits(AbsInt(units)), LowPlace(a, b));
  }

  lemma SpanBounds(a: Exact, b: Exact)
    requires Span(a, b) <= MAX_SUM_PLACES
    ensures -MAX_SUM_PLACES <= LowPlace(a, b) <= 0
  {
  }

  lemma NormalizedExists(negative: bool, digits: seq<Digit>, low: int)
    requires -MAX_SUM_PLACES <= low <= 0 && |digits| <= MAX_SUM_PLACES + 1
    ensures Normalized(negative, digits, low).Some?
    ensures -MAX_SUM_PLACES <= Normalized(negative, digits, low).value.exponent <= MAX_SUM_PLACES + 1
  {
  }

  lemma SpansAgree(left: Token, right: Token)
    requires left.Readable() && right.Readable() && Parsed(left).Some? && Parsed(right).Some?
    ensures PlacesSpanned(left, right) == Span(Parsed(left).value, Parsed(right).value)
  {
    ParsedFits(left);
    ParsedFits(right);
  }

  lemma TokenSumDefined(left: Token, right: Token)
    requires left.Readable() && right.Readable()
    ensures TokenSum(left, right).Some?
       <==> ExponentFits(left) && ExponentFits(right) && PlacesSpanned(left, right) <= MAX_SUM_PLACES
  {
    ParsedFits(left);
    ParsedFits(right);
    if Parsed(left).Some? && Parsed(right).Some? {
      SpansAgree(left, right);
      TotalDefined(Parsed(left).value, Parsed(right).value);
    }
  }

  lemma TotalDefined(a: Exact, b: Exact)
    requires a.Normal() && b.Normal()
    ensures Total(a, b).Some? <==> Span(a, b) <= MAX_SUM_PLACES
  {
    if Span(a, b) <= MAX_SUM_PLACES {
      TotalExists(a, b);
    }
  }

  /** A sum exists exactly when both exponents fit and the operands span at most 1,024 places. */
  lemma SumDefined(left: Number, right: Number)
    ensures ExactSum(left, right).Some?
       <==> && ExponentFits(Lex(left)) && ExponentFits(Lex(right))
            && PlacesSpanned(Lex(left), Lex(right)) <= MAX_SUM_PLACES
  {
    TokenSumDefined(Lex(left), Lex(right));
  }

  lemma TokenSumValue(left: Token, right: Token)
    requires left.Readable() && right.Readable() && TokenSum(left, right).Some?
    ensures var x := TokenSum(left, right).value;
            && x.Value() == left.Value() + right.Value()
            && -MAX_SUM_PLACES <= x.exponent <= MAX_SUM_PLACES + 1
  {
    var a, b := Parsed(left).value, Parsed(right).value;
    TotalExists(a, b);
    TotalValue(a, b);
    ParsedValue(left);
    ParsedValue(right);
  }

  lemma FewFractionDigits(x: Exact)
    requires x.Normal() && -MAX_SUM_PLACES <= x.exponent
    ensures |SpelledParts(x).1| <= MAX_SUM_PLACES
  {
  }

  /** The exact form a sum was spelled from. */
  lemma SumForm(left: Number, right: Number) returns (x: Exact)
    requires ExactSum(left, right).Some?
    ensures x.Normal() && ExactSum(left, right) == Some(Spelled(x))
    ensures IsNumber(Spelled(x)) && Parsed(Lex(Spelled(x))) == Some(x)
    ensures Lex(Spelled(x)).exponent == "0"
    ensures x.Value() == Value(left) + Value(right)
  {
    x := TokenSum(Lex(left), Lex(right)).value;
    TokenSumValue(Lex(left), Lex(right));
    FewFractionDigits(x);
    SpelledRoundTrip(x);
  }

  /** Whatever sum is answered is a number text whose value is exactly the sum of the values. */
  lemma SumIsExact(left: Number, right: Number)
    requires ExactSum(left, right).Some?
    ensures IsNumber(ExactSum(left, right).value)
    ensures Value(ExactSum(left, right).value) == Value(left) + Value(right)
  {
    var x := SumForm(left, right);
    ParsedValue(Lex(Spelled(x)));
  }

  lemma NormalUnique(x: Exact, y: Exact)
    requires x.Normal() && y.Normal() && x.Value() == y.Value()
    ensures x == y
  {
    SignOfNormal(x);
    SignOfNormal(y);
    if x.digits != [] && y.digits != [] {
      BareInjective(x.digits, x.exponent, y.digits, y.exponent);
    }
  }

  lemma SignOfNormal(x: Exact)
    requires x.Normal()
    ensures if x.digits == [] then x.Value() == 0.0
            else if x.negative then x.Value() < 0.0 else x.Value() > 0.0
  {
    ScaleMono(0.0, Nat(x.digits) as real, x.exponent);
    if x.digits != [] {
      NatPositive(x.digits);
    }
  }

  /** Sums of equal value are the same text, whatever the operands were and however they were
      written. */
  lemma SumIsCanonical(left: Number, right: Number, otherLeft: Number, otherRight: Number)
    requires ExactSum(left, right).Some? && ExactSum(otherLeft, otherRight).Some?
    requires Value(left) + Value(right) == Value(otherLeft) + Value(otherRight)
    ensures ExactSum(left, right) == ExactSum(otherLeft, otherRight)
  {
    hide ExactSum, Spelled, Parsed, Value, Lex;
    var x := SumForm(left, right);
    var y := SumForm(otherLeft, otherRight);
    NormalUnique(x, y);
  }

  /** A sum's text has no exponent, no trailing fractional zero, and zero is written `0`. */
  lemma SumShape(left: Number, right: Number)
    requires ExactSum(left, right).Some?
    ensures var s := ExactSum(left, right).value;
            && IsNumber(s) && Lex(s).exponent == "0"
            && (Lex(s).fraction != [] ==> Lex(s).fraction[|Lex(s).fraction| - 1] != '0')
            && (Value(s) == 0.0 ==> s == "0")
  {
    hide ExactSum, Parsed, SpelledParts, Plain, Nat, Scale, Lex;
    var x := SumForm(left, right);
    var (whole, fraction) := SpelledParts(x);
    SpelledIsPlain(x);
    LexPlain(x.negative, whole, fraction);
    SumIsExact(left, right);
    SignOfNormal(x);
    FractionEnds(x);
  }

  lemma FractionEnds(x: Exact)
    requires x.Normal()
    ensures var fraction := SpelledParts(x).1;
            fraction != [] ==> fraction[|fraction| - 1] != 0
  {
  }

  /** Addition does not depend on the order of its operands, absence included. */
  lemma SumCommutes(left: Number, right: Number)
    ensures ExactSum(left, right) == ExactSum(right, left)
  {
    TokenSumCommutes(Lex(left), Lex(right));
  }

  lemma TokenSumCommutes(left: Token, right: Token)
    requires left.Readable() && right.Readable()
    ensures TokenSum(left, right) == TokenSum(right, left)
  {
    if Parsed(left).Some? && Parsed(right).Some? {
      TotalCommutes(Parsed(left).value, Parsed(right).value);
    }
  }

  lemma TotalCommutes(a: Exact, b: Exact)
    requires a.Normal() && b.Normal()
    ensures Total(a, b) == Total(b, a)
  {
    PlacesCommute(a, b);
  }

  lemma PlacesCommute(a: Exact, b: Exact)
    ensures LowPlace(a, b) == LowPlace(b, a) && HighPlace(a, b) == HighPlace(b, a)
  {
  }
}
