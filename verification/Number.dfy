/** Exact decimal ordering and addition over JSON number texts, whatever their spelling and however
    long their exponents. The grammar is section 6 of RFC 8259. */
module Number {
  import opened Prelude
  import opened Digits

  // --- Texts --------------------------------------------------------------------------------------

  function DigitsOf(s: string): (ds: seq<Digit>)
    requires AllDigits(s)
    ensures |ds| == |s|
  {
    seq(|s|, i requires 0 <= i < |s| => s[i] as int - '0' as int)
  }

  function TextOf(ds: seq<Digit>): (s: string)
    ensures |s| == |ds| && AllDigits(s)
    ensures DigitsOf(s) == ds
  {
    seq(|ds|, i requires 0 <= i < |ds| => (ds[i] + '0' as int) as char)
  }

  /** The usual spelling of a natural number. */
  function NatText(n: nat): (s: string)
    ensures s != [] && AllDigits(s)
    ensures Nat(DigitsOf(s)) == n
    ensures s[0] == '0' ==> s == "0"
  {
    if n == 0 then "0" else TextOf(NatDigits(n))
  }

  predicate IsSign(c: char) {
    c == '-' || c == '+'
  }

  predicate IsExponentMark(c: char) {
    c == 'e' || c == 'E'
  }

  predicate IsPoint(c: char) {
    c == '.'
  }

  predicate Negative(s: string) {
    s != [] && s[0] == '-'
  }

  function DropMinus(s: string): string {
    if Negative(s) then s[1..] else s
  }

  /** Digits after at most one sign: an exponent, or an integer. */
  predicate IsInteger(s: string) {
    var unsigned := if s != [] && IsSign(s[0]) then s[1..] else s;
    unsigned != [] && AllDigits(unsigned)
  }

  function IntegerValue(s: string): int
    requires IsInteger(s)
  {
    var unsigned := if s != [] && IsSign(s[0]) then s[1..] else s;
    var magnitude: int := Nat(DigitsOf(unsigned));
    if Negative(s) then -magnitude else magnitude
  }

  /** A number text cut into its parts; an absent fraction is empty, an absent exponent `0`. */
  datatype Token = Token(negative: bool, whole: string, fraction: string, exponent: string) {
    /** Digits where digits belong. */
    predicate Readable() {
      && whole != []
      && AllDigits(whole)
      && AllDigits(fraction)
      && IsInteger(exponent)
    }

    /** `-? (0 | [1-9][0-9]*) (. [0-9]+)? ([eE] [+-]? [0-9]+)?`, once cut. */
    predicate WellFormed() {
      Readable() && (whole[0] == '0' ==> |whole| == 1)
    }

    function Raw(): (ds: seq<Digit>)
      requires Readable()
      ensures |ds| == |whole| + |fraction|
    {
      DigitsOf(whole) + DigitsOf(fraction)
    }

    /** The power of ten the lowest written digit stands at. */
    function LowestPlace(): int
      requires Readable()
    {
      IntegerValue(exponent) - |fraction|
    }

    function Value(): real
      requires Readable()
    {
      Signed(negative, Scale(Nat(Raw()) as real, LowestPlace()))
    }

    /** The place of the first digit left once zeros are stripped, counted from the point. */
    function Places(): int
      requires Readable()
    {
      LowestPlace() + |Raw()| - LeadingZeros(Raw())
    }

    function Digits(): seq<Digit>
      requires Readable()
    {
      Strip(Raw())
    }

    lemma ValueFromPlaces()
      requires Readable()
      ensures Value() == Signed(negative, Pointed(Digits(), Places()))
    {
      hide Nat, Scale, Shift, Strip, LeadingZeros;
      StripPlaces(Raw(), LowestPlace());
    }
  }

  function Signed(negative: bool, x: real): real {
    if negative then -x else x
  }

  function Lex(s: string): Token {
    var unsigned := DropMinus(s);
    var (mantissa, exponent) :=
      match SplitOnce(unsigned, IsExponentMark)
      case Some(parts) => parts
      case None => (unsigned, "0");
    var (whole, fraction) :=
      match SplitOnce(mantissa, IsPoint)
      case Some(parts) => parts
      case None => (mantissa, "");
    Token(Negative(s), whole, fraction, exponent)
  }

  /** The number grammar; a point is followed by a digit. */
  predicate IsNumber(s: string) {
    && Lex(s).WellFormed()
    && ('.' in s ==> Lex(s).fraction != [])
  }

  /** A JSON number, held as the text it was written as. */
  type Number = s: string | IsNumber(s) witness (assert Lex("0") == Token(false, "0", "", "0"); "0")

  /** The mathematical value of a number text. */
  function Value(s: Number): real {
    Lex(s).Value()
  }

  /** The order of two number texts: what `Compare` answers and every numeric rule reads. */
  function Order(left: Number, right: Number): Ordering {
    OrderReal(Value(left), Value(right))
  }

  // --- Signed big integers ------------------------------------------------------------------------

  predicate TopDigitNonZero(ds: seq<Digit>) {
    ds != [] ==> ds[|ds| - 1] != 0
  }

  /** Longer first, then most significant digit first. */
  function MagnitudeOrder(a: seq<Digit>, b: seq<Digit>): Ordering {
    if |a| != |b| then OrderInt(|a|, |b|) else Lexicographic(Reverse(a), Reverse(b))
  }

  lemma LsbAtLeast(ds: seq<Digit>)
    requires ds != [] && TopDigitNonZero(ds)
    ensures Shift(1, |ds| - 1) <= Lsb(ds)
  {
    LsbIsReversedNat(ds);
    NatAtLeast(Reverse(ds));
  }

  lemma TopDigitByValue(ds: seq<Digit>)
    requires ds != [] && Lsb(ds) >= Shift(1, |ds| - 1)
    ensures TopDigitNonZero(ds)
  {
    LsbBound(ds[..|ds| - 1]);
    ShiftMono(0, 0, |ds| - 1);
  }

  lemma {:induction false} ShiftOneGrows(j: nat, k: nat)
    requires j <= k
    ensures Shift(1, j) <= Shift(1, k)
  {
    ShiftMono(0, 1, j);
    if j < k {
      ShiftOneGrows(j, k - 1);
    }
  }

  lemma MagnitudeOrderIsNumeric(a: seq<Digit>, b: seq<Digit>)
    requires TopDigitNonZero(a) && TopDigitNonZero(b)
    ensures MagnitudeOrder(a, b) == OrderInt(Lsb(a), Lsb(b))
  {
    LsbBound(a);
    LsbBound(b);
    if |a| < |b| {
      LsbAtLeast(b);
      ShiftOneGrows(|a|, |b| - 1);
    } else if |b| < |a| {
      LsbAtLeast(a);
      ShiftOneGrows(|b|, |a| - 1);
    } else {
      LexicographicIsNumeric(Reverse(a), Reverse(b));
      LsbIsReversedNat(a);
      LsbIsReversedNat(b);
    }
  }

  /** A digit vector's entry, zero past its end. */
  function DigitAt(ds: seq<Digit>, i: nat): Digit {
    if i < |ds| then ds[i] else 0
  }

  lemma {:induction false} LsbPadded(ds: seq<Digit>, n: nat)
    ensures Lsb(ds + Zeros(n)) == Lsb(ds)
  {
    if n > 0 {
      assert ds + Zeros(n) == ds + Zeros(n - 1) + [0];
      LsbSnoc(ds + Zeros(n - 1), 0);
      ShiftMono(0, 0, |ds| + n - 1);
      LsbPadded(ds, n - 1);
    } else {
      assert ds + Zeros(0) == ds;
    }
  }

  lemma TakeAll(ds: seq<Digit>)
    ensures ds[..|ds|] == ds
  {
  }

  lemma LsbPadTo(ds: seq<Digit>, width: nat)
    requires |ds| <= width
    ensures Lsb(PadTo(ds, width)[..width]) == Lsb(ds)
  {
    LsbPadded(ds, width - |ds|);
    TakeAll(PadTo(ds, width));
  }

  lemma CarryStep(c: int, x: int, i: nat)
    ensures Shift(c % 10, i) + Shift(c / 10, i + 1) == Shift(c, i)
    ensures Shift(x, i) + Shift(c, i) == Shift(x + c, i)
    ensures Shift(x, i) - Shift(c, i) == Shift(x - c, i)
  {
    ShiftShift(c / 10, 1, i);
    assert Shift(c / 10, 1) == 10 * Shift(c / 10, 0);
    ShiftAdds(c % 10, 10 * (c / 10), i);
    ShiftAdds(x, c, i);
    ShiftAdds(x - c, c, i);
  }

  /** Dropping leading zeros and reversing keeps the value and leaves no zero at the top. */
  lemma SignificantDigits(written: seq<Digit>)
    ensures var significant := written[LeadingZeros(written)..];
            && TopDigitNonZero(Reverse(significant)) && Lsb(Reverse(significant)) == Nat(written)
            && (significant == [] ==> Nat(written) == 0)
            && (Reverse(significant) == [] <==> significant == [])
  {
    var significant := written[LeadingZeros(written)..];
    DropLeading(written);
    LsbIsReversedNat(Reverse(significant));
    assert Reverse(Reverse(significant)) == significant;
  }

  class Integer {
    var negative: bool
    /** Least significant first, with no zero at the top. */
    var digits: seq<Digit>

    predicate Valid()
      reads this
    {
      (negative ==> digits != []) && TopDigitNonZero(digits)
    }

    function IntValue(): int
      reads this
    {
      if negative then -Lsb(digits) else Lsb(digits)
    }

    /** Signs first, then magnitudes, reversed below zero. */
    function Compare(other: Integer): (order: Ordering)
      requires Valid() && other.Valid()
      reads this, other
      ensures order == OrderInt(IntValue(), other.IntValue())
    {
      IntegerOrderIsNumeric(negative, digits, other.negative, other.digits);
      IntegerOrder(negative, digits, other.negative, other.digits)
    }

    constructor Parse(text: string)
      requires IsInteger(text)
      ensures Valid() && IntValue() == IntegerValue(text)
    {
      hide Nat, Lsb, Reverse, LeadingZeros;
      var unsigned := text[FirstIndex(text, c => !IsSign(c))..];
      FirstIndexIsFirst(text, c => !IsSign(c));
      assert unsigned == if text != [] && IsSign(text[0]) then text[1..] else text;
      var written := DigitsOf(unsigned);
      var significant := written[LeadingZeros(written)..];
      SignificantDigits(written);
      digits := Reverse(significant);
      negative := Negative(text) && significant != [];
    }

    /** Adds `other` in place; `other` itself is left alone. */
    method Add(other: Integer)
      requires Valid() && other.Valid()
      modifies this
      ensures Valid()
      ensures IntValue() == old(IntValue()) + old(other.IntValue())
    {
      var sign, addend := other.negative, other.digits;
      if negative == sign {
        AddMagnitude(addend);
      } else {
        if MagnitudeOrder(digits, addend) == Less {
          MagnitudeOrderIsNumeric(digits, addend);
          negative, digits, sign, addend := sign, addend, negative, digits;
        } else {
          MagnitudeOrderIsNumeric(digits, addend);
        }
        SubtractMagnitude(addend);
        while digits != [] && digits[|digits| - 1] == 0
          invariant (if negative then -Lsb(digits) else Lsb(digits))
                 == old(IntValue()) + old(other.IntValue())
          decreases |digits|
        {
          ShiftMono(0, 0, |digits| - 1);
          digits := digits[..|digits| - 1];
        }
        if digits == [] {
          negative := false;
        }
      }
    }

    method AddMagnitude(addend: seq<Digit>)
      requires TopDigitNonZero(digits) && TopDigitNonZero(addend)
      requires negative ==> digits != []
      modifies this`digits
      ensures TopDigitNonZero(digits) && (negative ==> digits != [])
      ensures Lsb(digits) == Lsb(old(digits)) + Lsb(addend)
    {
      var width := if |digits| < |addend| then |addend| else |digits|;
      hide SumSoFar, PadTo, Lsb, Shift;
      ghost var a := digits;
      digits := PadTo(digits, width);
      SumStarts(a, addend, digits);
      var carry: Digit := 0;
      for index := 0 to width
        invariant |digits| == width
        invariant SumSoFar(digits, a, addend, carry, index)
      {
        var sum := digits[index] + DigitAt(addend, index) + carry;
        AddStep(digits, a, addend, carry, index);
        digits, carry := digits[index := sum % 10], sum / 10;
      }
      SumDone(a, addend, digits, carry);
      SumIsTrimmed(a, addend, digits, carry);
      if carry != 0 {
        digits := digits + [carry];
      }
    }

    method SubtractMagnitude(subtrahend: seq<Digit>)
      requires Lsb(subtrahend) <= Lsb(digits) && |subtrahend| <= |digits|
      modifies this`digits
      ensures Lsb(digits) == Lsb(old(digits)) - Lsb(subtrahend)
    {
      ghost var a := digits;
      var borrow := 0;
      for index := 0 to |digits|
        invariant |digits| == |a|
        invariant DifferenceSoFar(digits, a, subtrahend, borrow, index)
      {
        var value := digits[index] - DigitAt(subtrahend, index) - borrow;
        SubtractStep(digits, a, subtrahend, borrow, index);
        borrow := if value < 0 then 1 else 0;
        digits := digits[index := value + borrow * 10];
      }
      DifferenceDone(a, subtrahend, digits, borrow);
      NothingBorrowed(digits, borrow, Lsb(a) - Lsb(subtrahend));
    }
  }

  lemma SumStep(x: int, y: int, carry: int, i: nat)
    ensures var sum := x + y + carry;
            Shift(sum % 10, i) + Shift(sum / 10, i + 1) == Shift(x, i) + Shift(y, i) + Shift(carry, i)
  {
    CarryStep(x + y + carry, 0, i);
    CarryStep(y, x, i);
    CarryStep(carry, x + y, i);
  }

  /** The lowest `i` places hold the sum of `a` and `b` there, less the carry; the rest is still `a`. */
  ghost predicate SumSoFar(digits: seq<Digit>, a: seq<Digit>, b: seq<Digit>, carry: Digit, i: nat) {
    && |a| <= |digits| && |b| <= |digits| && i <= |digits|
    && carry <= 1
    && digits[i..] == PadTo(a, |digits|)[i..]
    && Lsb(digits[..i]) + Shift(carry, i)
       == Lsb(PadTo(a, |digits|)[..i]) + Lsb(PadTo(b, |digits|)[..i])
  }

  lemma SumStarts(a: seq<Digit>, b: seq<Digit>, digits: seq<Digit>)
    requires |a| <= |digits| && |b| <= |digits| && digits == PadTo(a, |digits|)
    ensures SumSoFar(digits, a, b, 0, 0)
  {
    assert digits[..0] == [] == PadTo(b, |digits|)[..0];
  }

  lemma AddStep(digits: seq<Digit>, a: seq<Digit>, b: seq<Digit>, carry: Digit, i: nat)
    requires i < |digits| && SumSoFar(digits, a, b, carry, i)
    ensures var sum := digits[i] + DigitAt(b, i) + carry;
            0 <= sum < 20 && SumSoFar(digits[i := sum % 10], a, b, sum / 10, i + 1)
  {
    var x, y := PadTo(a, |digits|), PadTo(b, |digits|);
    assert digits[i] == digits[i..][0] == x[i..][0] == x[i];
    assert y[i] == DigitAt(b, i);
    var next := digits[i := (x[i] + y[i] + carry) % 10];
    assert next[..i] == digits[..i];
    assert next[i + 1..] == digits[i..][1..] && x[i + 1..] == x[i..][1..];
    LsbTake(next, i);
    LsbTake(x, i);
    LsbTake(y, i);
    SumStep(x[i], y[i], carry, i);
  }

  lemma BorrowStep(x: Digit, y: Digit, owed: int, borrow: int, i: nat)
    ensures Shift(x - y - owed + borrow * 10, i) - Shift(borrow, i + 1)
         == Shift(x, i) - Shift(y, i) - Shift(owed, i)
  {
    CarryStep(y, x, i);
    CarryStep(owed, x - y, i);
    ShiftShift(borrow, 1, i);
    assert Shift(borrow, 1) == 10 * Shift(borrow, 0);
    ShiftAdds(x - y - owed, 10 * borrow, i);
  }

  /** A sum as wide as its wider operand, with its carry, has no zero at the top. */
  lemma SumIsTrimmed(a: seq<Digit>, b: seq<Digit>, sum: seq<Digit>, carry: Digit)
    requires TopDigitNonZero(a) && TopDigitNonZero(b)
    requires |sum| == if |a| < |b| then |b| else |a|
    requires Lsb(sum) + Shift(carry, |sum|) == Lsb(a) + Lsb(b)
    ensures carry == 0 ==> Lsb(sum) == Lsb(a) + Lsb(b) && TopDigitNonZero(sum)
    ensures Lsb(sum + [carry]) == Lsb(a) + Lsb(b)
    ensures sum == [] ==> a == [] && b == []
  {
    LsbSnoc(sum, carry);
    if carry == 0 {
      ShiftMono(0, 0, |sum|);
      WiderOperand(a, b, |sum|);
      if sum != [] {
        TopDigitByValue(sum);
      }
    }
  }

  lemma SumDone(a: seq<Digit>, b: seq<Digit>, sum: seq<Digit>, carry: Digit)
    requires SumSoFar(sum, a, b, carry, |sum|)
    ensures Lsb(sum) + Shift(carry, |sum|) == Lsb(a) + Lsb(b)
  {
    LsbPadTo(a, |sum|);
    LsbPadTo(b, |sum|);
    TakeAll(sum);
  }

  /** The lowest `i` places hold the difference there, with what they borrowed from above. */
  ghost predicate DifferenceSoFar(digits: seq<Digit>, a: seq<Digit>, b: seq<Digit>, borrow: int, i: nat) {
    && i <= |digits| == |a| && |b| <= |a|
    && 0 <= borrow <= 1
    && digits[i..] == a[i..]
    && Lsb(digits[..i]) - Shift(borrow, i) == Lsb(a[..i]) - Lsb(PadTo(b, |a|)[..i])
  }

  lemma SubtractStep(digits: seq<Digit>, a: seq<Digit>, b: seq<Digit>, borrow: int, i: nat)
    requires i < |digits| && DifferenceSoFar(digits, a, b, borrow, i)
    ensures var value := digits[i] - DigitAt(b, i) - borrow;
            var borrowed := if value < 0 then 1 else 0;
            && 0 <= value + borrowed * 10 < 10
            && DifferenceSoFar(digits[i := value + borrowed * 10], a, b, borrowed, i + 1)
  {
    assert digits[i] == digits[i..][0] == a[i];
    var padded := PadTo(b, |a|);
    assert padded[i] == DigitAt(b, i);
    var value := a[i] - padded[i] - borrow;
    var borrowed := if value < 0 then 1 else 0;
    var next := digits[i := value + borrowed * 10];
    assert next[..i] == digits[..i];
    assert next[i + 1..] == digits[i..][1..] && a[i + 1..] == a[i..][1..];
    LsbTake(next, i);
    LsbTake(a, i);
    LsbTake(padded, i);
    BorrowStep(a[i], padded[i], borrow, borrowed, i);
  }

  /** A difference that is not negative has nothing left to borrow. */
  lemma NothingBorrowed(digits: seq<Digit>, borrow: int, difference: int)
    requires 0 <= borrow <= 1 && 0 <= difference
    requires Lsb(digits) - Shift(borrow, |digits|) == difference
    ensures Lsb(digits) == difference
  {
    if borrow == 1 {
      LsbBound(digits);
    } else {
      ShiftMono(0, 0, |digits|);
    }
  }

  lemma DifferenceDone(a: seq<Digit>, b: seq<Digit>, digits: seq<Digit>, borrow: int)
    requires DifferenceSoFar(digits, a, b, borrow, |digits|)
    ensures Lsb(digits) - Shift(borrow, |digits|) == Lsb(a) - Lsb(b)
  {
    LsbPadTo(b, |digits|);
    TakeAll(digits);
    TakeAll(a);
  }

  lemma WiderOperand(a: seq<Digit>, b: seq<Digit>, width: nat)
    requires TopDigitNonZero(a) && TopDigitNonZero(b)
    requires width == if |a| < |b| then |b| else |a|
    ensures width > 0 ==> Lsb(a) + Lsb(b) >= Shift(1, width - 1)
  {
    LsbBound(a);
    LsbBound(b);
    if |a| < |b| {
      LsbAtLeast(b);
    } else if a != [] {
      LsbAtLeast(a);
    }
  }

  function IntegerOrder(negative: bool, digits: seq<Digit>, otherNegative: bool, other: seq<Digit>)
    : Ordering
  {
    if negative != otherNegative then (if negative then Less else Greater)
    else if negative then MagnitudeOrder(digits, other).Reverse()
    else MagnitudeOrder(digits, other)
  }

  // --- Exact comparison ---------------------------------------------------------------------------

  class Decimal {
    const negative: bool
    const digits: seq<Digit>
    const places: Integer

    constructor Parse(token: Token)
      requires token.Readable()
      ensures negative == token.negative && digits == token.Digits()
      ensures fresh(places) && places.Valid() && places.IntValue() == token.Places()
    {
      var raw := token.Raw();
      var leading := LeadingZeros(raw);
      var sum := new Integer.Parse(token.exponent);
      var width := Count(|token.whole|, false);
      sum.Add(width);
      var offset := Count(leading, true);
      sum.Add(offset);
      negative := token.negative;
      digits := Strip(raw);
      places := sum;
    }
  }

  /** A count, read through the text it is written as. */
  method Count(n: nat, negated: bool) returns (integer: Integer)
    ensures fresh(integer) && integer.Valid()
    ensures integer.IntValue() == if negated then 0 - n else n
  {
    PlainText(n);
    NegatedText(n);
    integer := new Integer.Parse(if negated then "-" + NatText(n) else NatText(n));
  }

  lemma PlainText(n: nat)
    ensures IsInteger(NatText(n)) && IntegerValue(NatText(n)) == n
  {
    assert IsDigit(NatText(n)[0]);
  }

  lemma NegatedText(n: nat)
    ensures IsInteger("-" + NatText(n)) && IntegerValue("-" + NatText(n)) == 0 - n
  {
    assert ("-" + NatText(n))[1..] == NatText(n);
  }

  /** Stripping zeros off both ends keeps the value, with the point moved to the first digit left. */
  lemma StripPlaces(raw: seq<Digit>, low: int)
    ensures Scale(Nat(raw) as real, low) == Pointed(Strip(raw), low + |raw| - LeadingZeros(raw))
  {
    StripValue(raw);
    ScaleOfShift(Nat(Strip(raw)), Trailing(raw), low);
  }

  lemma PointedSign(ds: seq<Digit>, places: int)
    requires Bare(ds)
    ensures if ds == [] then Pointed(ds, places) == 0.0 else Pointed(ds, places) > 0.0
  {
    ScaleMono(0.0, Nat(ds) as real, places - |ds|);
    if ds != [] {
      NatPositive(ds);
    }
  }

  /** Signs and zeros first; then the place of the first digit and the digits decide. */
  lemma SignsDecide(m: bool, a: seq<Digit>, p: int, n: bool, b: seq<Digit>, q: int)
    requires Bare(a) && Bare(b)
    ensures var order := OrderReal(Signed(m, Pointed(a, p)), Signed(n, Pointed(b, q)));
            if a == [] && b == [] then order == Equal
            else if a == [] then order == if n then Greater else Less
            else if b == [] || m != n then order == if m then Less else Greater
            else if m then order == PointedOrder(a, p, b, q).Reverse()
            else order == PointedOrder(a, p, b, q)
  {
    PointedSign(a, p);
    PointedSign(b, q);
    if a != [] && b != [] {
      PointedOrderIsNumeric(a, p, b, q);
    }
  }

  lemma IntegerOrderIsNumeric(m: bool, a: seq<Digit>, n: bool, b: seq<Digit>)
    requires TopDigitNonZero(a) && TopDigitNonZero(b)
    requires (m ==> a != []) && (n ==> b != [])
    ensures IntegerOrder(m, a, n, b)
         == OrderInt(if m then -Lsb(a) else Lsb(a), if n then -Lsb(b) else Lsb(b))
  {
    MagnitudeOrderIsNumeric(a, b);
    LsbPositive(a);
    LsbPositive(b);
  }

  lemma LsbPositive(ds: seq<Digit>)
    requires TopDigitNonZero(ds)
    ensures if ds == [] then Lsb(ds) == 0 else Lsb(ds) > 0
  {
    if ds != [] {
      LsbAtLeast(ds);
      ShiftMono(0, 1, |ds| - 1);
    }
  }

  /** The order of two parsed numbers: zeros, then signs, then places, then padded digits. */
  function FormOrder(m: bool, a: seq<Digit>, p: Ordering, n: bool, b: seq<Digit>): Ordering {
    if a == [] && b == [] then Equal
    else if a == [] then (if n then Greater else Less)
    else if b == [] then (if m then Less else Greater)
    else if m != n then (if m then Less else Greater)
    else
      var width := if |a| < |b| then |b| else |a|;
      var order := if p != Equal then p else Lexicographic(PadTo(a, width), PadTo(b, width));
      if m then order.Reverse() else order
  }

  /** Compares two number texts by mathematical value, independent of their spelling. */
  method Compare(left: Number, right: Number) returns (order: Ordering)
    ensures order == Order(left, right)
  {
    order := CompareTokens(Lex(left), Lex(right));
  }

  method CompareTokens(left: Token, right: Token) returns (order: Ordering)
    requires left.Readable() && right.Readable()
    ensures order == OrderReal(left.Value(), right.Value())
  {
    var l := new Decimal.Parse(left);
    var r := new Decimal.Parse(right);
    var p := l.places.Compare(r.places);
    order := FormOrder(l.negative, l.digits, p, r.negative, r.digits);
    FormOrderIsNumeric(left, right);
  }

  lemma FormOrderIsNumeric(left: Token, right: Token)
    requires left.Readable() && right.Readable()
    ensures FormOrder(left.negative, left.Digits(), OrderInt(left.Places(), right.Places()),
                      right.negative, right.Digits()) == OrderReal(left.Value(), right.Value())
  {
    left.ValueFromPlaces();
    right.ValueFromPlaces();
    SignsDecide(left.negative, left.Digits(), left.Places(),
                right.negative, right.Digits(), right.Places());
  }
}
