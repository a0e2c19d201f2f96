/** Which value a number is read as, through each of the two doors. */
module Readings {
  import opened Prelude
  import opened Digits
  import opened Number
  import opened Sum
  import opened Observed
  import opened Reading
  import opened Decimals

  /** A binary64 read as the pair its shortest text or its whole value spells, where one does. */
  predicate OfDouble(doors: Doors, rank: int, r: Reading) {
    match doors.whole(rank)
    case Some(units) => r == Reading.Exact(Observed.Pair(units, 0), rank)
    case None =>
      match ReadExact(doors.shown(rank))
      case Some(pair) => r == Reading.Exact(pair, rank)
      case None => r == Reading.Binary(rank)
  }

  /** On the wire an integer within 64 bits, signed or unsigned, is exactly itself; anything else is its
      binary64, or nothing. */
  lemma WireMeans(doors: Doors, n: Number)
    ensures var r := OfNumber(doors, n);
            if IsInteger(n) && I64_MIN <= IntegerValue(n) <= U64_MAX then
              r == Some(Reading.Exact(Observed.Pair(IntegerValue(n), 0), doors.carried(IntegerValue(n))))
            else match doors.binary(n)
                 case None => r == None
                 case Some(rank) => r.Some? && OfDouble(doors, rank, r.value)
  {
    hide IsNumber, ReadExact;
  }

  /** An authored literal keeps its exact value where it is whole, or where its binary64 is read as that very
      pair; otherwise it is its binary64. */
  lemma LiteralMeans(doors: Doors, text: string)
    ensures var r := OfLiteral(doors, text);
            match doors.binary(text)
            case None => r == None
            case Some(rank) =>
              && r.Some?
              && if exists pair :: Keeps(doors, text, rank, pair) then
                   r.value.Exact? && r.value.rank == rank && Keeps(doors, text, rank, r.value.pair)
                 else OfDouble(doors, rank, r.value)
  {
    hide ReadExact, IsNumber;
    if doors.binary(text).Some? && ReadExact(text).Some? {
      var rank, pair := doors.binary(text).value, ReadExact(text).value;
      assert Keeps(doors, text, rank, pair) <==> pair.scale == 0 || CanonicalPair(doors, rank) == Some(pair);
    }
  }

  predicate Keeps(doors: Doors, text: string, rank: int, pair: Observed.Pair) {
    ReadExact(text) == Some(pair) && (pair.scale == 0 || OfDouble(doors, rank, Reading.Exact(pair, rank)))
  }

  /** An integer within 64 bits is read as one value through both doors. */
  lemma DoorsAgree(doors: Doors, n: Number)
    requires IsInteger(n) && I64_MIN <= IntegerValue(n) <= U64_MAX && doors.binary(n).Some?
    ensures OfLiteral(doors, n).Some? && OfNumber(doors, n).Some?
    ensures OfLiteral(doors, n).value.SameValue(OfNumber(doors, n).value)
  {
    hide ReadExact, IsNumber, Nat;
    WireMeans(doors, n);
    LiteralMeans(doors, n);
    IntegerRead(n);
  }

  lemma IntegerRead(s: string)
    requires IsInteger(s) && -I128_MAX <= IntegerValue(s) <= I128_MAX
    ensures ReadExact(s) == Some(Observed.Pair(IntegerValue(s), 0))
  {
    hide ReadExact, Nat, Authored, ReadAs, Spelt;
    var sign := if IsSign(s[0]) then s[..1] else "";
    var whole := if IsSign(s[0]) then s[1..] else s;
    var token := Token(sign == "-", whole, "", "0");
    IntegerSpelt(s, sign, whole, token);
    assert Authored(s, token) by {
      SpeltAuthored(s, sign, whole, token);
    }
    IntegerReadAs(s, whole, token);
    ReadsExactly(s, Observed.Pair(IntegerValue(s), 0));
  }

  lemma SpeltAuthored(s: string, sign: string, whole: string, token: Token)
    requires Spelt(s, sign, whole, "", "", token)
    ensures Authored(s, token)
  {
    hide Spelt;
  }

  lemma IntegerSpelt(s: string, sign: string, whole: string, token: Token)
    requires IsInteger(s) && sign == (if IsSign(s[0]) then s[..1] else "") && whole == (if IsSign(s[0]) then s[1..] else s)
    requires token == Token(sign == "-", whole, "", "0")
    ensures Spelt(s, sign, whole, "", "", token)
  {
    assert s == sign + whole + "" + "";
  }

  lemma IntegerReadAs(s: string, whole: string, token: Token)
    requires IsInteger(s) && -I128_MAX <= IntegerValue(s) <= I128_MAX
    requires whole == (if IsSign(s[0]) then s[1..] else s) && token == Token(Negative(s), whole, "", "0")
    ensures ReadAs(token, Observed.Pair(IntegerValue(s), 0))
  {
    hide Nat;
    ZeroText();
    assert DigitsOf("") == [];
    assert token.Raw() == DigitsOf(whole);
  }
}
