/** The value a service predicate reads a stored number as. Binary64 rounding and printing are opaque
    functions; everything built on them is written out. */
module Reading {
  import opened Prelude
  import opened Number
  import opened Observed
  import opened Definition

  /** What the kernel asks of binary64 and of the map-key acceptors, each a function of its input.
      A binary64 is named by its rank in the total order of finite doubles: `0` is `0.0`, `-1` is
      `-0.0`. */
  datatype Doors = Doors(
    binary: string -> Option<int>,
    carried: int -> int,
    whole: int -> Option<int>,
    shown: int -> string,
    mapKey: (MapKey, string) -> bool)

  /** Units and scale beside the carried binary64, or a binary64 no such pair spells. */
  datatype Reading = Exact(pair: Observed.Pair, rank: int) | Binary(rank: int) {
    function CompareTo(other: Reading): Ordering {
      if Exact? && other.Exact? then ExactCompare(pair, other.pair) else OrderInt(rank, other.rank)
    }

    predicate IsZero() {
      rank == 0 || rank == -1
    }

    function Text(doors: Doors): string {
      if Exact? then ExactText(pair) else doors.shown(rank)
    }

    /** One value: the same pair, or the same binary64 where no pair spells it. */
    predicate SameValue(other: Reading) {
      match this
      case Exact(p, _) => other.Exact? && p == other.pair
      case Binary(r) => other.Binary? && r == other.rank
    }
  }

  function AsI64(n: Number): Option<int> {
    if IsInteger(n) && InI64(IntegerValue(n)) then Some(IntegerValue(n)) else None
  }

  function AsU64(n: Number): Option<int> {
    if IsInteger(n) && !Negative(n) && IntegerValue(n) <= U64_MAX then Some(IntegerValue(n)) else None
  }

  function CanonicalPair(doors: Doors, rank: int): Option<Observed.Pair> {
    match doors.whole(rank)
    case Some(units) => Some(Observed.Pair(units, 0))
    case None => ReadExact(doors.shown(rank))
  }

  function OfBinary(doors: Doors, rank: int): Reading {
    match CanonicalPair(doors, rank)
    case Some(pair) => Exact(pair, rank)
    case None => Binary(rank)
  }

  function ExactInteger(doors: Doors, units: int): Reading {
    Exact(Observed.Pair(units, 0), doors.carried(units))
  }

  /** The wire door: integer first, then a finite binary64. */
  function OfNumber(doors: Doors, n: Number): Option<Reading> {
    if AsI64(n).Some? then Some(ExactInteger(doors, AsI64(n).value))
    else if AsU64(n).Some? then Some(ExactInteger(doors, AsU64(n).value))
    else
      var rank :- doors.binary(n);
      Some(OfBinary(doors, rank))
  }

  /** The literal door: the authored decimal survives only where the source keeps it. */
  function OfLiteral(doors: Doors, text: string): Option<Reading> {
    var rank :- doors.binary(text);
    match ReadExact(text)
    case Some(pair) =>
      if pair.scale == 0 || CanonicalPair(doors, rank) == Some(pair) then Some(Exact(pair, rank))
      else Some(OfBinary(doors, rank))
    case None => Some(OfBinary(doors, rank))
  }

  /** The canonical text of a number the source can observe. */
  function NumericText(doors: Doors, n: Number): Option<string> {
    var reading :- OfNumber(doors, n);
    Some(reading.Text(doors))
  }

  /** What printing a finite binary64 promises: plain decimal text, one text per value, and whole
      values inside the 64-bit span. */
  ghost predicate Prints(doors: Doors) {
    && (forall rank :: doors.shown(rank) != [] && PlainChars(doors.shown(rank)))
    && (forall r, s :: doors.shown(r) == doors.shown(s) ==> r == s)
    && (forall rank :: doors.whole(rank).Some? ==> I64_MIN <= doors.whole(rank).value <= I64_MAX + 1)
  }

  predicate PlainChar(c: char) {
    IsDigit(c) || c == '-' || c == '.'
  }

  predicate PlainChars(s: string) {
    forall i | 0 <= i < |s| :: PlainChar(s[i])
  }

  /** A pair every reading carries: normalized, in range, above the smallest 128-bit integer. */
  predicate Carried(pair: Observed.Pair) {
    pair.Normalized() && pair.InRange() && pair.units != I128_MIN
  }

  lemma OfBinaryCarried(doors: Doors, rank: int)
    requires Prints(doors)
    ensures match OfBinary(doors, rank)
            case Exact(pair, _) => Carried(pair)
            case Binary(r) => r == rank && ReadExact(doors.shown(r)) == None
  {
    if doors.whole(rank).None? && ReadExact(doors.shown(rank)).Some? {
      ReadKeepsValue(doors.shown(rank));
    }
  }

  lemma OfNumberCarried(doors: Doors, n: Number)
    requires Prints(doors) && OfNumber(doors, n).Some?
    ensures match OfNumber(doors, n).value
            case Exact(pair, _) => Carried(pair)
            case Binary(r) => ReadExact(doors.shown(r)) == None
  {
    if AsI64(n).None? && AsU64(n).None? {
      OfBinaryCarried(doors, doors.binary(n).value);
    } else if AsU64(n).Some? {
      assert IntegerValue(n) >= 0;
    }
  }

  /** Two observable numbers have one canonical text exactly when they are read as one value. */
  lemma NumericTextInjective(doors: Doors, m: Number, n: Number)
    requires Prints(doors) && OfNumber(doors, m).Some? && OfNumber(doors, n).Some?
    ensures NumericText(doors, m) == NumericText(doors, n)
       <==> OfNumber(doors, m).value.SameValue(OfNumber(doors, n).value)
  {
    var a, b := OfNumber(doors, m).value, OfNumber(doors, n).value;
    OfNumberCarried(doors, m);
    OfNumberCarried(doors, n);
    if a.Exact? {
      ReadSpelled(a.pair);
    }
    if b.Exact? {
      ReadSpelled(b.pair);
    }
    if a.Exact? && b.Exact? && a.Text(doors) == b.Text(doors) {
      ExactTextInjective(a.pair, b.pair);
    }
  }
}
