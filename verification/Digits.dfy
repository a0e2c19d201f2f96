/** Decimal digit sequences, powers of ten and the order and uniqueness facts number texts rest on.
    Scaling by a power of ten is a function of its own, so every proof here is linear. */
module Digits {
  import opened Prelude

  type Digit = d: int | 0 <= d < 10

  /** `n × 10^k`. */
  function Shift(n: int, k: nat): int {
    if k == 0 then n else 10 * Shift(n, k - 1)
  }

  /** `x × 10^e` for any integer `e`. */
  function Scale(x: real, e: int): real
    decreases if e < 0 then -e else e
  {
    if e == 0 then x else if e > 0 then 10.0 * Scale(x, e - 1) else Scale(x, e + 1) / 10.0
  }

  /** The number a digit sequence spells, most significant first. */
  function Nat(ds: seq<Digit>): nat {
    if |ds| == 0 then 0 else Nat(ds[..|ds| - 1]) * 10 + ds[|ds| - 1]
  }

  /** The number a digit sequence spells, least significant first. */
  function Lsb(ds: seq<Digit>): int {
    if |ds| == 0 then 0 else Lsb(ds[..|ds| - 1]) + Shift(ds[|ds| - 1], |ds| - 1)
  }

  function Reverse(ds: seq<Digit>): (r: seq<Digit>)
    ensures |r| == |ds|
    ensures forall i | 0 <= i < |ds| :: r[i] == ds[|ds| - 1 - i]
  {
    seq(|ds|, i requires 0 <= i < |ds| => ds[|ds| - 1 - i])
  }

  // --- Scaling ------------------------------------------------------------------------------------

  lemma {:induction false} ShiftAdds(m: int, n: int, k: nat)
    ensures Shift(m + n, k) == Shift(m, k) + Shift(n, k)
  {
    if k > 0 {
      ShiftAdds(m, n, k - 1);
    }
  }

  lemma {:induction false} ShiftShift(n: int, j: nat, k: nat)
    ensures Shift(Shift(n, j), k) == Shift(n, j + k)
  {
    if k > 0 {
      ShiftShift(n, j, k - 1);
    }
  }

  lemma {:induction false} ShiftMono(m: int, n: int, k: nat)
    ensures m < n ==> Shift(m, k) < Shift(n, k)
    ensures m <= n ==> Shift(m, k) <= Shift(n, k)
    ensures Shift(0, k) == 0
    ensures Shift(-n, k) == -Shift(n, k)
  {
    if k > 0 {
      ShiftMono(m, n, k - 1);
    }
  }

  lemma {:induction false} ScaleAdds(x: real, y: real, e: int)
    ensures Scale(x + y, e) == Scale(x, e) + Scale(y, e)
    decreases if e < 0 then -e else e
  {
    if e != 0 {
      ScaleAdds(x, y, if e > 0 then e - 1 else e + 1);
    }
  }

  lemma {:induction false} ScaleMono(x: real, y: real, e: int)
    ensures x < y ==> Scale(x, e) < Scale(y, e)
    ensures x <= y ==> Scale(x, e) <= Scale(y, e)
    ensures Scale(0.0, e) == 0.0
    ensures Scale(-x, e) == -Scale(x, e)
    decreases if e < 0 then -e else e
  {
    if e != 0 {
      ScaleMono(x, y, if e > 0 then e - 1 else e + 1);
    }
  }

  lemma {:induction false} ScaleSucc(x: real, e: int)
    ensures Scale(x, e + 1) == 10.0 * Scale(x, e)
  {
  }

  lemma {:induction false} ScaleScale(x: real, d: int, e: int)
    ensures Scale(Scale(x, d), e) == Scale(x, d + e)
    decreases if e < 0 then -e else e
  {
    if e > 0 {
      ScaleScale(x, d, e - 1);
      ScaleSucc(x, d + e - 1);
    } else if e < 0 {
      ScaleScale(x, d, e + 1);
      ScaleSucc(x, d + e);
    }
  }

  lemma {:induction false} ScaleOfShift(n: int, k: nat, e: int)
    ensures Scale(Shift(n, k) as real, e) == Scale(n as real, k + e)
  {
    if k > 0 {
      ScaleOfShift(n, k - 1, e + 1);
      ScaleTen(Shift(n, k - 1) as real, e);
    }
  }

  lemma {:induction false} ScaleTen(x: real, e: int)
    ensures Scale(10.0 * x, e) == Scale(x, e + 1)
  {
    assert Scale(x, 1) == 10.0 * Scale(x, 0);
    ScaleScale(x, 1, e);
  }

  lemma ScaledOrder(m: int, n: int, e: int)
    ensures OrderReal(Scale(m as real, e), Scale(n as real, e)) == OrderInt(m, n)
  {
    ScaleMono(m as real, n as real, e);
    ScaleMono(n as real, m as real, e);
  }

  lemma {:induction false} ScaleGrows(d: int, e: int)
    requires d <= e
    ensures Scale(1.0, d) <= Scale(1.0, e)
    decreases e - d
  {
    if d < e {
      ScaleGrows(d, e - 1);
      ScaleSucc(1.0, e - 1);
      ScaleMono(0.0, 1.0, e - 1);
    }
  }

  // --- Digits and the numbers they spell ----------------------------------------------------------

  lemma {:induction false} NatConcat(a: seq<Digit>, b: seq<Digit>)
    ensures Nat(a + b) == Shift(Nat(a), |b|) + Nat(b)
  {
    if b == [] {
      assert a + b == a;
    } else {
      var n := |b| - 1;
      NatConcat(a, b[..n]);
      assert (a + b)[..|a + b| - 1] == a + b[..n];
    }
  }

  lemma {:induction false} NatBound(ds: seq<Digit>)
    ensures Nat(ds) < Shift(1, |ds|)
  {
    if ds != [] {
      NatBound(ds[..|ds| - 1]);
    }
  }

  lemma {:induction false} NatHead(ds: seq<Digit>)
    requires ds != []
    ensures Nat(ds) == Shift(ds[0], |ds| - 1) + Nat(ds[1..])
  {
    NatConcat(ds[..1], ds[1..]);
    assert ds[..1] + ds[1..] == ds;
    assert ds[..1][..0] == [];
  }

  lemma {:induction false} NatAtLeast(ds: seq<Digit>)
    requires ds != [] && ds[0] != 0
    ensures Shift(1, |ds| - 1) <= Nat(ds)
  {
    NatHead(ds);
    ShiftMono(1, ds[0], |ds| - 1);
  }

  lemma {:induction false} LsbIsReversedNat(ds: seq<Digit>)
    ensures Lsb(ds) == Nat(Reverse(ds))
  {
    if ds != [] {
      var n := |ds| - 1;
      LsbIsReversedNat(ds[..n]);
      NatHead(Reverse(ds));
      assert Reverse(ds)[1..] == Reverse(ds[..n]);
    }
  }

  lemma LsbTake(ds: seq<Digit>, i: nat)
    requires i < |ds|
    ensures Lsb(ds[..i + 1]) == Lsb(ds[..i]) + Shift(ds[i], i)
  {
    assert ds[..i + 1][..i] == ds[..i];
  }

  lemma LsbSnoc(ds: seq<Digit>, d: Digit)
    ensures Lsb(ds + [d]) == Lsb(ds) + Shift(d, |ds|)
  {
    assert (ds + [d])[..|ds|] == ds;
  }

  lemma LsbBound(ds: seq<Digit>)
    ensures 0 <= Lsb(ds) < Shift(1, |ds|)
  {
    LsbIsReversedNat(ds);
    NatBound(Reverse(ds));
  }

  // --- Lexicographic order ------------------------------------------------------------------------

  /** Element-by-element order, a proper prefix first. */
  function Lexicographic(a: seq<int>, b: seq<int>): Ordering {
    if a == [] then (if b == [] then Equal else Less)
    else if b == [] then Greater
    else if a[0] != b[0] then OrderInt(a[0], b[0])
    else Lexicographic(a[1..], b[1..])
  }

  /** A larger leading digit outweighs everything below it. */
  lemma LeadingDecides(x: int, y: int, k: nat, u: nat, v: nat)
    requires x < y && u < Shift(1, k)
    ensures Shift(x, k) + u < Shift(y, k) + v
  {
    ShiftAdds(x, 1, k);
    ShiftMono(x + 1, y, k);
  }

  /** Digit sequences of one width are ordered by the numbers they spell. */
  lemma {:induction false} LexicographicIsNumeric(a: seq<Digit>, b: seq<Digit>)
    requires |a| == |b|
    ensures Lexicographic(a, b) == OrderInt(Nat(a), Nat(b))
  {
    if a == [] {
    } else {
      NatHead(a);
      NatHead(b);
      NatBound(a[1..]);
      NatBound(b[1..]);
      if a[0] < b[0] {
        LeadingDecides(a[0], b[0], |a| - 1, Nat(a[1..]), Nat(b[1..]));
      } else if a[0] > b[0] {
        LeadingDecides(b[0], a[0], |a| - 1, Nat(b[1..]), Nat(a[1..]));
      } else {
        LexicographicIsNumeric(a[1..], b[1..]);
      }
    }
  }

  // --- Zeros at either end ------------------------------------------------------------------------

  function Zeros(n: nat): (z: seq<Digit>)
    ensures |z| == n && forall i | 0 <= i < n :: z[i] == 0
  {
    seq(n, i => 0)
  }

  lemma {:induction false} NatZeros(n: nat)
    ensures Nat(Zeros(n)) == 0
  {
    if n > 0 {
      assert Zeros(n)[..n - 1] == Zeros(n - 1);
      NatZeros(n - 1);
    }
  }

  lemma NatPadded(ds: seq<Digit>, n: nat)
    ensures Nat(ds + Zeros(n)) == Shift(Nat(ds), n)
    ensures Nat(Zeros(n) + ds) == Nat(ds)
  {
    NatConcat(ds, Zeros(n));
    NatConcat(Zeros(n), ds);
    NatZeros(n);
    ShiftMono(0, 0, |ds|);
  }

  function LeadingZeros(ds: seq<Digit>): (n: nat)
    ensures n <= |ds|
    ensures n < |ds| ==> ds[n] != 0
    ensures forall i | 0 <= i < n :: ds[i] == 0
  {
    if ds == [] || ds[0] != 0 then 0 else
      var n := LeadingZeros(ds[1..]);
      assert forall i | 1 <= i < n + 1 :: ds[i] == ds[1..][i - 1];
      n + 1
  }

  function TrailingZeros(ds: seq<Digit>): (n: nat)
    ensures n <= |ds|
    ensures n < |ds| ==> ds[|ds| - 1 - n] != 0
    ensures forall i | |ds| - n <= i < |ds| :: ds[i] == 0
  {
    if ds == [] || ds[|ds| - 1] != 0 then 0 else TrailingZeros(ds[..|ds| - 1]) + 1
  }

  /** Neither end is a zero digit: the digits of a normalized number. */
  predicate Bare(ds: seq<Digit>) {
    ds == [] || (ds[0] != 0 && ds[|ds| - 1] != 0)
  }

  /** How many of the zeros at the end are not also leading ones. */
  function Trailing(ds: seq<Digit>): (n: nat)
    ensures n <= |ds|
  {
    TrailingZeros(ds[LeadingZeros(ds)..])
  }

  /** The digits between the zeros at either end. */
  function Strip(ds: seq<Digit>): (r: seq<Digit>)
    ensures Bare(r)
  {
    var led := ds[LeadingZeros(ds)..];
    led[..|led| - TrailingZeros(led)]
  }

  lemma {:induction false} DropLeading(ds: seq<Digit>)
    ensures Nat(ds[LeadingZeros(ds)..]) == Nat(ds)
  {
    var n := LeadingZeros(ds);
    assert ds == Zeros(n) + ds[n..];
    NatPadded(ds[n..], n);
  }

  lemma {:induction false} DropTrailing(ds: seq<Digit>)
    ensures var t := TrailingZeros(ds);
            Nat(ds) == Shift(Nat(ds[..|ds| - t]), t)
  {
    var t := TrailingZeros(ds);
    assert ds == ds[..|ds| - t] + Zeros(t);
    NatPadded(ds[..|ds| - t], t);
  }

  lemma {:induction false} StripValue(ds: seq<Digit>)
    ensures Nat(ds) == Shift(Nat(Strip(ds)), Trailing(ds))
    ensures Strip(ds) == [] <==> Nat(ds) == 0
  {
    DropLeading(ds);
    DropTrailing(ds[LeadingZeros(ds)..]);
    ShiftMono(0, Nat(Strip(ds)), Trailing(ds));
    if Strip(ds) != [] {
      NatPositive(Strip(ds));
    }
  }

  /** Stripping a canonical spelling of the same number gives the same digits. */
  lemma {:induction false} StripDependsOnValue(a: seq<Digit>, b: seq<Digit>)
    requires Nat(a) == Nat(b)
    ensures Strip(a) == Strip(b) && Trailing(a) == Trailing(b)
  {
    DropLeading(a);
    DropLeading(b);
    NatInjective(a[LeadingZeros(a)..], b[LeadingZeros(b)..]);
  }

  /** The digits of `n`, most significant first; zero has none. */
  function NatDigits(n: nat): (ds: seq<Digit>)
    ensures Nat(ds) == n
    ensures ds != [] ==> ds[0] != 0
    ensures ds == [] <==> n == 0
  {
    if n == 0 then [] else
      var rest := NatDigits(n / 10);
      var ds := rest + [n % 10];
      assert ds[..|ds| - 1] == rest;
      ds
  }

  lemma NatPositive(ds: seq<Digit>)
    requires ds != [] && ds[0] != 0
    ensures Nat(ds) > 0
  {
    NatAtLeast(ds);
    ShiftMono(0, 1, |ds| - 1);
  }

  /** Digits without a leading zero are determined by the number they spell. */
  lemma {:induction false} NatInjective(a: seq<Digit>, b: seq<Digit>)
    requires a != [] ==> a[0] != 0
    requires b != [] ==> b[0] != 0
    requires Nat(a) == Nat(b)
    ensures a == b
  {
    if a != [] {
      NatPositive(a);
    }
    if b != [] {
      NatPositive(b);
    }
    if a != [] && b != [] {
      var m, n := |a| - 1, |b| - 1;
      LastDigit(Nat(a[..m]), a[m], Nat(b[..n]), b[n]);
      NatInjective(a[..m], b[..n]);
      assert a == a[..m] + [a[m]] && b == b[..n] + [b[n]];
    }
  }

  lemma LastDigit(x: nat, c: Digit, y: nat, d: Digit)
    requires 10 * x + c == 10 * y + d
    ensures x == y && c == d
  {
  }

  /** Stripped digits with a place for the lowest one are determined by the value they spell. */
  lemma {:induction false} BareInjective(a: seq<Digit>, i: int, b: seq<Digit>, j: int)
    requires Bare(a) && Bare(b) && a != [] && b != []
    requires Scale(Nat(a) as real, i) == Scale(Nat(b) as real, j)
    ensures a == b && i == j
    decreases i < j
  {
    if i < j {
      BareInjective(b, j, a, i);
    } else {
      var k := i - j;
      ScaleOfShift(Nat(a), k, j);
      ScaledOrder(Shift(Nat(a), k), Nat(b), j);
      if k > 0 {
        LastDigit(Shift(Nat(a), k - 1), 0, Nat(b[..|b| - 1]), b[|b| - 1]);
        assert false;
      }
      NatInjective(a, b);
    }
  }

  // --- A point before the first digit -------------------------------------------------------------

  /** `0.d1d2… × 10^places`: the value of digits whose first one sits just after the point. */
  function Pointed(ds: seq<Digit>, places: int): real {
    Scale(Nat(ds) as real, places - |ds|)
  }

  lemma {:induction false} PointedBounds(ds: seq<Digit>, places: int)
    requires ds != [] && ds[0] != 0
    ensures Scale(1.0, places - 1) <= Pointed(ds, places) < Scale(1.0, places)
  {
    NatAtLeast(ds);
    NatBound(ds);
    var n, e := Nat(ds), places - |ds|;
    ScaleOfShift(1, |ds| - 1, e);
    ScaleOfShift(1, |ds|, e);
    ScaleMono(Shift(1, |ds| - 1) as real, n as real, e);
    ScaleMono(n as real, Shift(1, |ds|) as real, e);
  }

  lemma {:induction false} PointedPadded(ds: seq<Digit>, places: int, n: nat)
    ensures Pointed(ds + Zeros(n), places) == Pointed(ds, places)
  {
    NatPadded(ds, n);
    ScaleOfShift(Nat(ds), n, places - |ds| - n);
  }

  function PadTo(ds: seq<Digit>, width: nat): (r: seq<Digit>)
    requires |ds| <= width
    ensures |r| == width
  {
    ds + Zeros(width - |ds|)
  }

  /** The place of the first digit first, then the digits padded to one width. */
  function PointedOrder(a: seq<Digit>, p: int, b: seq<Digit>, q: int): Ordering {
    if p != q then OrderInt(p, q) else
      var width := if |a| < |b| then |b| else |a|;
      Lexicographic(PadTo(a, width), PadTo(b, width))
  }

  /** Ordering by place and padded digits is ordering by value; nothing is ever scaled. */
  lemma {:induction false} PointedOrderIsNumeric(a: seq<Digit>, p: int, b: seq<Digit>, q: int)
    requires a != [] && a[0] != 0 && b != [] && b[0] != 0
    ensures PointedOrder(a, p, b, q) == OrderReal(Pointed(a, p), Pointed(b, q))
  {
    PointedBounds(a, p);
    PointedBounds(b, q);
    if p < q {
      ScaleGrows(p, q - 1);
    } else if q < p {
      ScaleGrows(q, p - 1);
    } else {
      var width := if |a| < |b| then |b| else |a|;
      PointedPadded(a, p, width - |a|);
      PointedPadded(b, q, width - |b|);
      LexicographicIsNumeric(PadTo(a, width), PadTo(b, width));
      ScaledOrder(Nat(PadTo(a, width)), Nat(PadTo(b, width)), p - width);
    }
  }
}
