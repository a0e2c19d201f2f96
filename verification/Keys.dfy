/** Text keys in order: how every sorted map is walked. */
module Keys {
  import opened Prelude

  /** Scalar value by scalar value, a proper prefix first. */
  function KeyOrder(a: string, b: string): Ordering {
    if a == [] then (if b == [] then Equal else Less)
    else if b == [] then Greater
    else if a[0] != b[0] then (if a[0] < b[0] then Less else Greater)
    else KeyOrder(a[1..], b[1..])
  }

  predicate AtMost(a: string, b: string) {
    KeyOrder(a, b) != Greater
  }

  lemma {:induction false} OrderMirrors(a: string, b: string)
    ensures KeyOrder(b, a) == KeyOrder(a, b).Reverse()
    ensures KeyOrder(a, b) == Equal <==> a == b
  {
    if a != [] && b != [] && a[0] == b[0] {
      OrderMirrors(a[1..], b[1..]);
      assert a == [a[0]] + a[1..] && b == [b[0]] + b[1..];
    }
  }

  lemma {:induction false} OrderTransitive(a: string, b: string, c: string)
    requires AtMost(a, b) && AtMost(b, c)
    ensures AtMost(a, c)
  {
    if a != [] && b != [] && c != [] && a[0] == b[0] == c[0] {
      OrderTransitive(a[1..], b[1..], c[1..]);
    }
  }

  predicate IsLeast(k: string, keys: set<string>) {
    k in keys && forall j | j in keys :: AtMost(k, j)
  }

  lemma LeastExists(keys: set<string>)
    requires keys != {}
    ensures exists k :: IsLeast(k, keys)
  {
    var k :| k in keys;
    if keys == {k} {
      OrderMirrors(k, k);
      assert IsLeast(k, keys);
    } else {
      var rest := keys - {k};
      LeastExists(rest);
      var m :| IsLeast(m, rest);
      OrderMirrors(k, m);
      OrderMirrors(k, k);
      var least := if AtMost(k, m) then k else m;
      forall j | j in keys
        ensures AtMost(least, j)
      {
        if j != k && least == k {
          OrderTransitive(k, m, j);
        }
      }
      assert IsLeast(least, keys);
    }
  }

  lemma LeastUnique(a: string, b: string, keys: set<string>)
    requires IsLeast(a, keys) && IsLeast(b, keys)
    ensures a == b
  {
    OrderMirrors(a, b);
  }

  function Least(keys: set<string>): (k: string)
    requires keys != {}
    ensures IsLeast(k, keys)
  {
    LeastExists(keys);
    assert forall a, b | IsLeast(a, keys) && IsLeast(b, keys) :: a == b by {
      forall a, b | IsLeast(a, keys) && IsLeast(b, keys)
        ensures a == b
      {
        LeastUnique(a, b, keys);
      }
    }
    var k :| IsLeast(k, keys);
    k
  }

  /** The keys in order, each once. */
  function SortedKeys(keys: set<string>): (sorted: seq<string>)
    ensures |sorted| == |keys|
    ensures forall k :: k in sorted <==> k in keys
    ensures forall i, j | 0 <= i < j < |sorted| :: sorted[i] != sorted[j]
  {
    if keys == {} then [] else
      var k := Least(keys);
      var rest := SortedKeys(keys - {k});
      [k] + rest
  }

  /** The values of a map in key order. */
  function SortedValues<T>(m: map<string, T>): (values: seq<T>)
    ensures |values| == |m|
    ensures forall v :: v in values ==> exists k :: k in m && m[k] == v
    ensures forall k | k in m :: m[k] in values
  {
    var keys := SortedKeys(m.Keys);
    var values := seq(|keys|, i requires 0 <= i < |keys| => assert keys[i] in m.Keys; m[keys[i]]);
    assert forall k | k in m :: m[k] in values by {
      forall k | k in m
        ensures m[k] in values
      {
        var i :| 0 <= i < |keys| && keys[i] == k;
        assert values[i] == m[k];
      }
    }
    assert forall i | 0 <= i < |keys| :: keys[i] in keys;
    values
  }

  /** Which text comes first: the shorter where one begins the other, else the smaller scalar value where they
      first differ. */
  lemma {:induction false} KeyOrderMeans(a: string, b: string)
    ensures KeyOrder(a, b) == Less <==> ComesFirst(a, b)
    ensures KeyOrder(a, b) == Greater <==> ComesFirst(b, a)
  {
    if a != [] && b != [] {
      FirstDiffers(a, b);
      FirstDiffers(b, a);
      if a[0] == b[0] {
        KeyOrderMeans(a[1..], b[1..]);
      }
    }
  }

  predicate DifferAt(a: string, b: string, i: nat) {
    i < |a| && i < |b| && a[i] < b[i] && a[..i] == b[..i]
  }

  ghost predicate ComesFirst(a: string, b: string) {
    (|a| < |b| && a <= b) || exists i: nat :: DifferAt(a, b, i)
  }

  lemma FirstDiffers(a: string, b: string)
    requires a != [] && b != []
    ensures ComesFirst(a, b) <==> a[0] < b[0] || (a[0] == b[0] && ComesFirst(a[1..], b[1..]))
  {
    if i: nat :| DifferAt(a, b, i) {
      if i > 0 {
        assert a[..i][0] == b[..i][0];
        assert a[..i][1..] == a[1..][..i - 1] && b[..i][1..] == b[1..][..i - 1];
        assert DifferAt(a[1..], b[1..], i - 1);
      }
    }
    if a[0] < b[0] {
      assert DifferAt(a, b, 0);
    }
    if a[0] == b[0] {
      if i: nat :| DifferAt(a[1..], b[1..], i) {
        assert a[..i + 1] == [a[0]] + a[1..][..i] && b[..i + 1] == [b[0]] + b[1..][..i];
        assert DifferAt(a, b, i + 1);
      }
      if a[1..] <= b[1..] {
        assert a == [a[0]] + a[1..] && b == [b[0]] + b[1..];
        assert a <= b;
      }
    }
  }

  predicate Ascending(keys: seq<string>) {
    forall i, j | 0 <= i < j < |keys| :: KeyOrder(keys[i], keys[j]) == Less
  }

  /** Sorted keys ascend. */
  lemma {:induction false} SortedAscend(keys: set<string>)
    ensures Ascending(SortedKeys(keys))
  {
    if keys != {} {
      var k := Least(keys);
      var rest := SortedKeys(keys - {k});
      SortedAscend(keys - {k});
      forall x | x in rest
        ensures KeyOrder(k, x) == Less
      {
        OrderMirrors(k, x);
      }
      AscendingFrom(k, rest);
    }
  }

  lemma AscendingFrom(k: string, rest: seq<string>)
    requires Ascending(rest) && forall x | x in rest :: KeyOrder(k, x) == Less
    ensures Ascending([k] + rest)
  {
    hide KeyOrder;
    var keys := [k] + rest;
    forall i, j | 0 <= i < j < |keys|
      ensures KeyOrder(keys[i], keys[j]) == Less
    {
      assert keys[j] == rest[j - 1];
      if i > 0 {
        assert keys[i] == rest[i - 1];
      }
    }
  }

  lemma ValuesInOrder<T>(m: map<string, T>)
    ensures var keys := SortedKeys(m.Keys);
            SortedValues(m) == seq(|keys|, i requires 0 <= i < |keys| && keys[i] in m => m[keys[i]])
  {
    hide SortedKeys;
    var keys := SortedKeys(m.Keys);
    assert forall i | 0 <= i < |keys| :: keys[i] in keys;
  }
}
