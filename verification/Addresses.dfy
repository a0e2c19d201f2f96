/** The canonical text of an identity is uniquely decodable, so addresses are injective. */
module Addresses {
  import opened Prelude
  import opened Keys
  import opened Digits
  import opened Number
  import opened Sum
  import opened Observed
  import opened Definition
  import opened Reading
  import opened Identity

  /** Equal up to member order and observed numeric value; nothing is the same as `null`. */
  ghost predicate Same(doors: Doors, a: Json, b: Json) {
    match a
    case Null => false
    case Bool(truth) => b == a
    case Num(number) =>
      && b.Num? && OfNumber(doors, number).Some? && OfNumber(doors, b.number).Some?
      && OfNumber(doors, number).value.SameValue(OfNumber(doors, b.number).value)
    case Str(text) => b == a
    case Arr(elements) =>
      && b.Arr? && |elements| == |b.elements|
      && forall i | 0 <= i < |elements| :: Same(doors, elements[i], b.elements[i])
    case Obj(members) =>
      && b.Obj? && members.Keys == b.members.Keys
      && forall k | k in members :: Same(doors, members[k], b.members[k])
  }

  /** What may follow a value inside a composite. */
  predicate Ends(s: string) {
    s != [] ==> s[0] == ',' || s[0] == ']' || s[0] == '}'
  }

  // --- Numbers ------------------------------------------------------------------------------------

  lemma PlainIsPlain(negative: bool, whole: seq<Digit>, fraction: seq<Digit>)
    requires whole != []
    ensures Plain(negative, whole, fraction) != [] && PlainChars(Plain(negative, whole, fraction))
  {
    hide TextOf, DigitsOf;
    var s := Plain(negative, whole, fraction);
    var sign, point := if negative then "-" else "", if fraction == [] then "" else "." + TextOf(fraction);
    assert PlainChars(point);
    assert s == sign + (TextOf(whole) + point);
    forall i | 0 <= i < |s|
      ensures PlainChar(s[i])
    {
      if i >= |sign| {
        assert s[i] == (TextOf(whole) + point)[i - |sign|];
      }
    }
  }

  lemma NumericTextIsPlain(doors: Doors, n: Number)
    requires Prints(doors) && NumericText(doors, n).Some?
    ensures NumericText(doors, n).value != [] && PlainChars(NumericText(doors, n).value)
  {
    hide ExactText, ExactParts, Plain, IsNumber;
    var reading := OfNumber(doors, n).value;
    if reading.Exact? {
      var (whole, fraction) := ExactParts(reading.pair);
      ExactTextIsPlain(reading.pair);
      PlainIsPlain(reading.pair.units < 0, whole, fraction);
    }
  }

  /** A number's text stops where its characters stop. */
  lemma PlainDecodes(m: string, x: string, n: string, y: string)
    requires PlainChars(m) && PlainChars(n) && Ends(x) && Ends(y)
    requires m + x == n + y
    ensures m == n && x == y
    decreases |n| < |m|
  {
    if |n| < |m| {
      PlainDecodes(n, y, m, x);
    } else {
      hide PlainChars, Ends;
      var s := m + x;
      assert forall i | 0 <= i < |m| :: s[i] == m[i] && s[i] == n[i];
      assert s[|m|..] == x && s[|n|..] == y;
      if |m| < |n| {
        assert x[0] == s[|m|] == n[|m|];
        NothingEndsPlain(n, |m|, x);
      }
    }
  }

  lemma NothingEndsPlain(n: string, i: nat, x: string)
    requires PlainChars(n) && i < |n| && x != [] && x[0] == n[i]
    ensures !Ends(x)
  {
    assert PlainChar(n[i]);
  }

  // --- First characters ---------------------------------------------------------------------------

  datatype Shape = NullShape | BoolShape(truth: bool) | NumberShape | TextShape | ListShape | ObjectShape

  function ShapeOf(value: Json): Shape {
    match value
    case Null => NullShape
    case Bool(truth) => BoolShape(truth)
    case Num(_) => NumberShape
    case Str(_) => TextShape
    case Arr(_) => ListShape
    case Obj(_) => ObjectShape
  }

  /** Which shape a canonical text begins. */
  function ShapeAt(c: char): Shape {
    if c == 't' then BoolShape(true)
    else if c == 'f' then BoolShape(false)
    else if PlainChar(c) then NumberShape
    else if c == '\"' then TextShape
    else if c == '[' then ListShape
    else if c == '{' then ObjectShape
    else NullShape
  }

  lemma FirstCharacter(doors: Doors, value: Json)
    requires Prints(doors) && Canonical(doors, value).Ok?
    ensures Canonical(doors, value).value != []
    ensures ShapeAt(Canonical(doors, value).value[0]) == ShapeOf(value) != NullShape
  {
    hide NumericText, ElementsText, MembersText, Escaped, Prints;
    if value.Num? {
      NumericTextIsPlain(doors, value.number);
      assert PlainChar(NumericText(doors, value.number).value[0]);
    }
  }

  lemma SameShape(doors: Doors, a: Json, x: string, b: Json, y: string)
    requires Prints(doors) && Canonical(doors, a).Ok? && Canonical(doors, b).Ok?
    requires Canonical(doors, a).value + x == Canonical(doors, b).value + y
    ensures ShapeOf(a) == ShapeOf(b) != NullShape
  {
    hide Canonical, Prints;
    FirstCharacter(doors, a);
    FirstCharacter(doors, b);
    assert (Canonical(doors, a).value + x)[0] == (Canonical(doors, b).value + y)[0];
  }

  // --- Decoding -----------------------------------------------------------------------------------

  lemma NumbersDecode(doors: Doors, m: Number, x: string, n: Number, y: string)
    requires Prints(doors) && Canonical(doors, Num(m)).Ok? && Canonical(doors, Num(n)).Ok?
    requires Ends(x) && Ends(y)
    requires Canonical(doors, Num(m)).value + x == Canonical(doors, Num(n)).value + y
    ensures Same(doors, Num(m), Num(n)) && x == y
  {
    hide PlainChars, IsNumber, Prints, OfNumber, Ends;
    NumericTextIsPlain(doors, m);
    NumericTextIsPlain(doors, n);
    PlainDecodes(NumericText(doors, m).value, x, NumericText(doors, n).value, y);
    NumericTextInjective(doors, m, n);
  }

  lemma BooleanDecodes(doors: Doors, truth: bool, x: string, y: string)
    requires Canonical(doors, Bool(truth)).value + x == Canonical(doors, Bool(truth)).value + y
    ensures x == y
  {
    var word := if truth then "true" else "false";
    assert (word + x)[|word|..] == x && (word + y)[|word|..] == y;
  }

  lemma TextText(doors: Doors, text: string)
    ensures Canonical(doors, Str(text)) == Ok(Quoted(text))
  {
  }

  lemma ListText(doors: Doors, elements: seq<Json>, x: string)
    requires Canonical(doors, Arr(elements)).Ok?
    ensures ElementsText(doors, elements, true).Ok?
    ensures (Canonical(doors, Arr(elements)).value + x)[1..] == ElementsText(doors, elements, true).value + x
  {
    hide ElementsText;
  }

  lemma ObjectText(doors: Doors, members: Object, x: string)
    requires Canonical(doors, Obj(members)).Ok?
    ensures var keys := SortedKeys(members.Keys);
            && MembersText(doors, Obj(members), keys, true).Ok?
            && (Canonical(doors, Obj(members)).value + x)[1..]
               == MembersText(doors, Obj(members), keys, true).value + x
  {
    hide MembersText, SortedKeys;
  }

  /** A value is read back from its text, and so is whatever follows it, at every depth. */
  lemma {:induction false} Decodes(doors: Doors, a: Json, x: string, b: Json, y: string)
    requires Prints(doors) && Canonical(doors, a).Ok? && Canonical(doors, b).Ok?
    requires Ends(x) && Ends(y)
    requires Canonical(doors, a).value + x == Canonical(doors, b).value + y
    ensures Same(doors, a, b) && x == y
    decreases a, 1
  {
    hide Canonical, ElementsText, MembersText, Prints, Ends, Quoted, CanonicalNumber, OfNumber, SortedKeys;
    SameShape(doors, a, x, b, y);
    match a
    case Null =>
    case Bool(truth) => BooleanDecodes(doors, truth, x, y);
    case Num(number) => NumbersDecode(doors, number, x, b.number, y);
    case Str(text) =>
      TextText(doors, text);
      TextText(doors, b.text);
      QuotedDecodes(text, x, b.text, y);
    case Arr(elements) =>
      ListText(doors, elements, x);
      ListText(doors, b.elements, y);
      ElementsDecode(doors, elements, x, b.elements, y, true);
    case Obj(members) =>
      var j, k := SortedKeys(members.Keys), SortedKeys(b.members.Keys);
      ObjectText(doors, members, x);
      ObjectText(doors, b.members, y);
      MembersDecode(doors, a, j, x, b, k, y, true);
      assert forall n :: (n in members.Keys <==> n in j) && (n in b.members.Keys <==> n in k);
  }

  lemma ElementsEnd(doors: Doors, elements: seq<Json>, x: string)
    requires ElementsText(doors, elements, false).Ok?
    ensures Ends(ElementsText(doors, elements, false).value + x)
  {
    hide Canonical;
  }

  lemma Regroup(p: string, e: string, r: string, x: string)
    ensures (p + e + r + x)[|p|..] == e + (r + x)
  {
    assert p + e + r + x == p + (e + (r + x));
  }

  /** A non-empty list's text: its first element, what separates it, and the rest. */
  lemma ElementsCut(doors: Doors, elements: seq<Json>, first: bool, x: string)
    requires elements != [] && ElementsText(doors, elements, first).Ok?
    ensures Canonical(doors, elements[0]).Ok? && ElementsText(doors, elements[1..], false).Ok?
    ensures (ElementsText(doors, elements, first).value + x)[|Comma(first)|..]
         == Canonical(doors, elements[0]).value + (ElementsText(doors, elements[1..], false).value + x)
  {
    hide Canonical, Comma;
    Regroup(Comma(first), Canonical(doors, elements[0]).value, ElementsText(doors, elements[1..], false).value, x);
  }

  lemma ElementsHead(doors: Doors, elements: seq<Json>, first: bool, x: string)
    requires Prints(doors) && ElementsText(doors, elements, first).Ok?
    ensures var s := ElementsText(doors, elements, first).value + x;
            s != [] && (s[0] == ']' <==> elements == [])
  {
    hide Canonical, Prints, ShapeOf;
    if elements != [] {
      FirstCharacter(doors, elements[0]);
    }
  }

  lemma {:induction false} ElementsDecode(doors: Doors, a: seq<Json>, x: string, b: seq<Json>, y: string,
                                          first: bool)
    requires Prints(doors) && ElementsText(doors, a, first).Ok? && ElementsText(doors, b, first).Ok?
    requires ElementsText(doors, a, first).value + x == ElementsText(doors, b, first).value + y
    ensures |a| == |b| && x == y
    ensures forall i | 0 <= i < |a| :: Same(doors, a[i], b[i])
    decreases a, 0
  {
    hide Canonical, Same, Prints, Ends;
    ElementsHead(doors, a, first, x);
    ElementsHead(doors, b, first, y);
    if a == [] {
      assert ("]" + x)[1..] == x && ("]" + y)[1..] == y;
    } else {
      hide ElementsText;
      ElementsCut(doors, a, first, x);
      ElementsCut(doors, b, first, y);
      ElementsEnd(doors, a[1..], x);
      ElementsEnd(doors, b[1..], y);
      Decodes(doors, a[0], ElementsText(doors, a[1..], false).value + x,
              b[0], ElementsText(doors, b[1..], false).value + y);
      ElementsDecode(doors, a[1..], x, b[1..], y, false);
      assert forall i | 1 <= i < |a| :: a[i] == a[1..][i - 1] && b[i] == b[1..][i - 1];
    }
  }

  lemma MembersEnd(doors: Doors, value: Json, keys: seq<string>, x: string)
    requires value.Obj? && (forall k | k in keys :: k in value.members)
    requires MembersText(doors, value, keys, false).Ok?
    ensures Ends(MembersText(doors, value, keys, false).value + x)
  {
    hide Canonical;
  }

  lemma MembersHead(doors: Doors, value: Json, keys: seq<string>, first: bool, x: string)
    requires value.Obj? && (forall k | k in keys :: k in value.members)
    requires MembersText(doors, value, keys, first).Ok?
    ensures var s := MembersText(doors, value, keys, first).value + x;
            s != [] && (s[0] == '}' <==> keys == [])
  {
    hide Canonical, Escaped;
  }

  lemma MembersCut(doors: Doors, value: Json, keys: seq<string>, first: bool, x: string)
    requires value.Obj? && keys != [] && (forall k | k in keys :: k in value.members)
    requires MembersText(doors, value, keys, first).Ok?
    ensures Canonical(doors, value.members[keys[0]]).Ok? && MembersText(doors, value, keys[1..], false).Ok?
    ensures (MembersText(doors, value, keys, first).value + x)[|Comma(first)|..]
         == Quoted(keys[0]) + (":" + (Canonical(doors, value.members[keys[0]]).value
                                      + (MembersText(doors, value, keys[1..], false).value + x)))
  {
    hide Canonical, Quoted, Comma;
    var q, m := Quoted(keys[0]), Canonical(doors, value.members[keys[0]]).value;
    var r := MembersText(doors, value, keys[1..], false).value;
    assert Comma(first) + q + ":" + m + r + x == Comma(first) + (q + ":" + m) + r + x;
    Regroup(Comma(first), q + ":" + m, r, x);
    assert q + ":" + m + (r + x) == q + (":" + (m + (r + x)));
  }

  lemma AfterColon(s: string, t: string)
    requires ":" + s == ":" + t
    ensures s == t
  {
    assert (":" + s)[1..] == s && (":" + t)[1..] == t;
  }

  lemma {:induction false} MembersDecode(doors: Doors, a: Json, j: seq<string>, x: string,
                                         b: Json, k: seq<string>, y: string, first: bool)
    requires Prints(doors) && a.Obj? && b.Obj?
    requires (forall n | n in j :: n in a.members) && (forall n | n in k :: n in b.members)
    requires MembersText(doors, a, j, first).Ok? && MembersText(doors, b, k, first).Ok?
    requires MembersText(doors, a, j, first).value + x == MembersText(doors, b, k, first).value + y
    ensures j == k && x == y
    ensures forall n | n in j :: Same(doors, a.members[n], b.members[n])
    decreases a, 0, |j|
  {
    hide Canonical, Same, Prints, Ends, Quoted;
    MembersHead(doors, a, j, first, x);
    MembersHead(doors, b, k, first, y);
    if j == [] {
      assert ("}" + x)[1..] == x && ("}" + y)[1..] == y;
    } else {
      hide MembersText;
      MembersCut(doors, a, j, first, x);
      MembersCut(doors, b, k, first, y);
      MembersEnd(doors, a, j[1..], x);
      MembersEnd(doors, b, k[1..], y);
      var r := MembersText(doors, a, j[1..], false).value + x;
      var s := MembersText(doors, b, k[1..], false).value + y;
      var m, n := a.members[j[0]], b.members[k[0]];
      QuotedDecodes(j[0], ":" + (Canonical(doors, m).value + r), k[0], ":" + (Canonical(doors, n).value + s));
      AfterColon(Canonical(doors, m).value + r, Canonical(doors, n).value + s);
      Decodes(doors, m, r, n, s);
      MembersDecode(doors, a, j[1..], x, b, k[1..], y, false);
      assert j == [j[0]] + j[1..] && k == [k[0]] + k[1..];
    }
  }

  // --- Encoding -----------------------------------------------------------------------------------

  /** What is the same is written the same. */
  lemma {:induction false} SameWritesSame(doors: Doors, a: Json, b: Json)
    requires Prints(doors) && Same(doors, a, b)
    ensures Canonical(doors, a).Ok? && Canonical(doors, a) == Canonical(doors, b)
    decreases a, 1
  {
    hide ElementsText, MembersText, Quoted, NumericText, Prints;
    match a
    case Num(number) =>
      NumericTextInjective(doors, number, b.number);
      SameNumberWrites(doors, number, b.number);
    case Arr(elements) => ElementsWriteSame(doors, elements, b.elements, true);
    case Obj(members) => MembersWriteSame(doors, a, b, SortedKeys(members.Keys), true);
    case _ =>
  }

  lemma SameNumberWrites(doors: Doors, m: Number, n: Number)
    requires OfNumber(doors, m).Some? && NumericText(doors, m) == NumericText(doors, n)
    ensures CanonicalNumber(doors, m).Ok? && CanonicalNumber(doors, m) == CanonicalNumber(doors, n)
  {
    hide OfNumber, IsNumber;
  }

  lemma {:induction false} ElementsWriteSame(doors: Doors, a: seq<Json>, b: seq<Json>, first: bool)
    requires Prints(doors) && |a| == |b| && forall i | 0 <= i < |a| :: Same(doors, a[i], b[i])
    ensures ElementsText(doors, a, first).Ok? && ElementsText(doors, a, first) == ElementsText(doors, b, first)
    decreases a, 0
  {
    hide Canonical, Same, Prints;
    if a != [] {
      SameWritesSame(doors, a[0], b[0]);
      assert forall i | 0 <= i < |a[1..]| :: a[1..][i] == a[i + 1] && b[1..][i] == b[i + 1];
      ElementsWriteSame(doors, a[1..], b[1..], false);
    }
  }

  lemma {:induction false} MembersWriteSame(doors: Doors, a: Json, b: Json, keys: seq<string>, first: bool)
    requires Prints(doors) && a.Obj? && b.Obj?
    requires forall k | k in keys :: k in a.members && k in b.members && Same(doors, a.members[k], b.members[k])
    ensures MembersText(doors, a, keys, first).Ok?
    ensures MembersText(doors, a, keys, first) == MembersText(doors, b, keys, first)
    decreases a, 0, |keys|
  {
    hide Canonical, Same, Quoted, Prints;
    if keys != [] {
      SameWritesSame(doors, a.members[keys[0]], b.members[keys[0]]);
      MembersWriteSame(doors, a, b, keys[1..], false);
    }
  }

  // --- Addresses ----------------------------------------------------------------------------------

  lemma CanonicalInjective(doors: Doors, a: Json, b: Json)
    requires Prints(doors) && Canonical(doors, a).Ok? && Canonical(doors, b).Ok?
    ensures Canonical(doors, a) == Canonical(doors, b) <==> Same(doors, a, b)
  {
    hide Canonical, Same, Prints;
    if Same(doors, a, b) {
      SameWritesSame(doors, a, b);
    }
    if Canonical(doors, a) == Canonical(doors, b) {
      Decodes(doors, a, "", b, "");
    }
  }

  /** Which shape an address tells. */
  lemma AddressShape(doors: Doors, kind: Kind, value: Json)
    requires Prints(doors) && Address(doors, kind, value).Ok?
    ensures if value.Str? then Address(doors, kind, value).value == "s:" + value.text
            else Address(doors, kind, value) == Canonical(doors, value)
  {
    hide ElementsText, MembersText, NumericText;
  }

  /** Two values of any addressable kinds have one address exactly when they are the same value:
      member order and numeric spelling aside, at every depth. */
  lemma AddressInjective(doors: Doors, j: Kind, a: Json, k: Kind, b: Json)
    requires Prints(doors) && Address(doors, j, a).Ok? && Address(doors, k, b).Ok?
    ensures Address(doors, j, a) == Address(doors, k, b) <==> Same(doors, a, b)
  {
    hide Address, Canonical, Prints;
    AddressShape(doors, j, a);
    AddressShape(doors, k, b);
    if a.Str? && b.Str? {
      assert ("s:" + a.text)[2..] == a.text && ("s:" + b.text)[2..] == b.text;
    } else if !a.Str? && !b.Str? {
      CanonicalInjective(doors, a, b);
    } else {
      FirstCharacter(doors, if a.Str? then b else a);
    }
  }

  /** No address is blank. */
  lemma AddressNotBlank(doors: Doors, kind: Kind, value: Json)
    requires Prints(doors) && Address(doors, kind, value).Ok?
    ensures !Blank(Address(doors, kind, value).value)
  {
    hide Address, Canonical, Prints;
    AddressShape(doors, kind, value);
    if !value.Str? {
      FirstCharacter(doors, value);
    }
    assert !IsSpace(Address(doors, kind, value).value[0]);
  }
}
