/** What the operators promise: which questions mirror each other, when a scale answers, and an equality that
    is an equivalence at every depth. */
module Operators {
  import opened Prelude
  import opened Digits
  import opened Truth
  import opened Definition
  import opened Reading
  import opened Evaluator
  import opened Keys
  import Number
  import Observed
  import Timestamp

  function Answer(doors: Doors, definition: Definition, op: PairOp, left: Json, right: Json): Truth {
    AnswerPair(doors, definition, op, left, left, right, right).0
  }

  /** Ordering operators mirror each other, whatever the operands are. */
  lemma OrderingMirrors(doors: Doors, definition: Definition, left: Json, right: Json)
    ensures Answer(doors, definition, Gt, left, right) == Answer(doors, definition, Lt, right, left)
    ensures Answer(doors, definition, Gte, left, right) == Answer(doors, definition, Lte, right, left)
    ensures Answer(doors, definition, After, left, right) == Answer(doors, definition, Before, right, left)
  {
    hide Number.Value, Number.IsNumber, InstantOf, Timestamp.Order;
    if InstantOf(left).Some? && InstantOf(right).Some? {
      InstantsMirror(InstantOf(left).value, InstantOf(right).value);
    }
  }

  lemma InstantsMirror(a: Timestamp.Timestamp, b: Timestamp.Timestamp)
    ensures Timestamp.Order(b, a) == Timestamp.Order(a, b).Reverse()
  {
    FieldsMirror(a.Fields(), b.Fields());
  }

  lemma {:induction false} FieldsMirror(a: seq<int>, b: seq<int>)
    ensures Lexicographic(b, a) == Lexicographic(a, b).Reverse()
  {
    if a != [] && b != [] && a[0] == b[0] {
      FieldsMirror(a[1..], b[1..]);
    }
  }

  // --- Equality -----------------------------------------------------------------------------------

  lemma {:induction false} EqualReflexive(a: Json)
    ensures ValuesEqual(a, a)
  {
    hide Number.Value, Number.IsNumber;
    match a
    case Arr(elements) =>
      forall i | 0 <= i < |elements|
        ensures ValuesEqual(elements[i], elements[i])
      {
        EqualReflexive(elements[i]);
      }
    case Obj(members) =>
      forall k | k in members
        ensures ValuesEqual(members[k], members[k])
      {
        EqualReflexive(members[k]);
      }
    case _ =>
  }

  lemma {:induction false} EqualSymmetric(a: Json, b: Json)
    requires ValuesEqual(a, b)
    ensures ValuesEqual(b, a)
  {
    hide Number.Value, Number.IsNumber;
    match a
    case Arr(elements) =>
      forall i | 0 <= i < |elements|
        ensures ValuesEqual(b.elements[i], elements[i])
      {
        EqualSymmetric(elements[i], b.elements[i]);
      }
    case Obj(members) =>
      forall k | k in members
        ensures ValuesEqual(b.members[k], members[k])
      {
        EqualSymmetric(members[k], b.members[k]);
      }
    case _ =>
  }

  /** Equality is an equivalence: spelled differently at any depth, the same values stay the same. */
  lemma {:induction false} EqualTransitive(a: Json, b: Json, c: Json)
    requires ValuesEqual(a, b) && ValuesEqual(b, c)
    ensures ValuesEqual(a, c)
  {
    hide Number.Value, Number.IsNumber;
    match a
    case Arr(elements) =>
      forall i | 0 <= i < |elements|
        ensures ValuesEqual(elements[i], c.elements[i])
      {
        EqualTransitive(elements[i], b.elements[i], c.elements[i]);
      }
    case Obj(members) =>
      forall k | k in members
        ensures ValuesEqual(members[k], c.members[k])
      {
        EqualTransitive(members[k], b.members[k], c.members[k]);
      }
    case _ =>
  }

  // --- compare ------------------------------------------------------------------------------------

  /** The operator that asks the same of the operands the other way round. */
  function Mirrored(op: CompareOp): CompareOp {
    match op
    case CompareLt => CompareGt
    case CompareLte => CompareGte
    case CompareGt => CompareLt
    case CompareGte => CompareLte
    case _ => op
  }

  /** The operator that holds exactly where this one does not. */
  function Opposite(op: CompareOp): CompareOp {
    match op
    case CompareEq => CompareNe
    case CompareNe => CompareEq
    case CompareLt => CompareGte
    case CompareLte => CompareGt
    case CompareGt => CompareLte
    case CompareGte => CompareLt
  }

  lemma AcceptsMirrored(op: CompareOp, order: Ordering)
    ensures op.Accepts(order) == Mirrored(op).Accepts(order.Reverse())
    ensures op.Accepts(order) == !Opposite(op).Accepts(order)
    ensures op.IsOrdering() == Mirrored(op).IsOrdering() == Opposite(op).IsOrdering()
  {
  }

  lemma ReadingsMirror(a: Reading, b: Reading)
    ensures b.CompareTo(a) == a.CompareTo(b).Reverse()
  {
    hide Observed.ExactCompare, Observed.Pair.Value;
    if a.Exact? && b.Exact? {
      Observed.ExactCompareIsNumeric(a.pair, b.pair);
      Observed.ExactCompareIsNumeric(b.pair, a.pair);
    }
  }

  /** A scale order is answered exactly when some scale holds both texts and every one that does puts
      them in that order. */
  lemma ScalesAgree(scales: map<string, seq<string>>, left: string, right: string, order: Ordering)
    ensures ScaleOrder(scales, left, right) == Some(order)
       <==> && (exists n | n in scales :: left in scales[n] && right in scales[n])
            && forall n | n in scales && left in scales[n] && right in scales[n] ::
                 OrderInt(Position(scales[n], left), Position(scales[n], right)) == order
  {
    hide Position, OrderInt;
    var answers := set n | n in scales && left in scales[n] && right in scales[n]
                         :: OrderInt(Position(scales[n], left), Position(scales[n], right));
    if answers == {order} {
      assert order in answers;
      forall n | n in scales && left in scales[n] && right in scales[n]
        ensures OrderInt(Position(scales[n], left), Position(scales[n], right)) == order
      {
        assert OrderInt(Position(scales[n], left), Position(scales[n], right)) in answers;
      }
    }
    SingleAnswer(scales, left, right, order);
  }

  lemma SingleAnswer(scales: map<string, seq<string>>, left: string, right: string, order: Ordering)
    ensures var answers := set n | n in scales && left in scales[n] && right in scales[n]
                                 :: OrderInt(Position(scales[n], left), Position(scales[n], right));
            ScaleOrder(scales, left, right) == Some(order) <==> answers == {order}
  {
    hide Position, OrderInt;
    var answers := set n | n in scales && left in scales[n] && right in scales[n]
                         :: OrderInt(Position(scales[n], left), Position(scales[n], right));
    assert Less in {Less} && Equal in {Equal} && Greater in {Greater};
    assert {Less} != {Equal} && {Less} != {Greater} && {Equal} != {Greater} by {
      assert Less !in {Equal} && Less !in {Greater} && Equal !in {Greater};
    }
  }

  lemma ScalesMirror(scales: map<string, seq<string>>, left: string, right: string)
    ensures match ScaleOrder(scales, left, right)
            case Some(order) => ScaleOrder(scales, right, left) == Some(order.Reverse())
            case None => ScaleOrder(scales, right, left) == None
  {
    hide ScaleOrder, Position;
    if ScaleOrder(scales, left, right).Some? {
      ScalesAgree(scales, left, right, ScaleOrder(scales, left, right).value);
      ScalesAgree(scales, right, left, ScaleOrder(scales, left, right).value.Reverse());
    } else if ScaleOrder(scales, right, left).Some? {
      ScalesAgree(scales, right, left, ScaleOrder(scales, right, left).value);
      ScalesAgree(scales, left, right, ScaleOrder(scales, right, left).value.Reverse());
    }
  }

  /** `compare` asked the other way round with the mirrored operator is the same question, and asked
      with the opposite operator the negated one: unknown stays unknown both ways. */
  lemma CompareIsCoherent(doors: Doors, definition: Definition, op: CompareOp, left: Json, l: Json,
                          right: Json, r: Json)
    ensures CompareScalars(doors, definition, op, left, l, right, r)
         == CompareScalars(doors, definition, Mirrored(op), right, r, left, l)
    ensures CompareScalars(doors, definition, op, left, l, right, r)
         == CompareScalars(doors, definition, Opposite(op), left, l, right, r).Not()
  {
    hide Observe, ScaleOrder, KeyOrder, Number.IsNumber;
    if left.Num? && right.Num? {
      var a, b := Observe(doors, left.number, Some(l)), Observe(doors, right.number, Some(r));
      if a.Some? && b.Some? {
        ReadingsMirror(a.value, b.value);
        AcceptsMirrored(op, a.value.CompareTo(b.value));
      }
    } else if left.Str? && right.Str? {
      ScalesMirror(definition.scales, left.text, right.text);
      OrderMirrors(left.text, right.text);
      AcceptsMirrored(op, KeyOrder(left.text, right.text));
      if ScaleOrder(definition.scales, left.text, right.text).Some? {
        AcceptsMirrored(op, ScaleOrder(definition.scales, left.text, right.text).value);
      }
    } else {
      hide Reading.CompareTo;
      OtherScalars(doors, definition, op, left, l, right, r);
    }
  }

  lemma OtherScalars(doors: Doors, definition: Definition, op: CompareOp, left: Json, l: Json, right: Json, r: Json)
    requires !(left.Num? && right.Num?) && !(left.Str? && right.Str?)
    ensures CompareScalars(doors, definition, op, left, l, right, r)
         == CompareScalars(doors, definition, Mirrored(op), right, r, left, l)
    ensures CompareScalars(doors, definition, op, left, l, right, r)
         == CompareScalars(doors, definition, Opposite(op), left, l, right, r).Not()
  {
    hide Observe, ScaleOrder, KeyOrder, Number.IsNumber, Reading.CompareTo;
  }
}
