/** What the operators mean, in terms of values, instants, elements and texts. */
module Meanings {
  import opened Prelude
  import opened Truth
  import opened Definition
  import opened Reading
  import opened Positions
  import opened Evaluator
  import opened Keys
  import Number
  import Observed
  import Operators
  import Timestamp

  // --- Equality of the kernel ---------------------------------------------------------------------

  /** A value with every number replaced by the quantity it is worth. */
  datatype Sense =
    | Nothing
    | Flag(truth: bool)
    | Quantity(amount: real)
    | Words(text: string)
    | Series(elements: seq<Sense>)
    | Mapping(members: map<string, Sense>)

  function SenseOf(value: Json): Sense {
    match value
    case Null => Nothing
    case Bool(truth) => Flag(truth)
    case Num(number) => Quantity(Number.Value(number))
    case Str(text) => Words(text)
    case Arr(elements) => Series(seq(|elements|, i requires 0 <= i < |elements| => SenseOf(elements[i])))
    case Obj(members) => Mapping(map k | k in members :: SenseOf(members[k]))
  }

  /** Two values are equal exactly when they are one once numbers are what they are worth, at any depth. */
  lemma {:induction false} EqualMeans(a: Json, b: Json)
    ensures ValuesEqual(a, b) <==> SenseOf(a) == SenseOf(b)
    decreases a, 1
  {
    hide Number.Value, Number.IsNumber;
    if a.Arr? && b.Arr? {
      EqualElements(a.elements, b.elements);
    } else if a.Obj? && b.Obj? {
      EqualMembers(a.members, b.members);
    }
  }

  lemma {:induction false} EqualElements(a: seq<Json>, b: seq<Json>)
    ensures ValuesEqual(Arr(a), Arr(b)) <==> SenseOf(Arr(a)) == SenseOf(Arr(b))
    decreases Arr(a), 0
  {
    hide Number.Value, Number.IsNumber;
    var x, y := SenseOf(Arr(a)).elements, SenseOf(Arr(b)).elements;
    if |a| == |b| {
      forall i | 0 <= i < |a|
        ensures ValuesEqual(a[i], b[i]) <==> x[i] == y[i]
      {
        EqualMeans(a[i], b[i]);
      }
    }
  }

  lemma {:induction false} EqualMembers(a: map<string, Json>, b: map<string, Json>)
    ensures ValuesEqual(Obj(a), Obj(b)) <==> SenseOf(Obj(a)) == SenseOf(Obj(b))
    decreases Obj(a), 0
  {
    hide Number.Value, Number.IsNumber;
    var x, y := SenseOf(Obj(a)).members, SenseOf(Obj(b)).members;
    assert x.Keys == a.Keys && y.Keys == b.Keys;
    if a.Keys == b.Keys {
      forall k | k in a
        ensures ValuesEqual(a[k], b[k]) <==> x[k] == y[k]
      {
        EqualMeans(a[k], b[k]);
      }
    }
  }

  // --- Equality under the service rules -----------------------------------------------------------

  /** Two readings are one value: by their exact pairs, or by their binary64 where one has no pair. */
  predicate OneReading(a: Reading, b: Reading) {
    if a.Exact? && b.Exact? then a.pair.Value() == b.pair.Value() else a.rank == b.rank
  }

  /** The reading of a number: as a literal where the definition wrote one there, else from the wire. */
  function ReadAs(doors: Doors, n: Number.Number, written: Option<Json>): Option<Reading> {
    match written
    case Some(Num(literal)) => OfLiteral(doors, literal)
    case _ => OfNumber(doors, n)
  }

  /** Two nodes tally: one reading, one length, one set of keys, or simply one value. */
  predicate Tally(doors: Doors, left: Option<Json>, l: Option<Json>, right: Option<Json>, r: Option<Json>) {
    match (left, right)
    case (Some(Num(m)), Some(Num(n))) =>
      var a, b := ReadAs(doors, m, l), ReadAs(doors, n, r);
      if a.Some? && b.Some? then OneReading(a.value, b.value) else m == n
    case (Some(Arr(xs)), Some(Arr(ys))) => |xs| == |ys|
    case (Some(Obj(x)), Some(Obj(y))) => x.Keys == y.Keys
    case (_, _) => left == right
  }

  function WrittenAt(written: Option<Json>, position: Place): Option<Json> {
    match written
    case Some(value) => At(value, position)
    case None => None
  }

  predicate TallyAt(doors: Doors, left: Json, l: Option<Json>, right: Json, r: Option<Json>, position: Place) {
    Tally(doors, At(left, position), WrittenAt(l, position), At(right, position), WrittenAt(r, position))
  }

  lemma TallyHere(doors: Doors, left: Json, l: Option<Json>, right: Json, r: Option<Json>)
    ensures TallyAt(doors, left, l, right, r, [])
       <==> if left.Num? && right.Num? then ObservedEqual(doors, left, l, right, r)
            else if left.Arr? && right.Arr? then |left.elements| == |right.elements|
            else if left.Obj? && right.Obj? then left.members.Keys == right.members.Keys
            else left == right
  {
    hide OfNumber, OfLiteral, Number.IsNumber, Observed.ExactCompare, Observed.Pair.Value;
    if left.Num? && right.Num? {
      var a, b := Observe(doors, left.number, l), Observe(doors, right.number, r);
      if a.Some? && b.Some? && a.value.Exact? && b.value.Exact? {
        Observed.ExactCompareIsNumeric(a.value.pair, b.value.pair);
      }
    }
  }

  lemma TallyBelow(doors: Doors, left: Json, l: Option<Json>, right: Json, r: Option<Json>, step: Step, rest: Place)
    requires Below(left, step).Some? && Below(right, step).Some?
    ensures TallyAt(doors, left, l, right, r, [step] + rest)
       <==> TallyAt(doors, Below(left, step).value, if l.Some? then Below(l.value, step) else None,
                    Below(right, step).value, if r.Some? then Below(r.value, step) else None, rest)
  {
    hide Tally;
    AtBelow(left, step, rest);
    AtBelow(right, step, rest);
    if l.Some? {
      AtBelow(l.value, step, rest);
    }
    if r.Some? {
      AtBelow(r.value, step, rest);
    }
  }

  lemma {:induction false} EqualTallies(doors: Doors, left: Json, l: Option<Json>, right: Json, r: Option<Json>,
                                        position: Place)
    requires ObservedEqual(doors, left, l, right, r)
    ensures TallyAt(doors, left, l, right, r, position)
    decreases |position|
  {
    hide TallyAt, Observe, Number.IsNumber;
    TallyHere(doors, left, l, right, r);
    if position != [] {
      var step, rest := position[0], position[1..];
      assert position == [step] + rest;
      if Below(left, step).Some? && Below(right, step).Some? {
        TallyBelow(doors, left, l, right, r, step, rest);
        EqualTallies(doors, Below(left, step).value, if l.Some? then Below(l.value, step) else None,
                     Below(right, step).value, if r.Some? then Below(r.value, step) else None, rest);
      } else {
        NowhereTallies(doors, left, l, right, r, step, rest);
      }
    }
  }

  /** Where neither side has the step, both are nothing there. */
  lemma NowhereTallies(doors: Doors, left: Json, l: Option<Json>, right: Json, r: Option<Json>, step: Step,
                       rest: Place)
    requires ObservedEqual(doors, left, l, right, r)
    requires Below(left, step).None? || Below(right, step).None?
    ensures TallyAt(doors, left, l, right, r, [step] + rest)
  {
    hide Observe, Number.IsNumber;
    AtBelow(left, step, rest);
    AtBelow(right, step, rest);
  }

  lemma {:induction false} TalliesEqual(doors: Doors, left: Json, l: Option<Json>, right: Json, r: Option<Json>)
    requires forall position :: TallyAt(doors, left, l, right, r, position)
    ensures ObservedEqual(doors, left, l, right, r)
    decreases left
  {
    hide TallyAt, Observe, Number.IsNumber;
    TallyHere(doors, left, l, right, r);
    if left.Arr? && right.Arr? {
      forall i | 0 <= i < |left.elements|
        ensures ObservedEqual(doors, left.elements[i], WrittenElement(l, i), right.elements[i], WrittenElement(r, i))
      {
        forall rest
          ensures TallyAt(doors, left.elements[i], WrittenElement(l, i), right.elements[i], WrittenElement(r, i), rest)
        {
          TallyBelow(doors, left, l, right, r, Element(i), rest);
        }
        TalliesEqual(doors, left.elements[i], WrittenElement(l, i), right.elements[i], WrittenElement(r, i));
      }
    } else if left.Obj? && right.Obj? {
      forall k | k in left.members
        ensures ObservedEqual(doors, left.members[k], WrittenMember(l, k), right.members[k], WrittenMember(r, k))
      {
        forall rest
          ensures TallyAt(doors, left.members[k], WrittenMember(l, k), right.members[k], WrittenMember(r, k), rest)
        {
          TallyBelow(doors, left, l, right, r, Member(k), rest);
        }
        TalliesEqual(doors, left.members[k], WrittenMember(l, k), right.members[k], WrittenMember(r, k));
      }
    }
  }

  /** Under the service rules two values are equal exactly when they tally at every position. */
  lemma ObservedMeans(doors: Doors, left: Json, l: Option<Json>, right: Json, r: Option<Json>)
    ensures ObservedEqual(doors, left, l, right, r) <==> forall position :: TallyAt(doors, left, l, right, r, position)
  {
    hide ObservedEqual, TallyAt;
    if ObservedEqual(doors, left, l, right, r) {
      forall position
        ensures TallyAt(doors, left, l, right, r, position)
      {
        EqualTallies(doors, left, l, right, r, position);
      }
    }
    if forall position :: TallyAt(doors, left, l, right, r, position) {
      TalliesEqual(doors, left, l, right, r);
    }
  }

  /** Equality under the rules of the definition. */
  ghost predicate Same(doors: Doors, definition: Definition, left: Json, l: Option<Json>, right: Json, r: Option<Json>) {
    if definition.semantics.Service() then forall position :: TallyAt(doors, left, l, right, r, position)
    else SenseOf(left) == SenseOf(right)
  }

  lemma SameMeans(doors: Doors, definition: Definition, left: Json, l: Option<Json>, right: Json, r: Option<Json>)
    ensures EqualUnder(doors, definition, left, l, right, r) <==> Same(doors, definition, left, l, right, r)
  {
    hide ObservedEqual, ValuesEqual, TallyAt, SenseOf;
    ObservedMeans(doors, left, l, right, r);
    EqualMeans(left, right);
  }

  // --- The operators ------------------------------------------------------------------------------

  function InstantIn(value: Json): Option<Timestamp.Timestamp> {
    match value
    case Str(text) => Timestamp.Parse(text)
    case _ => None
  }

  /** An earlier day, or on one day an earlier minute, or in one minute an earlier second, or in one second
      fewer nanoseconds. */
  predicate Earlier(a: Timestamp.Timestamp, b: Timestamp.Timestamp) {
    || Timestamp.DayNumber(a) < Timestamp.DayNumber(b)
    || (Timestamp.DayNumber(a) == Timestamp.DayNumber(b)
        && (|| Timestamp.MinuteOfDay(a) < Timestamp.MinuteOfDay(b)
            || (Timestamp.MinuteOfDay(a) == Timestamp.MinuteOfDay(b)
                && (a.second < b.second || (a.second == b.second && a.nanosecond < b.nanosecond)))))
  }

  lemma EarlierMeans(a: Timestamp.Timestamp, b: Timestamp.Timestamp)
    requires a.Valid() && b.Valid()
    ensures Timestamp.Order(a, b) == Less <==> Earlier(a, b)
    ensures Timestamp.Order(a, b) == Greater <==> Earlier(b, a)
  {
    hide Timestamp.Order, Timestamp.DayNumber;
    Timestamp.OrderIsChronological(a, b);
  }

  predicate Amounts(left: Json, right: Json) {
    left.Num? && right.Num?
  }

  function Amount(value: Json): real
    requires value.Num?
  {
    Number.Value(value.number)
  }

  /** An element of a list that is the sought value, each read as it was written. */
  ghost predicate Lists(doors: Doors, definition: Definition, list: Json, listed: Json, sought: Json, written: Json) {
    exists i | 0 <= i < |Items(list)| ::
      Same(doors, definition, Items(list)[i], WrittenAt(Some(listed), [Element(i)]), sought, Some(written))
  }

  function Items(list: Json): seq<Json> {
    match list
    case Arr(elements) => elements
    case _ => []
  }

  predicate IsCut(text: string, before: string, middle: string, after: string) {
    text == before + middle + after
  }

  /** What it is for an operator to hold of two values. */
  ghost predicate Holds(doors: Doors, definition: Definition, op: PairOp, left: Json, l: Json, right: Json, r: Json) {
    match op
    case Before =>
      && InstantIn(left).Some? && InstantIn(right).Some? && Earlier(InstantIn(left).value, InstantIn(right).value)
    case After =>
      && InstantIn(left).Some? && InstantIn(right).Some? && Earlier(InstantIn(right).value, InstantIn(left).value)
    case Eq => Same(doors, definition, left, Some(l), right, Some(r))
    case Ne => !Same(doors, definition, left, Some(l), right, Some(r))
    case Gt => Amounts(left, right) && Amount(left) > Amount(right)
    case Gte => Amounts(left, right) && Amount(left) >= Amount(right)
    case Lt => Amounts(left, right) && Amount(left) < Amount(right)
    case Lte => Amounts(left, right) && Amount(left) <= Amount(right)
    case In => Lists(doors, definition, right, r, left, l)
    case Contains =>
      || Lists(doors, definition, left, l, right, r)
      || (left.Str? && right.Str? && exists before, after :: IsCut(left.text, before, right.text, after))
      || (left.Obj? && right.Str? && right.text in left.members)
    case StartsWith => left.Str? && right.Str? && exists rest :: IsCut(left.text, "", right.text, rest)
    case EndsWith => left.Str? && right.Str? && exists rest :: IsCut(left.text, rest, right.text, "")
  }

  /** Only an order of instants can be asked of values it cannot be answered for. */
  predicate Unanswerable(op: PairOp, left: Json, right: Json) {
    (op.Before? || op.After?) && (InstantIn(left).None? || InstantIn(right).None?)
  }

  /** The text of a reference that led to something unreadable as an instant. */
  predicate NamesUnread(op: PairOp, value: Json, written: Json, address: string) {
    (op.Before? || op.After?) && InstantIn(value).None? && written == Str(address) && address != "" && address[0] == '$'
  }

  lemma ListsMean(doors: Doors, definition: Definition, list: Json, listed: Json, sought: Json, written: Json)
    requires list.Arr?
    ensures HasElement(doors, definition, list.elements, listed, sought, written)
       <==> Lists(doors, definition, list, listed, sought, written)
  {
    hide EqualUnder, Same;
    forall i | 0 <= i < |list.elements|
      ensures EqualUnder(doors, definition, list.elements[i], WrittenElement(Some(listed), i), sought, Some(written))
         <==> Same(doors, definition, list.elements[i], WrittenAt(Some(listed), [Element(i)]), sought, Some(written))
    {
      AtBelow(listed, Element(i), []);
      assert [Element(i)] + [] == [Element(i)];
      SameMeans(doors, definition, list.elements[i], WrittenElement(Some(listed), i), sought, Some(written));
    }
  }

  lemma TextHeld(text: string, needle: string)
    ensures HasText(text, needle) <==> exists before, after :: IsCut(text, before, needle, after)
  {
    if HasText(text, needle) {
      var i :| 0 <= i <= |text| && TextAt(text, needle, i);
      assert IsCut(text, text[..i], needle, text[i + |needle|..]);
    }
    if before, after :| IsCut(text, before, needle, after) {
      assert TextAt(text, needle, |before|);
    }
  }

  lemma TextStarts(text: string, needle: string)
    ensures needle <= text <==> exists rest :: IsCut(text, "", needle, rest)
  {
    if needle <= text {
      assert IsCut(text, "", needle, text[|needle|..]);
    }
  }

  lemma TextEnds(text: string, needle: string)
    ensures |needle| <= |text| && text[|text| - |needle|..] == needle <==> exists rest :: IsCut(text, rest, needle, "")
  {
    if |needle| <= |text| && text[|text| - |needle|..] == needle {
      assert IsCut(text, text[..|text| - |needle|], needle, "");
    }
  }

  /** An operator answers whether it holds, or nothing where it cannot be answered, and names the
      references that kept it from an answer. */
  lemma PairMeans(doors: Doors, definition: Definition, op: PairOp, left: Json, l: Json, right: Json, r: Json)
    ensures AnswerPair(doors, definition, op, left, l, right, r).0
         == if Unanswerable(op, left, right) then Unknown
            else FromBool(Holds(doors, definition, op, left, l, right, r))
    ensures forall a :: a in AnswerPair(doors, definition, op, left, l, right, r).1
                   <==> NamesUnread(op, left, l, a) || NamesUnread(op, right, r, a)
  {
    hide Number.Value, Number.IsNumber, EqualUnder, Same, HasElement, Lists, HasText, InstantIn, AnswerInstants,
         Earlier, IsCut, Unread;
    match op
    case Before =>
      OrderOfInstants(op, left, l, right, r);
      NamedInstants(op, left, l, right, r, Less);
    case After =>
      OrderOfInstants(op, left, l, right, r);
      NamedInstants(op, left, l, right, r, Greater);
    case Eq => SameMeans(doors, definition, left, Some(l), right, Some(r));
    case Ne => SameMeans(doors, definition, left, Some(l), right, Some(r));
    case In => MembershipMeans(doors, definition, right, r, left, l);
    case Contains => ContainmentMeans(doors, definition, left, l, right, r);
    case StartsWith =>
      if left.Str? && right.Str? {
        TextStarts(left.text, right.text);
      }
    case EndsWith =>
      if left.Str? && right.Str? {
        TextEnds(left.text, right.text);
      }
    case _ =>
  }

  lemma MembershipMeans(doors: Doors, definition: Definition, list: Json, listed: Json, sought: Json, written: Json)
    ensures list.Arr? && HasElement(doors, definition, list.elements, listed, sought, written)
       <==> Lists(doors, definition, list, listed, sought, written)
  {
    hide HasElement, Lists;
    if list.Arr? {
      ListsMean(doors, definition, list, listed, sought, written);
    } else {
      NoItems(doors, definition, list, listed, sought, written);
    }
  }

  lemma ContainmentMeans(doors: Doors, definition: Definition, left: Json, l: Json, right: Json, r: Json)
    ensures AnswerPair(doors, definition, Contains, left, l, right, r)
         == (FromBool(Holds(doors, definition, Contains, left, l, right, r)), {})
  {
    hide HasElement, Lists, HasText, IsCut, Number.IsNumber;
    MembershipMeans(doors, definition, left, l, right, r);
    if left.Str? && right.Str? {
      TextHeld(left.text, right.text);
    }
  }

  lemma NoItems(doors: Doors, definition: Definition, list: Json, listed: Json, sought: Json, written: Json)
    requires !list.Arr?
    ensures !Lists(doors, definition, list, listed, sought, written)
  {
  }

  lemma UnreadMeans(op: PairOp, value: Json, written: Json)
    requires op.Before? || op.After?
    ensures forall a :: a in Unread(value, written) <==> NamesUnread(op, value, written, a)
  {
    hide Timestamp.Parse;
  }

  lemma OrderOfInstants(op: PairOp, left: Json, l: Json, right: Json, r: Json)
    requires op.Before? || op.After?
    ensures AnswerInstants(left, l, right, r, if op.Before? then Less else Greater).0
         == if Unanswerable(op, left, right) then Unknown
            else FromBool(if op.Before? then Earlier(InstantIn(left).value, InstantIn(right).value)
                          else Earlier(InstantIn(right).value, InstantIn(left).value))
  {
    hide Timestamp.Parse, Timestamp.Order, Earlier, Unread, Timestamp.DayNumber;
    if InstantIn(left).Some? && InstantIn(right).Some? {
      EarlierMeans(InstantIn(left).value, InstantIn(right).value);
    }
  }

  lemma NamedInstants(op: PairOp, left: Json, l: Json, right: Json, r: Json, wanted: Ordering)
    requires op.Before? || op.After?
    ensures forall a :: a in AnswerInstants(left, l, right, r, wanted).1
                   <==> NamesUnread(op, left, l, a) || NamesUnread(op, right, r, a)
  {
    hide Timestamp.Parse, Timestamp.Order, Unread, NamesUnread;
    UnreadMeans(op, left, l);
    UnreadMeans(op, right, r);
  }

  /** Asked with both operands resolved, a condition is answered so, and names what its operands name with the
      references it could not read; asked with one missing it is unknown. */
  lemma ConditionMeans(op: PairOp, left: Json, right: Json, ctx: Context, b: Bindings)
    requires ResolveOperand(left, ctx, b).Ok? && ResolveOperand(right, ctx, b).Ok?
    ensures Evaluate(Pair(op, left, right), ctx, b).Ok?
    ensures var (l, r) := (ResolveOperand(left, ctx, b).value, ResolveOperand(right, ctx, b).value);
            var (t, named) := Evaluate(Pair(op, left, right), ctx, b).value;
            if l.0.None? || r.0.None? then t == Unknown && named == l.1 + r.1
            else
              && t == (if Unanswerable(op, l.0.value, r.0.value) then Unknown
                       else FromBool(Holds(ctx.doors, ctx.definition, op, l.0.value, left, r.0.value, right)))
              && forall a :: (a in named <==> a in l.1 || a in r.1 || NamesUnread(op, l.0.value, left, a)
                                              || NamesUnread(op, r.0.value, right, a))
  {
    hide ResolveOperand, AnswerPair, Holds, Unanswerable, NamesUnread, EvaluateEach, Quantify;
    var l, r := ResolveOperand(left, ctx, b).value, ResolveOperand(right, ctx, b).value;
    if l.0.Some? && r.0.Some? {
      PairMeans(ctx.doors, ctx.definition, op, l.0.value, left, r.0.value, right);
    }
  }

  /** `compare` likewise asks two resolved operands to be compared as they are written. */
  lemma ComparisonMeans(left: Json, op: CompareOp, right: Json, ctx: Context, b: Bindings)
    requires ResolveOperand(left, ctx, b).Ok? && ResolveOperand(right, ctx, b).Ok?
    ensures var (l, r) := (ResolveOperand(left, ctx, b).value, ResolveOperand(right, ctx, b).value);
            Evaluate(Compare(left, op, right), ctx, b)
            == Ok((if l.0.None? || r.0.None? then Unknown
                   else CompareScalars(ctx.doors, ctx.definition, op, l.0.value, left, r.0.value, right), l.1 + r.1))
  {
    hide ResolveOperand, AnswerPair, CompareScalars, EvaluateEach, Quantify;
  }

  // --- compare ------------------------------------------------------------------------------------

  predicate Stands(op: CompareOp, x: real, y: real) {
    match op
    case CompareEq => x == y
    case CompareNe => x != y
    case CompareLt => x < y
    case CompareLte => x <= y
    case CompareGt => x > y
    case CompareGte => x >= y
  }

  /** What two readings are compared by: their exact values, or their binary64 where one has no pair. */
  function Measures(a: Reading, b: Reading): (real, real) {
    if a.Exact? && b.Exact? then (a.pair.Value(), b.pair.Value()) else (a.rank as real, b.rank as real)
  }

  /** Numbers compare as they are read; a number that cannot be read leaves the question open. */
  lemma NumbersCompare(doors: Doors, definition: Definition, op: CompareOp, m: Number.Number, l: Json,
                       n: Number.Number, r: Json)
    ensures CompareScalars(doors, definition, op, Num(m), l, Num(n), r)
         == var a, b := ReadAs(doors, m, Some(l)), ReadAs(doors, n, Some(r));
            if a.None? || b.None? then Unknown
            else FromBool(Stands(op, Measures(a.value, b.value).0, Measures(a.value, b.value).1))
  {
    hide Number.IsNumber, Observed.ExactCompare, Observed.Pair.Value, OfNumber, OfLiteral;
    var a, b := ReadAs(doors, m, Some(l)), ReadAs(doors, n, Some(r));
    if a.Some? && b.Some? && a.value.Exact? && b.value.Exact? {
      Observed.ExactCompareIsNumeric(a.value.pair, b.value.pair);
    }
  }

  /** A text's place on a scale is the first one it is written at. */
  lemma {:induction false} PositionIsFirst(values: seq<string>, value: string)
    requires value in values
    ensures var p := Position(values, value);
            p < |values| && values[p] == value && forall i | 0 <= i < p :: values[i] != value
  {
    if values[0] != value {
      PositionIsFirst(values[1..], value);
      var p := Position(values[1..], value);
      assert forall i | 0 < i < p + 1 :: values[i] == values[1..][i - 1];
    }
  }

  predicate OnScale(scales: map<string, seq<string>>, n: string, left: string, right: string) {
    n in scales && left in scales[n] && right in scales[n]
  }

  function PlaceOn(scales: map<string, seq<string>>, n: string, value: string): real
    requires n in scales && value in scales[n]
  {
    Position(scales[n], value) as real
  }

  /** Every scale that holds both texts, and some does, puts them in one order. */
  ghost predicate Ranked(scales: map<string, seq<string>>, left: string, right: string) {
    && (exists n :: OnScale(scales, n, left, right))
    && forall m, n | OnScale(scales, m, left, right) && OnScale(scales, n, left, right) ::
         OrderReal(PlaceOn(scales, m, left), PlaceOn(scales, m, right))
         == OrderReal(PlaceOn(scales, n, left), PlaceOn(scales, n, right))
  }

  /** Texts are one or different; which comes first is asked of the scales. */
  lemma TextsCompare(doors: Doors, definition: Definition, op: CompareOp, left: string, l: Json, right: string, r: Json)
    ensures var t := CompareScalars(doors, definition, op, Str(left), l, Str(right), r);
            && (op.CompareEq? ==> t == FromBool(left == right))
            && (op.CompareNe? ==> t == FromBool(left != right))
            && (!op.CompareEq? && !op.CompareNe? ==>
                  && (t.Unknown? <==> !Ranked(definition.scales, left, right))
                  && forall n | !t.Unknown? && OnScale(definition.scales, n, left, right) ::
                       t == FromBool(Stands(op, PlaceOn(definition.scales, n, left),
                                            PlaceOn(definition.scales, n, right))))
  {
    hide ScaleOrder, Ranked, KeyOrder, PlaceOn, OnScale;
    OrderMirrors(left, right);
    RankedMeans(definition.scales, left, right);
  }

  /** The order of the two places on one scale. */
  function OrderOn(scales: map<string, seq<string>>, n: string, left: string, right: string): Ordering
    requires OnScale(scales, n, left, right)
  {
    OrderReal(PlaceOn(scales, n, left), PlaceOn(scales, n, right))
  }

  lemma AgreedOrder(scales: map<string, seq<string>>, left: string, right: string, order: Ordering)
    ensures ScaleOrder(scales, left, right) == Some(order)
       <==> && (exists n :: OnScale(scales, n, left, right))
            && forall n | OnScale(scales, n, left, right) :: OrderOn(scales, n, left, right) == order
  {
    hide ScaleOrder, Position;
    Operators.ScalesAgree(scales, left, right, order);
    forall n | OnScale(scales, n, left, right)
      ensures OrderOn(scales, n, left, right) == OrderInt(Position(scales[n], left), Position(scales[n], right))
    {
    }
    if exists n :: OnScale(scales, n, left, right) {
      var n :| OnScale(scales, n, left, right);
      assert n in scales && left in scales[n] && right in scales[n];
    }
    if n :| n in scales && left in scales[n] && right in scales[n] {
      assert OnScale(scales, n, left, right);
    }
  }

  lemma RankedMeans(scales: map<string, seq<string>>, left: string, right: string)
    ensures ScaleOrder(scales, left, right).Some? <==> Ranked(scales, left, right)
    ensures forall n | ScaleOrder(scales, left, right).Some? && OnScale(scales, n, left, right) ::
              ScaleOrder(scales, left, right).value == OrderReal(PlaceOn(scales, n, left), PlaceOn(scales, n, right))
  {
    hide ScaleOrder, Position, OnScale, PlaceOn;
    if ScaleOrder(scales, left, right).Some? {
      AgreedOrder(scales, left, right, ScaleOrder(scales, left, right).value);
      assert forall n | OnScale(scales, n, left, right) ::
          OrderOn(scales, n, left, right) == ScaleOrder(scales, left, right).value;
    }
    if Ranked(scales, left, right) {
      var n :| OnScale(scales, n, left, right);
      var order := OrderOn(scales, n, left, right);
      assert forall m | OnScale(scales, m, left, right) :: OrderOn(scales, m, left, right) == order;
      AgreedOrder(scales, left, right, order);
    }
  }

  /** Two booleans are one or different, two scalars of different kinds are different, and nothing else
      can be compared. */
  lemma OthersCompare(doors: Doors, definition: Definition, op: CompareOp, left: Json, l: Json, right: Json, r: Json)
    requires !(left.Num? && right.Num?) && !(left.Str? && right.Str?)
    ensures CompareScalars(doors, definition, op, left, l, right, r)
         == if left.Null? || left.Arr? || left.Obj? || right.Null? || right.Arr? || right.Obj? then Unknown
            else match op
                 case CompareEq => FromBool(left == right)
                 case CompareNe => FromBool(left != right)
                 case _ => Unknown
  {
    hide Observe, ScaleOrder, KeyOrder, Number.IsNumber, Reading.CompareTo;
  }
}
