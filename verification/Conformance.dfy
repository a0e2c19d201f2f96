/** What it is for a value to satisfy a declaration: every node of it, at any depth, satisfies what declares
    that node. */
module Conformance {
  import opened Prelude
  import opened Definition
  import opened Reading
  import opened Positions
  import opened Values
  import opened Meanings
  import Number
  import Observed

  /** A number between its bounds: by value, or under the service rules as both are read. */
  predicate InBounds(doors: Doors, field: Field, n: Number.Number, service: bool) {
    if service then
      && OfNumber(doors, n).Some?
      && (field.min.Some? ==>
            && OfLiteral(doors, field.min.value).Some?
            && var m := Measures(OfNumber(doors, n).value, OfLiteral(doors, field.min.value).value); m.0 >= m.1)
      && (field.max.Some? ==>
            && OfLiteral(doors, field.max.value).Some?
            && var m := Measures(OfNumber(doors, n).value, OfLiteral(doors, field.max.value).value); m.0 <= m.1)
    else
      && (field.min.Some? ==> Number.Value(field.min.value) <= Number.Value(n))
      && (field.max.Some? ==> Number.Value(n) <= Number.Value(field.max.value))
  }

  /** Written as an integer, in 64 bits: signed ones under the service rules, either without them. */
  predicate WholeInRange(n: Number.Number, service: bool) {
    Number.IsInteger(n) && I64_MIN <= Number.IntegerValue(n) <= if service then I64_MAX else U64_MAX
  }

  predicate LengthWithin(field: Field, n: nat) {
    (field.minLength.Some? ==> n >= field.minLength.value) && (field.maxLength.Some? ==> n <= field.maxLength.value)
  }

  /** What a declaration asks of the node itself, whatever is below it. */
  predicate Fits(doors: Doors, field: Field, value: Json, service: bool) {
    match field.kind
    case StringKind => value.Str? && LengthWithin(field, |value.text|)
    case IntegerKind =>
      value.Num? && WholeInRange(value.number, service) && InBounds(doors, field, value.number, service)
    case NumberKind => value.Num? && InBounds(doors, field, value.number, service)
    case Binary64Kind => value.Num? && InBounds(doors, field, value.number, service)
    case BooleanKind => value == Bool(true) || value == Bool(false)
    case EnumKind => exists text | text in field.values :: value == Str(text)
    case RefKind => value.Str? && exists i :: 0 <= i < |value.text| && !IsSpace(value.text[i])
    case JsonKind => true
    case ArrayKind => value.Arr?
    case ObjectKind =>
      && value.Obj?
      && (forall k | k in field.properties.fields && field.properties.fields[k].required :: k in value.members)
      && (field.properties.additional || forall k | k in value.members :: k in field.properties.fields)
    case MapKind => value.Obj? && forall k | k in value.members :: doors.mapKey(field.key, k)
    case UnionKind =>
      && value.Obj? && Variant(field, value).Some?
      && (forall k | k in value.members :: k == Tag(field) || k == Content(field))
      && (Variant(field, value).value.required ==> Content(field) in value.members)
  }

  function Tag(field: Field): string {
    match field.tag case Some(name) => name case None => "kind"
  }

  /** A union's payload sits under `value`, or under `content` where `value` is the tag. */
  function Content(field: Field): string {
    if Tag(field) == "value" then "content" else "value"
  }

  /** The variant a union's tag names. */
  function Variant(field: Field, value: Json): Option<Field> {
    if value.Obj? && Tag(field) in value.members && value.members[Tag(field)].Str?
       && value.members[Tag(field)].text in field.variants
    then Some(field.variants[value.members[Tag(field)].text])
    else None
  }

  /** What declares the node one step below. */
  function DeclaredBelow(field: Field, value: Json, step: Step): Option<Field> {
    match step
    case Element(_) => if field.kind.ArrayKind? then field.items else None
    case Member(k) =>
      if field.kind.ObjectKind? && k in field.properties.fields then Some(field.properties.fields[k])
      else if field.kind.MapKind? then field.items
      else if field.kind.UnionKind? && k == Content(field) then Variant(field, value)
      else None
  }

  /** What declares the node at a place, where anything does. */
  function DeclaredAt(field: Option<Field>, value: Json, place: Place): Option<Field>
    decreases |place|
  {
    if place == [] then field
    else if field.None? || Below(value, place[0]).None? then None
    else DeclaredAt(DeclaredBelow(field.value, value, place[0]), Below(value, place[0]).value, place[1..])
  }

  predicate FitsAt(doors: Doors, field: Option<Field>, value: Json, place: Place, service: bool) {
    At(value, place).Some? && DeclaredAt(field, value, place).Some? ==>
      Fits(doors, DeclaredAt(field, value, place).value, At(value, place).value, service)
  }

  ghost predicate FitsThroughout(doors: Doors, field: Option<Field>, value: Json, service: bool) {
    forall place :: FitsAt(doors, field, value, place, service)
  }

  // --- One node -----------------------------------------------------------------------------------

  lemma IntegersFit(n: Number.Number, service: bool)
    ensures IntegerFits(n, service) <==> WholeInRange(n, service)
  {
  }

  lemma BoundsFit(doors: Doors, field: Field, n: Number.Number, service: bool)
    ensures NumberFits(doors, field, n, service) <==> InBounds(doors, field, n, service)
  {
    hide OfNumber, OfLiteral, Number.IsNumber, Number.Value, Observed.ExactCompare, Observed.Pair.Value;
    if service && OfNumber(doors, n).Some? {
      if field.min.Some? && OfLiteral(doors, field.min.value).Some? {
        ReadingsOrder(OfNumber(doors, n).value, OfLiteral(doors, field.min.value).value);
      }
      if field.max.Some? && OfLiteral(doors, field.max.value).Some? {
        ReadingsOrder(OfNumber(doors, n).value, OfLiteral(doors, field.max.value).value);
      }
    }
  }

  lemma ReadingsOrder(a: Reading, b: Reading)
    ensures a.CompareTo(b) == OrderReal(Measures(a, b).0, Measures(a, b).1)
  {
    hide Observed.ExactCompare, Observed.Pair.Value;
    if a.Exact? && b.Exact? {
      Observed.ExactCompareIsNumeric(a.pair, b.pair);
    }
  }

  /** A node conforms exactly when it fits and every node one step below it conforms to what declares that. */
  lemma NodeConforms(doors: Doors, field: Field, value: Json, service: bool)
    ensures Conforms(doors, field, value, service)
       <==> && Fits(doors, field, value, service)
            && forall step | Below(value, step).Some? && DeclaredBelow(field, value, step).Some? ::
                 Conforms(doors, DeclaredBelow(field, value, step).value, Below(value, step).value, service)
  {
    hide Number.IsNumber, NumberFits, InBounds, IntegerFits, WholeInRange;
    if value.Num? {
      BoundsFit(doors, field, value.number, service);
      IntegersFit(value.number, service);
    }
    match field.kind
    case ArrayKind => ArraysConform(doors, field, value, service);
    case ObjectKind => ObjectsConform(doors, field, value, service);
    case MapKind => MapsConform(doors, field, value, service);
    case UnionKind => UnionsConform(doors, field, value, service);
    case _ =>
      forall step
        ensures DeclaredBelow(field, value, step).None?
      {
      }
  }

  ghost predicate BelowConforms(doors: Doors, field: Field, value: Json, service: bool) {
    forall step | Below(value, step).Some? && DeclaredBelow(field, value, step).Some? ::
      Conforms(doors, DeclaredBelow(field, value, step).value, Below(value, step).value, service)
  }

  lemma ArraysConform(doors: Doors, field: Field, value: Json, service: bool)
    requires field.kind.ArrayKind?
    ensures Conforms(doors, field, value, service)
       <==> Fits(doors, field, value, service) && BelowConforms(doors, field, value, service)
  {
    hide NumberFits, InBounds, IntegerFits, WholeInRange;
    if value.Arr? && field.items.Some? {
      forall i | 0 <= i < |value.elements|
        ensures Below(value, Element(i)) == Some(value.elements[i]) && DeclaredBelow(field, value, Element(i)) == field.items
      {
      }
    }
  }

  lemma ObjectsConform(doors: Doors, field: Field, value: Json, service: bool)
    requires field.kind.ObjectKind?
    ensures Conforms(doors, field, value, service)
       <==> Fits(doors, field, value, service) && BelowConforms(doors, field, value, service)
  {
    hide NumberFits, InBounds, IntegerFits, WholeInRange;
    if value.Obj? {
      forall k | k in value.members && k in field.properties.fields
        ensures Below(value, Member(k)) == Some(value.members[k])
        ensures DeclaredBelow(field, value, Member(k)) == Some(field.properties.fields[k])
      {
      }
    }
  }

  lemma MapsConform(doors: Doors, field: Field, value: Json, service: bool)
    requires field.kind.MapKind?
    ensures Conforms(doors, field, value, service)
       <==> Fits(doors, field, value, service) && BelowConforms(doors, field, value, service)
  {
    hide NumberFits, InBounds, IntegerFits, WholeInRange;
    if value.Obj? && field.items.Some? {
      forall k | k in value.members
        ensures Below(value, Member(k)) == Some(value.members[k]) && DeclaredBelow(field, value, Member(k)) == field.items
      {
      }
    }
  }

  lemma UnionsConform(doors: Doors, field: Field, value: Json, service: bool)
    requires field.kind.UnionKind?
    ensures Conforms(doors, field, value, service)
       <==> Fits(doors, field, value, service) && BelowConforms(doors, field, value, service)
  {
    hide NumberFits, InBounds, IntegerFits, WholeInRange;
    if value.Obj? && Content(field) in value.members {
      assert Below(value, Member(Content(field))) == Some(value.members[Content(field)]);
      assert DeclaredBelow(field, value, Member(Content(field))) == Variant(field, value);
    }
  }

  // --- Every node ---------------------------------------------------------------------------------

  lemma FitsBelow(doors: Doors, field: Field, value: Json, step: Step, rest: Place, service: bool)
    requires Below(value, step).Some?
    ensures FitsAt(doors, Some(field), value, [step] + rest, service)
       <==> FitsAt(doors, DeclaredBelow(field, value, step), Below(value, step).value, rest, service)
  {
    hide Fits, DeclaredBelow;
    AtBelow(value, step, rest);
    assert ([step] + rest)[1..] == rest;
  }

  lemma {:induction false} ConformsFits(doors: Doors, field: Field, value: Json, place: Place, service: bool)
    requires Conforms(doors, field, value, service)
    ensures FitsAt(doors, Some(field), value, place, service)
    decreases |place|
  {
    hide Fits, Conforms, DeclaredBelow;
    NodeConforms(doors, field, value, service);
    if place != [] {
      var step, rest := place[0], place[1..];
      assert place == [step] + rest;
      AtBelow(value, step, rest);
      if Below(value, step).Some? {
        FitsBelow(doors, field, value, step, rest, service);
        var declared := DeclaredBelow(field, value, step);
        if declared.Some? {
          ConformsFits(doors, declared.value, Below(value, step).value, rest, service);
        } else {
          Undeclared(Below(value, step).value, rest);
        }
      }
    }
  }

  lemma Undeclared(value: Json, place: Place)
    ensures DeclaredAt(None, value, place) == None
  {
  }

  lemma {:induction false} FitsConforms(doors: Doors, field: Field, value: Json, service: bool)
    requires FitsThroughout(doors, Some(field), value, service)
    ensures Conforms(doors, field, value, service)
    decreases value
  {
    hide Fits, Conforms, DeclaredBelow;
    assert FitsAt(doors, Some(field), value, [], service);
    forall step | Below(value, step).Some? && DeclaredBelow(field, value, step).Some?
      ensures Conforms(doors, DeclaredBelow(field, value, step).value, Below(value, step).value, service)
    {
      forall rest
        ensures FitsAt(doors, DeclaredBelow(field, value, step), Below(value, step).value, rest, service)
      {
        FitsBelow(doors, field, value, step, rest, service);
      }
      Smaller(value, step);
      FitsConforms(doors, DeclaredBelow(field, value, step).value, Below(value, step).value, service);
    }
    NodeConforms(doors, field, value, service);
  }

  lemma Smaller(value: Json, step: Step)
    requires Below(value, step).Some?
    ensures Below(value, step).value < value
  {
  }

  /** A value conforms to a declaration exactly when every node of it fits what declares that node. */
  lemma ConformsMeans(doors: Doors, field: Field, value: Json, service: bool)
    ensures Conforms(doors, field, value, service) <==> FitsThroughout(doors, Some(field), value, service)
  {
    hide Conforms, FitsAt;
    if Conforms(doors, field, value, service) {
      forall place
        ensures FitsAt(doors, Some(field), value, place, service)
      {
        ConformsFits(doors, field, value, place, service);
      }
    }
    if FitsThroughout(doors, Some(field), value, service) {
      FitsConforms(doors, field, value, service);
    }
  }

  /** An object declared by a schema. */
  function Declaring(schema: Schema): Field {
    Field(ObjectKind, true, None, None, None, None, None, [], None, schema, StringKey, None, map[])
  }

  /** An object is valid under a schema exactly when every node of it fits what the schema declares there. */
  lemma ValidMeans(doors: Doors, schema: Schema, given: Object, service: bool)
    ensures ValidObject(doors, schema, given, service)
       <==> FitsThroughout(doors, Some(Declaring(schema)), Obj(given), service)
  {
    hide ValidObject, FitsThroughout;
    ConformsMeans(doors, Declaring(schema), Obj(given), service);
  }
}
