/** Every value a registered identity field admits has an address. */
module Mirrors {
  import opened Prelude
  import opened Digits
  import opened Number
  import opened Keys
  import opened Sum
  import opened Definition
  import opened Reading
  import opened Values
  import opened Identity
  import opened Addresses
  import opened Runtime
  import opened Registration
  import opened Safety
  import opened Paths

  lemma {:induction false} ElementsTotal(doors: Doors, elements: seq<Json>, first: bool)
    requires forall i | 0 <= i < |elements| :: Canonical(doors, elements[i]).Ok?
    ensures ElementsText(doors, elements, first).Ok?
  {
    hide Canonical;
    if elements != [] {
      ElementsTotal(doors, elements[1..], false);
    }
  }

  lemma {:induction false} MembersTotal(doors: Doors, value: Json, keys: seq<string>, first: bool)
    requires value.Obj? && forall k | k in keys :: k in value.members && Canonical(doors, value.members[k]).Ok?
    ensures MembersText(doors, value, keys, first).Ok?
    decreases |keys|
  {
    hide Canonical, Quoted;
    if keys != [] {
      MembersTotal(doors, value, keys[1..], false);
    }
  }

  lemma ListTotal(doors: Doors, value: Json)
    requires value.Arr? && forall i | 0 <= i < |value.elements| :: Canonical(doors, value.elements[i]).Ok?
    ensures Canonical(doors, value).Ok?
  {
    hide ElementsText;
    ElementsTotal(doors, value.elements, true);
  }

  lemma ObjectTotal(doors: Doors, value: Json)
    requires value.Obj? && forall k | k in value.members :: Canonical(doors, value.members[k]).Ok?
    ensures Canonical(doors, value).Ok?
  {
    hide MembersText, SortedKeys;
    var keys := SortedKeys(value.members.Keys);
    assert forall k | k in keys :: k in value.members.Keys;
    MembersTotal(doors, value, keys, true);
  }

  lemma NumberTotal(doors: Doors, field: Field, value: Json)
    requires Conforms(doors, field, value, true) && Numeric(field.kind)
    ensures value.Num? && Canonical(doors, value).Ok?
  {
    hide OfNumber, AboveMin, BelowMax, IntegerFits;
  }

  lemma UnionMember(doors: Doors, field: Field, value: Json, k: string)
    requires Conforms(doors, field, value, true) && FieldDeclared(doors, field, true) && !CarriesJson(field)
    requires field.kind.UnionKind? && k in value.members
    ensures value.members[k].Str? || exists v | v in field.variants :: Conforms(doors, field.variants[v], value.members[k], true)
    ensures forall v | v in field.variants :: !CarriesJson(field.variants[v]) && FieldDeclared(doors, field.variants[v], true)
  {
    hide Applicable, BoundsDeclared;
    if k != TagKey(field) {
      assert value.members[TagKey(field)].text in field.variants;
    }
  }

  /** Whatever conforms to a declaration with no `json` in it has a canonical text, at every depth. */
  lemma {:induction false} CanonicalTotal(doors: Doors, field: Field, value: Json)
    requires FieldDeclared(doors, field, true) && !CarriesJson(field) && Conforms(doors, field, value, true)
    ensures Canonical(doors, value).Ok?
    decreases value
  {
    hide Canonical, NumberFits, LengthFits, BoundsDeclared;
    match field.kind
    case ArrayKind =>
      forall i | 0 <= i < |value.elements|
        ensures Canonical(doors, value.elements[i]).Ok?
      {
        CanonicalTotal(doors, field.items.value, value.elements[i]);
      }
      ListTotal(doors, value);
    case MapKind =>
      forall k | k in value.members
        ensures Canonical(doors, value.members[k]).Ok?
      {
        CanonicalTotal(doors, field.items.value, value.members[k]);
      }
      ObjectTotal(doors, value);
    case ObjectKind =>
      forall k | k in value.members
        ensures Canonical(doors, value.members[k]).Ok?
      {
        CanonicalTotal(doors, field.properties.fields[k], value.members[k]);
      }
      ObjectTotal(doors, value);
    case UnionKind =>
      forall k | k in value.members
        ensures Canonical(doors, value.members[k]).Ok?
      {
        UnionMember(doors, field, value, k);
        if value.members[k].Str? {
          TextTotal(doors, value.members[k]);
        } else {
          var v :| v in field.variants && Conforms(doors, field.variants[v], value.members[k], true);
          CanonicalTotal(doors, field.variants[v], value.members[k]);
        }
      }
      ObjectTotal(doors, value);
    case IntegerKind => NumberTotal(doors, field, value);
    case NumberKind => NumberTotal(doors, field, value);
    case Binary64Kind => NumberTotal(doors, field, value);
    case _ => TextTotal(doors, value);
  }

  lemma TextTotal(doors: Doors, value: Json)
    requires value.Str? || value.Bool?
    ensures Canonical(doors, value).Ok?
  {
  }

  lemma ConformingShape(doors: Doors, field: Field, value: Json)
    requires Conforms(doors, field, value, true) && !CarriesJson(field)
    ensures Canonical(doors, value).Ok? ==> Address(doors, field.kind, value).Ok?
  {
    hide NumberFits, LengthFits, ElementsText, MembersText, NumericText;
  }

  /** The address function is total on what a registered identity field admits. */
  lemma AddressTotal(doors: Doors, field: Field, value: Json)
    requires FieldDeclared(doors, field, true) && !CarriesJson(field) && Conforms(doors, field, value, true)
    ensures Address(doors, field.kind, value).Ok?
  {
    hide FieldDeclared, CarriesJson, Conforms, Canonical, Address;
    CanonicalTotal(doors, field, value);
    ConformingShape(doors, field, value);
  }

  /** Every schema-valid creation under a declared identity derives an address. */
  lemma DerivationTotal(doors: Doors, definition: Definition, fields: Object)
    requires Registered(doors, definition) && definition.identity.Some?
    requires ValidObject(doors, definition.schema, fields, definition.semantics.Service())
    ensures DeriveIdentity(doors, definition, fields).Ok?
  {
    hide Registered, FieldDeclared, Conforms, CarriesJson, Address, KernelOnly, CreationAccepted, InvariantsAccepted;
    RegisteredInvariants(doors, definition);
    KernelHasNoIdentity(definition);
    AddressTotal(doors, definition.schema.fields[definition.identity.value], fields[definition.identity.value]);
  }

  lemma KernelHasNoIdentity(definition: Definition)
    requires !definition.semantics.Service() ==> KernelOnly(definition)
    ensures definition.identity.Some? ==> definition.semantics.Service()
  {
  }

  // --- The hypothesis on printing -----------------------------------------------------------------

  /** Doors whose binary64s print as the integers of their ranks. */
  function PlainDoors(): Doors {
    Doors(text => None, units => units, rank => None, rank => IntegerNumber(rank), (key, text) => true)
  }

  /** What theorems ask of printing can be met. */
  lemma PrintsIsMet()
    ensures Prints(PlainDoors())
  {
    hide IntegerNumber, PlainChars, IsInteger, IntegerValue, IsNumber;
    forall rank
      ensures PlainDoors().shown(rank) != [] && PlainChars(PlainDoors().shown(rank))
    {
      IntegerIsPlain(rank);
    }
    forall r, s | PlainDoors().shown(r) == PlainDoors().shown(s)
      ensures r == s
    {
      assert IntegerValue(IntegerNumber(r)) == IntegerValue(IntegerNumber(s));
    }
  }

  lemma IntegerIsPlain(n: int)
    ensures IntegerNumber(n) != [] && PlainChars(IntegerNumber(n))
  {
    hide PlainChars, IsNumber, Plain, Nat;
    var ds := DigitsOf(NatText(AbsInt(n)));
    PlainIsPlain(n < 0, ds, []);
  }
}
