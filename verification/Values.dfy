/** What a schema admits, what its defaults fill in, and which supplied leaves survive. */
module Values {
  import opened Prelude
  import opened Keys
  import opened Definition
  import opened Reading
  import opened Paths
  import Number

  // --- Defaults -----------------------------------------------------------------------------------

  /** What a member holds before the defaults inside it are filled. */
  function Supplied(schema: Schema, given: Object, k: string): Option<Json> {
    if k in given then Some(given[k]) else if k in schema.fields then schema.fields[k].default else None
  }

  /** Declared defaults at every depth an object or array element already reaches; an object that was
      not supplied is not invented. */
  function FillMembers(schema: Schema, given: Object): Object {
    map k | k in given.Keys + schema.fields.Keys && Supplied(schema, given, k).Some? ::
      var value := Supplied(schema, given, k).value;
      if k in schema.fields then FillValue(schema.fields[k], value) else value
  }

  function FillValue(field: Field, value: Json): Json {
    if field.kind.ObjectKind? && value.Obj? then Obj(FillMembers(field.properties, value.members))
    else if field.kind.ArrayKind? && field.items.Some? && value.Arr? then
      Arr(seq(|value.elements|, i requires 0 <= i < |value.elements| =>
            FillValue(field.items.value, value.elements[i])))
    else value
  }

  /** The member loop, filling one map in place in key order. */
  method ApplyDefaults(schema: Schema, given: Object) returns (filled: Object)
    ensures filled == FillMembers(schema, given)
    decreases schema
  {
    hide FilledSoFar, FillValue;
    filled := given;
    var names := SortedKeys(schema.fields.Keys);
    FillStart(schema, given);
    assert names[..0] == [];
    for i := 0 to |names|
      invariant FilledSoFar(schema, given, filled, names[..i])
    {
      var name := names[i];
      assert name in names;
      FillStep(schema, given, filled, names, i);
      ghost var next := FilledName(schema, filled, name);
      if name !in filled && schema.fields[name].default.Some? {
        filled := filled[name := schema.fields[name].default.value];
      }
      if name in filled {
        var value := ApplyNestedDefaults(schema.fields[name], filled[name]);
        filled := filled[name := value];
      }
      assert filled == next;
    }
    FillDone(schema, given, filled, names);
  }

  /** The first `done` names hold what they are filled with; the others hold what was given. */
  ghost predicate FilledSoFar(schema: Schema, given: Object, filled: Object, done: seq<string>) {
    && (forall k | k in done :: k in schema.fields)
    && (forall k :: k in filled <==> if k in done then Supplied(schema, given, k).Some? else k in given)
    && (forall k | k in filled ::
          filled[k] == if k in done then FillValue(schema.fields[k], Supplied(schema, given, k).value) else given[k])
  }

  /** What filling one name leaves behind. */
  ghost function FilledName(schema: Schema, filled: Object, name: string): Object
    requires name in schema.fields
  {
    match Supplied(schema, filled, name)
    case None => filled
    case Some(value) => filled[name := FillValue(schema.fields[name], value)]
  }

  lemma FillStep(schema: Schema, given: Object, filled: Object, names: seq<string>, i: nat)
    requires i < |names| && names[i] in schema.fields && FilledSoFar(schema, given, filled, names[..i])
    requires forall j, k | 0 <= j < k < |names| :: names[j] != names[k]
    ensures FilledSoFar(schema, given, FilledName(schema, filled, names[i]), names[..i + 1])
  {
    hide FillValue;
    assert names[..i + 1] == names[..i] + [names[i]];
  }

  lemma FillStart(schema: Schema, given: Object)
    ensures FilledSoFar(schema, given, given, [])
  {
  }

  lemma FillDone(schema: Schema, given: Object, filled: Object, names: seq<string>)
    requires forall k :: k in names <==> k in schema.fields
    requires FilledSoFar(schema, given, filled, names[..|names|])
    ensures filled == FillMembers(schema, given)
  {
    hide FillValue;
    assert names[..|names|] == names;
  }

  method ApplyNestedDefaults(field: Field, value: Json) returns (filled: Json)
    ensures filled == FillValue(field, value)
    decreases field
  {
    filled := value;
    if field.kind.ObjectKind? && value.Obj? {
      var members := ApplyDefaults(field.properties, value.members);
      filled := Obj(members);
    } else if field.kind.ArrayKind? && field.items.Some? && value.Arr? {
      var elements := [];
      for i := 0 to |value.elements|
        invariant |elements| == i
        invariant forall j | 0 <= j < i :: elements[j] == FillValue(field.items.value, value.elements[j])
      {
        var element := ApplyNestedDefaults(field.items.value, value.elements[i]);
        elements := elements + [element];
      }
      filled := Arr(elements);
    }
  }

  /** Filling twice fills nothing more, at every depth. */
  lemma {:induction false} FillIdempotent(schema: Schema, given: Object)
    ensures FillMembers(schema, FillMembers(schema, given)) == FillMembers(schema, given)
  {
    var once := FillMembers(schema, given);
    forall k | k in once && k in schema.fields
      ensures FillValue(schema.fields[k], once[k]) == once[k]
    {
      FillValueIdempotent(schema.fields[k], Supplied(schema, given, k).value);
    }
  }

  lemma {:induction false} FillValueIdempotent(field: Field, value: Json)
    ensures FillValue(field, FillValue(field, value)) == FillValue(field, value)
  {
    if field.kind.ObjectKind? && value.Obj? {
      FillIdempotent(field.properties, value.members);
    } else if field.kind.ArrayKind? && field.items.Some? && value.Arr? {
      forall i | 0 <= i < |value.elements|
        ensures FillValue(field.items.value, FillValue(field.items.value, value.elements[i]))
             == FillValue(field.items.value, value.elements[i])
      {
        FillValueIdempotent(field.items.value, value.elements[i]);
      }
    }
  }

  /** Whatever was there is still there: every leaf as it was, every list as long as it was. */
  ghost predicate Kept(before: Json, after: Json) {
    if before.Obj? && after.Obj? then
      && before.members.Keys <= after.members.Keys
      && forall k | k in before.members :: Kept(before.members[k], after.members[k])
    else if before.Arr? && after.Arr? then
      && |before.elements| == |after.elements|
      && forall i | 0 <= i < |before.elements| :: Kept(before.elements[i], after.elements[i])
    else before == after
  }

  lemma {:induction false} KeptRefl(value: Json)
    ensures Kept(value, value)
  {
    match value
    case Arr(elements) =>
      forall i | 0 <= i < |elements|
        ensures Kept(elements[i], elements[i])
      {
        KeptRefl(elements[i]);
      }
    case Obj(members) =>
      forall k | k in members
        ensures Kept(members[k], members[k])
      {
        KeptRefl(members[k]);
      }
    case _ =>
  }

  /** A default never overwrites what was supplied. */
  lemma {:induction false} FillKeeps(field: Field, value: Json)
    ensures Kept(value, FillValue(field, value))
  {
    if field.kind.ObjectKind? && value.Obj? {
      FillMembersKeeps(field.properties, value.members);
    } else if field.kind.ArrayKind? && field.items.Some? && value.Arr? {
      forall i | 0 <= i < |value.elements|
        ensures Kept(value.elements[i], FillValue(field.items.value, value.elements[i]))
      {
        FillKeeps(field.items.value, value.elements[i]);
      }
    } else {
      KeptRefl(value);
    }
  }

  lemma {:induction false} FillMembersKeeps(schema: Schema, given: Object)
    ensures Kept(Obj(given), Obj(FillMembers(schema, given)))
  {
    forall k | k in given
      ensures Kept(given[k], FillMembers(schema, given)[k])
    {
      if k in schema.fields {
        FillKeeps(schema.fields[k], given[k]);
      } else {
        KeptRefl(given[k]);
      }
    }
  }

  // --- Presence of an argument --------------------------------------------------------------------

  /** What a conditional map finds at a path below the arguments. */
  function Presence(given: Object, path: seq<string>): Option<Json>
    requires path != []
    decreases |path|
  {
    if path[0] !in given then None
    else if |path| == 1 then Some(given[path[0]])
    else if given[path[0]].Obj? then Presence(given[path[0]].members, path[1..])
    else None
  }

  /** The optional leaf a path reaches through required, closed, default-free objects. */
  function PresentLeaf(schema: Schema, path: seq<string>): Option<Field>
    requires path != []
    decreases |path|
  {
    if path[0] !in schema.fields || schema.fields[path[0]].default.Some? then None
    else
      var field := schema.fields[path[0]];
      if |path| == 1 then (if field.required then None else Some(field))
      else if field.required && field.kind.ObjectKind? && !field.properties.additional
      then PresentLeaf(field.properties, path[1..])
      else None
  }

  /** The leaf registration admits as the source of a conditional map. */
  function PresentArgument(schema: Schema, argument: string): Option<Field> {
    if argument == [] || '$' in argument || "" in Split(argument, '.') || schema.additional then None
    else PresentLeaf(schema, Split(argument, '.'))
  }

  function ArgumentPresence(args: Object, argument: string): Option<Json> {
    Presence(args, Split(argument, '.'))
  }

  lemma {:induction false} LeafPresence(schema: Schema, given: Object, path: seq<string>)
    requires path != [] && PresentLeaf(schema, path).Some?
    ensures Presence(FillMembers(schema, given), path)
         == match Presence(given, path)
            case None => None
            case Some(value) => Some(FillValue(PresentLeaf(schema, path).value, value))
    decreases |path|
  {
    if path[0] in given && |path| > 1 && given[path[0]].Obj? {
      LeafPresence(schema.fields[path[0]].properties, given[path[0]].members, path[1..]);
    }
  }

  /** Each value of the chain is the member of the one before it that the path names next. */
  predicate Leads(chain: seq<Json>, path: seq<string>) {
    && |chain| == |path| + 1
    && forall i | 0 <= i < |path| ::
         chain[i].Obj? && path[i] in chain[i].members && chain[i + 1] == chain[i].members[path[i]]
  }

  ghost predicate Reaches(from: Json, path: seq<string>, to: Json) {
    exists chain :: Leads(chain, path) && chain[0] == from && chain[|path|] == to
  }

  lemma {:induction false} PresenceLeads(given: Object, path: seq<string>) returns (chain: seq<Json>)
    requires path != [] && Presence(given, path).Some?
    ensures Leads(chain, path) && chain[0] == Obj(given) && chain[|path|] == Presence(given, path).value
    decreases |path|
  {
    var next := given[path[0]];
    if |path| == 1 {
      chain := [Obj(given), next];
    } else {
      var rest := PresenceLeads(next.members, path[1..]);
      chain := [Obj(given)] + rest;
      forall i | 0 <= i < |path|
        ensures chain[i].Obj? && path[i] in chain[i].members && chain[i + 1] == chain[i].members[path[i]]
      {
        if i > 0 {
          assert path[i] == path[1..][i - 1] && chain[i] == rest[i - 1];
        }
      }
    }
  }

  lemma {:induction false} LeadsToPresence(given: Object, path: seq<string>, chain: seq<Json>)
    requires path != [] && Leads(chain, path) && chain[0] == Obj(given)
    ensures Presence(given, path) == Some(chain[|path|])
    decreases |path|
  {
    assert path[0] in given && chain[1] == given[path[0]];
    if |path| > 1 {
      assert chain[1].Obj?;
      assert Leads(chain[1..], path[1..]);
      LeadsToPresence(chain[1].members, path[1..], chain[1..]);
    }
  }

  /** A path finds exactly the value a chain of members leads to. */
  lemma PresenceMeans(given: Object, path: seq<string>, value: Json)
    requires path != []
    ensures Presence(given, path) == Some(value) <==> Reaches(Obj(given), path, value)
  {
    hide Presence;
    if Presence(given, path) == Some(value) {
      var chain := PresenceLeads(given, path);
    }
    if Reaches(Obj(given), path, value) {
      var chain :| Leads(chain, path) && chain[0] == Obj(given) && chain[|path|] == value;
      LeadsToPresence(given, path, chain);
    }
  }

  /** The caller sent this value under this argument: the pieces between its points lead to it. */
  ghost predicate Supplies(args: Object, argument: string, value: Json) {
    exists path :: CutAt(argument, '.', path) && Reaches(Obj(args), path, value)
  }

  lemma SuppliedExactly(args: Object, argument: string, value: Json)
    ensures ArgumentPresence(args, argument) == Some(value) <==> Supplies(args, argument, value)
  {
    hide Presence, Reaches, CutAt;
    var path := Split(argument, '.');
    SplitExactly(argument, '.', path);
    PresenceMeans(args, path, value);
    if Supplies(args, argument, value) {
      var cut :| CutAt(argument, '.', cut) && Reaches(Obj(args), cut, value);
      SplitExactly(argument, '.', cut);
    }
  }

  /** For every conditional argument registration admits, normalization supplies a value there exactly
      when the caller did, and it is what the caller sent with its own defaults. */
  lemma PresenceIsTheCallers(schema: Schema, args: Object, argument: string)
    requires PresentArgument(schema, argument).Some?
    ensures (exists value :: Supplies(FillMembers(schema, args), argument, value))
       <==> (exists value :: Supplies(args, argument, value))
    ensures forall sent, held | Supplies(args, argument, sent) && Supplies(FillMembers(schema, args), argument, held) ::
              held == FillValue(PresentArgument(schema, argument).value, sent) && Kept(sent, held)
  {
    hide Supplies, FillMembers, FillValue, Presence, Kept, PresentLeaf;
    var path := Split(argument, '.');
    var filled := FillMembers(schema, args);
    LeafPresence(schema, args, path);
    forall value
      ensures Supplies(args, argument, value) <==> ArgumentPresence(args, argument) == Some(value)
      ensures Supplies(filled, argument, value) <==> ArgumentPresence(filled, argument) == Some(value)
    {
      SuppliedExactly(args, argument, value);
      SuppliedExactly(filled, argument, value);
    }
    if Presence(args, path).Some? {
      FillKeeps(PresentLeaf(schema, path).value, Presence(args, path).value);
      assert Supplies(args, argument, Presence(args, path).value);
      assert Supplies(filled, argument, Presence(filled, path).value);
    }
  }

  // --- Conformance --------------------------------------------------------------------------------

  /** Every declared member conforms or may be absent, and nothing else is there in a closed schema. */
  predicate ValidObject(doors: Doors, schema: Schema, given: Object, service: bool) {
    && (forall k | k in schema.fields ::
          if k in given then Conforms(doors, schema.fields[k], given[k], service)
          else !schema.fields[k].required)
    && (!schema.additional ==> given.Keys <= schema.fields.Keys)
  }

  predicate LengthFits(field: Field, n: nat) {
    && (field.minLength.Some? ==> field.minLength.value <= n)
    && (field.maxLength.Some? ==> n <= field.maxLength.value)
  }

  predicate AboveMin(doors: Doors, n: Number.Number, bound: Option<Number.Number>, service: bool) {
    bound.Some? ==>
      if service then
        var value, limit := OfNumber(doors, n), OfLiteral(doors, bound.value);
        value.Some? && limit.Some? && !value.value.CompareTo(limit.value).Less?
      else !Number.Order(n, bound.value).Less?
  }

  predicate BelowMax(doors: Doors, n: Number.Number, bound: Option<Number.Number>, service: bool) {
    bound.Some? ==>
      if service then
        var value, limit := OfNumber(doors, n), OfLiteral(doors, bound.value);
        value.Some? && limit.Some? && !value.value.CompareTo(limit.value).Greater?
      else !Number.Order(n, bound.value).Greater?
  }

  /** Inside the bounds, and under the service rules observable at all. */
  predicate NumberFits(doors: Doors, field: Field, n: Number.Number, service: bool) {
    && (service ==> OfNumber(doors, n).Some?)
    && AboveMin(doors, n, field.min, service) && BelowMax(doors, n, field.max, service)
  }

  /** Whether a number is in the integer range of the rules it is read under. */
  predicate IntegerFits(n: Number.Number, service: bool) {
    AsI64(n).Some? || (!service && AsU64(n).Some?)
  }

  predicate Conforms(doors: Doors, field: Field, value: Json, service: bool) {
    match field.kind
    case StringKind => value.Str? && LengthFits(field, |value.text|)
    case IntegerKind =>
      value.Num? && IntegerFits(value.number, service) && NumberFits(doors, field, value.number, service)
    case NumberKind => value.Num? && NumberFits(doors, field, value.number, service)
    case Binary64Kind => value.Num? && NumberFits(doors, field, value.number, service)
    case MapKind =>
      && value.Obj?
      && (forall k | k in value.members :: doors.mapKey(field.key, k))
      && (field.items.Some? ==>
            forall k | k in value.members :: Conforms(doors, field.items.value, value.members[k], service))
    case UnionKind =>
      && value.Obj?
      && var (tag, content) := (TagKey(field), ContentKey(field));
      && value.members.Keys <= {tag, content}
      && tag in value.members && value.members[tag].Str?
      && value.members[tag].text in field.variants
      && var variant := field.variants[value.members[tag].text];
      && (if content in value.members then Conforms(doors, variant, value.members[content], service)
          else !variant.required)
    case BooleanKind => value.Bool?
    case EnumKind => value.Str? && value.text in field.values
    case ArrayKind =>
      && value.Arr?
      && (field.items.Some? ==>
            forall i | 0 <= i < |value.elements| ::
              Conforms(doors, field.items.value, value.elements[i], service))
    case ObjectKind =>
      && value.Obj?
      && ValidObject(doors, field.properties, value.members, service)
    case JsonKind => true
    case RefKind => value.Str? && !Blank(value.text)
  }

  /** Defaults filled, then checked: what every command is decided on. */
  function Normalize(doors: Doors, schema: Schema, input: Json, service: bool): Option<Object> {
    if !input.Obj? then None
    else
      var given := FillMembers(schema, input.members);
      if ValidObject(doors, schema, given, service) then Some(given) else None
  }

  /** What was normalized once normalizes to itself. */
  lemma NormalizeIdempotent(doors: Doors, schema: Schema, input: Json, service: bool)
    requires Normalize(doors, schema, input, service).Some?
    ensures var given := Normalize(doors, schema, input, service).value;
            Normalize(doors, schema, Obj(given), service) == Some(given)
  {
    FillIdempotent(schema, input.members);
  }

  // --- Declarations -------------------------------------------------------------------------------

  predicate Numeric(kind: Kind) {
    kind.IntegerKind? || kind.NumberKind? || kind.Binary64Kind?
  }

  /** Each constraint only where its kind reads it, and the constraints a kind cannot do without. */
  predicate Applicable(field: Field) {
    && (field.minLength.Some? || field.maxLength.Some? ==> field.kind.StringKind?)
    && (field.min.Some? || field.max.Some? ==> Numeric(field.kind))
    && (field.values != [] <==> field.kind.EnumKind?)
    && (field.items.Some? <==> field.kind.ArrayKind? || field.kind.MapKind?)
    && (!field.properties.Empty() ==> field.kind.ObjectKind?)
    && (field.tag.Some? <==> field.kind.UnionKind?)
    && (field.variants != map[] <==> field.kind.UnionKind?)
    && (field.tag.Some? ==> !Blank(field.tag.value))
  }

  predicate BoundsDeclared(doors: Doors, field: Field, service: bool) {
    && (field.minLength.Some? && field.maxLength.Some? ==> field.minLength.value <= field.maxLength.value)
    && (field.min.Some? && field.max.Some? ==> !Number.Order(field.min.value, field.max.value).Greater?)
    && (service && field.min.Some? ==> OfLiteral(doors, field.min.value).Some?)
    && (service && field.max.Some? ==> OfLiteral(doors, field.max.value).Some?)
  }

  /** What registration asks of one declaration and everything declared inside it. */
  predicate FieldDeclared(doors: Doors, field: Field, service: bool) {
    && Applicable(field) && BoundsDeclared(doors, field, service)
    && (field.kind.MapKind? || field.kind.UnionKind? || field.kind.Binary64Kind? ==> service)
    && (field.items.Some? ==> FieldDeclared(doors, field.items.value, service))
    && (forall k | k in field.properties.fields :: FieldDeclared(doors, field.properties.fields[k], service))
    && (forall k | k in field.variants :: FieldDeclared(doors, field.variants[k], service))
    && (field.default.Some? ==> Conforms(doors, field, FillValue(field, field.default.value), service))
  }

  predicate SchemaDeclared(doors: Doors, schema: Schema, service: bool) {
    forall k | k in schema.fields :: FieldDeclared(doors, schema.fields[k], service)
  }

  /** Filling defaults into what conforms leaves something that conforms. */
  lemma {:induction false} FillConforms(doors: Doors, field: Field, value: Json, service: bool)
    requires FieldDeclared(doors, field, service) && Conforms(doors, field, value, service)
    ensures Conforms(doors, field, FillValue(field, value), service)
  {
    hide NumberFits, LengthFits, Blank, Applicable, BoundsDeclared;
    if field.kind.ObjectKind? {
      FillValid(doors, field.properties, value.members, service);
    } else if field.kind.ArrayKind? && field.items.Some? {
      forall i | 0 <= i < |value.elements|
        ensures Conforms(doors, field.items.value, FillValue(field.items.value, value.elements[i]), service)
      {
        FillConforms(doors, field.items.value, value.elements[i], service);
      }
    }
  }

  lemma {:induction false} FillValid(doors: Doors, schema: Schema, given: Object, service: bool)
    requires SchemaDeclared(doors, schema, service) && ValidObject(doors, schema, given, service)
    ensures ValidObject(doors, schema, FillMembers(schema, given), service)
  {
    hide Conforms, FillValue, FieldDeclared;
    forall k | k in schema.fields
      ensures k in FillMembers(schema, given) ==>
                Conforms(doors, schema.fields[k], FillMembers(schema, given)[k], service)
    {
      if k in given {
        FillConforms(doors, schema.fields[k], given[k], service);
      } else if schema.fields[k].default.Some? {
        DefaultConforms(doors, schema.fields[k], service);
      }
    }
  }

  lemma DefaultConforms(doors: Doors, field: Field, service: bool)
    requires FieldDeclared(doors, field, service) && field.default.Some?
    ensures Conforms(doors, field, FillValue(field, field.default.value), service)
  {
  }

  /** A command that leaves out every defaulted member is as valid as one that spells the defaults. */
  lemma OmittedDefaults(doors: Doors, schema: Schema, given: Object, service: bool)
    requires SchemaDeclared(doors, schema, service) && (!schema.additional ==> given.Keys <= schema.fields.Keys)
    requires forall k | k in schema.fields ::
               if k in given then Conforms(doors, schema.fields[k], given[k], service)
               else schema.fields[k].required ==> schema.fields[k].default.Some?
    ensures Normalize(doors, schema, Obj(given), service) == Some(FillMembers(schema, given))
  {
    hide Conforms, FillValue, FieldDeclared;
    forall k | k in schema.fields
      ensures if k in FillMembers(schema, given)
              then Conforms(doors, schema.fields[k], FillMembers(schema, given)[k], service)
              else !schema.fields[k].required
    {
      if k in given {
        FillConforms(doors, schema.fields[k], given[k], service);
      } else if schema.fields[k].default.Some? {
        DefaultConforms(doors, schema.fields[k], service);
      }
    }
  }
}
