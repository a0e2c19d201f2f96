/** A registered increment always has two numbers to add: it yields their exact sum or says that the
    field cannot hold it. */
module Increments {
  import opened Prelude
  import opened Digits
  import opened Number
  import opened Definition
  import opened Reading
  import opened Paths
  import opened Evaluator
  import opened Scopes
  import opened Values
  import opened Runtime
  import opened Registration
  import opened Traces
  import opened Safety
  import Sum

  // --- Integers -----------------------------------------------------------------------------------

  /** A number text that is an integer is worth that integer. */
  lemma IntegerWorth(n: Number)
    requires IsInteger(n)
    ensures Value(n) == IntegerValue(n) as real
  {
    var unsigned := DropMinus(n);
    assert AllDigits(unsigned) by {
      PlusIsNoNumber(n);
    }
    SplitOnceNowhere(unsigned, IsExponentMark);
    SplitOnceNowhere(unsigned, IsPoint);
    assert DigitsOf(unsigned) + DigitsOf("") == DigitsOf(unsigned);
    assert DigitsOf("0") == [0] && [0][..0] == [];
    assert Lex(n) == Token(Negative(n), unsigned, "", "0");
  }

  /** A number never begins with a plus. */
  lemma PlusIsNoNumber(n: Number)
    ensures n != [] && n[0] != '+'
  {
    if n != [] && n[0] == '+' {
      assert DropMinus(n) == n;
      StartsWhole(n);
    }
  }

  lemma StartsWhole(s: string)
    requires s != [] && s[0] == '+' && !Negative(s)
    ensures Lex(s).whole != [] && Lex(s).whole[0] == '+'
  {
    FirstIndexIsFirst(s, IsExponentMark);
    var mantissa := if SplitOnce(s, IsExponentMark).Some? then SplitOnce(s, IsExponentMark).value.0 else s;
    assert mantissa != [] && mantissa[0] == '+';
    FirstIndexIsFirst(mantissa, IsPoint);
  }

  lemma IntegerOfWorth(n: Number)
    requires IntegerOf(n).Some?
    ensures Value(n) == IntegerOf(n).value as real
  {
    IntegerWorth(n);
  }

  /** A count fits where a machine can hold what is counted. */
  lemma CountIsInteger(n: nat)
    requires n <= U64_MAX
    ensures CountOf(n).Num? && IntegerOf(CountOf(n).number) == Some(n)
  {
    hide IntegerNumber, IntegerValue, IsInteger, IsNumber;
    if n > I64_MAX {
      NotNegative(IntegerNumber(n));
    }
  }

  lemma NotNegative(number: Number)
    requires IsInteger(number) && IntegerValue(number) > 0
    ensures !Negative(number)
  {
  }

  // --- Paths that are always present --------------------------------------------------------------

  /** Every list, map and text a value holds has a size a machine word counts. */
  predicate Sized(value: Json) {
    match value
    case Str(text) => |text| <= U64_MAX
    case Arr(elements) => |elements| <= U64_MAX && forall i | 0 <= i < |elements| :: Sized(elements[i])
    case Obj(members) => |members| <= U64_MAX && forall k | k in members :: Sized(members[k])
    case _ => true
  }

  /** A number, and an integer where the declaration says so. */
  predicate IsNumeric(value: Option<Json>, kind: Kind) {
    && value.Some? && value.value.Num?
    && (kind.IntegerKind? ==> IntegerOf(value.value.number).Some?)
  }

  lemma ConformingNumber(doors: Doors, field: Field, value: Json, service: bool)
    requires Conforms(doors, field, value, service) && (field.kind.IntegerKind? || field.kind.NumberKind?)
    ensures IsNumeric(Some(value), field.kind)
  {
    hide NumberFits;
  }

  /** A member that is required, or defaulted and filled, is there. */
  lemma MemberIsPresent(doors: Doors, schema: Schema, given: Object, k: string, fills: bool, service: bool)
    requires ValidObject(doors, schema, given, service) && (fills ==> FillMembers(schema, given) == given)
    requires k in schema.fields && (schema.fields[k].required || (fills && schema.fields[k].default.Some?))
    ensures k in given && Conforms(doors, schema.fields[k], given[k], service)
    ensures fills && schema.fields[k].kind.ObjectKind? && given[k].Obj? ==>
              FillMembers(schema.fields[k].properties, given[k].members) == given[k].members
  {
    hide Conforms;
    if fills {
      assert k in FillMembers(schema, given);
      assert FillMembers(schema, given)[k] == FillValue(schema.fields[k], Supplied(schema, given, k).value);
    }
  }

  lemma CountedWalk(doors: Doors, field: Field, value: Json)
    requires Conforms(doors, field, value, true) && Sized(value)
    requires field.kind.ArrayKind? || field.kind.MapKind? || field.kind.StringKind?
    ensures IsNumeric(Walk(value, ["count"], Some(field), true, true, FromRoot), IntegerKind)
  {
    hide Conforms, CountOf, IndexOf;
    ShapeOfCounted(doors, field, value);
    CountIsInteger(match value case Str(t) => |t| case Arr(e) => |e| case Obj(m) => |m| case _ => 0);
  }

  lemma ShapeOfCounted(doors: Doors, field: Field, value: Json)
    requires Conforms(doors, field, value, true)
    ensures field.kind.ArrayKind? ==> value.Arr?
    ensures field.kind.MapKind? ==> value.Obj?
    ensures field.kind.StringKind? ==> value.Str?
    ensures field.kind.ObjectKind? ==> value.Obj? && ValidObject(doors, field.properties, value.members, true)
  {
    hide LengthFits;
  }

  lemma ObjectConforms(doors: Doors, field: Field, value: Json, service: bool)
    requires Conforms(doors, field, value, service) && field.kind.ObjectKind?
    ensures value.Obj? && ValidObject(doors, field.properties, value.members, service)
  {
  }

  /** One step inside a declared object is the member's own walk. */
  lemma ObjectStep(field: Field, value: Json, path: seq<string>, service: bool)
    requires path != [] && field.kind.ObjectKind? && value.Obj? && path[0] in value.members
    requires path[0] in field.properties.fields
    ensures Walk(value, path, Some(field), true, service, FromRoot) ==
              if |path| == 1 then Some(value.members[path[0]])
              else Walk(value.members[path[0]], path[1..], Some(field.properties.fields[path[0]]), true, service,
                        FromRoot)
  {
    hide CountOf, IndexOf;
  }

  /** A path registration finds numeric reaches a number, whatever conforming value it is walked in. */
  lemma {:induction false} MembersWalk(doors: Doors, schema: Schema, given: Object, path: seq<string>, fills: bool,
                                       service: bool, found: Kind)
    requires path != [] && NumericAt(schema, path, fills, service) == Some(found)
    requires found.IntegerKind? || found.NumberKind?
    requires ValidObject(doors, schema, given, service) && (fills ==> FillMembers(schema, given) == given)
    requires forall k | k in given :: Sized(given[k])
    ensures path[0] in schema.fields && path[0] in given
    ensures IsNumeric(if |path| == 1 then Some(given[path[0]])
                      else Walk(given[path[0]], path[1..], Some(schema.fields[path[0]]), true, service, FromRoot),
                      found)
    decreases |path|
  {
    hide Conforms, ValidObject, FillMembers, Walk, IsNumeric;
    var k, declared := path[0], schema.fields[path[0]];
    MemberIsPresent(doors, schema, given, k, fills, service);
    if |path| == 1 {
      ConformingNumber(doors, declared, given[k], service);
    } else if service && |path| == 2 && path[1] == "count"
              && (declared.kind.ArrayKind? || declared.kind.MapKind? || declared.kind.StringKind?) {
      assert path[1..] == ["count"];
      CountedWalk(doors, declared, given[k]);
    } else {
      ObjectConforms(doors, declared, given[k], service);
      MembersWalk(doors, declared.properties, given[k].members, path[1..], fills, service, found);
      ObjectStep(declared, given[k], path[1..], service);
      assert path[1..][1..] == path[2..];
    }
  }

  // --- The amount ---------------------------------------------------------------------------------

  lemma VersionReference()
    ensures ReferenceOf("$version") == Reference(VersionRoot, None)
  {
    var s := "$version";
    assert s[1..] == "version";
    SplitOnceNowhere("version", IsDot());
  }

  /** The step-8 context of a schema-valid instance and normalized arguments. */
  ghost predicate Ready(doors: Doors, definition: Definition, ctx: Context) {
    var service := definition.semantics.Service();
    && ctx.doors == doors && ctx.definition == definition && ctx.id.Some?
    && ctx.newFields == ctx.oldFields && ctx.argumentsSchema.Some?
    && definition.version <= U32_MAX
    && ValidObject(doors, definition.schema, ctx.oldFields, service)
    && ValidObject(doors, ctx.argumentsSchema.value, ctx.args, service)
    && FillMembers(ctx.argumentsSchema.value, ctx.args) == ctx.args
    && (forall k | k in ctx.oldFields :: Sized(ctx.oldFields[k]))
    && (forall k | k in ctx.args :: Sized(ctx.args[k]))
  }

  lemma RootPathNotEmpty(schema: Schema, path: seq<string>, service: bool)
    requires path != [] && RootPathAccepted(schema, path, service)
    ensures path[0] != []
  {
    hide PathAccepted;
  }

  lemma NumericLookUp(doors: Doors, schema: Schema, given: Object, path: seq<string>, fills: bool, service: bool,
                      found: Kind)
    requires path != [] && path[0] != [] && NumericAt(schema, path, fills, service) == Some(found)
    requires found.IntegerKind? || found.NumberKind?
    requires ValidObject(doors, schema, given, service) && (fills ==> FillMembers(schema, given) == given)
    requires forall k | k in given :: Sized(given[k])
    ensures IsNumeric(LookUp(given, path, Some(schema), service), found)
  {
    hide Conforms, ValidObject, FillMembers, Walk, IsNumeric, NumericAt;
    MembersWalk(doors, schema, given, path, fills, service, found);
  }

  /** A path registration finds numeric starts at the arguments or at the fields. */
  lemma NumericPath(s: string, scope: Scope, found: Kind)
    requires scope.names.NoName? && IsReference(s) && s != "$version" && ReferenceAccepted(s, scope)
    requires PresentNumericKind(s, scope) == Some(found)
    ensures var (r, service) := (ReferenceOf(s), scope.semantics.Service());
            && r.Reference? && r.path.Some? && r.path.value != [] && r.path.value[0] != []
            && if r.root.ArgsRoot? then
                 scope.args.Some? && NumericAt(scope.args.value, r.path.value, true, service) == Some(found)
               else
                 && (r.root.FieldsRoot? || r.root.OldFieldsRoot?)
                 && NumericAt(scope.fields, r.path.value, false, service) == Some(found)
  {
    hide NumericAt, RootPathAccepted, ReferenceOf;
    var r := ReferenceOf(s);
    RootPathNotEmpty(if r.root.ArgsRoot? then scope.args.value else scope.fields, r.path.value,
                     scope.semantics.Service());
  }

  lemma ReferencedAmount(doors: Doors, definition: Definition, s: string, scope: Scope, ctx: Context, found: Kind)
    requires Ready(doors, definition, ctx) && scope == ScopeOf(definition, OperationTemplate, ctx.argumentsSchema)
    requires IsReference(s) && ReferenceAccepted(s, scope)
    requires PresentNumericKind(s, scope) == Some(found) && (found.IntegerKind? || found.NumberKind?)
    ensures Resolve(s, ctx, NoBinding).Ok? && IsNumeric(Resolve(s, ctx, NoBinding).value, found)
  {
    hide ValidObject, FillMembers, LookUp, IsNumeric, NumericAt, CountOf, ReferenceOf, Sized, ReferenceAccepted,
         Head, Tail;
    var service := definition.semantics.Service();
    if s == "$version" {
      VersionReference();
      CountIsInteger(definition.version);
      VersionAmount(ctx);
    } else {
      hide PresentNumericKind;
      NumericPath(s, scope, found);
      var r := ReferenceOf(s);
      if r.root.ArgsRoot? {
        NumericLookUp(doors, ctx.argumentsSchema.value, ctx.args, r.path.value, true, service, found);
      } else {
        NumericLookUp(doors, definition.schema, ctx.oldFields, r.path.value, false, service, found);
      }
    }
  }

  lemma VersionAmount(ctx: Context)
    requires ctx.definition.version <= U64_MAX
    ensures IsNumeric(Some(CountOf(ctx.definition.version)), IntegerKind)
  {
    hide CountOf;
    CountIsInteger(ctx.definition.version);
  }

  /** A registered amount resolves to a number of a kind the field adds. */
  lemma AmountResolves(doors: Doors, definition: Definition, amount: Json, kind: Kind, scope: Scope, ctx: Context)
    returns (added: Number)
    requires Ready(doors, definition, ctx) && scope == ScopeOf(definition, OperationTemplate, ctx.argumentsSchema)
    requires AmountAccepted(doors, amount, kind, scope)
    ensures ResolveTemplate(amount, ctx) == Ok(Num(added))
    ensures kind.IntegerKind? ==> IntegerOf(added).Some?
  {
    hide Ready, ReferenceAccepted, PresentNumericKind, Resolve;
    match amount
    case Num(n) => added := n;
    case Str(s) =>
      ReferencedAmount(doors, definition, s, scope, ctx, PresentNumericKind(s, scope).value);
      added := Resolve(s, ctx, NoBinding).value.value.number;
  }

  // --- Progress -----------------------------------------------------------------------------------

  lemma RangedWorth(sum: int, service: bool)
    requires Ranged(sum, service).Some?
    ensures Ranged(sum, service).value.Num? && Value(Ranged(sum, service).value.number) == sum as real
  {
    hide IntegerNumber;
    IntegerWorth(IntegerNumber(sum));
  }

  /** The field an increment adds to holds a number of its kind. */
  lemma HeldNumber(doors: Doors, definition: Definition, field: string, ctx: Context)
    requires Ready(doors, definition, ctx) && field in definition.schema.fields
    requires definition.schema.fields[field].required
    requires definition.schema.fields[field].kind.IntegerKind? || definition.schema.fields[field].kind.NumberKind?
    ensures field in ctx.oldFields
    ensures IsNumeric(Some(ctx.oldFields[field]), definition.schema.fields[field].kind)
  {
    hide Conforms, FillMembers;
    ConformingNumber(doors, definition.schema.fields[field], ctx.oldFields[field], definition.semantics.Service());
  }

  lemma IntegerIncrement(operation: string, field: string, amount: Json, ctx: Context, held: Number, added: Number)
    requires field in ctx.oldFields && ctx.oldFields[field] == Num(held)
    requires ResolveTemplate(amount, ctx) == Ok(Num(added))
    requires field in ctx.definition.schema.fields && ctx.definition.schema.fields[field].kind.IntegerKind?
    requires IntegerOf(held).Some? && IntegerOf(added).Some?
    ensures var r := Incremented(operation, field, amount, ctx);
            var sum := IntegerOf(held).value + IntegerOf(added).value;
            if I64_MIN <= sum <= (if ctx.Service() then I64_MAX else U64_MAX)
            then r.Ok? && r.value.Num? && Value(r.value.number) == Value(held) + Value(added)
            else r == Err(IncrementOverflow(operation, field))
  {
    hide ResolveTemplate, Sum.ExactSum, Ranged, IntegerOf, Value, IsNumber;
    var sum := IntegerOf(held).value + IntegerOf(added).value;
    IntegerOfWorth(held);
    IntegerOfWorth(added);
    IntegerRange(sum, ctx.Service());
  }

  /** A `number` field can hold the sum: both exponents fit, the operands span at most 1,024 places, and
      the service rules can observe what they add up to. */
  predicate Addable(doors: Doors, held: Number, added: Number, service: bool) {
    && Sum.ExponentFits(Lex(held)) && Sum.ExponentFits(Lex(added))
    && Sum.PlacesSpanned(Lex(held), Lex(added)) <= Sum.MAX_SUM_PLACES
    && (service ==> Sum.ExactSum(held, added).Some? && IsNumber(Sum.ExactSum(held, added).value)
                    && OfNumber(doors, Sum.ExactSum(held, added).value).Some?)
  }

  lemma NumberIncrement(operation: string, field: string, amount: Json, ctx: Context, held: Number, added: Number)
    requires field in ctx.oldFields && ctx.oldFields[field] == Num(held)
    requires ResolveTemplate(amount, ctx) == Ok(Num(added))
    requires field in ctx.definition.schema.fields && ctx.definition.schema.fields[field].kind.NumberKind?
    ensures var r := Incremented(operation, field, amount, ctx);
            if Addable(ctx.doors, held, added, ctx.Service())
            then r.Ok? && r.value.Num? && Value(r.value.number) == Value(held) + Value(added)
            else r == Err(IncrementOverflow(operation, field))
  {
    hide ResolveTemplate, Sum.ExactSum, Ranged, IntegerOf, Value, IsNumber, OfNumber, Lex, Sum.ExponentFits,
         Sum.PlacesSpanned;
    Sum.SumDefined(held, added);
    if Sum.ExactSum(held, added).Some? {
      Sum.SumIsExact(held, added);
    }
  }

  /** For a registered increment, a schema-valid instance and normalized arguments, step 8 writes the
      exact sum of two numbers or answers that the field cannot hold it, and nothing else. An integer
      overflows exactly when the sum leaves the range of the rules it is read under; any other number
      exactly when its operands cannot be added, or the service rules cannot observe what they add up
      to. */
  lemma IncrementProgress(doors: Doors, definition: Definition, operation: string, field: string, value: Json,
                          ctx: Context)
    returns (held: Number, added: Number)
    requires Ready(doors, definition, ctx) && AssignmentOf(value).Increment?
    requires SetEntryAccepted(doors, definition, field, value,
                              ScopeOf(definition, OperationTemplate, ctx.argumentsSchema))
    ensures field in ctx.oldFields && ctx.oldFields[field] == Num(held)
    ensures ResolveTemplate(AssignmentOf(value).amount, ctx) == Ok(Num(added))
    ensures var r := AssignedValue(operation, field, value, ctx);
            || (&& r.Ok? && r.value.Put? && r.value.value.Num?
                && Value(r.value.value.number) == Value(held) + Value(added))
            || r == Err(IncrementOverflow(operation, field))
    ensures definition.schema.fields[field].kind.NumberKind? ==>
              (AssignedValue(operation, field, value, ctx).Ok?
               <==> Addable(doors, held, added, definition.semantics.Service()))
    ensures definition.schema.fields[field].kind.IntegerKind? ==>
              && IntegerOf(held).Some? && IntegerOf(added).Some?
              && (AssignedValue(operation, field, value, ctx).Ok?
                  <==> I64_MIN <= IntegerOf(held).value + IntegerOf(added).value
                               <= if definition.semantics.Service() then I64_MAX else U64_MAX)
  {
    hide Ready, AmountAccepted, ResolveTemplate, Incremented, Value, IsNumber, OfNumber, IntegerOf, Addable;
    var fields := definition.schema.fields;
    var amount := AssignmentOf(value).amount;
    var scope := ScopeOf(definition, OperationTemplate, ctx.argumentsSchema);
    HeldNumber(doors, definition, field, ctx);
    held := ctx.oldFields[field].number;
    added := AmountResolves(doors, definition, amount, fields[field].kind, scope, ctx);
    ReadyContext(doors, definition, ctx);
    if fields[field].kind.IntegerKind? {
      IntegerIncrement(operation, field, amount, ctx, held, added);
    } else {
      NumberIncrement(operation, field, amount, ctx, held, added);
    }
  }

  lemma ReadyContext(doors: Doors, definition: Definition, ctx: Context)
    requires Ready(doors, definition, ctx)
    ensures ctx.definition == definition && ctx.doors == doors
  {
    hide ValidObject, FillMembers, Sized;
  }

  lemma IntegerRange(sum: int, service: bool)
    ensures Ranged(sum, service).Some? <==> I64_MIN <= sum <= if service then I64_MAX else U64_MAX
    ensures Ranged(sum, service).Some? ==>
              Ranged(sum, service).value.Num? && Value(Ranged(sum, service).value.number) == sum as real
  {
    hide IntegerNumber;
    if Ranged(sum, service).Some? {
      RangedWorth(sum, service);
    }
  }

  // --- In a decision ------------------------------------------------------------------------------

  lemma BranchAssigns(doors: Doors, definition: Definition, instance: Instance, name: string, branch: Branch,
                      outcome: Option<Outcome>)
    requires Registered(doors, definition) && name in definition.operations
    requires Origin(instance, definition.operations[name], branch, outcome)
    ensures SetAccepted(doors, definition, branch.assigns,
                        ScopeOf(definition, OperationTemplate, Some(definition.operations[name].arguments)))
  {
    hide Registered, SetAccepted, RuleAccepted, EventAccepted, RespondsAccepted, ConditionalAccepted,
         FulfillmentAccepted, OutcomeSound, TransitionsSound, OutcomesSound, SchemaDeclared, MoveSources;
    RegisteredOperation(doors, definition, name);
    if outcome.Some? {
      RegisteredOutcome(doors, definition, name, outcome.value);
    }
  }

  lemma StepEightIsReady(doors: Doors, definition: Definition, instance: Instance, operation: Operation,
                         input: Json, args: Object, toState: string)
    requires Registered(doors, definition) && Safe(doors, definition, instance)
    requires Normalize(doors, operation.arguments, input, definition.semantics.Service()) == Some(args)
    requires forall k | k in instance.fields :: Sized(instance.fields[k])
    requires forall k | k in args :: Sized(args[k])
    ensures Ready(doors, definition, BeforeContext(doors, definition, instance, operation, args, toState))
  {
    hide CheckIdentity, CheckInvariants, ValidObject, FillMembers, Sized, OperationAccepted, CreationAccepted,
         InvariantsAccepted, LadderSound, KernelOnly, IdentityAccepted, SchemaDeclared;
    FillIdempotent(operation.arguments, input.members);
  }

  /** No increment of an admitted branch, on a reachable instance and with arguments that normalize, finds
      an operand missing or mistyped. */
  lemma NoIncrementIsStuck(doors: Doors, definition: Definition, instance: Instance, name: string, input: Json,
                           args: Object, branch: Branch, outcome: Option<Outcome>, field: string)
    requires Registered(doors, definition) && Safe(doors, definition, instance)
    requires name in definition.operations
    requires Normalize(doors, definition.operations[name].arguments, input, definition.semantics.Service())
          == Some(args)
    requires Origin(instance, definition.operations[name], branch, outcome)
    requires field in branch.assigns && AssignmentOf(branch.assigns[field]).Increment?
    requires forall k | k in instance.fields :: Sized(instance.fields[k])
    requires forall k | k in args :: Sized(args[k])
    ensures var ctx := BeforeContext(doors, definition, instance, definition.operations[name], args, branch.toState);
            var r := AssignedValue(name, field, branch.assigns[field], ctx);
            r.Err? ==> r.error == IncrementOverflow(name, field)
  {
    hide Registered, Safe, Normalize, Origin, Ready, SetEntryAccepted, AssignedValue, Sized;
    var operation := definition.operations[name];
    var ctx := BeforeContext(doors, definition, instance, operation, args, branch.toState);
    BranchAssigns(doors, definition, instance, name, branch, outcome);
    StepEightIsReady(doors, definition, instance, operation, input, args, branch.toState);
    var held, added := IncrementProgress(doors, definition, name, field, branch.assigns[field], ctx);
  }
}
