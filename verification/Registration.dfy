/** What a definition must satisfy before the kernel runs it: the rules later evaluation rests on. */
module Registration {
  import opened Prelude
  import opened Definition
  import opened Reading
  import opened Paths
  import opened Evaluator
  import opened Scopes
  import opened Values
  import opened Runtime

  function ScopeOf(definition: Definition, kind: ScopeKind, args: Option<Schema>): Scope {
    Scope(kind, definition.schema, args, NoName, definition.semantics)
  }

  predicate Distinct(names: seq<string>) {
    forall i, j | 0 <= i < j < |names| :: names[i] != names[j]
  }

  // --- The ladder ---------------------------------------------------------------------------------

  predicate LadderSound(definition: Definition) {
    && definition.initial in definition.states
    && Distinct(definition.states)
    && forall s | s in definition.states :: !Blank(s)
  }

  /** Declared states, and no state two transitions of one operation start from. */
  predicate TransitionsSound(definition: Definition, transitions: seq<Transition>) {
    transitions != [] ==>
      && transitions[0].to in definition.states
      && transitions[0].from != [] && Distinct(transitions[0].from)
      && (forall s | s in transitions[0].from ::
            s in definition.states && TransitionFrom(transitions[1..], s).None?)
      && TransitionsSound(definition, transitions[1..])
  }

  /** What only a service definition may carry. */
  predicate KernelOnly(definition: Definition) {
    && definition.identity.None? && definition.scales == map[]
    && definition.create.arguments.Empty() && definition.create.response.Empty()
    && definition.create.outcomes == []
    && forall n | n in definition.operations ::
         definition.operations[n].response.Empty() && definition.operations[n].outcomes == []
  }

  // --- Identity -----------------------------------------------------------------------------------

  /** Whether a `json` leaf occurs anywhere in a declared shape. */
  predicate CarriesJson(field: Field) {
    match field.kind
    case JsonKind => true
    case ObjectKind =>
      field.properties.additional
      || exists k | k in field.properties.fields :: CarriesJson(field.properties.fields[k])
    case ArrayKind => field.items.Some? && CarriesJson(field.items.value)
    case MapKind => field.items.Some? && CarriesJson(field.items.value)
    case UnionKind => exists k | k in field.variants :: CarriesJson(field.variants[k])
    case _ => false
  }

  /** A required field whose every value has an address. */
  predicate IdentityAccepted(definition: Definition) {
    definition.identity.Some? ==>
      && definition.identity.value in definition.schema.fields
      && definition.schema.fields[definition.identity.value].required
      && !CarriesJson(definition.schema.fields[definition.identity.value])
  }

  // --- Assignments --------------------------------------------------------------------------------

  /** The declared kind a path reads where every segment of it is always present. */
  function NumericAt(schema: Schema, path: seq<string>, fills: bool, service: bool): Option<Kind>
    requires path != []
    decreases |path|
  {
    if path[0] !in schema.fields then None
    else
      var declared := schema.fields[path[0]];
      if !declared.required && !(fills && declared.default.Some?) then None
      else if |path| == 1 then Some(declared.kind)
      else if service && |path| == 2 && path[1] == "count"
              && (declared.kind.ArrayKind? || declared.kind.MapKind? || declared.kind.StringKind?)
      then Some(IntegerKind)
      else if declared.kind.ObjectKind? then NumericAt(declared.properties, path[1..], fills, service)
      else None
  }

  function PresentNumericKind(expression: string, scope: Scope): Option<Kind>
    requires expression != []
  {
    var service := scope.semantics.Service();
    if expression == "$version" then Some(IntegerKind)
    else
      match ReferenceOf(expression)
      case Reference(ArgsRoot, Some(path)) =>
        if scope.args.Some? then NumericAt(scope.args.value, path, true, service) else None
      case Reference(FieldsRoot, Some(path)) => NumericAt(scope.fields, path, false, service)
      case Reference(OldFieldsRoot, Some(path)) => NumericAt(scope.fields, path, false, service)
      case _ => None
  }

  predicate Adds(kind: Kind, found: Kind) {
    found.IntegerKind? || (found.NumberKind? && !kind.IntegerKind?)
  }

  predicate AmountAccepted(doors: Doors, amount: Json, kind: Kind, scope: Scope) {
    match amount
    case Num(n) =>
      if kind.IntegerKind? then IntegerFits(n, scope.semantics.Service())
      else scope.semantics.Service() ==> OfNumber(doors, n).Some?
    case Str(s) =>
      && IsReference(s) && ReferenceAccepted(s, scope)
      && PresentNumericKind(s, scope).Some? && Adds(kind, PresentNumericKind(s, scope).value)
    case _ => false
  }

  predicate SetEntryAccepted(doors: Doors, definition: Definition, field: string, value: Json, scope: Scope) {
    var fields := definition.schema.fields;
    && (field in fields || definition.schema.additional)
    && match AssignmentOf(value)
       case Template(template) => OperandAccepted(template, scope)
       case Increment(amount) =>
         && !scope.kind.CreateSet? && field in fields && fields[field].required
         && (fields[field].kind.IntegerKind? || fields[field].kind.NumberKind?)
         && AmountAccepted(doors, amount, fields[field].kind, scope)
       case Cleared(flag) =>
         !scope.kind.CreateSet? && field in fields && !fields[field].required && flag == Bool(true)
       case Conflicting => false
  }

  predicate SetAccepted(doors: Doors, definition: Definition, assigns: map<string, Json>, scope: Scope) {
    forall k | k in assigns :: SetEntryAccepted(doors, definition, k, assigns[k], scope)
  }

  // --- Conditional maps, events and fulfillment ---------------------------------------------------

  /** An optional, default-free destination with the complete definition of the leaf it copies. */
  predicate ConditionalTarget(target: map<string, Field>, field: string, schema: Schema, argument: string) {
    && PresentArgument(schema, argument).Some?
    && field in target && !target[field].required && target[field].default.None?
    && target[field] == PresentArgument(schema, argument).value
  }

  predicate EventAccepted(event: EventTemplate, args: Schema, scope: Scope) {
    && !Blank(event.eventType) && OperandAccepted(event.payload, scope)
    && (event.payloadIfPresent != map[] ==> scope.semantics.ConditionalPresence() && event.payload.Obj?)
    && forall k | k in event.payloadIfPresent ::
         && !Blank(k) && PresentArgument(args, event.payloadIfPresent[k]).Some?
         && k !in event.payload.members
  }

  predicate ConditionalAccepted(definition: Definition, outcome: Outcome, args: Schema, response: Schema) {
    && (outcome.setIfPresent != map[] || outcome.respondsIfPresent != map[] ==>
          definition.semantics.ConditionalPresence())
    && outcome.setIfPresent.Keys !! outcome.assigns.Keys
    && outcome.respondsIfPresent.Keys !! outcome.responds.Keys
    && (forall k | k in outcome.setIfPresent ::
          ConditionalTarget(definition.schema.fields, k, args, outcome.setIfPresent[k]))
    && (forall k | k in outcome.respondsIfPresent ::
          ConditionalTarget(response.fields, k, args, outcome.respondsIfPresent[k]))
  }

  /** Host actions only on declared fields nothing else of the branch writes, never the identity. */
  predicate FulfillmentAccepted(definition: Definition, outcome: Outcome) {
    && (outcome.fulfills != map[] ==> definition.semantics.Fulfillment())
    && outcome.fulfills.Keys !! outcome.assigns.Keys && outcome.fulfills.Keys !! outcome.setIfPresent.Keys
    && forall k | k in outcome.fulfills ::
         && k in definition.schema.fields && definition.identity != Some(k)
         && (outcome.fulfills[k].MustStay? <==> definition.schema.fields[k].required)
  }

  predicate RespondsAccepted(outcome: Outcome, response: Schema, scope: Scope) {
    && (forall k | k in outcome.responds ::
          (k in response.fields || response.additional) && OperandAccepted(outcome.responds[k], scope))
    && (outcome.refuses.None? ==>
          forall k | k in response.fields :: response.fields[k].required ==> k in outcome.responds)
  }

  // --- Branches -----------------------------------------------------------------------------------

  predicate MutatesNothing(outcome: Outcome) {
    && outcome.effect.NoEffect? && outcome.assigns == map[] && outcome.fulfills == map[]
    && outcome.setIfPresent == map[] && outcome.emits == [] && outcome.responds == map[]
    && outcome.respondsIfPresent == map[]
  }

  /** The states a branch names are declared, its guard is one it can move from, and a refusal does
      nothing else. */
  predicate OutcomeSound(definition: Definition, outcome: Outcome) {
    && !Blank(outcome.name)
    && (outcome.inState.Some? ==> outcome.inState.value in definition.states)
    && (outcome.effect.Moves? ==>
          && outcome.effect.to in definition.states
          && (forall s | s in outcome.effect.from :: s in definition.states)
          && (outcome.inState.Some? ==> outcome.inState.value in outcome.effect.from))
    && (outcome.refuses.Some? ==> MutatesNothing(outcome))
    && (outcome.wrongState ==> outcome.when.None? && outcome.inState.None?)
    && (MutatesNothing(outcome) && outcome.refuses.None? ==> outcome.wrongState)
  }

  predicate OutcomesSound(definition: Definition, outcomes: seq<Outcome>) {
    && (forall o | o in outcomes :: OutcomeSound(definition, o))
    && (forall i, j | 0 <= i < j < |outcomes| :: outcomes[i].name != outcomes[j].name)
    && (forall i, j | 0 <= i < j < |outcomes| :: !(outcomes[i].wrongState && outcomes[j].wrongState))
  }

  predicate OperationOutcome(doors: Doors, definition: Definition, operation: Operation, outcome: Outcome) {
    var selector := ScopeOf(definition, OutcomeSelector, Some(operation.arguments));
    var template := ScopeOf(definition, OperationTemplate, Some(operation.arguments));
    && !outcome.effect.Creates?
    && (outcome.when.Some? ==> RuleAccepted(doors, outcome.when.value, selector))
    && SetAccepted(doors, definition, outcome.assigns, template)
    && (forall e | e in outcome.emits :: EventAccepted(e, operation.arguments, template))
    && RespondsAccepted(outcome, operation.response, template)
    && ConditionalAccepted(definition, outcome, operation.arguments, operation.response)
    && FulfillmentAccepted(definition, outcome)
  }

  predicate CreateOutcome(doors: Doors, definition: Definition, outcome: Outcome) {
    var args := definition.create.arguments;
    var template := ScopeOf(definition, CreateOutcomeTemplate, Some(args));
    && !outcome.wrongState && outcome.fulfills == map[]
    && (outcome.effect.Creates? || outcome.effect.NoEffect?)
    && (outcome.when.Some? ==>
          RuleAccepted(doors, outcome.when.value, ScopeOf(definition, CreateSelector, Some(args))))
    && SetAccepted(doors, definition, outcome.assigns, ScopeOf(definition, CreateSet, Some(args)))
    && (forall e | e in outcome.emits :: EventAccepted(e, args, template))
    && RespondsAccepted(outcome, definition.create.response, template)
    && ConditionalAccepted(definition, outcome, args, definition.create.response)
  }

  predicate CreationAccepted(doors: Doors, definition: Definition) {
    var service := definition.semantics.Service();
    && (definition.create.emit.Some? ==>
          EventAccepted(definition.create.emit.value, Schema(map[], false),
                        ScopeOf(definition, CreateTemplate, None)))
    && (service ==>
          && SchemaDeclared(doors, definition.create.arguments, service)
          && SchemaDeclared(doors, definition.create.response, service)
          && OutcomesSound(definition, definition.create.outcomes)
          && forall o | o in definition.create.outcomes :: CreateOutcome(doors, definition, o))
  }

  predicate OperationAccepted(doors: Doors, definition: Definition, name: string) {
    name in definition.operations ==>
      var operation := definition.operations[name];
      var service := definition.semantics.Service();
      var template := ScopeOf(definition, OperationTemplate, Some(operation.arguments));
      && !Blank(name)
      && (operation.transitions != [] || HasBranches(definition, operation.outcomes))
      && SchemaDeclared(doors, operation.arguments, service)
      && SchemaDeclared(doors, operation.response, service)
      && TransitionsSound(definition, operation.transitions)
      && (forall r | r in operation.preconditions ::
            RuleAccepted(doors, r.condition, ScopeOf(definition, Precondition, Some(operation.arguments))))
      && SetAccepted(doors, definition, operation.assigns, template)
      && (forall e | e in operation.emits :: EventAccepted(e, operation.arguments, template))
      && OutcomesSound(definition, operation.outcomes)
      && (forall o | o in operation.outcomes :: OperationOutcome(doors, definition, operation, o))
      && ((exists o | o in operation.outcomes :: o.wrongState) ==>
            && (forall o | o in operation.outcomes :: o.inState.None?)
            && exists s | s in definition.states :: s !in MoveSources(operation.outcomes))
  }

  predicate InvariantsAccepted(doors: Doors, definition: Definition) {
    forall r | r in definition.invariants ::
      RuleAccepted(doors, r.condition, ScopeOf(definition, Invariant, None))
  }

  /** A definition the registry admits. */
  predicate Registered(doors: Doors, definition: Definition) {
    && !Blank(definition.entity) && 0 < definition.version <= U32_MAX
    && LadderSound(definition)
    && (!definition.semantics.Service() ==> KernelOnly(definition))
    && SchemaDeclared(doors, definition.schema, definition.semantics.Service())
    && IdentityAccepted(definition)
    && InvariantsAccepted(doors, definition)
    && CreationAccepted(doors, definition)
    && forall name | name in definition.operations :: OperationAccepted(doors, definition, name)
  }
}
