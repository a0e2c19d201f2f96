/** JSON values and the definition model: what an entity type is, as data. */
module Definition {
  import opened Prelude
  import opened Number

  type Object = map<string, Json>

  datatype Json =
    | Null
    | Bool(truth: bool)
    | Num(number: Number)
    | Str(text: string)
    | Arr(elements: seq<Json>)
    | Obj(members: map<string, Json>)

  datatype Semantics = Kernel1 | Service1 | Service2 | Service3 {
    predicate Service() {
      !Kernel1?
    }

    predicate ConditionalPresence() {
      Service2? || Service3?
    }

    predicate Fulfillment() {
      Service3?
    }
  }

  datatype Kind =
    | StringKind | IntegerKind | NumberKind | BooleanKind | EnumKind | ArrayKind
    | ObjectKind | JsonKind | RefKind | MapKind | UnionKind | Binary64Kind

  datatype MapKey =
    StringKey | BooleanKey | IntegerKey | DecimalKey | TimestampKey | DurationKey | UuidKey | BytesKey

  /** One declared field, property, element, variant or argument. */
  datatype Field = Field(
    kind: Kind,
    required: bool,
    default: Option<Json>,
    minLength: Option<nat>,
    maxLength: Option<nat>,
    min: Option<Number>,
    max: Option<Number>,
    values: seq<string>,
    items: Option<Field>,
    properties: Schema,
    key: MapKey,
    tag: Option<string>,
    variants: map<string, Field>)

  /** Declared members, and whether others are admitted: a schema, or what is inside an `object`. */
  datatype Schema = Schema(fields: map<string, Field>, additional: bool) {
    predicate Empty() {
      fields == map[] && !additional
    }
  }

  datatype PairOp =
    | Before | After | Eq | Ne | Gt | Gte | Lt | Lte | In | Contains | StartsWith | EndsWith

  datatype CompareOp = CompareEq | CompareNe | CompareLt | CompareLte | CompareGt | CompareGte {
    predicate Accepts(order: Ordering) {
      match this
      case CompareEq => order.Equal?
      case CompareNe => !order.Equal?
      case CompareLt => order.Less?
      case CompareLte => !order.Greater?
      case CompareGt => order.Greater?
      case CompareGte => !order.Less?
    }

    predicate IsOrdering() {
      !CompareEq? && !CompareNe?
    }
  }

  /** The closed condition language, as data. */
  datatype Condition =
    | Literal(value: bool)
    | All(children: seq<Condition>)
    | Any(children: seq<Condition>)
    | Not(child: Condition)
    | Exists(operand: Json)
    | Pair(op: PairOp, left: Json, right: Json)
    | Compare(left: Json, compare: CompareOp, right: Json)
    | Truthy(operand: Json)
    | ForAll(over: Json, bind: string, body: Condition)
    | ForAny(over: Json, bind: string, body: Condition)

  datatype Rule = Rule(name: Option<string>, condition: Condition)

  datatype Transition = Transition(from: seq<string>, to: string)

  /** An event type with its payload template and the members copied from optional arguments. */
  datatype EventTemplate =
    EventTemplate(eventType: string, payload: Json, payloadIfPresent: map<string, string>)

  datatype Effect = NoEffect | Creates | Moves(to: string, from: seq<string>) | Updates

  datatype Requirement = MustStay | MayGo

  /** One host-supplied action for a field a branch leaves to fulfillment. */
  datatype Action = Preserve | SetTo(value: Json) | Remove

  datatype Outcome = Outcome(
    name: string,
    when: Option<Condition>,
    inState: Option<string>,
    wrongState: bool,
    effect: Effect,
    assigns: map<string, Json>,
    fulfills: map<string, Requirement>,
    setIfPresent: map<string, string>,
    emits: seq<EventTemplate>,
    responds: map<string, Json>,
    respondsIfPresent: map<string, string>,
    refuses: Option<string>)

  datatype Operation = Operation(
    arguments: Schema,
    transitions: seq<Transition>,
    preconditions: seq<Rule>,
    assigns: map<string, Json>,
    emits: seq<EventTemplate>,
    response: Schema,
    outcomes: seq<Outcome>)

  datatype Creation = Creation(
    emit: Option<EventTemplate>,
    arguments: Schema,
    response: Schema,
    outcomes: seq<Outcome>)

  datatype Definition = Definition(
    entity: string,
    version: nat,
    schema: Schema,
    initial: string,
    states: seq<string>,
    invariants: seq<Rule>,
    create: Creation,
    operations: map<string, Operation>,
    semantics: Semantics,
    identity: Option<string>,
    scales: map<string, seq<string>>)

  /** How one `set` value is read. */
  datatype Assignment =
    | Template(template: Json)
    | Increment(amount: Json)
    | Cleared(flag: Json)
    | Conflicting

  /** A mapping whose every key is a keyword is a typed assignment; everything else is a template. */
  function AssignmentOf(value: Json): Assignment {
    if !value.Obj? || value.members == map[] || !(value.members.Keys <= {"increment", "cleared"})
    then Template(value)
    else if |value.members| > 1 then Conflicting
    else if "increment" in value.members then Increment(value.members["increment"])
    else if "cleared" in value.members then Cleared(value.members["cleared"])
    else Template(value)
  }
}
