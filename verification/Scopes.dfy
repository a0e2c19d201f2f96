/** What registration admits a reference, an operand and a condition to read, by where it sits. */
module Scopes {
  import opened Prelude
  import opened Definition
  import opened Paths
  import opened Reading
  import opened Evaluator
  import Timestamp

  const MAX_CONDITION_DEPTH: nat := 32

  datatype ScopeKind =
    | Invariant | Precondition | CreateTemplate | OperationTemplate
    | OutcomeSelector | CreateSelector | CreateSet | CreateOutcomeTemplate

  datatype Scope = Scope(
    kind: ScopeKind,
    fields: Schema,
    args: Option<Schema>,
    names: Names,
    semantics: Semantics)

  /** Which roots a scope may read. */
  predicate Allows(kind: ScopeKind, root: Root) {
    match root
    case IdRoot => true
    case EntityRoot => true
    case VersionRoot => true
    case FieldsRoot => !kind.CreateSelector? && !kind.CreateSet?
    case StateRoot => !kind.Precondition? && !kind.OutcomeSelector? && !kind.CreateSelector?
    case ToStateRoot => !kind.Invariant? && !kind.OutcomeSelector? && !kind.CreateSelector?
    case FromStateRoot => kind.Precondition? || kind.OperationTemplate? || kind.OutcomeSelector?
    case ArgsRoot => !kind.Invariant? && !kind.CreateTemplate?
    case OldFieldsRoot => kind.Precondition? || kind.OperationTemplate?
  }

  function RootsOf(kind: ScopeKind): set<Root> {
    set root: Root | Allows(kind, root)
  }

  // --- Paths --------------------------------------------------------------------------------------

  /** Whether the kernel's walk can follow a path from one declared field. */
  predicate PathAccepted(field: Field, path: seq<string>, service: bool)
    requires path != []
    decreases |path|
  {
    var segment := path[0];
    if segment == [] then false
    else if service && field.kind.ArrayKind? then
      if segment == "count" then |path| == 1
      else
        && IsOrdinal(segment)
        && (field.items.None? || |path| == 1 || PathAccepted(field.items.value, path[1..], service))
    else if service && field.kind.MapKind? then segment == "count" && |path| == 1
    else if service && field.kind.StringKind? && segment == "count" then |path| == 1
    else
      match field.kind
      case JsonKind => true
      case ObjectKind =>
        if segment in field.properties.fields
        then |path| == 1 || PathAccepted(field.properties.fields[segment], path[1..], service)
        else field.properties.additional
      case UnionKind =>
        service && (if field.tag.Some? && segment == field.tag.value then |path| == 1
                    else segment == ContentKey(field))
      case _ => false
  }

  predicate RootPathAccepted(schema: Schema, path: seq<string>, service: bool)
    requires path != []
  {
    if path[0] == [] then false
    else if path[0] !in schema.fields then schema.additional
    else |path| == 1 || PathAccepted(schema.fields[path[0]], path[1..], service)
  }

  /** One `$` reference against its scope, its path followed through the schema. */
  predicate ReferenceAccepted(s: string, scope: Scope)
    requires s != []
  {
    match scope.names.Get(Head(s))
    case Some(element) =>
      element.None? || Tail(s).None? || PathAccepted(element.value, Tail(s).value, scope.semantics.Service())
    case None =>
      match ReferenceOf(s)
      case NoReference => false
      case Reference(root, None) => Allows(scope.kind, root)
      case Reference(root, Some(path)) =>
        && Allows(scope.kind, root)
        && (if root.ArgsRoot? then
              scope.args.Some? && RootPathAccepted(scope.args.value, path, scope.semantics.Service())
            else RootPathAccepted(scope.fields, path, scope.semantics.Service()))
  }

  /** Every reference in a value, at any depth. */
  predicate OperandAccepted(value: Json, scope: Scope) {
    match value
    case Str(s) => IsReference(s) ==> ReferenceAccepted(s, scope)
    case Arr(elements) => forall i | 0 <= i < |elements| :: OperandAccepted(elements[i], scope)
    case Obj(members) => forall k | k in members :: OperandAccepted(members[k], scope)
    case _ => true
  }

  /** An instant operand is a reference, or a literal this kernel can read. */
  predicate InstantAccepted(value: Json, scope: Scope) {
    && OperandAccepted(value, scope)
    && value.Str? && !IsEscaped(value.text)
    && (IsReference(value.text) || Timestamp.Parse(value.text).Some?)
  }

  predicate PairAccepted(op: PairOp, value: Json, scope: Scope) {
    if op.Before? || op.After? then InstantAccepted(value, scope)
    else OperandAccepted(value, scope) && (op.StartsWith? || op.EndsWith? ==> value.Str?)
  }

  predicate BindAccepted(bind: string) {
    !Blank(bind) && '.' !in bind
  }

  /** A condition in its scope; a quantifier's body in that scope extended by its binder. */
  predicate ConditionAccepted(c: Condition, scope: Scope)
    decreases c, 0
  {
    match c
    case Literal(_) => true
    case All(children) => children != [] && EachAccepted(children, scope)
    case Any(children) => children != [] && EachAccepted(children, scope)
    case Not(child) => ConditionAccepted(child, scope)
    case Exists(operand) => OperandAccepted(operand, scope)
    case Pair(op, left, right) => PairAccepted(op, left, scope) && PairAccepted(op, right, scope)
    case Compare(left, _, right) =>
      && scope.semantics.Service()
      && !left.Arr? && !left.Obj? && !right.Arr? && !right.Obj?
      && OperandAccepted(left, scope) && OperandAccepted(right, scope)
    case Truthy(operand) => scope.semantics.Service() && OperandAccepted(operand, scope)
    case ForAll(over, bind, body) => QuantifierAccepted(over, bind, body, scope)
    case ForAny(over, bind, body) => QuantifierAccepted(over, bind, body, scope)
  }

  predicate EachAccepted(children: seq<Condition>, scope: Scope)
    decreases children, 0
  {
    children != [] ==> ConditionAccepted(children[0], scope) && EachAccepted(children[1..], scope)
  }

  predicate QuantifierAccepted(over: Json, bind: string, body: Condition, scope: Scope)
    decreases body, 1
  {
    && scope.semantics.Service() && BindAccepted(bind) && OperandAccepted(over, scope)
    && var element := CollectionElement(over, scope.fields, scope.args, scope.names);
    && element.Some?
    && ConditionAccepted(body, scope.(names := Name(bind, element.value, scope.names)))
  }

  function Depth(c: Condition): nat
    decreases c, 0
  {
    1 + match c
        case All(children) => DeepestOf(children)
        case Any(children) => DeepestOf(children)
        case Not(child) => Depth(child)
        case ForAll(_, _, body) => Depth(body)
        case ForAny(_, _, body) => Depth(body)
        case _ => 0
  }

  function DeepestOf(children: seq<Condition>): nat
    decreases children, 0
  {
    if children == [] then 0 else
      var first, rest := Depth(children[0]), DeepestOf(children[1..]);
      if first < rest then rest else first
  }

  predicate LiteralsObservable(doors: Doors, value: Json) {
    match value
    case Num(number) => OfLiteral(doors, number).Some?
    case Arr(elements) => forall i | 0 <= i < |elements| :: LiteralsObservable(doors, elements[i])
    case Obj(members) => forall k | k in members :: LiteralsObservable(doors, members[k])
    case _ => true
  }

  /** Every number a service condition writes is one the source can observe. */
  predicate ConditionObservable(doors: Doors, c: Condition)
    decreases c, 0
  {
    match c
    case All(children) => EachObservable(doors, children)
    case Any(children) => EachObservable(doors, children)
    case Not(child) => ConditionObservable(doors, child)
    case Pair(op, left, right) =>
      op in {Before, After, StartsWith, EndsWith}
      || (LiteralsObservable(doors, left) && LiteralsObservable(doors, right))
    case Compare(left, _, right) => LiteralsObservable(doors, left) && LiteralsObservable(doors, right)
    case Truthy(operand) => LiteralsObservable(doors, operand)
    case ForAll(_, _, body) => ConditionObservable(doors, body)
    case ForAny(_, _, body) => ConditionObservable(doors, body)
    case _ => true
  }

  predicate EachObservable(doors: Doors, children: seq<Condition>)
    decreases children, 0
  {
    children != [] ==> ConditionObservable(doors, children[0]) && EachObservable(doors, children[1..])
  }

  /** What registration requires of a rule or a selector. */
  predicate RuleAccepted(doors: Doors, c: Condition, scope: Scope) {
    && Depth(c) <= MAX_CONDITION_DEPTH
    && (scope.semantics.Service() ==> ConditionObservable(doors, c))
    && ConditionAccepted(c, scope)
  }
}
