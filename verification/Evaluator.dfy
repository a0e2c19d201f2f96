/** Conditions and templates: the three-valued evaluator, and the one that answers early, before a
    subject is loaded. */
module Evaluator {
  import opened Prelude
  import opened Keys
  import opened Truth
  import opened Definition
  import opened Paths
  import opened Reading
  import Number
  import Timestamp

  /** Why the kernel refuses, reduced to the kind and the coordinates a caller acts on. */
  datatype CoreError =
    | Validation
    | TemplateError
    | EntityMismatch
    | SubjectMismatch
    | UnknownState(state: string)
    | OperationNotFound(operation: string)
    | InvalidTransition(operation: string, state: string)
    | UnspecifiedMoveSource(operation: string, outcome: string, state: string)
    | NoOutcomeSelected(operation: string)
    | OutcomeUnobservable(operation: string, outcome: string, unresolved: set<string>)
    | PreconditionFailed(operation: string, rule: Option<string>)
    | PreconditionUnobservable(operation: string, rule: Option<string>, unresolved: set<string>)
    | InvariantViolation(rule: Option<string>)
    | InvariantUnobservable(rule: Option<string>, unresolved: set<string>)
    | IncrementOverflow(operation: string, field: string)
    | IdentityMismatch(field: string)
    | CreationIdentityUnavailable
    | FulfillmentRequired(operation: string, outcome: string, fields: set<string>)
    | FulfillmentKeysMismatch(operation: string, outcome: string, missing: set<string>, extra: set<string>)
    | RequiredFieldRemoval(operation: string, outcome: string, field: string)
    | RevisionExhausted
    | Refused(outcome: string, error: string)

  /** One quantifier binder with its element and its declaration, and every binder enclosing it. */
  datatype Bindings =
    | NoBinding
    | Binding(name: string, value: Json, declared: Option<Field>, outer: Bindings)
  {
    /** The innermost binding of a name. */
    function Get(n: string): Option<(Json, Option<Field>)> {
      if NoBinding? then None else if name == n then Some((value, declared)) else outer.Get(n)
    }
  }

  /** Everything a reference may read. */
  datatype Context = Context(
    doors: Doors,
    definition: Definition,
    id: Option<string>,
    args: Object,
    argumentsSchema: Option<Schema>,
    oldFields: Object,
    newFields: Object,
    fromState: Option<string>,
    toState: string)
  {
    predicate Service() {
      definition.semantics.Service()
    }
  }

  // --- References ---------------------------------------------------------------------------------

  function ResolveRoot(root: Root, ctx: Context): Result<Option<Json>, CoreError> {
    match root
    case IdRoot => if ctx.id.Some? then Ok(Some(Str(ctx.id.value))) else Err(TemplateError)
    case EntityRoot => Ok(Some(Str(ctx.definition.entity)))
    case VersionRoot => Ok(Some(CountOf(ctx.definition.version)))
    case FromStateRoot => Ok(if ctx.fromState.Some? then Some(Str(ctx.fromState.value)) else None)
    case StateRoot => Ok(Some(Str(ctx.toState)))
    case ToStateRoot => Ok(Some(Str(ctx.toState)))
    case ArgsRoot => Ok(Some(Obj(ctx.args)))
    case FieldsRoot => Ok(Some(Obj(ctx.newFields)))
    case OldFieldsRoot => Ok(Some(Obj(ctx.oldFields)))
  }

  function ResolvePath(root: Root, path: seq<string>, ctx: Context): Option<Json>
    requires path != []
  {
    match root
    case ArgsRoot => LookUp(ctx.args, path, ctx.argumentsSchema, ctx.Service())
    case FieldsRoot => LookUp(ctx.newFields, path, Some(ctx.definition.schema), ctx.Service())
    case OldFieldsRoot => LookUp(ctx.oldFields, path, Some(ctx.definition.schema), ctx.Service())
    case _ => None
  }

  function ResolveReference(reference: Reference, ctx: Context): Result<Option<Json>, CoreError>
    requires reference.Reference? && reference.path.Some? ==> reference.path.value != []
  {
    match reference
    case NoReference => Err(TemplateError)
    case Reference(root, None) => ResolveRoot(root, ctx)
    case Reference(root, Some(path)) => Ok(ResolvePath(root, path, ctx))
  }

  function ResolveElement(element: (Json, Option<Field>), path: Option<seq<string>>, ctx: Context)
    : Option<Json>
    requires path.Some? ==> path.value != []
  {
    if path.None? then Some(element.0)
    else Walk(element.0, path.value, element.1, element.1.Some?, ctx.Service(), FromBinder)
  }

  /** A binder's element first; every other address passes through to the context. */
  function Resolve(s: string, ctx: Context, b: Bindings): Result<Option<Json>, CoreError>
    requires s != []
  {
    match b.Get(Head(s))
    case Some(element) => Ok(ResolveElement(element, Tail(s), ctx))
    case None => ResolveReference(ReferenceOf(s), ctx)
  }

  /** A template: every reference in it must resolve to something. */
  function ResolveTemplate(value: Json, ctx: Context): (r: Result<Json, CoreError>)
    ensures r.Err? ==> r.error == TemplateError
  {
    match value
    case Str(s) =>
      if IsEscaped(s) then Ok(Str(s[1..]))
      else if IsReference(s) then
        var resolved := Resolve(s, ctx, NoBinding);
        if resolved.Ok? && resolved.value.Some? then Ok(resolved.value.value) else Err(TemplateError)
      else Ok(value)
    case Arr(elements) =>
      var resolved :- ResolveTemplates(elements, ctx);
      Ok(Arr(resolved))
    case Obj(members) =>
      var parts := map k | k in members :: ResolveTemplate(members[k], ctx);
      var resolved :- GatherMembers(parts);
      Ok(Obj(resolved))
    case _ => Ok(value)
  }

  function ResolveTemplates(values: seq<Json>, ctx: Context): (r: Result<seq<Json>, CoreError>)
    ensures r.Err? ==> r.error == TemplateError
  {
    if values == [] then Ok([]) else
      var first :- ResolveTemplate(values[0], ctx);
      var rest :- ResolveTemplates(values[1..], ctx);
      Ok([first] + rest)
  }

  /** Every member's value, or the first refusal. */
  function GatherMembers(parts: map<string, Result<Json, CoreError>>): (r: Result<Object, CoreError>)
    ensures r.Err? ==> r.error == TemplateError
  {
    if forall k | k in parts :: parts[k].Ok? then Ok(map k | k in parts :: parts[k].value)
    else Err(TemplateError)
  }

  /** An operand with the addresses nothing was observed at; absent and null both count as nothing. */
  function ResolveOperand(value: Json, ctx: Context, b: Bindings)
    : Result<(Option<Json>, set<string>), CoreError>
  {
    match value
    case Str(s) =>
      if IsEscaped(s) then Ok((Some(Str(s[1..])), {}))
      else if IsReference(s) then
        var resolved :- Resolve(s, ctx, b);
        if resolved.None? || resolved.value.Null? then Ok((None, {s})) else Ok((resolved, {}))
      else Ok((Some(value), {}))
    case Arr(elements) =>
      var (resolved, unobserved) :- ResolveOperands(elements, ctx, b);
      Ok((if resolved.Some? then Some(Arr(resolved.value)) else None, unobserved))
    case Obj(members) =>
      GatherOperands(map k | k in members :: ResolveOperand(members[k], ctx, b))
    case _ => Ok((Some(value), {}))
  }

  /** A mapping is observed when every member is; every unobserved address is kept. */
  function GatherOperands(parts: map<string, Result<(Option<Json>, set<string>), CoreError>>)
    : Result<(Option<Json>, set<string>), CoreError>
  {
    if exists k | k in parts :: parts[k].Err? then Err(TemplateError)
    else
      var unobserved := set k, a | k in parts && a in parts[k].value.1 :: a;
      if exists k | k in parts :: parts[k].value.0.None? then Ok((None, unobserved))
      else Ok((Some(Obj(map k | k in parts :: parts[k].value.0.value)), unobserved))
  }

  function ResolveOperands(values: seq<Json>, ctx: Context, b: Bindings)
    : Result<(Option<seq<Json>>, set<string>), CoreError>
  {
    if values == [] then Ok((Some([]), {})) else
      var (first, u) :- ResolveOperand(values[0], ctx, b);
      var (rest, v) :- ResolveOperands(values[1..], ctx, b);
      Ok((if first.Some? && rest.Some? then Some([first.value] + rest.value) else None, u + v))
  }

  // --- Comparing values ---------------------------------------------------------------------------

  /** Numbers compare numerically at every depth; everything else structurally. */
  predicate ValuesEqual(left: Json, right: Json) {
    if left.Num? && right.Num? then Number.Order(left.number, right.number) == Equal
    else if left.Arr? && right.Arr? then
      && |left.elements| == |right.elements|
      && forall i | 0 <= i < |left.elements| :: ValuesEqual(left.elements[i], right.elements[i])
    else if left.Obj? && right.Obj? then
      && left.members.Keys == right.members.Keys
      && forall k | k in left.members :: ValuesEqual(left.members[k], right.members[k])
    else left == right
  }

  /** Which door a numeric operand is read through: an authored literal is a literal. */
  function Observe(doors: Doors, n: Number.Number, written: Option<Json>): Option<Reading> {
    if written.Some? && written.value.Num? then OfLiteral(doors, written.value.number)
    else OfNumber(doors, n)
  }

  function WrittenElement(written: Option<Json>, i: nat): Option<Json> {
    if written.Some? && written.value.Arr? && i < |written.value.elements|
    then Some(written.value.elements[i]) else None
  }

  function WrittenMember(written: Option<Json>, key: string): Option<Json> {
    if written.Some? && written.value.Obj? && key in written.value.members
    then Some(written.value.members[key]) else None
  }

  /** The same equality with each number read through its own door. */
  predicate ObservedEqual(doors: Doors, left: Json, l: Option<Json>, right: Json, r: Option<Json>)
    decreases left
  {
    if left.Num? && right.Num? then
      var a, b := Observe(doors, left.number, l), Observe(doors, right.number, r);
      if a.Some? && b.Some? then a.value.CompareTo(b.value) == Equal else left == right
    else if left.Arr? && right.Arr? then
      && |left.elements| == |right.elements|
      && forall i | 0 <= i < |left.elements| ::
           ObservedEqual(doors, left.elements[i], WrittenElement(l, i),
                         right.elements[i], WrittenElement(r, i))
    else if left.Obj? && right.Obj? then
      && left.members.Keys == right.members.Keys
      && forall k | k in left.members ::
           ObservedEqual(doors, left.members[k], WrittenMember(l, k), right.members[k], WrittenMember(r, k))
    else left == right
  }

  predicate EqualUnder(doors: Doors, definition: Definition, left: Json, l: Option<Json>, right: Json, r: Option<Json>) {
    if definition.semantics.Service() then ObservedEqual(doors, left, l, right, r)
    else ValuesEqual(left, right)
  }

  predicate HasElement(doors: Doors, definition: Definition, elements: seq<Json>, listed: Json,
                       needle: Json, sought: Json)
  {
    exists i | 0 <= i < |elements| ::
      EqualUnder(doors, definition, elements[i], WrittenElement(Some(listed), i), needle, Some(sought))
  }

  predicate TextAt(text: string, needle: string, i: nat) {
    i + |needle| <= |text| && text[i..i + |needle|] == needle
  }

  predicate HasText(text: string, needle: string) {
    exists i | 0 <= i <= |text| :: TextAt(text, needle, i)
  }

  function Position(values: seq<string>, value: string): nat
    requires value in values
  {
    if values[0] == value then 0 else 1 + Position(values[1..], value)
  }

  /** The order every declared scale holding both texts agrees on, where one does. */
  function ScaleOrder(scales: map<string, seq<string>>, left: string, right: string): Option<Ordering> {
    var answers := set n | n in scales && left in scales[n] && right in scales[n]
                         :: OrderInt(Position(scales[n], left), Position(scales[n], right));
    if answers == {Less} then Some(Less)
    else if answers == {Equal} then Some(Equal)
    else if answers == {Greater} then Some(Greater)
    else None
  }

  function CompareScalars(doors: Doors, definition: Definition, op: CompareOp, left: Json, l: Json,
                          right: Json, r: Json): Truth
  {
    if left.Num? && right.Num? then
      var a, b := Observe(doors, left.number, Some(l)), Observe(doors, right.number, Some(r));
      if a.Some? && b.Some? then FromBool(op.Accepts(a.value.CompareTo(b.value))) else Unknown
    else if left.Str? && right.Str? then
      if op.IsOrdering() then
        match ScaleOrder(definition.scales, left.text, right.text)
        case Some(order) => FromBool(op.Accepts(order))
        case None => Unknown
      else FromBool(op.Accepts(KeyOrder(left.text, right.text)))
    else if left.Bool? && right.Bool? && !op.IsOrdering() then
      FromBool(op.Accepts(if left.truth == right.truth then Equal else if right.truth then Less else Greater))
    else if !Scalar(left) || !Scalar(right) || op.IsOrdering() then Unknown
    else FromBool(op.CompareNe?)
  }

  predicate Scalar(value: Json) {
    value.Bool? || value.Num? || value.Str?
  }

  function TruthOf(doors: Doors, value: Option<Json>): Truth {
    match value
    case Some(Bool(truth)) => FromBool(truth)
    case Some(Num(number)) =>
      (match OfNumber(doors, number)
       case Some(reading) => FromBool(!reading.IsZero())
       case None => Unknown)
    case Some(Str(text)) => FromBool(text != "" && text != "false")
    case _ => Unknown
  }

  function InstantOf(value: Json): Option<Timestamp.Timestamp> {
    if value.Str? then Timestamp.Parse(value.text) else None
  }

  /** A reference that led to something unreadable is named; a literal is not. */
  function Unread(value: Json, written: Json): set<string> {
    if InstantOf(value).None? && written.Str? && written.text != [] && written.text[0] == '$'
    then {written.text} else {}
  }

  /** What an operator says of two operands that both resolved. */
  function AnswerPair(doors: Doors, definition: Definition, op: PairOp, left: Json, l: Json,
                      right: Json, r: Json): (Truth, set<string>)
  {
    match op
    case Before => AnswerInstants(left, l, right, r, Less)
    case After => AnswerInstants(left, l, right, r, Greater)
    case Eq => (FromBool(EqualUnder(doors, definition, left, Some(l), right, Some(r))), {})
    case Ne => (FromBool(!EqualUnder(doors, definition, left, Some(l), right, Some(r))), {})
    case Gt => (AnswerNumbers(left, right, CompareGt), {})
    case Gte => (AnswerNumbers(left, right, CompareGte), {})
    case Lt => (AnswerNumbers(left, right, CompareLt), {})
    case Lte => (AnswerNumbers(left, right, CompareLte), {})
    case In => (FromBool(right.Arr? && HasElement(doors, definition, right.elements, r, left, l)), {})
    case Contains =>
      (FromBool(if left.Arr? then HasElement(doors, definition, left.elements, l, right, r)
                else if left.Str? && right.Str? then HasText(left.text, right.text)
                else left.Obj? && right.Str? && right.text in left.members), {})
    case StartsWith => (FromBool(left.Str? && right.Str? && right.text <= left.text), {})
    case EndsWith =>
      (FromBool(left.Str? && right.Str? && |right.text| <= |left.text|
                && left.text[|left.text| - |right.text|..] == right.text), {})
  }

  function AnswerInstants(left: Json, l: Json, right: Json, r: Json, wanted: Ordering): (Truth, set<string>) {
    var a, b := InstantOf(left), InstantOf(right);
    (if a.Some? && b.Some? then FromBool(Timestamp.Order(a.value, b.value) == wanted) else Unknown,
     Unread(left, l) + Unread(right, r))
  }

  function AnswerNumbers(left: Json, right: Json, op: CompareOp): Truth {
    FromBool(left.Num? && right.Num? && op.Accepts(Number.Order(left.number, right.number)))
  }

  // --- The full evaluator -------------------------------------------------------------------------

  /** An array's elements in index order, or a map's values in key order. */
  function ElementsOf(collection: Json): Option<seq<Json>> {
    match collection
    case Arr(elements) => Some(elements)
    case Obj(members) => Some(SortedValues(members))
    case _ => None
  }

  /** How a connective or a quantifier folds: every answer must hold, or one must. */
  datatype Fold = Every | AnyOne {
    function Unit(): Truth {
      if Every? then True else False
    }

    function Join(a: Truth, b: Truth): Truth {
      if Every? then a.And(b) else a.Or(b)
    }

    /** No later answer can change this one. */
    predicate Settled(t: Truth) {
      if Every? then t.False? else t.True?
    }
  }

  /** The declaration the elements of a quantified collection are read under. */
  function ElementDeclaration(over: Json, ctx: Context, b: Bindings): Option<Field> {
    match CollectionElement(over, ctx.definition.schema, ctx.argumentsSchema, DeclaredNames(b))
    case Some(element) => element
    case None => None
  }

  function Evaluate(c: Condition, ctx: Context, b: Bindings): Result<(Truth, set<string>), CoreError>
    decreases c, 0, 0
  {
    match c
    case Literal(value) => Ok((FromBool(value), {}))
    case All(children) => EvaluateEach(children, ctx, b, Every)
    case Any(children) => EvaluateEach(children, ctx, b, AnyOne)
    case Not(child) =>
      var (t, u) :- Evaluate(child, ctx, b);
      Ok((t.Not(), u))
    case Exists(operand) =>
      var (value, _) :- ResolveOperand(operand, ctx, b);
      Ok((FromBool(value.Some?), {}))
    case Pair(op, left, right) =>
      var (l, u) :- ResolveOperand(left, ctx, b);
      var (r, v) :- ResolveOperand(right, ctx, b);
      if l.None? || r.None? then Ok((Unknown, u + v))
      else
        var (t, w) := AnswerPair(ctx.doors, ctx.definition, op, l.value, left, r.value, right);
        Ok((t, u + v + w))
    case Compare(left, op, right) =>
      var (l, u) :- ResolveOperand(left, ctx, b);
      var (r, v) :- ResolveOperand(right, ctx, b);
      if l.None? || r.None? then Ok((Unknown, u + v))
      else Ok((CompareScalars(ctx.doors, ctx.definition, op, l.value, left, r.value, right), u + v))
    case Truthy(operand) =>
      var (value, u) :- ResolveOperand(operand, ctx, b);
      Ok((TruthOf(ctx.doors, value), u))
    case ForAll(over, bind, body) => Quantify(over, bind, body, ctx, b, Every)
    case ForAny(over, bind, body) => Quantify(over, bind, body, ctx, b, AnyOne)
  }

  /** Every operand is evaluated, so that every missing address is named. */
  function EvaluateEach(children: seq<Condition>, ctx: Context, b: Bindings, fold: Fold)
    : Result<(Truth, set<string>), CoreError>
    decreases children, 0, 0
  {
    if children == [] then Ok((fold.Unit(), {})) else
      var (t, u) :- Evaluate(children[0], ctx, b);
      var (rest, v) :- EvaluateEach(children[1..], ctx, b, fold);
      Ok((fold.Join(t, rest), u + v))
  }

  /** The elements a quantifier walks, where it resolves to a collection at all. */
  function Collection(over: Json, ctx: Context, b: Bindings)
    : Result<(Option<seq<Json>>, set<string>), CoreError>
  {
    var (collection, u) :- ResolveOperand(over, ctx, b);
    Ok((if collection.Some? then ElementsOf(collection.value) else None, u))
  }

  /** An unobserved collection is `Unknown`, never the vacuous truth an empty one gives. */
  function Quantify(over: Json, bind: string, body: Condition, ctx: Context, b: Bindings, fold: Fold)
    : Result<(Truth, set<string>), CoreError>
    decreases body, 2, 0
  {
    var (elements, u) :- Collection(over, ctx, b);
    if elements.None? then Ok((Unknown, u))
    else
      var (t, v) :- EvaluateElements(elements.value, bind, ElementDeclaration(over, ctx, b), body, ctx, b, fold);
      Ok((t, u + v))
  }

  /** Element by element, stopping as soon as the fold is settled. */
  function EvaluateElements(elements: seq<Json>, bind: string, declared: Option<Field>, body: Condition,
                            ctx: Context, b: Bindings, fold: Fold)
    : Result<(Truth, set<string>), CoreError>
    decreases body, 1, |elements|
  {
    if elements == [] then Ok((fold.Unit(), {})) else
      var (t, u) :- Evaluate(body, ctx, Binding(bind, elements[0], declared, b));
      if fold.Settled(t) then Ok((t, u))
      else
        var (rest, v) :- EvaluateElements(elements[1..], bind, declared, body, ctx, b, fold);
        Ok((fold.Join(t, rest), u + v))
  }

  // --- Declarations behind a collection -----------------------------------------------------------

  /** The binders in scope with the declaration of the element each binds. */
  datatype Names = NoName | Name(name: string, declared: Option<Field>, outer: Names) {
    function Get(n: string): Option<Option<Field>> {
      if NoName? then None else if name == n then Some(declared) else outer.Get(n)
    }
  }

  function DeclaredNames(b: Bindings): Names {
    if b.NoBinding? then NoName else Name(b.name, b.declared, DeclaredNames(b.outer))
  }

  predicate IsOrdinal(segment: string) {
    segment == "0" || (segment != [] && segment[0] != '0' && AllDigits(segment))
  }

  /** The declaration one path reaches from another; none inside, where the kind is not declared. */
  function FieldAt(field: Field, path: seq<string>): Option<Option<Field>>
    requires path != []
    decreases |path|
  {
    match field.kind
    case JsonKind => Some(None)
    case UnionKind => Some(None)
    case ObjectKind =>
      if path[0] in field.properties.fields then
        (if |path| == 1 then Some(Some(field.properties.fields[path[0]]))
         else FieldAt(field.properties.fields[path[0]], path[1..]))
      else if field.properties.additional then Some(None)
      else None
    case ArrayKind =>
      if !IsOrdinal(path[0]) then None
      else if field.items.None? then Some(None)
      else if |path| == 1 then Some(field.items)
      else FieldAt(field.items.value, path[1..])
    case _ => None
  }

  function ElementOf(field: Option<Field>): Option<Option<Field>> {
    if field.None? then Some(None)
    else if field.value.kind.ArrayKind? || field.value.kind.MapKind? then Some(field.value.items)
    else None
  }

  function ElementUnder(schema: Schema, path: seq<string>): Option<Option<Field>>
    requires path != []
  {
    if path[0] !in schema.fields then (if schema.additional then Some(None) else None)
    else if |path| == 1 then ElementOf(Some(schema.fields[path[0]]))
    else
      var field :- FieldAt(schema.fields[path[0]], path[1..]);
      ElementOf(field)
  }

  /** The element declaration of the collection a quantifier walks, where it names a collection. */
  function CollectionElement(over: Json, fields: Schema, args: Option<Schema>, names: Names)
    : Option<Option<Field>>
  {
    if !over.Str? || over.text == [] then None else
    match names.Get(Head(over.text))
    case Some(element) =>
      if element.None? || Tail(over.text).None? then Some(None)
      else
        var field :- FieldAt(element.value, Tail(over.text).value);
        ElementOf(field)
    case None =>
      if over.text[0] != '$' then None else
      match ReferenceOf(over.text)
      case Reference(ArgsRoot, Some(path)) => if args.None? then None else ElementUnder(args.value, path)
      case Reference(FieldsRoot, Some(path)) => ElementUnder(fields, path)
      case Reference(OldFieldsRoot, Some(path)) => ElementUnder(fields, path)
      case _ => None
  }

  // --- The early evaluator ------------------------------------------------------------------------

  /** An answer, or that it waits for the subject. */
  datatype PartialTruth = Known(truth: Truth) | NeedsSubject {
    function And(other: PartialTruth): PartialTruth {
      if this == Known(False) || other == Known(False) then Known(False)
      else if Known? && other.Known? then Known(truth.And(other.truth))
      else NeedsSubject
    }

    function Or(other: PartialTruth): PartialTruth {
      if this == Known(True) || other == Known(True) then Known(True)
      else if Known? && other.Known? then Known(truth.Or(other.truth))
      else NeedsSubject
    }

    function Not(): PartialTruth {
      if Known? then Known(truth.Not()) else NeedsSubject
    }
  }

  function JoinPartial(fold: Fold, a: PartialTruth, b: PartialTruth): PartialTruth {
    if fold.Every? then a.And(b) else a.Or(b)
  }

  predicate SubjectRoot(name: string) {
    name == "fields" || name == "old_fields" || name == "from_state"
  }

  /** Whether resolving an operand would read the subject. */
  predicate ValueNeedsSubject(value: Json, b: Bindings) {
    match value
    case Str(s) => IsReference(s) && b.Get(Head(s)).None? && SubjectRoot(Head(s))
    case Arr(elements) => exists i | 0 <= i < |elements| :: ValueNeedsSubject(elements[i], b)
    case Obj(members) => exists k | k in members :: ValueNeedsSubject(members[k], b)
    case _ => false
  }

  predicate LeafNeedsSubject(c: Condition, b: Bindings) {
    match c
    case Exists(operand) => ValueNeedsSubject(operand, b)
    case Pair(_, left, right) => ValueNeedsSubject(left, b) || ValueNeedsSubject(right, b)
    case Compare(left, _, right) => ValueNeedsSubject(left, b) || ValueNeedsSubject(right, b)
    case Truthy(operand) => ValueNeedsSubject(operand, b)
    case _ => false
  }

  function EvaluateEarly(c: Condition, ctx: Context, b: Bindings)
    : Result<(PartialTruth, set<string>), CoreError>
    decreases c, 0, 0
  {
    match c
    case All(children) => EarlyEach(children, ctx, b, Every)
    case Any(children) => EarlyEach(children, ctx, b, AnyOne)
    case Not(child) =>
      var (t, u) :- EvaluateEarly(child, ctx, b);
      Ok((t.Not(), u))
    case ForAll(over, bind, body) => QuantifyEarly(over, bind, body, ctx, b, Every)
    case ForAny(over, bind, body) => QuantifyEarly(over, bind, body, ctx, b, AnyOne)
    case _ =>
      if LeafNeedsSubject(c, b) then Ok((NeedsSubject, {}))
      else
        var (t, u) :- Evaluate(c, ctx, b);
        Ok((Known(t), u))
  }

  function EarlyEach(children: seq<Condition>, ctx: Context, b: Bindings, fold: Fold)
    : Result<(PartialTruth, set<string>), CoreError>
    decreases children, 0, 0
  {
    if children == [] then Ok((Known(fold.Unit()), {})) else
      var (t, u) :- EvaluateEarly(children[0], ctx, b);
      var (rest, v) :- EarlyEach(children[1..], ctx, b, fold);
      Ok((JoinPartial(fold, t, rest), u + v))
  }

  function QuantifyEarly(over: Json, bind: string, body: Condition, ctx: Context, b: Bindings, fold: Fold)
    : Result<(PartialTruth, set<string>), CoreError>
    decreases body, 2, 0
  {
    if ValueNeedsSubject(over, b) then Ok((NeedsSubject, {})) else
    var (elements, u) :- Collection(over, ctx, b);
    if elements.None? then Ok((Known(Unknown), u))
    else
      var (t, v) :- EarlyElements(elements.value, bind, ElementDeclaration(over, ctx, b), body, ctx, b, fold);
      Ok((t, u + v))
  }

  /** Every element is looked at here: nothing stops the early fold. */
  function EarlyElements(elements: seq<Json>, bind: string, declared: Option<Field>, body: Condition,
                         ctx: Context, b: Bindings, fold: Fold)
    : Result<(PartialTruth, set<string>), CoreError>
    decreases body, 1, |elements|
  {
    if elements == [] then Ok((Known(fold.Unit()), {})) else
      var (t, u) :- EvaluateEarly(body, ctx, Binding(bind, elements[0], declared, b));
      var (rest, v) :- EarlyElements(elements[1..], bind, declared, body, ctx, b, fold);
      Ok((JoinPartial(fold, t, rest), u + v))
  }
}
