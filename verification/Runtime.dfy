/** The decision kernel: `definition + instance + operation + arguments -> Decision`, step by step. */
module Runtime {
  import opened Prelude
  import opened Keys
  import opened Truth
  import opened Definition
  import opened Reading
  import opened Evaluator
  import opened Values
  import opened Identity
  import Number
  import Paths
  import Sum

  datatype Instance = Instance(
    entity: string, version: nat, id: string, state: string, revision: nat, fields: Object)

  datatype Event = Event(
    entity: string, version: nat, id: string, revision: nat, eventType: string,
    fromState: Option<string>, toState: string,
    changed: Object, removed: set<string>, args: Object, payload: Json)

  datatype Command =
    | CreateCommand(fields: Object, arguments: Object)
    | ExecuteCommand(operation: string, arguments: Object, fulfillments: map<string, Action>)
    | LegacyImport

  datatype DecisionEffect = Created | Moved | Updated | Unchanged

  /** The complete record replay recomputes. */
  datatype Record = Record(
    definition: Option<Definition>, command: Command,
    entity: string, id: string, revision: nat, fromState: Option<string>, toState: string,
    result: Instance, changed: Object, removed: set<string>, events: seq<Event>,
    outcome: Option<string>, effect: Option<DecisionEffect>, response: Option<Object>)

  datatype Decision = Decision(instance: Instance, record: Record, events: seq<Event>)

  /** A refusing branch is an answer, not an error. */
  datatype Evaluation = Accepted(decision: Decision) | Declined(outcome: string, error: string)

  /** What one write does to a field. */
  datatype Change = Keep | Put(value: Json) | Drop

  /** Every part's value, or the error of the least key that has one. */
  function Gather<T>(parts: map<string, Result<T, CoreError>>): Result<map<string, T>, CoreError> {
    var failing := set k | k in parts && parts[k].Err?;
    if failing == {} then
      assert forall k | k in parts :: k !in failing;
      Ok(map k | k in parts :: parts[k].value)
    else
      var first := Least(failing);
      assert first in failing;
      Err(parts[first].error)
  }

  function Check(passed: bool, error: CoreError): Result<bool, CoreError> {
    if passed then Ok(true) else Err(error)
  }

  // --- Rules --------------------------------------------------------------------------------------

  function CheckPreconditions(operation: string, rules: seq<Rule>, ctx: Context): Result<bool, CoreError> {
    if rules == [] then Ok(true) else
      var (t, u) :- Evaluate(rules[0].condition, ctx, NoBinding);
      match t
      case True => CheckPreconditions(operation, rules[1..], ctx)
      case False => Err(PreconditionFailed(operation, rules[0].name))
      case Unknown => Err(PreconditionUnobservable(operation, rules[0].name, u))
  }

  function CheckInvariants(rules: seq<Rule>, ctx: Context): Result<bool, CoreError> {
    if rules == [] then Ok(true) else
      var (t, u) :- Evaluate(rules[0].condition, ctx, NoBinding);
      match t
      case True => CheckInvariants(rules[1..], ctx)
      case False => Err(InvariantViolation(rules[0].name))
      case Unknown => Err(InvariantUnobservable(rules[0].name, u))
  }

  // --- Branches -----------------------------------------------------------------------------------

  /** What every step after selection needs of the branch selection took. */
  datatype Branch = Branch(
    name: Option<string>,
    toState: string,
    assigns: map<string, Json>,
    setIfPresent: map<string, string>,
    fulfills: map<string, Requirement>,
    emits: seq<EventTemplate>,
    responds: Option<(map<string, Json>, map<string, string>)>,
    effect: Option<DecisionEffect>,
    refuses: Option<string>)

  /** `kernel/1` is `service/1` with one implicit branch. */
  function Implicit(operation: Operation, toState: string): Branch {
    Branch(None, toState, operation.assigns, map[], map[], operation.emits, None, None, None)
  }

  function EffectOf(effect: Effect): DecisionEffect {
    match effect
    case Moves(_, _) => Moved
    case Updates => Updated
    case NoEffect => Unchanged
    case Creates => Created
  }

  function Named(outcome: Outcome, state: string): Branch {
    Branch(Some(outcome.name), if outcome.effect.Moves? then outcome.effect.to else state,
           outcome.assigns, outcome.setIfPresent, outcome.fulfills, outcome.emits,
           Some((outcome.responds, outcome.respondsIfPresent)), Some(EffectOf(outcome.effect)),
           outcome.refuses)
  }

  /** Step 4: the first branch, in declared order, whose state guard and selector both hold. */
  function SelectOutcome(command: string, outcomes: seq<Outcome>, state: string, ctx: Context)
    : Result<Outcome, CoreError>
  {
    if outcomes == [] then Err(NoOutcomeSelected(command)) else
    var outcome := outcomes[0];
    if outcome.wrongState || (outcome.inState.Some? && outcome.inState.value != state)
    then SelectOutcome(command, outcomes[1..], state, ctx)
    else if outcome.when.None? then Ok(outcome)
    else
      var (t, u) :- Evaluate(outcome.when.value, ctx, NoBinding);
      match t
      case True => Ok(outcome)
      case False => SelectOutcome(command, outcomes[1..], state, ctx)
      case Unknown => Err(OutcomeUnobservable(command, outcome.name, u))
  }

  function MoveSources(outcomes: seq<Outcome>): set<string> {
    if outcomes == [] then {} else
      (if outcomes[0].effect.Moves? then set s | s in outcomes[0].effect.from else {})
      + MoveSources(outcomes[1..])
  }

  function WrongStateBranch(outcomes: seq<Outcome>): Option<Outcome> {
    if outcomes == [] then None
    else if outcomes[0].wrongState then Some(outcomes[0])
    else WrongStateBranch(outcomes[1..])
  }

  /** Step 5: whether the selected branch's move can start where the instance rests. */
  function AdmitState(definition: Definition, operation: Operation, name: string, outcome: Outcome,
                      state: string): Result<Outcome, CoreError>
  {
    if !outcome.effect.Moves? || state in outcome.effect.from then Ok(outcome)
    else if state in definition.states && state !in MoveSources(operation.outcomes) then
      match WrongStateBranch(operation.outcomes)
      case Some(branch) => Ok(branch)
      case None => Err(InvalidTransition(name, state))
    else Err(UnspecifiedMoveSource(name, outcome.name, state))
  }

  function TransitionFrom(transitions: seq<Transition>, state: string): Option<Transition> {
    if transitions == [] then None
    else if state in transitions[0].from then Some(transitions[0])
    else TransitionFrom(transitions[1..], state)
  }

  predicate HasBranches(definition: Definition, outcomes: seq<Outcome>) {
    definition.semantics.Service() && outcomes != []
  }

  /** What a selector reads of the subject; its destination state is not yet known. */
  function SelectorContext(doors: Doors, definition: Definition, instance: Instance, operation: Operation,
                           args: Object): Context
  {
    Context(doors, definition, Some(instance.id), args, Some(operation.arguments),
            instance.fields, instance.fields, Some(instance.state), instance.state)
  }

  function SelectBranch(doors: Doors, definition: Definition, instance: Instance, name: string,
                        operation: Operation, args: Object): Result<Branch, CoreError>
  {
    if HasBranches(definition, operation.outcomes) then
      var ctx := SelectorContext(doors, definition, instance, operation, args);
      var selected :- SelectOutcome(name, operation.outcomes, instance.state, ctx);
      var outcome :- AdmitState(definition, operation, name, selected, instance.state);
      Ok(Named(outcome, instance.state))
    else
      match TransitionFrom(operation.transitions, instance.state)
      case Some(transition) => Ok(Implicit(operation, transition.to))
      case None => Err(InvalidTransition(name, instance.state))
  }

  // --- Step 8 -------------------------------------------------------------------------------------

  function Ranged(sum: int, service: bool): Option<Json> {
    if InI64(sum) || (!service && 0 <= sum <= U64_MAX) then Some(Num(Paths.IntegerNumber(sum))) else None
  }

  function IntegerOf(n: Number.Number): Option<int> {
    if AsI64(n).Some? then AsI64(n) else AsU64(n)
  }

  /** The value the field held before the operation plus the amount, exactly, where its kind can hold
      that. */
  function Incremented(operation: string, field: string, amount: Json, ctx: Context): Result<Json, CoreError> {
    if field !in ctx.oldFields || !ctx.oldFields[field].Num? then Err(Validation)
    else
      var added :- ResolveTemplate(amount, ctx);
      if !added.Num? then Err(TemplateError)
      else
        var held := ctx.oldFields[field].number;
        var schema := ctx.definition.schema.fields;
        if field in schema && schema[field].kind.IntegerKind? then
          if IntegerOf(held).None? then Err(Validation)
          else if IntegerOf(added.number).None? then Err(TemplateError)
          else
            match Ranged(IntegerOf(held).value + IntegerOf(added.number).value, ctx.Service())
            case Some(sum) => Ok(sum)
            case None => Err(IncrementOverflow(operation, field))
        else
          match Sum.ExactSum(held, added.number)
          case None => Err(IncrementOverflow(operation, field))
          case Some(sum) =>
            Sum.SumIsExact(held, added.number);
            if ctx.Service() && OfNumber(ctx.doors, sum).None? then Err(IncrementOverflow(operation, field))
            else Ok(Num(sum))
  }

  /** What one `set` entry writes. */
  function AssignedValue(operation: string, field: string, value: Json, ctx: Context): Result<Change, CoreError> {
    match AssignmentOf(value)
    case Template(template) =>
      var resolved :- ResolveTemplate(template, ctx);
      Ok(Put(resolved))
    case Increment(amount) =>
      var sum :- Incremented(operation, field, amount, ctx);
      Ok(Put(sum))
    case Cleared(Bool(true)) => Ok(Drop)
    case _ => Err(TemplateError)
  }

  function Assigned(operation: string, assigns: map<string, Json>, ctx: Context)
    : Result<map<string, Change>, CoreError>
  {
    Gather(map k | k in assigns :: AssignedValue(operation, k, assigns[k], ctx))
  }

  /** The members whose conditional argument the caller sent. */
  function PresentArguments(conditional: map<string, string>, args: Object): Object {
    map k | k in conditional && ArgumentPresence(args, conditional[k]).Some? ::
      ArgumentPresence(args, conditional[k]).value
  }

  /** One host action, under the requirement its field carries. */
  function ActionChange(doors: Doors, definition: Definition, operation: string, outcome: string,
                        field: string, requirement: Requirement, action: Action): Result<Change, CoreError>
  {
    match action
    case Preserve => Ok(Keep)
    case SetTo(value) =>
      // Registration declares every fulfilled field.
      if field in definition.schema.fields
         && Conforms(doors, definition.schema.fields[field], value, definition.semantics.Service())
      then Ok(Put(value)) else Err(Validation)
    case Remove =>
      if requirement.MustStay? then Err(RequiredFieldRemoval(operation, outcome, field)) else Ok(Drop)
  }

  function Fulfilled(doors: Doors, definition: Definition, operation: string, branch: Branch,
                     fulfillments: Option<map<string, Action>>): Result<map<string, Change>, CoreError>
  {
    var outcome := if branch.name.Some? then branch.name.value else "";
    var required := branch.fulfills.Keys;
    if fulfillments.None? then
      if required == {} then Ok(map[]) else Err(FulfillmentRequired(operation, outcome, required))
    else
      var actions := fulfillments.value;
      if actions.Keys != required then
        Err(FulfillmentKeysMismatch(operation, outcome, required - actions.Keys, actions.Keys - required))
      else
        Gather(map k | k in actions ::
                 ActionChange(doors, definition, operation, outcome, k, branch.fulfills[k], actions[k]))
  }

  function AfterChange(fields: Object, changes: map<string, Change>, k: string): Option<Json> {
    if k in changes && changes[k].Put? then Some(changes[k].value)
    else if k in changes && changes[k].Drop? then None
    else if k in fields then Some(fields[k])
    else None
  }

  /** The fields once every change is made. */
  function Apply(fields: Object, changes: map<string, Change>): Object {
    map k | k in fields.Keys + changes.Keys && AfterChange(fields, changes, k).Some? ::
      AfterChange(fields, changes, k).value
  }

  function Dropped(changes: map<string, Change>): set<string> {
    set k | k in changes && changes[k].Drop?
  }

  /** The fields after step 8, and those it removed: `set`, then the present arguments, then the host's
      actions. */
  function Written(fields: Object, sets: map<string, Change>, copied: Object,
                   fulfilled: map<string, Change>): (Object, set<string>)
  {
    (Apply(Apply(fields, sets) + copied, fulfilled), Dropped(sets) + Dropped(fulfilled))
  }

  function StepEight(doors: Doors, definition: Definition, name: string, branch: Branch, ctx: Context,
                     fulfillments: Option<map<string, Action>>): Result<(Object, set<string>), CoreError>
  {
    var sets :- Assigned(name, branch.assigns, ctx);
    var fulfilled :- Fulfilled(doors, definition, name, branch, fulfillments);
    Ok(Written(ctx.oldFields, sets, PresentArguments(branch.setIfPresent, ctx.args), fulfilled))
  }

  // --- Identity, events, response -----------------------------------------------------------------

  /** Step 11: the identity field and the storage address still agree. */
  function CheckIdentity(doors: Doors, definition: Definition, instance: Instance): Result<bool, CoreError> {
    if definition.identity.None? then Ok(true)
    else
      var field := definition.identity.value;
      var kind := if field in definition.schema.fields then definition.schema.fields[field].kind else StringKind;
      Check(field in instance.fields && Address(doors, kind, instance.fields[field]) == Ok(instance.id),
            IdentityMismatch(field))
  }

  function DeriveIdentity(doors: Doors, definition: Definition, fields: Object): Result<string, CoreError> {
    if definition.identity.None? then Err(CreationIdentityUnavailable)
    else
      var field := definition.identity.value;
      if field !in definition.schema.fields || field !in fields then Err(CreationIdentityUnavailable)
      else
        match Address(doors, definition.schema.fields[field].kind, fields[field])
        case Ok(address) => Ok(address)
        case Err(_) => Err(CreationIdentityUnavailable)
  }

  /** Every field whose value differs from before. */
  function ChangedFields(oldFields: Object, newFields: Object): Object {
    map k | k in newFields && !(k in oldFields && oldFields[k] == newFields[k]) :: newFields[k]
  }

  function Payload(template: EventTemplate, ctx: Context): Result<Json, CoreError> {
    var payload :- ResolveTemplate(template.payload, ctx);
    if template.payloadIfPresent == map[] then Ok(payload)
    else if !payload.Obj? then Err(TemplateError)
    else Ok(Obj(payload.members + PresentArguments(template.payloadIfPresent, ctx.args)))
  }

  function MaterializeEvent(template: EventTemplate, ctx: Context, revision: nat, args: Object,
                            removed: set<string>): Result<Event, CoreError>
  {
    var payload :- Payload(template, ctx);
    if ctx.id.None? then Err(TemplateError)
    else Ok(Event(ctx.definition.entity, ctx.definition.version, ctx.id.value, revision, template.eventType,
                  ctx.fromState, ctx.toState, ChangedFields(ctx.oldFields, ctx.newFields), removed, args,
                  payload))
  }

  /** Step 13, in declaration order. */
  function MaterializeEvents(templates: seq<EventTemplate>, ctx: Context, revision: nat, args: Object,
                             removed: set<string>): Result<seq<Event>, CoreError>
  {
    if templates == [] then Ok([]) else
      var first :- MaterializeEvent(templates[0], ctx, revision, args, removed);
      var rest :- MaterializeEvents(templates[1..], ctx, revision, args, removed);
      Ok([first] + rest)
  }

  /** What each template resolves to. */
  function RenderedEach(templates: map<string, Json>, ctx: Context): map<string, Result<Json, CoreError>> {
    map k | k in templates :: ResolveTemplate(templates[k], ctx)
  }

  /** Step 14; a recorded decision's response is recomputed without being judged again. */
  function MaterializeResponse(responds: Option<(map<string, Json>, map<string, string>)>, schema: Schema,
                               ctx: Context, checked: bool): Result<Option<Object>, CoreError>
  {
    if responds.None? then Ok(None)
    else
      var (always, ifPresent) := responds.value;
      var resolved :- Gather(RenderedEach(always, ctx));
      var response := resolved + PresentArguments(ifPresent, ctx.args);
      if checked && !ValidObject(ctx.doors, schema, response, ctx.Service()) then Err(Validation)
      else Ok(Some(response))
  }

  // --- Operations ---------------------------------------------------------------------------------

  function NormalizeOr(doors: Doors, schema: Schema, input: Json, service: bool): Result<Object, CoreError> {
    match Normalize(doors, schema, input, service)
    case Some(given) => Ok(given)
    case None => Err(Validation)
  }

  function BeforeContext(doors: Doors, definition: Definition, instance: Instance, operation: Operation,
                         args: Object, toState: string): Context
  {
    Context(doors, definition, Some(instance.id), args, Some(operation.arguments),
            instance.fields, instance.fields, Some(instance.state), toState)
  }

  function AfterContext(doors: Doors, definition: Definition, instance: Instance, operation: Operation,
                        args: Object, toState: string, fields: Object): Context
  {
    BeforeContext(doors, definition, instance, operation, args, toState).(newFields := fields)
  }

  /** Steps 0 and 1. */
  function Matches(definition: Definition, instance: Instance): Result<bool, CoreError> {
    if definition.entity != instance.entity || definition.version != instance.version then Err(EntityMismatch)
    else Check(instance.state in definition.states, UnknownState(instance.state))
  }

  /** `decide`: the sixteen steps, each refusal returned before the next step. */
  function Decide(doors: Doors, definition: Definition, instance: Instance, name: string, input: Json,
                  fulfillments: Option<map<string, Action>>, checked: bool): Result<Evaluation, CoreError>
  {
    var _ :- Matches(definition, instance);
    if name !in definition.operations then Err(OperationNotFound(name))
    else
      var operation := definition.operations[name];
      var args :- NormalizeOr(doors, operation.arguments, input, definition.semantics.Service());
      var branch :- SelectBranch(doors, definition, instance, name, operation, args);
      if branch.name.Some? && branch.refuses.Some? then Ok(Declined(branch.name.value, branch.refuses.value))
      else
        var decision :- Carry(doors, definition, instance, name, operation, args, branch, fulfillments, checked);
        Ok(Accepted(decision))
  }

  /** Steps 7 and 8. */
  function Carry(doors: Doors, definition: Definition, instance: Instance, name: string,
                 operation: Operation, args: Object, branch: Branch,
                 fulfillments: Option<map<string, Action>>, checked: bool): Result<Decision, CoreError>
  {
    var ctx := BeforeContext(doors, definition, instance, operation, args, branch.toState);
    var _ :- CheckPreconditions(name, operation.preconditions, ctx);
    var (fields, removed) :- StepEight(doors, definition, name, branch, ctx, fulfillments);
    var given := if fulfillments.Some? then fulfillments.value else map[];
    Conclude(doors, definition, instance, name, operation, args, branch, given, checked, fields, removed)
  }

  /** Steps 9 to 15. */
  function Conclude(doors: Doors, definition: Definition, instance: Instance, name: string,
                    operation: Operation, args: Object, branch: Branch, fulfillments: map<string, Action>,
                    checked: bool, fields: Object, removed: set<string>): Result<Decision, CoreError>
  {
    var _ :- Check(ValidObject(doors, definition.schema, fields, definition.semantics.Service()), Validation);
    var _ :- Check(instance.revision + 1 <= I64_MAX, RevisionExhausted);
    var next := instance.(state := branch.toState, revision := instance.revision + 1, fields := fields);
    var _ :- CheckIdentity(doors, definition, next);
    var ctx := AfterContext(doors, definition, instance, operation, args, branch.toState, fields);
    var _ :- CheckInvariants(definition.invariants, ctx);
    var events :- MaterializeEvents(branch.emits, ctx, next.revision, args, removed);
    var response :- MaterializeResponse(branch.responds, operation.response, ctx, checked);
    Ok(Decision(
         next,
         Record(Some(definition), ExecuteCommand(name, args, fulfillments), next.entity, next.id,
                next.revision, Some(instance.state), next.state, next,
                ChangedFields(instance.fields, fields), removed, events,
                branch.name, branch.effect, response),
         events))
  }

  // --- Creation -----------------------------------------------------------------------------------

  function CreateContext(doors: Doors, definition: Definition, id: Option<string>, args: Object,
                         argumentsSchema: Option<Schema>, fields: Object): Context
  {
    Context(doors, definition, id, args, argumentsSchema, map[], fields, None, definition.initial)
  }

  function Born(definition: Definition, id: string, fields: Object): Instance {
    Instance(definition.entity, definition.version, id, definition.initial, 1, fields)
  }

  function Birth(definition: Definition, instance: Instance, arguments: Object, events: seq<Event>,
                 outcome: Option<string>, effect: Option<DecisionEffect>, response: Option<Object>): Decision
  {
    Decision(
      instance,
      Record(Some(definition), CreateCommand(instance.fields, arguments), instance.entity, instance.id,
             instance.revision, None, instance.state, instance, instance.fields, {}, events,
             outcome, effect, response),
      events)
  }

  /** Creation whose input is its fields. */
  function CreateFromFields(doors: Doors, definition: Definition, id: string, input: Json)
    : Result<Decision, CoreError>
  {
    var service := definition.semantics.Service();
    var fields :- NormalizeOr(doors, definition.schema, input, service);
    var instance := Born(definition, id, fields);
    var ctx := CreateContext(doors, definition, Some(id), map[], None, fields);
    var _ :- CheckIdentity(doors, definition, instance);
    var _ :- CheckInvariants(definition.invariants, ctx);
    var templates := if definition.create.emit.Some? then [definition.create.emit.value] else [];
    var events :- MaterializeEvents(templates, ctx, 1, fields, {});
    Ok(Birth(definition, instance, if service then fields else map[], events, None, None, None))
  }

  /** The service creation: the selected branch's `set` produces the fields. */
  function ServiceCreate(doors: Doors, definition: Definition, supplied: Option<string>, input: Json,
                         checked: bool): Result<Evaluation, CoreError>
  {
    var create := definition.create;
    var args :- NormalizeOr(doors, create.arguments, input, definition.semantics.Service());
    var ctx := CreateContext(doors, definition, supplied, args, Some(create.arguments), map[]);
    var outcome :- SelectOutcome("create", create.outcomes, definition.initial, ctx);
    if outcome.refuses.Some? then Ok(Declined(outcome.name, outcome.refuses.value))
    else
      var sets :- Gather(RenderedEach(outcome.assigns, ctx));
      var fields := FillMembers(definition.schema, sets + PresentArguments(outcome.setIfPresent, args));
      var _ :- Check(ValidObject(doors, definition.schema, fields, definition.semantics.Service()), Validation);
      var id :- if supplied.Some? then Ok(supplied.value) else DeriveIdentity(doors, definition, fields);
      var decision :- CompleteCreate(doors, definition, args, outcome, id, fields, checked);
      Ok(Accepted(decision))
  }

  /** Steps 10 to 15 of a service creation. */
  function CompleteCreate(doors: Doors, definition: Definition, args: Object, outcome: Outcome, id: string,
                          fields: Object, checked: bool): Result<Decision, CoreError>
  {
    var create := definition.create;
    var instance := Born(definition, id, fields);
    var _ :- CheckIdentity(doors, definition, instance);
    var ctx := CreateContext(doors, definition, Some(id), args, Some(create.arguments), fields);
    var _ :- CheckInvariants(definition.invariants, ctx);
    var events :- MaterializeEvents(outcome.emits, ctx, 1, args, {});
    var response :- MaterializeResponse(Some((outcome.responds, outcome.respondsIfPresent)), create.response,
                                        ctx, checked);
    Ok(Birth(definition, instance, args, events, Some(outcome.name),
             Some(if outcome.effect.Creates? then Created else Unchanged), response))
  }

  /** `decide_create`: a blank identity is refused before anything else. */
  function DecideCreate(doors: Doors, definition: Definition, id: string, input: Json, checked: bool)
    : Result<Evaluation, CoreError>
  {
    if Blank(id) then Err(Validation)
    else if HasBranches(definition, definition.create.outcomes)
    then ServiceCreate(doors, definition, Some(id), input, checked)
    else
      var decision :- CreateFromFields(doors, definition, id, input);
      Ok(Accepted(decision))
  }

  /** `decide_create_derived`: the validated fields give the address. */
  function DecideCreateDerived(doors: Doors, definition: Definition, input: Json): Result<Evaluation, CoreError> {
    if HasBranches(definition, definition.create.outcomes)
    then ServiceCreate(doors, definition, None, input, true)
    else
      var fields :- NormalizeOr(doors, definition.schema, input, definition.semantics.Service());
      var id :- DeriveIdentity(doors, definition, fields);
      DecideCreate(doors, definition, id, Obj(fields), true)
  }

  // --- Before and after loading -------------------------------------------------------------------

  /** An operation prepared before its subject is loaded. */
  datatype Prepared = Prepared(operation: string, id: string, arguments: Object, checked: bool)

  datatype Preload = Load(prepared: Prepared) | Early(outcome: string, error: string)

  function EarlyContext(doors: Doors, definition: Definition, id: string, operation: Operation, args: Object)
    : Context
  {
    Context(doors, definition, Some(id), args, Some(operation.arguments), map[], map[], None, definition.initial)
  }

  /** The first branch an early answer decides, none where the subject is needed or accepts. */
  function EarlyRefusal(command: string, outcomes: seq<Outcome>, ctx: Context)
    : Result<Option<Outcome>, CoreError>
  {
    if outcomes == [] then Err(NoOutcomeSelected(command)) else
    var outcome := outcomes[0];
    if outcome.wrongState then EarlyRefusal(command, outcomes[1..], ctx)
    else if outcome.inState.Some? then Ok(None)
    else if outcome.when.None? then Ok(if outcome.refuses.Some? then Some(outcome) else None)
    else
      var (t, u) :- EvaluateEarly(outcome.when.value, ctx, NoBinding);
      match t
      case NeedsSubject => Ok(None)
      case Known(False) => EarlyRefusal(command, outcomes[1..], ctx)
      case Known(True) => Ok(if outcome.refuses.Some? then Some(outcome) else None)
      case Known(Unknown) => Err(OutcomeUnobservable(command, outcome.name, u))
  }

  function DecideBeforeLoad(doors: Doors, definition: Definition, id: string, name: string, input: Json,
                            checked: bool): Result<Preload, CoreError>
  {
    if Blank(id) then Err(Validation)
    else if name !in definition.operations then Err(OperationNotFound(name))
    else
      var operation := definition.operations[name];
      var args :- NormalizeOr(doors, operation.arguments, input, definition.semantics.Service());
      var load := Load(Prepared(name, id, args, checked));
      if !HasBranches(definition, operation.outcomes) then Ok(load)
      else
        var refusal :- EarlyRefusal(name, operation.outcomes,
                                    EarlyContext(doors, definition, id, operation, args));
        match refusal
        case None => Ok(load)
        case Some(outcome) => Ok(if outcome.refuses.Some? then Early(outcome.name, outcome.refuses.value) else load)
  }

  datatype Loaded = Complete(evaluation: Evaluation) | NeedsFulfillment(outcome: string)

  /** Entity and version, then the subject, then its state. */
  function SubjectMatches(definition: Definition, prepared: Prepared, instance: Instance): Result<bool, CoreError> {
    if definition.entity != instance.entity || definition.version != instance.version then Err(EntityMismatch)
    else if instance.id != prepared.id then Err(SubjectMismatch)
    else Check(instance.state in definition.states, UnknownState(instance.state))
  }

  function SelectWith(doors: Doors, definition: Definition, prepared: Prepared, instance: Instance)
    : Result<Loaded, CoreError>
  {
    var _ :- SubjectMatches(definition, prepared, instance);
    match Decide(doors, definition, instance, prepared.operation, Obj(prepared.arguments), None, prepared.checked)
    case Ok(evaluation) => Ok(Complete(evaluation))
    case Err(error) =>
      if error.FulfillmentRequired? then Ok(NeedsFulfillment(error.outcome)) else Err(error)
  }

  function CompleteWith(doors: Doors, definition: Definition, prepared: Prepared, instance: Instance,
                        actions: map<string, Action>): Result<Evaluation, CoreError>
  {
    Decide(doors, definition, instance, prepared.operation, Obj(prepared.arguments), Some(actions),
           prepared.checked)
  }

  function RequirementsOf(outcomes: seq<Outcome>, name: string): set<string> {
    if outcomes == [] then {}
    else if outcomes[0].name == name then outcomes[0].fulfills.Keys
    else RequirementsOf(outcomes[1..], name)
  }

  function ContinueWith(doors: Doors, definition: Definition, prepared: Prepared, instance: Instance)
    : Result<Evaluation, CoreError>
    requires prepared.operation in definition.operations
  {
    var loaded :- SelectWith(doors, definition, prepared, instance);
    match loaded
    case Complete(evaluation) => Ok(evaluation)
    case NeedsFulfillment(outcome) =>
      var outcomes := definition.operations[prepared.operation].outcomes;
      Err(FulfillmentRequired(prepared.operation, outcome, RequirementsOf(outcomes, outcome)))
  }
}
