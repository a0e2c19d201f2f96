/** Deciding before the subject is loaded and deciding after are one decision. */
module EarlyAnswers {
  import opened Prelude
  import opened Truth
  import opened Definition
  import opened Reading
  import opened Paths
  import opened Evaluator
  import opened Operands
  import opened Scopes
  import opened Agreement
  import opened Early
  import opened Values
  import opened Runtime
  import opened Registration
  import opened Traces
  import opened Safety
  import opened Identity
  import Sum

  // --- How evaluation fails -----------------------------------------------------------------------

  /** An evaluation that fails fails on a reference. */
  lemma {:induction false} EvaluationFails(c: Condition, ctx: Context, b: Bindings)
    ensures Evaluate(c, ctx, b).Err? ==> Evaluate(c, ctx, b).error == TemplateError
    decreases c, 0, 0
  {
    hide ResolveOperand, AnswerPair, CompareScalars, TruthOf, CollectionElement;
    match c
    case Literal(_) =>
    case All(children) => EachFails(children, ctx, b, Every);
    case Any(children) => EachFails(children, ctx, b, AnyOne);
    case Not(child) => EvaluationFails(child, ctx, b);
    case Exists(operand) => OperandFails(operand, ctx, b);
    case Pair(_, left, right) =>
      OperandFails(left, ctx, b);
      OperandFails(right, ctx, b);
    case Compare(left, _, right) =>
      OperandFails(left, ctx, b);
      OperandFails(right, ctx, b);
    case Truthy(operand) => OperandFails(operand, ctx, b);
    case ForAll(over, bind, body) => QuantifierFails(over, bind, body, ctx, b, Every);
    case ForAny(over, bind, body) => QuantifierFails(over, bind, body, ctx, b, AnyOne);
  }

  lemma {:induction false} EachFails(children: seq<Condition>, ctx: Context, b: Bindings, fold: Fold)
    ensures EvaluateEach(children, ctx, b, fold).Err? ==>
              EvaluateEach(children, ctx, b, fold).error == TemplateError
    decreases children, 0, 0
  {
    hide Evaluate;
    if children != [] {
      EvaluationFails(children[0], ctx, b);
      EachFails(children[1..], ctx, b, fold);
    }
  }

  lemma {:induction false} QuantifierFails(over: Json, bind: string, body: Condition, ctx: Context, b: Bindings,
                                           fold: Fold)
    ensures Quantify(over, bind, body, ctx, b, fold).Err? ==>
              Quantify(over, bind, body, ctx, b, fold).error == TemplateError
    decreases body, 2, 0
  {
    hide ResolveOperand, EvaluateElements, ElementDeclaration, ElementsOf;
    OperandFails(over, ctx, b);
    var walked := Collection(over, ctx, b);
    if walked.Ok? && walked.value.0.Some? {
      ElementsFail(walked.value.0.value, bind, ElementDeclaration(over, ctx, b), body, ctx, b, fold);
    }
  }

  lemma {:induction false} ElementsFail(elements: seq<Json>, bind: string, declared: Option<Field>,
                                        body: Condition, ctx: Context, b: Bindings, fold: Fold)
    ensures EvaluateElements(elements, bind, declared, body, ctx, b, fold).Err? ==>
              EvaluateElements(elements, bind, declared, body, ctx, b, fold).error == TemplateError
    decreases body, 1, |elements|
  {
    hide Evaluate;
    if elements != [] {
      EvaluationFails(body, ctx, Binding(bind, elements[0], declared, b));
      ElementsFail(elements[1..], bind, declared, body, ctx, b, fold);
    }
  }

  // --- Selection before and after loading ---------------------------------------------------------

  /** The same refusal on the same outcome; which addresses are listed may differ (see `Lists`). */
  predicate SameVerdict(a: CoreError, b: CoreError) {
    if a.OutcomeUnobservable? && b.OutcomeUnobservable?
    then a.operation == b.operation && a.outcome == b.outcome
    else a == b
  }

  ghost predicate SelectorsAccepted(doors: Doors, outcomes: seq<Outcome>, scope: Scope) {
    forall o | o in outcomes :: o.when.Some? ==> RuleAccepted(doors, o.when.value, scope)
  }

  /** What the early walk decides, the full selection decides for every subject in every state. */
  lemma {:induction false} EarlySelection(doors: Doors, command: string, outcomes: seq<Outcome>, scope: Scope,
                                          early: Context, full: Context, state: string)
    requires SelectorsAccepted(doors, outcomes, scope)
    requires scope.kind.OutcomeSelector? && scope.names.NoName?
    requires AddsSubject(early, full) && early.id.Some?
    ensures var refusal := EarlyRefusal(command, outcomes, early);
            var selected := SelectOutcome(command, outcomes, state, full);
            && (refusal.Err? ==> selected.Err? && SameVerdict(refusal.error, selected.error))
            && (refusal.Ok? && refusal.value.Some? ==> selected == Ok(refusal.value.value))
    ensures var refusal := EarlyRefusal(command, outcomes, early);
            && (refusal.Ok? && refusal.value.Some? ==>
                  refusal.value.value in outcomes && refusal.value.value.refuses.Some?)
            && (refusal.Err? ==> !refusal.error.FulfillmentRequired?)
  {
    hide Evaluate, EvaluateEarly, ConditionAccepted, ConditionObservable, Depth, Refines;
    if outcomes != [] {
      var o := outcomes[0];
      if o.when.Some? {
        assert RuleAccepted(doors, o.when.value, scope);
        EarlyAgrees(o.when.value, scope, early, full);
      }
      EarlySelection(doors, command, outcomes[1..], scope, early, full, state);
    }
  }

  lemma OperationSelectors(doors: Doors, definition: Definition, name: string)
    requires Registered(doors, definition) && name in definition.operations
    ensures var operation := definition.operations[name];
            SelectorsAccepted(doors, operation.outcomes,
                              ScopeOf(definition, OutcomeSelector, Some(operation.arguments)))
  {
    hide Registered, RuleAccepted, SetAccepted, EventAccepted, RespondsAccepted, ConditionalAccepted,
         FulfillmentAccepted, OutcomeSound;
    forall o | o in definition.operations[name].outcomes
      ensures OperationOutcome(doors, definition, definition.operations[name], o)
    {
      RegisteredOutcome(doors, definition, name, o);
    }
  }

  lemma EarlyIsLoaded(doors: Doors, definition: Definition, instance: Instance, operation: Operation, args: Object)
    ensures AddsSubject(EarlyContext(doors, definition, instance.id, operation, args),
                   SelectorContext(doors, definition, instance, operation, args))
  {
  }

  /** A refusing branch is admitted in every state: it moves nothing. */
  lemma RefusalIsAdmitted(doors: Doors, definition: Definition, name: string, o: Outcome, state: string)
    requires Registered(doors, definition) && name in definition.operations
    requires o in definition.operations[name].outcomes && o.refuses.Some?
    ensures AdmitState(definition, definition.operations[name], name, o, state) == Ok(o)
  {
    hide Registered, OperationOutcome, MoveSources;
    RegisteredOutcome(doors, definition, name, o);
  }

  /** An instance the prepared operation can be continued with. */
  predicate IsSubject(definition: Definition, id: string, instance: Instance) {
    && instance.entity == definition.entity && instance.version == definition.version
    && instance.id == id && instance.state in definition.states
  }

  /** The branch an early refusal names is the one selected and admitted after loading. */
  lemma EarlyBranch(doors: Doors, definition: Definition, id: string, name: string, args: Object, instance: Instance)
    requires Registered(doors, definition) && IsSubject(definition, id, instance)
    requires name in definition.operations && HasBranches(definition, definition.operations[name].outcomes)
    ensures var operation := definition.operations[name];
            var refusal := EarlyRefusal(name, operation.outcomes, EarlyContext(doors, definition, id, operation, args));
            var selected := SelectBranch(doors, definition, instance, name, operation, args);
            && (refusal.Err? ==> selected.Err? && SameVerdict(refusal.error, selected.error))
            && (refusal.Ok? && refusal.value.Some? ==>
                  && selected == Ok(Named(refusal.value.value, instance.state))
                  && refusal.value.value.refuses.Some?)
  {
    hide Registered, EarlyRefusal, SelectOutcome, AdmitState, EarlyContext, SelectorContext, Named;
    var operation := definition.operations[name];
    var scope := ScopeOf(definition, OutcomeSelector, Some(operation.arguments));
    var early := EarlyContext(doors, definition, id, operation, args);
    var full := SelectorContext(doors, definition, instance, operation, args);
    OperationSelectors(doors, definition, name);
    EarlyIsLoaded(doors, definition, instance, operation, args);
    EarlyHasId(doors, definition, id, operation, args);
    EarlySelection(doors, name, operation.outcomes, scope, early, full, instance.state);
    var refusal := EarlyRefusal(name, operation.outcomes, early);
    if refusal.Ok? && refusal.value.Some? {
      RefusalIsAdmitted(doors, definition, name, refusal.value.value, instance.state);
    }
  }

  /** Whatever is answered before loading is answered after, for every matching subject and with any
      host actions. */
  lemma EarlyAnswersHold(doors: Doors, definition: Definition, id: string, name: string, input: Json,
                         instance: Instance, f: Option<map<string, Action>>, checked: bool)
    requires Registered(doors, definition) && !Blank(id) && IsSubject(definition, id, instance)
    ensures var early := DecideBeforeLoad(doors, definition, id, name, input, checked);
            var full := Decide(doors, definition, instance, name, input, f, checked);
            && (early.Err? ==> full.Err? && SameVerdict(early.error, full.error))
            && (early.Ok? && early.value.Early? ==> full == Ok(Declined(early.value.outcome, early.value.error)))
            && (early.Ok? && early.value.Load? ==>
                  && name in definition.operations
                  && early.value.prepared.operation == name && early.value.prepared.id == id
                  && early.value.prepared.checked == checked
                  && Normalize(doors, definition.operations[name].arguments, input, definition.semantics.Service())
                     == Some(early.value.prepared.arguments))
  {
    hide Registered, Normalize, EarlyRefusal, SelectBranch, Carry, EarlyContext, HasBranches;
    if name in definition.operations {
      var operation := definition.operations[name];
      var normal := Normalize(doors, operation.arguments, input, definition.semantics.Service());
      if normal.Some? && HasBranches(definition, operation.outcomes) {
        EarlyBranch(doors, definition, id, name, normal.value, instance);
      }
    }
  }

  lemma EarlyHasId(doors: Doors, definition: Definition, id: string, operation: Operation, args: Object)
    ensures EarlyContext(doors, definition, id, operation, args).id == Some(id)
  {
  }

  // --- Continuing ---------------------------------------------------------------------------------

  lemma {:induction false} SelectionNeverAsksHost(command: string, outcomes: seq<Outcome>, state: string, ctx: Context)
    ensures var r := SelectOutcome(command, outcomes, state, ctx);
            r.Err? ==> !r.error.FulfillmentRequired?
  {
    hide Evaluate;
    if outcomes != [] {
      if outcomes[0].when.Some? {
        EvaluationFails(outcomes[0].when.value, ctx, NoBinding);
      }
      SelectionNeverAsksHost(command, outcomes[1..], state, ctx);
    }
  }

  lemma {:induction false} RulesNeverAskHost(operation: string, rules: seq<Rule>, ctx: Context)
    ensures CheckPreconditions(operation, rules, ctx).Err? ==>
              !CheckPreconditions(operation, rules, ctx).error.FulfillmentRequired?
    ensures CheckInvariants(rules, ctx).Err? ==> !CheckInvariants(rules, ctx).error.FulfillmentRequired?
  {
    hide Evaluate;
    if rules != [] {
      EvaluationFails(rules[0].condition, ctx, NoBinding);
      RulesNeverAskHost(operation, rules[1..], ctx);
    }
  }

  lemma GatherFails<T>(parts: map<string, Result<T, CoreError>>)
    requires forall k | k in parts :: parts[k].Err? ==> !parts[k].error.FulfillmentRequired?
    ensures Gather(parts).Err? ==> !Gather(parts).error.FulfillmentRequired?
  {
  }

  lemma AssignmentNeverAsksHost(operation: string, assigns: map<string, Json>, ctx: Context)
    ensures Assigned(operation, assigns, ctx).Err? ==>
              !Assigned(operation, assigns, ctx).error.FulfillmentRequired?
  {
    hide ResolveTemplate, Gather, Sum.ExactSum, Ranged, IntegerOf;
    GatherFails(map k | k in assigns :: AssignedValue(operation, k, assigns[k], ctx));
  }

  lemma {:induction false} EventsNeverAskHost(templates: seq<EventTemplate>, ctx: Context, revision: nat,
                                              args: Object, removed: set<string>)
    ensures MaterializeEvents(templates, ctx, revision, args, removed).Err? ==>
              !MaterializeEvents(templates, ctx, revision, args, removed).error.FulfillmentRequired?
  {
    hide ResolveTemplate, ChangedFields, PresentArguments;
    if templates != [] {
      EventsNeverAskHost(templates[1..], ctx, revision, args, removed);
    }
  }

  lemma ResponseNeverAsksHost(responds: Option<(map<string, Json>, map<string, string>)>, schema: Schema,
                              ctx: Context, checked: bool)
    ensures MaterializeResponse(responds, schema, ctx, checked).Err? ==>
              !MaterializeResponse(responds, schema, ctx, checked).error.FulfillmentRequired?
  {
    hide ResolveTemplate, Gather, ValidObject, PresentArguments;
    if responds.Some? {
      GatherFails(RenderedEach(responds.value.0, ctx));
    }
  }

  lemma ConcludingNeverAsksHost(doors: Doors, definition: Definition, instance: Instance, name: string,
                                operation: Operation, args: Object, branch: Branch,
                                fulfillments: map<string, Action>, checked: bool, fields: Object,
                                removed: set<string>)
    ensures var r := Conclude(doors, definition, instance, name, operation, args, branch, fulfillments, checked,
                              fields, removed);
            r.Err? ==> !r.error.FulfillmentRequired?
  {
    hide ValidObject, CheckInvariants, MaterializeEvents, MaterializeResponse, AfterContext, ChangedFields,
         Address;
    var ctx := AfterContext(doors, definition, instance, operation, args, branch.toState, fields);
    RulesNeverAskHost(name, definition.invariants, ctx);
    EventsNeverAskHost(branch.emits, ctx, instance.revision + 1, args, removed);
    ResponseNeverAsksHost(branch.responds, operation.response, ctx, checked);
  }

  /** When a decision without host actions asks for them, it asks for its branch's. */
  lemma AsksForItsBranch(doors: Doors, definition: Definition, instance: Instance, name: string,
                         operation: Operation, args: Object, branch: Branch, checked: bool)
    requires Carry(doors, definition, instance, name, operation, args, branch, None, checked).Err?
    requires Carry(doors, definition, instance, name, operation, args, branch, None, checked).error.FulfillmentRequired?
    ensures branch.fulfills.Keys != {}
    ensures Carry(doors, definition, instance, name, operation, args, branch, None, checked).error
         == FulfillmentRequired(name, if branch.name.Some? then branch.name.value else "", branch.fulfills.Keys)
  {
    hide CheckPreconditions, Assigned, Conclude, BeforeContext, Written, PresentArguments;
    var ctx := BeforeContext(doors, definition, instance, operation, args, branch.toState);
    RulesNeverAskHost(name, operation.preconditions, ctx);
    AssignmentNeverAsksHost(name, branch.assigns, ctx);
    var step := StepEight(doors, definition, name, branch, ctx, None);
    if step.Ok? {
      ConcludingNeverAsksHost(doors, definition, instance, name, operation, args, branch, map[], checked,
                              step.value.0, step.value.1);
    }
  }

  lemma SelectBranchNeverAsksHost(doors: Doors, definition: Definition, instance: Instance, name: string,
                                  operation: Operation, args: Object)
    ensures var r := SelectBranch(doors, definition, instance, name, operation, args);
            r.Err? ==> !r.error.FulfillmentRequired?
  {
    hide SelectOutcome, MoveSources, SelectorContext, WrongStateBranch;
    SelectionNeverAsksHost(name, operation.outcomes, instance.state,
                           SelectorContext(doors, definition, instance, operation, args));
  }

  lemma {:induction false} RequirementsByName(outcomes: seq<Outcome>, o: Outcome)
    requires o in outcomes
    requires forall i, j | 0 <= i < j < |outcomes| :: outcomes[i].name != outcomes[j].name
    ensures RequirementsOf(outcomes, o.name) == o.fulfills.Keys
  {
    if o != outcomes[0] {
      var j :| 0 < j < |outcomes| && outcomes[j] == o;
      assert outcomes[0].name != outcomes[j].name;
      assert outcomes[1..][j - 1] == o;
      RequirementsByName(outcomes[1..], o);
    }
  }

  lemma OutcomeNamesDistinct(doors: Doors, definition: Definition, name: string)
    requires Registered(doors, definition) && name in definition.operations
    ensures var outcomes := definition.operations[name].outcomes;
            forall i, j | 0 <= i < j < |outcomes| :: outcomes[i].name != outcomes[j].name
  {
    hide Registered, TransitionsSound, RuleAccepted, SetAccepted, EventAccepted, OutcomeSound,
         OperationOutcome, MoveSources, SchemaDeclared;
    RegisteredOperation(doors, definition, name);
  }

  /** The fields an unanswered fulfillment names are the requirements of the outcome it names. */
  lemma AskedRequirements(doors: Doors, definition: Definition, instance: Instance, name: string, input: Json,
                          checked: bool)
    requires Registered(doors, definition)
    requires Decide(doors, definition, instance, name, input, None, checked).Err?
    requires Decide(doors, definition, instance, name, input, None, checked).error.FulfillmentRequired?
    ensures var e := Decide(doors, definition, instance, name, input, None, checked).error;
            && name in definition.operations
            && e == FulfillmentRequired(name, e.outcome, RequirementsOf(definition.operations[name].outcomes, e.outcome))
  {
    hide Registered, Normalize, SelectBranch, Carry, Origin, RequirementsOf;
    var operation := definition.operations[name];
    var args := Normalize(doors, operation.arguments, input, definition.semantics.Service()).value;
    SelectBranchNeverAsksHost(doors, definition, instance, name, operation, args);
    var branch := SelectBranch(doors, definition, instance, name, operation, args).value;
    AsksForItsBranch(doors, definition, instance, name, operation, args, branch, checked);
    var outcome := BranchOrigin(doors, definition, instance, name, operation, args);
    AskingBranchIsNamed(instance, operation, branch, outcome);
    OutcomeNamesDistinct(doors, definition, name);
    RequirementsByName(operation.outcomes, outcome.value);
  }

  lemma AskingBranchIsNamed(instance: Instance, operation: Operation, branch: Branch, outcome: Option<Outcome>)
    requires Origin(instance, operation, branch, outcome) && branch.fulfills.Keys != {}
    ensures outcome.Some? && outcome.value in operation.outcomes
    ensures branch.name == Some(outcome.value.name) && branch.fulfills == outcome.value.fulfills
  {
  }

  /** Normalized arguments decide what the input they came from decides. */
  lemma NormalizedDecides(doors: Doors, definition: Definition, instance: Instance, name: string, input: Json,
                          args: Object, f: Option<map<string, Action>>, checked: bool)
    requires name in definition.operations
    requires Normalize(doors, definition.operations[name].arguments, input, definition.semantics.Service()) == Some(args)
    ensures Decide(doors, definition, instance, name, Obj(args), f, checked)
         == Decide(doors, definition, instance, name, input, f, checked)
  {
    hide Normalize, SelectBranch, Carry;
    NormalizeIdempotent(doors, definition.operations[name].arguments, input, definition.semantics.Service());
  }

  /** An operation prepared before loading and continued with its subject is the one-shot decision. */
  lemma ContinuingIsDeciding(doors: Doors, definition: Definition, id: string, name: string, input: Json,
                             instance: Instance, checked: bool)
    requires Registered(doors, definition) && !Blank(id) && IsSubject(definition, id, instance)
    requires DecideBeforeLoad(doors, definition, id, name, input, checked).Ok?
    requires DecideBeforeLoad(doors, definition, id, name, input, checked).value.Load?
    ensures var prepared := DecideBeforeLoad(doors, definition, id, name, input, checked).value.prepared;
            && prepared.operation in definition.operations
            && ContinueWith(doors, definition, prepared, instance)
               == Decide(doors, definition, instance, name, input, None, checked)
  {
    hide Registered, Normalize, Decide, DecideBeforeLoad, RequirementsOf;
    EarlyAnswersHold(doors, definition, id, name, input, instance, None, checked);
    var prepared := DecideBeforeLoad(doors, definition, id, name, input, checked).value.prepared;
    NormalizedDecides(doors, definition, instance, name, input, prepared.arguments, None, checked);
    var full := Decide(doors, definition, instance, name, input, None, checked);
    if full.Err? && full.error.FulfillmentRequired? {
      AskedRequirements(doors, definition, instance, name, input, checked);
    }
  }
}
