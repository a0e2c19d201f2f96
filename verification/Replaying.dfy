/** Every record a run writes replays to the instance the run reached. */
module Replaying {
  import opened Prelude
  import opened Truth
  import opened Definition
  import opened Reading
  import opened Paths
  import opened Evaluator
  import opened Scopes
  import opened Agreement
  import opened Values
  import opened Runtime
  import opened Registration
  import opened Replay
  import opened Traces
  import opened Drafts
  import opened Safety
  import opened EarlyAnswers

  // --- A recorded response is not judged again ----------------------------------------------------

  lemma ResponseUnchecked(responds: Option<(map<string, Json>, map<string, string>)>, schema: Schema, ctx: Context,
                          checked: bool)
    requires MaterializeResponse(responds, schema, ctx, checked).Ok?
    ensures MaterializeResponse(responds, schema, ctx, false) == MaterializeResponse(responds, schema, ctx, checked)
  {
    hide ResolveTemplate, Gather, ValidObject, PresentArguments;
  }

  lemma ConcludedUnchecked(doors: Doors, definition: Definition, instance: Instance, name: string,
                           operation: Operation, args: Object, branch: Branch, given: map<string, Action>,
                           checked: bool, fields: Object, removed: set<string>, d: Decision)
    requires Concluded(doors, definition, instance, name, operation, args, branch, given, checked, fields, removed, d)
    ensures Concluded(doors, definition, instance, name, operation, args, branch, given, false, fields, removed, d)
  {
    hide ValidObject, CheckIdentity, CheckInvariants, MaterializeEvents, MaterializeResponse, ChangedFields;
    ResponseUnchecked(branch.responds, operation.response,
                      AfterContext(doors, definition, instance, operation, args, branch.toState, fields), checked);
  }

  // --- Operations ---------------------------------------------------------------------------------

  /** The recorded arguments and host actions decide the recorded decision again, response unjudged. */
  lemma DecidesAgain(doors: Doors, definition: Definition, before: Instance, name: string, input: Json,
                     f: Option<map<string, Action>>, checked: bool, d: Decision)
    returns (args: Object, branch: Branch)
    requires Decide(doors, definition, before, name, input, f, checked) == Ok(Accepted(d))
    ensures name in definition.operations
    ensures d.record.definition == Some(definition) && d.record.id == before.id
    ensures d.record.command == ExecuteCommand(name, args, Given(f))
    ensures Normalize(doors, definition.operations[name].arguments, input, definition.semantics.Service()) == Some(args)
    ensures Decide(doors, definition, before, name, Obj(args), f, false) == Ok(Accepted(d))
    ensures SelectBranch(doors, definition, before, name, definition.operations[name], args) == Ok(branch)
    ensures if branch.fulfills.Keys == {} then Given(f) == map[] else f.Some?
    ensures Decide(doors, definition, before, name, Obj(args), None, false) ==
              if branch.fulfills.Keys == {} then Ok(Accepted(d))
              else Err(FulfillmentRequired(name, if branch.name.Some? then branch.name.value else "",
                                           branch.fulfills.Keys))
  {
    hide Normalize, SelectBranch, CheckPreconditions, StepEight, Concluded, BeforeContext, Decide;
    var fields, removed;
    args, branch, fields, removed := DecideTrace(doors, definition, before, name, input, f, checked, d);
    var operation := definition.operations[name];
    ConcludedRecord(doors, definition, before, name, operation, args, branch, Given(f), checked, fields, removed, d);
    ConcludedUnchecked(doors, definition, before, name, operation, args, branch, Given(f), checked, fields, removed, d);
    TracedDecides(doors, definition, before, name, input, f, false, args, branch, fields, removed, d);
    NormalizedDecides(doors, definition, before, name, input, args, f, false);
    NormalizedDecides(doors, definition, before, name, input, args, None, false);
    var ctx := BeforeContext(doors, definition, before, operation, args, branch.toState);
    WithoutHost(doors, definition, name, branch, ctx, f);
    if branch.fulfills.Keys == {} {
      TracedDecides(doors, definition, before, name, input, None, false, args, branch, fields, removed, d);
    } else {
      AsksHost(doors, definition, before, name, input, f, args, branch, fields, removed);
    }
  }

  lemma ConcludedRecord(doors: Doors, definition: Definition, instance: Instance, name: string,
                        operation: Operation, args: Object, branch: Branch, given: map<string, Action>,
                        checked: bool, fields: Object, removed: set<string>, d: Decision)
    requires Concluded(doors, definition, instance, name, operation, args, branch, given, checked, fields, removed, d)
    ensures d.record.definition == Some(definition) && d.record.id == instance.id
    ensures d.record.command == ExecuteCommand(name, args, given) && d.record.result == d.instance
  {
    hide ValidObject, CheckIdentity, CheckInvariants, MaterializeEvents, MaterializeResponse, ChangedFields;
  }

  /** What step 8 is without the host's actions. */
  lemma WithoutHost(doors: Doors, definition: Definition, name: string, branch: Branch, ctx: Context,
                    f: Option<map<string, Action>>)
    requires StepEight(doors, definition, name, branch, ctx, f).Ok?
    ensures if branch.fulfills.Keys == {} then
              Given(f) == map[] && StepEight(doors, definition, name, branch, ctx, None)
                                   == StepEight(doors, definition, name, branch, ctx, f)
            else
              f.Some? && StepEight(doors, definition, name, branch, ctx, None)
                         == Err(FulfillmentRequired(name, if branch.name.Some? then branch.name.value else "",
                                                    branch.fulfills.Keys))
  {
    hide Assigned, Written, PresentArguments, ActionChange;
    if f.Some? && branch.fulfills.Keys == {} {
      assert f.value == map[];
    }
  }

  lemma AsksHost(doors: Doors, definition: Definition, before: Instance, name: string, input: Json,
                 f: Option<map<string, Action>>, args: Object, branch: Branch, fields: Object, removed: set<string>)
    requires Traced(doors, definition, before, name, input, f, false, args, branch, fields, removed)
    requires branch.fulfills.Keys != {}
    ensures Decide(doors, definition, before, name, input, None, false)
         == Err(FulfillmentRequired(name, if branch.name.Some? then branch.name.value else "", branch.fulfills.Keys))
  {
    hide Normalize, SelectBranch, CheckPreconditions, StepEight, Conclude;
    var operation := definition.operations[name];
    var ctx := BeforeContext(doors, definition, before, operation, args, branch.toState);
    WithoutHost(doors, definition, name, branch, ctx, f);
  }

  /** A recorded operation is recomputed whole. */
  lemma OperationRecomputes(doors: Doors, definition: Definition, before: Instance, name: string, input: Json,
                            f: Option<map<string, Action>>, checked: bool, d: Decision)
    requires Registered(doors, definition) && Safe(doors, definition, before)
    requires Decide(doors, definition, before, name, input, f, checked) == Ok(Accepted(d))
    ensures d.record.definition == Some(definition)
    ensures Recomputed(doors, definition, Some(before), d.record) == Ok(d)
  {
    hide Registered, Decide, DecideBeforeLoad, SelectBranch, Normalize, CheckInvariants, CheckIdentity, ValidObject;
    var args, branch := DecidesAgain(doors, definition, before, name, input, f, checked, d);
    EarlyAnswersHold(doors, definition, before.id, name, Obj(args), before, f, false);
    NormalizeIdempotent(doors, definition.operations[name].arguments, input, definition.semantics.Service());
    var preload := DecideBeforeLoad(doors, definition, before.id, name, Obj(args), false);
    assert preload.Ok? && preload.value.Load?;
    assert preload.value.prepared == Prepared(name, before.id, args, false);
  }

  // --- Creations ----------------------------------------------------------------------------------

  lemma {:induction false} SelectionRefines(doors: Doors, command: string, outcomes: seq<Outcome>, scope: Scope,
                                            c: Context, d: Context, state: string)
    requires SelectorsAccepted(doors, outcomes, scope) && scope.names.NoName?
    requires Refines(c, d, RootsOf(scope.kind)) && SelectOutcome(command, outcomes, state, c).Ok?
    ensures SelectOutcome(command, outcomes, state, d) == SelectOutcome(command, outcomes, state, c)
  {
    hide Evaluate, ConditionAccepted, ConditionObservable, Depth, Refines, RootsOf;
    if outcomes != [] {
      var o := outcomes[0];
      if !o.wrongState && (o.inState.Some? ==> o.inState.value == state) && o.when.Some? {
        assert RuleAccepted(doors, o.when.value, scope);
        AcceptedReads(o.when.value, scope);
        EvaluateRefines(o.when.value, c, d, NoBinding, RootsOf(scope.kind));
      }
      if SelectOutcome(command, outcomes[1..], state, c).Ok? {
        SelectionRefines(doors, command, outcomes[1..], scope, c, d, state);
      }
    }
  }

  lemma CreationOutcome(doors: Doors, definition: Definition, o: Outcome)
    requires Registered(doors, definition) && definition.semantics.Service()
    requires o in definition.create.outcomes
    ensures CreateOutcome(doors, definition, o)
  {
    hide Registered, CreateOutcome, OutcomesSound, SchemaDeclared, EventAccepted;
    RegisteredInvariants(doors, definition);
  }

  lemma CreationSelectors(doors: Doors, definition: Definition)
    requires Registered(doors, definition) && definition.semantics.Service()
    ensures SelectorsAccepted(doors, definition.create.outcomes,
                              ScopeOf(definition, CreateSelector, Some(definition.create.arguments)))
  {
    hide Registered, RuleAccepted, SetAccepted, EventAccepted, RespondsAccepted, ConditionalAccepted;
    forall o | o in definition.create.outcomes
      ensures CreateOutcome(doors, definition, o)
    {
      CreationOutcome(doors, definition, o);
    }
  }

  lemma CreationAssigns(doors: Doors, definition: Definition, o: Outcome, k: string)
    requires Registered(doors, definition) && definition.semantics.Service()
    requires o in definition.create.outcomes && k in o.assigns
    ensures OperandAccepted(o.assigns[k], ScopeOf(definition, CreateSet, Some(definition.create.arguments)))
  {
    hide Registered, RuleAccepted, EventAccepted, RespondsAccepted, ConditionalAccepted, OperandAccepted,
         AmountAccepted;
    CreationOutcome(doors, definition, o);
    var scope := ScopeOf(definition, CreateSet, Some(definition.create.arguments));
    assert SetEntryAccepted(doors, definition, k, o.assigns[k], scope);
    TemplateIsItself(o.assigns[k]);
  }

  lemma TemplateIsItself(value: Json)
    ensures AssignmentOf(value).Template? ==> AssignmentOf(value).template == value
  {
  }

  /** Giving a creation its identity changes nothing it decided without one. */
  lemma IdentityIsNotRead(doors: Doors, definition: Definition, supplied: Option<string>, id: string,
                          args: Object, o: Outcome)
    requires Registered(doors, definition) && definition.semantics.Service()
    requires supplied.None? || supplied == Some(id)
    requires var ctx := CreateContext(doors, definition, supplied, args, Some(definition.create.arguments), map[]);
             && SelectOutcome("create", definition.create.outcomes, definition.initial, ctx) == Ok(o)
             && forall k | k in o.assigns :: ResolveTemplate(o.assigns[k], ctx).Ok?
    ensures var ctx := CreateContext(doors, definition, supplied, args, Some(definition.create.arguments), map[]);
            var given := CreateContext(doors, definition, Some(id), args, Some(definition.create.arguments), map[]);
            && SelectOutcome("create", definition.create.outcomes, definition.initial, given) == Ok(o)
            && forall k | k in o.assigns :: ResolveTemplate(o.assigns[k], given) == ResolveTemplate(o.assigns[k], ctx)
  {
    hide Registered, SelectOutcome, ResolveTemplate, OperandAccepted, ValueReads;
    var schema := Some(definition.create.arguments);
    var c := CreateContext(doors, definition, supplied, args, schema, map[]);
    var d := CreateContext(doors, definition, Some(id), args, schema, map[]);
    var selector, assigning := ScopeOf(definition, CreateSelector, schema), ScopeOf(definition, CreateSet, schema);
    CreationSelectors(doors, definition);
    SelectionRefines(doors, "create", definition.create.outcomes, selector, c, d, definition.initial);
    SelectedIsDeclared("create", definition.create.outcomes, definition.initial, c);
    forall k | k in o.assigns
      ensures ResolveTemplate(o.assigns[k], d) == ResolveTemplate(o.assigns[k], c)
    {
      CreationAssigns(doors, definition, o, k);
      OperandAcceptedReads(o.assigns[k], assigning);
      TemplateRefines(o.assigns[k], c, d, RootsOf(CreateSet));
    }
  }

  lemma CompletesUnchecked(doors: Doors, definition: Definition, args: Object, outcome: Outcome, id: string,
                           fields: Object, checked: bool)
    requires CompleteCreate(doors, definition, args, outcome, id, fields, checked).Ok?
    ensures CompleteCreate(doors, definition, args, outcome, id, fields, false)
         == CompleteCreate(doors, definition, args, outcome, id, fields, checked)
    ensures var d := CompleteCreate(doors, definition, args, outcome, id, fields, checked).value;
            && d.record.command == CreateCommand(fields, args)
            && d.record.id == id && d.record.definition == Some(definition)
  {
    hide CheckIdentity, CheckInvariants, MaterializeEvents, MaterializeResponse;
    ResponseUnchecked(Some((outcome.responds, outcome.respondsIfPresent)), definition.create.response,
                      CreateContext(doors, definition, Some(id), args, Some(definition.create.arguments), fields),
                      checked);
  }

  /** A branch creation, its identity supplied or derived, is recomputed from its recorded arguments. */
  lemma ServiceCreatesAgain(doors: Doors, definition: Definition, supplied: Option<string>, input: Json,
                            checked: bool, d: Decision)
    returns (args: Object, fields: Object)
    requires Registered(doors, definition) && definition.semantics.Service()
    requires ServiceCreate(doors, definition, supplied, input, checked) == Ok(Accepted(d))
    ensures d.record.definition == Some(definition)
    ensures d.record.command == CreateCommand(fields, args)
    ensures ServiceCreate(doors, definition, Some(d.record.id), Obj(args), false) == Ok(Accepted(d))
  {
    hide Registered, ServiceCreate, SelectOutcome, ResolveTemplate, Normalize, FillMembers, CompleteCreate,
         ValidObject, DeriveIdentity, PresentArguments, Gather;
    var outcome, id;
    args, outcome, id, fields := ServiceCreateTrace(doors, definition, supplied, input, checked, d);
    var schema := Some(definition.create.arguments);
    var c := CreateContext(doors, definition, supplied, args, schema, map[]);
    var given := CreateContext(doors, definition, Some(id), args, schema, map[]);
    CompletesUnchecked(doors, definition, args, outcome, id, fields, checked);
    NormalizeIdempotent(doors, definition.create.arguments, input, definition.semantics.Service());
    var parts := RenderedEach(outcome.assigns, c);
    GatherKeys(parts);
    assert forall k | k in outcome.assigns :: parts[k].Ok?;
    IdentityIsNotRead(doors, definition, supplied, id, args, outcome);
    assert parts == RenderedEach(outcome.assigns, given);
    CreateTracedDecides(doors, definition, Some(id), Obj(args), false, args, outcome, id, fields, d);
  }

  lemma FieldsCreateAgain(doors: Doors, definition: Definition, id: string, input: Json)
    requires CreateFromFields(doors, definition, id, input).Ok?
    ensures var d := CreateFromFields(doors, definition, id, input).value;
            && CreateFromFields(doors, definition, id, Obj(d.instance.fields)) == Ok(d)
            && d.record.definition == Some(definition) && d.record.id == id
            && d.record.command == CreateCommand(d.instance.fields,
                                     if definition.semantics.Service() then d.instance.fields else map[])
  {
    hide CheckIdentity, CheckInvariants, MaterializeEvents, Normalize;
    NormalizeIdempotent(doors, definition.schema, input, definition.semantics.Service());
  }

  lemma CreationRecomputes(doors: Doors, definition: Definition, d: Decision)
    requires Registered(doors, definition) && Prints(doors) && Begun(doors, definition, d)
    ensures d.record.definition == Some(definition)
    ensures Recomputed(doors, definition, None, d.record) == Ok(d)
  {
    hide Registered, DecideCreate, DecideCreateDerived, Prints;
    if id, input :| DecideCreate(doors, definition, id, input, true) == Ok(Accepted(d)) {
      SuppliedRecomputes(doors, definition, id, input, true, d);
    } else {
      var input :| DecideCreateDerived(doors, definition, input) == Ok(Accepted(d));
      DerivedRecomputes(doors, definition, input, d);
    }
  }

  lemma SuppliedRecomputes(doors: Doors, definition: Definition, id: string, input: Json, checked: bool, d: Decision)
    requires Registered(doors, definition)
    requires DecideCreate(doors, definition, id, input, checked) == Ok(Accepted(d))
    ensures d.record.definition == Some(definition)
    ensures Recomputed(doors, definition, None, d.record) == Ok(d)
  {
    hide Registered, ServiceCreate, CreateFromFields;
    if HasBranches(definition, definition.create.outcomes) {
      var args, fields := ServiceCreatesAgain(doors, definition, Some(id), input, checked, d);
      ServiceCreateKeepsId(doors, definition, id, input, checked, d);
    } else {
      FieldsCreateAgain(doors, definition, id, input);
    }
  }

  lemma ServiceCreateKeepsId(doors: Doors, definition: Definition, id: string, input: Json, checked: bool, d: Decision)
    requires ServiceCreate(doors, definition, Some(id), input, checked) == Ok(Accepted(d))
    ensures d.record.id == id
  {
    hide ServiceCreate, SelectOutcome, Normalize, FillMembers, CompleteCreate, ValidObject, Gather, ResolveTemplate;
    var args, outcome, given, fields := ServiceCreateTrace(doors, definition, Some(id), input, checked, d);
    CompletesUnchecked(doors, definition, args, outcome, given, fields, checked);
  }

  lemma DerivedRecomputes(doors: Doors, definition: Definition, input: Json, d: Decision)
    requires Registered(doors, definition) && Prints(doors)
    requires DecideCreateDerived(doors, definition, input) == Ok(Accepted(d))
    ensures d.record.definition == Some(definition)
    ensures Recomputed(doors, definition, None, d.record) == Ok(d)
  {
    hide Registered, ServiceCreate, CreateFromFields, Normalize, DeriveIdentity, Prints, Safe;
    if HasBranches(definition, definition.create.outcomes) {
      var args, fields := ServiceCreatesAgain(doors, definition, None, input, true, d);
      DerivedServiceId(doors, definition, input, d);
    } else {
      var fields := Normalize(doors, definition.schema, input, definition.semantics.Service()).value;
      var id := DeriveIdentity(doors, definition, fields).value;
      FieldsCreateAgain(doors, definition, id, Obj(fields));
    }
  }

  /** A derived address passes the blank check the replayed creation makes. */
  lemma DerivedServiceId(doors: Doors, definition: Definition, input: Json, d: Decision)
    requires Prints(doors)
    requires ServiceCreate(doors, definition, None, input, true) == Ok(Accepted(d))
    ensures !Blank(d.record.id)
  {
    hide ServiceCreate, SelectOutcome, Normalize, FillMembers, CompleteCreate, ValidObject, Gather, ResolveTemplate,
         DeriveIdentity, Prints;
    var args, outcome, id, fields := ServiceCreateTrace(doors, definition, None, input, true, d);
    CompletesUnchecked(doors, definition, args, outcome, id, fields, true);
    DerivedNotBlank(doors, definition, fields);
  }

  // --- Whole runs ---------------------------------------------------------------------------------

  function RecordsOf(ds: seq<Decision>): seq<Record> {
    if ds == [] then [] else [ds[0].record] + RecordsOf(ds[1..])
  }

  lemma RecordReplays(doors: Doors, definition: Definition, before: Option<Instance>, d: Decision)
    requires Registered(doors, definition) && d.record.definition == Some(definition)
    requires Recomputed(doors, definition, before, d.record) == Ok(d)
    ensures ReplayRecord(doors, before, d.record) == Ok(d.instance)
  {
    hide Registered, Recomputed;
  }

  lemma FollowingRecomputes(doors: Doors, definition: Definition, before: Instance, d: Decision)
    requires Registered(doors, definition) && Safe(doors, definition, before)
    requires Follows(doors, definition, before, d)
    ensures d.record.definition == Some(definition)
    ensures Recomputed(doors, definition, Some(before), d.record) == Ok(d)
  {
    hide Registered, Decide, Safe, Recomputed;
    var name, input, f :| Decide(doors, definition, before, name, input, f, true) == Ok(Accepted(d));
    OperationRecomputes(doors, definition, before, name, input, f, true, d);
  }

  lemma {:induction false} ContinuesReplays(doors: Doors, definition: Definition, before: Instance, ds: seq<Decision>)
    requires Registered(doors, definition) && Safe(doors, definition, before)
    requires Continues(doors, definition, before, ds)
    ensures ReplayFrom(doors, Some(before), RecordsOf(ds)) == Ok(LastInstance(before, ds))
    decreases |ds|
  {
    hide Registered, Safe, Follows, ReplayRecord, Recomputed;
    if ds != [] {
      FollowsIsSafe(doors, definition, before, ds[0]);
      FollowingRecomputes(doors, definition, before, ds[0]);
      RecordReplays(doors, definition, Some(before), ds[0]);
      ContinuesReplays(doors, definition, ds[0].instance, ds[1..]);
      assert RecordsOf(ds)[1..] == RecordsOf(ds[1..]);
    }
  }

  /** The records of any run — kernel or service, its identity supplied or derived, with or without
      fulfillments — replay to the run's last instance. */
  lemma RunReplays(doors: Doors, definition: Definition, ds: seq<Decision>)
    requires Registered(doors, definition) && Prints(doors) && IsRun(doors, definition, ds)
    ensures ReplayFrom(doors, None, RecordsOf(ds)) == Ok(LastInstance(ds[0].instance, ds[1..]))
  {
    hide Registered, Safe, Begun, Continues, ReplayRecord, Recomputed, Prints;
    BegunIsSafe(doors, definition, ds[0]);
    CreationRecomputes(doors, definition, ds[0]);
    RecordReplays(doors, definition, None, ds[0]);
    ContinuesReplays(doors, definition, ds[0].instance, ds[1..]);
    assert RecordsOf(ds)[1..] == RecordsOf(ds[1..]);
  }

  // --- What replay accepts ------------------------------------------------------------------------

  /** Some command decided this, its response left unjudged. */
  ghost predicate Decided(doors: Doors, definition: Definition, before: Option<Instance>, d: Decision) {
    if before.None? then exists id, input :: DecideCreate(doors, definition, id, input, false) == Ok(Accepted(d))
    else exists name, input, f :: Decide(doors, definition, before.value, name, input, f, false) == Ok(Accepted(d))
  }

  /** Each decision was taken on the instance the one before left. */
  ghost predicate DecidedFrom(doors: Doors, definition: Definition, before: Option<Instance>, ds: seq<Decision>)
    decreases |ds|
  {
    ds != [] ==>
      Decided(doors, definition, before, ds[0])
      && DecidedFrom(doors, definition, Some(ds[0].instance), ds[1..])
  }

  lemma DecidedRecomputes(doors: Doors, definition: Definition, before: Option<Instance>, d: Decision)
    requires Registered(doors, definition) && (before.Some? ==> Safe(doors, definition, before.value))
    requires Decided(doors, definition, before, d)
    ensures d.record.definition == Some(definition) && Recomputed(doors, definition, before, d.record) == Ok(d)
    ensures Safe(doors, definition, d.instance)
  {
    hide Registered, Decide, DecideCreate, Safe, Recomputed;
    if before.None? {
      var id, input :| DecideCreate(doors, definition, id, input, false) == Ok(Accepted(d));
      SuppliedRecomputes(doors, definition, id, input, false, d);
      CreateIsSafe(doors, definition, id, input, false, d);
    } else {
      var name, input, f :| Decide(doors, definition, before.value, name, input, f, false) == Ok(Accepted(d));
      OperationRecomputes(doors, definition, before.value, name, input, f, false, d);
      DecideIsSafe(doors, definition, before.value, name, input, f, false, d);
    }
  }

  lemma {:induction false} DecidedReplays(doors: Doors, definition: Definition, before: Option<Instance>,
                                          ds: seq<Decision>)
    requires Registered(doors, definition) && (before.Some? ==> Safe(doors, definition, before.value))
    requires DecidedFrom(doors, definition, before, ds) && (before.Some? || ds != [])
    ensures ReplayFrom(doors, before, RecordsOf(ds))
         == Ok(if ds == [] then before.value else LastInstance(ds[0].instance, ds[1..]))
    ensures forall r | r in RecordsOf(ds) :: r.definition == Some(definition)
    decreases |ds|
  {
    hide Registered, Safe, Decided, ReplayRecord, Recomputed;
    if ds != [] {
      DecidedRecomputes(doors, definition, before, ds[0]);
      RecordReplays(doors, definition, before, ds[0]);
      DecidedReplays(doors, definition, Some(ds[0].instance), ds[1..]);
      assert RecordsOf(ds)[1..] == RecordsOf(ds[1..]);
    }
  }

  lemma RecomputedIsDecided(doors: Doors, definition: Definition, before: Option<Instance>, record: Record, d: Decision)
    requires Recomputed(doors, definition, before, record) == Ok(d)
    ensures Decided(doors, definition, before, d)
  {
    hide Decide, DecideCreate, DecideBeforeLoad;
    if record.command.ExecuteCommand? {
      PreparedIsUnchecked(doors, definition, record.id, record.command.operation, Obj(record.command.arguments));
      var preload := DecideBeforeLoad(doors, definition, record.id, record.command.operation,
                                      Obj(record.command.arguments), false).value;
      RecomputedOperationIsDecided(doors, definition, before.value, preload, record.command.fulfillments, d);
    }
  }

  lemma PreparedIsUnchecked(doors: Doors, definition: Definition, id: string, name: string, input: Json)
    ensures var preload := DecideBeforeLoad(doors, definition, id, name, input, false);
            preload.Ok? && preload.value.Load? ==> !preload.value.prepared.checked
  {
    hide Normalize, EarlyRefusal, HasBranches;
  }

  lemma RecomputedOperationIsDecided(doors: Doors, definition: Definition, before: Instance, preload: Preload,
                                     fulfillments: map<string, Action>, d: Decision)
    requires RecomputedOperation(doors, definition, before, preload, fulfillments) == Ok(d)
    requires preload.Load? ==> !preload.prepared.checked
    ensures Decided(doors, definition, Some(before), d)
  {
    hide Decide, DecideCreate, SubjectMatches;
    var prepared := preload.prepared;
    var input := Obj(prepared.arguments);
    assert Decide(doors, definition, before, prepared.operation, input, None, false) == Ok(Accepted(d))
        || Decide(doors, definition, before, prepared.operation, input, Some(fulfillments), false) == Ok(Accepted(d));
  }

  lemma {:induction false} ReplayedIsDecided(doors: Doors, definition: Definition, before: Option<Instance>,
                                             records: seq<Record>, after: Instance)
    returns (ds: seq<Decision>)
    requires ReplayFrom(doors, before, records) == Ok(after)
    requires forall r | r in records :: r.definition == Some(definition)
    ensures DecidedFrom(doors, definition, before, ds) && RecordsOf(ds) == records
    ensures if ds == [] then before == Some(after) else LastInstance(ds[0].instance, ds[1..]) == after
    decreases |records|
  {
    hide Recomputed, Decided, Registered;
    if records == [] {
      ds := [];
    } else {
      var d := Recomputed(doors, definition, before, records[0]).value;
      RecomputedIsDecided(doors, definition, before, records[0], d);
      var tail := ReplayedIsDecided(doors, definition, Some(d.instance), records[1..], after);
      ds := [d] + tail;
      assert ds[1..] == tail && RecordsOf(ds) == [d.record] + RecordsOf(tail);
    }
  }

  /** Some decisions, their responses unjudged, left exactly these records and ended here. */
  ghost predicate RecordedBy(doors: Doors, definition: Definition, records: seq<Record>, after: Instance) {
    exists ds: seq<Decision> ::
      ds != [] && DecidedFrom(doors, definition, None, ds) && RecordsOf(ds) == records
      && LastInstance(ds[0].instance, ds[1..]) == after
  }

  /** Under one registered definition replay accepts exactly the records that one creation and operations
      after it leave, responses unjudged, and ends exactly where they end. */
  lemma ReplayAcceptsExactly(doors: Doors, definition: Definition, records: seq<Record>, after: Instance)
    requires Registered(doors, definition)
    ensures ReplayFrom(doors, None, records) == Ok(after) && (forall r | r in records :: r.definition == Some(definition))
       <==> RecordedBy(doors, definition, records, after)
  {
    hide Registered, Decided, ReplayFrom, DecidedFrom, LastInstance;
    if ReplayFrom(doors, None, records) == Ok(after) && forall r | r in records :: r.definition == Some(definition) {
      var ds := ReplayedIsDecided(doors, definition, None, records, after);
      assert ds != [];
    }
    if RecordedBy(doors, definition, records, after) {
      var ds: seq<Decision> :| ds != [] && DecidedFrom(doors, definition, None, ds) && RecordsOf(ds) == records
                               && LastInstance(ds[0].instance, ds[1..]) == after;
      DecidedReplays(doors, definition, None, ds);
    }
  }
}
