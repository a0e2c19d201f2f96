/** Runs of the kernel under one registered definition, and what every one of them keeps. */
module Safety {
  import opened Prelude
  import opened Truth
  import opened Definition
  import opened Reading
  import opened Evaluator
  import opened Scopes
  import opened Agreement
  import opened Values
  import opened Identity
  import opened Addresses
  import opened Runtime
  import opened Registration
  import opened Traces
  import opened Drafts
  import opened Rules
  import Paths

  // --- Runs ---------------------------------------------------------------------------------------

  /** Some creation, with a supplied or a derived identity, decided this. */
  ghost predicate Begun(doors: Doors, definition: Definition, d: Decision) {
    || (exists id, input :: DecideCreate(doors, definition, id, input, true) == Ok(Accepted(d)))
    || (exists input :: DecideCreateDerived(doors, definition, input) == Ok(Accepted(d)))
  }

  /** Some operation, with or without fulfillments, decided this on `before`. */
  ghost predicate Follows(doors: Doors, definition: Definition, before: Instance, d: Decision) {
    exists name, input, f :: Decide(doors, definition, before, name, input, f, true) == Ok(Accepted(d))
  }

  ghost predicate Continues(doors: Doors, definition: Definition, before: Instance, ds: seq<Decision>)
    decreases |ds|
  {
    ds != [] ==>
      Follows(doors, definition, before, ds[0]) && Continues(doors, definition, ds[0].instance, ds[1..])
  }

  /** One creation followed by operations, each on the instance the one before left. */
  ghost predicate IsRun(doors: Doors, definition: Definition, ds: seq<Decision>) {
    ds != [] && Begun(doors, definition, ds[0]) && Continues(doors, definition, ds[0].instance, ds[1..])
  }

  function LastInstance(before: Instance, ds: seq<Decision>): Instance
    decreases |ds|
  {
    if ds == [] then before else LastInstance(ds[0].instance, ds[1..])
  }

  // --- What registration gives ----------------------------------------------------------------------

  lemma RegisteredOperation(doors: Doors, definition: Definition, name: string)
    requires Registered(doors, definition) && name in definition.operations
    ensures OperationAccepted(doors, definition, name)
  {
    hide OperationAccepted, CreationAccepted, InvariantsAccepted, LadderSound, KernelOnly, IdentityAccepted;
  }

  lemma RegisteredInvariants(doors: Doors, definition: Definition)
    requires Registered(doors, definition)
    ensures InvariantsAccepted(doors, definition) && LadderSound(definition)
    ensures CreationAccepted(doors, definition) && IdentityAccepted(definition)
    ensures SchemaDeclared(doors, definition.schema, definition.semantics.Service())
    ensures !definition.semantics.Service() ==> KernelOnly(definition)
  {
    hide OperationAccepted, CreationAccepted, InvariantsAccepted, LadderSound, KernelOnly, IdentityAccepted;
  }

  lemma RegisteredOutcome(doors: Doors, definition: Definition, name: string, o: Outcome)
    requires Registered(doors, definition) && name in definition.operations
    requires o in definition.operations[name].outcomes
    ensures OutcomeSound(definition, o)
    ensures OperationOutcome(doors, definition, definition.operations[name], o)
  {
    hide Registered, TransitionsSound, RuleAccepted, SetAccepted, EventAccepted, OutcomeSound,
         OperationOutcome, MoveSources, SchemaDeclared;
    RegisteredOperation(doors, definition, name);
    OutcomesAreSound(definition, definition.operations[name].outcomes, o);
  }

  lemma OutcomesAreSound(definition: Definition, outcomes: seq<Outcome>, o: Outcome)
    requires OutcomesSound(definition, outcomes) && o in outcomes
    ensures OutcomeSound(definition, o)
  {
    hide OutcomeSound;
  }

  lemma OutcomeWritesDisjoint(doors: Doors, definition: Definition, operation: Operation, o: Outcome)
    requires OperationOutcome(doors, definition, operation, o)
    ensures ConditionalAccepted(definition, o, operation.arguments, operation.response)
    ensures FulfillmentAccepted(definition, o) && !o.effect.Creates?
  {
    hide RuleAccepted, SetAccepted, EventAccepted, RespondsAccepted, ConditionalAccepted, FulfillmentAccepted;
  }

  lemma DisjointTargets(definition: Definition, operation: Operation, o: Outcome)
    requires ConditionalAccepted(definition, o, operation.arguments, operation.response)
    requires FulfillmentAccepted(definition, o)
    ensures o.assigns.Keys !! o.setIfPresent.Keys
    ensures o.assigns.Keys !! o.fulfills.Keys && o.setIfPresent.Keys !! o.fulfills.Keys
  {
    hide ConditionalTarget;
  }

  // --- Conservation of a delta --------------------------------------------------------------------

  lemma GatherKeys<T>(parts: map<string, Result<T, CoreError>>)
    requires Gather(parts).Ok?
    ensures Gather(parts).value.Keys == parts.Keys
    ensures forall k | k in parts :: parts[k] == Ok(Gather(parts).value[k])
  {
    var failing := set k | k in parts && parts[k].Err?;
    assert failing == {};
    assert forall k | k in parts :: k !in failing;
  }

  lemma StepEightParts(doors: Doors, definition: Definition, name: string, branch: Branch, ctx: Context,
                       f: Option<map<string, Action>>)
    returns (sets: map<string, Change>, copied: Object, fulfilled: map<string, Change>)
    requires StepEight(doors, definition, name, branch, ctx, f).Ok?
    ensures Assigned(name, branch.assigns, ctx) == Ok(sets)
    ensures Fulfilled(doors, definition, name, branch, f) == Ok(fulfilled)
    ensures StepEight(doors, definition, name, branch, ctx, f).value
         == Written(ctx.oldFields, sets, copied, fulfilled)
    ensures sets.Keys == branch.assigns.Keys && copied.Keys <= branch.setIfPresent.Keys
    ensures fulfilled.Keys == branch.fulfills.Keys
  {
    hide AssignedValue, ActionChange, ArgumentPresence, Apply, Dropped, Gather;
    sets := Assigned(name, branch.assigns, ctx).value;
    fulfilled := Fulfilled(doors, definition, name, branch, f).value;
    copied := PresentArguments(branch.setIfPresent, ctx.args);
    GatherKeys(map k | k in branch.assigns :: AssignedValue(name, k, branch.assigns[k], ctx));
    if f.Some? {
      var outcome := if branch.name.Some? then branch.name.value else "";
      GatherKeys(map k | k in f.value ::
                   ActionChange(doors, definition, name, outcome, k, branch.fulfills[k], f.value[k]));
    }
  }

  lemma BranchTargetsDisjoint(doors: Doors, definition: Definition, instance: Instance, name: string,
                              branch: Branch, outcome: Option<Outcome>)
    requires Registered(doors, definition) && name in definition.operations
    requires Origin(instance, definition.operations[name], branch, outcome)
    ensures branch.assigns.Keys !! branch.setIfPresent.Keys
    ensures branch.assigns.Keys !! branch.fulfills.Keys && branch.setIfPresent.Keys !! branch.fulfills.Keys
  {
    hide Registered, OperationOutcome, ConditionalAccepted, FulfillmentAccepted;
    if outcome.Some? {
      RegisteredOutcome(doors, definition, name, outcome.value);
      OutcomeWritesDisjoint(doors, definition, definition.operations[name], outcome.value);
      DisjointTargets(definition, definition.operations[name], outcome.value);
    }
  }

  lemma {:induction false} EventsCarryDelta(templates: seq<EventTemplate>, ctx: Context, revision: nat,
                                            args: Object, removed: set<string>)
    requires MaterializeEvents(templates, ctx, revision, args, removed).Ok?
    ensures var events := MaterializeEvents(templates, ctx, revision, args, removed).value;
            && |events| == |templates|
            && forall i | 0 <= i < |events| ::
                 && MaterializeEvent(templates[i], ctx, revision, args, removed) == Ok(events[i])
                 && events[i].changed == ChangedFields(ctx.oldFields, ctx.newFields)
                 && events[i].removed == removed && events[i].args == args && events[i].revision == revision
  {
    hide Payload, ChangedFields;
    if templates != [] {
      EventsCarryDelta(templates[1..], ctx, revision, args, removed);
      var rest := MaterializeEvents(templates[1..], ctx, revision, args, removed).value;
      assert forall i | 0 < i < |templates| :: templates[i] == templates[1..][i - 1];
    }
  }

  /** For every accepted operation, what changed and what was removed are disjoint, laid over the fields
      before they give the fields after, and every event carries exactly them. */
  lemma DeltaConserved(doors: Doors, definition: Definition, instance: Instance, name: string, input: Json,
                       f: Option<map<string, Action>>, checked: bool, d: Decision)
    requires Registered(doors, definition)
    requires Decide(doors, definition, instance, name, input, f, checked) == Ok(Accepted(d))
    ensures d.record.removed !! d.record.changed.Keys
    ensures d.instance.fields == (instance.fields - d.record.removed) + d.record.changed
    ensures forall e | e in d.events ::
              && e.changed == d.record.changed && e.removed == d.record.removed
              && e.revision == d.instance.revision
  {
    hide Registered, Decide, Origin, SelectBranch, StepEight, CheckPreconditions, CheckIdentity, CheckInvariants,
         MaterializeResponse, MaterializeEvents, ValidObject, Normalize, Apply, Dropped, ChangedFields;
    var args, branch, fields, removed := DecideTrace(doors, definition, instance, name, input, f, checked, d);
    var operation := definition.operations[name];
    var outcome := BranchOrigin(doors, definition, instance, name, operation, args);
    BranchTargetsDisjoint(doors, definition, instance, name, branch, outcome);
    var ctx := BeforeContext(doors, definition, instance, operation, args, branch.toState);
    var sets, copied, fulfilled := StepEightParts(doors, definition, name, branch, ctx, f);
    WritesCommute(instance.fields, sets, copied, fulfilled);
    DeltaOfChanges(instance.fields, sets + Puts(copied) + fulfilled);
    EventsCarryDelta(branch.emits, AfterContext(doors, definition, instance, operation, args, branch.toState, fields),
                     d.instance.revision, args, removed);
  }

  // --- What every instance keeps ------------------------------------------------------------------

  /** An instance read on its own: no arguments, no previous fields, no state it came from. */
  function AloneContext(doors: Doors, definition: Definition, i: Instance): Context {
    Context(doors, definition, Some(i.id), map[], None, map[], i.fields, None, i.state)
  }

  /** A rule that holds of a context holds of every one that refines it on what rules read. */
  lemma {:induction false} InvariantsRefine(doors: Doors, definition: Definition, rules: seq<Rule>,
                                            c: Context, d: Context)
    requires forall r | r in rules :: RuleAccepted(doors, r.condition, ScopeOf(definition, Invariant, None))
    requires Refines(c, d, RootsOf(Invariant)) && CheckInvariants(rules, c).Ok?
    ensures CheckInvariants(rules, d).Ok?
  {
    hide Evaluate, ConditionAccepted, ConditionObservable, Depth, Refines;
    if rules != [] {
      var t := rules[0].condition;
      var scope := ScopeOf(definition, Invariant, None);
      assert RuleAccepted(doors, t, scope);
      AcceptedReads(t, scope);
      EvaluateRefines(t, c, d, NoBinding, RootsOf(Invariant));
      InvariantsRefine(doors, definition, rules[1..], c, d);
    }
  }

  lemma InvariantsOf(doors: Doors, definition: Definition, c: Context, i: Instance)
    requires Registered(doors, definition)
    requires c.doors == doors && c.definition == definition && c.id == Some(i.id)
    requires c.newFields == i.fields && c.toState == i.state && CheckInvariants(definition.invariants, c).Ok?
    ensures CheckInvariants(definition.invariants, AloneContext(doors, definition, i)).Ok?
  {
    hide Registered, RuleAccepted, CheckInvariants;
    RegisteredInvariants(doors, definition);
    InvariantsRefine(doors, definition, definition.invariants, c, AloneContext(doors, definition, i));
  }

  /** The declared identity field, where there is one, has the instance's address. */
  ghost predicate Mirrored(doors: Doors, definition: Definition, i: Instance) {
    definition.identity.Some? ==>
      var field := definition.identity.value;
      && field in definition.schema.fields && field in i.fields
      && Address(doors, definition.schema.fields[field].kind, i.fields[field]) == Ok(i.id)
  }

  lemma MirrorChecked(doors: Doors, definition: Definition, i: Instance)
    requires Registered(doors, definition)
    ensures CheckIdentity(doors, definition, i).Ok? <==> Mirrored(doors, definition, i)
  {
    hide Registered, Address;
    RegisteredInvariants(doors, definition);
  }

  /** The schema is satisfied, every invariant is answered true, the state is declared, and the address
      mirrors the identity. */
  ghost predicate Safe(doors: Doors, definition: Definition, i: Instance) {
    && i.entity == definition.entity && i.version == definition.version && !Blank(i.id)
    && i.state in definition.states
    && ValidObject(doors, definition.schema, i.fields, definition.semantics.Service())
    && Mirrored(doors, definition, i)
    && EveryHolds(definition.invariants, AloneContext(doors, definition, i))
  }

  lemma {:induction false} DeclaredTarget(definition: Definition, transitions: seq<Transition>, t: Transition)
    requires TransitionsSound(definition, transitions) && t in transitions
    ensures t.to in definition.states
  {
    if t != transitions[0] {
      DeclaredTarget(definition, transitions[1..], t);
    }
  }

  lemma SoundTransitions(doors: Doors, definition: Definition, name: string)
    requires Registered(doors, definition) && name in definition.operations
    ensures TransitionsSound(definition, definition.operations[name].transitions)
  {
    hide Registered, TransitionsSound, RuleAccepted, SetAccepted, EventAccepted, OutcomesSound,
         OperationOutcome, MoveSources, SchemaDeclared;
    RegisteredOperation(doors, definition, name);
  }

  lemma ImplicitState(operation: Operation, to: string)
    ensures Implicit(operation, to).toState == to
  {
  }

  lemma BranchState(doors: Doors, definition: Definition, instance: Instance, name: string, branch: Branch,
                    outcome: Option<Outcome>)
    requires Registered(doors, definition) && name in definition.operations
    requires instance.state in definition.states
    requires Origin(instance, definition.operations[name], branch, outcome)
    ensures branch.toState in definition.states
  {
    hide Registered, OperationOutcome, TransitionsSound, MutatesNothing;
    if outcome.Some? {
      RegisteredOutcome(doors, definition, name, outcome.value);
    } else {
      var operation := definition.operations[name];
      var t :| t in operation.transitions && branch == Implicit(operation, t.to);
      SoundTransitions(doors, definition, name);
      DeclaredTarget(definition, operation.transitions, t);
      ImplicitState(operation, t.to);
    }
  }

  /** Every accepted operation keeps an instance safe, and keeps who it is. */
  lemma DecideIsSafe(doors: Doors, definition: Definition, instance: Instance, name: string, input: Json,
                     f: Option<map<string, Action>>, checked: bool, d: Decision)
    requires Registered(doors, definition) && Safe(doors, definition, instance)
    requires Decide(doors, definition, instance, name, input, f, checked) == Ok(Accepted(d))
    ensures Safe(doors, definition, d.instance)
    ensures d.instance.id == instance.id && d.instance.revision == instance.revision + 1
  {
    hide Registered, Decide, Origin, SelectBranch, StepEight, CheckPreconditions, CheckIdentity, CheckInvariants,
         MaterializeResponse, MaterializeEvents, ValidObject, Normalize, ChangedFields, Mirrored, EveryHolds;
    var args, branch, fields, removed := DecideTrace(doors, definition, instance, name, input, f, checked, d);
    var operation := definition.operations[name];
    var outcome := BranchOrigin(doors, definition, instance, name, operation, args);
    BranchState(doors, definition, instance, name, branch, outcome);
    InvariantsOf(doors, definition,
                 AfterContext(doors, definition, instance, operation, args, branch.toState, fields), d.instance);
    InvariantsMean(definition.invariants, AloneContext(doors, definition, d.instance));
    MirrorChecked(doors, definition, d.instance);
  }

  // --- Creation -----------------------------------------------------------------------------------

  /** What every creation passed. */
  ghost predicate Newborn(doors: Doors, definition: Definition, d: Decision) {
    var i := d.instance;
    && i == Born(definition, i.id, i.fields) && d.record.result == i
    && ValidObject(doors, definition.schema, i.fields, definition.semantics.Service())
    && CheckIdentity(doors, definition, i).Ok?
    && CheckInvariants(definition.invariants, AloneContext(doors, definition, i)).Ok?
  }

  lemma FieldsCreate(doors: Doors, definition: Definition, id: string, input: Json)
    requires Registered(doors, definition) && CreateFromFields(doors, definition, id, input).Ok?
    ensures Newborn(doors, definition, CreateFromFields(doors, definition, id, input).value)
    ensures CreateFromFields(doors, definition, id, input).value.instance.id == id
  {
    hide Registered, CheckIdentity, CheckInvariants, MaterializeEvents, ValidObject, FillMembers;
  }

  lemma BranchCreate(doors: Doors, definition: Definition, args: Object, outcome: Outcome, id: string,
                     fields: Object, checked: bool)
    requires Registered(doors, definition)
    requires ValidObject(doors, definition.schema, fields, definition.semantics.Service())
    requires CompleteCreate(doors, definition, args, outcome, id, fields, checked).Ok?
    ensures Newborn(doors, definition, CompleteCreate(doors, definition, args, outcome, id, fields, checked).value)
    ensures CompleteCreate(doors, definition, args, outcome, id, fields, checked).value.instance.id == id
  {
    hide Registered, CheckIdentity, CheckInvariants, MaterializeEvents, MaterializeResponse, ValidObject;
    var ctx := CreateContext(doors, definition, Some(id), args, Some(definition.create.arguments), fields);
    InvariantsOf(doors, definition, ctx, Born(definition, id, fields));
  }

  /** What a service creation went through before its instance existed. */
  ghost predicate CreateTraced(doors: Doors, definition: Definition, supplied: Option<string>, input: Json,
                               args: Object, outcome: Outcome, id: string, fields: Object)
  {
    var ctx := CreateContext(doors, definition, supplied, args, Some(definition.create.arguments), map[]);
    && Normalize(doors, definition.create.arguments, input, definition.semantics.Service()) == Some(args)
    && SelectOutcome("create", definition.create.outcomes, definition.initial, ctx) == Ok(outcome)
    && outcome.refuses.None?
    && var sets := Gather(RenderedEach(outcome.assigns, ctx));
    && sets.Ok?
    && fields == FillMembers(definition.schema, sets.value + PresentArguments(outcome.setIfPresent, args))
    && ValidObject(doors, definition.schema, fields, definition.semantics.Service())
    && (if supplied.Some? then id == supplied.value else DeriveIdentity(doors, definition, fields) == Ok(id))
  }

  lemma ServiceCreateTrace(doors: Doors, definition: Definition, supplied: Option<string>, input: Json,
                           checked: bool, d: Decision)
    returns (args: Object, outcome: Outcome, id: string, fields: Object)
    requires ServiceCreate(doors, definition, supplied, input, checked) == Ok(Accepted(d))
    ensures CreateTraced(doors, definition, supplied, input, args, outcome, id, fields)
    ensures CompleteCreate(doors, definition, args, outcome, id, fields, checked) == Ok(d)
  {
    hide Normalize, SelectOutcome, Gather, PresentArguments, FillMembers, ValidObject, DeriveIdentity,
         CompleteCreate, ResolveTemplate;
    args := Normalize(doors, definition.create.arguments, input, definition.semantics.Service()).value;
    var ctx := CreateContext(doors, definition, supplied, args, Some(definition.create.arguments), map[]);
    outcome := SelectOutcome("create", definition.create.outcomes, definition.initial, ctx).value;
    var sets := Gather(RenderedEach(outcome.assigns, ctx)).value;
    fields := FillMembers(definition.schema, sets + PresentArguments(outcome.setIfPresent, args));
    id := if supplied.Some? then supplied.value else DeriveIdentity(doors, definition, fields).value;
  }

  lemma CreateTracedDecides(doors: Doors, definition: Definition, supplied: Option<string>, input: Json,
                            checked: bool, args: Object, outcome: Outcome, id: string, fields: Object, d: Decision)
    requires CreateTraced(doors, definition, supplied, input, args, outcome, id, fields)
    requires CompleteCreate(doors, definition, args, outcome, id, fields, checked) == Ok(d)
    ensures ServiceCreate(doors, definition, supplied, input, checked) == Ok(Accepted(d))
  {
    hide Normalize, SelectOutcome, Gather, PresentArguments, FillMembers, ValidObject, DeriveIdentity,
         CompleteCreate, ResolveTemplate;
  }

  lemma ServiceCreateIsSafe(doors: Doors, definition: Definition, supplied: Option<string>, input: Json,
                            checked: bool, d: Decision)
    requires Registered(doors, definition)
    requires ServiceCreate(doors, definition, supplied, input, checked) == Ok(Accepted(d))
    ensures Newborn(doors, definition, d)
    ensures if supplied.Some? then d.instance.id == supplied.value
            else DeriveIdentity(doors, definition, d.instance.fields) == Ok(d.instance.id)
  {
    hide Registered, ServiceCreate, SelectOutcome, Gather, Normalize, FillMembers, CompleteCreate, Newborn;
    var args, outcome, id, fields := ServiceCreateTrace(doors, definition, supplied, input, checked, d);
    BranchCreate(doors, definition, args, outcome, id, fields, checked);
    CreatedFields(doors, definition, args, outcome, id, fields, checked);
  }

  lemma CreatedFields(doors: Doors, definition: Definition, args: Object, outcome: Outcome, id: string,
                      fields: Object, checked: bool)
    requires CompleteCreate(doors, definition, args, outcome, id, fields, checked).Ok?
    ensures CompleteCreate(doors, definition, args, outcome, id, fields, checked).value.instance
         == Born(definition, id, fields)
  {
    hide CheckIdentity, CheckInvariants, MaterializeEvents, MaterializeResponse;
  }

  lemma DerivedNotBlank(doors: Doors, definition: Definition, fields: Object)
    requires Prints(doors) && DeriveIdentity(doors, definition, fields).Ok?
    ensures !Blank(DeriveIdentity(doors, definition, fields).value)
  {
    hide Address;
    var field := definition.identity.value;
    AddressNotBlank(doors, definition.schema.fields[field].kind, fields[field]);
  }

  lemma NewbornIsSafe(doors: Doors, definition: Definition, d: Decision)
    requires Registered(doors, definition) && Newborn(doors, definition, d) && !Blank(d.instance.id)
    ensures Safe(doors, definition, d.instance) && d.instance.revision == 1
  {
    hide Registered, CheckIdentity, CheckInvariants, ValidObject, Mirrored, EveryHolds;
    RegisteredInvariants(doors, definition);
    InvariantsMean(definition.invariants, AloneContext(doors, definition, d.instance));
    MirrorChecked(doors, definition, d.instance);
  }

  lemma CreateIsSafe(doors: Doors, definition: Definition, id: string, input: Json, checked: bool, d: Decision)
    requires Registered(doors, definition)
    requires DecideCreate(doors, definition, id, input, checked) == Ok(Accepted(d))
    ensures Safe(doors, definition, d.instance) && d.instance.revision == 1 && d.instance.id == id
  {
    hide Registered, ServiceCreate, CreateFromFields, Newborn, Safe;
    if HasBranches(definition, definition.create.outcomes) {
      ServiceCreateIsSafe(doors, definition, Some(id), input, checked, d);
    } else {
      FieldsCreate(doors, definition, id, input);
    }
    NewbornIsSafe(doors, definition, d);
  }

  lemma CreateDerivedIsSafe(doors: Doors, definition: Definition, input: Json, d: Decision)
    requires Registered(doors, definition) && Prints(doors)
    requires DecideCreateDerived(doors, definition, input) == Ok(Accepted(d))
    ensures Safe(doors, definition, d.instance) && d.instance.revision == 1
  {
    hide Registered, ServiceCreate, DecideCreate, DeriveIdentity, Normalize, Safe, Newborn, Prints;
    if HasBranches(definition, definition.create.outcomes) {
      ServiceCreateIsSafe(doors, definition, None, input, true, d);
      DerivedNotBlank(doors, definition, d.instance.fields);
      NewbornIsSafe(doors, definition, d);
    } else {
      var fields := Normalize(doors, definition.schema, input, definition.semantics.Service()).value;
      var id := DeriveIdentity(doors, definition, fields).value;
      CreateIsSafe(doors, definition, id, Obj(fields), true, d);
    }
  }

  lemma BegunIsSafe(doors: Doors, definition: Definition, d: Decision)
    requires Registered(doors, definition) && Prints(doors) && Begun(doors, definition, d)
    ensures Safe(doors, definition, d.instance) && d.instance.revision == 1
  {
    hide Registered, DecideCreate, DecideCreateDerived, Safe, Prints;
    if id, input :| DecideCreate(doors, definition, id, input, true) == Ok(Accepted(d)) {
      CreateIsSafe(doors, definition, id, input, true, d);
    } else {
      var input :| DecideCreateDerived(doors, definition, input) == Ok(Accepted(d));
      CreateDerivedIsSafe(doors, definition, input, d);
    }
  }

  lemma FollowsIsSafe(doors: Doors, definition: Definition, before: Instance, d: Decision)
    requires Registered(doors, definition) && Safe(doors, definition, before)
    requires Follows(doors, definition, before, d)
    ensures Safe(doors, definition, d.instance)
    ensures d.instance.id == before.id && d.instance.revision == before.revision + 1
  {
    hide Registered, Decide, Safe;
    var name, input, f :| Decide(doors, definition, before, name, input, f, true) == Ok(Accepted(d));
    DecideIsSafe(doors, definition, before, name, input, f, true, d);
  }

  lemma {:induction false} ContinuesIsSafe(doors: Doors, definition: Definition, before: Instance, ds: seq<Decision>)
    requires Registered(doors, definition) && Safe(doors, definition, before)
    requires Continues(doors, definition, before, ds)
    ensures forall k | 0 <= k < |ds| ::
              && Safe(doors, definition, ds[k].instance) && ds[k].instance.id == before.id
              && ds[k].instance.revision == before.revision + 1 + k
    decreases |ds|
  {
    hide Registered, Safe, Follows;
    if ds != [] {
      FollowsIsSafe(doors, definition, before, ds[0]);
      ContinuesIsSafe(doors, definition, ds[0].instance, ds[1..]);
      assert forall k | 0 < k < |ds| :: ds[k] == ds[1..][k - 1];
    }
  }

  /** In every run under one registered definition, each instance satisfies the schema, makes every
      invariant true, rests in a declared state, keeps who it is, mirrors its identity, and counts the
      decisions that made it. */
  lemma RunIsSafe(doors: Doors, definition: Definition, ds: seq<Decision>)
    requires Registered(doors, definition) && Prints(doors) && IsRun(doors, definition, ds)
    ensures forall k | 0 <= k < |ds| ::
              && Safe(doors, definition, ds[k].instance) && ds[k].instance.id == ds[0].instance.id
              && ds[k].instance.revision == k + 1
  {
    hide Registered, Safe, Begun, Continues, Prints;
    BegunIsSafe(doors, definition, ds[0]);
    ContinuesIsSafe(doors, definition, ds[0].instance, ds[1..]);
    assert forall k | 0 < k < |ds| :: ds[k] == ds[1..][k - 1];
  }

  // --- Edges --------------------------------------------------------------------------------------

  /** What an accepted operation's move followed. */
  ghost predicate FollowsEdge(definition: Definition, operation: Operation, from: string, d: Decision) {
    if !HasBranches(definition, operation.outcomes) then
      exists t | t in operation.transitions :: from in t.from && d.instance.state == t.to
    else
      exists o | o in operation.outcomes ::
        && d.record.outcome == Some(o.name)
        && (if o.effect.Moves?
            then d.instance.state == o.effect.to && (from in o.effect.from <==> !o.wrongState)
            else d.instance.state == from)
  }

  /** A `kernel/1` operation follows a declared transition; a branch that moves follows its own declared
      edge if and only if it is not the wrong-state one; any other branch stays where it is. */
  lemma MovesFollowEdges(doors: Doors, definition: Definition, instance: Instance, name: string, input: Json,
                         f: Option<map<string, Action>>, checked: bool, d: Decision)
    requires Decide(doors, definition, instance, name, input, f, checked) == Ok(Accepted(d))
    ensures name in definition.operations
    ensures FollowsEdge(definition, definition.operations[name], instance.state, d)
  {
    hide Decide, SelectBranch, StepEight, CheckPreconditions, CheckIdentity, CheckInvariants,
         MaterializeResponse, MaterializeEvents, ValidObject, Normalize, ChangedFields;
    var args, branch, fields, removed := DecideTrace(doors, definition, instance, name, input, f, checked, d);
    var operation := definition.operations[name];
    var outcome := BranchOrigin(doors, definition, instance, name, operation, args);
    if outcome.Some? {
      assert outcome.value in operation.outcomes && d.record.outcome == Some(outcome.value.name);
    }
  }
}
