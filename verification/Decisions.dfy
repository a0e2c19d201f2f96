/** When an operation or a creation is accepted, and with what: every condition on the way as a statement about
    values, rules, branches and fields. */
module Decisions {
  import opened Prelude
  import opened Definition
  import opened Reading
  import opened Evaluator
  import opened Values
  import opened Templates
  import opened Runtime
  import opened Registration
  import opened Traces
  import opened Safety
  import opened Rules
  import opened Selection
  import opened Writes
  import opened Identity

  /** What a decided operation reads: its arguments, the fields before and after, the state it leaves and the one
      it enters. */
  function Reads(doors: Doors, definition: Definition, before: Instance, operation: Operation, args: Object,
                 toState: string, fields: Object): Context
  {
    Context(doors, definition, Some(before.id), args, Some(operation.arguments), before.fields, fields,
            Some(before.state), toState)
  }

  /** The defaults filled in leave a valid object. */
  predicate Normalizes(doors: Doors, schema: Schema, input: Json, service: bool, args: Object) {
    input.Obj? && args == FillMembers(schema, input.members) && ValidObject(doors, schema, args, service)
  }

  /** The operation is decided under this branch on these arguments and ends here: the subject matches, the
      arguments normalize, the branch is the one that runs and does not refuse, every precondition holds, the
      fields are written as the branch and the host say, the result is valid, mirrors its identity and makes
      every invariant true, and events and response are what the branch declares. */
  ghost predicate Concludes(doors: Doors, definition: Definition, before: Instance, name: string, input: Json,
                            f: Option<map<string, Action>>, checked: bool, args: Object, branch: Branch, d: Decision)
  {
    && before.entity == definition.entity && before.version == definition.version
    && before.state in definition.states && name in definition.operations
    && var operation, service := definition.operations[name], definition.semantics.Service();
    && Normalizes(doors, operation.arguments, input, service, args)
    && Runs(doors, definition, before, operation, args, branch) && branch.refuses.None?
    && var start := Reads(doors, definition, before, operation, args, branch.toState, before.fields);
    && EveryHolds(operation.preconditions, start)
    && Written8(doors, definition, branch, start, f, d.instance.fields, d.record.removed)
    && ValidObject(doors, definition.schema, d.instance.fields, service)
    && before.revision < I64_MAX
    && d.instance == Instance(before.entity, before.version, before.id, branch.toState, before.revision + 1,
                              d.instance.fields)
    && Mirrored(doors, definition, d.instance)
    && var end := Reads(doors, definition, before, operation, args, branch.toState, d.instance.fields);
    && EveryHolds(definition.invariants, end)
    && EventsAre(branch.emits, end, before.revision + 1, args, d.record.removed, d.events)
    && ResponseIs(branch.responds, operation.response, end, checked, d.record.response)
    && Recorded(definition, before, name, args, f, branch, d)
  }

  /** The record: under which definition, on whom, what was asked, from where to where, what came of it. */
  ghost predicate Recorded(definition: Definition, before: Instance, name: string, args: Object,
                           f: Option<map<string, Action>>, branch: Branch, d: Decision)
  {
    var r := d.record;
    && r.definition == Some(definition)
    && r.command == ExecuteCommand(name, args, match f case Some(given) => given case None => map[])
    && r.entity == before.entity && r.id == before.id && r.revision == before.revision + 1
    && r.fromState == Some(before.state) && r.toState == branch.toState && r.result == d.instance
    && Delta(before.fields, d.instance.fields, r.changed) && r.events == d.events
    && r.outcome == branch.name && r.effect == branch.effect
  }

  lemma NormalizesMeans(doors: Doors, schema: Schema, input: Json, service: bool, args: Object)
    ensures Normalize(doors, schema, input, service) == Some(args) <==> Normalizes(doors, schema, input, service, args)
  {
    hide FillMembers, ValidObject;
  }

  lemma TracedMeans(doors: Doors, definition: Definition, before: Instance, name: string, input: Json,
                    f: Option<map<string, Action>>, checked: bool, args: Object, branch: Branch, fields: Object,
                    removed: set<string>)
    ensures Traced(doors, definition, before, name, input, f, checked, args, branch, fields, removed)
       <==> && before.entity == definition.entity && before.version == definition.version
            && before.state in definition.states && name in definition.operations
            && var operation := definition.operations[name];
            && Normalizes(doors, operation.arguments, input, definition.semantics.Service(), args)
            && Runs(doors, definition, before, operation, args, branch) && branch.refuses.None?
            && var start := Reads(doors, definition, before, operation, args, branch.toState, before.fields);
            && EveryHolds(operation.preconditions, start)
            && Written8(doors, definition, branch, start, f, fields, removed)
  {
    hide Normalize, Normalizes, SelectBranch, Runs, CheckPreconditions, EveryHolds, StepEight, Written8;
    if name in definition.operations {
      var operation := definition.operations[name];
      var start := Reads(doors, definition, before, operation, args, branch.toState, before.fields);
      assert start == BeforeContext(doors, definition, before, operation, args, branch.toState);
      NormalizesMeans(doors, operation.arguments, input, definition.semantics.Service(), args);
      RunsExactly(doors, definition, before, name, operation, args, branch);
      if Runs(doors, definition, before, operation, args, branch) {
        OnlyNamedRefuse(doors, definition, before, operation, args, branch);
      }
      PreconditionsMean(name, operation.preconditions, start);
      StepEightMeans(doors, definition, name, branch, start, f, fields, removed);
    }
  }

  lemma OnlyNamedRefuse(doors: Doors, definition: Definition, before: Instance, operation: Operation, args: Object,
                        branch: Branch)
    requires Runs(doors, definition, before, operation, args, branch)
    ensures branch.refuses.Some? ==> branch.name.Some?
  {
    hide TakenFirst, Admitted, FirstTransition;
  }

  lemma ConcludedMeans(doors: Doors, definition: Definition, before: Instance, name: string, operation: Operation,
                       args: Object, branch: Branch, f: Option<map<string, Action>>, checked: bool, d: Decision)
    requires Registered(doors, definition)
    ensures Concluded(doors, definition, before, name, operation, args, branch, Given(f), checked, d.instance.fields,
                      d.record.removed, d)
       <==> && ValidObject(doors, definition.schema, d.instance.fields, definition.semantics.Service())
            && before.revision < I64_MAX
            && d.instance == Instance(before.entity, before.version, before.id, branch.toState, before.revision + 1,
                                      d.instance.fields)
            && Mirrored(doors, definition, d.instance)
            && var end := Reads(doors, definition, before, operation, args, branch.toState, d.instance.fields);
            && EveryHolds(definition.invariants, end)
            && EventsAre(branch.emits, end, before.revision + 1, args, d.record.removed, d.events)
            && ResponseIs(branch.responds, operation.response, end, checked, d.record.response)
            && Recorded(definition, before, name, args, f, branch, d)
  {
    hide Registered, ValidObject, CheckIdentity, Mirrored, CheckInvariants, EveryHolds, MaterializeEvents, EventsAre,
         MaterializeResponse, ResponseIs, ChangedFields, Delta;
    var end := Reads(doors, definition, before, operation, args, branch.toState, d.instance.fields);
    assert end == AfterContext(doors, definition, before, operation, args, branch.toState, d.instance.fields);
    MirrorChecked(doors, definition, d.instance);
    InvariantsMean(definition.invariants, end);
    EventsMean(branch.emits, end, before.revision + 1, args, d.record.removed, d.events);
    ResponseMeans(branch.responds, operation.response, end, checked, d.record.response);
    DeltaMeans(before.fields, d.instance.fields, d.record.changed);
  }

  /** An operation is accepted with exactly the decisions it concludes in. */
  lemma AcceptsExactly(doors: Doors, definition: Definition, before: Instance, name: string, input: Json,
                       f: Option<map<string, Action>>, checked: bool, d: Decision)
    requires Registered(doors, definition)
    ensures Decide(doors, definition, before, name, input, f, checked) == Ok(Accepted(d))
       <==> exists args, branch :: Concludes(doors, definition, before, name, input, f, checked, args, branch, d)
  {
    hide Registered, Decide, Concluded, Concludes, Normalize, SelectBranch, CheckPreconditions, StepEight;
    if Decide(doors, definition, before, name, input, f, checked) == Ok(Accepted(d)) {
      var args, branch, fields, removed := DecideTrace(doors, definition, before, name, input, f, checked, d);
      ConcludedShows(doors, definition, before, name, args, branch, f, checked, fields, removed, d);
      PassesConclude(doors, definition, before, name, input, f, checked, args, branch, d);
    }
    if args, branch :| Concludes(doors, definition, before, name, input, f, checked, args, branch, d) {
      PassesConclude(doors, definition, before, name, input, f, checked, args, branch, d);
      TracedDecides(doors, definition, before, name, input, f, checked, args, branch, d.instance.fields,
                    d.record.removed, d);
    }
  }

  lemma ConcludedShows(doors: Doors, definition: Definition, before: Instance, name: string, args: Object,
                       branch: Branch, f: Option<map<string, Action>>, checked: bool, fields: Object,
                       removed: set<string>, d: Decision)
    requires name in definition.operations
    requires Concluded(doors, definition, before, name, definition.operations[name], args, branch, Given(f), checked,
                       fields, removed, d)
    ensures d.instance.fields == fields && d.record.removed == removed
  {
    hide ValidObject, CheckIdentity, CheckInvariants, MaterializeEvents, MaterializeResponse, ChangedFields;
  }

  lemma PassesConclude(doors: Doors, definition: Definition, before: Instance, name: string, input: Json,
                       f: Option<map<string, Action>>, checked: bool, args: Object, branch: Branch, d: Decision)
    requires Registered(doors, definition)
    ensures Concludes(doors, definition, before, name, input, f, checked, args, branch, d)
       <==> Traced(doors, definition, before, name, input, f, checked, args, branch, d.instance.fields,
                   d.record.removed)
            && Concluded(doors, definition, before, name, definition.operations[name], args, branch, Given(f), checked,
                         d.instance.fields, d.record.removed, d)
  {
    hide Registered, Normalizes, Runs, EveryHolds, Written8, ValidObject, Mirrored, EventsAre, ResponseIs, Recorded,
         Traced, Concluded;
    TracedMeans(doors, definition, before, name, input, f, checked, args, branch, d.instance.fields, d.record.removed);
    if name in definition.operations {
      ConcludedMeans(doors, definition, before, name, definition.operations[name], args, branch, f, checked, d);
    }
  }

  /** An operation is declined by exactly the refusing branch that runs, whatever the host offers. */
  lemma DeclinesExactly(doors: Doors, definition: Definition, before: Instance, name: string, input: Json,
                        f: Option<map<string, Action>>, checked: bool, outcome: string, error: string)
    ensures Decide(doors, definition, before, name, input, f, checked) == Ok(Declined(outcome, error))
       <==> exists args, branch ::
              && before.entity == definition.entity && before.version == definition.version
              && before.state in definition.states && name in definition.operations
              && Normalizes(doors, definition.operations[name].arguments, input, definition.semantics.Service(), args)
              && Runs(doors, definition, before, definition.operations[name], args, branch)
              && branch.name == Some(outcome) && branch.refuses == Some(error)
  {
    hide Normalize, Normalizes, SelectBranch, Runs, Carry;
    if name in definition.operations {
      var operation, service := definition.operations[name], definition.semantics.Service();
      forall args
        ensures Normalize(doors, operation.arguments, input, service) == Some(args)
           <==> Normalizes(doors, operation.arguments, input, service, args)
      {
        NormalizesMeans(doors, operation.arguments, input, service, args);
      }
      forall args, branch
        ensures SelectBranch(doors, definition, before, name, operation, args) == Ok(branch)
           <==> Runs(doors, definition, before, operation, args, branch)
      {
        RunsExactly(doors, definition, before, name, operation, args, branch);
      }
      var normal := Normalize(doors, operation.arguments, input, service);
      if normal.Some? {
        assert Normalizes(doors, operation.arguments, input, service, normal.value);
        var selected := SelectBranch(doors, definition, before, name, operation, normal.value);
        if selected.Ok? {
          assert Runs(doors, definition, before, operation, normal.value, selected.value);
        }
      }
    }
  }

  // --- Refusals -----------------------------------------------------------------------------------

  /** Nothing about the arguments or the branches is asked of a subject that does not match or of an operation
      that is not declared. */
  lemma SubjectFirst(doors: Doors, definition: Definition, before: Instance, name: string, input: Json,
                     f: Option<map<string, Action>>, checked: bool)
    ensures var r := Decide(doors, definition, before, name, input, f, checked);
            if before.entity != definition.entity || before.version != definition.version then r == Err(EntityMismatch)
            else if before.state !in definition.states then r == Err(UnknownState(before.state))
            else if name !in definition.operations then r == Err(OperationNotFound(name))
            else
              (!exists args :: Normalizes(doors, definition.operations[name].arguments, input,
                                          definition.semantics.Service(), args))
              ==> r == Err(Validation)
  {
    hide Normalizes, SelectBranch, Carry, Normalize;
    if name in definition.operations {
      var operation, service := definition.operations[name], definition.semantics.Service();
      var normal := Normalize(doors, operation.arguments, input, service);
      if normal.Some? {
        NormalizesMeans(doors, operation.arguments, input, service, normal.value);
      }
    }
  }

  function Refusal<T>(r: Result<T, CoreError>): Option<CoreError> {
    match r case Ok(_) => None case Err(e) => Some(e)
  }

  /** The refusal of the first rule that does not hold, when one does not. */
  ghost predicate RefusedByFirst(rules: seq<Rule>, ctx: Context, refusal: Option<CoreError>,
                                 broken: Option<string> -> CoreError,
                                 unobservable: (Option<string>, set<string>) -> CoreError)
  {
    exists k: nat :: FirstFailing(rules, ctx, k) && refusal.Some?
              && RefusedBy(rules[k], ctx, refusal.value, broken(rules[k].name), u => unobservable(rules[k].name, u))
  }

  /** The first precondition that does not hold refuses before anything is written; with every one holding a
      failing write does, before anything is checked; and then, in this order, an invalid result, an exhausted
      revision, an identity that does not mirror, the first invariant not true. */
  ghost predicate InOrder(doors: Doors, definition: Definition, before: Instance, name: string, operation: Operation,
                          args: Object, branch: Branch, f: Option<map<string, Action>>, refusal: Option<CoreError>)
  {
    var start := Reads(doors, definition, before, operation, args, branch.toState, before.fields);
    if !EveryHolds(operation.preconditions, start) then
      RefusedByFirst(operation.preconditions, start, refusal, n => PreconditionFailed(name, n),
                     (n, u) => PreconditionUnobservable(name, n, u))
    else
      var step := StepEight(doors, definition, name, branch, start, f);
      if step.Err? then refusal == Some(step.error)
      else
        var fields := step.value.0;
        var next := Instance(before.entity, before.version, before.id, branch.toState, before.revision + 1, fields);
        var end := Reads(doors, definition, before, operation, args, branch.toState, fields);
        if !ValidObject(doors, definition.schema, fields, definition.semantics.Service()) then refusal == Some(Validation)
        else if before.revision >= I64_MAX then refusal == Some(RevisionExhausted)
        else if !Mirrored(doors, definition, next) then
          definition.identity.Some? && refusal == Some(IdentityMismatch(definition.identity.value))
        else
          !EveryHolds(definition.invariants, end) ==>
            RefusedByFirst(definition.invariants, end, refusal, n => InvariantViolation(n),
                           (n, u) => InvariantUnobservable(n, u))
  }

  lemma PreconditionRefuses(operation: string, rules: seq<Rule>, ctx: Context)
    requires !EveryHolds(rules, ctx)
    ensures RefusedByFirst(rules, ctx, Refusal(CheckPreconditions(operation, rules, ctx)),
                           n => PreconditionFailed(operation, n), (n, u) => PreconditionUnobservable(operation, n, u))
  {
    hide EveryHolds, FirstFailing;
    SomeFails(rules, ctx);
    var k: nat :| FirstFailing(rules, ctx, k);
    FirstPreconditionAnswers(operation, rules, ctx, k);
  }

  lemma InvariantRefuses(rules: seq<Rule>, ctx: Context)
    requires !EveryHolds(rules, ctx)
    ensures RefusedByFirst(rules, ctx, Refusal(CheckInvariants(rules, ctx)), n => InvariantViolation(n),
                           (n, u) => InvariantUnobservable(n, u))
  {
    hide EveryHolds, FirstFailing;
    SomeFails(rules, ctx);
    var k: nat :| FirstFailing(rules, ctx, k);
    FirstInvariantAnswers(rules, ctx, k);
  }

  lemma CarryRefuses(doors: Doors, definition: Definition, before: Instance, name: string, operation: Operation,
                     args: Object, branch: Branch, f: Option<map<string, Action>>, checked: bool)
    requires Registered(doors, definition)
    ensures InOrder(doors, definition, before, name, operation, args, branch, f,
                    Refusal(Carry(doors, definition, before, name, operation, args, branch, f, checked)))
  {
    hide Registered, StepEight, ValidObject, Mirrored, CheckPreconditions, EveryHolds, CheckInvariants,
         RefusedByFirst, MaterializeEvents, MaterializeResponse, Address;
    var start := Reads(doors, definition, before, operation, args, branch.toState, before.fields);
    PreconditionsMean(name, operation.preconditions, start);
    if !EveryHolds(operation.preconditions, start) {
      PreconditionRefuses(name, operation.preconditions, start);
    } else if StepEight(doors, definition, name, branch, start, f).Ok? {
      var fields := StepEight(doors, definition, name, branch, start, f).value.0;
      var next := Instance(before.entity, before.version, before.id, branch.toState, before.revision + 1, fields);
      var end := Reads(doors, definition, before, operation, args, branch.toState, fields);
      MirrorChecked(doors, definition, next);
      InvariantsMean(definition.invariants, end);
      if !EveryHolds(definition.invariants, end) {
        InvariantRefuses(definition.invariants, end);
      }
    }
  }

  /** Once a branch runs that does not refuse, refusals come in that order. */
  lemma RefusedInOrder(doors: Doors, definition: Definition, before: Instance, name: string, input: Json,
                       f: Option<map<string, Action>>, checked: bool, args: Object, branch: Branch)
    requires Registered(doors, definition)
    requires before.entity == definition.entity && before.version == definition.version
    requires before.state in definition.states && name in definition.operations
    requires Normalizes(doors, definition.operations[name].arguments, input, definition.semantics.Service(), args)
    requires Runs(doors, definition, before, definition.operations[name], args, branch) && branch.refuses.None?
    ensures InOrder(doors, definition, before, name, definition.operations[name], args, branch, f,
                    Refusal(Decide(doors, definition, before, name, input, f, checked)))
  {
    hide Registered, Normalizes, Normalize, SelectBranch, Runs, Carry, InOrder;
    var operation := definition.operations[name];
    NormalizesMeans(doors, operation.arguments, input, definition.semantics.Service(), args);
    RunsExactly(doors, definition, before, name, operation, args, branch);
    CarryRefuses(doors, definition, before, name, operation, args, branch, f, checked);
  }

  /** Continuing with a loaded subject refuses one of another entity or version, then one of another identity, then
      one in an undeclared state; otherwise it decides without the host, and asks for host actions where that
      does. */
  lemma ContinuingMeans(doors: Doors, definition: Definition, prepared: Prepared, subject: Instance)
    ensures var r := SelectWith(doors, definition, prepared, subject);
            var decided := Decide(doors, definition, subject, prepared.operation, Obj(prepared.arguments), None,
                                  prepared.checked);
            if subject.entity != definition.entity || subject.version != definition.version then r == Err(EntityMismatch)
            else if subject.id != prepared.id then r == Err(SubjectMismatch)
            else if subject.state !in definition.states then r == Err(UnknownState(subject.state))
            else
              match decided
              case Ok(evaluation) => r == Ok(Complete(evaluation))
              case Err(FulfillmentRequired(_, outcome, _)) => r == Ok(NeedsFulfillment(outcome))
              case Err(error) => r == Err(error)
  {
    hide Decide;
  }

  // --- Creation -----------------------------------------------------------------------------------

  /** What a creation reads: the fields it makes, and no state it leaves. */
  function ReadsNew(doors: Doors, definition: Definition, id: Option<string>, args: Object, schema: Option<Schema>,
                    fields: Object): Context
  {
    Context(doors, definition, id, args, schema, map[], fields, None, definition.initial)
  }

  /** The record of a creation. */
  predicate RecordedBirth(definition: Definition, id: string, arguments: Object, outcome: Option<string>,
                          effect: Option<DecisionEffect>, d: Decision)
  {
    var r := d.record;
    && d.instance == Instance(definition.entity, definition.version, id, definition.initial, 1, d.instance.fields)
    && r.definition == Some(definition) && r.command == CreateCommand(d.instance.fields, arguments)
    && r.entity == definition.entity && r.id == id && r.revision == 1
    && r.fromState == None && r.toState == definition.initial && r.result == d.instance
    && r.changed == d.instance.fields && r.removed == {} && r.events == d.events
    && r.outcome == outcome && r.effect == effect
  }

  /** A creation whose input is its fields: they normalize, the identity mirrors, every invariant is true, and the
      declared event, where there is one, is what is emitted. */
  ghost predicate BornOfFields(doors: Doors, definition: Definition, id: string, input: Json, d: Decision) {
    var service := definition.semantics.Service();
    var fields, own := d.instance.fields, ReadsNew(doors, definition, Some(id), map[], None, d.instance.fields);
    && Normalizes(doors, definition.schema, input, service, fields)
    && Mirrored(doors, definition, d.instance) && EveryHolds(definition.invariants, own)
    && EventsAre(EmittedAtBirth(definition), own, 1, fields, {}, d.events)
    && RecordedBirth(definition, id, if service then fields else map[], None, None, d) && d.record.response == None
  }

  function EmittedAtBirth(definition: Definition): seq<EventTemplate> {
    match definition.create.emit case Some(emit) => [emit] case None => []
  }

  lemma FieldsBirthSteps(doors: Doors, definition: Definition, id: string, input: Json, d: Decision)
    ensures CreateFromFields(doors, definition, id, input) == Ok(d)
       <==> var service, fields := definition.semantics.Service(), d.instance.fields;
            var own := CreateContext(doors, definition, Some(id), map[], None, fields);
            && Normalize(doors, definition.schema, input, service) == Some(fields)
            && CheckIdentity(doors, definition, Born(definition, id, fields)).Ok?
            && CheckInvariants(definition.invariants, own).Ok?
            && MaterializeEvents(EmittedAtBirth(definition), own, 1, fields, {}) == Ok(d.events)
            && d == Birth(definition, Born(definition, id, fields), if service then fields else map[], d.events, None,
                          None, None)
  {
    hide Normalize, CheckIdentity, CheckInvariants, MaterializeEvents;
  }

  lemma FieldsBirth(doors: Doors, definition: Definition, id: string, input: Json, d: Decision)
    requires Registered(doors, definition)
    ensures CreateFromFields(doors, definition, id, input) == Ok(d) <==> BornOfFields(doors, definition, id, input, d)
  {
    hide Registered, Normalize, Normalizes, CheckIdentity, Mirrored, CheckInvariants, EveryHolds, MaterializeEvents,
         EventsAre, CreateFromFields;
    var service, fields := definition.semantics.Service(), d.instance.fields;
    var own := ReadsNew(doors, definition, Some(id), map[], None, fields);
    assert own == CreateContext(doors, definition, Some(id), map[], None, fields);
    FieldsBirthSteps(doors, definition, id, input, d);
    NormalizesMeans(doors, definition.schema, input, service, fields);
    MirrorChecked(doors, definition, Born(definition, id, fields));
    InvariantsMean(definition.invariants, own);
    EventsMean(EmittedAtBirth(definition), own, 1, fields, {}, d.events);
  }

  lemma CompletedBirth(doors: Doors, definition: Definition, args: Object, o: Outcome, id: string, fields: Object,
                       checked: bool, d: Decision)
    requires Registered(doors, definition)
    ensures CompleteCreate(doors, definition, args, o, id, fields, checked) == Ok(d)
       <==> && d.instance.fields == fields
            && var own := ReadsNew(doors, definition, Some(id), args, Some(definition.create.arguments), fields);
            && Mirrored(doors, definition, d.instance) && EveryHolds(definition.invariants, own)
            && EventsAre(o.emits, own, 1, args, {}, d.events)
            && ResponseIs(Some((o.responds, o.respondsIfPresent)), definition.create.response, own, checked,
                          d.record.response)
            && RecordedBirth(definition, id, args, Some(o.name), Some(if o.effect.Creates? then Created else Unchanged), d)
  {
    hide Registered, CheckIdentity, Mirrored, CheckInvariants, EveryHolds, MaterializeEvents, EventsAre,
         MaterializeResponse, ResponseIs;
    var own := ReadsNew(doors, definition, Some(id), args, Some(definition.create.arguments), fields);
    assert own == CreateContext(doors, definition, Some(id), args, Some(definition.create.arguments), fields);
    MirrorChecked(doors, definition, Born(definition, id, fields));
    InvariantsMean(definition.invariants, own);
    EventsMean(o.emits, own, 1, args, {}, d.events);
    ResponseMeans(Some((o.responds, o.respondsIfPresent)), definition.create.response, own, checked, d.record.response);
  }

  /** What the selected branch writes before defaults are filled. */
  ghost predicate BranchWrites(o: Outcome, asked: Context, args: Object, sets: Object, written: Object) {
    && sets.Keys == o.assigns.Keys && (forall k | k in sets :: RenderedThroughout(o.assigns[k], sets[k], asked))
    && Overlaid(sets, o.setIfPresent, args, written)
  }

  lemma BranchWritesMeans(o: Outcome, asked: Context, args: Object, sets: Object, written: Object)
    ensures BranchWrites(o, asked, args, sets, written)
       <==> Gather(RenderedEach(o.assigns, asked)) == Ok(sets) && written == sets + PresentArguments(o.setIfPresent, args)
  {
    hide Gather, RenderedEach, PresentArguments, Overlaid, RenderedThroughout;
    RenderedMembers(o.assigns, asked, sets);
    OverlaidMeans(sets, o.setIfPresent, args, written);
  }

  lemma DerivedMirrors(doors: Doors, definition: Definition, id: string, fields: Object)
    requires Registered(doors, definition)
    ensures DeriveIdentity(doors, definition, fields) == Ok(id)
       <==> definition.identity.Some? && Mirrored(doors, definition, Born(definition, id, fields))
  {
    hide Registered, Address;
  }

  /** A creation by branches was asked for on arguments that normalize, the branch taken first does not refuse, and
      its rendered entries with the arguments sent are these fields once defaults are filled. */
  ghost predicate Branched(doors: Doors, definition: Definition, supplied: Option<string>, input: Json, args: Object,
                           o: Outcome, sets: Object, written: Object, fields: Object)
  {
    var create, service := definition.create, definition.semantics.Service();
    var asked := ReadsNew(doors, definition, supplied, args, Some(create.arguments), map[]);
    && Normalizes(doors, create.arguments, input, service, args)
    && TakenFirst(create.outcomes, definition.initial, asked, o) && o.refuses.None?
    && BranchWrites(o, asked, args, sets, written)
    && fields == FillMembers(definition.schema, written)
    && ValidObject(doors, definition.schema, fields, service)
  }

  /** A creation's steps up to its fields. */
  ghost predicate Stepped(doors: Doors, definition: Definition, supplied: Option<string>, input: Json, args: Object,
                          o: Outcome, fields: Object)
  {
    var create, service := definition.create, definition.semantics.Service();
    var asked := CreateContext(doors, definition, supplied, args, Some(create.arguments), map[]);
    var sets := Gather(RenderedEach(o.assigns, asked));
    && Normalize(doors, create.arguments, input, service) == Some(args)
    && SelectOutcome("create", create.outcomes, definition.initial, asked) == Ok(o) && o.refuses.None?
    && sets.Ok?
    && fields == FillMembers(definition.schema, sets.value + PresentArguments(o.setIfPresent, args))
    && ValidObject(doors, definition.schema, fields, service)
  }

  lemma SteppedMeans(doors: Doors, definition: Definition, supplied: Option<string>, input: Json, args: Object,
                     o: Outcome, fields: Object)
    ensures Stepped(doors, definition, supplied, input, args, o, fields)
       <==> exists sets, written :: Branched(doors, definition, supplied, input, args, o, sets, written, fields)
  {
    hide Normalize, Normalizes, SelectOutcome, TakenFirst, Gather, RenderedEach, PresentArguments, FillMembers,
         ValidObject, BranchWrites;
    var asked := ReadsNew(doors, definition, supplied, args, Some(definition.create.arguments), map[]);
    assert asked == CreateContext(doors, definition, supplied, args, Some(definition.create.arguments), map[]);
    NormalizesMeans(doors, definition.create.arguments, input, definition.semantics.Service(), args);
    SelectsExactly("create", definition.create.outcomes, definition.initial, asked, o);
    if Stepped(doors, definition, supplied, input, args, o, fields) {
      var sets := Gather(RenderedEach(o.assigns, asked)).value;
      var written := sets + PresentArguments(o.setIfPresent, args);
      BranchWritesMeans(o, asked, args, sets, written);
      assert Branched(doors, definition, supplied, input, args, o, sets, written, fields);
    }
    if sets, written :| Branched(doors, definition, supplied, input, args, o, sets, written, fields) {
      BranchWritesMeans(o, asked, args, sets, written);
    }
  }

  lemma BranchedMeans(doors: Doors, definition: Definition, supplied: Option<string>, input: Json, args: Object,
                      o: Outcome, id: string, fields: Object)
    requires Registered(doors, definition)
    ensures CreateTraced(doors, definition, supplied, input, args, o, id, fields)
       <==> && (exists sets, written :: Branched(doors, definition, supplied, input, args, o, sets, written, fields))
            && (if supplied.Some? then supplied == Some(id)
                else definition.identity.Some? && Mirrored(doors, definition, Born(definition, id, fields)))
  {
    hide Registered, Normalize, SelectOutcome, Gather, RenderedEach, PresentArguments, FillMembers, ValidObject,
         DeriveIdentity, Mirrored, Branched;
    SteppedMeans(doors, definition, supplied, input, args, o, fields);
    DerivedMirrors(doors, definition, id, fields);
  }

  /** And it concluded in this decision: an identity that is the one supplied, or the mirrored field's, every
      invariant true, the events and the response the branch declares. */
  ghost predicate BirthConcludes(doors: Doors, definition: Definition, supplied: Option<string>, args: Object,
                                 o: Outcome, checked: bool, d: Decision)
  {
    var own := ReadsNew(doors, definition, Some(d.instance.id), args, Some(definition.create.arguments),
                        d.instance.fields);
    && (if supplied.Some? then supplied == Some(d.instance.id) else definition.identity.Some?)
    && Mirrored(doors, definition, d.instance) && EveryHolds(definition.invariants, own)
    && EventsAre(o.emits, own, 1, args, {}, d.events)
    && ResponseIs(Some((o.responds, o.respondsIfPresent)), definition.create.response, own, checked, d.record.response)
    && RecordedBirth(definition, d.instance.id, args, Some(o.name),
                     Some(if o.effect.Creates? then Created else Unchanged), d)
  }

  lemma BranchBirth(doors: Doors, definition: Definition, supplied: Option<string>, input: Json, checked: bool,
                    d: Decision)
    requires Registered(doors, definition)
    ensures ServiceCreate(doors, definition, supplied, input, checked) == Ok(Accepted(d))
       <==> exists args, o, sets, written ::
              && Branched(doors, definition, supplied, input, args, o, sets, written, d.instance.fields)
              && BirthConcludes(doors, definition, supplied, args, o, checked, d)
  {
    hide Registered, ServiceCreate, CreateTraced, CompleteCreate, Branched, BirthConcludes;
    if ServiceCreate(doors, definition, supplied, input, checked) == Ok(Accepted(d)) {
      var args, o, id, fields := ServiceCreateTrace(doors, definition, supplied, input, checked, d);
      BranchedMeans(doors, definition, supplied, input, args, o, id, fields);
      BirthIs(doors, definition, supplied, args, o, id, fields, checked, d);
      var sets, written :| Branched(doors, definition, supplied, input, args, o, sets, written, fields);
      assert Branched(doors, definition, supplied, input, args, o, sets, written, d.instance.fields);
    }
    if args, o, sets, written :|
       && Branched(doors, definition, supplied, input, args, o, sets, written, d.instance.fields)
       && BirthConcludes(doors, definition, supplied, args, o, checked, d) {
      var id, fields := d.instance.id, d.instance.fields;
      BirthIs(doors, definition, supplied, args, o, id, fields, checked, d);
      BranchedMeans(doors, definition, supplied, input, args, o, id, fields);
      CreateTracedDecides(doors, definition, supplied, input, checked, args, o, id, fields, d);
    }
  }

  lemma BirthIs(doors: Doors, definition: Definition, supplied: Option<string>, args: Object, o: Outcome, id: string,
                fields: Object, checked: bool, d: Decision)
    requires Registered(doors, definition)
    ensures CompleteCreate(doors, definition, args, o, id, fields, checked) == Ok(d)
            && (if supplied.Some? then supplied == Some(id)
                else definition.identity.Some? && Mirrored(doors, definition, Born(definition, id, fields)))
       <==> d.instance.id == id && d.instance.fields == fields
            && BirthConcludes(doors, definition, supplied, args, o, checked, d)
  {
    hide Registered, CompleteCreate, Mirrored, EveryHolds, EventsAre, ResponseIs;
    CompletedBirth(doors, definition, args, o, id, fields, checked, d);
  }

  /** A creation under a supplied identity is accepted with exactly the decisions so made, never under a blank
      identity. */
  lemma CreatesExactly(doors: Doors, definition: Definition, id: string, input: Json, checked: bool, d: Decision)
    requires Registered(doors, definition)
    ensures DecideCreate(doors, definition, id, input, checked) == Ok(Accepted(d))
       <==> && !Blank(id)
            && if HasBranches(definition, definition.create.outcomes) then
                 exists args, o, sets, written ::
                   && Branched(doors, definition, Some(id), input, args, o, sets, written, d.instance.fields)
                   && BirthConcludes(doors, definition, Some(id), args, o, checked, d)
               else BornOfFields(doors, definition, id, input, d)
  {
    hide Registered, ServiceCreate, CreateFromFields, Branched, BirthConcludes, BornOfFields, Blank;
    BranchBirth(doors, definition, Some(id), input, checked, d);
    FieldsBirth(doors, definition, id, input, d);
  }

  /** Without a supplied identity it is derived from the fields the creation makes. */
  lemma DerivesExactly(doors: Doors, definition: Definition, input: Json, d: Decision)
    requires Registered(doors, definition)
    ensures DecideCreateDerived(doors, definition, input) == Ok(Accepted(d))
       <==> if HasBranches(definition, definition.create.outcomes) then
              exists args, o, sets, written ::
                && Branched(doors, definition, None, input, args, o, sets, written, d.instance.fields)
                && BirthConcludes(doors, definition, None, args, o, true, d)
            else
              && definition.identity.Some? && !Blank(d.instance.id)
              && BornOfFields(doors, definition, d.instance.id, input, d)
  {
    hide Registered, ServiceCreate, CreateFromFields, Branched, BirthConcludes, Blank;
    if HasBranches(definition, definition.create.outcomes) {
      BranchBirth(doors, definition, None, input, true, d);
    } else {
      DerivedBirth(doors, definition, input, d);
    }
  }

  lemma DerivedBirth(doors: Doors, definition: Definition, input: Json, d: Decision)
    requires Registered(doors, definition) && !HasBranches(definition, definition.create.outcomes)
    ensures DecideCreateDerived(doors, definition, input) == Ok(Accepted(d))
       <==> definition.identity.Some? && !Blank(d.instance.id)
            && BornOfFields(doors, definition, d.instance.id, input, d)
  {
    hide Registered, CreateFromFields, Blank, Mirrored, EventsAre, EveryHolds, Normalize, DeriveIdentity, RecordedBirth;
    var service := definition.semantics.Service();
    var normal := Normalize(doors, definition.schema, input, service);
    NormalizesMeans(doors, definition.schema, input, service, d.instance.fields);
    if normal.Some? {
      var fields := normal.value;
      NormalizesMeans(doors, definition.schema, input, service, fields);
      NormalizeIdempotent(doors, definition.schema, input, service);
      NormalizesMeans(doors, definition.schema, Obj(fields), service, d.instance.fields);
      var derived := DeriveIdentity(doors, definition, fields);
      if derived.Ok? {
        FieldsBirth(doors, definition, derived.value, Obj(fields), d);
        DerivedMirrors(doors, definition, derived.value, fields);
      }
      DerivedMirrors(doors, definition, d.instance.id, fields);
      BirthNames(doors, definition, d);
    }
  }

  lemma BirthNames(doors: Doors, definition: Definition, d: Decision)
    ensures forall id, arguments, outcome, effect | RecordedBirth(definition, id, arguments, outcome, effect, d) ::
              d.instance.id == id && d.instance == Born(definition, id, d.instance.fields)
  {
  }
}
