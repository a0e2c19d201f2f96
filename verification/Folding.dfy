/** The fold over bare events accepts exactly what runs of the kernel write. */
module Folding {
  import opened Prelude
  import opened Keys
  import opened Truth
  import opened Definition
  import opened Reading
  import opened Paths
  import opened Evaluator
  import opened Scopes
  import opened Agreement
  import opened Values
  import opened Runtime
  import opened Registration
  import opened Replay
  import opened Traces
  import opened Drafts
  import opened Safety

  // --- A kernel context without its arguments' schema ---------------------------------------------

  /** Without the service rules, which schema the arguments came under is never read. */
  lemma TemplateIsSchemaBlind(value: Json, c: Context, schema: Option<Schema>)
    requires !c.Service()
    ensures ResolveTemplate(value, c.(argumentsSchema := schema)) == ResolveTemplate(value, c)
  {
    var d := c.(argumentsSchema := schema);
    match value
    case Str(s) =>
      if IsReference(s) {
        ReferenceIsSchemaBlind(s, c, schema);
      }
    case Arr(elements) => TemplatesAreSchemaBlind(elements, c, schema);
    case Obj(members) =>
      forall k | k in members
        ensures ResolveTemplate(members[k], d) == ResolveTemplate(members[k], c)
      {
        TemplateIsSchemaBlind(members[k], c, schema);
      }
      assert (map k | k in members :: ResolveTemplate(members[k], d))
          == (map k | k in members :: ResolveTemplate(members[k], c));
    case _ =>
  }

  lemma TemplatesAreSchemaBlind(values: seq<Json>, c: Context, schema: Option<Schema>)
    requires !c.Service()
    ensures ResolveTemplates(values, c.(argumentsSchema := schema)) == ResolveTemplates(values, c)
  {
    if values != [] {
      TemplateIsSchemaBlind(values[0], c, schema);
      TemplatesAreSchemaBlind(values[1..], c, schema);
    }
  }

  lemma ReferenceIsSchemaBlind(s: string, c: Context, schema: Option<Schema>)
    requires s != [] && !c.Service()
    ensures Resolve(s, c.(argumentsSchema := schema), NoBinding) == Resolve(s, c, NoBinding)
  {
    hide Walk, LookUp, CountOf;
    var r := ReferenceOf(s);
    if r.Reference? && r.root.ArgsRoot? && r.path.Some? {
      PlainLookUp(c.args, r.path.value, schema, c.argumentsSchema);
    }
  }

  // --- One operation's events ---------------------------------------------------------------------

  /** Every payload is its template's. */
  ghost predicate PayloadsOfStep(templates: seq<EventTemplate>, ctx: Context, group: seq<Event>) {
    && |group| == |templates|
    && forall i | 0 <= i < |group| :: ResolveTemplate(templates[i].payload, ctx) == Ok(group[i].payload)
  }

  predicate Unconditional(templates: seq<EventTemplate>) {
    forall t | t in templates :: t.payloadIfPresent == map[]
  }

  lemma {:induction false} MaterializedEvents(templates: seq<EventTemplate>, ctx: Context, revision: nat,
                                              args: Object, removed: set<string>, group: seq<Event>)
    requires Unconditional(templates) && ctx.id.Some?
    ensures MaterializeEvents(templates, ctx, revision, args, removed) == Ok(group)
       <==> && PayloadsOfStep(templates, ctx, group)
            && forall i | 0 <= i < |group| ::
                 group[i] == Event(ctx.definition.entity, ctx.definition.version, ctx.id.value, revision,
                                   templates[i].eventType, ctx.fromState, ctx.toState,
                                   ChangedFields(ctx.oldFields, ctx.newFields), removed, args, group[i].payload)
  {
    hide ResolveTemplate, ChangedFields;
    if templates != [] && group != [] {
      MaterializedEvents(templates[1..], ctx, revision, args, removed, group[1..]);
      assert forall i | 0 < i < |group| :: group[i] == group[1..][i - 1];
      assert forall i | 0 < i < |templates| :: templates[i] == templates[1..][i - 1];
      assert group == [group[0]] + group[1..];
    }
  }

  lemma {:induction false} PayloadsAgreeEach(templates: seq<EventTemplate>, ctx: Context, group: seq<Event>)
    requires |templates| == |group|
    ensures PayloadsAgree(templates, ctx, group) <==> PayloadsOfStep(templates, ctx, group)
  {
    hide ResolveTemplate;
    if group != [] {
      PayloadsAgreeEach(templates[1..], ctx, group[1..]);
      assert forall i | 0 < i < |group| :: group[i] == group[1..][i - 1] && templates[i] == templates[1..][i - 1];
    }
  }

  lemma {:induction false} TypesMatch(templates: seq<EventTemplate>, group: seq<Event>)
    ensures TypesOf(templates) == TypesCarried(group)
       <==> |templates| == |group| && forall i | 0 <= i < |group| :: templates[i].eventType == group[i].eventType
    ensures |TypesOf(templates)| == |templates| && |TypesCarried(group)| == |group|
  {
    if templates != [] && group != [] {
      TypesMatch(templates[1..], group[1..]);
      assert forall i | 0 < i < |group| :: group[i] == group[1..][i - 1];
      assert forall i | 0 < i < |templates| :: templates[i] == templates[1..][i - 1];
      var s, t := TypesOf(templates), TypesCarried(group);
      assert s == [s[0]] + TypesOf(templates[1..]) && t == [t[0]] + TypesCarried(group[1..]);
      assert s == t <==> s[0] == t[0] && s[1..] == t[1..];
    } else {
      TypesLength(templates);
      TypesCarriedLength(group);
    }
  }

  lemma {:induction false} TypesLength(templates: seq<EventTemplate>)
    ensures |TypesOf(templates)| == |templates|
  {
    if templates != [] {
      TypesLength(templates[1..]);
    }
  }

  lemma {:induction false} TypesCarriedLength(group: seq<Event>)
    ensures |TypesCarried(group)| == |group|
  {
    if group != [] {
      TypesCarriedLength(group[1..]);
    }
  }

  // --- What a kernel operation is -----------------------------------------------------------------

  /** A `kernel/1` operation step without the branch machinery around it. */
  ghost predicate KernelStep(doors: Doors, definition: Definition, before: Instance, name: string,
                             args: Object, toState: string, sets: map<string, Change>)
  {
    && before.entity == definition.entity && before.version == definition.version
    && before.state in definition.states && name in definition.operations
    && var operation := definition.operations[name];
    && FillMembers(operation.arguments, args) == args
    && ValidObject(doors, operation.arguments, args, false)
    && TransitionFrom(operation.transitions, before.state).Some?
    && TransitionFrom(operation.transitions, before.state).value.to == toState
    && var ctx := BeforeContext(doors, definition, before, operation, args, toState);
    && CheckPreconditions(name, operation.preconditions, ctx).Ok?
    && Assigned(name, operation.assigns, ctx) == Ok(sets)
  }

  /** What that step concludes with. */
  ghost predicate KernelConclusion(doors: Doors, definition: Definition, before: Instance, name: string,
                                   args: Object, toState: string, sets: map<string, Change>,
                                   after: Instance, events: seq<Event>)
    requires name in definition.operations
  {
    var operation, fields := definition.operations[name], Apply(before.fields, sets);
    var ctx := AfterContext(doors, definition, before, operation, args, toState, fields);
    && ValidObject(doors, definition.schema, fields, false) && before.revision + 1 <= I64_MAX
    && after == before.(state := toState, revision := before.revision + 1, fields := fields)
    && CheckInvariants(definition.invariants, ctx).Ok?
    && MaterializeEvents(operation.emits, ctx, before.revision + 1, args, Dropped(sets)) == Ok(events)
  }

  lemma KernelWrites(doors: Doors, definition: Definition, name: string, operation: Operation, toState: string,
                     ctx: Context, f: Option<map<string, Action>>)
    ensures var branch := Implicit(operation, toState);
            var step := StepEight(doors, definition, name, branch, ctx, f);
            && (step.Ok? <==> Assigned(name, operation.assigns, ctx).Ok? && (f.Some? ==> f.value == map[]))
            && (step.Ok? ==> var sets := Assigned(name, operation.assigns, ctx).value;
                             step.value == (Apply(ctx.oldFields, sets), Dropped(sets)))
  {
    hide Assigned, Gather, Written, Apply, Dropped, ActionChange, ArgumentPresence;
    if f.Some? && f.value.Keys == {} {
      assert f.value == map[];
      NothingGathered();
    }
    if Assigned(name, operation.assigns, ctx).Ok? {
      NothingMore(ctx.oldFields, Assigned(name, operation.assigns, ctx).value);
    }
    assert PresentArguments(map[], ctx.args) == map[];
  }

  lemma NothingGathered()
    ensures Gather<Change>(map[]) == Ok(map[])
  {
  }

  lemma NothingMore(fields: Object, sets: map<string, Change>)
    ensures Written(fields, sets, map[], map[]) == (Apply(fields, sets), Dropped(sets))
  {
    assert Apply(fields, sets) + map[] == Apply(fields, sets);
    assert Apply(Apply(fields, sets), map[]) == Apply(fields, sets);
    assert Dropped(map[]) == {};
    assert Dropped(sets) + {} == Dropped(sets);
  }

  lemma KernelHasNoBranches(doors: Doors, definition: Definition, name: string)
    requires Registered(doors, definition) && !definition.semantics.Service() && name in definition.operations
    ensures definition.identity.None? && definition.operations[name].outcomes == []
  {
    hide Registered;
    RegisteredInvariants(doors, definition);
  }

  lemma KernelBranch(doors: Doors, definition: Definition, before: Instance, name: string, operation: Operation,
                     args: Object)
    requires !definition.semantics.Service()
    ensures var selected := SelectBranch(doors, definition, before, name, operation, args);
            var t := TransitionFrom(operation.transitions, before.state);
            if t.Some? then selected == Ok(Implicit(operation, t.value.to)) else selected.Err?
  {
    hide SelectOutcome, AdmitState, SelectorContext;
  }

  /** An accepted kernel decision is such a step. */
  lemma KernelDecides(doors: Doors, definition: Definition, before: Instance, name: string, input: Json,
                      f: Option<map<string, Action>>, d: Decision)
    returns (args: Object, toState: string, sets: map<string, Change>)
    requires Registered(doors, definition) && !definition.semantics.Service()
    requires Decide(doors, definition, before, name, input, f, true) == Ok(Accepted(d))
    ensures KernelStep(doors, definition, before, name, args, toState, sets)
    ensures KernelConclusion(doors, definition, before, name, args, toState, sets, d.instance, d.events)
  {
    hide Registered, Decide, SelectBranch, StepEight, CheckPreconditions, CheckIdentity, CheckInvariants,
         MaterializeEvents, ValidObject, FillMembers, Assigned, Apply, Dropped, ChangedFields, TransitionFrom;
    var branch, fields, removed;
    args, branch, fields, removed := DecideTrace(doors, definition, before, name, input, f, true, d);
    var operation := definition.operations[name];
    FillIdempotent(operation.arguments, input.members);
    KernelBranch(doors, definition, before, name, operation, args);
    toState := branch.toState;
    var ctx := BeforeContext(doors, definition, before, operation, args, toState);
    KernelWrites(doors, definition, name, operation, toState, ctx, f);
    sets := Assigned(name, operation.assigns, ctx).value;
  }

  /** And such a step is an accepted kernel decision. */
  lemma KernelAccepts(doors: Doors, definition: Definition, before: Instance, name: string, args: Object,
                      toState: string, sets: map<string, Change>, after: Instance, events: seq<Event>)
    returns (d: Decision)
    requires Registered(doors, definition) && !definition.semantics.Service()
    requires KernelStep(doors, definition, before, name, args, toState, sets)
    requires KernelConclusion(doors, definition, before, name, args, toState, sets, after, events)
    ensures Decide(doors, definition, before, name, Obj(args), None, true) == Ok(Accepted(d))
    ensures d.instance == after && d.events == events
  {
    hide Registered, Decide, SelectBranch, StepEight, CheckPreconditions, CheckInvariants,
         MaterializeEvents, ValidObject, FillMembers, Assigned, Apply, Dropped, ChangedFields, TransitionFrom;
    var operation := definition.operations[name];
    var branch := Implicit(operation, toState);
    KernelHasNoBranches(doors, definition, name);
    KernelBranch(doors, definition, before, name, operation, args);
    var ctx := BeforeContext(doors, definition, before, operation, args, toState);
    KernelWrites(doors, definition, name, operation, toState, ctx, None);
    var fields, removed := Apply(before.fields, sets), Dropped(sets);
    d := Decision(after, OperationRecord(definition, before, after, name, args, branch, map[], removed, events, None),
                  events);
    TracedDecides(doors, definition, before, name, Obj(args), None, true, args, branch, fields, removed, d);
  }
}
