/** One revision: what the kernel writes the fold accepts, and what the fold accepts the kernel writes. */
module FoldSteps {
  import opened Prelude
  import opened Definition
  import opened Reading
  import opened Evaluator
  import opened Scopes
  import opened Agreement
  import opened Values
  import opened Runtime
  import opened Registration
  import opened Replay
  import opened Traces
  import opened Drafts
  import opened Safety
  import opened Folding

  // --- Small facts --------------------------------------------------------------------------------

  lemma {:induction false} AllBelongEach(definition: Definition, id: string, group: seq<Event>)
    ensures AllBelong(definition, id, group).Ok? <==> forall i | 0 <= i < |group| :: Belongs(definition, id, group[i]).Ok?
  {
    hide Belongs;
    if group != [] {
      AllBelongEach(definition, id, group[1..]);
      assert forall i | 0 < i < |group| :: group[i] == group[1..][i - 1];
    }
  }

  /** Only a clear drops a field. */
  lemma DroppedIsCleared(operation: Operation, name: string, ctx: Context, k: string)
    requires Assigned(name, operation.assigns, ctx).Ok? && k in Dropped(Assigned(name, operation.assigns, ctx).value)
    ensures ClearsField(operation, k)
  {
    hide ResolveTemplate, Incremented;
    GatherKeys(map j | j in operation.assigns :: AssignedValue(name, j, operation.assigns[j], ctx));
    assert AssignedValue(name, k, operation.assigns[k], ctx) == Ok(Drop);
  }

  lemma {:induction false} UnambiguousTransition(definition: Definition, transitions: seq<Transition>, t: Transition,
                                                 state: string)
    requires TransitionsSound(definition, transitions) && t in transitions && state in t.from
    ensures TransitionFrom(transitions, state) == Some(t)
  {
    if t != transitions[0] {
      UnambiguousTransition(definition, transitions[1..], t, state);
    }
  }

  lemma KernelEventsUnconditional(doors: Doors, definition: Definition, name: string)
    requires Registered(doors, definition) && !definition.semantics.Service() && name in definition.operations
    ensures Unconditional(definition.operations[name].emits)
  {
    hide Registered, TransitionsSound, RuleAccepted, SetAccepted, OutcomesSound, OperationOutcome, MoveSources,
         SchemaDeclared, OperandAccepted, PresentArgument;
    RegisteredOperation(doors, definition, name);
  }

  lemma KernelTransition(doors: Doors, definition: Definition, operation: Operation, name: string, state: string,
                         to: string)
    requires Registered(doors, definition) && name in definition.operations
    requires operation == definition.operations[name]
    ensures (TransitionFrom(operation.transitions, state).Some?
             && TransitionFrom(operation.transitions, state).value.to == to) <==> Declares(operation, state, to)
    ensures Declares(operation, state, to) ==> to in definition.states
  {
    hide Registered, TransitionsSound, TransitionFrom;
    SoundTransitions(doors, definition, name);
    if Declares(operation, state, to) {
      var t :| t in operation.transitions && state in t.from && t.to == to;
      UnambiguousTransition(definition, operation.transitions, t, state);
      DeclaredTarget(definition, operation.transitions, t);
    }
    if TransitionFrom(operation.transitions, state).Some? {
      TransitionIsDeclared(operation.transitions, state);
    }
  }

  /** What both readers hold every event of one operation to. */
  ghost predicate Shaped(definition: Definition, before: Instance, group: seq<Event>, templates: seq<EventTemplate>,
                         args: Object, toState: string, changed: Object, removed: set<string>)
  {
    && |group| == |templates|
    && forall i | 0 <= i < |group| ::
         group[i] == Event(definition.entity, definition.version, before.id, before.revision + 1,
                           templates[i].eventType, Some(before.state), toState, changed, removed, args,
                           group[i].payload)
  }

  /** An operation writes a group exactly when the group has its shape and its payloads. */
  lemma WritesGroup(doors: Doors, definition: Definition, before: Instance, operation: Operation, args: Object,
                    toState: string, fields: Object, removed: set<string>, group: seq<Event>)
    requires !definition.semantics.Service() && Unconditional(operation.emits)
    ensures var ctx := AfterContext(doors, definition, before, operation, args, toState, fields);
            (MaterializeEvents(operation.emits, ctx, before.revision + 1, args, removed) == Ok(group))
            <==> && Shaped(definition, before, group, operation.emits, args, toState,
                           ChangedFields(before.fields, fields), removed)
                 && PayloadsOfStep(operation.emits, ctx.(argumentsSchema := None), group)
  {
    hide ResolveTemplate, ChangedFields;
    var ctx := AfterContext(doors, definition, before, operation, args, toState, fields);
    MaterializedEvents(operation.emits, ctx, before.revision + 1, args, removed, group);
    forall i | 0 <= i < |operation.emits|
      ensures ResolveTemplate(operation.emits[i].payload, ctx.(argumentsSchema := None))
           == ResolveTemplate(operation.emits[i].payload, ctx)
    {
      TemplateIsSchemaBlind(operation.emits[i].payload, ctx, None);
    }
  }

  /** The invariants see one instance from either side. */
  lemma InvariantsEitherWay(doors: Doors, definition: Definition, c: Context, d: Context)
    requires Registered(doors, definition)
    requires c.doors == d.doors && c.definition == d.definition && c.id == d.id
    requires c.newFields == d.newFields && c.toState == d.toState
    ensures CheckInvariants(definition.invariants, c).Ok? <==> CheckInvariants(definition.invariants, d).Ok?
  {
    hide Registered, RuleAccepted, CheckInvariants;
    RegisteredInvariants(doors, definition);
    if CheckInvariants(definition.invariants, c).Ok? {
      InvariantsRefine(doors, definition, definition.invariants, c, d);
    }
    if CheckInvariants(definition.invariants, d).Ok? {
      InvariantsRefine(doors, definition, definition.invariants, d, c);
    }
  }

  /** `name` answers for the whole revision, on recorded arguments its own defaults leave alone. */
  ghost predicate AnswersSettled(doors: Doors, definition: Definition, before: Instance, group: seq<Event>,
                                 name: string)
    requires group != []
  {
    && name in definition.operations
    && Answers(doors, definition, before, group, before.state,
               Installed(before.fields, group[0].removed, group[0].changed), name)
    && FillMembers(definition.operations[name].arguments, group[0].args) == group[0].args
  }

  // --- Forth --------------------------------------------------------------------------------------

  lemma ShapedBelongs(doors: Doors, definition: Definition, before: Instance, name: string, args: Object,
                      toState: string, sets: map<string, Change>, group: seq<Event>, changed: Object)
    requires KernelStep(doors, definition, before, name, args, toState, sets)
    requires Declares(definition.operations[name], before.state, toState) && toState in definition.states
    requires Shaped(definition, before, group, definition.operations[name].emits, args, toState, changed, Dropped(sets))
    ensures AllBelong(definition, before.id, group).Ok?
    ensures forall e | e in group :: EmitsOn(definition, before.state, toState, e.eventType)
  {
    hide Declares, FillMembers, ValidObject, TransitionFrom, CheckPreconditions, Assigned, Dropped, ClearsField;
    var operation := definition.operations[name];
    var ctx := BeforeContext(doors, definition, before, operation, args, toState);
    forall i | 0 <= i < |group|
      ensures Belongs(definition, before.id, group[i]).Ok?
      ensures EmitsOn(definition, before.state, toState, group[i].eventType)
    {
      assert operation.emits[i] in operation.emits;
      assert EmitsType(operation, group[i].eventType);
      forall k | k in group[i].removed
        ensures ClearsOn(definition, before.state, toState, group[i].eventType, k)
      {
        DroppedIsCleared(operation, name, ctx, k);
      }
    }
    AllBelongEach(definition, before.id, group);
  }

  lemma StepWouldHaveProduced(doors: Doors, definition: Definition, before: Instance, name: string, args: Object,
                              toState: string, sets: map<string, Change>, group: seq<Event>)
    requires group != [] && KernelStep(doors, definition, before, name, args, toState, sets)
    requires Declares(definition.operations[name], before.state, toState)
    requires Shaped(definition, before, group, definition.operations[name].emits, args, toState,
                    ChangedFields(before.fields, Apply(before.fields, sets)), Dropped(sets))
    ensures WouldHaveProduced(doors, definition, before, group, before.state, name)
  {
    hide Declares, FillMembers, ValidObject, TransitionFrom, CheckPreconditions, Assigned, Dropped, Apply,
         ChangedFields, TypesOf, TypesCarried;
    var operation := definition.operations[name];
    TypesMatch(operation.emits, group);
    assert operation.emits[0] in operation.emits;
    assert group[0] in group && EmitsType(operation, group[0].eventType);
    assert CandidateContext(doors, definition, before, operation, group[0], before.state)
        == BeforeContext(doors, definition, before, operation, args, toState);
  }

  /** The events of one accepted operation fold into the instance it left. */
  lemma StepFolds(doors: Doors, definition: Definition, before: Instance, name: string, args: Object,
                  toState: string, sets: map<string, Change>, after: Instance, group: seq<Event>)
    requires Registered(doors, definition) && !definition.semantics.Service() && group != []
    requires KernelStep(doors, definition, before, name, args, toState, sets)
    requires KernelConclusion(doors, definition, before, name, args, toState, sets, after, group)
    ensures FoldGroup(doors, definition, before, group, false) == Ok(after)
    ensures group[0].revision == before.revision + 1
    ensures forall e | e in group :: e.revision == before.revision + 1
    ensures AnswersSettled(doors, definition, before, group, name)
  {
    hide Registered, FillMembers, ValidObject, TransitionFrom, CheckPreconditions, CheckInvariants, Assigned,
         Dropped, Apply, ChangedFields, MaterializeEvents, AllBelong, WouldHaveProduced, PayloadsAgree,
         PayloadsOfStep, Declares, EmitsOn;
    var operation := definition.operations[name];
    var fields, removed := Apply(before.fields, sets), Dropped(sets);
    KernelEventsUnconditional(doors, definition, name);
    WritesGroup(doors, definition, before, operation, args, toState, fields, removed, group);
    KernelTransition(doors, definition, operation, name, before.state, toState);
    ShapedBelongs(doors, definition, before, name, args, toState, sets, group, ChangedFields(before.fields, fields));
    DeltaOfChanges(before.fields, sets);
    InvariantsEitherWay(doors, definition,
                        AfterContext(doors, definition, before, operation, args, toState, fields),
                        InvariantContext(doors, definition, group[0], fields));
    StepWouldHaveProduced(doors, definition, before, name, args, toState, sets, group);
    PayloadsAgreeEach(operation.emits, PayloadContext(doors, definition, before, group[0], fields), group);
    assert PayloadContext(doors, definition, before, group[0], fields)
        == AfterContext(doors, definition, before, operation, args, toState, fields).(argumentsSchema := None);
    assert Answers(doors, definition, before, group, before.state, fields, name);
    assert Permits(definition, before.state, toState);
  }

  // --- Back ---------------------------------------------------------------------------------------

  lemma ProducedIsStep(doors: Doors, definition: Definition, before: Instance, group: seq<Event>, name: string)
    returns (sets: map<string, Change>)
    requires Registered(doors, definition) && group != []
    requires before.entity == definition.entity && before.version == definition.version
    requires before.state in definition.states && group[0].id == before.id
    requires WouldHaveProduced(doors, definition, before, group, before.state, name)
    requires FillMembers(definition.operations[name].arguments, group[0].args) == group[0].args
    ensures KernelStep(doors, definition, before, name, group[0].args, group[0].toState, sets)
    ensures ChangedFields(before.fields, Apply(before.fields, sets)) == group[0].changed
    ensures Dropped(sets) == group[0].removed
    ensures |group| == |definition.operations[name].emits|
    ensures forall i | 0 <= i < |group| :: definition.operations[name].emits[i].eventType == group[i].eventType
  {
    hide Registered, Declares, FillMembers, ValidObject, TransitionFrom, CheckPreconditions, Assigned, Dropped,
         Apply, ChangedFields, TypesOf, TypesCarried;
    var operation, first := definition.operations[name], group[0];
    var ctx := CandidateContext(doors, definition, before, operation, first, before.state);
    sets := Assigned(name, operation.assigns, ctx).value;
    TypesMatch(operation.emits, group);
    assert operation.emits[0] in operation.emits;
    assert EmitsType(operation, first.eventType);
    KernelTransition(doors, definition, operation, name, before.state, first.toState);
    assert ctx == BeforeContext(doors, definition, before, operation, first.args, first.toState);
  }

  lemma BelongsShaped(definition: Definition, before: Instance, group: seq<Event>, templates: seq<EventTemplate>)
    requires group != [] && |group| == |templates|
    requires AllBelong(definition, before.id, group).Ok? && OneDecision(group)
    requires forall e | e in group :: e.revision == before.revision + 1
    requires group[0].fromState == Some(before.state)
    requires forall i | 0 <= i < |group| :: templates[i].eventType == group[i].eventType
    ensures Shaped(definition, before, group, templates, group[0].args, group[0].toState, group[0].changed,
                   group[0].removed)
  {
    AllBelongEach(definition, before.id, group);
    forall i | 0 <= i < |group|
      ensures group[i] == Event(definition.entity, definition.version, before.id, before.revision + 1,
                                templates[i].eventType, Some(before.state), group[0].toState, group[0].changed,
                                group[0].removed, group[0].args, group[i].payload)
    {
      hide AllBelong, ClearsOn;
      assert group[i] in group;
      assert Belongs(definition, before.id, group[i]).Ok?;
    }
  }

  /** A revision the fold accepts is what each operation answering for it, on arguments its defaults
      leave alone, writes. */
  lemma FoldedIsStep(doors: Doors, definition: Definition, before: Instance, group: seq<Event>, after: Instance,
                     name: string)
    returns (sets: map<string, Change>)
    requires Registered(doors, definition) && !definition.semantics.Service() && group != []
    requires before.entity == definition.entity && before.version == definition.version
    requires before.state in definition.states
    requires forall e | e in group :: e.revision == group[0].revision
    requires FoldGroup(doors, definition, before, group, false) == Ok(after)
    requires AnswersSettled(doors, definition, before, group, name)
    ensures KernelStep(doors, definition, before, name, group[0].args, group[0].toState, sets)
    ensures KernelConclusion(doors, definition, before, name, group[0].args, group[0].toState, sets, after, group)
    ensures after.state in definition.states
  {
    hide Registered, FillMembers, ValidObject, TransitionFrom, CheckPreconditions, CheckInvariants, Assigned,
         Dropped, Apply, ChangedFields, MaterializeEvents, AllBelong, WouldHaveProduced, PayloadsAgree,
         PayloadsOfStep, Declares, EmitsOn, KernelStep;
    var first := group[0];
    var fields := Installed(before.fields, first.removed, first.changed);
    var operation := definition.operations[name];
    FirstBelongs(definition, before, group);
    sets := ProducedIsStep(doors, definition, before, group, name);
    DeltaOfChanges(before.fields, sets);
    KernelEventsUnconditional(doors, definition, name);
    BelongsShaped(definition, before, group, operation.emits);
    var ctx := AfterContext(doors, definition, before, operation, first.args, first.toState, fields);
    InvariantsEitherWay(doors, definition, ctx, InvariantContext(doors, definition, first, fields));
    assert PayloadContext(doors, definition, before, first, fields) == ctx.(argumentsSchema := None);
    PayloadsAgreeEach(operation.emits, ctx.(argumentsSchema := None), group);
    WritesGroup(doors, definition, before, operation, first.args, first.toState, fields, first.removed, group);
  }

  lemma FirstBelongs(definition: Definition, before: Instance, group: seq<Event>)
    requires group != [] && AllBelong(definition, before.id, group).Ok?
    ensures group[0].id == before.id && group[0].toState in definition.states
    ensures group[0].entity == definition.entity && group[0].version == definition.version
  {
    hide ClearsOn;
  }
}
