/** The fold over bare events against whole runs: complete, sound, and exact on settled histories. */
module Histories {
  import opened Prelude
  import opened Definition
  import opened Reading
  import opened Evaluator
  import opened Scopes
  import opened Values
  import opened Runtime
  import opened Registration
  import opened Replay
  import opened Traces
  import opened Drafts
  import opened Safety
  import opened Folding
  import opened FoldSteps

  /** Every event of a list of decisions, in order. */
  function EventsOf(ds: seq<Decision>): seq<Event> {
    if ds == [] then [] else ds[0].events + EventsOf(ds[1..])
  }

  predicate Emitting(ds: seq<Decision>) {
    forall d | d in ds :: d.events != []
  }

  // --- Groups -------------------------------------------------------------------------------------

  lemma {:induction false} GroupOf(group: seq<Event>, rest: seq<Event>, revision: nat)
    requires forall e | e in group :: e.revision == revision
    requires rest != [] ==> rest[0].revision != revision
    ensures GroupSize(group + rest, revision) == |group|
  {
    if group == [] {
      assert group + rest == rest;
    } else {
      assert (group + rest)[1..] == group[1..] + rest;
      GroupOf(group[1..], rest, revision);
    }
  }

  lemma {:induction false} GroupShares(events: seq<Event>, revision: nat)
    ensures forall e | e in events[..GroupSize(events, revision)] :: e.revision == revision
  {
    if events != [] && events[0].revision == revision {
      GroupShares(events[1..], revision);
      assert events[..GroupSize(events, revision)] == [events[0]] + events[1..][..GroupSize(events[1..], revision)];
    }
  }

  /** Folding one group and then the rest. */
  lemma FoldCut(doors: Doors, definition: Definition, before: Instance, group: seq<Event>, rest: seq<Event>,
                genesis: bool, next: Instance)
    requires group != [] && (forall e | e in group :: e.revision == group[0].revision)
    requires rest != [] ==> rest[0].revision != group[0].revision
    requires FoldGroup(doors, definition, before, group, genesis) == Ok(next)
    ensures FoldEvents(doors, definition, before, group + rest, genesis) == FoldEvents(doors, definition, next, rest, false)
  {
    hide FoldGroup, GroupSize;
    var events := group + rest;
    assert events[0] == group[0];
    GroupOf(group, rest, group[0].revision);
    assert events[..|group|] == group && events[|group|..] == rest;
  }

  // --- Creation -----------------------------------------------------------------------------------

  function BirthTemplates(definition: Definition): seq<EventTemplate> {
    if definition.create.emit.Some? then [definition.create.emit.value] else []
  }

  /** What a `kernel/1` creation went through. */
  ghost predicate KernelBirth(doors: Doors, definition: Definition, id: string, fields: Object, after: Instance,
                              events: seq<Event>)
  {
    var ctx := CreateContext(doors, definition, Some(id), map[], None, fields);
    && !Blank(id) && FillMembers(definition.schema, fields) == fields
    && ValidObject(doors, definition.schema, fields, false)
    && CheckInvariants(definition.invariants, ctx).Ok?
    && MaterializeEvents(BirthTemplates(definition), ctx, 1, fields, {}) == Ok(events)
    && after == Born(definition, id, fields)
  }

  lemma BirthTrace(doors: Doors, definition: Definition, id: string, input: Json, d: Decision)
    returns (fields: Object)
    requires !definition.semantics.Service()
    requires DecideCreate(doors, definition, id, input, true) == Ok(Accepted(d))
    ensures KernelBirth(doors, definition, id, fields, d.instance, d.events)
  {
    hide CheckIdentity, CheckInvariants, MaterializeEvents, ValidObject, FillMembers, ServiceCreate;
    fields := Normalize(doors, definition.schema, input, false).value;
    FillIdempotent(definition.schema, input.members);
  }

  lemma BirthDecides(doors: Doors, definition: Definition, id: string, fields: Object, after: Instance,
                     events: seq<Event>)
    returns (d: Decision)
    requires !definition.semantics.Service() && definition.identity.None?
    requires KernelBirth(doors, definition, id, fields, after, events)
    ensures DecideCreate(doors, definition, id, Obj(fields), true) == Ok(Accepted(d))
    ensures d.instance == after && d.events == events
  {
    hide CheckInvariants, MaterializeEvents, ValidObject, FillMembers, ServiceCreate;
    d := Birth(definition, after, map[], events, None, None, None);
  }

  lemma KernelCreation(doors: Doors, definition: Definition)
    requires Registered(doors, definition) && !definition.semantics.Service()
    ensures definition.identity.None? && Unconditional(BirthTemplates(definition))
    ensures definition.initial in definition.states
  {
    hide Registered, OperandAccepted, PresentArgument, CreateOutcome, OutcomesSound, SchemaDeclared;
    RegisteredInvariants(doors, definition);
  }

  /** Only a supplied identity begins a `kernel/1` run. */
  lemma KernelBegins(doors: Doors, definition: Definition, d: Decision) returns (id: string, input: Json)
    requires Registered(doors, definition) && !definition.semantics.Service() && Begun(doors, definition, d)
    ensures DecideCreate(doors, definition, id, input, true) == Ok(Accepted(d))
  {
    hide Registered, DecideCreate, ServiceCreate, Normalize;
    KernelCreation(doors, definition);
    id, input :| DecideCreate(doors, definition, id, input, true) == Ok(Accepted(d));
  }

  lemma ChangedFromNothing(fields: Object)
    ensures ChangedFields(map[], fields) == fields
    ensures Installed(map[], {}, fields) == fields
  {
  }

  /** The one event of a creation. */
  lemma BirthEvent(doors: Doors, definition: Definition, id: string, fields: Object, group: seq<Event>)
    requires Unconditional(BirthTemplates(definition)) && definition.create.emit.Some?
    ensures var ctx := CreateContext(doors, definition, Some(id), map[], None, fields);
            var template := definition.create.emit.value;
            (MaterializeEvents(BirthTemplates(definition), ctx, 1, fields, {}) == Ok(group))
            <==> && |group| == 1
                 && ResolveTemplate(template.payload, ctx) == Ok(group[0].payload)
                 && group[0] == Event(definition.entity, definition.version, id, 1, template.eventType, None,
                                      definition.initial, fields, {}, fields, group[0].payload)
  {
    hide ResolveTemplate, ChangedFields;
    var ctx := CreateContext(doors, definition, Some(id), map[], None, fields);
    ChangedFromNothing(fields);
    MaterializedEvents(BirthTemplates(definition), ctx, 1, fields, {}, group);
  }

  /** A creation's event folds into the instance it left. */
  lemma BirthFolds(doors: Doors, definition: Definition, id: string, fields: Object, after: Instance,
                   group: seq<Event>)
    requires Registered(doors, definition) && !definition.semantics.Service() && group != []
    requires KernelBirth(doors, definition, id, fields, after, group)
    ensures FoldGroup(doors, definition, Unborn(definition, id), group, true) == Ok(after)
    ensures group[0].fromState.None? && group[0].id == id
    ensures forall e | e in group :: e.revision == 1
  {
    hide Registered, FillMembers, ValidObject, CheckInvariants, MaterializeEvents, ResolveTemplate, AllBelong,
         ChangedFields, Unconditional;
    KernelCreation(doors, definition);
    var ctx := CreateContext(doors, definition, Some(id), map[], None, fields);
    if definition.create.emit.None? {
      NoEvents(ctx, fields);
    }
    BirthEvent(doors, definition, id, fields, group);
    ChangedFromNothing(fields);
    BirthBelongs(definition, id, group);
    assert InvariantContext(doors, definition, group[0], fields) == ctx;
    assert PayloadContext(doors, definition, Unborn(definition, id), group[0], fields) == ctx;
    assert PayloadsAgree([definition.create.emit.value], ctx, group);
  }

  lemma NoEvents(ctx: Context, fields: Object)
    ensures MaterializeEvents([], ctx, 1, fields, {}) == Ok([])
  {
  }

  lemma BirthBelongs(definition: Definition, id: string, group: seq<Event>)
    requires |group| == 1 && definition.initial in definition.states
    requires group[0].entity == definition.entity && group[0].version == definition.version && group[0].id == id
    requires group[0].toState == definition.initial && group[0].removed == {}
    ensures AllBelong(definition, id, group).Ok?
  {
    AllBelongEach(definition, id, group);
  }

  lemma BelongsToNothing(definition: Definition, id: string, group: seq<Event>)
    requires group != [] && AllBelong(definition, id, group).Ok? && group[0].fromState.None?
    ensures group[0].removed == {}
    ensures group[0].entity == definition.entity && group[0].version == definition.version && group[0].id == id
  {
    hide ClearsOn;
    assert Belongs(definition, id, group[0]).Ok?;
  }

  /** A first revision the fold accepts is what some creation writes. */
  lemma FoldedIsBirth(doors: Doors, definition: Definition, group: seq<Event>, after: Instance)
    requires Registered(doors, definition) && !definition.semantics.Service() && group != []
    requires !Blank(group[0].id) && group[0].fromState.None?
    requires FillMembers(definition.schema, group[0].args) == group[0].args
    requires FoldGroup(doors, definition, Unborn(definition, group[0].id), group, true) == Ok(after)
    ensures KernelBirth(doors, definition, group[0].id, group[0].args, after, group)
  {
    hide Registered, FillMembers, ValidObject, CheckInvariants, MaterializeEvents, ResolveTemplate, AllBelong,
         ChangedFields, Unconditional;
    var id, fields := group[0].id, group[0].args;
    KernelCreation(doors, definition);
    BelongsToNothing(definition, id, group);
    ChangedFromNothing(fields);
    var ctx := CreateContext(doors, definition, Some(id), map[], None, fields);
    assert InvariantContext(doors, definition, group[0], fields) == ctx;
    assert PayloadContext(doors, definition, Unborn(definition, id), group[0], fields) == ctx;
    BirthEvent(doors, definition, id, fields, group);
  }

  // --- What the fold does not ask -----------------------------------------------------------------

  /** Some operation that answers for the revision leaves its recorded arguments alone when it fills
      defaults. */
  ghost predicate RevisionSettled(doors: Doors, definition: Definition, before: Instance, group: seq<Event>)
    requires group != []
  {
    exists name | name in definition.operations :: AnswersSettled(doors, definition, before, group, name)
  }

  /** Every revision from here on is settled, each against the instance folded so far. */
  ghost predicate SettledFrom(doors: Doors, definition: Definition, before: Instance, events: seq<Event>)
    decreases |events|
  {
    events != [] ==>
      var n := GroupSize(events, events[0].revision);
      var next := FoldGroup(doors, definition, before, events[..n], false);
      && RevisionSettled(doors, definition, before, events[..n])
      && (next.Ok? ==> SettledFrom(doors, definition, next.value, events[n..]))
  }

  /** What the fold does not ask again: a readable identity, creation fields that carry their defaults,
      and at every revision arguments that carry theirs. */
  ghost predicate Settled(doors: Doors, definition: Definition, events: seq<Event>) {
    events != [] ==>
      var n := GroupSize(events, events[0].revision);
      var next := FoldGroup(doors, definition, Unborn(definition, events[0].id), events[..n], true);
      && !Blank(events[0].id) && FillMembers(definition.schema, events[0].args) == events[0].args
      && (next.Ok? ==> SettledFrom(doors, definition, next.value, events[n..]))
  }

  // --- Completeness -------------------------------------------------------------------------------

  lemma FollowsFolds(doors: Doors, definition: Definition, before: Instance, d: Decision)
    requires Registered(doors, definition) && !definition.semantics.Service()
    requires Follows(doors, definition, before, d) && d.events != []
    ensures FoldGroup(doors, definition, before, d.events, false) == Ok(d.instance)
    ensures forall e | e in d.events :: e.revision == before.revision + 1
    ensures d.instance.revision == before.revision + 1
    ensures RevisionSettled(doors, definition, before, d.events)
  {
    hide Registered, Decide, KernelStep, FoldGroup, CheckInvariants, ValidObject, MaterializeEvents, Assigned,
         AnswersSettled;
    var name, input, f :| Decide(doors, definition, before, name, input, f, true) == Ok(Accepted(d));
    var args, toState, sets := KernelDecides(doors, definition, before, name, input, f, d);
    StepFolds(doors, definition, before, name, args, toState, sets, d.instance, d.events);
    StepNames(doors, definition, before, name, args, toState, sets);
  }

  lemma StepNames(doors: Doors, definition: Definition, before: Instance, name: string, args: Object,
                  toState: string, sets: map<string, Change>)
    requires KernelStep(doors, definition, before, name, args, toState, sets)
    ensures name in definition.operations
  {
    hide FillMembers, ValidObject, CheckPreconditions, Assigned;
  }

  lemma {:induction false} ContinuesFold(doors: Doors, definition: Definition, before: Instance, ds: seq<Decision>)
    requires Registered(doors, definition) && !definition.semantics.Service()
    requires Continues(doors, definition, before, ds) && Emitting(ds)
    ensures FoldEvents(doors, definition, before, EventsOf(ds), false) == Ok(LastInstance(before, ds))
    ensures EventsOf(ds) != [] ==> EventsOf(ds)[0].revision == before.revision + 1
    ensures SettledFrom(doors, definition, before, EventsOf(ds))
    decreases |ds|
  {
    hide Registered, Follows, FoldGroup, GroupSize, RevisionSettled;
    if ds != [] {
      var d, rest := ds[0], EventsOf(ds[1..]);
      FollowsFolds(doors, definition, before, d);
      ContinuesFold(doors, definition, d.instance, ds[1..]);
      assert d.events[0] in d.events;
      FoldCut(doors, definition, before, d.events, rest, false, d.instance);
      GroupOf(d.events, rest, d.events[0].revision);
      assert (d.events + rest)[..|d.events|] == d.events && (d.events + rest)[|d.events|..] == rest;
    }
  }

  /** For every `kernel/1` run whose decisions all emit, the fold over its events rebuilds its last
      instance. */
  lemma FoldComplete(doors: Doors, definition: Definition, ds: seq<Decision>)
    requires Registered(doors, definition) && !definition.semantics.Service()
    requires IsRun(doors, definition, ds) && Emitting(ds)
    ensures Rehydrated(doors, definition, EventsOf(ds)) == Ok(LastInstance(ds[0].instance, ds[1..]))
    ensures Settled(doors, definition, EventsOf(ds))
  {
    hide Registered, DecideCreate, Begun, Continues, FoldGroup, GroupSize, KernelBirth, FoldEvents, SettledFrom,
         FillMembers;
    var d, rest := ds[0], EventsOf(ds[1..]);
    var id, input := KernelBegins(doors, definition, d);
    var fields := BirthTrace(doors, definition, id, input, d);
    BirthFolds(doors, definition, id, fields, d.instance, d.events);
    BirthRevision(doors, definition, id, fields, d.instance, d.events);
    ContinuesFold(doors, definition, d.instance, ds[1..]);
    assert d.events[0] in d.events;
    FoldCut(doors, definition, Unborn(definition, id), d.events, rest, true, d.instance);
    GroupOf(d.events, rest, d.events[0].revision);
    assert (d.events + rest)[..|d.events|] == d.events && (d.events + rest)[|d.events|..] == rest;
    BirthArguments(doors, definition, id, fields, d.instance, d.events);
  }

  /** A creation's event carries its filled fields, under a readable identity. */
  lemma BirthArguments(doors: Doors, definition: Definition, id: string, fields: Object, after: Instance,
                       group: seq<Event>)
    requires Registered(doors, definition) && !definition.semantics.Service() && group != []
    requires KernelBirth(doors, definition, id, fields, after, group)
    ensures group[0].args == fields && FillMembers(definition.schema, fields) == fields && !Blank(id)
  {
    hide Registered, ValidObject, CheckInvariants, FillMembers, MaterializeEvents, Unconditional;
    KernelCreation(doors, definition);
    if definition.create.emit.None? {
      NoEvents(CreateContext(doors, definition, Some(id), map[], None, fields), fields);
    }
    BirthEvent(doors, definition, id, fields, group);
  }

  lemma BirthRevision(doors: Doors, definition: Definition, id: string, fields: Object, after: Instance,
                      events: seq<Event>)
    requires KernelBirth(doors, definition, id, fields, after, events)
    ensures after.revision == 1 && after.entity == definition.entity && after.version == definition.version
    ensures after.state == definition.initial
  {
    hide CheckInvariants, MaterializeEvents, ValidObject, FillMembers;
  }

  // --- Soundness ----------------------------------------------------------------------------------

  lemma StepFollows(doors: Doors, definition: Definition, before: Instance, group: seq<Event>, after: Instance)
    returns (d: Decision)
    requires Registered(doors, definition) && !definition.semantics.Service() && group != []
    requires before.entity == definition.entity && before.version == definition.version
    requires before.state in definition.states
    requires forall e | e in group :: e.revision == group[0].revision
    requires FoldGroup(doors, definition, before, group, false) == Ok(after)
    requires RevisionSettled(doors, definition, before, group)
    ensures Follows(doors, definition, before, d) && d.instance == after && d.events == group
    ensures after.state in definition.states && after.entity == before.entity && after.version == before.version
  {
    hide Registered, Decide, KernelStep, FoldGroup, CheckInvariants, ValidObject, MaterializeEvents, Assigned,
         AnswersSettled;
    var name :| name in definition.operations && AnswersSettled(doors, definition, before, group, name);
    var sets := FoldedIsStep(doors, definition, before, group, after, name);
    d := KernelAccepts(doors, definition, before, name, group[0].args, group[0].toState, sets, after, group);
  }

  lemma {:induction false} FoldedContinues(doors: Doors, definition: Definition, before: Instance,
                                           events: seq<Event>, after: Instance)
    returns (ds: seq<Decision>)
    requires Registered(doors, definition) && !definition.semantics.Service()
    requires before.entity == definition.entity && before.version == definition.version
    requires before.state in definition.states
    requires FoldEvents(doors, definition, before, events, false) == Ok(after)
    requires SettledFrom(doors, definition, before, events)
    ensures Continues(doors, definition, before, ds) && Emitting(ds)
    ensures EventsOf(ds) == events && LastInstance(before, ds) == after
    decreases |events|
  {
    hide Registered, Follows, FoldGroup, GroupSize, RevisionSettled;
    if events == [] {
      ds := [];
    } else {
      var n := GroupSize(events, events[0].revision);
      var group, rest := events[..n], events[n..];
      GroupShares(events, events[0].revision);
      assert group[0] == events[0];
      var next := FoldGroup(doors, definition, before, group, false).value;
      var d := StepFollows(doors, definition, before, group, next);
      var tail := FoldedContinues(doors, definition, next, rest, after);
      ds := [d] + tail;
      assert ds[1..] == tail && group + rest == events;
    }
  }

  /** Whatever settled history the fold accepts, some run of one creation and event-emitting operations
      writes exactly those events and ends in exactly that instance. */
  lemma FoldSound(doors: Doors, definition: Definition, events: seq<Event>, after: Instance)
    returns (ds: seq<Decision>)
    requires Registered(doors, definition) && Settled(doors, definition, events)
    requires Rehydrated(doors, definition, events) == Ok(after)
    ensures IsRun(doors, definition, ds) && Emitting(ds)
    ensures EventsOf(ds) == events && LastInstance(ds[0].instance, ds[1..]) == after
  {
    hide Registered, DecideCreate, Continues, FoldGroup, GroupSize, KernelBirth, SettledFrom, FillMembers;
    var id := events[0].id;
    var n := GroupSize(events, events[0].revision);
    var group, rest := events[..n], events[n..];
    assert group[0] == events[0];
    var next := FoldGroup(doors, definition, Unborn(definition, id), group, true).value;
    FoldedIsBirth(doors, definition, group, next);
    BirthRevision(doors, definition, id, group[0].args, next, group);
    KernelCreation(doors, definition);
    var d := BirthDecides(doors, definition, id, group[0].args, next, group);
    var tail := FoldedContinues(doors, definition, next, rest, after);
    ds := [d] + tail;
    assert ds[1..] == tail && group + rest == events;
  }

  /** Some run of emitting decisions wrote exactly these events and ended here. */
  ghost predicate WrittenBy(doors: Doors, definition: Definition, events: seq<Event>, after: Instance) {
    exists ds: seq<Decision> :: IsRun(doors, definition, ds) && Emitting(ds) && EventsOf(ds) == events
                 && LastInstance(ds[0].instance, ds[1..]) == after
  }

  /** For every history of a registered `kernel/1` definition: some run of the kernel writes it and ends
      here if and only if the fold accepts it, rebuilds this instance, and it is settled. */
  lemma FoldAcceptsExactly(doors: Doors, definition: Definition, events: seq<Event>, after: Instance)
    requires Registered(doors, definition) && !definition.semantics.Service()
    ensures WrittenBy(doors, definition, events, after)
       <==> Rehydrated(doors, definition, events) == Ok(after) && Settled(doors, definition, events)
  {
    hide Registered, Begun, Continues, Rehydrated, Settled, EventsOf;
    if Rehydrated(doors, definition, events) == Ok(after) && Settled(doors, definition, events) {
      var ds := FoldSound(doors, definition, events, after);
    }
    if WrittenBy(doors, definition, events, after) {
      var ds: seq<Decision> :| IsRun(doors, definition, ds) && Emitting(ds) && EventsOf(ds) == events
                && LastInstance(ds[0].instance, ds[1..]) == after;
      FoldComplete(doors, definition, ds);
    }
  }
}
