/** Two independent readers of a history: one recomputes decision records, one folds bare events. */
module Replay {
  import opened Prelude
  import opened Keys
  import opened Definition
  import opened Reading
  import opened Evaluator
  import opened Values
  import opened Runtime
  import opened Registration

  // --- Records ------------------------------------------------------------------------------------

  function IntoDecision(evaluation: Evaluation): Result<Decision, CoreError> {
    match evaluation
    case Accepted(decision) => Ok(decision)
    case Declined(outcome, error) => Err(Refused(outcome, error))
  }

  /** The decision a recorded command recomputes to. */
  function Recomputed(doors: Doors, definition: Definition, before: Option<Instance>, record: Record)
    : Result<Decision, CoreError>
  {
    match record.command
    case CreateCommand(fields, arguments) =>
      if before.Some? then Err(Validation)
      else
        var input := if definition.semantics.Service() then arguments else fields;
        var evaluation :- DecideCreate(doors, definition, record.id, Obj(input), false);
        IntoDecision(evaluation)
    case ExecuteCommand(operation, arguments, fulfillments) =>
      if before.None? then Err(Validation)
      else
        var preload :- DecideBeforeLoad(doors, definition, record.id, operation, Obj(arguments), false);
        RecomputedOperation(doors, definition, before.value, preload, fulfillments)
    case LegacyImport => Err(Validation)
  }

  function RecomputedOperation(doors: Doors, definition: Definition, before: Instance, preload: Preload,
                               fulfillments: map<string, Action>): Result<Decision, CoreError>
  {
    match preload
    case Early(outcome, error) => Err(Refused(outcome, error))
    case Load(prepared) =>
      var loaded :- SelectWith(doors, definition, prepared, before);
      var evaluation :- if loaded.Complete? then Ok(loaded.evaluation)
                        else CompleteWith(doors, definition, prepared, before, fulfillments);
      IntoDecision(evaluation)
  }

  /** One record, recomputed and compared whole. */
  function ReplayRecord(doors: Doors, before: Option<Instance>, record: Record): Result<Instance, CoreError> {
    if record.definition.None? || !Registered(doors, record.definition.value) then Err(Validation)
    else
      var decision :- Recomputed(doors, record.definition.value, before, record);
      var _ :- Check(decision.record == record, Validation);
      Ok(decision.instance)
  }

  function ReplayFrom(doors: Doors, before: Option<Instance>, records: seq<Record>): Result<Instance, CoreError>
    decreases |records|
  {
    if records == [] then (if before.Some? then Ok(before.value) else Err(Validation))
    else
      var next :- ReplayRecord(doors, before, records[0]);
      ReplayFrom(doors, Some(next), records[1..])
  }

  method ReplayRecords(doors: Doors, records: seq<Record>) returns (r: Result<Instance, CoreError>)
    ensures r == ReplayFrom(doors, None, records)
  {
    hide ReplayRecord;
    var instance: Option<Instance> := None;
    for i := 0 to |records|
      invariant ReplayFrom(doors, None, records) == ReplayFrom(doors, instance, records[i..])
    {
      var next := ReplayRecord(doors, instance, records[i]);
      assert records[i..][0] == records[i] && records[i..][1..] == records[i + 1..];
      if next.Err? {
        return next;
      }
      instance := Some(next.value);
    }
    assert records[|records|..] == [];
    r := if instance.Some? then Ok(instance.value) else Err(Validation);
  }

  // --- Who could have written an event ------------------------------------------------------------

  predicate Declares(operation: Operation, from: string, to: string) {
    exists t | t in operation.transitions :: from in t.from && t.to == to
  }

  predicate EmitsType(operation: Operation, eventType: string) {
    exists e | e in operation.emits :: e.eventType == eventType
  }

  predicate Permits(definition: Definition, from: string, to: string) {
    exists n | n in definition.operations :: Declares(definition.operations[n], from, to)
  }

  /** Both halves of one operation: it declares the transition and emits the type. */
  predicate EmitsOn(definition: Definition, from: string, to: string, eventType: string) {
    exists n | n in definition.operations ::
      Declares(definition.operations[n], from, to) && EmitsType(definition.operations[n], eventType)
  }

  predicate ClearsField(operation: Operation, field: string) {
    field in operation.assigns && AssignmentOf(operation.assigns[field]).Cleared?
  }

  predicate ClearsOn(definition: Definition, from: string, to: string, eventType: string, field: string) {
    exists n | n in definition.operations ::
      && Declares(definition.operations[n], from, to) && EmitsType(definition.operations[n], eventType)
      && ClearsField(definition.operations[n], field)
  }

  function TypesOf(emits: seq<EventTemplate>): seq<string> {
    if emits == [] then [] else [emits[0].eventType] + TypesOf(emits[1..])
  }

  function TypesCarried(group: seq<Event>): seq<string> {
    if group == [] then [] else [group[0].eventType] + TypesCarried(group[1..])
  }

  function CandidateContext(doors: Doors, definition: Definition, before: Instance, operation: Operation,
                            event: Event, from: string): Context
  {
    Context(doors, definition, Some(event.id), event.args, Some(operation.arguments),
            before.fields, before.fields, Some(from), event.toState)
  }

  /** One operation answers for a whole revision: its transition, every event it emits in order, its
      arguments, its preconditions, and exactly the fields its `set` writes and clears. */
  predicate WouldHaveProduced(doors: Doors, definition: Definition, before: Instance, group: seq<Event>,
                              from: string, name: string)
    requires group != []
  {
    && name in definition.operations
    && var operation, first := definition.operations[name], group[0];
    && Declares(operation, from, first.toState)
    && (exists e | e in group :: EmitsType(operation, e.eventType))
    && TypesOf(operation.emits) == TypesCarried(group)
    && ValidObject(doors, operation.arguments, first.args, false)
    && var ctx := CandidateContext(doors, definition, before, operation, first, from);
    && CheckPreconditions(name, operation.preconditions, ctx).Ok?
    && var sets := Assigned(name, operation.assigns, ctx);
    && sets.Ok?
    && ChangedFields(before.fields, Apply(before.fields, sets.value)) == first.changed
    && Dropped(sets.value) == first.removed
  }

  /** Every operation that could have produced this revision. */
  method OperationsThatWouldHaveProduced(doors: Doors, definition: Definition, before: Instance,
                                         group: seq<Event>, from: string) returns (candidates: seq<string>)
    requires group != []
    ensures forall n :: n in candidates <==> WouldHaveProduced(doors, definition, before, group, from, n)
  {
    hide WouldHaveProduced;
    candidates := [];
    var names := SortedKeys(definition.operations.Keys);
    for i := 0 to |names|
      invariant forall n :: n in candidates
                       <==> n in names[..i] && WouldHaveProduced(doors, definition, before, group, from, n)
    {
      assert names[..i + 1] == names[..i] + [names[i]];
      if WouldHaveProduced(doors, definition, before, group, from, names[i]) {
        candidates := candidates + [names[i]];
      }
    }
    assert names[..|names|] == names;
    CandidatesAreOperations(doors, definition, before, group, from);
  }

  lemma CandidatesAreOperations(doors: Doors, definition: Definition, before: Instance, group: seq<Event>,
                                from: string)
    requires group != []
    ensures forall n :: WouldHaveProduced(doors, definition, before, group, from, n) ==> n in definition.operations
  {
    hide Assigned, CheckPreconditions, ValidObject;
  }

  // --- Folding events -----------------------------------------------------------------------------

  /** The fields once an event's removals and writes are installed. */
  function Installed(fields: Object, removed: set<string>, changed: Object): Object {
    (fields - removed) + changed
  }

  /** The two loops that install them in one map. */
  method ApplyEventChanges(fields: Object, removed: set<string>, changed: Object) returns (r: Object)
    ensures r == Installed(fields, removed, changed)
  {
    hide SortedKeys;
    var names := SortedKeys(removed);
    r := RemoveAll(fields, names);
    assert (set k | k in names) == removed;
    r := InsertAll(r, SortedKeys(changed.Keys), changed);
  }

  method RemoveAll(fields: Object, names: seq<string>) returns (r: Object)
    ensures r == fields - set k | k in names
  {
    r := fields;
    for i := 0 to |names|
      invariant r == fields - set k | k in names[..i]
    {
      assert names[..i + 1] == names[..i] + [names[i]];
      r := r - {names[i]};
    }
    assert names[..|names|] == names;
  }

  method InsertAll(fields: Object, names: seq<string>, changed: Object) returns (r: Object)
    requires forall k :: k in names <==> k in changed.Keys
    ensures r == fields + changed
  {
    r := fields;
    for i := 0 to |names|
      invariant r == fields + map k | k in changed && k in names[..i] :: changed[k]
    {
      assert names[i] in names;
      assert names[..i + 1] == names[..i] + [names[i]];
      r := r[names[i] := changed[names[i]]];
    }
    assert names[..|names|] == names;
  }

  /** What each event is held to on its own. */
  function Belongs(definition: Definition, id: string, event: Event): Result<bool, CoreError> {
    if event.entity != definition.entity || event.version != definition.version then Err(EntityMismatch)
    else if event.id != id then Err(Validation)
    else if event.toState !in definition.states then Err(UnknownState(event.toState))
    else
      Check(forall k | k in event.removed ::
              event.fromState.Some?
              && ClearsOn(definition, event.fromState.value, event.toState, event.eventType, k),
            Validation)
  }

  function AllBelong(definition: Definition, id: string, group: seq<Event>): Result<bool, CoreError> {
    if group == [] then Ok(true) else
      var _ :- Belongs(definition, id, group[0]);
      AllBelong(definition, id, group[1..])
  }

  /** Every event of a revision came out of one call: one transition, one set of arguments, one set of
      fields. */
  predicate OneDecision(group: seq<Event>)
    requires group != []
  {
    forall e | e in group ::
      && e.fromState == group[0].fromState && e.toState == group[0].toState && e.args == group[0].args
      && e.changed == group[0].changed && e.removed == group[0].removed
  }

  predicate PayloadsAgree(templates: seq<EventTemplate>, ctx: Context, group: seq<Event>) {
    templates != [] && group != [] ==>
      && ResolveTemplate(templates[0].payload, ctx) == Ok(group[0].payload)
      && PayloadsAgree(templates[1..], ctx, group[1..])
  }

  /** What a payload of this revision resolves against. */
  function PayloadContext(doors: Doors, definition: Definition, before: Instance, event: Event, fields: Object)
    : Context
  {
    if event.fromState.None?
    then Context(doors, definition, Some(event.id), map[], None, map[], fields, None, event.toState)
    else Context(doors, definition, Some(event.id), event.args, None, before.fields, fields,
                 event.fromState, event.toState)
  }

  function InvariantContext(doors: Doors, definition: Definition, event: Event, fields: Object): Context {
    Context(doors, definition, Some(event.id), map[], None, map[], fields, event.fromState, event.toState)
  }

  /** Whether the group is a creation `create` could have written. */
  predicate CreationGroup(definition: Definition, group: seq<Event>)
    requires group != []
  {
    && group[0].toState == definition.initial
    && definition.create.emit.Some? && group[0].eventType == definition.create.emit.value.eventType
    && |group| == 1
    && group[0].changed == group[0].args
  }

  /** Whether `name` answers for the whole group, payloads included. */
  predicate Answers(doors: Doors, definition: Definition, before: Instance, group: seq<Event>, from: string,
                    fields: Object, name: string)
    requires group != []
  {
    && WouldHaveProduced(doors, definition, before, group, from, name)
    && PayloadsAgree(definition.operations[name].emits,
                     PayloadContext(doors, definition, before, group[0], fields), group)
  }

  /** Whether some writer answers for the group: `create` for the first, an operation for the others. */
  predicate Answered(doors: Doors, definition: Definition, before: Instance, group: seq<Event>, genesis: bool,
                     fields: Object)
    requires group != []
  {
    match group[0].fromState
    case None =>
      && genesis && CreationGroup(definition, group)
      && PayloadsAgree([definition.create.emit.value],
                       PayloadContext(doors, definition, before, group[0], fields), group)
    case Some(from) =>
      && from == before.state
      && Permits(definition, from, group[0].toState)
      && (forall e | e in group :: EmitsOn(definition, from, e.toState, e.eventType))
      && exists name | name in definition.operations ::
           Answers(doors, definition, before, group, from, fields, name)
  }

  /** One revision folded into the instance before it. */
  function FoldGroup(doors: Doors, definition: Definition, before: Instance, group: seq<Event>, genesis: bool)
    : Result<Instance, CoreError>
    requires group != []
  {
    var first := group[0];
    var _ :- AllBelong(definition, before.id, group);
    var _ :- Check(before.revision + 1 <= I64_MAX, RevisionExhausted);
    var fields := Installed(before.fields, first.removed, first.changed);
    var _ :- Check(
      && first.revision == before.revision + 1
      && OneDecision(group)
      && first.removed !! first.changed.Keys
      && ValidObject(doors, definition.schema, fields, false)
      && CheckInvariants(definition.invariants, InvariantContext(doors, definition, first, fields)).Ok?
      && Answered(doors, definition, before, group, genesis, fields),
      Validation);
    Ok(before.(state := first.toState, revision := first.revision, fields := fields))
  }

  // --- One revision in place ----------------------------------------------------------------------

  /** Event by event, stopping at the first that does not belong. */
  method CheckEvents(definition: Definition, id: string, group: seq<Event>) returns (r: Result<bool, CoreError>)
    ensures r == AllBelong(definition, id, group)
  {
    hide Belongs;
    assert group[0..] == group;
    for i := 0 to |group|
      invariant AllBelong(definition, id, group) == AllBelong(definition, id, group[i..])
    {
      assert group[i..][0] == group[i] && group[i..][1..] == group[i + 1..];
      var belongs := Belongs(definition, id, group[i]);
      if belongs.Err? {
        return belongs;
      }
    }
    assert group[|group|..] == [];
    r := Ok(true);
  }

  /** Whether some of these template lists materialises the group's payloads. */
  ghost predicate SomeAgrees(writers: seq<seq<EventTemplate>>, ctx: Context, group: seq<Event>) {
    exists templates | templates in writers :: PayloadsAgree(templates, ctx, group)
  }

  /** The template lists of everyone who could have written this revision, kept until the payloads are
      compared. */
  method Writers(doors: Doors, definition: Definition, before: Instance, group: seq<Event>, genesis: bool,
                 ghost fields: Object)
    returns (writers: seq<seq<EventTemplate>>)
    requires group != []
    ensures SomeAgrees(writers, PayloadContext(doors, definition, before, group[0], fields), group)
       <==> Answered(doors, definition, before, group, genesis, fields)
  {
    hide WouldHaveProduced, PayloadsAgree, EmitsOn, Permits, PayloadContext;
    ghost var ctx := PayloadContext(doors, definition, before, group[0], fields);
    writers := [];
    match group[0].fromState
    case None =>
      if genesis && CreationGroup(definition, group) {
        writers := [[definition.create.emit.value]];
      }
    case Some(from) =>
      if from == before.state && Permits(definition, from, group[0].toState)
         && forall e | e in group :: EmitsOn(definition, from, e.toState, e.eventType) {
        var names := OperationsThatWouldHaveProduced(doors, definition, before, group, from);
        CandidatesAreOperations(doors, definition, before, group, from);
        writers := seq(|names|, i requires 0 <= i < |names| && names[i] in names =>
                         definition.operations[names[i]].emits);
        forall name | name in definition.operations && Answers(doors, definition, before, group, from, fields, name)
          ensures SomeAgrees(writers, ctx, group)
        {
          var i :| 0 <= i < |names| && names[i] == name;
          assert writers[i] == definition.operations[name].emits;
        }
        if SomeAgrees(writers, ctx, group) {
          var i :| 0 <= i < |writers| && PayloadsAgree(writers[i], ctx, group);
          assert names[i] in names && Answers(doors, definition, before, group, from, fields, names[i]);
        }
      }
  }

  method SomeWriterAgrees(writers: seq<seq<EventTemplate>>, ctx: Context, group: seq<Event>) returns (answered: bool)
    ensures answered <==> SomeAgrees(writers, ctx, group)
  {
    hide PayloadsAgree;
    answered := false;
    for i := 0 to |writers|
      invariant answered <==> exists j | 0 <= j < i :: PayloadsAgree(writers[j], ctx, group)
    {
      answered := answered || PayloadsAgree(writers[i], ctx, group);
    }
  }

  /** One revision, in the order the fold asks: every event, the numbering, the writers, the fields, the
      rules, and last the payloads. */
  method FoldRevision(doors: Doors, definition: Definition, before: Instance, group: seq<Event>, genesis: bool)
    returns (r: Result<Instance, CoreError>)
    requires group != []
    ensures r == FoldGroup(doors, definition, before, group, genesis)
  {
    hide AllBelong, OneDecision, ValidObject, CheckInvariants, Answered, SomeAgrees, PayloadContext,
         InvariantContext, Installed;
    var first := group[0];
    var belong := CheckEvents(definition, before.id, group);
    if belong.Err? {
      return Err(belong.error);
    }
    if before.revision + 1 > I64_MAX {
      return Err(RevisionExhausted);
    }
    if first.revision != before.revision + 1 || !OneDecision(group) {
      return Err(Validation);
    }
    ghost var after := Installed(before.fields, first.removed, first.changed);
    var writers := Writers(doors, definition, before, group, genesis, after);
    if !(first.removed !! first.changed.Keys) {
      return Err(Validation);
    }
    var fields := ApplyEventChanges(before.fields, first.removed, first.changed);
    if !ValidObject(doors, definition.schema, fields, false)
       || CheckInvariants(definition.invariants, InvariantContext(doors, definition, first, fields)).Err? {
      return Err(Validation);
    }
    var answered := SomeWriterAgrees(writers, PayloadContext(doors, definition, before, first, fields), group);
    r := if answered then Ok(before.(state := first.toState, revision := first.revision, fields := fields))
         else Err(Validation);
  }

  /** How many events at the front share the first one's revision. */
  function GroupSize(events: seq<Event>, revision: nat): (n: nat)
    ensures n <= |events|
    ensures events != [] && events[0].revision == revision ==> n > 0
  {
    if events != [] && events[0].revision == revision then 1 + GroupSize(events[1..], revision) else 0
  }

  function FoldEvents(doors: Doors, definition: Definition, before: Instance, events: seq<Event>, genesis: bool)
    : Result<Instance, CoreError>
    decreases |events|
  {
    if events == [] then Ok(before) else
      var n := GroupSize(events, events[0].revision);
      var next :- FoldGroup(doors, definition, before, events[..n], genesis);
      FoldEvents(doors, definition, next, events[n..], false)
  }

  function Unborn(definition: Definition, id: string): Instance {
    Instance(definition.entity, definition.version, id, definition.initial, 0, map[])
  }

  /** The instance a list of bare events rebuilds. */
  function Rehydrated(doors: Doors, definition: Definition, events: seq<Event>): Result<Instance, CoreError> {
    if definition.semantics.Service() || events == [] || events[0].fromState.Some? then Err(Validation)
    else FoldEvents(doors, definition, Unborn(definition, events[0].id), events, true)
  }

  /** The walk, one revision at a time. */
  method Rehydrate(doors: Doors, definition: Definition, events: seq<Event>)
    returns (r: Result<Instance, CoreError>)
    ensures r == Rehydrated(doors, definition, events)
  {
    hide FoldGroup;
    if definition.semantics.Service() || events == [] || events[0].fromState.Some? {
      return Err(Validation);
    }
    var instance, start := Unborn(definition, events[0].id), 0;
    assert events[0..] == events;
    while start < |events|
      invariant 0 <= start <= |events|
      invariant Rehydrated(doors, definition, events)
             == FoldEvents(doors, definition, instance, events[start..], start == 0)
    {
      var size := GroupSize(events[start..], events[start].revision);
      var next := FoldRevision(doors, definition, instance, events[start..][..size], start == 0);
      assert events[start..][size..] == events[start + size..];
      if next.Err? {
        return next;
      }
      instance, start := next.value, start + size;
    }
    assert events[start..] == [];
    r := Ok(instance);
  }
}
