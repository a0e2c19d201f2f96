/** What an accepted decision went through: every step it passed, named. */
module Traces {
  import opened Prelude
  import opened Keys
  import opened Definition
  import opened Reading
  import opened Evaluator
  import opened Scopes
  import opened Values
  import opened Runtime
  import opened Registration

  /** The record of an operation that concluded. */
  function OperationRecord(definition: Definition, instance: Instance, next: Instance, name: string,
                           args: Object, branch: Branch, fulfillments: map<string, Action>,
                           removed: set<string>, events: seq<Event>, response: Option<Object>): Record
  {
    Record(Some(definition), ExecuteCommand(name, args, fulfillments), next.entity, next.id,
           next.revision, Some(instance.state), next.state, next,
           ChangedFields(instance.fields, next.fields), removed, events,
           branch.name, branch.effect, response)
  }

  function NextInstance(instance: Instance, branch: Branch, fields: Object): Instance {
    instance.(state := branch.toState, revision := instance.revision + 1, fields := fields)
  }

  /** Steps 9 to 15 were passed with this decision. */
  ghost predicate Concluded(doors: Doors, definition: Definition, instance: Instance, name: string,
                            operation: Operation, args: Object, branch: Branch,
                            fulfillments: map<string, Action>, checked: bool, fields: Object,
                            removed: set<string>, d: Decision)
  {
    var ctx := AfterContext(doors, definition, instance, operation, args, branch.toState, fields);
    && ValidObject(doors, definition.schema, fields, definition.semantics.Service())
    && instance.revision + 1 <= I64_MAX
    && d.instance == NextInstance(instance, branch, fields)
    && CheckIdentity(doors, definition, d.instance).Ok?
    && CheckInvariants(definition.invariants, ctx).Ok?
    && MaterializeEvents(branch.emits, ctx, d.instance.revision, args, removed) == Ok(d.events)
    && MaterializeResponse(branch.responds, operation.response, ctx, checked) == Ok(d.record.response)
    && d.record == OperationRecord(definition, instance, d.instance, name, args, branch, fulfillments,
                                   removed, d.events, d.record.response)
  }

  lemma ConcludeTrace(doors: Doors, definition: Definition, instance: Instance, name: string,
                      operation: Operation, args: Object, branch: Branch, fulfillments: map<string, Action>,
                      checked: bool, fields: Object, removed: set<string>, d: Decision)
    ensures Conclude(doors, definition, instance, name, operation, args, branch, fulfillments, checked,
                     fields, removed) == Ok(d)
       <==> Concluded(doors, definition, instance, name, operation, args, branch, fulfillments, checked,
                      fields, removed, d)
  {
    hide ValidObject, CheckIdentity, CheckInvariants, MaterializeEvents, MaterializeResponse, AfterContext,
         ChangedFields;
  }

  /** Every step up to 8 was passed on the way to this decision. */
  ghost predicate Traced(doors: Doors, definition: Definition, instance: Instance, name: string, input: Json,
                         fulfillments: Option<map<string, Action>>, checked: bool,
                         args: Object, branch: Branch, fields: Object, removed: set<string>)
  {
    && definition.entity == instance.entity && definition.version == instance.version
    && instance.state in definition.states
    && name in definition.operations
    && var operation := definition.operations[name];
    && Normalize(doors, operation.arguments, input, definition.semantics.Service()) == Some(args)
    && SelectBranch(doors, definition, instance, name, operation, args) == Ok(branch)
    && (branch.name.Some? ==> branch.refuses.None?)
    && var ctx := BeforeContext(doors, definition, instance, operation, args, branch.toState);
    && CheckPreconditions(name, operation.preconditions, ctx).Ok?
    && StepEight(doors, definition, name, branch, ctx, fulfillments) == Ok((fields, removed))
  }

  function Given(fulfillments: Option<map<string, Action>>): map<string, Action> {
    if fulfillments.Some? then fulfillments.value else map[]
  }

  /** An accepted decision passed every step. */
  lemma DecideTrace(doors: Doors, definition: Definition, instance: Instance, name: string, input: Json,
                    fulfillments: Option<map<string, Action>>, checked: bool, d: Decision)
    returns (args: Object, branch: Branch, fields: Object, removed: set<string>)
    requires Decide(doors, definition, instance, name, input, fulfillments, checked) == Ok(Accepted(d))
    ensures Traced(doors, definition, instance, name, input, fulfillments, checked, args, branch, fields, removed)
    ensures Concluded(doors, definition, instance, name, definition.operations[name], args, branch,
                      Given(fulfillments), checked, fields, removed, d)
  {
    hide Normalize, SelectBranch, CheckPreconditions, StepEight, Conclude, Concluded, BeforeContext;
    var operation := definition.operations[name];
    args := Normalize(doors, operation.arguments, input, definition.semantics.Service()).value;
    branch := SelectBranch(doors, definition, instance, name, operation, args).value;
    var ctx := BeforeContext(doors, definition, instance, operation, args, branch.toState);
    var step := StepEight(doors, definition, name, branch, ctx, fulfillments).value;
    fields, removed := step.0, step.1;
    ConcludeTrace(doors, definition, instance, name, operation, args, branch, Given(fulfillments), checked,
                  fields, removed, d);
  }

  /** Passing every step is being accepted. */
  lemma TracedDecides(doors: Doors, definition: Definition, instance: Instance, name: string, input: Json,
                      fulfillments: Option<map<string, Action>>, checked: bool,
                      args: Object, branch: Branch, fields: Object, removed: set<string>, d: Decision)
    requires Traced(doors, definition, instance, name, input, fulfillments, checked, args, branch, fields, removed)
    requires Concluded(doors, definition, instance, name, definition.operations[name], args, branch,
                       Given(fulfillments), checked, fields, removed, d)
    ensures Decide(doors, definition, instance, name, input, fulfillments, checked) == Ok(Accepted(d))
  {
    hide Normalize, SelectBranch, CheckPreconditions, StepEight, Conclude, Concluded, BeforeContext;
    ConcludeTrace(doors, definition, instance, name, definition.operations[name], args, branch,
                  Given(fulfillments), checked, fields, removed, d);
  }

  // --- Where a branch comes from ------------------------------------------------------------------

  lemma {:induction false} SelectedIsDeclared(command: string, outcomes: seq<Outcome>, state: string, ctx: Context)
    requires SelectOutcome(command, outcomes, state, ctx).Ok?
    ensures SelectOutcome(command, outcomes, state, ctx).value in outcomes
    ensures !SelectOutcome(command, outcomes, state, ctx).value.wrongState
  {
    hide Evaluate;
    if SelectOutcome(command, outcomes, state, ctx).value != outcomes[0] || outcomes[0].wrongState {
      SelectedIsDeclared(command, outcomes[1..], state, ctx);
    }
  }

  lemma {:induction false} WrongStateIsDeclared(outcomes: seq<Outcome>)
    requires WrongStateBranch(outcomes).Some?
    ensures WrongStateBranch(outcomes).value in outcomes && WrongStateBranch(outcomes).value.wrongState
  {
    if !outcomes[0].wrongState {
      WrongStateIsDeclared(outcomes[1..]);
    }
  }

  /** Where any declared move starts is among the sources of all moves. */
  lemma {:induction false} SourcesOf(outcomes: seq<Outcome>, o: Outcome)
    requires o in outcomes
    ensures o.effect.Moves? ==> forall s | s in o.effect.from :: s in MoveSources(outcomes)
  {
    if o != outcomes[0] {
      SourcesOf(outcomes[1..], o);
    }
  }

  lemma {:induction false} TransitionIsDeclared(transitions: seq<Transition>, state: string)
    requires TransitionFrom(transitions, state).Some?
    ensures TransitionFrom(transitions, state).value in transitions
    ensures state in TransitionFrom(transitions, state).value.from
  {
    if state !in transitions[0].from {
      TransitionIsDeclared(transitions[1..], state);
    }
  }

  /** A selected branch is the implicit one of a declared transition from the held state, or a declared
      outcome: one that does not move, one whose move starts here, or — exactly where its own move does
      not start here — the wrong-state one. */
  ghost predicate Origin(instance: Instance, operation: Operation, branch: Branch, outcome: Option<Outcome>) {
    match outcome
    case None =>
      exists t | t in operation.transitions :: instance.state in t.from && branch == Implicit(operation, t.to)
    case Some(o) =>
      && o in operation.outcomes && branch == Named(o, instance.state)
      && (o.effect.Moves? ==> (instance.state in o.effect.from <==> !o.wrongState))
  }

  lemma BranchOrigin(doors: Doors, definition: Definition, instance: Instance, name: string,
                     operation: Operation, args: Object) returns (outcome: Option<Outcome>)
    requires SelectBranch(doors, definition, instance, name, operation, args).Ok?
    ensures Origin(instance, operation, SelectBranch(doors, definition, instance, name, operation, args).value, outcome)
    ensures outcome.None? <==> !HasBranches(definition, operation.outcomes)
  {
    hide SelectOutcome, MoveSources, SelectorContext;
    if HasBranches(definition, operation.outcomes) {
      var ctx := SelectorContext(doors, definition, instance, operation, args);
      var selected := SelectOutcome(name, operation.outcomes, instance.state, ctx).value;
      SelectedIsDeclared(name, operation.outcomes, instance.state, ctx);
      if WrongStateBranch(operation.outcomes).Some? {
        WrongStateIsDeclared(operation.outcomes);
        SourcesOf(operation.outcomes, WrongStateBranch(operation.outcomes).value);
      }
      outcome := Some(AdmitState(definition, operation, name, selected, instance.state).value);
    } else {
      TransitionIsDeclared(operation.transitions, instance.state);
      var t := TransitionFrom(operation.transitions, instance.state).value;
      assert t in operation.transitions && instance.state in t.from;
      outcome := None;
    }
  }
}
