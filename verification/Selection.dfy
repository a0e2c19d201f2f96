/** Which branch answers: the first declared one whose guard and selector hold, as a statement about
    positions, after loading and before. */
module Selection {
  import opened Prelude
  import opened Truth
  import opened Definition
  import opened Reading
  import opened Evaluator
  import opened Values
  import opened Runtime
  import opened Rules

  // --- After loading ------------------------------------------------------------------------------

  /** Only ever taken where no move of the operation starts. */
  predicate Guarded(o: Outcome, state: string) {
    o.wrongState || (o.inState.Some? && o.inState.value != state)
  }

  predicate PassedOver(o: Outcome, state: string, ctx: Context) {
    Guarded(o, state) || (o.when.Some? && Answers(o.when.value, ctx, False))
  }

  predicate Taken(o: Outcome, state: string, ctx: Context) {
    !Guarded(o, state) && (o.when.Some? ==> Answers(o.when.value, ctx, True))
  }

  /** The first branch that is not passed over. */
  predicate Met(outcomes: seq<Outcome>, state: string, ctx: Context, k: nat) {
    && k < |outcomes| && !PassedOver(outcomes[k], state, ctx)
    && forall i | 0 <= i < k :: PassedOver(outcomes[i], state, ctx)
  }

  /** What selection answers at the branch it met. */
  ghost predicate Verdict(command: string, o: Outcome, state: string, ctx: Context, r: Result<Outcome, CoreError>) {
    if Taken(o, state, ctx) then r == Ok(o)
    else
      && o.when.Some?
      && match Evaluate(o.when.value, ctx, NoBinding)
         case Err(failure) => r == Err(failure)
         case Ok((_, unresolved)) => r == Err(OutcomeUnobservable(command, o.name, unresolved))
  }

  /** Selection answers at the first branch it does not pass over. */
  lemma {:induction false} SelectionMeans(command: string, outcomes: seq<Outcome>, state: string, ctx: Context, k: nat)
    requires Met(outcomes, state, ctx, k)
    ensures Verdict(command, outcomes[k], state, ctx, SelectOutcome(command, outcomes, state, ctx))
  {
    hide Evaluate;
    if k > 0 {
      assert Met(outcomes[1..], state, ctx, k - 1) by {
        assert forall i | 0 <= i < k - 1 :: outcomes[1..][i] == outcomes[i + 1];
      }
      SelectionMeans(command, outcomes[1..], state, ctx, k - 1);
    }
  }

  /** Passing over every branch selects none. */
  lemma {:induction false} NoneSelected(command: string, outcomes: seq<Outcome>, state: string, ctx: Context)
    requires forall i | 0 <= i < |outcomes| :: PassedOver(outcomes[i], state, ctx)
    ensures SelectOutcome(command, outcomes, state, ctx) == Err(NoOutcomeSelected(command))
  {
    hide Evaluate;
    if outcomes != [] {
      assert PassedOver(outcomes[0], state, ctx);
      assert forall i | 0 <= i < |outcomes| - 1 :: outcomes[1..][i] == outcomes[i + 1];
      NoneSelected(command, outcomes[1..], state, ctx);
    }
  }

  lemma {:induction false} SomeMet(outcomes: seq<Outcome>, state: string, ctx: Context) returns (k: nat)
    requires exists i :: 0 <= i < |outcomes| && !PassedOver(outcomes[i], state, ctx)
    ensures Met(outcomes, state, ctx, k)
  {
    hide PassedOver;
    k := 0;
    while PassedOver(outcomes[k], state, ctx)
      invariant k < |outcomes| && forall i | 0 <= i < k :: PassedOver(outcomes[i], state, ctx)
      decreases |outcomes| - k
    {
      k := k + 1;
    }
  }

  /** The branch selected is the one taken first, every branch before it passed over. */
  ghost predicate TakenFirst(outcomes: seq<Outcome>, state: string, ctx: Context, o: Outcome) {
    exists k: nat :: k < |outcomes| && outcomes[k] == o && Taken(o, state, ctx)
              && forall i | 0 <= i < k :: PassedOver(outcomes[i], state, ctx)
  }

  lemma SelectsExactly(command: string, outcomes: seq<Outcome>, state: string, ctx: Context, o: Outcome)
    ensures SelectOutcome(command, outcomes, state, ctx) == Ok(o) <==> TakenFirst(outcomes, state, ctx, o)
  {
    hide Evaluate, SelectOutcome;
    if SelectOutcome(command, outcomes, state, ctx) == Ok(o) {
      if forall i | 0 <= i < |outcomes| :: PassedOver(outcomes[i], state, ctx) {
        NoneSelected(command, outcomes, state, ctx);
      } else {
        var k := SomeMet(outcomes, state, ctx);
        SelectionMeans(command, outcomes, state, ctx, k);
      }
    }
    if TakenFirst(outcomes, state, ctx, o) {
      var k: nat :| k < |outcomes| && outcomes[k] == o && Taken(o, state, ctx)
                    && forall i | 0 <= i < k :: PassedOver(outcomes[i], state, ctx);
      assert Met(outcomes, state, ctx, k);
      SelectionMeans(command, outcomes, state, ctx, k);
    }
  }

  // --- Moves --------------------------------------------------------------------------------------

  /** Some branch of the operation moves from here. */
  predicate MovesFrom(outcomes: seq<Outcome>, state: string) {
    exists o | o in outcomes :: o.effect.Moves? && state in o.effect.from
  }

  lemma {:induction false} SourcesMean(outcomes: seq<Outcome>, state: string)
    ensures state in MoveSources(outcomes) <==> MovesFrom(outcomes, state)
  {
    if outcomes != [] {
      SourcesMean(outcomes[1..], state);
      assert outcomes == [outcomes[0]] + outcomes[1..];
    }
  }

  predicate FirstWrongState(outcomes: seq<Outcome>, k: nat) {
    k < |outcomes| && outcomes[k].wrongState && forall i | 0 <= i < k :: !outcomes[i].wrongState
  }

  lemma {:induction false} WrongStateMeans(outcomes: seq<Outcome>)
    ensures forall k: nat | FirstWrongState(outcomes, k) :: WrongStateBranch(outcomes) == Some(outcomes[k])
    ensures WrongStateBranch(outcomes).None? <==> forall o | o in outcomes :: !o.wrongState
    ensures WrongStateBranch(outcomes).Some? ==>
              exists k: nat :: FirstWrongState(outcomes, k) && WrongStateBranch(outcomes) == Some(outcomes[k])
  {
    if outcomes != [] {
      var rest := outcomes[1..];
      WrongStateMeans(rest);
      assert outcomes == [outcomes[0]] + rest;
      if outcomes[0].wrongState {
        assert FirstWrongState(outcomes, 0);
      } else {
        forall k: nat | FirstWrongState(outcomes, k)
          ensures WrongStateBranch(outcomes) == Some(outcomes[k])
        {
          assert FirstWrongState(rest, k - 1);
        }
        if WrongStateBranch(rest).Some? {
          var k: nat :| FirstWrongState(rest, k) && WrongStateBranch(rest) == Some(rest[k]);
          assert FirstWrongState(outcomes, k + 1);
        }
      }
    }
  }

  /** A branch that stays, or moves from here, is admitted as it is; where no branch moves from here the
      first wrong-state branch answers instead. */
  ghost predicate Admitted(definition: Definition, outcomes: seq<Outcome>, o: Outcome, state: string, b: Outcome) {
    if o.effect.Moves? && state !in o.effect.from then
      && state in definition.states && !MovesFrom(outcomes, state)
      && exists k: nat :: FirstWrongState(outcomes, k) && b == outcomes[k]
    else b == o
  }

  /** Otherwise the move is invalid where nothing moves from here, and unspecified where another branch
      does. */
  lemma AdmissionMeans(definition: Definition, operation: Operation, name: string, o: Outcome, state: string)
    ensures forall b :: AdmitState(definition, operation, name, o, state) == Ok(b)
                   <==> Admitted(definition, operation.outcomes, o, state, b)
    ensures AdmitState(definition, operation, name, o, state) == Err(InvalidTransition(name, state))
       <==> && o.effect.Moves? && state !in o.effect.from && state in definition.states
            && !MovesFrom(operation.outcomes, state) && forall p | p in operation.outcomes :: !p.wrongState
    ensures AdmitState(definition, operation, name, o, state) == Err(UnspecifiedMoveSource(name, o.name, state))
       <==> && o.effect.Moves? && state !in o.effect.from
            && (state in definition.states ==> MovesFrom(operation.outcomes, state))
  {
    hide MoveSources, WrongStateBranch, MovesFrom;
    SourcesMean(operation.outcomes, state);
    WrongStateMeans(operation.outcomes);
  }

  /** The first declared transition that starts here. */
  ghost predicate FirstTransition(transitions: seq<Transition>, state: string, t: Transition) {
    exists k: nat :: k < |transitions| && transitions[k] == t && state in t.from
              && forall i | 0 <= i < k :: state !in transitions[i].from
  }

  lemma {:induction false} TransitionMeans(transitions: seq<Transition>, state: string)
    ensures TransitionFrom(transitions, state).None? <==> forall t | t in transitions :: state !in t.from
    ensures TransitionFrom(transitions, state).Some? ==>
              FirstTransition(transitions, state, TransitionFrom(transitions, state).value)
  {
    if transitions != [] {
      var rest := transitions[1..];
      TransitionMeans(rest, state);
      assert transitions == [transitions[0]] + rest;
      if state in transitions[0].from {
        assert transitions[0] == transitions[0];
        assert FirstTransition(transitions, state, transitions[0]);
      } else if TransitionFrom(rest, state).Some? {
        var t := TransitionFrom(rest, state).value;
        var k: nat :| k < |rest| && rest[k] == t && state in t.from && forall i | 0 <= i < k :: state !in rest[i].from;
        assert forall i | 0 <= i < k + 1 :: state !in transitions[i].from;
        assert transitions[k + 1] == t;
      }
    }
  }

  lemma TransitionUnique(transitions: seq<Transition>, state: string, s: Transition, t: Transition)
    requires FirstTransition(transitions, state, s) && FirstTransition(transitions, state, t)
    ensures s == t
  {
  }

  /** The branch an operation runs: without branches the implicit one of the first transition from here,
      with them the admitted one of the branch taken first. */
  ghost predicate Runs(doors: Doors, definition: Definition, instance: Instance, operation: Operation, args: Object,
                       branch: Branch)
  {
    if !HasBranches(definition, operation.outcomes) then
      exists t | t in operation.transitions ::
        && FirstTransition(operation.transitions, instance.state, t)
        && branch == Branch(None, t.to, operation.assigns, map[], map[], operation.emits, None, None, None)
    else
      var ctx := Context(doors, definition, Some(instance.id), args, Some(operation.arguments), instance.fields,
                         instance.fields, Some(instance.state), instance.state);
      exists o, b | o in operation.outcomes && b in operation.outcomes ::
        && TakenFirst(operation.outcomes, instance.state, ctx, o)
        && Admitted(definition, operation.outcomes, o, instance.state, b)
        && RunsAs(branch, b, instance.state)
  }

  /** What a declared branch runs as: its own name, writes, events, response, effect and refusal, ending
      where it moves or where the instance is. */
  predicate RunsAs(branch: Branch, b: Outcome, state: string) {
    && branch.name == Some(b.name) && branch.refuses == b.refuses
    && branch.toState == (match b.effect case Moves(to, _) => to case _ => state)
    && branch.assigns == b.assigns && branch.setIfPresent == b.setIfPresent && branch.fulfills == b.fulfills
    && branch.emits == b.emits && branch.responds == Some((b.responds, b.respondsIfPresent))
    && branch.effect == Some(match b.effect case NoEffect => Unchanged case Creates => Created
                                            case Moves(_, _) => Moved case Updates => Updated)
  }

  lemma NamedRunsAs(branch: Branch, b: Outcome, state: string)
    ensures branch == Named(b, state) <==> RunsAs(branch, b, state)
  {
  }

  lemma RunsExactly(doors: Doors, definition: Definition, instance: Instance, name: string, operation: Operation,
                    args: Object, branch: Branch)
    ensures SelectBranch(doors, definition, instance, name, operation, args) == Ok(branch)
       <==> Runs(doors, definition, instance, operation, args, branch)
  {
    hide SelectOutcome, AdmitState, TakenFirst, Admitted, SelectorContext, RunsAs, Named;
    if HasBranches(definition, operation.outcomes) {
      BranchRuns(doors, definition, instance, name, operation, args, branch);
    } else {
      TransitionMeans(operation.transitions, instance.state);
      forall s, t | FirstTransition(operation.transitions, instance.state, s)
                    && FirstTransition(operation.transitions, instance.state, t)
        ensures s == t
      {
        TransitionUnique(operation.transitions, instance.state, s, t);
      }
    }
  }

  lemma BranchRuns(doors: Doors, definition: Definition, instance: Instance, name: string, operation: Operation,
                   args: Object, branch: Branch)
    requires HasBranches(definition, operation.outcomes)
    ensures SelectBranch(doors, definition, instance, name, operation, args) == Ok(branch)
       <==> Runs(doors, definition, instance, operation, args, branch)
  {
    hide SelectOutcome, AdmitState, RunsAs, Named, TakenFirst, Admitted, MovesFrom, FirstWrongState;
    var outcomes, state := operation.outcomes, instance.state;
    var ctx := SelectorContext(doors, definition, instance, operation, args);
    if SelectBranch(doors, definition, instance, name, operation, args) == Ok(branch) {
      var o := SelectOutcome(name, outcomes, state, ctx).value;
      var b := AdmitState(definition, operation, name, o, state).value;
      SelectsExactly(name, outcomes, state, ctx, o);
      AdmissionMeans(definition, operation, name, o, state);
      TakenIsDeclared(outcomes, state, ctx, o);
      AdmittedIsDeclared(definition, outcomes, o, state, b);
      NamedRunsAs(branch, b, state);
    }
    if Runs(doors, definition, instance, operation, args, branch) {
      var o, b :| o in outcomes && b in outcomes && TakenFirst(outcomes, state, ctx, o)
                  && Admitted(definition, outcomes, o, state, b) && RunsAs(branch, b, state);
      SelectsExactly(name, outcomes, state, ctx, o);
      AdmissionMeans(definition, operation, name, o, state);
      NamedRunsAs(branch, b, state);
    }
  }

  lemma TakenIsDeclared(outcomes: seq<Outcome>, state: string, ctx: Context, o: Outcome)
    requires TakenFirst(outcomes, state, ctx, o)
    ensures o in outcomes
  {
    hide Taken, PassedOver;
  }

  lemma AdmittedIsDeclared(definition: Definition, outcomes: seq<Outcome>, o: Outcome, state: string, b: Outcome)
    requires Admitted(definition, outcomes, o, state, b) && o in outcomes
    ensures b in outcomes
  {
    hide MovesFrom;
  }

  // --- Before loading -----------------------------------------------------------------------------

  /** The condition is answered without the subject, and answered this way. */
  predicate AnswersEarly(c: Condition, ctx: Context, t: PartialTruth) {
    EvaluateEarly(c, ctx, NoBinding).Ok? && EvaluateEarly(c, ctx, NoBinding).value.0 == t
  }

  /** No subject can take this branch: it is the wrong-state one, or an unguarded one whose selector is
      known to be false. */
  predicate RuledOut(o: Outcome, ctx: Context) {
    o.wrongState || (o.inState.None? && o.when.Some? && AnswersEarly(o.when.value, ctx, Known(False)))
  }

  /** Every subject takes this branch once it is met. */
  predicate Certain(o: Outcome, ctx: Context) {
    !o.wrongState && o.inState.None? && (o.when.Some? ==> AnswersEarly(o.when.value, ctx, Known(True)))
  }

  /** Whether it is taken waits for the subject: for its state, or for what the selector reads. */
  predicate Open(o: Outcome, ctx: Context) {
    !o.wrongState && (o.inState.Some? || (o.when.Some? && AnswersEarly(o.when.value, ctx, NeedsSubject)))
  }

  /** The first branch not ruled out. */
  predicate MetEarly(outcomes: seq<Outcome>, ctx: Context, k: nat) {
    k < |outcomes| && !RuledOut(outcomes[k], ctx) && forall i | 0 <= i < k :: RuledOut(outcomes[i], ctx)
  }

  /** What the early walk answers at the branch it met. */
  ghost predicate EarlyVerdict(command: string, o: Outcome, ctx: Context, r: Result<Option<Outcome>, CoreError>) {
    if Certain(o, ctx) then r == Ok(if o.refuses.Some? then Some(o) else None)
    else if Open(o, ctx) then r == Ok(None)
    else
      && o.when.Some?
      && match EvaluateEarly(o.when.value, ctx, NoBinding)
         case Err(failure) => r == Err(failure)
         case Ok((_, unresolved)) => r == Err(OutcomeUnobservable(command, o.name, unresolved))
  }

  lemma {:induction false} EarlyMeans(command: string, outcomes: seq<Outcome>, ctx: Context, k: nat)
    requires MetEarly(outcomes, ctx, k)
    ensures EarlyVerdict(command, outcomes[k], ctx, EarlyRefusal(command, outcomes, ctx))
  {
    hide EvaluateEarly;
    if k > 0 {
      assert RuledOut(outcomes[0], ctx);
      assert MetEarly(outcomes[1..], ctx, k - 1) by {
        assert forall i | 0 <= i < k - 1 :: outcomes[1..][i] == outcomes[i + 1];
      }
      EarlyMeans(command, outcomes[1..], ctx, k - 1);
    }
  }

  lemma {:induction false} NoneEarly(command: string, outcomes: seq<Outcome>, ctx: Context)
    requires forall i | 0 <= i < |outcomes| :: RuledOut(outcomes[i], ctx)
    ensures EarlyRefusal(command, outcomes, ctx) == Err(NoOutcomeSelected(command))
  {
    hide EvaluateEarly;
    if outcomes != [] {
      assert RuledOut(outcomes[0], ctx);
      assert forall i | 0 <= i < |outcomes| - 1 :: outcomes[1..][i] == outcomes[i + 1];
      NoneEarly(command, outcomes[1..], ctx);
    }
  }

  lemma SomeMetEarly(outcomes: seq<Outcome>, ctx: Context) returns (k: nat)
    requires exists i :: 0 <= i < |outcomes| && !RuledOut(outcomes[i], ctx)
    ensures MetEarly(outcomes, ctx, k)
  {
    hide RuledOut;
    k := 0;
    while RuledOut(outcomes[k], ctx)
      invariant k < |outcomes| && forall i | 0 <= i < k :: RuledOut(outcomes[i], ctx)
      decreases |outcomes| - k
    {
      k := k + 1;
    }
  }

  /** A branch every subject would take refuses. */
  ghost predicate RefusesEarly(outcomes: seq<Outcome>, ctx: Context, outcome: string, error: string) {
    exists k: nat :: MetEarly(outcomes, ctx, k) && Certain(outcomes[k], ctx)
              && outcomes[k].name == outcome && outcomes[k].refuses == Some(error)
  }

  /** The first branch not ruled out waits for the subject, or is certain and accepts. */
  ghost predicate WaitsForSubject(outcomes: seq<Outcome>, ctx: Context) {
    exists k: nat :: MetEarly(outcomes, ctx, k)
              && (Open(outcomes[k], ctx) || (Certain(outcomes[k], ctx) && outcomes[k].refuses.None?))
  }

  /** Every branch is ruled out, or the first that is not has a selector that fails or is unobservable
      whoever the subject is. */
  ghost predicate FailsEarly(command: string, outcomes: seq<Outcome>, ctx: Context, error: CoreError) {
    if forall o | o in outcomes :: RuledOut(o, ctx) then error == NoOutcomeSelected(command)
    else exists k: nat :: MetEarly(outcomes, ctx, k) && !Open(outcomes[k], ctx) && outcomes[k].when.Some?
                  && match EvaluateEarly(outcomes[k].when.value, ctx, NoBinding)
                     case Err(failure) => error == failure
                     case Ok((t, unresolved)) =>
                       t == Known(Unknown) && error == OutcomeUnobservable(command, outcomes[k].name, unresolved)
  }

  lemma EarlyExactly(command: string, outcomes: seq<Outcome>, ctx: Context)
    ensures var r := EarlyRefusal(command, outcomes, ctx);
            && (forall n, e :: RefusesEarly(outcomes, ctx, n, e)
                       <==> r.Ok? && r.value.Some? && r.value.value.name == n && r.value.value.refuses == Some(e))
            && (WaitsForSubject(outcomes, ctx) <==> r == Ok(None))
            && (forall e :: FailsEarly(command, outcomes, ctx, e) <==> r == Err(e))
            && (r.Ok? && r.value.Some? ==> r.value.value.refuses.Some?)
  {
    hide EvaluateEarly, EarlyRefusal, MetEarly, EarlyVerdict, RefusesEarly, WaitsForSubject, FailsEarly;
    if forall i | 0 <= i < |outcomes| :: RuledOut(outcomes[i], ctx) {
      NoneEarly(command, outcomes, ctx);
      NothingMet(command, outcomes, ctx);
    } else {
      var k := SomeMetEarly(outcomes, ctx);
      MetIsOpen(outcomes, ctx, k);
      EarlyMeans(command, outcomes, ctx, k);
      MetAnswers(command, outcomes, ctx, k, EarlyRefusal(command, outcomes, ctx));
    }
  }

  lemma NothingMet(command: string, outcomes: seq<Outcome>, ctx: Context)
    requires forall i | 0 <= i < |outcomes| :: RuledOut(outcomes[i], ctx)
    ensures !WaitsForSubject(outcomes, ctx) && forall n, e :: !RefusesEarly(outcomes, ctx, n, e)
    ensures forall e :: FailsEarly(command, outcomes, ctx, e) <==> e == NoOutcomeSelected(command)
  {
    hide EvaluateEarly, MetEarly, RuledOut, Certain, Open;
    forall k: nat
      ensures !MetEarly(outcomes, ctx, k)
    {
      NotMet(outcomes, ctx, k);
    }
  }

  lemma MetAnswers(command: string, outcomes: seq<Outcome>, ctx: Context, k: nat, r: Result<Option<Outcome>, CoreError>)
    requires MetEarly(outcomes, ctx, k) && k < |outcomes| && EarlyVerdict(command, outcomes[k], ctx, r)
    ensures forall n, e :: RefusesEarly(outcomes, ctx, n, e)
                   <==> r.Ok? && r.value.Some? && r.value.value.name == n && r.value.value.refuses == Some(e)
    ensures WaitsForSubject(outcomes, ctx) <==> r == Ok(None)
    ensures forall e :: FailsEarly(command, outcomes, ctx, e) <==> r == Err(e)
    ensures r.Ok? && r.value.Some? ==> r.value.value.refuses.Some?
  {
    hide EvaluateEarly, MetEarly;
    forall j: nat | MetEarly(outcomes, ctx, j)
      ensures j == k
    {
      MetOnce(outcomes, ctx, j, k);
    }
    MetIsOpen(outcomes, ctx, k);
    var o := outcomes[k];
    assert WaitsForSubject(outcomes, ctx) <==> Open(o, ctx) || (Certain(o, ctx) && o.refuses.None?);
    assert forall n, e :: RefusesEarly(outcomes, ctx, n, e) <==> Certain(o, ctx) && o.name == n && o.refuses == Some(e);
    if !Certain(o, ctx) && !Open(o, ctx) {
      assert o.inState.None? && o.when.Some?;
      var answer := EvaluateEarly(o.when.value, ctx, NoBinding);
      if answer.Ok? {
        match answer.value.0
        case NeedsSubject => assert false;
        case Known(t) => assert t != True && t != False;
      }
    }
  }

  lemma NotMet(outcomes: seq<Outcome>, ctx: Context, k: nat)
    requires forall i | 0 <= i < |outcomes| :: RuledOut(outcomes[i], ctx)
    ensures !MetEarly(outcomes, ctx, k)
  {
  }

  lemma MetOnce(outcomes: seq<Outcome>, ctx: Context, j: nat, k: nat)
    requires MetEarly(outcomes, ctx, j) && MetEarly(outcomes, ctx, k)
    ensures j == k
  {
    hide RuledOut;
  }

  lemma MetIsOpen(outcomes: seq<Outcome>, ctx: Context, k: nat)
    requires MetEarly(outcomes, ctx, k)
    ensures k < |outcomes| && outcomes[k] in outcomes && !RuledOut(outcomes[k], ctx)
  {
    hide RuledOut;
  }

  /** What may be decided about the branches at all: a readable identity, a known operation, arguments
      that normalize to these. */
  predicate Asked(doors: Doors, definition: Definition, id: string, name: string, input: Json, args: Object) {
    && !Blank(id) && name in definition.operations
    && Normalize(doors, definition.operations[name].arguments, input, definition.semantics.Service()) == Some(args)
  }

  /** The answer before loading is a refusal exactly when the first branch not ruled out refuses and is
      certain. */
  lemma EarlyRefuses(doors: Doors, definition: Definition, id: string, name: string, input: Json, checked: bool,
                     outcome: string, error: string)
    ensures DecideBeforeLoad(doors, definition, id, name, input, checked) == Ok(Early(outcome, error))
       <==> exists args ::
              && Asked(doors, definition, id, name, input, args)
              && HasBranches(definition, definition.operations[name].outcomes)
              && RefusesEarly(definition.operations[name].outcomes,
                              EarlyContext(doors, definition, id, definition.operations[name], args), outcome, error)
  {
    hide Normalize, EarlyRefusal, RefusesEarly, WaitsForSubject, FailsEarly, EarlyContext, Blank;
    if name in definition.operations {
      var operation := definition.operations[name];
      var normal := Normalize(doors, operation.arguments, input, definition.semantics.Service());
      if normal.Some? {
        EarlyExactly(name, operation.outcomes, EarlyContext(doors, definition, id, operation, normal.value));
      }
    }
  }

  /** It is to load exactly when there are no branches to decide, or the first branch not ruled out waits
      for the subject or accepts. */
  lemma EarlyLoads(doors: Doors, definition: Definition, id: string, name: string, input: Json, checked: bool,
                   prepared: Prepared)
    ensures DecideBeforeLoad(doors, definition, id, name, input, checked) == Ok(Load(prepared))
       <==> exists args ::
              && Asked(doors, definition, id, name, input, args)
              && prepared == Prepared(name, id, args, checked)
              && (HasBranches(definition, definition.operations[name].outcomes) ==>
                    WaitsForSubject(definition.operations[name].outcomes,
                                    EarlyContext(doors, definition, id, definition.operations[name], args)))
  {
    hide Normalize, EarlyRefusal, RefusesEarly, WaitsForSubject, FailsEarly, EarlyContext, Blank;
    if name in definition.operations {
      var operation := definition.operations[name];
      var normal := Normalize(doors, operation.arguments, input, definition.semantics.Service());
      if normal.Some? {
        EarlyExactly(name, operation.outcomes, EarlyContext(doors, definition, id, operation, normal.value));
      }
    }
  }

  /** It is an error exactly when nothing may be decided, or no branch can be taken, or the first that is
      not ruled out cannot be answered. */
  lemma EarlyFails(doors: Doors, definition: Definition, id: string, name: string, input: Json, checked: bool,
                   error: CoreError)
    ensures DecideBeforeLoad(doors, definition, id, name, input, checked) == Err(error)
       <==> if Blank(id) then error == Validation
            else if name !in definition.operations then error == OperationNotFound(name)
            else if !exists args :: Asked(doors, definition, id, name, input, args) then error == Validation
            else exists args ::
                   && Asked(doors, definition, id, name, input, args)
                   && HasBranches(definition, definition.operations[name].outcomes)
                   && FailsEarly(name, definition.operations[name].outcomes,
                                 EarlyContext(doors, definition, id, definition.operations[name], args), error)
  {
    hide Normalize, EarlyRefusal, RefusesEarly, WaitsForSubject, FailsEarly, EarlyContext, Blank;
    if name in definition.operations {
      var operation := definition.operations[name];
      var normal := Normalize(doors, operation.arguments, input, definition.semantics.Service());
      if normal.Some? {
        assert !Blank(id) ==> Asked(doors, definition, id, name, input, normal.value);
        EarlyExactly(name, operation.outcomes, EarlyContext(doors, definition, id, operation, normal.value));
      }
    }
  }
}
