/** What a list of rules asks of a context, and what its first failure is answered with. */
module Rules {
  import opened Prelude
  import opened Truth
  import opened Definition
  import opened Evaluator
  import opened Runtime

  /** The condition is answered, and answered this way. */
  predicate Answers(c: Condition, ctx: Context, t: Truth) {
    Evaluate(c, ctx, NoBinding).Ok? && Evaluate(c, ctx, NoBinding).value.0 == t
  }

  predicate EveryHolds(rules: seq<Rule>, ctx: Context) {
    forall r | r in rules :: Answers(r.condition, ctx, True)
  }

  /** The first rule, in declared order, that does not hold. */
  predicate FirstFailing(rules: seq<Rule>, ctx: Context, k: nat) {
    && k < |rules| && !Answers(rules[k].condition, ctx, True)
    && forall i | 0 <= i < k :: Answers(rules[i].condition, ctx, True)
  }

  /** The refusal of a rule that does not hold: its own failure, or that it is broken, or unobservable. */
  ghost predicate RefusedBy(rule: Rule, ctx: Context, error: CoreError, broken: CoreError,
                            unobservable: set<string> -> CoreError)
  {
    match Evaluate(rule.condition, ctx, NoBinding)
    case Err(failure) => error == failure
    case Ok((False, _)) => error == broken
    case Ok((Unknown, unresolved)) => error == unobservable(unresolved)
    case Ok((True, _)) => false
  }

  lemma Front(rules: seq<Rule>, ctx: Context)
    requires rules != []
    ensures EveryHolds(rules, ctx) <==> Answers(rules[0].condition, ctx, True) && EveryHolds(rules[1..], ctx)
  {
    hide Answers;
    assert rules == [rules[0]] + rules[1..];
  }

  lemma FrontFailing(rules: seq<Rule>, ctx: Context, k: nat)
    requires FirstFailing(rules, ctx, k) && k > 0
    ensures Answers(rules[0].condition, ctx, True)
    ensures FirstFailing(rules[1..], ctx, k - 1) && rules[1..][k - 1] == rules[k]
  {
    hide Answers;
    assert forall i | 0 <= i < k - 1 :: rules[1..][i] == rules[i + 1];
  }

  lemma {:induction false} SomeFails(rules: seq<Rule>, ctx: Context)
    requires !EveryHolds(rules, ctx)
    ensures exists k: nat :: FirstFailing(rules, ctx, k)
  {
    hide Answers;
    if Answers(rules[0].condition, ctx, True) {
      Front(rules, ctx);
      SomeFails(rules[1..], ctx);
      var k: nat :| FirstFailing(rules[1..], ctx, k);
      assert forall i | 0 < i <= k :: rules[i] == rules[1..][i - 1];
      assert FirstFailing(rules, ctx, k + 1);
    } else {
      assert FirstFailing(rules, ctx, 0);
    }
  }

  /** Invariants are accepted exactly when every one of them is answered true. */
  lemma {:induction false} InvariantsMean(rules: seq<Rule>, ctx: Context)
    ensures CheckInvariants(rules, ctx).Ok? <==> EveryHolds(rules, ctx)
  {
    hide Evaluate;
    if rules != [] {
      InvariantsMean(rules[1..], ctx);
      Front(rules, ctx);
    }
  }

  /** Otherwise the first that is not gives the error. */
  lemma {:induction false} FirstInvariantAnswers(rules: seq<Rule>, ctx: Context, k: nat)
    requires FirstFailing(rules, ctx, k)
    ensures CheckInvariants(rules, ctx).Err?
    ensures RefusedBy(rules[k], ctx, CheckInvariants(rules, ctx).error, InvariantViolation(rules[k].name),
                      u => InvariantUnobservable(rules[k].name, u))
  {
    hide Evaluate;
    if k > 0 {
      FrontFailing(rules, ctx, k);
      FirstInvariantAnswers(rules[1..], ctx, k - 1);
    }
  }

  /** Preconditions likewise, each refusal naming the operation. */
  lemma {:induction false} PreconditionsMean(operation: string, rules: seq<Rule>, ctx: Context)
    ensures CheckPreconditions(operation, rules, ctx).Ok? <==> EveryHolds(rules, ctx)
  {
    hide Evaluate;
    if rules != [] {
      PreconditionsMean(operation, rules[1..], ctx);
      Front(rules, ctx);
    }
  }

  lemma {:induction false} FirstPreconditionAnswers(operation: string, rules: seq<Rule>, ctx: Context, k: nat)
    requires FirstFailing(rules, ctx, k)
    ensures CheckPreconditions(operation, rules, ctx).Err?
    ensures RefusedBy(rules[k], ctx, CheckPreconditions(operation, rules, ctx).error,
                      PreconditionFailed(operation, rules[k].name),
                      u => PreconditionUnobservable(operation, rules[k].name, u))
  {
    hide Evaluate;
    if k > 0 {
      FrontFailing(rules, ctx, k);
      FirstPreconditionAnswers(operation, rules[1..], ctx, k - 1);
    }
  }
}
