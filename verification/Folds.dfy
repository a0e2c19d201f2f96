/** The evaluators as the loops they run: a truth folded from the left, addresses gathered on the way. */
module Folds {
  import opened Prelude
  import opened Truth
  import opened Definition
  import opened Evaluator
  import opened Operands

  type Answer = Result<(Truth, set<string>), CoreError>

  /** One answer joined in front of the answer of the rest. */
  function Joined(fold: Fold, t: Truth, u: set<string>, rest: Answer): Answer {
    if rest.Err? then rest else Ok((fold.Join(t, rest.value.0), u + rest.value.1))
  }

  /** The answer of a first operand and the rest: a failure is the first one met. */
  function Following(fold: Fold, first: Answer, rest: Answer): Answer {
    if first.Err? then first else Joined(fold, first.value.0, first.value.1, rest)
  }

  lemma JoinedTwice(fold: Fold, s: Truth, u: set<string>, t: Truth, v: set<string>, rest: Answer)
    ensures Joined(fold, s, u, Joined(fold, t, v, rest)) == Joined(fold, fold.Join(s, t), u + v, rest)
  {
    if rest.Ok? {
      assert u + (v + rest.value.1) == u + v + rest.value.1;
    }
  }

  lemma JoinedUnit(fold: Fold, rest: Answer)
    ensures Joined(fold, fold.Unit(), {}, rest) == rest
  {
    if rest.Ok? {
      assert {} + rest.value.1 == rest.value.1;
    }
  }

  lemma JoinedEnd(fold: Fold, t: Truth, u: set<string>)
    ensures Joined(fold, t, u, Ok((fold.Unit(), {}))) == Ok((t, u))
  {
    assert u + {} == u;
  }

  /** A settled fold has its answer, whatever the rest would have said. */
  lemma SettledIsFinal(fold: Fold, t: Truth, rest: Truth)
    requires fold.Settled(t)
    ensures fold.Join(t, rest) == t
  {
  }

  /** Whether `r` and the addresses added to `before` are what `answer` says. */
  ghost predicate Reports(answer: Answer, r: Result<Truth, CoreError>, before: set<string>, after: set<string>) {
    if answer.Err? then r == Err(answer.error)
    else r == Ok(answer.value.0) && after == before + answer.value.1
  }

  method EvaluateCondition(c: Condition, ctx: Context, b: Bindings, unobserved: Unobserved)
    returns (r: Result<Truth, CoreError>)
    modifies unobserved
    ensures Reports(Evaluate(c, ctx, b), r, old(unobserved.addresses), unobserved.addresses)
    decreases c, 0, 0
  {
    hide ResolveOperand, AnswerPair, CompareScalars, TruthOf, CollectionElement, EvaluateEach, Quantify;
    match c
    case Literal(value) => r := Ok(FromBool(value));
    case Exists(operand) =>
      // Its addresses are its own: the operator is the observation.
      var answered := new Unobserved();
      var value := FindOperand(operand, ctx, b, answered);
      r := if value.Ok? then Ok(FromBool(value.value.Some?)) else Err(value.error);
    case Pair(op, left, right) => r := EvaluatePair(op, left, right, ctx, b, unobserved);
    case Compare(left, op, right) =>
      var found := FindPair(left, right, ctx, b, unobserved);
      if found.Err? {
        return Err(found.error);
      }
      var (l, r') := found.value;
      r := Ok(if l.None? || r'.None? then Unknown
              else CompareScalars(ctx.doors, ctx.definition, op, l.value, left, r'.value, right));
    case Truthy(operand) =>
      var value := FindOperand(operand, ctx, b, unobserved);
      r := if value.Ok? then Ok(TruthOf(ctx.doors, value.value)) else Err(value.error);
    case All(children) => r := EvaluateConnective(children, ctx, b, Every, unobserved);
    case Any(children) => r := EvaluateConnective(children, ctx, b, AnyOne, unobserved);
    case Not(child) =>
      var t := EvaluateCondition(child, ctx, b, unobserved);
      r := if t.Ok? then Ok(t.value.Not()) else t;
    case ForAll(over, bind, body) => r := EvaluateQuantifier(over, bind, body, ctx, b, Every, unobserved);
    case ForAny(over, bind, body) => r := EvaluateQuantifier(over, bind, body, ctx, b, AnyOne, unobserved);
  }

  /** Both operands, always: the left one found missing must not hide the right one's address. */
  method FindPair(left: Json, right: Json, ctx: Context, b: Bindings, unobserved: Unobserved)
    returns (r: Result<(Option<Json>, Option<Json>), CoreError>)
    modifies unobserved
    ensures var (f, s) := (ResolveOperand(left, ctx, b), ResolveOperand(right, ctx, b));
            if f.Err? then r == Err(f.error)
            else if s.Err? then r == Err(s.error)
            else
              && r == Ok((f.value.0, s.value.0))
              && unobserved.addresses == old(unobserved.addresses) + (f.value.1 + s.value.1)
  {
    hide ResolveOperand;
    var l := FindOperand(left, ctx, b, unobserved);
    if l.Err? {
      return Err(l.error);
    }
    var s := FindOperand(right, ctx, b, unobserved);
    if s.Err? {
      return Err(s.error);
    }
    r := Ok((l.value, s.value));
  }

  lemma PairAnswers(op: PairOp, left: Json, right: Json, ctx: Context, b: Bindings)
    ensures Evaluate(Pair(op, left, right), ctx, b)
         == var f, s := ResolveOperand(left, ctx, b), ResolveOperand(right, ctx, b);
            if f.Err? then Err(f.error)
            else if s.Err? then Err(s.error)
            else if f.value.0.None? || s.value.0.None? then Ok((Unknown, f.value.1 + s.value.1))
            else
              var (t, w) := AnswerPair(ctx.doors, ctx.definition, op, f.value.0.value, left, s.value.0.value, right);
              Ok((t, f.value.1 + s.value.1 + w))
  {
    hide ResolveOperand, AnswerPair, EvaluateEach, Quantify;
  }

  method EvaluatePair(op: PairOp, left: Json, right: Json, ctx: Context, b: Bindings, unobserved: Unobserved)
    returns (r: Result<Truth, CoreError>)
    modifies unobserved
    ensures Reports(Evaluate(Pair(op, left, right), ctx, b), r, old(unobserved.addresses), unobserved.addresses)
  {
    hide ResolveOperand, AnswerPair, Evaluate;
    PairAnswers(op, left, right, ctx, b);
    var found := FindPair(left, right, ctx, b, unobserved);
    if found.Err? {
      return Err(found.error);
    }
    var (l, r') := found.value;
    if l.None? || r'.None? {
      return Ok(Unknown);
    }
    var (t, w) := AnswerPair(ctx.doors, ctx.definition, op, l.value, left, r'.value, right);
    unobserved.Record(w);
    r := Ok(t);
  }

  /** Every operand is evaluated, so that every missing address is named. */
  method EvaluateConnective(children: seq<Condition>, ctx: Context, b: Bindings, fold: Fold,
                            unobserved: Unobserved)
    returns (r: Result<Truth, CoreError>)
    modifies unobserved
    ensures Reports(EvaluateEach(children, ctx, b, fold), r, old(unobserved.addresses), unobserved.addresses)
    decreases children, 1, 0
  {
    hide Evaluate, Joined;
    var result := fold.Unit();
    ghost var before, u := unobserved.addresses, {};
    JoinedUnit(fold, EvaluateEach(children, ctx, b, fold));
    for i := 0 to |children|
      invariant unobserved.addresses == before + u
      invariant EvaluateEach(children, ctx, b, fold)
             == Joined(fold, result, u, EvaluateEach(children[i..], ctx, b, fold))
    {
      ghost var now, rest := unobserved.addresses, EvaluateEach(children[i + 1..], ctx, b, fold);
      EachStep(children[i..], ctx, b, fold);
      assert children[i..][0] == children[i] && children[i..][1..] == children[i + 1..];
      var t := EvaluateCondition(children[i], ctx, b, unobserved);
      if t.Err? {
        JoinedFails(fold, result, u, t.error);
        return t;
      }
      ghost var v := Evaluate(children[i], ctx, b).value.1;
      JoinedTwice(fold, result, u, t.value, v, rest);
      assert unobserved.addresses == before + (u + v);
      result := fold.Join(result, t.value);
      u := u + v;
    }
    assert children[|children|..] == [];
    JoinedEnd(fold, result, u);
    r := Ok(result);
  }

  lemma JoinedFails(fold: Fold, t: Truth, u: set<string>, e: CoreError)
    ensures Joined(fold, t, u, Err(e)) == Err(e)
  {
  }

  lemma EachStep(children: seq<Condition>, ctx: Context, b: Bindings, fold: Fold)
    requires children != []
    ensures EvaluateEach(children, ctx, b, fold)
         == Following(fold, Evaluate(children[0], ctx, b), EvaluateEach(children[1..], ctx, b, fold))
  {
    hide Evaluate;
  }

  lemma ElementStep(elements: seq<Json>, bind: string, declared: Option<Field>, body: Condition,
                    ctx: Context, b: Bindings, fold: Fold)
    requires elements != []
    ensures EvaluateElements(elements, bind, declared, body, ctx, b, fold)
         == var first := Evaluate(body, ctx, Binding(bind, elements[0], declared, b));
            if first.Ok? && fold.Settled(first.value.0) then first
            else Following(fold, first, EvaluateElements(elements[1..], bind, declared, body, ctx, b, fold))
  {
    hide Evaluate;
  }

  /** Element by element, left as soon as the fold is settled. */
  method EvaluateQuantifier(over: Json, bind: string, body: Condition, ctx: Context, b: Bindings,
                            fold: Fold, unobserved: Unobserved)
    returns (r: Result<Truth, CoreError>)
    modifies unobserved
    ensures Reports(Quantify(over, bind, body, ctx, b, fold), r,
                    old(unobserved.addresses), unobserved.addresses)
    decreases body, 2, 0
  {
    hide Evaluate, EvaluateElements, ElementDeclaration, ResolveOperand, Joined;
    var collection := FindOperand(over, ctx, b, unobserved);
    if collection.Err? {
      return Err(collection.error);
    }
    var elements := if collection.value.Some? then ElementsOf(collection.value.value) else None;
    if elements.None? {
      return Ok(Unknown);
    }
    var declared := ElementDeclaration(over, ctx, b);
    r := FoldElements(elements.value, bind, declared, body, ctx, b, fold, unobserved);
  }

  method FoldElements(elements: seq<Json>, bind: string, declared: Option<Field>, body: Condition,
                      ctx: Context, b: Bindings, fold: Fold, unobserved: Unobserved)
    returns (r: Result<Truth, CoreError>)
    modifies unobserved
    ensures Reports(EvaluateElements(elements, bind, declared, body, ctx, b, fold), r,
                    old(unobserved.addresses), unobserved.addresses)
    decreases body, 1, 0
  {
    hide Evaluate, EvaluateElements, Joined;
    ghost var before, u := unobserved.addresses, {};
    ghost var whole := EvaluateElements(elements, bind, declared, body, ctx, b, fold);
    var result := fold.Unit();
    JoinedUnit(fold, whole);
    for i := 0 to |elements|
      invariant unobserved.addresses == before + u && !fold.Settled(result)
      invariant whole == Joined(fold, result, u, EvaluateElements(elements[i..], bind, declared, body, ctx, b, fold))
    {
      ghost var rest := EvaluateElements(elements[i + 1..], bind, declared, body, ctx, b, fold);
      ElementStep(elements[i..], bind, declared, body, ctx, b, fold);
      assert elements[i..][0] == elements[i] && elements[i..][1..] == elements[i + 1..];
      var t := EvaluateCondition(body, ctx, Binding(bind, elements[i], declared, b), unobserved);
      if t.Err? {
        JoinedFails(fold, result, u, t.error);
        return t;
      }
      ghost var v := Evaluate(body, ctx, Binding(bind, elements[i], declared, b)).value.1;
      JoinedTwice(fold, result, u, t.value, v, rest);
      JoinedOk(fold, result, u, t.value, v);
      result := fold.Join(result, t.value);
      u := u + v;
      if fold.Settled(result) {
        return Ok(result);
      }
    }
    assert elements[|elements|..] == [];
    ElementsEnd(bind, declared, body, ctx, b, fold);
    JoinedEnd(fold, result, u);
    r := Ok(result);
  }

  lemma JoinedOk(fold: Fold, s: Truth, u: set<string>, t: Truth, v: set<string>)
    ensures Joined(fold, s, u, Ok((t, v))) == Ok((fold.Join(s, t), u + v))
    ensures !fold.Settled(s) ==> (fold.Settled(fold.Join(s, t)) <==> fold.Settled(t))
  {
  }

  lemma ElementsEnd(bind: string, declared: Option<Field>, body: Condition, ctx: Context, b: Bindings, fold: Fold)
    ensures EvaluateElements([], bind, declared, body, ctx, b, fold) == Ok((fold.Unit(), {}))
  {
  }

  // --- Before the subject is loaded ---------------------------------------------------------------

  type PartialAnswer = Result<(PartialTruth, set<string>), CoreError>

  function PartlyJoined(fold: Fold, t: PartialTruth, u: set<string>, rest: PartialAnswer): PartialAnswer {
    if rest.Err? then rest else Ok((JoinPartial(fold, t, rest.value.0), u + rest.value.1))
  }

  function PartlyFollowing(fold: Fold, first: PartialAnswer, rest: PartialAnswer): PartialAnswer {
    if first.Err? then first else PartlyJoined(fold, first.value.0, first.value.1, rest)
  }

  lemma PartlyJoinedTwice(fold: Fold, s: PartialTruth, u: set<string>, t: PartialTruth, v: set<string>,
                          rest: PartialAnswer)
    ensures PartlyJoined(fold, s, u, PartlyJoined(fold, t, v, rest))
         == PartlyJoined(fold, JoinPartial(fold, s, t), u + v, rest)
  {
    if rest.Ok? {
      assert u + (v + rest.value.1) == u + v + rest.value.1;
    }
  }

  lemma PartlyJoinedEnds(fold: Fold, t: PartialTruth, u: set<string>, rest: PartialAnswer, e: CoreError)
    ensures PartlyJoined(fold, Known(fold.Unit()), {}, rest) == rest
    ensures PartlyJoined(fold, t, u, Ok((Known(fold.Unit()), {}))) == Ok((t, u))
    ensures PartlyJoined(fold, t, u, Err(e)) == Err(e)
  {
    if rest.Ok? {
      assert {} + rest.value.1 == rest.value.1;
    }
    assert u + {} == u;
  }

  ghost predicate PartlyReports(answer: PartialAnswer, r: Result<PartialTruth, CoreError>, before: set<string>,
                                after: set<string>)
  {
    if answer.Err? then r == Err(answer.error)
    else r == Ok(answer.value.0) && after == before + answer.value.1
  }

  method EvaluateBeforeLoad(c: Condition, ctx: Context, b: Bindings, unobserved: Unobserved)
    returns (r: Result<PartialTruth, CoreError>)
    modifies unobserved
    ensures PartlyReports(EvaluateEarly(c, ctx, b), r, old(unobserved.addresses), unobserved.addresses)
    decreases c, 0, 0
  {
    hide Evaluate, LeafNeedsSubject, EarlyEach, QuantifyEarly;
    match c
    case All(children) => r := ConnectBeforeLoad(children, ctx, b, Every, unobserved);
    case Any(children) => r := ConnectBeforeLoad(children, ctx, b, AnyOne, unobserved);
    case Not(child) =>
      var t := EvaluateBeforeLoad(child, ctx, b, unobserved);
      r := if t.Ok? then Ok(t.value.Not()) else t;
    case ForAll(over, bind, body) => r := QuantifyBeforeLoad(over, bind, body, ctx, b, Every, unobserved);
    case ForAny(over, bind, body) => r := QuantifyBeforeLoad(over, bind, body, ctx, b, AnyOne, unobserved);
    case _ =>
      if LeafNeedsSubject(c, b) {
        return Ok(NeedsSubject);
      }
      var t := EvaluateCondition(c, ctx, b, unobserved);
      r := if t.Ok? then Ok(Known(t.value)) else Err(t.error);
  }

  lemma EarlyEachStep(children: seq<Condition>, ctx: Context, b: Bindings, fold: Fold)
    requires children != []
    ensures EarlyEach(children, ctx, b, fold)
         == PartlyFollowing(fold, EvaluateEarly(children[0], ctx, b), EarlyEach(children[1..], ctx, b, fold))
  {
    hide EvaluateEarly;
  }

  method ConnectBeforeLoad(children: seq<Condition>, ctx: Context, b: Bindings, fold: Fold, unobserved: Unobserved)
    returns (r: Result<PartialTruth, CoreError>)
    modifies unobserved
    ensures PartlyReports(EarlyEach(children, ctx, b, fold), r, old(unobserved.addresses), unobserved.addresses)
    decreases children, 1, 0
  {
    hide EvaluateEarly, PartlyJoined;
    var result := Known(fold.Unit());
    ghost var before, u := unobserved.addresses, {};
    ghost var whole := EarlyEach(children, ctx, b, fold);
    PartlyJoinedEnds(fold, result, u, whole, TemplateError);
    for i := 0 to |children|
      invariant unobserved.addresses == before + u
      invariant whole == PartlyJoined(fold, result, u, EarlyEach(children[i..], ctx, b, fold))
    {
      ghost var rest := EarlyEach(children[i + 1..], ctx, b, fold);
      EarlyEachStep(children[i..], ctx, b, fold);
      assert children[i..][0] == children[i] && children[i..][1..] == children[i + 1..];
      var t := EvaluateBeforeLoad(children[i], ctx, b, unobserved);
      if t.Err? {
        PartlyJoinedEnds(fold, result, u, whole, t.error);
        return t;
      }
      ghost var v := EvaluateEarly(children[i], ctx, b).value.1;
      PartlyJoinedTwice(fold, result, u, t.value, v, rest);
      assert unobserved.addresses == before + (u + v);
      result := JoinPartial(fold, result, t.value);
      u := u + v;
    }
    assert children[|children|..] == [];
    PartlyJoinedEnds(fold, result, u, whole, TemplateError);
    r := Ok(result);
  }

  method QuantifyBeforeLoad(over: Json, bind: string, body: Condition, ctx: Context, b: Bindings, fold: Fold,
                            unobserved: Unobserved)
    returns (r: Result<PartialTruth, CoreError>)
    modifies unobserved
    ensures PartlyReports(QuantifyEarly(over, bind, body, ctx, b, fold), r,
                          old(unobserved.addresses), unobserved.addresses)
    decreases body, 2, 0
  {
    hide EvaluateEarly, EarlyElements, ElementDeclaration, ResolveOperand, ValueNeedsSubject;
    if ValueNeedsSubject(over, b) {
      return Ok(NeedsSubject);
    }
    var collection := FindOperand(over, ctx, b, unobserved);
    if collection.Err? {
      return Err(collection.error);
    }
    var elements := if collection.value.Some? then ElementsOf(collection.value.value) else None;
    if elements.None? {
      return Ok(Known(Unknown));
    }
    var declared := ElementDeclaration(over, ctx, b);
    r := FoldBeforeLoad(elements.value, bind, declared, body, ctx, b, fold, unobserved);
  }

  lemma EarlyElementStep(elements: seq<Json>, bind: string, declared: Option<Field>, body: Condition,
                         ctx: Context, b: Bindings, fold: Fold)
    requires elements != []
    ensures EarlyElements(elements, bind, declared, body, ctx, b, fold)
         == PartlyFollowing(fold, EvaluateEarly(body, ctx, Binding(bind, elements[0], declared, b)),
                            EarlyElements(elements[1..], bind, declared, body, ctx, b, fold))
  {
    hide EvaluateEarly;
  }

  /** Every element is looked at: nothing leaves this loop early. */
  method FoldBeforeLoad(elements: seq<Json>, bind: string, declared: Option<Field>, body: Condition,
                        ctx: Context, b: Bindings, fold: Fold, unobserved: Unobserved)
    returns (r: Result<PartialTruth, CoreError>)
    modifies unobserved
    ensures PartlyReports(EarlyElements(elements, bind, declared, body, ctx, b, fold), r,
                          old(unobserved.addresses), unobserved.addresses)
    decreases body, 1, 0
  {
    hide EvaluateEarly, PartlyJoined;
    var result := Known(fold.Unit());
    ghost var before, u := unobserved.addresses, {};
    ghost var whole := EarlyElements(elements, bind, declared, body, ctx, b, fold);
    PartlyJoinedEnds(fold, result, u, whole, TemplateError);
    for i := 0 to |elements|
      invariant unobserved.addresses == before + u
      invariant whole == PartlyJoined(fold, result, u, EarlyElements(elements[i..], bind, declared, body, ctx, b, fold))
    {
      ghost var rest := EarlyElements(elements[i + 1..], bind, declared, body, ctx, b, fold);
      EarlyElementStep(elements[i..], bind, declared, body, ctx, b, fold);
      assert elements[i..][0] == elements[i] && elements[i..][1..] == elements[i + 1..];
      var t := EvaluateBeforeLoad(body, ctx, Binding(bind, elements[i], declared, b), unobserved);
      if t.Err? {
        PartlyJoinedEnds(fold, result, u, whole, t.error);
        return t;
      }
      ghost var v := EvaluateEarly(body, ctx, Binding(bind, elements[i], declared, b)).value.1;
      PartlyJoinedTwice(fold, result, u, t.value, v, rest);
      assert unobserved.addresses == before + (u + v);
      result := JoinPartial(fold, result, t.value);
      u := u + v;
    }
    assert elements[|elements|..] == [];
    PartlyJoinedEnds(fold, result, u, whole, TemplateError);
    r := Ok(result);
  }

  // --- What stopping early costs ------------------------------------------------------------------

  /** The Kleene fold over every element, with nothing skipped. */
  function FoldAll(truths: seq<Truth>, fold: Fold): Truth {
    if truths == [] then fold.Unit() else fold.Join(truths[0], FoldAll(truths[1..], fold))
  }

  /** Stopping as soon as the fold is settled gives the truth the whole fold gives. */
  lemma {:induction false} BreakKeepsTruth(elements: seq<Json>, bind: string, declared: Option<Field>,
                                           body: Condition, ctx: Context, b: Bindings, fold: Fold)
    requires forall i | 0 <= i < |elements| ::
               Evaluate(body, ctx, Binding(bind, elements[i], declared, b)).Ok?
    ensures EvaluateElements(elements, bind, declared, body, ctx, b, fold).Ok?
    ensures EvaluateElements(elements, bind, declared, body, ctx, b, fold).value.0
         == FoldAll(seq(|elements|, i requires 0 <= i < |elements| =>
                      Evaluate(body, ctx, Binding(bind, elements[i], declared, b)).value.0), fold)
  {
    hide Evaluate;
    var truths := seq(|elements|, i requires 0 <= i < |elements| =>
                    Evaluate(body, ctx, Binding(bind, elements[i], declared, b)).value.0);
    if elements != [] {
      var rest := elements[1..];
      assert forall i | 0 <= i < |rest| :: rest[i] == elements[i + 1];
      BreakKeepsTruth(rest, bind, declared, body, ctx, b, fold);
      assert truths[1..] == seq(|rest|, i requires 0 <= i < |rest| =>
                              Evaluate(body, ctx, Binding(bind, rest[i], declared, b)).value.0);
      if fold.Settled(truths[0]) {
        SettledIsFinal(fold, truths[0], FoldAll(truths[1..], fold));
      }
    }
  }

  /** So a quantifier's truth does not depend on the order its elements are walked in. */
  lemma {:induction false} FoldByMembership(truths: seq<Truth>, fold: Fold)
    ensures FoldAll(truths, fold)
         == if fold.Every? then (if False in truths then False else if Unknown in truths then Unknown else True)
            else (if True in truths then True else if Unknown in truths then Unknown else False)
  {
    if truths != [] {
      FoldByMembership(truths[1..], fold);
      assert truths == [truths[0]] + truths[1..];
    }
  }
}
