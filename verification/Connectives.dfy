/** What a condition's truth is in terms of the truths inside it. */
module Connectives {
  import opened Prelude
  import opened Keys
  import opened Truth
  import opened Definition
  import opened Reading
  import opened Evaluator
  import opened Folds
  import opened Paths
  import opened Positions
  import opened References

  /** Every answer, none of them a failure. */
  predicate AllAnswered(answers: seq<Answer>) {
    forall i | 0 <= i < |answers| :: answers[i].Ok?
  }

  predicate SomeIs(answers: seq<Answer>, t: Truth) {
    exists i :: 0 <= i < |answers| && answers[i].Ok? && answers[i].value.0 == t
  }

  /** `all` is false when one is, `any` true when one is; short of that one unknown makes them unknown. */
  predicate Folded(fold: Fold, answers: seq<Answer>, t: Truth) {
    match fold
    case Every => t == if SomeIs(answers, False) then False else if SomeIs(answers, Unknown) then Unknown else True
    case AnyOne => t == if SomeIs(answers, True) then True else if SomeIs(answers, Unknown) then Unknown else False
  }

  predicate SomeListed(answers: seq<Answer>, address: string) {
    exists i :: 0 <= i < |answers| && answers[i].Ok? && address in answers[i].value.1
  }

  function AnswersOf(children: seq<Condition>, ctx: Context, b: Bindings): (answers: seq<Answer>)
    ensures |answers| == |children|
    ensures forall i | 0 <= i < |children| :: answers[i] == Evaluate(children[i], ctx, b)
  {
    seq(|children|, i requires 0 <= i < |children| => Evaluate(children[i], ctx, b))
  }

  lemma SomeSplits(answers: seq<Answer>, t: Truth)
    requires answers != []
    ensures SomeIs(answers, t) <==> (answers[0].Ok? && answers[0].value.0 == t) || SomeIs(answers[1..], t)
  {
    assert forall i | 0 < i < |answers| :: answers[i] == answers[1..][i - 1];
    assert forall i | 0 <= i < |answers| - 1 :: answers[1..][i] == answers[i + 1];
  }

  lemma ListedSplits(answers: seq<Answer>, address: string)
    requires answers != []
    ensures SomeListed(answers, address)
       <==> (answers[0].Ok? && address in answers[0].value.1) || SomeListed(answers[1..], address)
  {
    assert forall i | 0 < i < |answers| :: answers[i] == answers[1..][i - 1];
    assert forall i | 0 <= i < |answers| - 1 :: answers[1..][i] == answers[i + 1];
  }

  /** A connective is answered exactly when every part is, with the folded truth and every part's addresses. */
  lemma {:induction false} ConnectiveMeans(children: seq<Condition>, ctx: Context, b: Bindings, fold: Fold)
    ensures EvaluateEach(children, ctx, b, fold).Ok? <==> AllAnswered(AnswersOf(children, ctx, b))
    ensures EvaluateEach(children, ctx, b, fold).Ok? ==>
              var (t, u) := EvaluateEach(children, ctx, b, fold).value;
              && Folded(fold, AnswersOf(children, ctx, b), t)
              && forall a :: (a in u <==> SomeListed(AnswersOf(children, ctx, b), a))
  {
    hide Evaluate;
    if children != [] {
      var answers, rest := AnswersOf(children, ctx, b), AnswersOf(children[1..], ctx, b);
      assert answers[1..] == rest;
      ConnectiveMeans(children[1..], ctx, b, fold);
      EachStep(children, ctx, b, fold);
      assert answers == [answers[0]] + rest;
      if answers[0].Ok? {
        FoldedOnto(fold, answers);
      }
      forall a
        ensures SomeListed(answers, a) <==> (answers[0].Ok? && a in answers[0].value.1) || SomeListed(rest, a)
      {
        ListedSplits(answers, a);
      }
    }
  }

  lemma FoldedOnto(fold: Fold, answers: seq<Answer>)
    requires answers != [] && answers[0].Ok?
    ensures forall t | Folded(fold, answers[1..], t) :: Folded(fold, answers, fold.Join(answers[0].value.0, t))
  {
    hide SomeIs;
    SomeSplits(answers, True);
    SomeSplits(answers, False);
    SomeSplits(answers, Unknown);
  }

  lemma AllMeans(children: seq<Condition>, ctx: Context, b: Bindings)
    requires AllAnswered(AnswersOf(children, ctx, b))
    ensures Evaluate(All(children), ctx, b).Ok? && Evaluate(Any(children), ctx, b).Ok?
    ensures Evaluate(All(children), ctx, b).value.0 == True
       <==> forall i | 0 <= i < |children| :: AnswersOf(children, ctx, b)[i].value.0 == True
    ensures Evaluate(All(children), ctx, b).value.0 == False <==> SomeIs(AnswersOf(children, ctx, b), False)
    ensures Evaluate(Any(children), ctx, b).value.0 == True <==> SomeIs(AnswersOf(children, ctx, b), True)
    ensures Evaluate(Any(children), ctx, b).value.0 == False
       <==> forall i | 0 <= i < |children| :: AnswersOf(children, ctx, b)[i].value.0 == False
  {
    hide EvaluateEach, AnswersOf, ResolveOperand, AnswerPair, CompareScalars, Quantify;
    ConnectiveMeans(children, ctx, b, Every);
    ConnectiveMeans(children, ctx, b, AnyOne);
    TruthsCover(AnswersOf(children, ctx, b));
  }

  lemma TruthsCover(answers: seq<Answer>)
    requires AllAnswered(answers)
    ensures (forall i | 0 <= i < |answers| :: answers[i].value.0 == True)
       <==> !SomeIs(answers, False) && !SomeIs(answers, Unknown)
    ensures (forall i | 0 <= i < |answers| :: answers[i].value.0 == False)
       <==> !SomeIs(answers, True) && !SomeIs(answers, Unknown)
  {
    forall i | 0 <= i < |answers|
      ensures answers[i].value.0 == True || answers[i].value.0 == False || answers[i].value.0 == Unknown
    {
    }
  }

  /** A negation is answered when its condition is: true for false, false for true, unknown for unknown. */
  lemma NotMeans(child: Condition, ctx: Context, b: Bindings)
    ensures var answer, negated := Evaluate(child, ctx, b), Evaluate(Not(child), ctx, b);
            if answer.Err? then negated == answer
            else
              && negated.Ok? && negated.value.1 == answer.value.1
              && (negated.value.0 == True <==> answer.value.0 == False)
              && (negated.value.0 == False <==> answer.value.0 == True)
  {
    hide EvaluateEach, ResolveOperand, AnswerPair, CompareScalars, Quantify;
  }

  /** Existence is always known: whether the operand observes a value, with nothing left to observe. */
  lemma ExistsMeans(operand: Json, ctx: Context, b: Bindings)
    requires ResolveOperand(operand, ctx, b).Ok?
    ensures Evaluate(Exists(operand), ctx, b)
         == Ok((if ResolveOperand(operand, ctx, b).value.0.Some? then True else False, {}))
  {
    hide EvaluateEach, ResolveOperand, AnswerPair, CompareScalars, Quantify;
  }

  /** A value's truth: a boolean's own, a number's whose binary64 is neither zero, any text but the empty one and
      `false`; nothing else has one. */
  lemma TruthyMeans(operand: Json, ctx: Context, b: Bindings)
    requires ResolveOperand(operand, ctx, b).Ok?
    ensures var (value, u) := ResolveOperand(operand, ctx, b).value;
            && Evaluate(Truthy(operand), ctx, b).Ok?
            && var (t, v) := Evaluate(Truthy(operand), ctx, b).value;
            && v == u
            && (t == True <==>
                  || value == Some(Bool(true))
                  || (value.Some? && value.value.Str? && value.value.text != "" && value.value.text != "false")
                  || (value.Some? && value.value.Num? && OfNumber(ctx.doors, value.value.number).Some?
                      && OfNumber(ctx.doors, value.value.number).value.rank !in {-1, 0}))
            && (t == False <==>
                  || value == Some(Bool(false)) || value == Some(Str("")) || value == Some(Str("false"))
                  || (value.Some? && value.value.Num? && OfNumber(ctx.doors, value.value.number).Some?
                      && OfNumber(ctx.doors, value.value.number).value.rank in {-1, 0}))
  {
    hide EvaluateEach, ResolveOperand, AnswerPair, CompareScalars, Quantify, OfNumber;
  }

  // --- Quantifiers --------------------------------------------------------------------------------

  /** What the body answers of each element. */
  function ElementAnswers(elements: seq<Json>, bind: string, declared: Option<Field>, body: Condition, ctx: Context,
                          b: Bindings): (answers: seq<Answer>)
    ensures |answers| == |elements|
    ensures forall i | 0 <= i < |elements| ::
              answers[i] == Evaluate(body, ctx, Binding(bind, elements[i], declared, b))
  {
    seq(|elements|, i requires 0 <= i < |elements| => Evaluate(body, ctx, Binding(bind, elements[i], declared, b)))
  }

  lemma {:induction false} ElementsMean(elements: seq<Json>, bind: string, declared: Option<Field>, body: Condition,
                                        ctx: Context, b: Bindings, fold: Fold)
    requires AllAnswered(ElementAnswers(elements, bind, declared, body, ctx, b))
    ensures EvaluateElements(elements, bind, declared, body, ctx, b, fold).Ok?
    ensures Folded(fold, ElementAnswers(elements, bind, declared, body, ctx, b),
                   EvaluateElements(elements, bind, declared, body, ctx, b, fold).value.0)
  {
    hide Evaluate;
    if elements != [] {
      var answers := ElementAnswers(elements, bind, declared, body, ctx, b);
      var rest := ElementAnswers(elements[1..], bind, declared, body, ctx, b);
      assert answers[1..] == rest;
      assert forall i | 0 <= i < |rest| :: rest[i] == answers[i + 1];
      ElementsMean(elements[1..], bind, declared, body, ctx, b, fold);
      ElementStep(elements, bind, declared, body, ctx, b, fold);
      FoldedOnto(fold, answers);
      var t := answers[0].value.0;
      if fold.Settled(t) {
        SettledIsFinal(fold, t, EvaluateElements(elements[1..], bind, declared, body, ctx, b, fold).value.0);
      }
    }
  }

  /** A quantifier over something observed asks its body of every element: `for_all` is true when each is and
      false when one is false, `for_any` true when one is and false when each is. Over nothing observed, or
      over no collection, it is unknown. */
  lemma QuantifierMeans(over: Json, bind: string, body: Condition, ctx: Context, b: Bindings, fold: Fold)
    requires ResolveOperand(over, ctx, b).Ok?
    ensures var found := ResolveOperand(over, ctx, b).value.0;
            if found.None? || !(found.value.Arr? || found.value.Obj?) then
              Quantify(over, bind, body, ctx, b, fold) == Ok((Unknown, ResolveOperand(over, ctx, b).value.1))
            else
              var elements := ElementsOf(found.value);
              && elements.Some?
              && var answers := ElementAnswers(elements.value, bind, ElementDeclaration(over, ctx, b), body, ctx, b);
              AllAnswered(answers) ==>
                && Quantify(over, bind, body, ctx, b, fold).Ok?
                && Folded(fold, answers, Quantify(over, bind, body, ctx, b, fold).value.0)
  {
    hide Evaluate, EvaluateElements, ElementDeclaration, ResolveOperand, ElementAnswers, AllAnswered, Folded, ElementsOf;
    var found := ResolveOperand(over, ctx, b).value.0;
    if found.Some? {
      HasElements(found.value);
    }
    if found.Some? && ElementsOf(found.value).Some? {
      var elements, declared := ElementsOf(found.value).value, ElementDeclaration(over, ctx, b);
      if AllAnswered(ElementAnswers(elements, bind, declared, body, ctx, b)) {
        ElementsMean(elements, bind, declared, body, ctx, b, fold);
      }
    }
  }

  lemma HasElements(value: Json)
    ensures ElementsOf(value).Some? <==> value.Arr? || value.Obj?
  {
    hide SortedValues;
  }

  lemma QuantifiersAre(over: Json, bind: string, body: Condition, ctx: Context, b: Bindings)
    ensures Evaluate(ForAll(over, bind, body), ctx, b) == Quantify(over, bind, body, ctx, b, Every)
    ensures Evaluate(ForAny(over, bind, body), ctx, b) == Quantify(over, bind, body, ctx, b, AnyOne)
  {
    hide EvaluateEach, ResolveOperand, AnswerPair, CompareScalars, Quantify;
  }

  /** The keys of a mapping, each once, in order. */
  ghost predicate OrderedKeys(members: Object, keys: seq<string>) {
    Ascending(keys) && forall k :: k in keys <==> k in members
  }

  /** The elements are a list's own, in order, or a mapping's values in the order of their keys. */
  lemma CollectionMeans(value: Json) returns (keys: seq<string>)
    ensures value.Arr? ==> ElementsOf(value) == Some(value.elements)
    ensures value.Obj? ==>
              && OrderedKeys(value.members, keys)
              && ElementsOf(value).Some? && |ElementsOf(value).value| == |keys|
              && forall i | 0 <= i < |keys| ::
                   keys[i] in value.members && ElementsOf(value).value[i] == value.members[keys[i]]
  {
    hide SortedKeys, SortedValues, Ascending, KeyOrder;
    keys := [];
    if value.Obj? {
      keys := SortedKeys(value.members.Keys);
      SortedAscend(value.members.Keys);
      ValuesInOrder(value.members);
      assert forall i | 0 <= i < |keys| :: keys[i] in keys;
    }
  }

  // --- Before loading -----------------------------------------------------------------------------

  predicate SomeEarly(answers: seq<PartialAnswer>, t: PartialTruth) {
    exists i :: 0 <= i < |answers| && answers[i].Ok? && answers[i].value.0 == t
  }

  /** What settles the fold settles it whatever waits for the subject; short of that one part that waits makes
      the whole wait. */
  predicate FoldedEarly(fold: Fold, answers: seq<PartialAnswer>, t: PartialTruth) {
    match fold
    case Every =>
      t == if SomeEarly(answers, Known(False)) then Known(False)
           else if SomeEarly(answers, NeedsSubject) then NeedsSubject
           else if SomeEarly(answers, Known(Unknown)) then Known(Unknown)
           else Known(True)
    case AnyOne =>
      t == if SomeEarly(answers, Known(True)) then Known(True)
           else if SomeEarly(answers, NeedsSubject) then NeedsSubject
           else if SomeEarly(answers, Known(Unknown)) then Known(Unknown)
           else Known(False)
  }

  lemma EarlySplits(answers: seq<PartialAnswer>, t: PartialTruth)
    requires answers != []
    ensures SomeEarly(answers, t) <==> (answers[0].Ok? && answers[0].value.0 == t) || SomeEarly(answers[1..], t)
  {
    assert forall i | 0 < i < |answers| :: answers[i] == answers[1..][i - 1];
    assert forall i | 0 <= i < |answers| - 1 :: answers[1..][i] == answers[i + 1];
  }

  lemma FoldedEarlyOnto(fold: Fold, answers: seq<PartialAnswer>)
    requires answers != [] && answers[0].Ok?
    ensures forall t | FoldedEarly(fold, answers[1..], t) ::
              FoldedEarly(fold, answers, JoinPartial(fold, answers[0].value.0, t))
  {
    hide SomeEarly;
    EarlySplits(answers, Known(True));
    EarlySplits(answers, Known(False));
    EarlySplits(answers, Known(Unknown));
    EarlySplits(answers, NeedsSubject);
  }

  function EarlyAnswersOf(children: seq<Condition>, ctx: Context, b: Bindings): (answers: seq<PartialAnswer>)
    ensures |answers| == |children|
    ensures forall i | 0 <= i < |children| :: answers[i] == EvaluateEarly(children[i], ctx, b)
  {
    seq(|children|, i requires 0 <= i < |children| => EvaluateEarly(children[i], ctx, b))
  }

  lemma {:induction false} EarlyConnectiveMeans(children: seq<Condition>, ctx: Context, b: Bindings, fold: Fold)
    requires forall i | 0 <= i < |children| :: EarlyAnswersOf(children, ctx, b)[i].Ok?
    ensures EarlyEach(children, ctx, b, fold).Ok?
    ensures FoldedEarly(fold, EarlyAnswersOf(children, ctx, b), EarlyEach(children, ctx, b, fold).value.0)
  {
    hide EvaluateEarly;
    if children != [] {
      var answers, rest := EarlyAnswersOf(children, ctx, b), EarlyAnswersOf(children[1..], ctx, b);
      assert answers[1..] == rest;
      assert forall i | 0 <= i < |rest| :: rest[i] == answers[i + 1];
      EarlyConnectiveMeans(children[1..], ctx, b, fold);
      EarlyEachStep(children, ctx, b, fold);
      FoldedEarlyOnto(fold, answers);
    }
  }

  function EarlyElementAnswers(elements: seq<Json>, bind: string, declared: Option<Field>, body: Condition, ctx: Context,
                               b: Bindings): (answers: seq<PartialAnswer>)
    ensures |answers| == |elements|
    ensures forall i | 0 <= i < |elements| ::
              answers[i] == EvaluateEarly(body, ctx, Binding(bind, elements[i], declared, b))
  {
    seq(|elements|, i requires 0 <= i < |elements| => EvaluateEarly(body, ctx, Binding(bind, elements[i], declared, b)))
  }

  lemma {:induction false} EarlyElementsMean(elements: seq<Json>, bind: string, declared: Option<Field>,
                                             body: Condition, ctx: Context, b: Bindings, fold: Fold)
    requires forall i | 0 <= i < |elements| :: EarlyElementAnswers(elements, bind, declared, body, ctx, b)[i].Ok?
    ensures EarlyElements(elements, bind, declared, body, ctx, b, fold).Ok?
    ensures FoldedEarly(fold, EarlyElementAnswers(elements, bind, declared, body, ctx, b),
                        EarlyElements(elements, bind, declared, body, ctx, b, fold).value.0)
  {
    hide EvaluateEarly;
    if elements != [] {
      var answers := EarlyElementAnswers(elements, bind, declared, body, ctx, b);
      var rest := EarlyElementAnswers(elements[1..], bind, declared, body, ctx, b);
      assert answers[1..] == rest;
      assert forall i | 0 <= i < |rest| :: rest[i] == answers[i + 1];
      EarlyElementsMean(elements[1..], bind, declared, body, ctx, b, fold);
      EarlyElementStep(elements, bind, declared, body, ctx, b, fold);
      FoldedEarlyOnto(fold, answers);
    }
  }

  /** A reference to what only the subject holds. */
  predicate ReadsSubject(s: string, b: Bindings) {
    IsReference(s) && Unbound(b, Head(s)) && Head(s) in {"fields", "old_fields", "from_state"}
  }

  /** An operand waits for the subject exactly when such a reference stands somewhere in it. */
  lemma {:induction false} WaitingMeans(value: Json, b: Bindings)
    ensures ValueNeedsSubject(value, b) <==> WaitsIn(value, b)
  {
    hide ReadsSubject, Head;
    if ValueNeedsSubject(value, b) {
      var place, s := WaitsThere(value, b);
    }
    forall place, s | At(value, place) == Some(Str(s)) && ReadsSubject(s, b)
      ensures ValueNeedsSubject(value, b)
    {
      ThereWaits(value, b, place, s);
    }
  }

  lemma {:induction false} WaitsThere(value: Json, b: Bindings) returns (place: Place, s: string)
    requires ValueNeedsSubject(value, b)
    ensures At(value, place) == Some(Str(s)) && ReadsSubject(s, b)
    decreases value
  {
    hide Head;
    match value
    case Str(text) =>
      place, s := [], text;
      BindsMeans(b, Head(text));
    case Arr(elements) =>
      var i :| 0 <= i < |elements| && ValueNeedsSubject(elements[i], b);
      var rest;
      rest, s := WaitsThere(elements[i], b);
      place := [Element(i)] + rest;
      AtBelow(value, Element(i), rest);
    case Obj(members) =>
      var k :| k in members && ValueNeedsSubject(members[k], b);
      var rest;
      rest, s := WaitsThere(members[k], b);
      place := [Member(k)] + rest;
      AtBelow(value, Member(k), rest);
    case _ =>
  }

  lemma {:induction false} ThereWaits(value: Json, b: Bindings, place: Place, s: string)
    requires At(value, place) == Some(Str(s)) && ReadsSubject(s, b)
    ensures ValueNeedsSubject(value, b)
    decreases |place|
  {
    hide Head;
    if place == [] {
      BindsMeans(b, Head(s));
    } else {
      var rest := place[1..];
      assert place == [place[0]] + rest;
      AtBelow(value, place[0], rest);
      ThereWaits(Below(value, place[0]).value, b, rest, s);
    }
  }

  /** Before loading a quantifier waits where its collection would read the subject; over nothing observed, or over
      no collection, it is unknown. */
  lemma EarlyQuantifierWaits(over: Json, bind: string, body: Condition, ctx: Context, b: Bindings, fold: Fold)
    requires ResolveOperand(over, ctx, b).Ok?
    ensures var found := ResolveOperand(over, ctx, b).value.0;
            var r := QuantifyEarly(over, bind, body, ctx, b, fold);
            && (WaitsIn(over, b) ==> r == Ok((NeedsSubject, {})))
            && (!WaitsIn(over, b) && (found.None? || !(found.value.Arr? || found.value.Obj?)) ==>
                  r == Ok((Known(Unknown), ResolveOperand(over, ctx, b).value.1)))
  {
    hide EvaluateEarly, EarlyElements, ElementDeclaration, ResolveOperand, ValueNeedsSubject, WaitsIn, ElementsOf;
    WaitingMeans(over, b);
    if ResolveOperand(over, ctx, b).value.0.Some? {
      HasElements(ResolveOperand(over, ctx, b).value.0.value);
    }
  }

  /** Over a collection that does not wait it asks every element. */
  lemma EarlyQuantifierMeans(over: Json, bind: string, body: Condition, ctx: Context, b: Bindings, fold: Fold,
                             elements: seq<Json>)
    requires ResolveOperand(over, ctx, b).Ok? && ResolveOperand(over, ctx, b).value.0.Some? && !WaitsIn(over, b)
    requires ElementsOf(ResolveOperand(over, ctx, b).value.0.value) == Some(elements)
    requires var answers := EarlyElementAnswers(elements, bind, ElementDeclaration(over, ctx, b), body, ctx, b);
             forall i | 0 <= i < |answers| :: answers[i].Ok?
    ensures QuantifyEarly(over, bind, body, ctx, b, fold).Ok?
    ensures FoldedEarly(fold, EarlyElementAnswers(elements, bind, ElementDeclaration(over, ctx, b), body, ctx, b),
                        QuantifyEarly(over, bind, body, ctx, b, fold).value.0)
  {
    hide EvaluateEarly, EarlyElements, ElementDeclaration, ResolveOperand, EarlyElementAnswers, FoldedEarly,
         ValueNeedsSubject, WaitsIn, ElementsOf;
    WaitingMeans(over, b);
    EarlyElementsMean(elements, bind, ElementDeclaration(over, ctx, b), body, ctx, b, fold);
  }

  lemma EarlyNotMeans(child: Condition, ctx: Context, b: Bindings)
    ensures var answer, negated := EvaluateEarly(child, ctx, b), EvaluateEarly(Not(child), ctx, b);
            if answer.Err? then negated == answer
            else
              && negated.Ok? && negated.value.1 == answer.value.1
              && (negated.value.0 == Known(True) <==> answer.value.0 == Known(False))
              && (negated.value.0 == Known(False) <==> answer.value.0 == Known(True))
              && (negated.value.0 == NeedsSubject <==> answer.value.0 == NeedsSubject)
  {
    hide Evaluate, LeafNeedsSubject, EarlyEach, QuantifyEarly;
  }

  /** Some reference in the operand reads the subject. */
  ghost predicate WaitsIn(value: Json, b: Bindings) {
    exists place, s :: At(value, place) == Some(Str(s)) && ReadsSubject(s, b)
  }

  /** A leaf waits for the subject exactly when some reference in its operands reads it; otherwise the leaf is
      answered as it will be after loading. */
  lemma EarlyLeafMeans(c: Condition, ctx: Context, b: Bindings)
    requires c.Exists? || c.Pair? || c.Compare? || c.Truthy? || c.Literal?
    ensures var waits := match c
                         case Exists(operand) => WaitsIn(operand, b)
                         case Truthy(operand) => WaitsIn(operand, b)
                         case Pair(_, left, right) => WaitsIn(left, b) || WaitsIn(right, b)
                         case Compare(left, _, right) => WaitsIn(left, b) || WaitsIn(right, b)
                         case _ => false;
            && (waits <==> EvaluateEarly(c, ctx, b) == Ok((NeedsSubject, {})))
            && (!waits ==>
                  if Evaluate(c, ctx, b).Err? then EvaluateEarly(c, ctx, b) == Err(Evaluate(c, ctx, b).error)
                  else EvaluateEarly(c, ctx, b)
                       == Ok((Known(Evaluate(c, ctx, b).value.0), Evaluate(c, ctx, b).value.1)))
  {
    hide Evaluate, ValueNeedsSubject, WaitsIn, EarlyEach, QuantifyEarly;
    match c
    case Exists(operand) => WaitingMeans(operand, b);
    case Truthy(operand) => WaitingMeans(operand, b);
    case Pair(_, left, right) =>
      WaitingMeans(left, b);
      WaitingMeans(right, b);
    case Compare(left, _, right) =>
      WaitingMeans(left, b);
      WaitingMeans(right, b);
    case _ =>
  }
}
