/** An unobservable answer names what would have to be observed. */
module Actionable {
  import opened Prelude
  import opened Truth
  import opened Definition
  import opened Paths
  import opened Reading
  import opened Keys
  import opened Early
  import opened Evaluator
  import opened Scopes
  import Number
  import Timestamp

  lemma MissingIsNamed(value: Json, ctx: Context, b: Bindings)
    requires ResolveOperand(value, ctx, b).Ok? && ResolveOperand(value, ctx, b).value.0.None?
    ensures ResolveOperand(value, ctx, b).value.1 != {}
  {
    hide Resolve;
    match value
    case Str(s) =>
      if IsReference(s) {
        assert s in ResolveOperand(value, ctx, b).value.1;
      }
    case Arr(elements) => MissingElementIsNamed(elements, ctx, b);
    case Obj(members) =>
      var parts := map k | k in members :: ResolveOperand(members[k], ctx, b);
      var k :| k in parts && parts[k].value.0.None?;
      assert parts[k].Ok?;
      MissingIsNamed(members[k], ctx, b);
      var a :| a in parts[k].value.1;
      assert a in ResolveOperand(value, ctx, b).value.1;
    case _ =>
  }

  lemma MissingElementIsNamed(values: seq<Json>, ctx: Context, b: Bindings)
    requires ResolveOperands(values, ctx, b).Ok? && ResolveOperands(values, ctx, b).value.0.None?
    ensures ResolveOperands(values, ctx, b).value.1 != {}
  {
    if ResolveOperand(values[0], ctx, b).value.0.None? {
      MissingIsNamed(values[0], ctx, b);
    } else {
      MissingElementIsNamed(values[1..], ctx, b);
    }
  }

  lemma FoundNamesNothing(value: Json, ctx: Context, b: Bindings)
    requires ResolveOperand(value, ctx, b).Ok? && ResolveOperand(value, ctx, b).value.0.Some?
    ensures ResolveOperand(value, ctx, b).value.1 == {}
  {
    hide Resolve;
    match value
    case Arr(elements) => FoundElementsNameNothing(elements, ctx, b);
    case Obj(members) =>
      var parts := map k | k in members :: ResolveOperand(members[k], ctx, b);
      forall k | k in parts
        ensures parts[k].Ok? && parts[k].value.1 == {}
      {
        assert parts[k].Ok? && parts[k].value.0.Some?;
        FoundNamesNothing(members[k], ctx, b);
      }
    case _ =>
  }

  lemma FoundElementsNameNothing(values: seq<Json>, ctx: Context, b: Bindings)
    requires ResolveOperands(values, ctx, b).Ok? && ResolveOperands(values, ctx, b).value.0.Some?
    ensures ResolveOperands(values, ctx, b).value.1 == {}
  {
    if values != [] {
      FoundNamesNothing(values[0], ctx, b);
      FoundElementsNameNothing(values[1..], ctx, b);
    }
  }

  /** An operand names an address exactly when it resolves to nothing. */
  lemma NamedIffMissing(value: Json, ctx: Context, b: Bindings)
    requires ResolveOperand(value, ctx, b).Ok?
    ensures ResolveOperand(value, ctx, b).value.0.None? <==> ResolveOperand(value, ctx, b).value.1 != {}
  {
    hide ResolveOperand;
    if ResolveOperand(value, ctx, b).value.0.None? {
      MissingIsNamed(value, ctx, b);
    } else {
      FoundNamesNothing(value, ctx, b);
    }
  }

  // --- Instants -----------------------------------------------------------------------------------

  /** A literal instant registration admits is readable, so an unread one was referenced. */
  lemma UnreadIsNamed(written: Json, scope: Scope, ctx: Context, b: Bindings)
    requires InstantAccepted(written, scope) && ResolveOperand(written, ctx, b).Ok?
    requires ResolveOperand(written, ctx, b).value.0.Some?
    requires InstantOf(ResolveOperand(written, ctx, b).value.0.value).None?
    ensures Unread(ResolveOperand(written, ctx, b).value.0.value, written) != {}
  {
    hide Timestamp.Parse, Resolve;
    assert written.text in Unread(ResolveOperand(written, ctx, b).value.0.value, written);
  }

  lemma UnreadInstant(op: PairOp, left: Json, right: Json, scope: Scope, ctx: Context, b: Bindings)
    requires op.Before? || op.After?
    requires PairAccepted(op, left, scope) && PairAccepted(op, right, scope)
    requires Evaluate(Pair(op, left, right), ctx, b).Ok?
    requires Evaluate(Pair(op, left, right), ctx, b).value.0.Unknown?
    ensures Evaluate(Pair(op, left, right), ctx, b).value.1 != {}
  {
    hide ResolveOperand, InstantAccepted, InstantOf, Unread, EqualUnder, HasElement;
    var l, r := ResolveOperand(left, ctx, b), ResolveOperand(right, ctx, b);
    if l.value.0.None? {
      MissingIsNamed(left, ctx, b);
    } else if r.value.0.None? {
      MissingIsNamed(right, ctx, b);
    } else if InstantOf(l.value.0.value).None? {
      UnreadIsNamed(left, scope, ctx, b);
    } else {
      UnreadIsNamed(right, scope, ctx, b);
    }
  }

  lemma UnknownPair(op: PairOp, left: Json, right: Json, scope: Scope, ctx: Context, b: Bindings)
    requires PairAccepted(op, left, scope) && PairAccepted(op, right, scope)
    requires Evaluate(Pair(op, left, right), ctx, b).Ok?
    requires Evaluate(Pair(op, left, right), ctx, b).value.0.Unknown?
    ensures Evaluate(Pair(op, left, right), ctx, b).value.1 != {}
  {
    hide ResolveOperand, AnswerInstants, AnswerNumbers, EqualUnder, HasElement, PairAccepted, HasText;
    if op.Before? || op.After? {
      UnreadInstant(op, left, right, scope, ctx, b);
    } else if ResolveOperand(left, ctx, b).value.0.None? {
      MissingIsNamed(left, ctx, b);
    } else if ResolveOperand(right, ctx, b).value.0.None? {
      MissingIsNamed(right, ctx, b);
    } else {
      AnswersAreBooleans(op, ctx, ResolveOperand(left, ctx, b).value.0.value, left,
                         ResolveOperand(right, ctx, b).value.0.value, right);
    }
  }

  lemma AnswersAreBooleans(op: PairOp, ctx: Context, left: Json, l: Json, right: Json, r: Json)
    requires !op.Before? && !op.After?
    ensures !AnswerPair(ctx.doors, ctx.definition, op, left, l, right, r).0.Unknown?
  {
    hide EqualUnder, HasElement, HasText, Number.Order;
  }

  // --- Which leaves say nothing -------------------------------------------------------------------

  /** A value the source has no truth for: neither a boolean, a text nor a number it can observe. */
  predicate Unspoken(doors: Doors, value: Json) {
    match value
    case Bool(_) => false
    case Str(_) => false
    case Num(n) => OfNumber(doors, n).None?
    case _ => true
  }

  /** Two values `compare` cannot put in question: a number that cannot be observed, two texts no scale
      orders, something without a scalar spelling, or an order asked across or where there is none. */
  predicate Incomparable(doors: Doors, definition: Definition, op: CompareOp, left: Json, l: Json, right: Json,
                         r: Json)
  {
    if left.Num? && right.Num? then
      Observe(doors, left.number, Some(l)).None? || Observe(doors, right.number, Some(r)).None?
    else if left.Str? && right.Str? then
      op.IsOrdering() && ScaleOrder(definition.scales, left.text, right.text).None?
    else !Scalar(left) || !Scalar(right) || op.IsOrdering()
  }

  /** A leaf whose operands are all there and still cannot be answered. */
  predicate SilentLeaf(c: Condition, ctx: Context, b: Bindings) {
    match c
    case Truthy(operand) =>
      var value := ResolveOperand(operand, ctx, b);
      value.Ok? && value.value.0.Some? && Unspoken(ctx.doors, value.value.0.value)
    case Compare(left, op, right) =>
      var (l, r) := (ResolveOperand(left, ctx, b), ResolveOperand(right, ctx, b));
      && l.Ok? && r.Ok? && l.value.0.Some? && r.value.0.Some?
      && Incomparable(ctx.doors, ctx.definition, op, l.value.0.value, left, r.value.0.value, right)
    case _ => false
  }

  lemma TruthIsSpoken(doors: Doors, value: Json)
    ensures TruthOf(doors, Some(value)).Unknown? <==> Unspoken(doors, value)
  {
    hide OfNumber;
  }

  lemma ComparedUnlessIncomparable(doors: Doors, definition: Definition, op: CompareOp, left: Json, l: Json,
                                   right: Json, r: Json)
    ensures CompareScalars(doors, definition, op, left, l, right, r).Unknown?
       <==> Incomparable(doors, definition, op, left, l, right, r)
  {
    hide Observe, ScaleOrder, KeyOrder, Reading.CompareTo;
  }

  /** An accepted leaf answers `Unknown` and names nothing exactly when it is silent. */
  lemma SilentLeavesNameNothing(c: Condition, scope: Scope, ctx: Context, b: Bindings)
    requires IsLeaf(c) && ConditionAccepted(c, scope) && Evaluate(c, ctx, b).Ok?
    ensures Evaluate(c, ctx, b) == Ok((Unknown, {})) <==> SilentLeaf(c, ctx, b)
  {
    hide ResolveOperand, AnswerPair, CompareScalars, TruthOf, PairAccepted, OperandAccepted, Incomparable, Unspoken;
    match c
    case Pair(op, left, right) =>
      if Evaluate(c, ctx, b).value.0.Unknown? {
        UnknownPair(op, left, right, scope, ctx, b);
      }
    case Compare(left, op, right) => SilentComparison(left, op, right, ctx, b);
    case Truthy(operand) => SilentTruth(operand, ctx, b);
    case _ =>
  }

  lemma SilentComparison(left: Json, op: CompareOp, right: Json, ctx: Context, b: Bindings)
    requires Evaluate(Compare(left, op, right), ctx, b).Ok?
    ensures Evaluate(Compare(left, op, right), ctx, b) == Ok((Unknown, {}))
       <==> SilentLeaf(Compare(left, op, right), ctx, b)
  {
    hide ResolveOperand, CompareScalars, Incomparable, AnswerPair;
    var l, r := ResolveOperand(left, ctx, b), ResolveOperand(right, ctx, b);
    NamedIffMissing(left, ctx, b);
    NamedIffMissing(right, ctx, b);
    assert l.value.1 + r.value.1 == {} <==> l.value.1 == {} && r.value.1 == {} by {
      assert l.value.1 <= l.value.1 + r.value.1 && r.value.1 <= l.value.1 + r.value.1;
    }
    if l.value.0.Some? && r.value.0.Some? {
      ComparedUnlessIncomparable(ctx.doors, ctx.definition, op, l.value.0.value, left, r.value.0.value, right);
    }
  }

  lemma SilentTruth(operand: Json, ctx: Context, b: Bindings)
    requires Evaluate(Truthy(operand), ctx, b).Ok?
    ensures Evaluate(Truthy(operand), ctx, b) == Ok((Unknown, {})) <==> SilentLeaf(Truthy(operand), ctx, b)
  {
    hide ResolveOperand, TruthOf, Unspoken, AnswerPair, CompareScalars;
    var value := ResolveOperand(operand, ctx, b);
    NamedIffMissing(operand, ctx, b);
    if value.value.0.Some? {
      TruthIsSpoken(ctx.doors, value.value.0.value);
    }
  }

  // --- Which conditions always say something ------------------------------------------------------

  /** No leaf this evaluation reaches is silent, and every quantifier it reaches walks a collection or
      finds nothing at its address. */
  predicate Speaks(c: Condition, ctx: Context, b: Bindings)
    decreases c, 0, 0
  {
    match c
    case All(children) => EachSpeaks(children, ctx, b)
    case Any(children) => EachSpeaks(children, ctx, b)
    case Not(child) => Speaks(child, ctx, b)
    case ForAll(over, bind, body) => QuantifierSpeaks(over, bind, body, ctx, b)
    case ForAny(over, bind, body) => QuantifierSpeaks(over, bind, body, ctx, b)
    case _ => !SilentLeaf(c, ctx, b)
  }

  predicate EachSpeaks(children: seq<Condition>, ctx: Context, b: Bindings)
    decreases children, 0, 0
  {
    children != [] ==> Speaks(children[0], ctx, b) && EachSpeaks(children[1..], ctx, b)
  }

  predicate QuantifierSpeaks(over: Json, bind: string, body: Condition, ctx: Context, b: Bindings)
    decreases body, 2, 0
  {
    var walked := ResolveOperand(over, ctx, b);
    walked.Ok? && walked.value.0.Some? ==>
      && ElementsOf(walked.value.0.value).Some?
      && ElementsSpeak(ElementsOf(walked.value.0.value).value, bind, ElementDeclaration(over, ctx, b), body, ctx, b)
  }

  predicate ElementsSpeak(elements: seq<Json>, bind: string, declared: Option<Field>, body: Condition,
                          ctx: Context, b: Bindings)
    decreases body, 1, |elements|
  {
    elements != [] ==>
      && Speaks(body, ctx, Binding(bind, elements[0], declared, b))
      && ElementsSpeak(elements[1..], bind, declared, body, ctx, b)
  }

  /** Under any semantics, an accepted condition that speaks and answers `Unknown` leaves at least one
      address to observe. */
  lemma {:induction false} SpeakingIsActionable(c: Condition, scope: Scope, ctx: Context, b: Bindings)
    requires ConditionAccepted(c, scope) && Speaks(c, ctx, b)
    requires Evaluate(c, ctx, b).Ok? && Evaluate(c, ctx, b).value.0.Unknown?
    ensures Evaluate(c, ctx, b).value.1 != {}
    decreases c, 0, 0
  {
    hide ResolveOperand, AnswerPair, CompareScalars, TruthOf, PairAccepted, OperandAccepted, SilentLeaf,
         CollectionElement;
    match c
    case All(children) => SomeSpeakingIsActionable(children, scope, ctx, b, Every);
    case Any(children) => SomeSpeakingIsActionable(children, scope, ctx, b, AnyOne);
    case Not(child) => SpeakingIsActionable(child, scope, ctx, b);
    case ForAll(over, bind, body) => SpeakingQuantifier(over, bind, body, scope, ctx, b, Every);
    case ForAny(over, bind, body) => SpeakingQuantifier(over, bind, body, scope, ctx, b, AnyOne);
    case _ => SilentLeavesNameNothing(c, scope, ctx, b);
  }

  lemma {:induction false} SomeSpeakingIsActionable(children: seq<Condition>, scope: Scope, ctx: Context,
                                                    b: Bindings, fold: Fold)
    requires EachAccepted(children, scope) && EachSpeaks(children, ctx, b)
    requires EvaluateEach(children, ctx, b, fold).Ok?
    requires EvaluateEach(children, ctx, b, fold).value.0.Unknown?
    ensures EvaluateEach(children, ctx, b, fold).value.1 != {}
    decreases children, 0, 0
  {
    hide Evaluate, ConditionAccepted, Speaks;
    if Evaluate(children[0], ctx, b).value.0.Unknown? {
      SpeakingIsActionable(children[0], scope, ctx, b);
    } else {
      SomeSpeakingIsActionable(children[1..], scope, ctx, b, fold);
    }
  }

  lemma {:induction false} SpeakingQuantifier(over: Json, bind: string, body: Condition, scope: Scope,
                                              ctx: Context, b: Bindings, fold: Fold)
    requires QuantifierAccepted(over, bind, body, scope) && QuantifierSpeaks(over, bind, body, ctx, b)
    requires Quantify(over, bind, body, ctx, b, fold).Ok?
    requires Quantify(over, bind, body, ctx, b, fold).value.0.Unknown?
    ensures Quantify(over, bind, body, ctx, b, fold).value.1 != {}
    decreases body, 2, 0
  {
    hide ResolveOperand, ElementsOf, EvaluateElements, ElementsSpeak, ElementDeclaration, CollectionElement,
         ConditionAccepted, OperandAccepted, BindAccepted;
    var walked := ResolveOperand(over, ctx, b);
    if walked.value.0.None? {
      MissingIsNamed(over, ctx, b);
    } else {
      var element := CollectionElement(over, scope.fields, scope.args, scope.names).value;
      SpeakingElements(ElementsOf(walked.value.0.value).value, bind, ElementDeclaration(over, ctx, b), body,
                       scope.(names := Name(bind, element, scope.names)), ctx, b, fold);
    }
  }

  lemma {:induction false} SpeakingElements(elements: seq<Json>, bind: string, declared: Option<Field>,
                                            body: Condition, scope: Scope, ctx: Context, b: Bindings, fold: Fold)
    requires ConditionAccepted(body, scope) && ElementsSpeak(elements, bind, declared, body, ctx, b)
    requires EvaluateElements(elements, bind, declared, body, ctx, b, fold).Ok?
    requires EvaluateElements(elements, bind, declared, body, ctx, b, fold).value.0.Unknown?
    ensures EvaluateElements(elements, bind, declared, body, ctx, b, fold).value.1 != {}
    decreases body, 1, |elements|
  {
    hide Evaluate, ConditionAccepted, Speaks;
    var inner := Binding(bind, elements[0], declared, b);
    if Evaluate(body, ctx, inner).value.0.Unknown? {
      SpeakingIsActionable(body, scope, ctx, inner);
    } else {
      SpeakingElements(elements[1..], bind, declared, body, scope, ctx, b, fold);
    }
  }

  lemma {:induction false} KernelSpeaks(c: Condition, scope: Scope, ctx: Context, b: Bindings)
    requires ConditionAccepted(c, scope) && scope.semantics.Kernel1?
    ensures Speaks(c, ctx, b)
    decreases c, 0
  {
    hide ResolveOperand, PairAccepted, OperandAccepted;
    match c
    case All(children) => EachKernelSpeaks(children, scope, ctx, b);
    case Any(children) => EachKernelSpeaks(children, scope, ctx, b);
    case Not(child) => KernelSpeaks(child, scope, ctx, b);
    case _ =>
  }

  lemma {:induction false} EachKernelSpeaks(children: seq<Condition>, scope: Scope, ctx: Context, b: Bindings)
    requires EachAccepted(children, scope) && scope.semantics.Kernel1?
    ensures EachSpeaks(children, ctx, b)
    decreases children, 0
  {
    hide ConditionAccepted, Speaks;
    if children != [] {
      KernelSpeaks(children[0], scope, ctx, b);
      EachKernelSpeaks(children[1..], scope, ctx, b);
    }
  }

  /** For every condition registration admits under `kernel/1`, an `Unknown` answer leaves at least
      one address to observe. */
  lemma UnknownIsActionable(c: Condition, scope: Scope, ctx: Context)
    requires ConditionAccepted(c, scope) && scope.semantics.Kernel1?
    requires Evaluate(c, ctx, NoBinding).Ok? && Evaluate(c, ctx, NoBinding).value.0.Unknown?
    ensures Evaluate(c, ctx, NoBinding).value.1 != {}
  {
    hide Evaluate, ConditionAccepted, Speaks;
    KernelSpeaks(c, scope, ctx, NoBinding);
    SpeakingIsActionable(c, scope, ctx, NoBinding);
  }

  /** The service rules give that up: asking whether a list is truthy is unanswerable and names
      nothing. */
  lemma ServiceUnknownMayNameNothing(scope: Scope, ctx: Context)
    requires scope.semantics.Service()
    ensures ConditionAccepted(Truthy(Arr([])), scope)
    ensures Evaluate(Truthy(Arr([])), ctx, NoBinding) == Ok((Unknown, {}))
  {
    assert ResolveOperands([], ctx, NoBinding) == Ok((Some([]), {}));
  }
}
