/** Which addresses a refusal lists before loading and after: where the lists part, and where they are
    one. */
module Lists {
  import opened Prelude
  import opened Keys
  import opened Truth
  import opened Definition
  import opened Reading
  import opened Paths
  import opened Evaluator
  import opened Scopes
  import opened Agreement
  import opened Early
  import opened Folds
  import opened Values
  import opened Runtime
  import opened Registration
  import opened Safety
  import opened EarlyAnswers

  // --- Where they part ----------------------------------------------------------------------------

  /** Holds at once on the left of its `any`, so only the second half waits for an argument. */
  function HalfKnown(): Condition {
    All([Any([Literal(true), Pair(Eq, Str("$fields.a"), Bool(true))]), Pair(Eq, Str("$args.b"), Bool(true))])
  }

  const OPEN: Schema := Schema(map[], true)

  function BeforeLoading(doors: Doors, definition: Definition): Context {
    Context(doors, definition, Some("x"), map[], Some(OPEN), map[], map[], None, "s")
  }

  function AfterLoading(doors: Doors, definition: Definition): Context {
    BeforeLoading(doors, definition).(fromState := Some("s"))
  }

  lemma DottedName(head: string, name: string)
    requires (forall i | 0 <= i < |head| :: head[i] != '.') && (forall i | 0 <= i < |name| :: name[i] != '.')
    ensures var s := "$" + head + "." + name;
            Head(s) == head && Tail(s) == Some([name]) && (head != [] && head[0] != '$' ==> IsReference(s))
  {
    var s := "$" + head + "." + name;
    assert s[1..] == head + ['.'] + name;
    SplitOnceAt(head, '.', name, IsDot());
    FirstIndexIsFirst(name, x => x == '.');
  }

  /** An address into an empty map is unobserved. */
  lemma NothingThere(doors: Doors, definition: Definition, ctx: Context, s: string, root: Root, name: string)
    requires IsReference(s) && ReferenceOf(s) == Reference(root, Some([name])) && HasMembers(root)
    requires ctx.args == map[] && ctx.newFields == map[] && ctx.oldFields == map[]
    ensures ResolveOperand(Str(s), ctx, NoBinding) == Ok((None, {s}))
  {
    hide Walk, IsReference, ReferenceOf;
    assert !IsEscaped(s) by {
      NotBoth(s);
    }
  }

  lemma NotBoth(s: string)
    requires IsReference(s)
    ensures !IsEscaped(s)
  {
  }

  lemma RootsNamed()
    ensures RootNamed("fields") == Some(FieldsRoot) && RootNamed("args") == Some(ArgsRoot)
  {
  }

  lemma BothReferences()
    ensures IsReference("$fields.a") && ReferenceOf("$fields.a") == Reference(FieldsRoot, Some(["a"]))
    ensures IsReference("$args.b") && ReferenceOf("$args.b") == Reference(ArgsRoot, Some(["b"]))
    ensures Head("$fields.a") == "fields" && Head("$args.b") == "args"
  {
    hide Head, Tail, IsReference, RootNamed;
    assert "$fields.a" == "$" + "fields" + "." + "a" && "$args.b" == "$" + "args" + "." + "b";
    RootsNamed();
    DottedName("fields", "a");
    DottedName("args", "b");
  }

  lemma UnansweredPair(ctx: Context, s: string)
    requires ResolveOperand(Str(s), ctx, NoBinding) == Ok((None, {s}))
    ensures Evaluate(Pair(Eq, Str(s), Bool(true)), ctx, NoBinding) == Ok((Unknown, {s}))
  {
    hide AnswerPair;
    assert ResolveOperand(Bool(true), ctx, NoBinding) == Ok((Some(Bool(true)), {}));
    assert {s} + {} == {s};
  }

  /** One registered selector and one subject: both evaluators cannot answer, the one before loading
      lists the argument, the one after lists the field as well. */
  lemma ListsMayDiffer(doors: Doors, definition: Definition)
    ensures ConditionAccepted(HalfKnown(), Scope(OutcomeSelector, OPEN, Some(OPEN), NoName, Service1))
    ensures AddsSubject(BeforeLoading(doors, definition), AfterLoading(doors, definition))
    ensures EvaluateEarly(HalfKnown(), BeforeLoading(doors, definition), NoBinding)
         == Ok((Known(Unknown), {"$args.b"}))
    ensures Evaluate(HalfKnown(), AfterLoading(doors, definition), NoBinding)
         == Ok((Unknown, {"$fields.a", "$args.b"}))
  {
    hide ResolveOperand, IsReference, ReferenceOf, Head;
    var early, full := BeforeLoading(doors, definition), AfterLoading(doors, definition);
    hide Evaluate, EvaluateEarly, ConditionAccepted;
    BothReferences();
    NothingThere(doors, definition, early, "$args.b", ArgsRoot, "b");
    NothingThere(doors, definition, full, "$args.b", ArgsRoot, "b");
    NothingThere(doors, definition, full, "$fields.a", FieldsRoot, "a");
    UnansweredPair(early, "$args.b");
    UnansweredPair(full, "$args.b");
    UnansweredPair(full, "$fields.a");
    HalfAccepted();
    HalfEarly(early);
    HalfFull(full);
  }

  lemma HalfAccepted()
    ensures ConditionAccepted(HalfKnown(), Scope(OutcomeSelector, OPEN, Some(OPEN), NoName, Service1))
  {
    hide ReferenceOf, Head, IsReference;
    BothReferences();
    var c := HalfKnown();
    var left := c.children[0];
    assert c.children[1..] == [c.children[1]] && c.children[1..][1..] == [];
    assert left.children[1..] == [left.children[1]] && left.children[1..][1..] == [];
  }

  lemma HalfEarly(early: Context)
    requires Evaluate(Pair(Eq, Str("$args.b"), Bool(true)), early, NoBinding) == Ok((Unknown, {"$args.b"}))
    ensures EvaluateEarly(HalfKnown(), early, NoBinding) == Ok((Known(Unknown), {"$args.b"}))
  {
    hide ReferenceOf, Head, IsReference, ResolveOperand, AnswerPair, CompareScalars, TruthOf, CollectionElement;
    BothReferences();
    var c := HalfKnown();
    var left, right := c.children[0], c.children[1];
    assert LeafNeedsSubject(left.children[1], NoBinding) && !LeafNeedsSubject(right, NoBinding);
    assert EvaluateEarly(left.children[1], early, NoBinding) == Ok((NeedsSubject, {}));
    assert EvaluateEarly(left.children[0], early, NoBinding) == Ok((Known(True), {}));
    EarlyPair(left.children[0], left.children[1], early, AnyOne);
    EarlyPair(left, right, early, Every);
    assert {} + {"$args.b"} == {"$args.b"};
  }

  lemma EarlyPair(a: Condition, b: Condition, ctx: Context, fold: Fold)
    requires EvaluateEarly(a, ctx, NoBinding).Ok? && EvaluateEarly(b, ctx, NoBinding).Ok?
    ensures var x, y := EvaluateEarly(a, ctx, NoBinding).value, EvaluateEarly(b, ctx, NoBinding).value;
            EarlyEach([a, b], ctx, NoBinding, fold) == Ok((JoinPartial(fold, x.0, y.0), x.1 + y.1))
  {
    hide EvaluateEarly;
    assert [a, b][1..] == [b] && [b][1..] == [];
    EarlyEachStep([a, b], ctx, NoBinding, fold);
    EarlyEachStep([b], ctx, NoBinding, fold);
    var y := EvaluateEarly(b, ctx, NoBinding).value;
    PartlyJoinedEnds(fold, y.0, y.1, EvaluateEarly(b, ctx, NoBinding), TemplateError);
  }

  lemma FullPair(a: Condition, b: Condition, ctx: Context, fold: Fold)
    requires Evaluate(a, ctx, NoBinding).Ok? && Evaluate(b, ctx, NoBinding).Ok?
    ensures var x, y := Evaluate(a, ctx, NoBinding).value, Evaluate(b, ctx, NoBinding).value;
            EvaluateEach([a, b], ctx, NoBinding, fold) == Ok((fold.Join(x.0, y.0), x.1 + y.1))
  {
    hide Evaluate;
    assert [a, b][1..] == [b] && [b][1..] == [];
    EachStep([a, b], ctx, NoBinding, fold);
    EachStep([b], ctx, NoBinding, fold);
    var y := Evaluate(b, ctx, NoBinding).value;
    JoinedEnd(fold, y.0, y.1);
  }

  lemma HalfFull(full: Context)
    requires Evaluate(Pair(Eq, Str("$args.b"), Bool(true)), full, NoBinding) == Ok((Unknown, {"$args.b"}))
    requires Evaluate(Pair(Eq, Str("$fields.a"), Bool(true)), full, NoBinding) == Ok((Unknown, {"$fields.a"}))
    ensures Evaluate(HalfKnown(), full, NoBinding) == Ok((Unknown, {"$fields.a", "$args.b"}))
  {
    hide ReferenceOf, Head, IsReference, ResolveOperand, AnswerPair;
    var c := HalfKnown();
    var left, right := c.children[0], c.children[1];
    assert Evaluate(left.children[0], full, NoBinding) == Ok((True, {}));
    FullPair(left.children[0], left.children[1], full, AnyOne);
    FullPair(left, right, full, Every);
    assert {} + {"$fields.a"} + {"$args.b"} == {"$fields.a", "$args.b"};
  }

  // --- Where they are one -------------------------------------------------------------------------

  predicate QuantifierFree(c: Condition)
    decreases c, 0
  {
    match c
    case All(children) => NoneQuantified(children)
    case Any(children) => NoneQuantified(children)
    case Not(child) => QuantifierFree(child)
    case ForAll(_, _, _) => false
    case ForAny(_, _, _) => false
    case _ => true
  }

  predicate NoneQuantified(children: seq<Condition>)
    decreases children, 0
  {
    children != [] ==> QuantifierFree(children[0]) && NoneQuantified(children[1..])
  }

  function Dual(fold: Fold): Fold {
    if fold.Every? then AnyOne else Every
  }

  /** Every quantifier stands where its early stop would already settle the whole: `for_all` under
      nothing but `all` and `for_all`, `for_any` under nothing but `any` and `for_any`, a negation
      changing sides. */
  predicate Aligned(c: Condition, fold: Fold)
    decreases c, 0
  {
    || QuantifierFree(c)
    || match c
       case All(children) => fold.Every? && EachAligned(children, fold)
       case Any(children) => fold.AnyOne? && EachAligned(children, fold)
       case Not(child) => Aligned(child, Dual(fold))
       case ForAll(_, _, body) => fold.Every? && Aligned(body, fold)
       case ForAny(_, _, body) => fold.AnyOne? && Aligned(body, fold)
       case _ => true
  }

  predicate EachAligned(children: seq<Condition>, fold: Fold)
    decreases children, 0
  {
    children != [] ==> Aligned(children[0], fold) && EachAligned(children[1..], fold)
  }

  lemma KnownNeedsNothing(value: Json, b: Bindings)
    requires ValueReads(value, BoundNames(b), KNOWN_ROOTS)
    ensures !ValueNeedsSubject(value, b)
  {
    hide CountOf, IndexOf, FirstIndex;
    match value
    case Str(s) =>
      if IsReference(s) {
        BoundIsDeclared(b, Head(s));
      }
    case Arr(elements) =>
      forall i | 0 <= i < |elements|
        ensures !ValueNeedsSubject(elements[i], b)
      {
        KnownNeedsNothing(elements[i], b);
      }
    case Obj(members) =>
      forall k | k in members
        ensures !ValueNeedsSubject(members[k], b)
      {
        KnownNeedsNothing(members[k], b);
      }
    case _ =>
  }

  lemma LeafNeedsNothing(c: Condition, b: Bindings)
    requires IsLeaf(c) && ConditionReads(c, BoundNames(b), KNOWN_ROOTS)
    ensures !LeafNeedsSubject(c, b)
  {
    hide ValueReads, ValueNeedsSubject, BoundNames;
    match c
    case Exists(operand) => KnownNeedsNothing(operand, b);
    case Pair(_, left, right) =>
      KnownNeedsNothing(left, b);
      KnownNeedsNothing(right, b);
    case Compare(left, _, right) =>
      KnownNeedsNothing(left, b);
      KnownNeedsNothing(right, b);
    case Truthy(operand) => KnownNeedsNothing(operand, b);
    case _ =>
  }

  /** The early answer is the full one, addresses included. */
  ghost predicate Alike(early: Result<(PartialTruth, set<string>), CoreError>,
                        full: Result<(Truth, set<string>), CoreError>)
  {
    full.Ok? && early == Ok((Known(full.value.0), full.value.1))
  }

  /** A condition that reads only what is known before loading answers alike, and lists alike, wherever
      its aligned quantifiers are not settled early. */
  lemma {:induction false} KnownIsAlike(c: Condition, early: Context, full: Context, b: Bindings, fold: Fold)
    requires ConditionReads(c, BoundNames(b), KNOWN_ROOTS) && AddsSubject(early, full) && early.id.Some?
    requires Aligned(c, fold)
    requires QuantifierFree(c) || (Evaluate(c, full, b).Ok? && !fold.Settled(Evaluate(c, full, b).value.0))
    ensures Alike(EvaluateEarly(c, early, b), Evaluate(c, full, b))
    decreases c, 0, 0
  {
    hide ResolveOperand, AnswerPair, CompareScalars, TruthOf, CollectionElement, ValueReads, BoundNames,
         LeafNeedsSubject, Refines;
    match c
    case All(children) => EachIsAlike(children, early, full, b, fold, Every);
    case Any(children) => EachIsAlike(children, early, full, b, fold, AnyOne);
    case Not(child) => KnownIsAlike(child, early, full, b, Dual(fold));
    case ForAll(over, bind, body) => QuantifierIsAlike(over, bind, body, early, full, b, Every);
    case ForAny(over, bind, body) => QuantifierIsAlike(over, bind, body, early, full, b, AnyOne);
    case _ =>
      LeafNeedsNothing(c, b);
      EvaluateTotal(c, early, b, KNOWN_ROOTS);
      EvaluateRefines(c, early, full, b, KNOWN_ROOTS);
  }

  lemma {:induction false} EachIsAlike(children: seq<Condition>, early: Context, full: Context, b: Bindings,
                                       aligned: Fold, fold: Fold)
    requires EachReads(children, BoundNames(b), KNOWN_ROOTS) && AddsSubject(early, full) && early.id.Some?
    requires NoneQuantified(children)
          || (aligned == fold && EachAligned(children, fold) && EvaluateEach(children, full, b, fold).Ok?
              && !fold.Settled(EvaluateEach(children, full, b, fold).value.0))
    ensures Alike(EarlyEach(children, early, b, fold), EvaluateEach(children, full, b, fold))
    decreases children, 0, 0
  {
    hide Evaluate, EvaluateEarly, BoundNames, Refines, ConditionReads;
    if children != [] {
      FreeIsAligned(children[0], fold);
      KnownIsAlike(children[0], early, full, b, fold);
      EachIsAlike(children[1..], early, full, b, aligned, fold);
    }
  }

  lemma FreeIsAligned(c: Condition, fold: Fold)
    ensures QuantifierFree(c) ==> Aligned(c, fold)
  {
  }

  lemma {:induction false} QuantifierIsAlike(over: Json, bind: string, body: Condition, early: Context,
                                             full: Context, b: Bindings, fold: Fold)
    requires ValueReads(over, BoundNames(b), KNOWN_ROOTS)
    requires ConditionReads(body, BoundNames(b) + {bind}, KNOWN_ROOTS)
    requires AddsSubject(early, full) && early.id.Some? && Aligned(body, fold)
    requires Quantify(over, bind, body, full, b, fold).Ok?
    requires !fold.Settled(Quantify(over, bind, body, full, b, fold).value.0)
    ensures Alike(QuantifyEarly(over, bind, body, early, b, fold), Quantify(over, bind, body, full, b, fold))
    decreases body, 2, 0
  {
    hide Evaluate, EvaluateEarly, EvaluateElements, EarlyElements, ElementDeclaration, Collection, ConditionReads,
         ValueReads, ValueNeedsSubject, Refines, BoundNames, Aligned;
    KnownNeedsNothing(over, b);
    CollectionTotal(over, early, b, KNOWN_ROOTS);
    CollectionRefines(over, early, full, b, KNOWN_ROOTS);
    DeclarationRefines(over, early, full, b, KNOWN_ROOTS);
    var elements := Collection(over, early, b).value.0;
    if elements.Some? {
      ElementsAreAlike(elements.value, bind, ElementDeclaration(over, early, b), body, early, full, b, fold);
    }
  }

  lemma {:induction false} ElementsAreAlike(elements: seq<Json>, bind: string, declared: Option<Field>,
                                            body: Condition, early: Context, full: Context, b: Bindings,
                                            fold: Fold)
    requires ConditionReads(body, BoundNames(b) + {bind}, KNOWN_ROOTS)
    requires AddsSubject(early, full) && early.id.Some? && Aligned(body, fold)
    requires EvaluateElements(elements, bind, declared, body, full, b, fold).Ok?
    requires !fold.Settled(EvaluateElements(elements, bind, declared, body, full, b, fold).value.0)
    ensures Alike(EarlyElements(elements, bind, declared, body, early, b, fold),
                  EvaluateElements(elements, bind, declared, body, full, b, fold))
    decreases body, 1, |elements|
  {
    hide Evaluate, EvaluateEarly, Refines, ConditionReads, Aligned;
    if elements != [] {
      var inner := Binding(bind, elements[0], declared, b);
      assert BoundNames(inner) == BoundNames(b) + {bind};
      KnownIsAlike(body, early, full, inner, fold);
      ElementsAreAlike(elements[1..], bind, declared, body, early, full, b, fold);
    }
  }

  // --- Whole refusals -----------------------------------------------------------------------------

  /** Every selector reads only what is known before loading and keeps its quantifiers aligned. */
  ghost predicate SelectorsKnown(outcomes: seq<Outcome>) {
    forall o | o in outcomes && o.when.Some? ::
      && ConditionReads(o.when.value, {}, KNOWN_ROOTS)
      && (Aligned(o.when.value, Every) || Aligned(o.when.value, AnyOne))
  }

  lemma {:induction false} SameSelection(doors: Doors, command: string, outcomes: seq<Outcome>, scope: Scope,
                                         early: Context, full: Context, state: string)
    requires SelectorsAccepted(doors, outcomes, scope) && SelectorsKnown(outcomes)
    requires scope.kind.OutcomeSelector? && scope.names.NoName?
    requires AddsSubject(early, full) && early.id.Some?
    requires EarlyRefusal(command, outcomes, early).Err?
    ensures SelectOutcome(command, outcomes, state, full).Err?
    ensures SelectOutcome(command, outcomes, state, full).error == EarlyRefusal(command, outcomes, early).error
  {
    hide Evaluate, EvaluateEarly, ConditionAccepted, ConditionObservable, Depth, Refines, ConditionReads, Aligned;
    if outcomes != [] {
      var o := outcomes[0];
      if !o.wrongState && o.when.Some? {
        assert RuleAccepted(doors, o.when.value, scope);
        EarlyAgrees(o.when.value, scope, early, full);
        if Evaluate(o.when.value, full, NoBinding).value.0.Unknown? {
          KnownIsAlike(o.when.value, early, full, NoBinding, if Aligned(o.when.value, Every) then Every else AnyOne);
        }
      }
      if EarlyRefusal(command, outcomes[1..], early).Err? {
        SameSelection(doors, command, outcomes[1..], scope, early, full, state);
      }
    }
  }

  /** For an operation whose selectors are known before loading, every refusal answered before loading is
      the refusal after, its list of addresses included. */
  lemma SameRefusal(doors: Doors, definition: Definition, id: string, name: string, input: Json,
                    instance: Instance, f: Option<map<string, Action>>, checked: bool)
    requires Registered(doors, definition) && !Blank(id) && IsSubject(definition, id, instance)
    requires name in definition.operations && SelectorsKnown(definition.operations[name].outcomes)
    requires DecideBeforeLoad(doors, definition, id, name, input, checked).Err?
    ensures Decide(doors, definition, instance, name, input, f, checked)
         == Err(DecideBeforeLoad(doors, definition, id, name, input, checked).error)
  {
    hide Registered, Normalize, EarlyRefusal, SelectOutcome, Carry, EarlyContext, SelectorContext, HasBranches,
         AdmitState, SelectorsKnown;
    var operation := definition.operations[name];
    var normal := Normalize(doors, operation.arguments, input, definition.semantics.Service());
    if normal.Some? && HasBranches(definition, operation.outcomes) {
      var scope := ScopeOf(definition, OutcomeSelector, Some(operation.arguments));
      var early := EarlyContext(doors, definition, id, operation, normal.value);
      var full := SelectorContext(doors, definition, instance, operation, normal.value);
      OperationSelectors(doors, definition, name);
      EarlyIsLoaded(doors, definition, instance, operation, normal.value);
      EarlyHasId(doors, definition, id, operation, normal.value);
      if EarlyRefusal(name, operation.outcomes, early).Err? {
        SameSelection(doors, name, operation.outcomes, scope, early, full, instance.state);
      } else {
        EarlySelection(doors, name, operation.outcomes, scope, early, full, instance.state);
      }
    }
  }
}
