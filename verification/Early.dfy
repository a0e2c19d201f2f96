/** The evaluator that runs before a subject is loaded never contradicts the one that runs after. */
module Early {
  import opened Prelude
  import opened Keys
  import opened Truth
  import opened Definition
  import opened Paths
  import opened Evaluator
  import opened Scopes
  import opened Agreement

  /** What is known before the subject is. */
  const KNOWN_ROOTS: set<Root> := {IdRoot, EntityRoot, VersionRoot, ArgsRoot}

  /** What an operation's selector may read. */
  const SELECTOR_ROOTS: set<Root> := KNOWN_ROOTS + {FieldsRoot, OldFieldsRoot, FromStateRoot}

  lemma SelectorRoots()
    ensures RootsOf(OutcomeSelector) <= SELECTOR_ROOTS
  {
  }

  /** A value that does not wait for the subject reads only what is known. */
  lemma UnneededReads(value: Json, b: Bindings)
    requires ValueReads(value, BoundNames(b), SELECTOR_ROOTS) && !ValueNeedsSubject(value, b)
    ensures ValueReads(value, BoundNames(b), KNOWN_ROOTS)
  {
    hide CountOf, IndexOf, FirstIndex;
    match value
    case Str(s) =>
      if IsReference(s) {
        BoundIsDeclared(b, Head(s));
      }
    case Arr(elements) =>
      forall i | 0 <= i < |elements|
        ensures ValueReads(elements[i], BoundNames(b), KNOWN_ROOTS)
      {
        UnneededReads(elements[i], b);
      }
    case Obj(members) =>
      forall k | k in members
        ensures ValueReads(members[k], BoundNames(b), KNOWN_ROOTS)
      {
        UnneededReads(members[k], b);
      }
    case _ =>
  }

  predicate IsLeaf(c: Condition) {
    !c.All? && !c.Any? && !c.Not? && !c.ForAll? && !c.ForAny?
  }

  lemma LeafReads(c: Condition, b: Bindings)
    requires IsLeaf(c) && ConditionReads(c, BoundNames(b), SELECTOR_ROOTS) && !LeafNeedsSubject(c, b)
    ensures ConditionReads(c, BoundNames(b), KNOWN_ROOTS)
  {
    hide ValueReads, ValueNeedsSubject, BoundNames;
    match c
    case Exists(operand) => UnneededReads(operand, b);
    case Pair(_, left, right) =>
      UnneededReads(left, b);
      UnneededReads(right, b);
    case Compare(left, _, right) =>
      UnneededReads(left, b);
      UnneededReads(right, b);
    case Truthy(operand) => UnneededReads(operand, b);
    case _ =>
  }

  /** What a loaded subject adds to what was known before it. */
  ghost predicate AddsSubject(early: Context, full: Context) {
    Refines(early, full, KNOWN_ROOTS) && full.id.Some?
  }

  /** An answer given early is the answer, whatever subject is loaded. */
  lemma {:induction false} EarlyIsSound(c: Condition, early: Context, full: Context, b: Bindings)
    requires ConditionReads(c, BoundNames(b), SELECTOR_ROOTS) && AddsSubject(early, full)
    requires EvaluateEarly(c, early, b).Ok? && EvaluateEarly(c, early, b).value.0.Known?
    ensures Evaluate(c, full, b).Ok?
    ensures Evaluate(c, full, b).value.0 == EvaluateEarly(c, early, b).value.0.truth
    decreases c, 0, 0
  {
    hide ResolveOperand, AnswerPair, CompareScalars, TruthOf, CollectionElement, ValueReads, BoundNames,
         LeafNeedsSubject, Refines;
    match c
    case All(children) => EachIsSound(children, early, full, b, Every);
    case Any(children) => EachIsSound(children, early, full, b, AnyOne);
    case Not(child) => EarlyIsSound(child, early, full, b);
    case ForAll(over, bind, body) => QuantifyIsSound(over, bind, body, early, full, b, Every);
    case ForAny(over, bind, body) => QuantifyIsSound(over, bind, body, early, full, b, AnyOne);
    case _ =>
      LeafReads(c, b);
      EvaluateRefines(c, early, full, b, KNOWN_ROOTS);
  }

  lemma {:induction false} EachIsSound(children: seq<Condition>, early: Context, full: Context,
                                       b: Bindings, fold: Fold)
    requires EachReads(children, BoundNames(b), SELECTOR_ROOTS) && AddsSubject(early, full)
    requires EarlyEach(children, early, b, fold).Ok? && EarlyEach(children, early, b, fold).value.0.Known?
    ensures EvaluateEach(children, full, b, fold).Ok?
    ensures EvaluateEach(children, full, b, fold).value.0
         == EarlyEach(children, early, b, fold).value.0.truth
    decreases children, 0, 0
  {
    hide Evaluate, EvaluateEarly, BoundNames, Refines, ConditionReads;
    if children != [] {
      EvaluateTotal(children[0], full, b, SELECTOR_ROOTS);
      EachTotal(children[1..], full, b, SELECTOR_ROOTS, fold);
      if EvaluateEarly(children[0], early, b).value.0.Known? {
        EarlyIsSound(children[0], early, full, b);
      }
      if EarlyEach(children[1..], early, b, fold).value.0.Known? {
        EachIsSound(children[1..], early, full, b, fold);
      }
    }
  }

  lemma {:induction false} QuantifyIsSound(over: Json, bind: string, body: Condition, early: Context,
                                           full: Context, b: Bindings, fold: Fold)
    requires ValueReads(over, BoundNames(b), SELECTOR_ROOTS)
    requires ConditionReads(body, BoundNames(b) + {bind}, SELECTOR_ROOTS) && AddsSubject(early, full)
    requires QuantifyEarly(over, bind, body, early, b, fold).Ok?
    requires QuantifyEarly(over, bind, body, early, b, fold).value.0.Known?
    ensures Quantify(over, bind, body, full, b, fold).Ok?
    ensures Quantify(over, bind, body, full, b, fold).value.0
         == QuantifyEarly(over, bind, body, early, b, fold).value.0.truth
    decreases body, 2, 0
  {
    hide EvaluateElements, EarlyElements, ElementDeclaration, Collection, ConditionReads, ValueReads,
         ValueNeedsSubject, Refines, BoundNames;
    UnneededReads(over, b);
    CollectionRefines(over, early, full, b, KNOWN_ROOTS);
    DeclarationRefines(over, early, full, b, KNOWN_ROOTS);
    var elements := Collection(over, early, b).value.0;
    if elements.Some? {
      ElementsAreSound(elements.value, bind, ElementDeclaration(over, early, b),
                       body, early, full, b, fold);
    }
  }

  lemma {:induction false} ElementsAreSound(elements: seq<Json>, bind: string, declared: Option<Field>,
                                            body: Condition, early: Context, full: Context, b: Bindings,
                                            fold: Fold)
    requires ConditionReads(body, BoundNames(b) + {bind}, SELECTOR_ROOTS) && AddsSubject(early, full)
    requires EarlyElements(elements, bind, declared, body, early, b, fold).Ok?
    requires EarlyElements(elements, bind, declared, body, early, b, fold).value.0.Known?
    ensures EvaluateElements(elements, bind, declared, body, full, b, fold).Ok?
    ensures EvaluateElements(elements, bind, declared, body, full, b, fold).value.0
         == EarlyElements(elements, bind, declared, body, early, b, fold).value.0.truth
    decreases body, 1, |elements|
  {
    hide Evaluate, EvaluateEarly, Refines, ConditionReads;
    if elements != [] {
      var inner := Binding(bind, elements[0], declared, b);
      assert BoundNames(inner) == BoundNames(b) + {bind};
      EvaluateTotal(body, full, inner, SELECTOR_ROOTS);
      ElementsTotal(elements[1..], bind, declared, body, full, b, SELECTOR_ROOTS, fold);
      if EvaluateEarly(body, early, inner).value.0.Known? {
        EarlyIsSound(body, early, full, inner);
      }
      if EarlyElements(elements[1..], bind, declared, body, early, b, fold).value.0.Known? {
        ElementsAreSound(elements[1..], bind, declared, body, early, full, b, fold);
      }
    }
  }

  // --- The early evaluator always answers ---------------------------------------------------------

  lemma {:induction false} EarlyIsTotal(c: Condition, early: Context, b: Bindings)
    requires ConditionReads(c, BoundNames(b), SELECTOR_ROOTS) && early.id.Some?
    ensures EvaluateEarly(c, early, b).Ok?
    decreases c, 0, 0
  {
    hide ResolveOperand, AnswerPair, CompareScalars, TruthOf, CollectionElement, ValueReads, BoundNames,
         LeafNeedsSubject;
    match c
    case All(children) => EachEarlyTotal(children, early, b, Every);
    case Any(children) => EachEarlyTotal(children, early, b, AnyOne);
    case Not(child) => EarlyIsTotal(child, early, b);
    case ForAll(over, bind, body) => QuantifyEarlyTotal(over, bind, body, early, b, Every);
    case ForAny(over, bind, body) => QuantifyEarlyTotal(over, bind, body, early, b, AnyOne);
    case _ => EvaluateTotal(c, early, b, SELECTOR_ROOTS);
  }

  lemma {:induction false} EachEarlyTotal(children: seq<Condition>, early: Context, b: Bindings, fold: Fold)
    requires EachReads(children, BoundNames(b), SELECTOR_ROOTS) && early.id.Some?
    ensures EarlyEach(children, early, b, fold).Ok?
    decreases children, 0, 0
  {
    hide EvaluateEarly, BoundNames, ConditionReads;
    if children != [] {
      EarlyIsTotal(children[0], early, b);
      EachEarlyTotal(children[1..], early, b, fold);
    }
  }

  lemma {:induction false} QuantifyEarlyTotal(over: Json, bind: string, body: Condition, early: Context,
                                              b: Bindings, fold: Fold)
    requires ValueReads(over, BoundNames(b), SELECTOR_ROOTS)
    requires ConditionReads(body, BoundNames(b) + {bind}, SELECTOR_ROOTS) && early.id.Some?
    ensures QuantifyEarly(over, bind, body, early, b, fold).Ok?
    decreases body, 2, 0
  {
    hide EarlyElements, ElementDeclaration, Collection, ConditionReads, ValueReads, ValueNeedsSubject,
         BoundNames;
    CollectionTotal(over, early, b, SELECTOR_ROOTS);
    var elements := Collection(over, early, b).value.0;
    if elements.Some? {
      ElementsEarlyTotal(elements.value, bind, ElementDeclaration(over, early, b),
                         body, early, b, fold);
    }
  }

  lemma {:induction false} ElementsEarlyTotal(elements: seq<Json>, bind: string, declared: Option<Field>,
                                              body: Condition, early: Context, b: Bindings, fold: Fold)
    requires ConditionReads(body, BoundNames(b) + {bind}, SELECTOR_ROOTS) && early.id.Some?
    ensures EarlyElements(elements, bind, declared, body, early, b, fold).Ok?
    decreases body, 1, |elements|
  {
    hide EvaluateEarly, ConditionReads;
    if elements != [] {
      var inner := Binding(bind, elements[0], declared, b);
      assert BoundNames(inner) == BoundNames(b) + {bind};
      EarlyIsTotal(body, early, inner);
      ElementsEarlyTotal(elements[1..], bind, declared, body, early, b, fold);
    }
  }

  /** For every condition registration admits as an operation's selector: the early evaluator never
      errors, and what it knows is what the full evaluator answers for every subject. */
  lemma EarlyAgrees(c: Condition, scope: Scope, early: Context, full: Context)
    requires ConditionAccepted(c, scope) && scope.kind.OutcomeSelector? && scope.names.NoName?
    requires AddsSubject(early, full) && early.id.Some?
    ensures EvaluateEarly(c, early, NoBinding).Ok? && Evaluate(c, full, NoBinding).Ok?
    ensures var partial := EvaluateEarly(c, early, NoBinding).value.0;
            partial.Known? ==> Evaluate(c, full, NoBinding).value.0 == partial.truth
  {
    hide Evaluate, EvaluateEarly, ConditionAccepted, Refines;
    AcceptedReads(c, scope);
    SelectorRoots();
    WiderReads(c, {}, RootsOf(scope.kind), SELECTOR_ROOTS);
    EarlyIsTotal(c, early, NoBinding);
    EvaluateTotal(c, full, NoBinding, SELECTOR_ROOTS);
    if EvaluateEarly(c, early, NoBinding).value.0.Known? {
      EarlyIsSound(c, early, full, NoBinding);
    }
  }

  lemma ValueWiderReads(value: Json, bound: set<string>, roots: set<Root>, wider: set<Root>)
    requires ValueReads(value, bound, roots) && roots <= wider
    ensures ValueReads(value, bound, wider)
  {
    match value
    case Arr(elements) =>
      forall i | 0 <= i < |elements|
        ensures ValueReads(elements[i], bound, wider)
      {
        ValueWiderReads(elements[i], bound, roots, wider);
      }
    case Obj(members) =>
      forall k | k in members
        ensures ValueReads(members[k], bound, wider)
      {
        ValueWiderReads(members[k], bound, roots, wider);
      }
    case _ =>
  }

  lemma {:induction false} WiderReads(c: Condition, bound: set<string>, roots: set<Root>, wider: set<Root>)
    requires ConditionReads(c, bound, roots) && roots <= wider
    ensures ConditionReads(c, bound, wider)
    decreases c, 0
  {
    hide ValueReads;
    match c
    case Literal(_) =>
    case All(children) => EachWiderReads(children, bound, roots, wider);
    case Any(children) => EachWiderReads(children, bound, roots, wider);
    case Not(child) => WiderReads(child, bound, roots, wider);
    case Exists(operand) => ValueWiderReads(operand, bound, roots, wider);
    case Pair(_, left, right) =>
      ValueWiderReads(left, bound, roots, wider);
      ValueWiderReads(right, bound, roots, wider);
    case Compare(left, _, right) =>
      ValueWiderReads(left, bound, roots, wider);
      ValueWiderReads(right, bound, roots, wider);
    case Truthy(operand) => ValueWiderReads(operand, bound, roots, wider);
    case ForAll(over, bind, body) =>
      ValueWiderReads(over, bound, roots, wider);
      WiderReads(body, bound + {bind}, roots, wider);
    case ForAny(over, bind, body) =>
      ValueWiderReads(over, bound, roots, wider);
      WiderReads(body, bound + {bind}, roots, wider);
  }

  lemma {:induction false} EachWiderReads(children: seq<Condition>, bound: set<string>, roots: set<Root>,
                                          wider: set<Root>)
    requires EachReads(children, bound, roots) && roots <= wider
    ensures EachReads(children, bound, wider)
    decreases children, 0
  {
    hide ValueReads;
    if children != [] {
      WiderReads(children[0], bound, roots, wider);
      EachWiderReads(children[1..], bound, roots, wider);
    }
  }
}
