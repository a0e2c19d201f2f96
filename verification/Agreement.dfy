/** What an accepted condition reads decides what it answers: two contexts that agree on those roots
    answer alike, and one that holds an identity never fails. */
module Agreement {
  import opened Prelude
  import opened Keys
  import opened Truth
  import opened Definition
  import opened Paths
  import opened Reading
  import opened Evaluator
  import opened Scopes

  function BoundNames(b: Bindings): set<string> {
    if b.NoBinding? then {} else {b.name} + BoundNames(b.outer)
  }

  function NamesOf(names: Names): set<string> {
    if names.NoName? then {} else {names.name} + NamesOf(names.outer)
  }

  /** Every reference in a value is bound, or reads one of `roots`. */
  ghost predicate ValueReads(value: Json, bound: set<string>, roots: set<Root>) {
    match value
    case Str(s) => IsReference(s) ==> Head(s) in bound
                                      || (ReferenceOf(s).Reference? && ReferenceOf(s).root in roots)
    case Arr(elements) => forall i | 0 <= i < |elements| :: ValueReads(elements[i], bound, roots)
    case Obj(members) => forall k | k in members :: ValueReads(members[k], bound, roots)
    case _ => true
  }

  ghost predicate ConditionReads(c: Condition, bound: set<string>, roots: set<Root>)
    decreases c, 0
  {
    match c
    case Literal(_) => true
    case All(children) => EachReads(children, bound, roots)
    case Any(children) => EachReads(children, bound, roots)
    case Not(child) => ConditionReads(child, bound, roots)
    case Exists(operand) => ValueReads(operand, bound, roots)
    case Pair(_, left, right) => ValueReads(left, bound, roots) && ValueReads(right, bound, roots)
    case Compare(left, _, right) => ValueReads(left, bound, roots) && ValueReads(right, bound, roots)
    case Truthy(operand) => ValueReads(operand, bound, roots)
    case ForAll(over, bind, body) => ValueReads(over, bound, roots) && ConditionReads(body, bound + {bind}, roots)
    case ForAny(over, bind, body) => ValueReads(over, bound, roots) && ConditionReads(body, bound + {bind}, roots)
  }

  ghost predicate EachReads(children: seq<Condition>, bound: set<string>, roots: set<Root>)
    decreases children, 0
  {
    children != [] ==> ConditionReads(children[0], bound, roots) && EachReads(children[1..], bound, roots)
  }

  lemma BoundIsDeclared(b: Bindings, n: string)
    ensures n in BoundNames(b) <==> b.Get(n).Some?
    ensures n in BoundNames(b) <==> DeclaredNames(b).Get(n).Some?
  {
  }

  lemma NamedIsBound(names: Names, n: string)
    ensures n in NamesOf(names) <==> names.Get(n).Some?
  {
  }

  // --- Acceptance bounds what is read -------------------------------------------------------------

  lemma OperandAcceptedReads(value: Json, scope: Scope)
    requires OperandAccepted(value, scope)
    ensures ValueReads(value, NamesOf(scope.names), RootsOf(scope.kind))
  {
    match value
    case Str(s) =>
      if IsReference(s) {
        NamedIsBound(scope.names, Head(s));
      }
    case Arr(elements) =>
      forall i | 0 <= i < |elements|
        ensures ValueReads(elements[i], NamesOf(scope.names), RootsOf(scope.kind))
      {
        OperandAcceptedReads(elements[i], scope);
      }
    case Obj(members) =>
      forall k | k in members
        ensures ValueReads(members[k], NamesOf(scope.names), RootsOf(scope.kind))
      {
        OperandAcceptedReads(members[k], scope);
      }
    case _ =>
  }

  /** A condition registration accepts reads only what its scope allows, at any nesting. */
  lemma {:induction false} AcceptedReads(c: Condition, scope: Scope)
    requires ConditionAccepted(c, scope)
    ensures ConditionReads(c, NamesOf(scope.names), RootsOf(scope.kind))
    decreases c, 0
  {
    match c
    case Literal(_) =>
    case All(children) => EachAcceptedReads(children, scope);
    case Any(children) => EachAcceptedReads(children, scope);
    case Not(child) => AcceptedReads(child, scope);
    case Exists(operand) => OperandAcceptedReads(operand, scope);
    case Pair(_, left, right) =>
      OperandAcceptedReads(left, scope);
      OperandAcceptedReads(right, scope);
    case Compare(left, _, right) =>
      OperandAcceptedReads(left, scope);
      OperandAcceptedReads(right, scope);
    case Truthy(operand) => OperandAcceptedReads(operand, scope);
    case ForAll(over, bind, body) => QuantifierAcceptedReads(over, bind, body, scope);
    case ForAny(over, bind, body) => QuantifierAcceptedReads(over, bind, body, scope);
  }

  lemma {:induction false} EachAcceptedReads(children: seq<Condition>, scope: Scope)
    requires EachAccepted(children, scope)
    ensures EachReads(children, NamesOf(scope.names), RootsOf(scope.kind))
    decreases children, 0
  {
    if children != [] {
      AcceptedReads(children[0], scope);
      EachAcceptedReads(children[1..], scope);
    }
  }

  lemma {:induction false} QuantifierAcceptedReads(over: Json, bind: string, body: Condition, scope: Scope)
    requires QuantifierAccepted(over, bind, body, scope)
    ensures ValueReads(over, NamesOf(scope.names), RootsOf(scope.kind))
    ensures ConditionReads(body, NamesOf(scope.names) + {bind}, RootsOf(scope.kind))
    decreases body, 1
  {
    OperandAcceptedReads(over, scope);
    var element := CollectionElement(over, scope.fields, scope.args, scope.names).value;
    var inner := scope.(names := Name(bind, element, scope.names));
    AcceptedReads(body, inner);
    assert NamesOf(inner.names) == NamesOf(scope.names) + {bind};
  }

  // --- Totality -----------------------------------------------------------------------------------

  /** Everything a context can be asked for is there to be answered. */
  predicate Answerable(ctx: Context, roots: set<Root>) {
    IdRoot in roots ==> ctx.id.Some?
  }

  lemma OperandTotal(value: Json, ctx: Context, b: Bindings, roots: set<Root>)
    requires ValueReads(value, BoundNames(b), roots) && Answerable(ctx, roots)
    ensures ResolveOperand(value, ctx, b).Ok?
  {
    match value
    case Str(s) =>
      if IsReference(s) {
        BoundIsDeclared(b, Head(s));
      }
    case Arr(elements) => OperandsTotal(elements, ctx, b, roots);
    case Obj(members) =>
      forall k | k in members
        ensures ResolveOperand(members[k], ctx, b).Ok?
      {
        OperandTotal(members[k], ctx, b, roots);
      }
    case _ =>
  }

  lemma OperandsTotal(values: seq<Json>, ctx: Context, b: Bindings, roots: set<Root>)
    requires forall i | 0 <= i < |values| :: ValueReads(values[i], BoundNames(b), roots)
    requires Answerable(ctx, roots)
    ensures ResolveOperands(values, ctx, b).Ok?
  {
    if values != [] {
      OperandTotal(values[0], ctx, b, roots);
      assert forall i | 0 <= i < |values[1..]| :: values[1..][i] == values[i + 1];
      OperandsTotal(values[1..], ctx, b, roots);
    }
  }

  lemma CollectionTotal(over: Json, ctx: Context, b: Bindings, roots: set<Root>)
    requires ValueReads(over, BoundNames(b), roots) && Answerable(ctx, roots)
    ensures Collection(over, ctx, b).Ok?
  {
    hide ResolveOperand, ValueReads, BoundNames, ElementsOf;
    OperandTotal(over, ctx, b, roots);
  }

  lemma CollectionRefines(over: Json, c: Context, d: Context, b: Bindings, roots: set<Root>)
    requires ValueReads(over, BoundNames(b), roots) && Refines(c, d, roots)
    requires Collection(over, c, b).Ok?
    ensures Collection(over, d, b) == Collection(over, c, b)
  {
    hide ResolveOperand, ValueReads, BoundNames, Refines, ElementsOf;
    OperandRefines(over, c, d, b, roots);
  }

  /** A condition that reads only what a context answers is always answered. */
  lemma {:induction false} EvaluateTotal(c: Condition, ctx: Context, b: Bindings, roots: set<Root>)
    requires ConditionReads(c, BoundNames(b), roots) && Answerable(ctx, roots)
    ensures Evaluate(c, ctx, b).Ok?
    decreases c, 0, 0
  {
    hide AnswerPair, CompareScalars, TruthOf, CollectionElement, ResolveOperand, ValueReads;
    match c
    case Literal(_) =>
    case All(children) => EachTotal(children, ctx, b, roots, Every);
    case Any(children) => EachTotal(children, ctx, b, roots, AnyOne);
    case Not(child) => EvaluateTotal(child, ctx, b, roots);
    case Exists(operand) => OperandTotal(operand, ctx, b, roots);
    case Pair(_, left, right) =>
      OperandTotal(left, ctx, b, roots);
      OperandTotal(right, ctx, b, roots);
    case Compare(left, _, right) =>
      OperandTotal(left, ctx, b, roots);
      OperandTotal(right, ctx, b, roots);
    case Truthy(operand) => OperandTotal(operand, ctx, b, roots);
    case ForAll(over, bind, body) => QuantifyTotal(over, bind, body, ctx, b, roots, Every);
    case ForAny(over, bind, body) => QuantifyTotal(over, bind, body, ctx, b, roots, AnyOne);
  }

  lemma {:induction false} EachTotal(children: seq<Condition>, ctx: Context, b: Bindings,
                                     roots: set<Root>, fold: Fold)
    requires EachReads(children, BoundNames(b), roots) && Answerable(ctx, roots)
    ensures EvaluateEach(children, ctx, b, fold).Ok?
    decreases children, 0, 0
  {
    hide Evaluate;
    if children != [] {
      EvaluateTotal(children[0], ctx, b, roots);
      EachTotal(children[1..], ctx, b, roots, fold);
    }
  }

  lemma {:induction false} QuantifyTotal(over: Json, bind: string, body: Condition, ctx: Context,
                                         b: Bindings, roots: set<Root>, fold: Fold)
    requires ValueReads(over, BoundNames(b), roots) && ConditionReads(body, BoundNames(b) + {bind}, roots)
    requires Answerable(ctx, roots)
    ensures Quantify(over, bind, body, ctx, b, fold).Ok?
    decreases body, 2, 0
  {
    hide EvaluateElements, ElementDeclaration, Collection, ConditionReads, ValueReads, Answerable, BoundNames;
    CollectionTotal(over, ctx, b, roots);
    var elements := Collection(over, ctx, b).value.0;
    if elements.Some? {
      ElementsTotal(elements.value, bind, ElementDeclaration(over, ctx, b), body,
                    ctx, b, roots, fold);
    }
  }

  lemma {:induction false} ElementsTotal(elements: seq<Json>, bind: string, declared: Option<Field>,
                                         body: Condition, ctx: Context, b: Bindings, roots: set<Root>,
                                         fold: Fold)
    requires ConditionReads(body, BoundNames(b) + {bind}, roots) && Answerable(ctx, roots)
    ensures EvaluateElements(elements, bind, declared, body, ctx, b, fold).Ok?
    decreases body, 1, |elements|
  {
    hide Evaluate, ConditionReads;
    if elements != [] {
      var inner := Binding(bind, elements[0], declared, b);
      assert BoundNames(inner) == BoundNames(b) + {bind};
      EvaluateTotal(body, ctx, inner, roots);
      ElementsTotal(elements[1..], bind, declared, body, ctx, b, roots, fold);
    }
  }

  /** Registration makes evaluation total: with an identity at hand, an accepted condition never
      errors, whatever the fields and arguments hold. */
  lemma AcceptedIsTotal(c: Condition, scope: Scope, ctx: Context)
    requires ConditionAccepted(c, scope) && scope.names.NoName? && ctx.id.Some?
    ensures Evaluate(c, ctx, NoBinding).Ok?
  {
    hide Evaluate, ConditionAccepted, ConditionReads;
    AcceptedReads(c, scope);
    EvaluateTotal(c, ctx, NoBinding, RootsOf(scope.kind));
  }

  // --- Agreement ----------------------------------------------------------------------------------

  /** `d` answers whatever `c` answers about `roots`, the same way. */
  ghost predicate Refines(c: Context, d: Context, roots: set<Root>) {
    && c.doors == d.doors && c.definition == d.definition
    && (IdRoot in roots ==> c.id.None? || c.id == d.id)
    && (FromStateRoot in roots ==> c.fromState == d.fromState)
    && (StateRoot in roots || ToStateRoot in roots ==> c.toState == d.toState)
    && (ArgsRoot in roots ==> c.args == d.args && c.argumentsSchema == d.argumentsSchema)
    && (FieldsRoot in roots ==> c.newFields == d.newFields)
    && (OldFieldsRoot in roots ==> c.oldFields == d.oldFields)
  }

  lemma ReferenceRefines(s: string, c: Context, d: Context, b: Bindings, roots: set<Root>)
    requires IsReference(s) && ValueReads(Str(s), BoundNames(b), roots) && Refines(c, d, roots)
    requires Resolve(s, c, b).Ok?
    ensures Resolve(s, d, b) == Resolve(s, c, b)
  {
    hide LookUp, Walk, CountOf, Head, Tail, ReferenceOf, BoundNames;
    BoundIsDeclared(b, Head(s));
  }

  lemma OperandRefines(value: Json, c: Context, d: Context, b: Bindings, roots: set<Root>)
    requires ValueReads(value, BoundNames(b), roots) && Refines(c, d, roots)
    requires ResolveOperand(value, c, b).Ok?
    ensures ResolveOperand(value, d, b) == ResolveOperand(value, c, b)
  {
    match value
    case Str(s) =>
      if IsReference(s) {
        ReferenceRefines(s, c, d, b, roots);
      }
    case Arr(elements) => OperandsRefine(elements, c, d, b, roots);
    case Obj(members) =>
      var parts := map k | k in members :: ResolveOperand(members[k], c, b);
      forall k | k in members
        ensures ResolveOperand(members[k], d, b) == ResolveOperand(members[k], c, b)
      {
        assert k in parts && parts[k].Ok?;
        OperandRefines(members[k], c, d, b, roots);
      }
      assert (map k | k in members :: ResolveOperand(members[k], d, b)) == parts;
    case _ =>
  }

  lemma OperandsRefine(values: seq<Json>, c: Context, d: Context, b: Bindings, roots: set<Root>)
    requires forall i | 0 <= i < |values| :: ValueReads(values[i], BoundNames(b), roots)
    requires Refines(c, d, roots) && ResolveOperands(values, c, b).Ok?
    ensures ResolveOperands(values, d, b) == ResolveOperands(values, c, b)
  {
    if values != [] {
      OperandRefines(values[0], c, d, b, roots);
      assert forall i | 0 <= i < |values[1..]| :: values[1..][i] == values[i + 1];
      OperandsRefine(values[1..], c, d, b, roots);
    }
  }

  lemma EscapedHasNoRoot(s: string)
    requires IsEscaped(s)
    ensures ReferenceOf(s) == NoReference
  {
    FirstIndexIsFirst(s[1..], IsDot());
    assert s[1..][0] == '$';
    assert Head(s)[0] == '$';
  }

  lemma DeclarationRefines(over: Json, c: Context, d: Context, b: Bindings, roots: set<Root>)
    requires ValueReads(over, BoundNames(b), roots) && Refines(c, d, roots)
    ensures ElementDeclaration(over, d, b) == ElementDeclaration(over, c, b)
  {
    if over.Str? && over.text != [] && over.text[0] == '$' {
      BoundIsDeclared(b, Head(over.text));
      if IsEscaped(over.text) {
        EscapedHasNoRoot(over.text);
      }
    }
  }

  /** Where a context answers, every context that refines it on what is read answers the same. */
  lemma {:induction false} EvaluateRefines(t: Condition, c: Context, d: Context, b: Bindings,
                                           roots: set<Root>)
    requires ConditionReads(t, BoundNames(b), roots) && Refines(c, d, roots)
    requires Evaluate(t, c, b).Ok?
    ensures Evaluate(t, d, b) == Evaluate(t, c, b)
    decreases t, 0, 0
  {
    hide AnswerPair, CompareScalars, TruthOf, CollectionElement, ResolveOperand, ValueReads;
    match t
    case Literal(_) =>
    case All(children) => EachRefines(children, c, d, b, roots, Every);
    case Any(children) => EachRefines(children, c, d, b, roots, AnyOne);
    case Not(child) => EvaluateRefines(child, c, d, b, roots);
    case Exists(operand) => OperandRefines(operand, c, d, b, roots);
    case Pair(_, left, right) =>
      OperandRefines(left, c, d, b, roots);
      OperandRefines(right, c, d, b, roots);
    case Compare(left, _, right) =>
      OperandRefines(left, c, d, b, roots);
      OperandRefines(right, c, d, b, roots);
    case Truthy(operand) => OperandRefines(operand, c, d, b, roots);
    case ForAll(over, bind, body) => QuantifyRefines(over, bind, body, c, d, b, roots, Every);
    case ForAny(over, bind, body) => QuantifyRefines(over, bind, body, c, d, b, roots, AnyOne);
  }

  lemma {:induction false} EachRefines(children: seq<Condition>, c: Context, d: Context, b: Bindings,
                                       roots: set<Root>, fold: Fold)
    requires EachReads(children, BoundNames(b), roots) && Refines(c, d, roots)
    requires EvaluateEach(children, c, b, fold).Ok?
    ensures EvaluateEach(children, d, b, fold) == EvaluateEach(children, c, b, fold)
    decreases children, 0, 0
  {
    hide Evaluate;
    if children != [] {
      EvaluateRefines(children[0], c, d, b, roots);
      EachRefines(children[1..], c, d, b, roots, fold);
    }
  }

  lemma {:induction false} QuantifyRefines(over: Json, bind: string, body: Condition, c: Context,
                                           d: Context, b: Bindings, roots: set<Root>, fold: Fold)
    requires ValueReads(over, BoundNames(b), roots) && ConditionReads(body, BoundNames(b) + {bind}, roots)
    requires Refines(c, d, roots) && Quantify(over, bind, body, c, b, fold).Ok?
    ensures Quantify(over, bind, body, d, b, fold) == Quantify(over, bind, body, c, b, fold)
    decreases body, 2, 0
  {
    hide EvaluateElements, ElementDeclaration, Collection, ConditionReads, ValueReads, Refines, BoundNames;
    CollectionRefines(over, c, d, b, roots);
    DeclarationRefines(over, c, d, b, roots);
    var elements := Collection(over, c, b).value.0;
    if elements.Some? {
      ElementsRefine(elements.value, bind, ElementDeclaration(over, c, b), body,
                     c, d, b, roots, fold);
    }
  }

  lemma {:induction false} ElementsRefine(elements: seq<Json>, bind: string, declared: Option<Field>,
                                          body: Condition, c: Context, d: Context, b: Bindings,
                                          roots: set<Root>, fold: Fold)
    requires ConditionReads(body, BoundNames(b) + {bind}, roots) && Refines(c, d, roots)
    requires EvaluateElements(elements, bind, declared, body, c, b, fold).Ok?
    ensures EvaluateElements(elements, bind, declared, body, d, b, fold)
         == EvaluateElements(elements, bind, declared, body, c, b, fold)
    decreases body, 1, |elements|
  {
    hide Evaluate, ConditionReads;
    if elements != [] {
      var inner := Binding(bind, elements[0], declared, b);
      assert BoundNames(inner) == BoundNames(b) + {bind};
      EvaluateRefines(body, c, d, inner, roots);
      if !fold.Settled(Evaluate(body, c, inner).value.0) {
        ElementsRefine(elements[1..], bind, declared, body, c, d, b, roots, fold);
      }
    }
  }

  /** The same for templates. */
  lemma TemplateRefines(value: Json, c: Context, d: Context, roots: set<Root>)
    requires ValueReads(value, {}, roots) && Refines(c, d, roots)
    requires ResolveTemplate(value, c).Ok?
    ensures ResolveTemplate(value, d) == ResolveTemplate(value, c)
  {
    match value
    case Str(s) =>
      if IsReference(s) {
        ReferenceRefines(s, c, d, NoBinding, roots);
      }
    case Arr(elements) => TemplatesRefine(elements, c, d, roots);
    case Obj(members) =>
      var parts := map k | k in members :: ResolveTemplate(members[k], c);
      forall k | k in members
        ensures ResolveTemplate(members[k], d) == ResolveTemplate(members[k], c)
      {
        assert k in parts && parts[k].Ok?;
        TemplateRefines(members[k], c, d, roots);
      }
      assert (map k | k in members :: ResolveTemplate(members[k], d)) == parts;
    case _ =>
  }

  lemma TemplatesRefine(values: seq<Json>, c: Context, d: Context, roots: set<Root>)
    requires forall i | 0 <= i < |values| :: ValueReads(values[i], {}, roots)
    requires Refines(c, d, roots) && ResolveTemplates(values, c).Ok?
    ensures ResolveTemplates(values, d) == ResolveTemplates(values, c)
  {
    if values != [] {
      TemplateRefines(values[0], c, d, roots);
      assert forall i | 0 <= i < |values[1..]| :: values[1..][i] == values[i + 1];
      TemplatesRefine(values[1..], c, d, roots);
    }
  }
}
