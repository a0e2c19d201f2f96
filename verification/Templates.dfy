/** What templates and operands resolve to, node by node: a reference becomes the value it denotes, and
    everything around it stays where it was. */
module Templates {
  import opened Prelude
  import opened Definition
  import opened Paths
  import opened Positions
  import opened Evaluator
  import opened References
  import opened Operands

  // --- Templates ----------------------------------------------------------------------------------

  /** What is left where a node of the template was. */
  ghost predicate Rendered(node: Json, result: Option<Json>, ctx: Context) {
    match node
    case Str(s) =>
      if IsReference(s) then result.Some? && Denotes(s, ctx, NoBinding, result.value)
      else if IsEscaped(s) then result == Some(Str(s[1..]))
      else result == Some(node)
    case Arr(elements) => result.Some? && result.value.Arr? && |result.value.elements| == |elements|
    case Obj(members) => result.Some? && result.value.Obj? && result.value.members.Keys == members.Keys
    case _ => result == Some(node)
  }

  ghost predicate RenderedAt(template: Json, result: Json, ctx: Context, place: Place) {
    At(template, place).Some? ==> Rendered(At(template, place).value, At(result, place), ctx)
  }

  ghost predicate RenderedThroughout(template: Json, result: Json, ctx: Context) {
    forall place :: RenderedAt(template, result, ctx, place)
  }

  lemma EachTemplate(values: seq<Json>, ctx: Context)
    ensures ResolveTemplates(values, ctx).Ok? <==> forall i | 0 <= i < |values| :: ResolveTemplate(values[i], ctx).Ok?
    ensures ResolveTemplates(values, ctx).Ok? ==>
              var results := ResolveTemplates(values, ctx).value;
              && |results| == |values|
              && forall i | 0 <= i < |values| :: ResolveTemplate(values[i], ctx) == Ok(results[i])
  {
    hide ResolveTemplate;
    if values != [] {
      EachTemplate(values[1..], ctx);
      assert forall i | 0 <= i < |values| :: i > 0 ==> values[i] == values[1..][i - 1];
      if forall i | 0 <= i < |values| :: ResolveTemplate(values[i], ctx).Ok? {
        assert ResolveTemplate(values[0], ctx).Ok?;
        forall i | 0 <= i < |values| - 1
          ensures ResolveTemplate(values[1..][i], ctx).Ok?
        {
          assert values[1..][i] == values[i + 1];
        }
      }
    }
  }

  lemma EachMember(members: Object, ctx: Context)
    ensures ResolveTemplate(Obj(members), ctx).Ok? <==> forall k | k in members :: ResolveTemplate(members[k], ctx).Ok?
    ensures ResolveTemplate(Obj(members), ctx).Ok? ==>
              var result := ResolveTemplate(Obj(members), ctx).value;
              && result.Obj? && result.members.Keys == members.Keys
              && forall k | k in members :: ResolveTemplate(members[k], ctx) == Ok(result.members[k])
  {
    hide Resolve, ResolveTemplates;
    var parts := map k | k in members :: ResolveTemplate(members[k], ctx);
    assert parts.Keys == members.Keys;
  }

  lemma TextRendered(s: string, result: Json, ctx: Context)
    ensures ResolveTemplate(Str(s), ctx) == Ok(result) <==> Rendered(Str(s), Some(result), ctx)
  {
    hide Resolve, Denotes;
    if IsReference(s) {
      ResolveMeans(s, ctx, NoBinding, result);
    }
  }

  lemma {:induction false} ResolvedRenders(template: Json, result: Json, ctx: Context, place: Place)
    requires ResolveTemplate(template, ctx) == Ok(result)
    ensures RenderedAt(template, result, ctx, place)
    decreases |place|
  {
    hide Denotes, Resolve, GatherMembers, Rendered;
    if place == [] {
      NodeRendered(template, result, ctx);
    } else if Below(template, place[0]).Some? {
      var below, rest := Below(template, place[0]).value, place[1..];
      assert place == [place[0]] + rest;
      AtBelow(template, place[0], rest);
      AtBelow(result, place[0], rest);
      StepResolves(template, result, ctx, place[0]);
      ResolvedRenders(below, Below(result, place[0]).value, ctx, rest);
    }
  }

  lemma StepResolves(template: Json, result: Json, ctx: Context, step: Step)
    requires ResolveTemplate(template, ctx) == Ok(result) && Below(template, step).Some?
    ensures Below(result, step).Some?
    ensures ResolveTemplate(Below(template, step).value, ctx) == Ok(Below(result, step).value)
  {
    hide Resolve, GatherMembers;
    match template
    case Arr(elements) => EachTemplate(elements, ctx);
    case Obj(members) => EachMember(members, ctx);
    case _ =>
  }

  lemma NodeRendered(template: Json, result: Json, ctx: Context)
    requires ResolveTemplate(template, ctx) == Ok(result)
    ensures Rendered(template, Some(result), ctx)
  {
    hide Resolve, GatherMembers, Denotes;
    match template
    case Str(s) => TextRendered(s, result, ctx);
    case Arr(elements) => EachTemplate(elements, ctx);
    case Obj(members) => EachMember(members, ctx);
    case _ =>
  }

  lemma RenderedBelow(template: Json, result: Json, ctx: Context, step: Step)
    requires RenderedThroughout(template, result, ctx) && Below(template, step).Some?
    ensures Below(result, step).Some?
    ensures RenderedThroughout(Below(template, step).value, Below(result, step).value, ctx)
  {
    hide Denotes;
    assert RenderedAt(template, result, ctx, []);
    forall rest
      ensures RenderedAt(Below(template, step).value, Below(result, step).value, ctx, rest)
    {
      assert RenderedAt(template, result, ctx, [step] + rest);
      AtBelow(template, step, rest);
      AtBelow(result, step, rest);
    }
  }

  lemma {:induction false} RendersResolved(template: Json, result: Json, ctx: Context)
    requires RenderedThroughout(template, result, ctx)
    ensures ResolveTemplate(template, ctx) == Ok(result)
    decreases template
  {
    hide Denotes, Resolve, GatherMembers;
    assert RenderedAt(template, result, ctx, []);
    match template
    case Str(s) => TextRendered(s, result, ctx);
    case Arr(elements) =>
      forall i | 0 <= i < |elements|
        ensures ResolveTemplate(elements[i], ctx) == Ok(result.elements[i])
      {
        RenderedBelow(template, result, ctx, Element(i));
        RendersResolved(elements[i], result.elements[i], ctx);
      }
      EachTemplate(elements, ctx);
      assert ResolveTemplates(elements, ctx).value == result.elements;
    case Obj(members) =>
      forall k | k in members
        ensures ResolveTemplate(members[k], ctx) == Ok(result.members[k])
      {
        RenderedBelow(template, result, ctx, Member(k));
        RendersResolved(members[k], result.members[k], ctx);
      }
      EachMember(members, ctx);
      assert ResolveTemplate(template, ctx).value.members == result.members;
    case _ =>
  }

  /** A template resolves to exactly the value that renders it at every node. */
  lemma TemplateMeans(template: Json, result: Json, ctx: Context)
    ensures ResolveTemplate(template, ctx) == Ok(result) <==> RenderedThroughout(template, result, ctx)
  {
    hide ResolveTemplate, RenderedAt;
    if ResolveTemplate(template, ctx) == Ok(result) {
      forall place
        ensures RenderedAt(template, result, ctx, place)
      {
        ResolvedRenders(template, result, ctx, place);
      }
    }
    if RenderedThroughout(template, result, ctx) {
      RendersResolved(template, result, ctx);
    }
  }

  /** It fails exactly when some reference in it denotes nothing. */
  lemma {:induction false} TemplateFails(template: Json, ctx: Context)
    ensures ResolveTemplate(template, ctx).Err?
       <==> exists place, s :: At(template, place) == Some(Str(s)) && IsReference(s)
                  && !exists value :: Denotes(s, ctx, NoBinding, value)
    decreases template
  {
    hide Denotes, Resolve, GatherMembers, IsReference, IsEscaped;
    if ResolveTemplate(template, ctx).Ok? {
      forall place, s | At(template, place) == Some(Str(s)) && IsReference(s)
        ensures exists value :: Denotes(s, ctx, NoBinding, value)
      {
        ResolvedRenders(template, ResolveTemplate(template, ctx).value, ctx, place);
      }
    } else {
      var place, s := FailingReference(template, ctx);
    }
  }

  lemma {:induction false} FailingReference(template: Json, ctx: Context) returns (place: Place, s: string)
    requires ResolveTemplate(template, ctx).Err?
    ensures At(template, place) == Some(Str(s)) && IsReference(s)
    ensures !exists value :: Denotes(s, ctx, NoBinding, value)
    decreases template
  {
    hide Denotes, Resolve, GatherMembers;
    match template
    case Str(text) =>
      place, s := [], text;
      forall value
        ensures !Denotes(s, ctx, NoBinding, value)
      {
        ResolveMeans(s, ctx, NoBinding, value);
      }
    case Arr(elements) =>
      EachTemplate(elements, ctx);
      var i :| 0 <= i < |elements| && ResolveTemplate(elements[i], ctx).Err?;
      var rest;
      rest, s := FailingReference(elements[i], ctx);
      place := [Element(i)] + rest;
      AtBelow(template, Element(i), rest);
    case Obj(members) =>
      EachMember(members, ctx);
      var k :| k in members && ResolveTemplate(members[k], ctx).Err?;
      var rest;
      rest, s := FailingReference(members[k], ctx);
      place := [Member(k)] + rest;
      AtBelow(template, Member(k), rest);
    case _ =>
  }

  // --- Operands -----------------------------------------------------------------------------------

  /** A reference observes a value when it denotes one other than null. */
  ghost predicate Observes(s: string, ctx: Context, b: Bindings, value: Json) {
    !value.Null? && Denotes(s, ctx, b, value)
  }

  /** What an operand's node is read as. */
  ghost predicate Read(node: Json, result: Option<Json>, ctx: Context, b: Bindings) {
    match node
    case Str(s) =>
      if IsReference(s) then result.Some? && Observes(s, ctx, b, result.value)
      else if IsEscaped(s) then result == Some(Str(s[1..]))
      else result == Some(node)
    case Arr(elements) => result.Some? && result.value.Arr? && |result.value.elements| == |elements|
    case Obj(members) => result.Some? && result.value.Obj? && result.value.members.Keys == members.Keys
    case _ => result == Some(node)
  }

  ghost predicate ReadAt(operand: Json, result: Json, ctx: Context, b: Bindings, place: Place) {
    At(operand, place).Some? ==> Read(At(operand, place).value, At(result, place), ctx, b)
  }

  ghost predicate ReadThroughout(operand: Json, result: Json, ctx: Context, b: Bindings) {
    forall place :: ReadAt(operand, result, ctx, b, place)
  }

  /** A reference in the operand that observes nothing. */
  ghost predicate Unobserves(operand: Json, ctx: Context, b: Bindings, place: Place, s: string) {
    At(operand, place) == Some(Str(s)) && IsReference(s) && !exists value :: Observes(s, ctx, b, value)
  }

  ghost predicate SomeNames(values: seq<Json>, ctx: Context, b: Bindings, address: string)
    requires forall i | 0 <= i < |values| :: ResolveOperand(values[i], ctx, b).Ok?
  {
    exists i :: 0 <= i < |values| && address in ResolveOperand(values[i], ctx, b).value.1
  }

  lemma EachOperand(values: seq<Json>, ctx: Context, b: Bindings)
    ensures ResolveOperands(values, ctx, b).Ok? <==> forall i | 0 <= i < |values| :: ResolveOperand(values[i], ctx, b).Ok?
    ensures ResolveOperands(values, ctx, b).Ok? ==>
              var (found, u) := ResolveOperands(values, ctx, b).value;
              && (found.Some? <==> forall i | 0 <= i < |values| :: ResolveOperand(values[i], ctx, b).value.0.Some?)
              && (found.Some? ==>
                    && |found.value| == |values|
                    && forall i | 0 <= i < |values| :: ResolveOperand(values[i], ctx, b).value.0 == Some(found.value[i]))
              && forall a :: a in u <==> SomeNames(values, ctx, b, a)
  {
    hide ResolveOperand;
    if values != [] {
      var rest := values[1..];
      EachOperand(rest, ctx, b);
      assert values == [values[0]] + rest;
      if forall i | 0 <= i < |values| :: ResolveOperand(values[i], ctx, b).Ok? {
        forall i | 0 <= i < |rest|
          ensures ResolveOperand(rest[i], ctx, b).Ok?
        {
          assert rest[i] == values[i + 1];
        }
        SplitOperands(values, ctx, b);
      }
    }
  }

  lemma SplitOperands(values: seq<Json>, ctx: Context, b: Bindings)
    requires values != [] && forall i | 0 <= i < |values| :: ResolveOperand(values[i], ctx, b).Ok?
    requires forall i | 0 <= i < |values| - 1 :: ResolveOperand(values[1..][i], ctx, b).Ok?
    ensures (forall i | 0 <= i < |values| :: ResolveOperand(values[i], ctx, b).value.0.Some?)
       <==> ResolveOperand(values[0], ctx, b).value.0.Some?
            && forall i | 0 <= i < |values| - 1 :: ResolveOperand(values[1..][i], ctx, b).value.0.Some?
    ensures forall a :: SomeNames(values, ctx, b, a)
                   <==> a in ResolveOperand(values[0], ctx, b).value.1 || SomeNames(values[1..], ctx, b, a)
  {
    hide ResolveOperand;
    assert forall i | 0 < i < |values| :: values[i] == values[1..][i - 1];
    assert forall i | 0 <= i < |values| - 1 :: values[1..][i] == values[i + 1];
  }

  lemma EachMemberOperand(members: Object, ctx: Context, b: Bindings)
    ensures ResolveOperand(Obj(members), ctx, b).Ok? <==> forall k | k in members :: ResolveOperand(members[k], ctx, b).Ok?
    ensures ResolveOperand(Obj(members), ctx, b).Ok? ==>
              var (found, u) := ResolveOperand(Obj(members), ctx, b).value;
              && (found.Some? <==> forall k | k in members :: ResolveOperand(members[k], ctx, b).value.0.Some?)
              && (found.Some? ==>
                    && found.value.Obj? && found.value.members.Keys == members.Keys
                    && forall k | k in members :: ResolveOperand(members[k], ctx, b).value.0 == Some(found.value.members[k]))
              && forall a :: (a in u <==> exists k :: k in members && a in ResolveOperand(members[k], ctx, b).value.1)
  {
    hide Resolve, ResolveOperands;
    var parts := map k | k in members :: ResolveOperand(members[k], ctx, b);
    assert parts.Keys == members.Keys;
    assert forall k | k in members :: parts[k] == ResolveOperand(members[k], ctx, b);
    GatheredMeans(parts);
    assert ResolveOperand(Obj(members), ctx, b) == GatherOperands(parts);
  }

  lemma GatheredMeans(parts: map<string, Result<(Option<Json>, set<string>), CoreError>>)
    ensures GatherOperands(parts).Ok? <==> forall k | k in parts :: parts[k].Ok?
    ensures GatherOperands(parts).Ok? ==>
              var (found, u) := GatherOperands(parts).value;
              && (found.Some? <==> forall k | k in parts :: parts[k].value.0.Some?)
              && (found.Some? ==>
                    && found.value.Obj? && found.value.members.Keys == parts.Keys
                    && forall k | k in parts :: parts[k].value.0 == Some(found.value.members[k]))
              && forall a :: (a in u <==> exists k :: k in parts && a in parts[k].value.1)
  {
    if GatherOperands(parts).Ok? && GatherOperands(parts).value.0.Some? {
      assert GatherOperands(parts).value.0.value.members.Keys == parts.Keys;
    }
  }

  lemma TextRead(s: string, ctx: Context, b: Bindings, result: Json)
    requires ResolveOperand(Str(s), ctx, b).Ok?
    ensures ResolveOperand(Str(s), ctx, b).value.0 == Some(result) <==> Read(Str(s), Some(result), ctx, b)
  {
    hide Resolve, Denotes;
    if IsReference(s) {
      ResolveMeans(s, ctx, b, result);
    }
  }

  lemma NodeRead(operand: Json, result: Json, ctx: Context, b: Bindings)
    requires ResolveOperand(operand, ctx, b).Ok? && ResolveOperand(operand, ctx, b).value.0 == Some(result)
    ensures Read(operand, Some(result), ctx, b)
  {
    hide Resolve, GatherOperands, Denotes;
    match operand
    case Str(s) => TextRead(s, ctx, b, result);
    case Arr(elements) => EachOperand(elements, ctx, b);
    case Obj(members) => EachMemberOperand(members, ctx, b);
    case _ =>
  }

  lemma StepOperand(operand: Json, ctx: Context, b: Bindings, step: Step)
    requires ResolveOperand(operand, ctx, b).Ok? && Below(operand, step).Some?
    ensures ResolveOperand(Below(operand, step).value, ctx, b).Ok?
    ensures ResolveOperand(operand, ctx, b).value.0.Some? ==>
              && Below(ResolveOperand(operand, ctx, b).value.0.value, step).Some?
              && ResolveOperand(Below(operand, step).value, ctx, b).value.0
                 == Below(ResolveOperand(operand, ctx, b).value.0.value, step)
    ensures ResolveOperand(Below(operand, step).value, ctx, b).value.1 <= ResolveOperand(operand, ctx, b).value.1
  {
    hide Resolve, GatherOperands;
    match operand
    case Arr(elements) =>
      EachOperand(elements, ctx, b);
      forall a | a in ResolveOperand(Below(operand, step).value, ctx, b).value.1
        ensures a in ResolveOperand(operand, ctx, b).value.1
      {
        assert SomeNames(elements, ctx, b, a);
      }
    case Obj(members) => EachMemberOperand(members, ctx, b);
    case _ =>
  }

  lemma {:induction false} ResolvedReads(operand: Json, result: Json, ctx: Context, b: Bindings, place: Place)
    requires ResolveOperand(operand, ctx, b).Ok? && ResolveOperand(operand, ctx, b).value.0 == Some(result)
    ensures ReadAt(operand, result, ctx, b, place)
    decreases |place|
  {
    hide ResolveOperand, Read;
    if place == [] {
      NodeRead(operand, result, ctx, b);
    } else if Below(operand, place[0]).Some? {
      var below, rest := Below(operand, place[0]).value, place[1..];
      assert place == [place[0]] + rest;
      AtBelow(operand, place[0], rest);
      AtBelow(result, place[0], rest);
      StepOperand(operand, ctx, b, place[0]);
      ResolvedReads(below, Below(result, place[0]).value, ctx, b, rest);
    }
  }

  lemma ReadBelow(operand: Json, result: Json, ctx: Context, b: Bindings, step: Step)
    requires ReadThroughout(operand, result, ctx, b) && Below(operand, step).Some?
    ensures Below(result, step).Some?
    ensures ReadThroughout(Below(operand, step).value, Below(result, step).value, ctx, b)
  {
    hide Denotes;
    assert ReadAt(operand, result, ctx, b, []);
    forall rest
      ensures ReadAt(Below(operand, step).value, Below(result, step).value, ctx, b, rest)
    {
      assert ReadAt(operand, result, ctx, b, [step] + rest);
      AtBelow(operand, step, rest);
      AtBelow(result, step, rest);
    }
  }

  lemma {:induction false} ReadsResolved(operand: Json, result: Json, ctx: Context, b: Bindings)
    requires ResolveOperand(operand, ctx, b).Ok? && ReadThroughout(operand, result, ctx, b)
    ensures ResolveOperand(operand, ctx, b).value.0 == Some(result)
    decreases operand
  {
    hide Denotes, Resolve, GatherOperands;
    assert ReadAt(operand, result, ctx, b, []);
    match operand
    case Str(s) => TextRead(s, ctx, b, result);
    case Arr(elements) =>
      EachOperand(elements, ctx, b);
      forall i | 0 <= i < |elements|
        ensures ResolveOperand(elements[i], ctx, b).value.0 == Some(result.elements[i])
      {
        ReadBelow(operand, result, ctx, b, Element(i));
        ReadsResolved(elements[i], result.elements[i], ctx, b);
      }
      assert ResolveOperands(elements, ctx, b).value.0.value == result.elements;
    case Obj(members) =>
      EachMemberOperand(members, ctx, b);
      forall k | k in members
        ensures ResolveOperand(members[k], ctx, b).value.0 == Some(result.members[k])
      {
        ReadBelow(operand, result, ctx, b, Member(k));
        ReadsResolved(members[k], result.members[k], ctx, b);
      }
      assert ResolveOperand(operand, ctx, b).value.0.value.members == result.members;
    case _ =>
  }

  lemma {:induction false} UnobservedIsNamed(operand: Json, ctx: Context, b: Bindings, place: Place, s: string)
    requires ResolveOperand(operand, ctx, b).Ok? && Unobserves(operand, ctx, b, place, s)
    ensures s in ResolveOperand(operand, ctx, b).value.1
    decreases |place|
  {
    hide Denotes, Resolve, GatherOperands, ResolveOperands;
    if place == [] {
      var resolved := Resolve(s, ctx, b);
      if resolved.Ok? && resolved.value.Some? {
        ResolveMeans(s, ctx, b, resolved.value.value);
        assert !Observes(s, ctx, b, resolved.value.value);
      }
    } else {
      var rest := place[1..];
      assert place == [place[0]] + rest;
      AtBelow(operand, place[0], rest);
      StepOperand(operand, ctx, b, place[0]);
      UnobservedIsNamed(Below(operand, place[0]).value, ctx, b, rest, s);
    }
  }

  lemma {:induction false} NamedIsUnobserved(operand: Json, ctx: Context, b: Bindings, s: string) returns (place: Place)
    requires ResolveOperand(operand, ctx, b).Ok? && s in ResolveOperand(operand, ctx, b).value.1
    ensures Unobserves(operand, ctx, b, place, s)
    decreases operand
  {
    hide Denotes, Resolve, GatherOperands, ResolveOperands;
    match operand
    case Str(text) =>
      place := [];
      forall value
        ensures !Observes(s, ctx, b, value)
      {
        ResolveMeans(s, ctx, b, value);
      }
    case Arr(elements) =>
      EachOperand(elements, ctx, b);
      assert SomeNames(elements, ctx, b, s);
      var i :| 0 <= i < |elements| && s in ResolveOperand(elements[i], ctx, b).value.1;
      var rest := NamedIsUnobserved(elements[i], ctx, b, s);
      place := [Element(i)] + rest;
      AtBelow(operand, Element(i), rest);
    case Obj(members) =>
      EachMemberOperand(members, ctx, b);
      var k :| k in members && s in ResolveOperand(members[k], ctx, b).value.1;
      var rest := NamedIsUnobserved(members[k], ctx, b, s);
      place := [Member(k)] + rest;
      AtBelow(operand, Member(k), rest);
    case _ =>
  }

  /** An operand that resolves is read at every node, or names exactly its references that observe nothing. */
  lemma OperandMeans(operand: Json, ctx: Context, b: Bindings)
    requires ResolveOperand(operand, ctx, b).Ok?
    ensures forall result :: ResolveOperand(operand, ctx, b).value.0 == Some(result)
                        <==> ReadThroughout(operand, result, ctx, b)
    ensures forall s :: s in ResolveOperand(operand, ctx, b).value.1
                   <==> exists place :: Unobserves(operand, ctx, b, place, s)
  {
    hide ResolveOperand, ReadAt, Unobserves;
    forall result
      ensures ResolveOperand(operand, ctx, b).value.0 == Some(result) <==> ReadThroughout(operand, result, ctx, b)
    {
      if ResolveOperand(operand, ctx, b).value.0 == Some(result) {
        forall place
          ensures ReadAt(operand, result, ctx, b, place)
        {
          ResolvedReads(operand, result, ctx, b, place);
        }
      }
      if ReadThroughout(operand, result, ctx, b) {
        ReadsResolved(operand, result, ctx, b);
      }
    }
    forall s
      ensures s in ResolveOperand(operand, ctx, b).value.1 <==> exists place :: Unobserves(operand, ctx, b, place, s)
    {
      if s in ResolveOperand(operand, ctx, b).value.1 {
        var place := NamedIsUnobserved(operand, ctx, b, s);
      }
      if place :| Unobserves(operand, ctx, b, place, s) {
        UnobservedIsNamed(operand, ctx, b, place, s);
      }
    }
  }

  /** It fails exactly when some reference in it says nothing. */
  lemma {:induction false} OperandFailsExactly(operand: Json, ctx: Context, b: Bindings)
    ensures ResolveOperand(operand, ctx, b).Err?
       <==> exists place, s :: At(operand, place) == Some(Str(s)) && IsReference(s) && Undefined(s, ctx, b)
    decreases operand
  {
    hide Undefined, Resolve, GatherOperands, ResolveOperands;
    if ResolveOperand(operand, ctx, b).Ok? {
      forall place, s | At(operand, place) == Some(Str(s)) && IsReference(s)
        ensures !Undefined(s, ctx, b)
      {
        DefinedBelow(operand, ctx, b, place, s);
      }
    } else {
      var place, s := UndefinedReference(operand, ctx, b);
    }
  }

  lemma {:induction false} DefinedBelow(operand: Json, ctx: Context, b: Bindings, place: Place, s: string)
    requires ResolveOperand(operand, ctx, b).Ok? && At(operand, place) == Some(Str(s)) && IsReference(s)
    ensures !Undefined(s, ctx, b)
    decreases |place|
  {
    hide Undefined, Resolve, GatherOperands, ResolveOperands, Denotes;
    if place == [] {
      ResolveMeans(s, ctx, b, Null);
    } else {
      var rest := place[1..];
      assert place == [place[0]] + rest;
      AtBelow(operand, place[0], rest);
      StepOperand(operand, ctx, b, place[0]);
      DefinedBelow(Below(operand, place[0]).value, ctx, b, rest, s);
    }
  }

  lemma {:induction false} UndefinedReference(operand: Json, ctx: Context, b: Bindings)
    returns (place: Place, s: string)
    requires ResolveOperand(operand, ctx, b).Err?
    ensures At(operand, place) == Some(Str(s)) && IsReference(s) && Undefined(s, ctx, b)
    decreases operand
  {
    hide Undefined, Resolve, GatherOperands, ResolveOperands, Denotes;
    match operand
    case Str(text) =>
      place, s := [], text;
      ResolveMeans(s, ctx, b, Null);
    case Arr(elements) =>
      EachOperand(elements, ctx, b);
      var i :| 0 <= i < |elements| && ResolveOperand(elements[i], ctx, b).Err?;
      var rest;
      rest, s := UndefinedReference(elements[i], ctx, b);
      place := [Element(i)] + rest;
      AtBelow(operand, Element(i), rest);
    case Obj(members) =>
      EachMemberOperand(members, ctx, b);
      var k :| k in members && ResolveOperand(members[k], ctx, b).Err?;
      var rest;
      rest, s := UndefinedReference(members[k], ctx, b);
      place := [Member(k)] + rest;
      AtBelow(operand, Member(k), rest);
    case _ =>
  }
}
