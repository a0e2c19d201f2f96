/** Resolving an operand as the source does: in order, passing the set of unobserved addresses along. */
module Operands {
  import opened Prelude
  import opened Keys
  import opened Definition
  import opened Paths
  import opened Evaluator

  /** Every address a condition read and found nothing at. */
  class Unobserved {
    var addresses: set<string>

    constructor ()
      ensures addresses == {}
    {
      addresses := {};
    }

    method Record(more: set<string>)
      modifies this
      ensures addresses == old(addresses) + more
    {
      addresses := addresses + more;
    }
  }

  type Found = Result<(Option<Json>, set<string>), CoreError>

  type FoundEach = Result<(Option<seq<Json>>, set<string>), CoreError>

  /** Whether `r` and the addresses added to `before` are what `found` says. */
  ghost predicate Finds(found: Found, r: Result<Option<Json>, CoreError>, before: set<string>, after: set<string>) {
    if found.Err? then r == Err(found.error)
    else r == Ok(found.value.0) && after == before + found.value.1
  }

  lemma OperandFails(value: Json, ctx: Context, b: Bindings)
    ensures ResolveOperand(value, ctx, b).Err? ==> ResolveOperand(value, ctx, b).error == TemplateError
  {
    hide ResolvePath, ResolveElement, ReferenceOf, Head, Tail;
    match value
    case Arr(elements) => OperandsFail(elements, ctx, b);
    case _ =>
  }

  lemma OperandsFail(values: seq<Json>, ctx: Context, b: Bindings)
    ensures ResolveOperands(values, ctx, b).Err? ==> ResolveOperands(values, ctx, b).error == TemplateError
  {
    if values != [] {
      OperandFails(values[0], ctx, b);
      OperandsFail(values[1..], ctx, b);
    }
  }

  method FindOperand(value: Json, ctx: Context, b: Bindings, unobserved: Unobserved)
    returns (r: Result<Option<Json>, CoreError>)
    modifies unobserved
    ensures Finds(ResolveOperand(value, ctx, b), r, old(unobserved.addresses), unobserved.addresses)
    decreases value, 1
  {
    hide Resolve, ResolveOperands, GatherOperands;
    match value
    case Str(s) =>
      if IsEscaped(s) {
        return Ok(Some(Str(s[1..])));
      }
      if !IsReference(s) {
        return Ok(Some(value));
      }
      var resolved := Resolve(s, ctx, b);
      if resolved.Err? {
        return Err(resolved.error);
      }
      if resolved.value.None? || resolved.value.value.Null? {
        unobserved.Record({s});
        return Ok(None);
      }
      r := resolved;
    case Arr(elements) => r := FindElements(elements, ctx, b, unobserved);
    case Obj(members) => r := FindMembers(members, ctx, b, unobserved);
    case _ => r := Ok(Some(value));
  }

  // --- Lists --------------------------------------------------------------------------------------

  function Whole(resolved: seq<Json>, complete: bool): Option<seq<Json>> {
    if complete then Some(resolved) else None
  }

  /** What was resolved so far, in front of the rest. */
  function InFront(resolved: seq<Json>, complete: bool, u: set<string>, rest: FoundEach): FoundEach {
    if rest.Err? then rest
    else
      Ok((if complete && rest.value.0.Some? then Some(resolved + rest.value.0.value) else None, u + rest.value.1))
  }

  lemma InFrontEnds(resolved: seq<Json>, complete: bool, u: set<string>, whole: FoundEach)
    ensures InFront([], true, {}, whole) == whole
    ensures InFront(resolved, complete, u, Ok((Some([]), {}))) == Ok((Whole(resolved, complete), u))
  {
    if whole.Ok? {
      assert {} + whole.value.1 == whole.value.1;
      if whole.value.0.Some? {
        assert [] + whole.value.0.value == whole.value.0.value;
      }
    }
    assert resolved + [] == resolved;
    assert u + {} == u;
  }

  lemma InFrontStep(values: seq<Json>, ctx: Context, b: Bindings, resolved: seq<Json>, complete: bool, u: set<string>)
    requires values != []
    ensures InFront(resolved, complete, u, ResolveOperands(values, ctx, b))
         == var first := ResolveOperand(values[0], ctx, b);
            if first.Err? then Err(first.error)
            else InFront(if first.value.0.Some? then resolved + [first.value.0.value] else resolved,
                         complete && first.value.0.Some?, u + first.value.1, ResolveOperands(values[1..], ctx, b))
  {
    hide ResolveOperand;
    var first, rest := ResolveOperand(values[0], ctx, b), ResolveOperands(values[1..], ctx, b);
    if first.Ok? && rest.Ok? {
      assert u + (first.value.1 + rest.value.1) == u + first.value.1 + rest.value.1;
      if first.value.0.Some? && rest.value.0.Some? {
        var v := first.value.0.value;
        assert resolved + ([v] + rest.value.0.value) == resolved + [v] + rest.value.0.value;
      }
    }
  }

  /** Going on after the first gap: the addresses are the point. */
  method FindElements(elements: seq<Json>, ctx: Context, b: Bindings, unobserved: Unobserved)
    returns (r: Result<Option<Json>, CoreError>)
    modifies unobserved
    ensures Finds(ResolveOperand(Arr(elements), ctx, b), r, old(unobserved.addresses), unobserved.addresses)
    decreases Arr(elements), 0
  {
    hide ResolveOperands, InFront, ResolveOperand;
    ElementsFound(elements, ctx, b);
    ghost var before, u, whole := unobserved.addresses, {}, ResolveOperands(elements, ctx, b);
    var resolved: seq<Json>, complete := [], true;
    InFrontEnds(resolved, complete, u, whole);
    for i := 0 to |elements|
      invariant unobserved.addresses == before + u
      invariant whole == InFront(resolved, complete, u, ResolveOperands(elements[i..], ctx, b))
    {
      InFrontStep(elements[i..], ctx, b, resolved, complete, u);
      assert elements[i..][0] == elements[i] && elements[i..][1..] == elements[i + 1..];
      var found := FindOperand(elements[i], ctx, b, unobserved);
      if found.Err? {
        return Err(found.error);
      }
      u := u + ResolveOperand(elements[i], ctx, b).value.1;
      if found.value.Some? {
        resolved := resolved + [found.value.value];
      } else {
        complete := false;
      }
    }
    assert elements[|elements|..] == [];
    InFrontEnds(resolved, complete, u, whole);
    NoOperands(ctx, b);
    r := Ok(if complete then Some(Arr(resolved)) else None);
  }

  lemma ElementsFound(elements: seq<Json>, ctx: Context, b: Bindings)
    ensures ResolveOperand(Arr(elements), ctx, b)
         == var found := ResolveOperands(elements, ctx, b);
            if found.Err? then Err(found.error)
            else Ok((if found.value.0.Some? then Some(Arr(found.value.0.value)) else None, found.value.1))
  {
    hide Resolve, ResolveOperands, GatherOperands;
  }

  lemma NoOperands(ctx: Context, b: Bindings)
    ensures ResolveOperands([], ctx, b) == Ok((Some([]), {}))
  {
  }

  // --- Mappings -----------------------------------------------------------------------------------

  /** What is found of each member. */
  function Parts(members: Object, ctx: Context, b: Bindings): map<string, Found> {
    map k | k in members :: ResolveOperand(members[k], ctx, b)
  }

  function Addresses(parts: map<string, Found>, done: seq<string>): set<string> {
    set k, a | k in done && k in parts && parts[k].Ok? && a in parts[k].value.1 :: a
  }

  /** The members walked are resolved, and whether one of them was missing is known. */
  ghost predicate GatheredSoFar(parts: map<string, Found>, done: seq<string>, resolved: Object, complete: bool) {
    && (forall k | k in done :: k in parts && parts[k].Ok?)
    && (complete <==> forall k | k in done :: parts[k].value.0.Some?)
    && (forall k :: k in resolved <==> k in done && parts[k].value.0.Some?)
    && (forall k | k in resolved :: resolved[k] == parts[k].value.0.value)
  }

  lemma GatherStep(parts: map<string, Found>, done: seq<string>, key: string, resolved: Object, complete: bool)
    requires GatheredSoFar(parts, done, resolved, complete) && key in parts && parts[key].Ok?
    ensures var found := parts[key].value.0;
            GatheredSoFar(parts, done + [key], if found.Some? then resolved[key := found.value] else resolved,
                          complete && found.Some?)
  {
    assert forall k :: k in done + [key] <==> k in done || k == key;
  }

  lemma AddressesStep(parts: map<string, Found>, done: seq<string>, key: string)
    requires key in parts && parts[key].Ok?
    ensures Addresses(parts, done + [key]) == Addresses(parts, done) + parts[key].value.1
  {
    assert forall k :: k in done + [key] <==> k in done || k == key;
  }

  lemma AddressesDone(parts: map<string, Found>, done: seq<string>)
    requires forall k | k in parts.Keys :: k in done && parts[k].Ok?
    ensures GatherOperands(parts).Ok? && GatherOperands(parts).value.1 == Addresses(parts, done)
  {
  }

  lemma GatherDone(parts: map<string, Found>, done: seq<string>, resolved: Object, complete: bool)
    requires GatheredSoFar(parts, done, resolved, complete)
    requires forall k | k in parts.Keys :: k in done
    ensures GatherOperands(parts) == Ok((if complete then Some(Obj(resolved)) else None, Addresses(parts, done)))
  {
    hide Addresses;
    AddressesDone(parts, done);
    if complete {
      assert (map k | k in parts :: parts[k].value.0.value) == resolved;
    } else {
      var k :| k in done && parts[k].value.0.None?;
      assert k in parts;
    }
  }

  /** The members walked so far are gathered, and `now` holds their addresses beside those before. */
  ghost predicate WalkedSoFar(parts: map<string, Found>, done: seq<string>, resolved: Object, complete: bool,
                              before: set<string>, now: set<string>)
  {
    GatheredSoFar(parts, done, resolved, complete) && now == before + Addresses(parts, done)
  }

  lemma WalkStep(parts: map<string, Found>, done: seq<string>, key: string, resolved: Object, complete: bool,
                 before: set<string>, now: set<string>, r: Result<Option<Json>, CoreError>, after: set<string>)
    requires WalkedSoFar(parts, done, resolved, complete, before, now) && key in parts
    requires Finds(parts[key], r, now, after)
    requires parts[key].Err? ==> parts[key].error == TemplateError
    ensures if r.Err? then Finds(GatherOperands(parts), r, before, after)
            else WalkedSoFar(parts, done + [key], if r.value.Some? then resolved[key := r.value.value] else resolved,
                             complete && r.value.Some?, before, after)
  {
    hide GatheredSoFar, Addresses, GatherOperands;
    if r.Err? {
      GatherFails(parts, key);
    } else {
      GatherStep(parts, done, key, resolved, complete);
      AddressesStep(parts, done, key);
    }
  }

  /** In key order, past every gap. */
  method FindMembers(members: Object, ctx: Context, b: Bindings, unobserved: Unobserved)
    returns (r: Result<Option<Json>, CoreError>)
    modifies unobserved
    ensures Finds(ResolveOperand(Obj(members), ctx, b), r, old(unobserved.addresses), unobserved.addresses)
    decreases Obj(members), 0
  {
    hide GatherOperands, WalkedSoFar, ResolveOperand, Parts, Finds, SortedKeys;
    MembersFound(members, ctx, b);
    ghost var before, parts := unobserved.addresses, Parts(members, ctx, b);
    var keys := SortedKeys(members.Keys);
    var resolved: Object, complete := map[], true;
    WalkStart(parts, before);
    assert keys[..0] == [];
    for i := 0 to |keys|
      invariant WalkedSoFar(parts, keys[..i], resolved, complete, before, unobserved.addresses)
    {
      var key := keys[i];
      assert key in keys && keys[..i + 1] == keys[..i] + [key];
      PartsAt(members, ctx, b, key);
      OperandFails(members[key], ctx, b);
      ghost var now := unobserved.addresses;
      var found := FindOperand(members[key], ctx, b, unobserved);
      WalkStep(parts, keys[..i], key, resolved, complete, before, now, found, unobserved.addresses);
      if found.Err? {
        return found;
      }
      if found.value.Some? {
        resolved := resolved[key := found.value.value];
      } else {
        complete := false;
      }
    }
    assert keys[..|keys|] == keys;
    WalkDone(parts, keys, resolved, complete, before, unobserved.addresses);
    r := Ok(if complete then Some(Obj(resolved)) else None);
  }

  lemma MembersFound(members: Object, ctx: Context, b: Bindings)
    ensures ResolveOperand(Obj(members), ctx, b) == GatherOperands(Parts(members, ctx, b))
    ensures Parts(members, ctx, b).Keys == members.Keys
  {
    hide Resolve, ResolveOperands, GatherOperands;
  }

  lemma PartsAt(members: Object, ctx: Context, b: Bindings, key: string)
    requires key in members
    ensures key in Parts(members, ctx, b) && Parts(members, ctx, b)[key] == ResolveOperand(members[key], ctx, b)
  {
    hide ResolveOperand;
  }

  lemma WalkStart(parts: map<string, Found>, before: set<string>)
    ensures WalkedSoFar(parts, [], map[], true, before, before)
  {
    assert Addresses(parts, []) == {};
  }

  lemma WalkDone(parts: map<string, Found>, done: seq<string>, resolved: Object, complete: bool,
                 before: set<string>, now: set<string>)
    requires WalkedSoFar(parts, done, resolved, complete, before, now)
    requires forall k | k in parts.Keys :: k in done
    ensures Finds(GatherOperands(parts), Ok(if complete then Some(Obj(resolved)) else None), before, now)
  {
    hide GatheredSoFar, Addresses, GatherOperands;
    GatherDone(parts, done, resolved, complete);
  }

  lemma GatherFails(parts: map<string, Found>, key: string)
    requires key in parts && parts[key].Err?
    ensures GatherOperands(parts) == Err(TemplateError)
  {
  }
}
