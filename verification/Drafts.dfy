/** Step 8 in place: one field map and one removal set, written entry by entry in key order. */
module Drafts {
  import opened Prelude
  import opened Keys
  import opened Definition
  import opened Reading
  import opened Evaluator
  import opened Values
  import opened Runtime

  type Parts = map<string, Result<Change, CoreError>>

  /** The changes of every part not still to be made. */
  function Done(parts: Parts, rest: set<string>): map<string, Change> {
    map k | k in parts && k !in rest && parts[k].Ok? :: parts[k].value
  }

  /** Everything outside `rest` succeeded and is written. */
  ghost predicate Progress(parts: Parts, rest: set<string>, start: Object, gone: set<string>,
                           fields: Object, removed: set<string>)
  {
    && rest <= parts.Keys && (forall k | k in parts && k !in rest :: parts[k].Ok?)
    && fields == Apply(start, Done(parts, rest)) && removed == gone + Dropped(Done(parts, rest))
  }

  function Made(fields: Object, k: string, change: Change): Object {
    match change
    case Keep => fields
    case Put(value) => fields[k := value]
    case Drop => fields - {k}
  }

  lemma ProgressStarts(parts: Parts, start: Object, gone: set<string>)
    ensures Progress(parts, parts.Keys, start, gone, start, gone)
  {
    assert Done(parts, parts.Keys) == map[];
    assert Apply(start, map[]) == start;
  }

  lemma ProgressStep(parts: Parts, rest: set<string>, start: Object, gone: set<string>, fields: Object,
                     removed: set<string>, k: string)
    requires Progress(parts, rest, start, gone, fields, removed) && k in rest && parts[k].Ok?
    ensures Progress(parts, rest - {k}, start, gone, Made(fields, k, parts[k].value),
                     if parts[k].value.Drop? then removed + {k} else removed)
  {
    hide Apply, Dropped, Made;
    var change := parts[k].value;
    var before, after := Done(parts, rest), Done(parts, rest - {k});
    assert after == before[k := change];
    MadeIsApplied(start, before, k, change);
  }

  lemma MadeIsApplied(start: Object, before: map<string, Change>, k: string, change: Change)
    requires k !in before
    ensures Apply(start, before[k := change]) == Made(Apply(start, before), k, change)
    ensures Dropped(before[k := change]) == if change.Drop? then Dropped(before) + {k} else Dropped(before)
  {
  }

  /** What the copying loop has copied once it has passed `names`. */
  ghost function Copied(conditional: map<string, string>, args: Object, names: seq<string>): Object {
    map k | k in PresentArguments(conditional, args) && k in names :: PresentArguments(conditional, args)[k]
  }

  lemma CopiedStep(fields: Object, conditional: map<string, string>, args: Object, names: seq<string>, name: string)
    requires name in conditional
    ensures var value := ArgumentPresence(args, conditional[name]);
            fields + Copied(conditional, args, names + [name]) ==
              if value.Some? then (fields + Copied(conditional, args, names))[name := value.value]
              else fields + Copied(conditional, args, names)
  {
    hide ArgumentPresence;
  }

  lemma CopiedNone(fields: Object, conditional: map<string, string>, args: Object)
    ensures fields == fields + Copied(conditional, args, [])
  {
  }

  lemma CopiedAll(conditional: map<string, string>, args: Object, names: seq<string>)
    requires forall k | k in conditional :: k in names
    ensures Copied(conditional, args, names) == PresentArguments(conditional, args)
  {
    hide ArgumentPresence;
  }

  /** Every part succeeded: the gathered changes are the ones made. */
  lemma ProgressEnds(parts: Parts, start: Object, gone: set<string>, fields: Object, removed: set<string>)
    requires Progress(parts, {}, start, gone, fields, removed)
    ensures Gather(parts).Ok?
    ensures fields == Apply(start, Gather(parts).value) && removed == gone + Dropped(Gather(parts).value)
  {
    assert forall k | k in parts :: parts[k].Ok?;
    assert Gather(parts).value == Done(parts, {});
  }

  /** The first failure met in key order is the one reported. */
  lemma FirstFailure(parts: Parts, rest: set<string>, start: Object, gone: set<string>, fields: Object,
                     removed: set<string>)
    requires Progress(parts, rest, start, gone, fields, removed) && rest != {} && parts[Least(rest)].Err?
    ensures Gather(parts) == Err(parts[Least(rest)].error)
  {
    var k := Least(rest);
    var failing := set j | j in parts && parts[j].Err?;
    assert k in failing && failing <= rest;
    LeastUnique(k, Least(failing), failing);
  }

  lemma NextKey(rest: set<string>)
    requires rest != {}
    ensures SortedKeys(rest) == [Least(rest)] + SortedKeys(rest - {Least(rest)})
  {
  }

  /** An argument is present exactly when the caller supplied it. */
  lemma PresentMeans(conditional: map<string, string>, args: Object, k: string, v: Json)
    ensures k in PresentArguments(conditional, args) && PresentArguments(conditional, args)[k] == v
       <==> k in conditional && Supplies(args, conditional[k], v)
  {
    hide ArgumentPresence, Supplies;
    if k in conditional {
      SuppliedExactly(args, conditional[k], v);
    }
  }

  /** Laying the present arguments over fields changes exactly the members the caller supplied. */
  lemma CopiesMean(fields: Object, conditional: map<string, string>, args: Object)
    ensures var after := fields + PresentArguments(conditional, args);
            && (forall k, v | k in conditional && Supplies(args, conditional[k], v) :: k in after && after[k] == v)
            && (forall k | !exists v :: k in conditional && Supplies(args, conditional[k], v) ::
                  (k in after <==> k in fields) && (k in after ==> after[k] == fields[k]))
  {
    hide PresentArguments, Supplies;
    var present := PresentArguments(conditional, args);
    forall k, v
      ensures k in present && present[k] == v <==> k in conditional && Supplies(args, conditional[k], v)
    {
      PresentMeans(conditional, args, k, v);
    }
    forall k | k in present
      ensures k in conditional && Supplies(args, conditional[k], present[k])
    {
      PresentMeans(conditional, args, k, present[k]);
    }
  }

  class Draft {
    var fields: Object
    var removed: set<string>

    constructor (fields: Object)
      ensures this.fields == fields && removed == {}
    {
      this.fields := fields;
      removed := {};
    }

    method Make(field: string, change: Change)
      modifies this
      ensures fields == Made(old(fields), field, change)
      ensures removed == if change.Drop? then old(removed) + {field} else old(removed)
    {
      match change
      case Keep =>
      case Put(value) => fields := fields[field := value];
      case Drop =>
        fields := fields - {field};
        removed := removed + {field};
    }

    /** The `set` loop: an entry that fails stops it. */
    method Assign(operation: string, assigns: map<string, Json>, ctx: Context) returns (r: Option<CoreError>)
      modifies this
      ensures var sets := Assigned(operation, assigns, ctx);
              if sets.Err? then r == Some(sets.error)
              else && r == None
                   && fields == Apply(old(fields), sets.value)
                   && removed == old(removed) + Dropped(sets.value)
    {
      hide AssignedValue, Progress, Gather, SortedKeys, Apply, Dropped, Made, Done, IsLeast;
      ghost var parts := map k | k in assigns :: AssignedValue(operation, k, assigns[k], ctx);
      ghost var rest := assigns.Keys;
      var names := SortedKeys(assigns.Keys);
      ProgressStarts(parts, fields, removed);
      assert parts.Keys == rest;
      for i := 0 to |names|
        invariant rest <= parts.Keys && names[i..] == SortedKeys(rest) && |names| - i == |rest|
        invariant Progress(parts, rest, old(fields), old(removed), fields, removed)
      {
        NextKey(rest);
        var field := names[i];
        assert names[i..][0] == field && names[i..][1..] == names[i + 1..];
        var change := AssignedValue(operation, field, assigns[field], ctx);
        if change.Err? {
          FirstFailure(parts, rest, old(fields), old(removed), fields, removed);
          return Some(change.error);
        }
        ProgressStep(parts, rest, old(fields), old(removed), fields, removed, field);
        Make(field, change.value);
        rest := rest - {field};
      }
      assert rest == {};
      ProgressEnds(parts, old(fields), old(removed), fields, removed);
      r := None;
    }

    /** The present arguments, copied one by one. */
    method CopyPresent(conditional: map<string, string>, args: Object)
      modifies this`fields
      ensures fields == old(fields) + PresentArguments(conditional, args)
      ensures forall k, v | k in conditional && Supplies(args, conditional[k], v) :: k in fields && fields[k] == v
      ensures forall k | !exists v :: k in conditional && Supplies(args, conditional[k], v) ::
                (k in fields <==> k in old(fields)) && (k in fields ==> fields[k] == old(fields)[k])
    {
      hide ArgumentPresence, PresentArguments, Copied, SortedKeys, Supplies;
      var names := SortedKeys(conditional.Keys);
      CopiedNone(fields, conditional, args);
      assert names[..0] == [];
      for i := 0 to |names|
        invariant fields == old(fields) + Copied(conditional, args, names[..i])
      {
        assert names[i] in names;
        assert names[..i + 1] == names[..i] + [names[i]];
        CopiedStep(old(fields), conditional, args, names[..i], names[i]);
        var value := ArgumentPresence(args, conditional[names[i]]);
        if value.Some? {
          fields := fields[names[i] := value.value];
        }
      }
      assert names[..|names|] == names;
      assert forall k | k in conditional.Keys :: k in names;
      CopiedAll(conditional, args, names);
      CopiesMean(old(fields), conditional, args);
    }

    /** The host's actions, held to exactly the fields the branch leaves to it. */
    method Fulfill(doors: Doors, definition: Definition, operation: string, branch: Branch,
                   fulfillments: Option<map<string, Action>>) returns (r: Option<CoreError>)
      modifies this
      ensures var changes := Fulfilled(doors, definition, operation, branch, fulfillments);
              if changes.Err? then r == Some(changes.error)
              else && r == None
                   && fields == Apply(old(fields), changes.value)
                   && removed == old(removed) + Dropped(changes.value)
    {
      hide ActionChange, Progress, Gather, SortedKeys;
      var outcome := if branch.name.Some? then branch.name.value else "";
      var required := branch.fulfills.Keys;
      if fulfillments.None? {
        if required == {} {
          assert Apply(fields, map[]) == fields;
          return None;
        }
        return Some(FulfillmentRequired(operation, outcome, required));
      }
      var actions := fulfillments.value;
      if actions.Keys != required {
        return Some(FulfillmentKeysMismatch(operation, outcome, required - actions.Keys, actions.Keys - required));
      }
      r := Act(doors, definition, operation, outcome, branch.fulfills, actions);
    }

    method Act(doors: Doors, definition: Definition, operation: string, outcome: string,
               requirements: map<string, Requirement>, actions: map<string, Action>)
      returns (r: Option<CoreError>)
      requires actions.Keys == requirements.Keys
      modifies this
      ensures var changes := Gather(map k | k in actions ::
                               ActionChange(doors, definition, operation, outcome, k, requirements[k], actions[k]));
              if changes.Err? then r == Some(changes.error)
              else && r == None
                   && fields == Apply(old(fields), changes.value)
                   && removed == old(removed) + Dropped(changes.value)
    {
      hide ActionChange, Progress, Gather, SortedKeys, Apply, Dropped;
      ghost var parts := map k | k in actions ::
        ActionChange(doors, definition, operation, outcome, k, requirements[k], actions[k]);
      ghost var rest := actions.Keys;
      var names := SortedKeys(actions.Keys);
      ProgressStarts(parts, fields, removed);
      assert parts.Keys == rest;
      for i := 0 to |names|
        invariant rest <= parts.Keys && names[i..] == SortedKeys(rest) && |names| - i == |rest|
        invariant Progress(parts, rest, old(fields), old(removed), fields, removed)
      {
        NextKey(rest);
        var field := names[i];
        assert names[i..][0] == field && names[i..][1..] == names[i + 1..];
        var change := ActionChange(doors, definition, operation, outcome, field, requirements[field], actions[field]);
        if change.Err? {
          FirstFailure(parts, rest, old(fields), old(removed), fields, removed);
          return Some(change.error);
        }
        ProgressStep(parts, rest, old(fields), old(removed), fields, removed, field);
        Make(field, change.value);
        rest := rest - {field};
      }
      assert rest == {};
      ProgressEnds(parts, old(fields), old(removed), fields, removed);
      r := None;
    }
  }

  /** Step 8 as the kernel runs it. */
  method WriteFields(doors: Doors, definition: Definition, name: string, branch: Branch, ctx: Context,
                     fulfillments: Option<map<string, Action>>)
    returns (r: Result<(Object, set<string>), CoreError>)
    ensures r == StepEight(doors, definition, name, branch, ctx, fulfillments)
  {
    hide Assigned, Fulfilled, PresentArguments, Apply, Dropped;
    var draft := new Draft(ctx.oldFields);
    var failed := draft.Assign(name, branch.assigns, ctx);
    if failed.Some? {
      return Err(failed.value);
    }
    draft.CopyPresent(branch.setIfPresent, ctx.args);
    failed := draft.Fulfill(doors, definition, name, branch, fulfillments);
    if failed.Some? {
      return Err(failed.value);
    }
    r := Ok((draft.fields, draft.removed));
    assert forall s: set<string> :: {} + s == s;
  }

  // --- Order and conservation ---------------------------------------------------------------------

  lemma ApplyTwice(fields: Object, a: map<string, Change>, b: map<string, Change>)
    requires a.Keys !! b.Keys
    ensures Apply(Apply(fields, a), b) == Apply(fields, a + b)
  {
  }

  function Puts(copied: Object): map<string, Change> {
    map k | k in copied :: Put(copied[k])
  }

  lemma CopyKeys(copied: Object)
    ensures Puts(copied).Keys == copied.Keys
  {
  }

  lemma CopyIsChange(fields: Object, copied: Object)
    ensures fields + copied == Apply(fields, Puts(copied)) && Dropped(Puts(copied)) == {}
  {
  }

  lemma ApplyThrice(fields: Object, a: map<string, Change>, b: map<string, Change>, c: map<string, Change>)
    requires a.Keys !! b.Keys && a.Keys !! c.Keys && b.Keys !! c.Keys
    ensures Apply(Apply(Apply(fields, a), b), c) == Apply(fields, a + b + c)
  {
    hide Apply;
    ApplyTwice(fields, a, b);
    ApplyTwice(fields, a + b, c);
  }

  lemma Swap(a: map<string, Change>, b: map<string, Change>)
    requires a.Keys !! b.Keys
    ensures a + b == b + a
  {
  }

  lemma SwapLast(a: map<string, Change>, b: map<string, Change>, c: map<string, Change>)
    requires b.Keys !! c.Keys
    ensures a + c + b == a + b + c
  {
  }

  lemma SumsAgree(a: map<string, Change>, b: map<string, Change>, c: map<string, Change>)
    requires a.Keys !! b.Keys && a.Keys !! c.Keys && b.Keys !! c.Keys
    ensures a + c + b == a + b + c && b + a + c == a + b + c && b + c + a == a + b + c
    ensures c + a + b == a + b + c && c + b + a == a + b + c
  {
    Swap(a, b);
    Swap(a, c);
    Swap(b, c);
    SwapLast(a, b, c);
    SwapLast(b, a, c);
  }

  /** Three writes of disjoint fields are one simultaneous update, in whichever order they are made. */
  lemma WritesCommute(fields: Object, sets: map<string, Change>, copied: Object, fulfilled: map<string, Change>)
    requires sets.Keys !! copied.Keys && sets.Keys !! fulfilled.Keys && copied.Keys !! fulfilled.Keys
    ensures var all, puts := sets + Puts(copied) + fulfilled, Puts(copied);
            && Written(fields, sets, copied, fulfilled) == (Apply(fields, all), Dropped(all))
            && Apply(fields, all) == Apply(Apply(Apply(fields, sets), fulfilled), puts)
            && Apply(fields, all) == Apply(Apply(Apply(fields, puts), sets), fulfilled)
            && Apply(fields, all) == Apply(Apply(Apply(fields, puts), fulfilled), sets)
            && Apply(fields, all) == Apply(Apply(Apply(fields, fulfilled), sets), puts)
            && Apply(fields, all) == Apply(Apply(Apply(fields, fulfilled), puts), sets)
  {
    hide Apply, Dropped, Puts;
    CopyKeys(copied);
    SumsAgree(sets, Puts(copied), fulfilled);
    var all, puts := sets + Puts(copied) + fulfilled, Puts(copied);
    CopyIsChange(Apply(fields, sets), copied);
    ApplyThrice(fields, sets, puts, fulfilled);
    ApplyThrice(fields, sets, fulfilled, puts);
    ApplyThrice(fields, puts, sets, fulfilled);
    ApplyThrice(fields, puts, fulfilled, sets);
    ApplyThrice(fields, fulfilled, sets, puts);
    ApplyThrice(fields, fulfilled, puts, sets);
    DroppedOf(sets, copied, fulfilled);
  }

  lemma DroppedOf(sets: map<string, Change>, copied: Object, fulfilled: map<string, Change>)
    requires sets.Keys !! copied.Keys && sets.Keys !! fulfilled.Keys && copied.Keys !! fulfilled.Keys
    ensures Dropped(sets) + Dropped(fulfilled) == Dropped(sets + Puts(copied) + fulfilled)
  {
  }

  /** What changed and what was removed, laid over what was there, is what is there now. */
  lemma DeltaOfChanges(fields: Object, changes: map<string, Change>)
    ensures var after := Apply(fields, changes);
            && Dropped(changes) !! ChangedFields(fields, after).Keys
            && (fields - Dropped(changes)) + ChangedFields(fields, after) == after
  {
  }
}
