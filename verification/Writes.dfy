/** What step 8 writes, what the events say and what is answered, field by field. */
module Writes {
  import opened Prelude
  import opened Definition
  import opened Reading
  import opened Evaluator
  import opened Values
  import opened Templates
  import opened Runtime
  import opened Safety
  import opened Drafts
  import Paths
  import Sum

  // --- One assignment -----------------------------------------------------------------------------

  /** An object of one member. */
  predicate Only(value: Json, key: string, inner: Json) {
    value == Obj(map[key := inner])
  }

  /** An object of no members but the two keywords. */
  predicate Keyed(value: Json) {
    value.Obj? && value.members != map[] && forall k | k in value.members :: k == "increment" || k == "cleared"
  }

  lemma OnlyMeans(value: Json, key: string, inner: Json)
    requires key == "increment" || key == "cleared"
    ensures Only(value, key, inner)
       <==> Keyed(value) && |value.members| == 1 && key in value.members && value.members[key] == inner
  {
    if Only(value, key, inner) {
      assert key in value.members;
    }
    if Keyed(value) && |value.members| == 1 && key in value.members {
      Single(value.members, key);
    }
  }

  lemma Single(members: map<string, Json>, key: string)
    requires |members| == 1 && key in members
    ensures members == map[key := members[key]]
  {
    assert |members.Keys| == 1;
    assert members.Keys - {key} == {} by {
      assert |members.Keys - {key}| == 0;
    }
    assert members.Keys == {key};
  }

  lemma KeyedReads(value: Json)
    ensures AssignmentOf(value) ==
              if !Keyed(value) then Template(value)
              else if |value.members| > 1 then Conflicting
              else if "increment" in value.members then Increment(value.members["increment"])
              else if "cleared" in value.members then Cleared(value.members["cleared"])
              else Template(value)
    ensures Keyed(value) ==> |value.members| >= 1 && ("increment" in value.members || "cleared" in value.members)
  {
    if value.Obj? {
      assert value.members.Keys <= {"increment", "cleared"}
        <==> forall k | k in value.members :: k == "increment" || k == "cleared";
      if value.members != map[] {
        var k :| k in value.members;
        assert |value.members.Keys| >= |{k}| by {
          assert {k} <= value.members.Keys;
          assert |value.members.Keys - {k}| == |value.members.Keys| - 1;
        }
      }
    }
  }

  /** A typed assignment is an object of exactly one keyword; an object of both is neither, and everything else
      is a template. */
  lemma AssignmentMeans(value: Json)
    ensures forall amount :: AssignmentOf(value) == Increment(amount) <==> Only(value, "increment", amount)
    ensures forall flag :: AssignmentOf(value) == Cleared(flag) <==> Only(value, "cleared", flag)
    ensures AssignmentOf(value) == Template(value) <==> !Keyed(value)
    ensures AssignmentOf(value).Template? ==> AssignmentOf(value) == Template(value)
  {
    hide Keyed, Only, AssignmentOf;
    KeyedReads(value);
    forall inner
      ensures Only(value, "increment", inner)
         <==> Keyed(value) && value.Obj? && |value.members| == 1 && "increment" in value.members
              && value.members["increment"] == inner
      ensures Only(value, "cleared", inner)
         <==> Keyed(value) && value.Obj? && |value.members| == 1 && "cleared" in value.members
              && value.members["cleared"] == inner
    {
      KeyedIsObject(value);
      OnlyMeans(value, "increment", inner);
      OnlyMeans(value, "cleared", inner);
    }
    if Keyed(value) {
      KeyedIsObject(value);
      if |value.members| == 1 {
        NotBoth(value.members);
      }
    }
  }

  lemma KeyedIsObject(value: Json)
    ensures Keyed(value) ==> value.Obj?
  {
  }

  lemma NotBoth(members: map<string, Json>)
    requires |members| == 1
    ensures !("increment" in members && "cleared" in members)
  {
    if "increment" in members && "cleared" in members {
      Single(members, "increment");
    }
  }

  /** Written as an integer that 64 bits hold, signed or unsigned. */
  predicate Whole(n: Sum.Number.Number) {
    Sum.Number.IsInteger(n) && I64_MIN <= Sum.Number.IntegerValue(n) <= U64_MAX
  }

  predicate CountedAs(ctx: Context, field: string) {
    field in ctx.definition.schema.fields && ctx.definition.schema.fields[field].kind.IntegerKind?
  }

  /** Two numbers add up to this: integers to the integer their sum is, in the range of the rules; others to their
      exact sum, which the service rules must be able to observe. */
  predicate Totals(held: Sum.Number.Number, added: Sum.Number.Number, integer: bool, ctx: Context,
                   sum: Sum.Number.Number)
  {
    if integer then
      && Whole(held) && Whole(added)
      && var total := Sum.Number.IntegerValue(held) + Sum.Number.IntegerValue(added);
      I64_MIN <= total <= (if ctx.Service() then I64_MAX else U64_MAX) && sum == Paths.IntegerNumber(total)
    else Sum.ExactSum(held, added) == Some(sum) && (ctx.Service() ==> OfNumber(ctx.doors, sum).Some?)
  }

  /** The number the field held and the number the amount denotes add up to this, in the field's own kind. */
  ghost predicate AddsUp(field: string, amount: Json, ctx: Context, sum: Json) {
    && field in ctx.oldFields && ctx.oldFields[field].Num? && sum.Num?
    && exists added: Json :: RenderedThroughout(amount, added, ctx) && added.Num?
         && Totals(ctx.oldFields[field].number, added.number, CountedAs(ctx, field), ctx, sum.number)
  }

  lemma WholeMeans(n: Sum.Number.Number)
    ensures IntegerOf(n) == if Whole(n) then Some(Sum.Number.IntegerValue(n)) else None
  {
  }

  lemma TotalMeans(operation: string, field: string, amount: Json, ctx: Context, added: Json, sum: Json)
    requires ResolveTemplate(amount, ctx) == Ok(added)
    ensures Incremented(operation, field, amount, ctx) == Ok(sum)
       <==> && field in ctx.oldFields && ctx.oldFields[field].Num? && sum.Num? && added.Num?
            && Totals(ctx.oldFields[field].number, added.number, CountedAs(ctx, field), ctx, sum.number)
  {
    hide ResolveTemplate, Sum.ExactSum, OfNumber, Sum.Number.IsNumber, IntegerOf, Paths.IntegerNumber, Whole,
         Sum.Number.IsInteger, Sum.Number.IntegerValue;
    if field in ctx.oldFields && ctx.oldFields[field].Num? && added.Num? {
      WholeMeans(ctx.oldFields[field].number);
      WholeMeans(added.number);
    }
  }

  lemma IncrementMeans(operation: string, field: string, amount: Json, ctx: Context, sum: Json)
    ensures Incremented(operation, field, amount, ctx) == Ok(sum) <==> AddsUp(field, amount, ctx, sum)
  {
    hide ResolveTemplate, RenderedThroughout, Totals, CountedAs, Sum.ExactSum, IntegerOf, OfNumber;
    forall added: Json
      ensures ResolveTemplate(amount, ctx) == Ok(added) <==> RenderedThroughout(amount, added, ctx)
    {
      TemplateMeans(amount, added, ctx);
    }
    if ResolveTemplate(amount, ctx).Ok? {
      var added := ResolveTemplate(amount, ctx).value;
      assert RenderedThroughout(amount, added, ctx);
      TotalMeans(operation, field, amount, ctx, added, sum);
    }
  }

  /** What one entry does to its field: an increment adds, a clear drops, a template puts what it renders. */
  ghost predicate Effects(field: string, value: Json, ctx: Context, change: Change) {
    if Keyed(value) then
      || (change.Put? && exists amount :: Only(value, "increment", amount) && AddsUp(field, amount, ctx, change.value))
      || (change.Drop? && Only(value, "cleared", Bool(true)))
    else change.Put? && RenderedThroughout(value, change.value, ctx)
  }

  lemma AssignedMeans(operation: string, field: string, value: Json, ctx: Context, change: Change)
    ensures AssignedValue(operation, field, value, ctx) == Ok(change) <==> Effects(field, value, ctx, change)
  {
    hide ResolveTemplate, RenderedThroughout, Incremented, AddsUp, AssignmentOf, Keyed, Only;
    AssignmentMeans(value);
    if change.Put? {
      TemplateMeans(value, change.value, ctx);
      forall amount
        ensures Incremented(operation, field, amount, ctx) == Ok(change.value) <==> AddsUp(field, amount, ctx, change.value)
      {
        IncrementMeans(operation, field, amount, ctx, change.value);
      }
    }
    KeyedExactly(value);
  }

  lemma KeyedExactly(value: Json)
    ensures forall key, inner | Only(value, key, inner) && (key == "increment" || key == "cleared") :: Keyed(value)
    ensures forall amount, flag :: !(Only(value, "increment", amount) && Only(value, "cleared", flag))
    ensures forall a, b | Only(value, "increment", a) && Only(value, "increment", b) :: a == b
  {
    forall key, inner | Only(value, key, inner) && (key == "increment" || key == "cleared")
      ensures Keyed(value)
    {
      assert key in value.members;
    }
    forall amount, flag
      ensures !(Only(value, "increment", amount) && Only(value, "cleared", flag))
    {
      if Only(value, "increment", amount) {
        assert "increment" in value.members;
      }
    }
    forall a, b | Only(value, "increment", a) && Only(value, "increment", b)
      ensures a == b
    {
      assert value.members["increment"] == a == b;
    }
  }

  // --- Host actions -------------------------------------------------------------------------------

  /** The host acts on exactly the fields the branch leaves to it: it may preserve any, remove the optional
      ones, and set a declared one to a value that conforms. */
  ghost predicate HostActs(doors: Doors, definition: Definition, fulfills: map<string, Requirement>,
                           actions: Option<map<string, Action>>)
  {
    match actions
    case None => fulfills.Keys == {}
    case Some(given) =>
      && given.Keys == fulfills.Keys
      && forall k | k in given ::
           match given[k]
           case Preserve => true
           case Remove => fulfills[k] == MayGo
           case SetTo(value) =>
             k in definition.schema.fields
             && Conforms(doors, definition.schema.fields[k], value, definition.semantics.Service())
  }

  function ActionOn(actions: Option<map<string, Action>>, k: string): Action {
    if actions.Some? && k in actions.value then actions.value[k] else Preserve
  }

  lemma ActionMeans(doors: Doors, definition: Definition, operation: string, outcome: string, field: string,
                    requirement: Requirement, action: Action)
    ensures var r := ActionChange(doors, definition, operation, outcome, field, requirement, action);
            match action
            case Preserve => r == Ok(Keep)
            case Remove => (r == Ok(Drop) <==> requirement == MayGo) && (r.Ok? ==> r == Ok(Drop))
            case SetTo(value) =>
              && (r == Ok(Put(value)) <==>
                    && field in definition.schema.fields
                    && Conforms(doors, definition.schema.fields[field], value, definition.semantics.Service()))
              && (r.Ok? ==> r == Ok(Put(value)))
  {
    hide Conforms;
  }

  lemma FulfilledMeans(doors: Doors, definition: Definition, operation: string, branch: Branch,
                       actions: Option<map<string, Action>>)
    ensures Fulfilled(doors, definition, operation, branch, actions).Ok?
       <==> HostActs(doors, definition, branch.fulfills, actions)
    ensures Fulfilled(doors, definition, operation, branch, actions).Ok? ==>
              var changes := Fulfilled(doors, definition, operation, branch, actions).value;
              && changes.Keys == branch.fulfills.Keys
              && forall k | k in changes ::
                   match ActionOn(actions, k)
                   case Preserve => changes[k] == Keep
                   case Remove => changes[k] == Drop
                   case SetTo(value) => changes[k] == Put(value)
  {
    hide ActionChange, Conforms;
    var outcome := if branch.name.Some? then branch.name.value else "";
    if actions.Some? && actions.value.Keys == branch.fulfills.Keys {
      var parts := map k | k in actions.value ::
        ActionChange(doors, definition, operation, outcome, k, branch.fulfills[k], actions.value[k]);
      forall k | k in actions.value
        ensures ActionChange(doors, definition, operation, outcome, k, branch.fulfills[k], actions.value[k]) == parts[k]
        ensures match actions.value[k]
                case Preserve => parts[k] == Ok(Keep)
                case Remove => (parts[k].Ok? <==> branch.fulfills[k] == MayGo) && (parts[k].Ok? ==> parts[k] == Ok(Drop))
                case SetTo(value) =>
                  && (parts[k].Ok? <==>
                        && k in definition.schema.fields
                        && Conforms(doors, definition.schema.fields[k], value, definition.semantics.Service()))
                  && (parts[k].Ok? ==> parts[k] == Ok(Put(value)))
      {
        ActionMeans(doors, definition, operation, outcome, k, branch.fulfills[k], actions.value[k]);
      }
      GatherMeans(parts);
      assert Fulfilled(doors, definition, operation, branch, actions) == Gather(parts);
    }
  }

  lemma GatherMeans<T>(parts: map<string, Result<T, CoreError>>)
    ensures Gather(parts).Ok? <==> forall k | k in parts :: parts[k].Ok?
    ensures Gather(parts).Ok? ==>
              && Gather(parts).value.Keys == parts.Keys
              && forall k | k in parts :: parts[k] == Ok(Gather(parts).value[k])
  {
    if Gather(parts).Ok? {
      GatherKeys(parts);
    } else {
      var failing := set k | k in parts && parts[k].Err?;
      assert failing != {};
    }
  }

  // --- Every field --------------------------------------------------------------------------------

  /** What a member holds, where there is one. */
  function Held(fields: Object, k: string): Option<Json> {
    if k in fields then Some(fields[k]) else None
  }

  /** What the branch itself leaves in a field: the argument copied there when the caller sent it, else what its
      entry writes, else what was there. */
  ghost predicate Left(branch: Branch, ctx: Context, k: string, value: Option<Json>) {
    if exists sent :: k in branch.setIfPresent && Supplies(ctx.args, branch.setIfPresent[k], sent) then
      value.Some? && k in branch.setIfPresent && Supplies(ctx.args, branch.setIfPresent[k], value.value)
    else if k in branch.assigns then
      match value
      case None => Effects(k, branch.assigns[k], ctx, Drop)
      case Some(written) => Effects(k, branch.assigns[k], ctx, Put(written))
    else value == Held(ctx.oldFields, k)
  }

  /** What is left in a field once the host has acted on it. */
  ghost predicate LeftAfterHost(branch: Branch, ctx: Context, actions: Option<map<string, Action>>, k: string,
                                value: Option<Json>)
  {
    match ActionOn(actions, k)
    case Preserve => Left(branch, ctx, k, value)
    case Remove => value == None
    case SetTo(given) => value == Some(given)
  }

  /** Step 8, field by field: every entry has an effect, the host acts as it may, every field is left so, and
      what entries clear and the host removes is reported. */
  ghost predicate Written8(doors: Doors, definition: Definition, branch: Branch, ctx: Context,
                           actions: Option<map<string, Action>>, fields: Object, removed: set<string>)
  {
    && (forall k | k in branch.assigns :: exists change :: Effects(k, branch.assigns[k], ctx, change))
    && HostActs(doors, definition, branch.fulfills, actions)
    && (forall k :: LeftAfterHost(branch, ctx, actions, k, Held(fields, k)))
    && forall k :: k in removed
          <==> (k in branch.assigns && Effects(k, branch.assigns[k], ctx, Drop)) || ActionOn(actions, k) == Remove
  }

  lemma EffectsOnce(field: string, value: Json, ctx: Context, a: Change, b: Change)
    requires Effects(field, value, ctx, a) && Effects(field, value, ctx, b)
    ensures a == b && !a.Keep?
  {
    hide Effects, AssignedValue;
    AssignedMeans("", field, value, ctx, a);
    AssignedMeans("", field, value, ctx, b);
    AssignedMeans("", field, value, ctx, Keep);
    NeverKept(field, value, ctx);
  }

  lemma NeverKept(field: string, value: Json, ctx: Context)
    ensures AssignedValue("", field, value, ctx) != Ok(Keep)
  {
    hide ResolveTemplate, Incremented, AssignmentOf;
  }

  /** The entries that have effects are the changes assigned. */
  lemma SetsMean(operation: string, assigns: map<string, Json>, ctx: Context)
    ensures Assigned(operation, assigns, ctx).Ok?
       <==> forall k | k in assigns :: exists change :: Effects(k, assigns[k], ctx, change)
    ensures Assigned(operation, assigns, ctx).Ok? ==>
              && Assigned(operation, assigns, ctx).value.Keys == assigns.Keys
              && forall k | k in assigns :: Effects(k, assigns[k], ctx, Assigned(operation, assigns, ctx).value[k])
  {
    hide Effects, AssignedValue;
    var parts := map k | k in assigns :: AssignedValue(operation, k, assigns[k], ctx);
    assert parts.Keys == assigns.Keys;
    GatherMeans(parts);
    forall k | k in assigns
      ensures parts[k].Ok? <==> exists change :: Effects(k, assigns[k], ctx, change)
      ensures parts[k].Ok? ==> Effects(k, assigns[k], ctx, parts[k].value)
    {
      forall change
        ensures parts[k] == Ok(change) <==> Effects(k, assigns[k], ctx, change)
      {
        AssignedMeans(operation, k, assigns[k], ctx, change);
      }
      if parts[k].Ok? {
        assert parts[k] == Ok(parts[k].value);
      }
    }
  }

  /** The three writes, read at one field. */
  lemma ReadField(fields: Object, sets: map<string, Change>, copied: Object, fulfilled: map<string, Change>, k: string)
    ensures var after := Written(fields, sets, copied, fulfilled).0;
            Held(after, k) ==
              if k in fulfilled && fulfilled[k].Put? then Some(fulfilled[k].value)
              else if k in fulfilled && fulfilled[k].Drop? then None
              else if k in copied then Some(copied[k])
              else if k in sets && sets[k].Put? then Some(sets[k].value)
              else if k in sets && sets[k].Drop? then None
              else Held(fields, k)
  {
    var under := Apply(fields, sets);
    assert k in Apply(under + copied, fulfilled) <==> AfterChange(under + copied, fulfilled, k).Some?;
    assert k in under <==> AfterChange(fields, sets, k).Some?;
  }

  lemma LeftMeans(branch: Branch, ctx: Context, sets: map<string, Change>, k: string, value: Option<Json>)
    requires sets.Keys == branch.assigns.Keys
    requires forall j | j in sets :: Effects(j, branch.assigns[j], ctx, sets[j])
    ensures var copied := PresentArguments(branch.setIfPresent, ctx.args);
            Left(branch, ctx, k, value) <==>
              value == if k in copied then Some(copied[k])
                       else if k in sets && sets[k].Put? then Some(sets[k].value)
                       else if k in sets && sets[k].Drop? then None
                       else Held(ctx.oldFields, k)
  {
    hide Effects, Supplies, PresentArguments;
    var copied := PresentArguments(branch.setIfPresent, ctx.args);
    forall sent
      ensures k in copied && copied[k] == sent
         <==> k in branch.setIfPresent && Supplies(ctx.args, branch.setIfPresent[k], sent)
    {
      PresentMeans(branch.setIfPresent, ctx.args, k, sent);
    }
    if k in sets {
      forall change | Effects(k, branch.assigns[k], ctx, change)
        ensures change == sets[k]
      {
        EffectsOnce(k, branch.assigns[k], ctx, change, sets[k]);
      }
      EffectsOnce(k, branch.assigns[k], ctx, sets[k], sets[k]);
    }
    if k in copied {
      PresentMeans(branch.setIfPresent, ctx.args, k, copied[k]);
    }
  }

  lemma HostMeans(branch: Branch, ctx: Context, sets: map<string, Change>, fulfilled: map<string, Change>,
                  actions: Option<map<string, Action>>, k: string, value: Option<Json>)
    requires sets.Keys == branch.assigns.Keys
    requires forall j | j in sets :: Effects(j, branch.assigns[j], ctx, sets[j])
    requires fulfilled.Keys == branch.fulfills.Keys
    requires actions.Some? ==> actions.value.Keys == branch.fulfills.Keys
    requires forall j | j in fulfilled ::
               match ActionOn(actions, j)
               case Preserve => fulfilled[j] == Keep
               case Remove => fulfilled[j] == Drop
               case SetTo(given) => fulfilled[j] == Put(given)
    ensures LeftAfterHost(branch, ctx, actions, k, value)
       <==> Held(Written(ctx.oldFields, sets, PresentArguments(branch.setIfPresent, ctx.args), fulfilled).0, k) == value
  {
    hide Effects, PresentArguments, Written, Left;
    var copied := PresentArguments(branch.setIfPresent, ctx.args);
    ReadField(ctx.oldFields, sets, copied, fulfilled, k);
    LeftMeans(branch, ctx, sets, k, value);
  }

  lemma SameFields(a: Object, b: Object)
    requires forall k :: Held(a, k) == Held(b, k)
    ensures a == b
  {
    forall k
      ensures (k in a <==> k in b) && (k in a ==> a[k] == b[k])
    {
      assert Held(a, k) == Held(b, k);
    }
  }

  /** Step 8 succeeds with exactly the fields and removals that are so written. */
  lemma StepEightMeans(doors: Doors, definition: Definition, name: string, branch: Branch, ctx: Context,
                       actions: Option<map<string, Action>>, fields: Object, removed: set<string>)
    ensures StepEight(doors, definition, name, branch, ctx, actions) == Ok((fields, removed))
       <==> Written8(doors, definition, branch, ctx, actions, fields, removed)
  {
    hide Assigned, Fulfilled, PresentArguments, Effects, HostActs, LeftAfterHost, Written, ActionOn;
    SetsMean(name, branch.assigns, ctx);
    FulfilledMeans(doors, definition, name, branch, actions);
    var sets, fulfilled := Assigned(name, branch.assigns, ctx), Fulfilled(doors, definition, name, branch, actions);
    if sets.Ok? && fulfilled.Ok? {
      var copied := PresentArguments(branch.setIfPresent, ctx.args);
      var (after, gone) := Written(ctx.oldFields, sets.value, copied, fulfilled.value);
      ActionKeys(doors, definition, branch, actions);
      forall k, value
        ensures LeftAfterHost(branch, ctx, actions, k, value) <==> Held(after, k) == value
      {
        HostMeans(branch, ctx, sets.value, fulfilled.value, actions, k, value);
      }
      GoneMeans(branch, ctx, sets.value, fulfilled.value, actions);
      assert StepEight(doors, definition, name, branch, ctx, actions) == Ok((after, gone));
      SettledFields(branch, ctx, actions, after, fields);
      if Written8(doors, definition, branch, ctx, actions, fields, removed) {
        assert forall k :: k in removed <==> k in gone;
        assert removed == gone;
      }
    }
  }

  lemma ActionKeys(doors: Doors, definition: Definition, branch: Branch, actions: Option<map<string, Action>>)
    requires HostActs(doors, definition, branch.fulfills, actions)
    ensures actions.Some? ==> actions.value.Keys == branch.fulfills.Keys
    ensures actions.None? ==> branch.fulfills.Keys == {}
  {
    hide Conforms;
  }

  lemma SettledFields(branch: Branch, ctx: Context, actions: Option<map<string, Action>>, after: Object, fields: Object)
    requires forall k, value :: LeftAfterHost(branch, ctx, actions, k, value) <==> Held(after, k) == value
    ensures (forall k :: LeftAfterHost(branch, ctx, actions, k, Held(fields, k))) <==> fields == after
  {
    hide LeftAfterHost, Held;
    if forall k :: LeftAfterHost(branch, ctx, actions, k, Held(fields, k)) {
      SameFields(after, fields);
    }
  }

  lemma GoneMeans(branch: Branch, ctx: Context, sets: map<string, Change>, fulfilled: map<string, Change>,
                  actions: Option<map<string, Action>>)
    requires sets.Keys == branch.assigns.Keys
    requires forall j | j in sets :: Effects(j, branch.assigns[j], ctx, sets[j])
    requires fulfilled.Keys == branch.fulfills.Keys
    requires actions.Some? ==> actions.value.Keys == branch.fulfills.Keys
    requires forall j | j in fulfilled ::
               match ActionOn(actions, j)
               case Preserve => fulfilled[j] == Keep
               case Remove => fulfilled[j] == Drop
               case SetTo(given) => fulfilled[j] == Put(given)
    ensures forall fields, copied, k :: k in Written(fields, sets, copied, fulfilled).1
              <==> (k in branch.assigns && Effects(k, branch.assigns[k], ctx, Drop)) || ActionOn(actions, k) == Remove
  {
    hide Effects, Apply;
    forall k
      ensures k in Dropped(sets) <==> k in branch.assigns && Effects(k, branch.assigns[k], ctx, Drop)
    {
      if k in sets && Effects(k, branch.assigns[k], ctx, Drop) {
        EffectsOnce(k, branch.assigns[k], ctx, Drop, sets[k]);
      }
    }
    forall k
      ensures k in Dropped(fulfilled) <==> ActionOn(actions, k) == Remove
    {
    }
  }

  // --- Events and the response --------------------------------------------------------------------

  /** A member holds the argument mapped to it when the caller sent that, else what it held. */
  ghost predicate OverlaidAt(base: Object, conditional: map<string, string>, args: Object, k: string, value: Option<Json>) {
    if exists sent :: k in conditional && Supplies(args, conditional[k], sent) then
      value.Some? && k in conditional && Supplies(args, conditional[k], value.value)
    else value == Held(base, k)
  }

  ghost predicate Overlaid(base: Object, conditional: map<string, string>, args: Object, result: Object) {
    forall k :: OverlaidAt(base, conditional, args, k, Held(result, k))
  }

  lemma OverlaidHeld(base: Object, conditional: map<string, string>, args: Object, k: string, value: Option<Json>)
    ensures OverlaidAt(base, conditional, args, k, value)
       <==> Held(base + PresentArguments(conditional, args), k) == value
  {
    hide Supplies, PresentArguments;
    var copied := PresentArguments(conditional, args);
    forall sent
      ensures k in copied && copied[k] == sent <==> k in conditional && Supplies(args, conditional[k], sent)
    {
      PresentMeans(conditional, args, k, sent);
    }
    if k in copied {
      PresentMeans(conditional, args, k, copied[k]);
    }
  }

  lemma OverlaidMeans(base: Object, conditional: map<string, string>, args: Object, result: Object)
    ensures result == base + PresentArguments(conditional, args) <==> Overlaid(base, conditional, args, result)
  {
    hide Held, OverlaidAt, PresentArguments;
    var laid := base + PresentArguments(conditional, args);
    forall k, value
      ensures OverlaidAt(base, conditional, args, k, value) <==> Held(laid, k) == value
    {
      OverlaidHeld(base, conditional, args, k, value);
    }
    if Overlaid(base, conditional, args, result) {
      SameFields(result, laid);
    }
  }

  /** A payload: its template rendered, and the members of the arguments that were sent. */
  ghost predicate PayloadIs(template: EventTemplate, ctx: Context, payload: Json) {
    exists base :: RenderedThroughout(template.payload, base, ctx)
      && if template.payloadIfPresent == map[] then payload == base
         else base.Obj? && payload.Obj? && Overlaid(base.members, template.payloadIfPresent, ctx.args, payload.members)
  }

  lemma PayloadMeans(template: EventTemplate, ctx: Context, payload: Json)
    ensures Payload(template, ctx) == Ok(payload) <==> PayloadIs(template, ctx, payload)
  {
    hide ResolveTemplate, RenderedThroughout, PresentArguments, Overlaid;
    forall base
      ensures ResolveTemplate(template.payload, ctx) == Ok(base) <==> RenderedThroughout(template.payload, base, ctx)
    {
      TemplateMeans(template.payload, base, ctx);
    }
    if ResolveTemplate(template.payload, ctx).Ok? {
      var base := ResolveTemplate(template.payload, ctx).value;
      assert RenderedThroughout(template.payload, base, ctx);
      if base.Obj? && payload.Obj? {
        OverlaidMeans(base.members, template.payloadIfPresent, ctx.args, payload.members);
      }
    }
  }

  /** The members that are not what they were. */
  ghost predicate Delta(before: Object, after: Object, changed: Object) {
    forall k :: Held(changed, k) == if Held(after, k) == Held(before, k) then None else Held(after, k)
  }

  lemma DeltaMeans(before: Object, after: Object, changed: Object)
    ensures changed == ChangedFields(before, after) <==> Delta(before, after, changed)
  {
    var delta := ChangedFields(before, after);
    forall k
      ensures Held(delta, k) == if Held(after, k) == Held(before, k) then None else Held(after, k)
    {
    }
    if Delta(before, after, changed) {
      SameFields(changed, delta);
    }
  }

  /** An event: whom it is about and which type it is, the move, the delta, the arguments, the payload. */
  ghost predicate EventIs(template: EventTemplate, ctx: Context, revision: nat, args: Object, removed: set<string>,
                          event: Event)
  {
    && event.entity == ctx.definition.entity && event.version == ctx.definition.version
    && Some(event.id) == ctx.id && event.revision == revision && event.eventType == template.eventType
    && event.fromState == ctx.fromState && event.toState == ctx.toState
    && Delta(ctx.oldFields, ctx.newFields, event.changed) && event.removed == removed
    && event.args == args && PayloadIs(template, ctx, event.payload)
  }

  lemma EventMeans(template: EventTemplate, ctx: Context, revision: nat, args: Object, removed: set<string>, event: Event)
    ensures MaterializeEvent(template, ctx, revision, args, removed) == Ok(event)
       <==> EventIs(template, ctx, revision, args, removed, event)
  {
    hide Payload, PayloadIs, ChangedFields, Delta;
    PayloadMeans(template, ctx, event.payload);
    DeltaMeans(ctx.oldFields, ctx.newFields, event.changed);
  }

  /** One event for each template, in order. */
  ghost predicate EventsAre(templates: seq<EventTemplate>, ctx: Context, revision: nat, args: Object,
                            removed: set<string>, events: seq<Event>)
  {
    && |events| == |templates|
    && forall i | 0 <= i < |templates| :: EventIs(templates[i], ctx, revision, args, removed, events[i])
  }

  lemma {:induction false} EventsMean(templates: seq<EventTemplate>, ctx: Context, revision: nat, args: Object,
                                      removed: set<string>, events: seq<Event>)
    ensures MaterializeEvents(templates, ctx, revision, args, removed) == Ok(events)
       <==> EventsAre(templates, ctx, revision, args, removed, events)
  {
    hide MaterializeEvent, EventIs;
    if templates != [] {
      if events != [] {
        EventMeans(templates[0], ctx, revision, args, removed, events[0]);
        EventsMean(templates[1..], ctx, revision, args, removed, events[1..]);
        assert events == [events[0]] + events[1..];
        EventsSplit(templates, ctx, revision, args, removed, events);
      }
    }
  }

  lemma EventsSplit(templates: seq<EventTemplate>, ctx: Context, revision: nat, args: Object, removed: set<string>,
                    events: seq<Event>)
    requires templates != [] && events != []
    ensures EventsAre(templates, ctx, revision, args, removed, events)
       <==> EventIs(templates[0], ctx, revision, args, removed, events[0])
            && EventsAre(templates[1..], ctx, revision, args, removed, events[1..])
  {
    hide EventIs;
    if EventsAre(templates[1..], ctx, revision, args, removed, events[1..]) {
      assert forall i | 0 < i < |templates| :: templates[i] == templates[1..][i - 1] && events[i] == events[1..][i - 1];
    }
    if EventsAre(templates, ctx, revision, args, removed, events) {
      assert forall i | 0 <= i < |templates| - 1 ::
          templates[1..][i] == templates[i + 1] && events[1..][i] == events[i + 1];
    }
  }

  /** A response: every template rendered, the members of the arguments that were sent, and, unless it is
      only recomputed, valid. */
  ghost predicate ResponseIs(responds: Option<(map<string, Json>, map<string, string>)>, schema: Schema, ctx: Context,
                             checked: bool, response: Option<Object>)
  {
    match responds
    case None => response == None
    case Some(parts) =>
      && response.Some?
      && (checked ==> ValidObject(ctx.doors, schema, response.value, ctx.Service()))
      && exists base: Object :: ResponseFrom(parts.0, parts.1, ctx, base, response.value)
  }

  lemma RenderedMembers(always: map<string, Json>, ctx: Context, base: Object)
    ensures Gather(RenderedEach(always, ctx)) == Ok(base)
       <==> base.Keys == always.Keys && forall k | k in base :: RenderedThroughout(always[k], base[k], ctx)
  {
    hide ResolveTemplate, RenderedThroughout;
    var parts := RenderedEach(always, ctx);
    assert parts.Keys == always.Keys;
    GatherMeans(parts);
    if Gather(parts) == Ok(base) {
      forall k | k in base
        ensures RenderedThroughout(always[k], base[k], ctx)
      {
        TemplateMeans(always[k], base[k], ctx);
      }
    }
    if base.Keys == always.Keys && forall k | k in base :: RenderedThroughout(always[k], base[k], ctx) {
      forall k | k in parts
        ensures parts[k] == Ok(base[k])
      {
        assert k in base;
        TemplateMeans(always[k], base[k], ctx);
      }
      assert Gather(parts).value == base;
    }
  }

  /** The response of one rendered base. */
  ghost predicate ResponseFrom(always: map<string, Json>, ifPresent: map<string, string>, ctx: Context, base: Object,
                               response: Object)
  {
    && base.Keys == always.Keys
    && (forall k | k in base :: RenderedThroughout(always[k], base[k], ctx))
    && Overlaid(base, ifPresent, ctx.args, response)
  }

  lemma ResponseFromMeans(always: map<string, Json>, ifPresent: map<string, string>, ctx: Context, base: Object,
                          response: Object)
    ensures ResponseFrom(always, ifPresent, ctx, base, response)
       <==> Gather(RenderedEach(always, ctx)) == Ok(base)
            && response == base + PresentArguments(ifPresent, ctx.args)
  {
    hide RenderedEach, RenderedThroughout, PresentArguments, Overlaid, Gather;
    RenderedMembers(always, ctx, base);
    OverlaidMeans(base, ifPresent, ctx.args, response);
  }

  lemma ResponseMeans(responds: Option<(map<string, Json>, map<string, string>)>, schema: Schema, ctx: Context,
                      checked: bool, response: Option<Object>)
    ensures MaterializeResponse(responds, schema, ctx, checked) == Ok(response)
       <==> ResponseIs(responds, schema, ctx, checked, response)
  {
    hide RenderedEach, PresentArguments, ValidObject, Gather, ResponseFrom;
    if responds.Some? {
      var (always, ifPresent) := responds.value;
      var gathered := Gather(RenderedEach(always, ctx));
      assert MaterializeResponse(responds, schema, ctx, checked)
          == if gathered.Err? then Err(gathered.error)
             else
               var made := gathered.value + PresentArguments(ifPresent, ctx.args);
               if checked && !ValidObject(ctx.doors, schema, made, ctx.Service()) then Err(Validation) else Ok(Some(made));
      if response.Some? {
        if gathered.Ok? {
          ResponseFromMeans(always, ifPresent, ctx, gathered.value, response.value);
        }
        forall base: Object | ResponseFrom(always, ifPresent, ctx, base, response.value)
          ensures gathered == Ok(base) && response.value == base + PresentArguments(ifPresent, ctx.args)
        {
          ResponseFromMeans(always, ifPresent, ctx, base, response.value);
        }
      }
    }
  }
}
