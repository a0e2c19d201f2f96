/** Why a folded history must be settled: what the fold accepts and no run writes. */
module Unsettled {
  import opened Prelude
  import opened Definition
  import opened Reading
  import opened Evaluator
  import opened Values
  import opened Runtime
  import opened Registration
  import opened Replay
  import opened Safety
  import opened Folding
  import opened FoldSteps
  import opened Histories

  const NOTHING: Schema := Schema(map[], false)

  function Flag(default: Option<Json>): Field {
    Field(BooleanKind, false, default, None, None, None, None, [], None, NOTHING, StringKey, None, map[])
  }

  /** An operation that stays where it is, with one optional argument that may have a default. */
  function Switch(dim: Option<Json>): Operation {
    Operation(Schema(map["dim" := Flag(dim)], false), [Transition(["there"], "there")], [], map[],
              [EventTemplate("switched", Null, map[])], NOTHING, [])
  }

  /** One state, one optional flag that may have a default, one operation, one event for each command. */
  function Lamp(lit: Option<Json>, dim: Option<Json>): Definition {
    Definition("lamp", 1, Schema(map["lit" := Flag(lit)], false), "there", ["there"], [],
               Creation(Some(EventTemplate("made", Null, map[])), NOTHING, NOTHING, []),
               map["switch" := Switch(dim)], Kernel1, None, map[])
  }

  function LampAt(id: string, revision: nat): Instance {
    Instance("lamp", 1, id, "there", revision, map[])
  }

  /** A creation recorded with no fields. */
  function Made(id: string): Event {
    Event("lamp", 1, id, 1, "made", None, "there", map[], {}, map[], Null)
  }

  /** An operation recorded with no arguments. */
  function Switched(id: string): Event {
    Event("lamp", 1, id, 2, "switched", Some("there"), "there", map[], {}, map[], Null)
  }

  predicate FlagDefault(default: Option<Json>) {
    default.None? || default.value.Bool?
  }

  lemma Readable()
    ensures !Blank("lamp") && !Blank("there") && !Blank("made") && !Blank("switched") && !Blank("switch")
    ensures !Blank("a")
  {
    assert !IsSpace("lamp"[0]) && !IsSpace("there"[0]) && !IsSpace("made"[0]);
    assert !IsSpace("switched"[0]) && !IsSpace("switch"[0]) && !IsSpace("a"[0]);
  }

  lemma SwitchAccepted(doors: Doors, lit: Option<Json>, dim: Option<Json>)
    requires FlagDefault(lit) && FlagDefault(dim)
    ensures OperationAccepted(doors, Lamp(lit, dim), "switch")
  {
    hide Blank;
    Readable();
    assert FieldDeclared(doors, Flag(dim), false);
    assert [Transition(["there"], "there")][1..] == [];
  }

  lemma LampRegistered(doors: Doors, lit: Option<Json>, dim: Option<Json>)
    requires FlagDefault(lit) && FlagDefault(dim)
    ensures Registered(doors, Lamp(lit, dim))
  {
    hide OperationAccepted, Blank;
    Readable();
    assert FieldDeclared(doors, Flag(lit), false);
    SwitchAccepted(doors, lit, dim);
  }

  // --- What the fold makes of these histories -----------------------------------------------------

  lemma MadeFolds(doors: Doors, lit: Option<Json>, dim: Option<Json>, id: string)
    ensures FoldGroup(doors, Lamp(lit, dim), Unborn(Lamp(lit, dim), id), [Made(id)], true) == Ok(LampAt(id, 1))
  {
    var definition, event := Lamp(lit, dim), Made(id);
    var before, group := Unborn(definition, id), [event];
    BirthBelongs(definition, id, group);
    ChangedFromNothing(map[]);
    var ctx := PayloadContext(doors, definition, before, event, map[]);
    assert PayloadsAgree([definition.create.emit.value], ctx, group);
  }

  lemma SwitchWouldHave(doors: Doors, lit: Option<Json>, dim: Option<Json>, id: string)
    ensures WouldHaveProduced(doors, Lamp(lit, dim), LampAt(id, 1), [Switched(id)], "there", "switch")
    ensures Declares(Switch(dim), "there", "there") && EmitsType(Switch(dim), "switched")
  {
    var definition, operation, group := Lamp(lit, dim), Switch(dim), [Switched(id)];
    var t, e := Transition(["there"], "there"), EventTemplate("switched", Null, map[]);
    assert t in operation.transitions && "there" in t.from && t.to == "there";
    assert e in operation.emits && e.eventType == "switched";
    assert group[0] in group && EmitsType(operation, group[0].eventType);
    var ctx := CandidateContext(doors, definition, LampAt(id, 1), operation, group[0], "there");
    assert operation.assigns.Keys == {};
    assert Assigned("switch", operation.assigns, ctx) == Ok(map[]);
    assert Apply(map[], map[]) == map[] && Dropped(map[]) == {};
    assert ChangedFields(map[], map[]) == map[];
    assert TypesOf(operation.emits) == ["switched"] + TypesOf([]) && TypesCarried(group) == ["switched"] + TypesCarried([]);
  }

  lemma SwitchedFolds(doors: Doors, lit: Option<Json>, dim: Option<Json>, id: string)
    ensures FoldGroup(doors, Lamp(lit, dim), LampAt(id, 1), [Switched(id)], false) == Ok(LampAt(id, 2))
  {
    hide WouldHaveProduced, Declares, EmitsType;
    var definition, event := Lamp(lit, dim), Switched(id);
    var before, group := LampAt(id, 1), [event];
    SwitchWouldHave(doors, lit, dim, id);
    AllBelongEach(definition, id, group);
    assert Installed(map[], {}, map[]) == map[];
    assert PayloadsAgree(Switch(dim).emits, PayloadContext(doors, definition, before, event, map[]), group);
    assert Answers(doors, definition, before, group, "there", map[], "switch");
    assert definition.operations["switch"] == Switch(dim);
    assert Permits(definition, "there", "there") && EmitsOn(definition, "there", "there", "switched");
  }

  lemma LampFolds(doors: Doors, lit: Option<Json>, dim: Option<Json>, id: string)
    ensures Rehydrated(doors, Lamp(lit, dim), [Made(id)]) == Ok(LampAt(id, 1))
    ensures Rehydrated(doors, Lamp(lit, dim), [Made(id), Switched(id)]) == Ok(LampAt(id, 2))
  {
    hide FoldGroup, GroupSize;
    var definition := Lamp(lit, dim);
    MadeFolds(doors, lit, dim, id);
    SwitchedFolds(doors, lit, dim, id);
    assert [Made(id)] + [] == [Made(id)] && [Switched(id)] + [] == [Switched(id)];
    assert [Made(id)] + [Switched(id)] == [Made(id), Switched(id)];
    FoldCut(doors, definition, Unborn(definition, id), [Made(id)], [], true, LampAt(id, 1));
    FoldCut(doors, definition, Unborn(definition, id), [Made(id)], [Switched(id)], true, LampAt(id, 1));
    FoldCut(doors, definition, LampAt(id, 1), [Switched(id)], [], false, LampAt(id, 2));
  }

  // --- What no run writes -------------------------------------------------------------------------

  /** The fold does not refuse a blank identity, which `create` does. */
  lemma BlankIdentityFolds(doors: Doors)
    ensures Registered(doors, Lamp(None, None))
    ensures Rehydrated(doors, Lamp(None, None), [Made("")]) == Ok(LampAt("", 1))
    ensures forall after :: !WrittenBy(doors, Lamp(None, None), [Made("")], after)
  {
    hide Registered, Rehydrated, WrittenBy, SettledFrom, FoldGroup;
    LampRegistered(doors, None, None);
    LampFolds(doors, None, None, "");
    forall after
      ensures !WrittenBy(doors, Lamp(None, None), [Made("")], after)
    {
      FoldAcceptsExactly(doors, Lamp(None, None), [Made("")], after);
    }
  }

  /** The fold does not fill a recorded creation's defaults, which `create` does. */
  lemma UndefaultedFieldsFold(doors: Doors)
    ensures var lamp := Lamp(Some(Bool(true)), None);
            && Registered(doors, lamp)
            && Rehydrated(doors, lamp, [Made("a")]) == Ok(LampAt("a", 1))
            && forall after :: !WrittenBy(doors, lamp, [Made("a")], after)
  {
    hide Registered, Rehydrated, WrittenBy, SettledFrom, FoldGroup;
    var lamp := Lamp(Some(Bool(true)), None);
    LampRegistered(doors, Some(Bool(true)), None);
    LampFolds(doors, Some(Bool(true)), None, "a");
    assert "lit" in FillMembers(lamp.schema, map[]);
    forall after
      ensures !WrittenBy(doors, lamp, [Made("a")], after)
    {
      FoldAcceptsExactly(doors, lamp, [Made("a")], after);
    }
  }

  lemma SwitchedIsUnsettled(doors: Doors)
    ensures !SettledFrom(doors, Lamp(None, Some(Bool(true))), LampAt("a", 1), [Switched("a")])
  {
    hide FoldGroup, Answers;
    assert "dim" in FillMembers(Switch(Some(Bool(true))).arguments, map[]);
    GroupOf([Switched("a")], [], 2);
    assert [Switched("a")] + [] == [Switched("a")] && [Switched("a")][..1] == [Switched("a")];
  }

  /** Nor does it fill recorded arguments, which every operation does. */
  lemma UndefaultedArgumentsFold(doors: Doors)
    ensures var lamp := Lamp(None, Some(Bool(true)));
            && Registered(doors, lamp)
            && Rehydrated(doors, lamp, [Made("a"), Switched("a")]) == Ok(LampAt("a", 2))
            && forall after :: !WrittenBy(doors, lamp, [Made("a"), Switched("a")], after)
  {
    hide Registered, Rehydrated, WrittenBy, SettledFrom, FoldGroup, GroupSize;
    var lamp, events := Lamp(None, Some(Bool(true))), [Made("a"), Switched("a")];
    LampRegistered(doors, None, Some(Bool(true)));
    LampFolds(doors, None, Some(Bool(true)), "a");
    MadeFolds(doors, None, Some(Bool(true)), "a");
    SwitchedIsUnsettled(doors);
    GroupOf([Made("a")], [Switched("a")], 1);
    assert [Made("a")] + [Switched("a")] == events && events[..1] == [Made("a")] && events[1..] == [Switched("a")];
    forall after
      ensures !WrittenBy(doors, lamp, events, after)
    {
      FoldAcceptsExactly(doors, lamp, events, after);
    }
  }
}
