/** A wrong-state branch that moves is taken from a state its own move does not name. */
module Strays {
  import opened Prelude
  import opened Definition
  import opened Reading
  import opened Evaluator
  import opened Values
  import opened Runtime
  import opened Registration
  import opened Traces
  import opened Safety

  const NOTHING: Schema := Schema(map[], false)

  function Branching(name: string, wrongState: bool, to: string, from: seq<string>): Outcome {
    Outcome(name, None, None, wrongState, Moves(to, from), map[], map[], map[], [], map[], map[], None)
  }

  function Opens(): Outcome {
    Branching("opens", false, "open", ["shut"])
  }

  /** Answers a push in every state nothing moves from, and claims to start where the door is shut. */
  function Slams(): Outcome {
    Branching("slams", true, "shut", ["shut"])
  }

  function Push(): Operation {
    Operation(NOTHING, [], [], map[], [], NOTHING, [Opens(), Slams()])
  }

  function Door(): Definition {
    Definition("door", 1, NOTHING, "shut", ["shut", "open"], [], Creation(None, NOTHING, NOTHING, []),
               map["push" := Push()], Service1, None, map[])
  }

  function DoorIn(state: string, revision: nat): Instance {
    Instance("door", 1, "a", state, revision, map[])
  }

  lemma Readable()
    ensures !Blank("door") && !Blank("shut") && !Blank("open") && !Blank("push") && !Blank("opens")
    ensures !Blank("slams") && !Blank("a")
  {
    assert !IsSpace("door"[0]) && !IsSpace("shut"[0]) && !IsSpace("open"[0]) && !IsSpace("push"[0]);
    assert !IsSpace("opens"[0]) && !IsSpace("slams"[0]) && !IsSpace("a"[0]);
  }

  lemma PushSources()
    ensures MoveSources(Push().outcomes) == {"shut"}
    ensures WrongStateBranch(Push().outcomes) == Some(Slams())
  {
    var outcomes := Push().outcomes;
    assert outcomes[1..] == [Slams()] && [Slams()][1..] == [];
    assert MoveSources([Slams()]) == {"shut"} + MoveSources([]);
  }

  lemma BranchSound(doors: Doors, o: Outcome)
    requires o == Opens() || o == Slams()
    ensures OutcomeSound(Door(), o) && OperationOutcome(doors, Door(), Push(), o)
  {
    hide Blank;
    Readable();
  }

  lemma PushAccepted(doors: Doors)
    ensures OperationAccepted(doors, Door(), "push")
  {
    hide Blank, OutcomeSound, OperationOutcome, MoveSources;
    Readable();
    BranchSound(doors, Opens());
    BranchSound(doors, Slams());
    PushSources();
    assert "open" in Door().states && "open" !in MoveSources(Push().outcomes);
    assert Opens().name != Slams().name by {
      assert "opens"[0] != "slams"[0];
    }
  }

  lemma DoorRegistered(doors: Doors)
    ensures Registered(doors, Door())
  {
    hide OperationAccepted, Blank;
    Readable();
    PushAccepted(doors);
    assert "shut"[0] != "open"[0];
  }

  lemma PushSelects(doors: Doors)
    ensures SelectBranch(doors, Door(), DoorIn("open", 1), "push", Push(), map[]) == Ok(Named(Slams(), "open"))
  {
    hide MoveSources, WrongStateBranch;
    PushSources();
    assert "open"[0] != "shut"[0];
    var ctx := SelectorContext(doors, Door(), DoorIn("open", 1), Push(), map[]);
    assert SelectOutcome("push", Push().outcomes, "open", ctx) == Ok(Opens());
  }

  /** A registered definition, a safe instance and an accepted operation whose branch moves from outside
      its own `from`. */
  lemma WrongStateMoveStrays(doors: Doors) returns (d: Decision)
    ensures Registered(doors, Door()) && Safe(doors, Door(), DoorIn("open", 1))
    ensures Decide(doors, Door(), DoorIn("open", 1), "push", Obj(map[]), None, true) == Ok(Accepted(d))
    ensures d.record.outcome == Some("slams") && d.instance.state == "shut"
    ensures Slams() in Push().outcomes && "open" !in Slams().effect.from
  {
    hide Registered, SelectBranch, Decide, Blank, MaterializeResponse, StepEight, FillMembers, AdmitState;
    Readable();
    DoorRegistered(doors);
    PushSelects(doors);
    assert "open"[0] != "shut"[0];
    var before, after, branch := DoorIn("open", 1), DoorIn("shut", 2), Named(Slams(), "open");
    EmptyStep(doors, branch, before);
    EmptyResponse(doors, AfterContext(doors, Door(), before, Push(), map[], "shut", map[]));
    d := Decision(after, OperationRecord(Door(), before, after, "push", map[], branch, map[], {}, [], Some(map[])), []);
    NothingFilled();
    TracedDecides(doors, Door(), before, "push", Obj(map[]), None, true, map[], branch, map[], {}, d);
  }

  lemma NothingFilled()
    ensures FillMembers(NOTHING, map[]) == map[]
  {
  }

  lemma EmptyStep(doors: Doors, branch: Branch, before: Instance)
    requires branch == Named(Slams(), "open") && before.fields == map[]
    ensures StepEight(doors, Door(), "push", branch, BeforeContext(doors, Door(), before, Push(), map[], "shut"), None)
         == Ok((map[], {}))
  {
    var ctx := BeforeContext(doors, Door(), before, Push(), map[], "shut");
    assert Assigned("push", branch.assigns, ctx) == Ok(map[]) by {
      assert branch.assigns.Keys == {};
    }
    assert Gather<Change>(map[]) == Ok(map[]);
    assert PresentArguments(map[], map[]) == map[];
    assert Apply(map[], map[]) == map[] && Dropped(map[]) == {};
  }

  lemma EmptyResponse(doors: Doors, ctx: Context)
    ensures MaterializeResponse(Some((map[], map[])), NOTHING, ctx, true) == Ok(Some(map[]))
  {
    var always: map<string, Json> := map[];
    assert always.Keys == {};
    assert PresentArguments(map[], ctx.args) == map[];
  }
}
