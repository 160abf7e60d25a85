/** Runs of the VMM protocol in which a promise fails, and with them the exact conditions
    under which it holds. */
module VmmLimits {
  import opened Wrappers
  import opened Vmm
  import opened VmmProtocol

  // ---------------------------------------------------------------- the node's record

  /** Everything the VMM ever desired, the node recorded. */
  ghost predicate Refines(s: System)
  {
    forall k :: 0 <= k < |s.log| ==> Recorded(s.node, s.log[k].desired)
  }

  ghost function Blank(direct: bool, steady: bool, faithful: bool): (s: System)
    ensures Init(s)
  {
    System(direct, steady, faithful, [], map[], {}, [], [], map[], map[], {}, [], [], [])
  }

  const FIRST: Record := Record("a", Desired(Running, 1), None, None, 1)

  const BEGUN: seq<Cause> := [Provisioned(Desired(Running, 1), "a")]

  /** Another client changes the spec, and puts the VMM ahead of the node. */
  ghost function Ahead(steady: bool, k: nat): (s: System)
  {
    var sent := Blank(true, steady, true).(node := [Running], net := {Provision(Desired(Running, 1), "a")});
    var made := sent.(log := [FIRST], causes := BEGUN, calls := map[0 := Opening(1, false)]);
    if k == 0 then Blank(true, steady, true)
    else if k == 1 then sent
    else if k == 2 then made
    else if k == 3 then made.(calls := made.calls[1 := Changing(UpdateSpec("b"), 2, FIRST)])
    else made.(log := [FIRST] + [Changed(FIRST, UpdateSpec("b"), 2)], causes := BEGUN + [Asked(UpdateSpec("b"), 2)], calls := made.calls[1 := Opening(2, false)])
  }

  function AheadMove(k: nat): (move: Move)
  {
    if k == 0 then NodeRecord(Running, "a")
    else if k == 1 then Create(Provision(Desired(Running, 1), "a"), 0)
    else if k == 2 then Direct(UpdateSpec("b"), 2, 1)
    else Save(1)
  }

  lemma AheadSteps(steady: bool, k: nat)
    requires k < 4
    ensures Moves(Ahead(steady, k), AheadMove(k), Ahead(steady, k + 1))
  {
    var s, s' := Ahead(steady, k), Ahead(steady, k + 1);
    if k == 3 {
      assert s.calls[1 := Opening(2, false)] == s'.calls;
    }
  }

  /** The node provisions again with a state it did not record, and the VMM believes it. */
  ghost function Astray(k: nat): (s: System)
  {
    var none := Blank(false, false, true);
    var sent := none.(node := [Running], net := {Provision(Desired(Running, 1), "a")});
    var again := sent.(net := sent.net + {Provision(Desired(Stopped, 1), "a")});
    if k == 0 then none
    else if k == 1 then sent
    else if k == 2 then again
    else again.(log := [FIRST.(desired := Desired(Stopped, 1))], causes := [Provisioned(Desired(Stopped, 1), "a")], calls := map[0 := Opening(1, false)])
  }

  function AstrayMove(k: nat): (move: Move)
  {
    if k == 0 then NodeRecord(Running, "a")
    else if k == 1 then NodeAgain(Desired(Stopped, 1), "a")
    else Create(Provision(Desired(Stopped, 1), "a"), 0)
  }

  lemma AstraySteps(k: nat)
    requires k < 3
    ensures Moves(Astray(k), AstrayMove(k), Astray(k + 1))
  {
  }

  lemma RefinementFails(direct: bool, steady: bool) returns (run: seq<System>)
    requires direct || !steady
    ensures IsRun(run) && run[0].direct == direct && run[0].steady == steady && !Refines(run[|run| - 1])
  {
    hide Moves;
    if direct {
      run := seq(5, k requires 0 <= k => Ahead(steady, k));
      forall i ensures Follows(run, i) {
        if 0 < i < |run| {
          AheadSteps(steady, i - 1);
        }
      }
      assert !Recorded(run[4].node, run[4].log[1].desired);
    } else {
      run := seq(4, k requires 0 <= k => Astray(k));
      forall i ensures Follows(run, i) {
        if 0 < i < |run| {
          AstraySteps(i - 1);
        }
      }
      assert !Recorded(run[3].node, run[3].log[0].desired);
    }
  }

  /** The VMM desires only what the node recorded, in every run, if and only if nobody else
      changes desired state and the node provisions only what it recorded. */
  lemma RefinesIff(direct: bool, steady: bool)
    ensures !direct && steady <==>
            forall run: seq<System> :: IsRun(run) && run[0].direct == direct && run[0].steady == steady ==>
              Refines(run[|run| - 1])
  {
    hide Follows, Recorded;
    if !direct && steady {
      forall run: seq<System> | IsRun(run) && run[0].direct == direct && run[0].steady == steady
        ensures Refines(run[|run| - 1])
      {
        NodeRefinement(run, 0, |run| - 1);
      }
    } else {
      var run := RefinementFails(direct, steady);
    }
  }

  // ---------------------------------------------------------------- the applied generation

  const SECOND: Record := Changed(FIRST, UpdateSpec("b"), 2)

  /** What a backend reports after a step: always for the first generation. */
  function Stuck(sequence: nat): (o: Observation)
  {
    Observation(Up, 1, sequence)
  }

  const THIRD: Record := Observed(SECOND, Stuck(1), Some(2))

  /** Two operations are executed at once, of generations 1 and 2; the backend reports
      generation 1 for both, and the older one's report is written last. */
  ghost function Fall(k: nat): (s: System)
  {
    var none := Blank(true, true, false);
    var sent := none.(node := [Running], net := {Provision(Desired(Running, 1), "a")});
    var made := sent.(log := [FIRST], causes := BEGUN);
    var older := Converging(0, FIRST, false);
    var changed := made.(log := [FIRST] + [SECOND], causes := BEGUN + [Asked(UpdateSpec("b"), 2)], operations := map[0 := 1]);
    var both := changed.(operations := map[0 := 1, 1 := 2]);
    var goal1, goal2 := Some(Goal(1, Desired(Running, 1))), Some(Goal(2, Desired(Running, 2)));
    var stepped := both.(steps := [Step(2, SECOND)]);
    var marked := stepped.(log := [FIRST] + [SECOND] + [THIRD], causes := changed.causes + [Seen(Stuck(1), goal2)]);
    var last := marked.(steps := [Step(2, SECOND)] + [Step(1, FIRST)]);
    if k == 0 then none
    else if k == 1 then sent
    else if k == 2 then made.(calls := map[0 := Opening(1, false)])
    else if k == 3 then made.(operations := map[0 := 1])
    else if k == 4 then made.(operations := map[0 := 1], calls := map[1 := Executing(0, false)])
    else if k == 5 then made.(operations := map[0 := 1], calls := map[1 := older])
    else if k == 6 then made.(operations := map[0 := 1], calls := map[1 := older, 2 := Changing(UpdateSpec("b"), 2, FIRST)])
    else if k == 7 then changed.(calls := map[1 := older, 2 := Opening(2, false)])
    else if k == 8 then both.(calls := map[1 := older])
    else if k == 9 then both.(calls := map[1 := older, 3 := Executing(1, false)])
    else if k == 10 then both.(calls := map[1 := older, 3 := Converging(1, SECOND, false)])
    else if k == 11 then stepped.(calls := map[1 := older, 3 := Reporting(Stuck(1), goal2)])
    else if k == 12 then stepped.(calls := map[1 := older, 3 := Observing(Stuck(1), goal2, SECOND)])
    else if k == 13 then marked.(calls := map[1 := older])
    else if k == 14 then last.(calls := map[1 := Reporting(Stuck(2), goal1)])
    else if k == 15 then last.(calls := map[1 := Observing(Stuck(2), goal1, THIRD)])
    else last.(log := [FIRST] + [SECOND] + [THIRD] + [Observed(THIRD, Stuck(2), Some(1))],
               causes := marked.causes + [Seen(Stuck(2), goal1)],
               successes := [Success(Goal(1, Desired(Running, 1)), Some(Stuck(2)))])
  }

  function FallMove(k: nat): (move: Move)
  {
    if k == 0 then NodeRecord(Running, "a")
    else if k == 1 then Create(Provision(Desired(Running, 1), "a"), 0)
    else if k == 2 then Open(0, 0)
    else if k == 3 then Execute(0, 1)
    else if k == 4 then Load(1)
    else if k == 5 then Direct(UpdateSpec("b"), 2, 2)
    else if k == 6 then Save(2)
    else if k == 7 then Open(2, 1)
    else if k == 8 then Execute(1, 3)
    else if k == 9 then Load(3)
    else if k == 10 then Act(3, Stuck(1))
    else if k == 11 then LoadObserved(3)
    else if k == 12 then SaveObserved(3)
    else if k == 13 then Act(1, Stuck(2))
    else if k == 14 then LoadObserved(1)
    else SaveObserved(1)
  }

  lemma FallSteps(k: nat)
    requires k < 16
    ensures Moves(Fall(k), FallMove(k), Fall(k + 1))
  {
    hide Moves;
    if k == 0 {
      FallBegins();
    } else if k < 3 {
      FallCreates(k);
    } else if 5 <= k < 8 {
      FallChanges(k);
    } else if k < 5 || 8 <= k < 10 {
      FallOperates(k);
    } else if k == 10 || k == 13 {
      FallActs(k);
    } else if k < 13 {
      FallMarks(k);
    } else {
      FallEnds(k);
    }
  }

  lemma FallBegins()
    ensures Moves(Fall(0), FallMove(0), Fall(1))
  {
    hide ChangeStep, OperationStep, ObservationStep;
  }

  lemma FallChanges(k: nat)
    requires 5 <= k < 8
    ensures Moves(Fall(k), FallMove(k), Fall(k + 1))
  {
    hide NodeStep, OperationStep, ObservationStep;
    assert k == 7 ==> Fall(7).calls - {2} == Fall(8).calls;
  }

  lemma FallCreates(k: nat)
    requires 1 <= k < 3
    ensures Moves(Fall(k), FallMove(k), Fall(k + 1))
  {
    hide NodeStep, OperationStep, ObservationStep;
    assert k == 2 ==> Fall(2).calls - {0} == Fall(3).calls;
  }

  lemma FallOperates(k: nat)
    requires 3 <= k < 5 || 8 <= k < 10
    ensures Moves(Fall(k), FallMove(k), Fall(k + 1))
  {
    hide NodeStep, ChangeStep, ObservationStep;
  }

  lemma FallActs(k: nat)
    requires k == 10 || k == 13
    ensures Moves(Fall(k), FallMove(k), Fall(k + 1))
  {
    hide NodeStep, ChangeStep, ObservationStep;
  }

  lemma FallMarks(k: nat)
    requires 11 <= k < 13
    ensures Moves(Fall(k), FallMove(k), Fall(k + 1))
  {
    hide NodeStep, ChangeStep, OperationStep;
    assert k == 12 ==> Fall(12).calls - {3} == Fall(13).calls;
  }

  lemma FallEnds(k: nat)
    requires 14 <= k < 16
    ensures Moves(Fall(k), FallMove(k), Fall(k + 1))
  {
    hide NodeStep, ChangeStep, OperationStep;
    assert k == 15 ==> Fall(15).calls - {1} == Fall(16).calls;
  }

  /** The applied generation never goes back. */
  ghost predicate AppliedStands(s: System)
  {
    forall a, b :: 0 <= a <= b < |s.log| ==> AppliedRises(s.log[a], s.log[b])
  }

  lemma AppliedFalls() returns (run: seq<System>)
    ensures IsRun(run) && !run[0].faithful && !AppliedStands(run[|run| - 1])
  {
    hide Moves;
    run := seq(17, k requires 0 <= k => Fall(k));
    forall i ensures Follows(run, i) {
      if 0 < i < |run| {
        FallSteps(i - 1);
      }
    }
    var log := run[16].log;
    assert log[2] == THIRD && log[3] == Observed(THIRD, Stuck(2), Some(1));
    assert !AppliedRises(log[2], log[3]);
  }

  /** In every run the applied generation never goes back, if and only if the backend
      reports the generation it acted on. */
  lemma AppliedStandsIff(faithful: bool)
    ensures faithful <==>
            forall run: seq<System> :: IsRun(run) && run[0].faithful == faithful ==> AppliedStands(run[|run| - 1])
  {
    hide Follows, AppliedRises;
    if faithful {
      forall run: seq<System> | IsRun(run) && run[0].faithful ensures AppliedStands(run[|run| - 1]) {
        var last := |run| - 1;
        forall a, b | 0 <= a <= b < |run[last].log| ensures AppliedRises(run[last].log[a], run[last].log[b]) {
          AppliedNeverFalls(run, last, a, b);
        }
      }
    } else {
      var run := AppliedFalls();
    }
  }

  // ---------------------------------------------------------------- superseded restores

  const RESTORED: Record := Changed(FIRST, Change.Restore, 2)

  const NEWER: Record := Changed(RESTORED, UpdateSpec("b"), 3)

  /** A restore is superseded before it is executed, and restores its snapshot all the same. */
  ghost function Superseded(k: nat): (s: System)
  {
    var none := Blank(true, true, true);
    var sent := none.(node := [Running], net := {Provision(Desired(Running, 1), "a")});
    var made := sent.(log := [FIRST], causes := BEGUN, calls := map[0 := Opening(1, false)]);
    var asked := made.(log := [FIRST] + [RESTORED], causes := BEGUN + [Asked(Change.Restore, 2)]);
    var noted := asked.(operations := map[0 := 2], restoring := {0});
    var newer := noted.(log := [FIRST] + [RESTORED] + [NEWER], causes := noted.causes + [Asked(UpdateSpec("b"), 3)]);
    var waiting := map[0 := Opening(1, false), 2 := Opening(3, false)];
    if k == 0 then none
    else if k == 1 then sent
    else if k == 2 then made
    else if k == 3 then made.(calls := map[0 := Opening(1, false), 1 := Changing(Change.Restore, 2, FIRST)])
    else if k == 4 then asked.(calls := map[0 := Opening(1, false), 1 := Opening(2, true)])
    else if k == 5 then noted.(calls := map[0 := Opening(1, false)])
    else if k == 6 then noted.(calls := map[0 := Opening(1, false), 2 := Changing(UpdateSpec("b"), 3, RESTORED)])
    else if k == 7 then newer.(calls := waiting)
    else if k == 8 then newer.(calls := waiting[3 := Executing(0, false)])
    else if k == 9 then newer.(calls := waiting[3 := Converging(0, NEWER, false)])
    else newer.(restores := [Step(2, NEWER)], calls := waiting[3 := Executing(0, true)])
  }

  function SupersededMove(k: nat): (move: Move)
  {
    if k == 0 then NodeRecord(Running, "a")
    else if k == 1 then Create(Provision(Desired(Running, 1), "a"), 0)
    else if k == 2 then Direct(Change.Restore, 2, 1)
    else if k == 3 then Save(1)
    else if k == 4 then Open(1, 0)
    else if k == 5 then Direct(UpdateSpec("b"), 3, 2)
    else if k == 6 then Save(2)
    else if k == 7 then Execute(0, 3)
    else if k == 8 then Load(3)
    else RunRestore(3)
  }

  /** So a restore can act on a record of a newer generation than its own. */
  lemma SupersededRestoreActs() returns (run: seq<System>)
    ensures IsRun(run)
    ensures exists x :: x in run[|run| - 1].restores && x.generation < x.record.desired.generation
  {
    hide Moves;
    run := seq(11, k requires 0 <= k => Superseded(k));
    forall i ensures Follows(run, i) {
      if i == 1 {
        RestoreBegins();
      } else if 1 < i < 6 {
        RestoreAsked(i - 1);
      } else if 6 <= i < 8 {
        SpecChanges(i - 1);
      } else if 8 <= i < |run| {
        RestoreSuperseded(i - 1);
      }
    }
    assert Step(2, NEWER) in run[10].restores;
  }

  lemma RestoreBegins()
    ensures Moves(Superseded(0), SupersededMove(0), Superseded(1))
  {
    hide ChangeStep, OperationStep, ObservationStep;
  }

  lemma SpecChanges(k: nat)
    requires 5 <= k < 7
    ensures Moves(Superseded(k), SupersededMove(k), Superseded(k + 1))
  {
    hide NodeStep, OperationStep, ObservationStep;
  }

  lemma RestoreAsked(k: nat)
    requires 1 <= k < 5
    ensures Moves(Superseded(k), SupersededMove(k), Superseded(k + 1))
  {
    hide NodeStep, OperationStep, ObservationStep;
    if k == 4 {
      assert Superseded(4).calls - {1} == Superseded(5).calls;
    }
  }

  lemma RestoreSuperseded(k: nat)
    requires 7 <= k < 10
    ensures Moves(Superseded(k), SupersededMove(k), Superseded(k + 1))
  {
    hide NodeStep, ChangeStep, ObservationStep;
  }
}
