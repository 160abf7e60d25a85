/** One workload, with everything that touches it running at once: the node recording
    desired states and sending commands that are lost, repeated and reordered; other
    clients changing the spec or restoring; commanders and observers rewriting the whole
    record under compare-and-set; and executors driving operations through the backend.

    Every move is one storage step, one backend step or one message. A call may stop at
    any point, which covers refusals, exhausted retries and crashes. */
module VmmProtocol {
  import opened Wrappers
  import opened Vmm

  datatype Message =
    | Provision(desired: Desired, spec: Spec)
    | Order(command: Command, generation: nat)

  /** The node's side of a call: the generation and state it read, and the state to set. */
  datatype Recording = Recording(expected: nat, was: DesiredState, to: DesiredState)

  datatype Call =
    | Changing(change: Change, generation: nat, loaded: Record)
    | Opening(generation: nat, restores: bool)
    | Executing(operation: nat, restored: bool)
    | Converging(operation: nat, loaded: Record, restored: bool)
    | Reporting(observation: Observation, goal: Option<Goal>)
    | Observing(observation: Observation, goal: Option<Goal>, loaded: Record)

  /** What a backend step is for: an operation of this generation, and what the record it
      acted on desired. */
  datatype Goal = Goal(operation: nat, desired: Desired)

  /** A backend call made for an operation on a record as it was loaded. */
  datatype Step = Step(generation: nat, record: Record)

  /** An operation finished as done, on this observation. */
  datatype Success = Success(goal: Goal, observed: Option<Observation>)

  /** Why a record was committed. */
  datatype Cause =
    | Provisioned(desired: Desired, spec: Spec)
    | Asked(change: Change, generation: nat)
    | Seen(observation: Observation, goal: Option<Goal>)

  /** The generation an observation write marks as applied. */
  function AppliedBy(goal: Option<Goal>): (applied: Option<nat>)
  {
    if goal.Some? then Some(goal.value.desired.generation) else None
  }

  datatype System = System(
    direct: bool,                      // whether clients other than the node change desired state
    steady: bool,                      // whether the node provisions only what it recorded
    faithful: bool,                    // whether backend steps report the generation they acted on
    node: seq<DesiredState>,           // the state the node recorded at generation 1, 2, ...
    recordings: map<nat, Recording>,
    net: set<Message>,                 // every message sent; delivery does not remove it
    log: seq<Record>,                  // every record committed; the last one is stored
    causes: seq<Cause>,                // what each of them was committed for
    calls: map<nat, Call>,
    operations: map<nat, nat>,         // lifecycle operations, with their generation
    restoring: set<nat>,               // those that restore a snapshot first
    steps: seq<Step>,                  // backend steps taken, in order
    restores: seq<Step>,               // snapshots restored, in order
    successes: seq<Success>            // operations finished as done, in order
  )

  function Last(log: seq<Record>): (record: Record)
    requires log != []
  {
    log[|log| - 1]
  }

  function CommandFor(was: DesiredState, to: DesiredState): (command: Command)
    ensures Target(command) == to
  {
    match to
    case Running => if was == Paused then Resume else Start
    case Stopped => Stop
    case Paused => Pause
    case Deleted => Delete
  }

  datatype Move =
    | NodeRecord(state: DesiredState, spec: Spec)
    | NodeAgain(desired: Desired, spec: Spec)
    | NodeRead(id: nat, to: DesiredState)
    | NodePut(id: nat)
    | NodeDrop(id: nat)
    | Create(message: Message, id: nat)
    | Deliver(message: Message, id: nat)
    | Direct(change: Change, generation: nat, id: nat)
    | Save(id: nat)
    | Open(id: nat, operation: nat)
    | Reconcile(id: nat)
    | Execute(operation: nat, id: nat)
    | Load(id: nat)
    | RunRestore(id: nat)
    | Find(id: nat)
    | Act(id: nat, observation: Observation)
    | Report(id: nat, observation: Observation)
    | LoadObserved(id: nat)
    | SaveObserved(id: nat)
    | Retry(id: nat)
    | Drop(id: nat)

  /** The node records what it desires before it sends anything. */
  ghost predicate NodeStep(s: System, move: Move, s': System)
  {
    match move
    case NodeRecord(state, spec) =>
      && s.node == [] && (state == Stopped || state == Running)
      && s' == s.(node := [state], net := s.net + {Provision(Desired(state, 1), spec)})
    // Provisioning again keeps the record there is, and sends what it was called with.
    case NodeAgain(desired, spec) =>
      && s.node != [] && (s.steady ==> Recorded(s.node, desired))
      && s' == s.(net := s.net + {Provision(desired, spec)})
    case NodeRead(id, to) =>
      && s.node != [] && id !in s.recordings
      && s' == s.(recordings := s.recordings[id := Recording(|s.node|, s.node[|s.node| - 1], to)])
    case NodePut(id) =>
      && id in s.recordings
      && var r := s.recordings[id];
      && r.expected == |s.node|
      && s' == s.(node := s.node + [r.to],
                  recordings := s.recordings - {id},
                  net := s.net + {Order(CommandFor(r.was, r.to), r.expected + 1)})
    case NodeDrop(id) => s' == s.(recordings := s.recordings - {id})
    case _ => false
  }

  /** Desired changes: load and check, then save if the version is still the one loaded,
      then record the operation. */
  ghost predicate ChangeStep(s: System, move: Move, s': System)
  {
    match move
    case Create(message, id) =>
      && message in s.net && message.Provision? && id !in s.calls && s.log == []
      && (message.desired.state == Stopped || message.desired.state == Running)
      && s' == s.(log := [Record(message.spec, message.desired, None, None, 1)],
                  causes := [Provisioned(message.desired, message.spec)],
                  calls := s.calls[id := Opening(message.desired.generation, false)])
    case Deliver(message, id) =>
      && message in s.net && message.Order? && id !in s.calls && s.log != []
      && Applies(Last(s.log), Lifecycle(message.command), message.generation)
      && s' == s.(calls := s.calls[id := Changing(Lifecycle(message.command), message.generation, Last(s.log))])
    case Direct(change, generation, id) =>
      && s.direct && id !in s.calls && s.log != [] && Applies(Last(s.log), change, generation)
      && s' == s.(calls := s.calls[id := Changing(change, generation, Last(s.log))])
    case Save(id) =>
      && id in s.calls && s.calls[id].Changing? && s.log != []
      && var c := s.calls[id];
      && Last(s.log).version == c.loaded.version
      && s' == s.(log := s.log + [Changed(c.loaded, c.change, c.generation)],
                  causes := s.causes + [Asked(c.change, c.generation)],
                  calls := s.calls[id := Opening(c.generation, c.change.Restore?)])
    case Open(id, operation) =>
      && id in s.calls && s.calls[id].Opening? && operation !in s.operations
      && s' == s.(operations := s.operations[operation := s.calls[id].generation],
                  restoring := if s.calls[id].restores then s.restoring + {operation} else s.restoring,
                  calls := s.calls - {id})
    case _ => false
  }

  predicate MustRestore(s: System, c: Call)
    requires c.Converging? && c.operation in s.operations
  {
    c.operation in s.restoring && !c.restored && c.loaded.applied != Some(s.operations[c.operation])
  }

  /** Executors, and reconciliation, which opens operations for the generation it saw. */
  ghost predicate OperationStep(s: System, move: Move, s': System)
  {
    match move
    case Reconcile(id) =>
      && id !in s.calls && s.log != []
      && s' == s.(calls := s.calls[id := Opening(Last(s.log).desired.generation, false)])
    case Execute(operation, id) =>
      && operation in s.operations && id !in s.calls
      && s' == s.(calls := s.calls[id := Executing(operation, false)])
    case Load(id) =>
      && id in s.calls && s.calls[id].Executing? && s.log != []
      && s' == s.(calls := s.calls[id := Converging(s.calls[id].operation, Last(s.log), s.calls[id].restored)])
    // A snapshot not applied yet is restored first, and the record loaded again; whether
    // the operation is superseded is looked at only afterwards.
    case RunRestore(id) =>
      && id in s.calls && s.calls[id].Converging?
      && var c := s.calls[id];
      && c.operation in s.operations && MustRestore(s, c)
      && s' == s.(restores := s.restores + [Step(s.operations[c.operation], c.loaded)],
                  calls := s.calls[id := Executing(c.operation, true)])
    // A superseded operation takes no step: its call can only be dropped.
    case Find(id) =>
      && id in s.calls && s.calls[id].Converging?
      && var c := s.calls[id];
      && c.operation in s.operations && !MustRestore(s, c)
      && c.loaded.desired.generation <= s.operations[c.operation]
      && Reached(c.loaded.desired, c.loaded.observed)
      && s' == s.(successes := s.successes + [Success(Goal(s.operations[c.operation], c.loaded.desired), c.loaded.observed)],
                  calls := s.calls - {id})
    case Act(id, observation) =>
      && id in s.calls && s.calls[id].Converging?
      && var c := s.calls[id];
      && c.operation in s.operations && !MustRestore(s, c)
      && c.loaded.desired.generation <= s.operations[c.operation]
      && (s.faithful ==> observation.generation == c.loaded.desired.generation)
      && s' == s.(steps := s.steps + [Step(s.operations[c.operation], c.loaded)],
                  calls := s.calls[id := Reporting(observation, Some(Goal(s.operations[c.operation], c.loaded.desired)))])
    case _ => false
  }

  /** Observations, from a backend step or from an observation pass. */
  ghost predicate ObservationStep(s: System, move: Move, s': System)
  {
    match move
    case Report(id, observation) =>
      id !in s.calls && s' == s.(calls := s.calls[id := Reporting(observation, None)])
    case LoadObserved(id) =>
      && id in s.calls && s.calls[id].Reporting? && s.log != []
      && var c := s.calls[id];
      && Accepts(Last(s.log), c.observation)
      && s' == s.(calls := s.calls[id := Observing(c.observation, c.goal, Last(s.log))])
    case SaveObserved(id) =>
      && id in s.calls && s.calls[id].Observing? && s.log != []
      && var c := s.calls[id];
      && Last(s.log).version == c.loaded.version
      && s' == s.(log := s.log + [Observed(c.loaded, c.observation, AppliedBy(c.goal))],
                  causes := s.causes + [Seen(c.observation, c.goal)],
                  calls := s.calls - {id},
                  successes := if c.goal.Some? && Reached(c.goal.value.desired, Some(c.observation))
                               then s.successes + [Success(c.goal.value, Some(c.observation))] else s.successes)
    case Retry(id) =>
      && id in s.calls && s.calls[id].Observing?
      && s' == s.(calls := s.calls[id := Reporting(s.calls[id].observation, s.calls[id].goal)])
    case Drop(id) => s' == s.(calls := s.calls - {id})
    case _ => false
  }

  ghost predicate Moves(s: System, move: Move, s': System)
  {
    || NodeStep(s, move, s')
    || ChangeStep(s, move, s')
    || OperationStep(s, move, s')
    || ObservationStep(s, move, s')
  }

  ghost predicate Next(s: System, s': System)
  {
    exists move :: Moves(s, move, s')
  }

  ghost predicate Init(s: System)
  {
    && s.node == [] && s.recordings == map[] && s.net == {}
    && s.log == [] && s.causes == [] && s.calls == map[] && s.operations == map[] && s.restoring == {}
    && s.steps == [] && s.restores == [] && s.successes == []
  }

  ghost predicate IsRun(run: seq<System>)
  {
    && run != [] && Init(run[0])
    && forall i :: Follows(run, i)
  }

  ghost predicate Follows(run: seq<System>, i: int)
  {
    0 < i < |run| ==> Next(run[i - 1], run[i])
  }

  // ---------------------------------------------------------------- the record log

  ghost predicate Chained(log: seq<Record>, i: int)
  {
    0 < i < |log| ==> IsChange(log[i - 1], log[i]) || IsObservation(log[i - 1], log[i])
  }

  /** Versions count the commits, each commit is a change or an observation of the one
      before it, and nothing claims to have applied a generation nobody desired. */
  ghost predicate LogInv(log: seq<Record>)
  {
    && (forall i :: Chained(log, i))
    && (forall i :: 0 <= i < |log| ==> log[i].version == i + 1)
    && (forall i :: 0 <= i < |log| ==> log[i].applied.Some? ==> log[i].applied.value <= log[i].desired.generation)
    && (forall i, j :: 0 <= i <= j < |log| ==> log[i].desired.generation <= log[j].desired.generation)
  }

  /** `record` was committed. */
  predicate Committed(log: seq<Record>, record: Record)
  {
    1 <= record.version <= |log| && log[record.version - 1] == record
  }

  predicate Attained(log: seq<Record>, generation: nat)
  {
    log != [] && generation <= Last(log).desired.generation
  }

  predicate CallInv(log: seq<Record>, operations: map<nat, nat>, c: Call)
  {
    match c
    case Changing(change, generation, loaded) => Committed(log, loaded) && Applies(loaded, change, generation)
    case Opening(generation, _) => Attained(log, generation)
    case Executing(operation, _) => operation in operations
    case Converging(operation, loaded, _) =>
      && Committed(log, loaded)
      && operation in operations && operations[operation] <= loaded.desired.generation
    case Reporting(_, goal) => goal.Some? ==> Attained(log, goal.value.desired.generation)
    case Observing(observation, goal, loaded) =>
      && Committed(log, loaded) && Accepts(loaded, observation)
      && (goal.Some? ==> goal.value.desired.generation <= loaded.desired.generation)
  }

  ghost predicate CallsInv(log: seq<Record>, operations: map<nat, nat>, calls: map<nat, Call>)
  {
    forall id :: id in calls ==> CallInv(log, operations, calls[id])
  }

  /** Operations never run ahead of the desired generation, and a backend step is only
      ever taken for the generation its record desires. */
  ghost predicate OperationsInv(log: seq<Record>, operations: map<nat, nat>, steps: seq<Step>)
  {
    && (forall o :: o in operations ==> Attained(log, operations[o]))
    && (forall i :: 0 <= i < |steps| ==> Timely(log, steps[i]))
  }

  /** A snapshot is never restored onto a record older than its operation. */
  ghost predicate RestoresInv(log: seq<Record>, restores: seq<Step>)
  {
    forall i :: 0 <= i < |restores| ==> NotEarly(log, restores[i])
  }

  predicate NotEarly(log: seq<Record>, step: Step)
  {
    Committed(log, step.record) && step.generation <= step.record.desired.generation
  }

  predicate Timely(log: seq<Record>, step: Step)
  {
    Committed(log, step.record) && step.generation == step.record.desired.generation
  }

  // ---------------------------------------------------------------- the node's record

  /** `desired` is exactly what the node recorded at that generation. */
  predicate Recorded(node: seq<DesiredState>, desired: Desired)
  {
    1 <= desired.generation <= |node| && node[desired.generation - 1] == desired.state
  }

  predicate FromNode(node: seq<DesiredState>, message: Message)
  {
    match message
    case Provision(desired, _) => Recorded(node, desired)
    case Order(command, generation) => Recorded(node, Desired(Target(command), generation))
  }

  ghost predicate NetInv(node: seq<DesiredState>, net: set<Message>, steady: bool)
  {
    forall m :: m in net && (steady || m.Order?) ==> FromNode(node, m)
  }

  /** With the node as the only source of desired states, every record ever committed,
      and every change on its way, is one the node recorded. */
  ghost predicate NodeInv(node: seq<DesiredState>, log: seq<Record>, calls: map<nat, Call>)
  {
    && (forall i :: 0 <= i < |log| ==> Recorded(node, log[i].desired))
    && (forall id :: id in calls ==> ChangeFromNode(node, calls[id]))
  }

  predicate ChangeFromNode(node: seq<DesiredState>, c: Call)
  {
    c.Changing? ==>
      c.change.Lifecycle? && Recorded(node, Desired(Target(c.change.command), c.generation))
  }

  ghost predicate RecordInv(s: System)
  {
    && LogInv(s.log)
    && CallsInv(s.log, s.operations, s.calls)
    && OperationsInv(s.log, s.operations, s.steps)
    && RestoresInv(s.log, s.restores)
  }

  ghost predicate DesiredInv(s: System)
  {
    && NetInv(s.node, s.net, s.steady)
    && (!s.direct && s.steady ==> NodeInv(s.node, s.log, s.calls))
  }

  // ---------------------------------------------------------------- goals

  /** Somebody desired this, and it was committed. */
  ghost predicate WasDesired(log: seq<Record>, desired: Desired)
  {
    exists k :: 0 <= k < |log| && log[k].desired == desired
  }

  /** This was observed, and committed on a record that desired at least `generation`. */
  ghost predicate WasObserved(log: seq<Record>, observed: Option<Observation>, generation: nat)
  {
    exists k :: 0 <= k < |log| && log[k].observed == observed && generation <= log[k].desired.generation
  }

  ghost predicate GoalInv(log: seq<Record>, goal: Goal)
  {
    goal.operation == goal.desired.generation && WasDesired(log, goal.desired)
  }

  ghost predicate CallGoalInv(log: seq<Record>, faithful: bool, c: Call)
  {
    (c.Reporting? || c.Observing?) && c.goal.Some? ==>
      && GoalInv(log, c.goal.value)
      && (faithful ==> c.observation.generation == c.goal.value.desired.generation)
  }

  /** An operation is only ever finished as done on a committed observation that shows
      what its own generation desired. */
  ghost predicate SuccessInv(log: seq<Record>, x: Success)
  {
    && GoalInv(log, x.goal)
    && Reached(x.goal.desired, x.observed)
    && WasObserved(log, x.observed, x.goal.desired.generation)
  }

  /** What is marked applied has been observed. */
  predicate AppliedIsObserved(r: Record)
  {
    r.applied.Some? ==> r.observed.Some? && r.applied.value <= r.observed.value.generation
  }

  /** A commit that marks a generation as applied observed it. */
  ghost predicate Marked(log: seq<Record>, k: int)
  {
    0 < k < |log| ==>
      || log[k].applied == log[k - 1].applied
      || (log[k].observed.Some? && log[k].applied == Some(log[k].observed.value.generation))
  }

  ghost predicate GoalsInv(s: System)
  {
    && (forall id :: id in s.calls ==> CallGoalInv(s.log, s.faithful, s.calls[id]))
    && (forall k :: 0 <= k < |s.successes| ==> SuccessInv(s.log, s.successes[k]))
    && (s.faithful ==> forall k :: Marked(s.log, k))
    && (s.faithful ==> forall k :: 0 <= k < |s.log| ==> AppliedIsObserved(s.log[k]))
  }

  // ---------------------------------------------------------------- every step keeps it

  /** A log grown by one successor keeps everything said of the shorter one. */
  predicate Grows(log: seq<Record>, log': seq<Record>)
  {
    && |log| <= |log'| && log == log'[..|log|]
    && (log != [] ==> Last(log).desired.generation <= Last(log').desired.generation)
  }

  lemma Append(log: seq<Record>, next: Record)
    requires LogInv(log) && log != []
    requires IsChange(Last(log), next) || IsObservation(Last(log), next)
    ensures LogInv(log + [next]) && Grows(log, log + [next])
  {
    var log' := log + [next];
    forall i ensures Chained(log', i) {
      assert Chained(log, i);
    }
  }

  lemma GrowthKeepsCalls(log: seq<Record>, log': seq<Record>, operations: map<nat, nat>, calls: map<nat, Call>)
    requires Grows(log, log') && CallsInv(log, operations, calls)
    ensures CallsInv(log', operations, calls)
  {
    hide Applies, Accepts;
    forall r | Committed(log, r) ensures Committed(log', r) {
      assert log'[..|log|][r.version - 1] == r;
    }
  }

  lemma GrowthKeepsOperations(log: seq<Record>, log': seq<Record>, operations: map<nat, nat>, steps: seq<Step>)
    requires Grows(log, log') && OperationsInv(log, operations, steps)
    ensures OperationsInv(log', operations, steps)
  {
    forall r | Committed(log, r) ensures Committed(log', r) {
      assert log'[..|log|][r.version - 1] == r;
    }
  }

  lemma GrowthKeepsRestores(log: seq<Record>, log': seq<Record>, restores: seq<Step>)
    requires Grows(log, log') && RestoresInv(log, restores)
    ensures RestoresInv(log', restores)
  {
    forall r | Committed(log, r) ensures Committed(log', r) {
      assert log'[..|log|][r.version - 1] == r;
    }
  }

  lemma CommittedReaches(log: seq<Record>, record: Record)
    requires LogInv(log) && Committed(log, record)
    ensures Attained(log, record.desired.generation)
  {
    assert log[record.version - 1].desired.generation <= log[|log| - 1].desired.generation;
  }

  /** A compare-and-set that passes was made on the stored record itself. */
  lemma LoadedIsStored(log: seq<Record>, loaded: Record)
    requires LogInv(log) && Committed(log, loaded) && Last(log).version == loaded.version
    ensures loaded == Last(log)
  {
  }

  lemma SaveAppends(s: System, id: nat, s': System)
    requires RecordInv(s) && ChangeStep(s, Save(id), s')
    ensures LogInv(s'.log) && Grows(s.log, s'.log) && Attained(s'.log, s.calls[id].generation)
  {
    hide OperationsInv, RestoresInv;
    var c := s.calls[id];
    assert CallInv(s.log, s.operations, c);
    LoadedIsStored(s.log, c.loaded);
    ChangeKeepsObservations(c.loaded, c.change, c.generation);
    Append(s.log, Changed(c.loaded, c.change, c.generation));
  }

  lemma SaveKeeps(s: System, id: nat, s': System)
    requires RecordInv(s) && ChangeStep(s, Save(id), s')
    ensures RecordInv(s')
  {
    hide LogInv, Applies, Changed, Accepts, RestoresInv, OperationsInv;
    SaveAppends(s, id, s');
    GrowthKeepsCalls(s.log, s'.log, s.operations, s.calls);
    GrowthKeepsOperations(s.log, s'.log, s.operations, s.steps);
    GrowthKeepsRestores(s.log, s'.log, s.restores);
  }

  lemma SaveObservedKeeps(s: System, id: nat, s': System)
    requires RecordInv(s) && ObservationStep(s, SaveObserved(id), s')
    ensures RecordInv(s')
  {
    var c := s.calls[id];
    assert CallInv(s.log, s.operations, c);
    LoadedIsStored(s.log, c.loaded);
    ObservationKeepsDesired(c.loaded, c.observation, AppliedBy(c.goal));
    Append(s.log, Observed(c.loaded, c.observation, AppliedBy(c.goal)));
    hide LogInv, Applies, Observed, IsChange, IsObservation, Accepts;
    GrowthKeepsCalls(s.log, s'.log, s.operations, s.calls);
    GrowthKeepsOperations(s.log, s'.log, s.operations, s.steps);
    GrowthKeepsRestores(s.log, s'.log, s.restores);
  }

  lemma CreateKeeps(s: System, message: Message, id: nat, s': System)
    requires RecordInv(s) && ChangeStep(s, Create(message, id), s')
    ensures RecordInv(s')
  {
    hide Applies, IsChange, IsObservation, Accepts;
    assert Grows(s.log, s'.log);
    GrowthKeepsCalls(s.log, s'.log, s.operations, s.calls);
    GrowthKeepsOperations(s.log, s'.log, s.operations, s.steps);
    GrowthKeepsRestores(s.log, s'.log, s.restores);
  }

  lemma ChangeStepKeeps(s: System, move: Move, s': System)
    requires RecordInv(s) && ChangeStep(s, move, s')
    ensures RecordInv(s')
  {
    if move.Save? {
      SaveKeeps(s, move.id, s');
    } else if move.Create? {
      CreateKeeps(s, move.message, move.id, s');
    } else if move.Open? {
      OpenKeeps(s, move, s');
    } else {
      PlanKeeps(s, move, s');
    }
  }

  lemma OpenKeeps(s: System, move: Move, s': System)
    requires RecordInv(s) && ChangeStep(s, move, s') && move.Open?
    ensures RecordInv(s')
  {
    hide Applies, IsChange, IsObservation, Accepts, Chained;
    assert CallInv(s.log, s.operations, s.calls[move.id]);
  }

  lemma PlanKeeps(s: System, move: Move, s': System)
    requires RecordInv(s) && ChangeStep(s, move, s') && (move.Deliver? || move.Direct?)
    ensures RecordInv(s')
  {
    hide Applies, IsChange, IsObservation, Accepts, Chained;
  }

  lemma OperationStepKeeps(s: System, move: Move, s': System)
    requires RecordInv(s) && OperationStep(s, move, s')
    ensures RecordInv(s')
  {
    hide Applies, IsChange, IsObservation;
    match move
    case Load(id) =>
      assert CallInv(s.log, s.operations, s.calls[id]);
    case RunRestore(id) =>
      assert CallInv(s.log, s.operations, s.calls[id]);
    case Act(id, _) =>
      assert CallInv(s.log, s.operations, s.calls[id]);
      CommittedReaches(s.log, s.calls[id].loaded);
    case _ =>
  }

  lemma ObservationStepKeeps(s: System, move: Move, s': System)
    requires RecordInv(s) && ObservationStep(s, move, s')
    ensures RecordInv(s')
  {
    match move
    case SaveObserved(id) => SaveObservedKeeps(s, id, s');
    case LoadObserved(id) =>
      hide Applies, IsChange, IsObservation;
      assert CallInv(s.log, s.operations, s.calls[id]);
    case Retry(id) =>
      hide Applies, IsChange, IsObservation;
      assert CallInv(s.log, s.operations, s.calls[id]);
      CommittedReaches(s.log, s.calls[id].loaded);
    case _ =>
      hide Applies, IsChange, IsObservation;
  }

  /** Every step keeps the record invariant. */
  lemma StepKeepsRecords(s: System, move: Move, s': System)
    requires RecordInv(s) && Moves(s, move, s')
    ensures RecordInv(s')
  {
    hide LogInv, CallsInv, OperationsInv, RestoresInv;
    if NodeStep(s, move, s') {
    } else if ChangeStep(s, move, s') {
      ChangeStepKeeps(s, move, s');
    } else if OperationStep(s, move, s') {
      OperationStepKeeps(s, move, s');
    } else {
      ObservationStepKeeps(s, move, s');
    }
  }

  lemma NodeStepKeepsDesired(s: System, move: Move, s': System)
    requires DesiredInv(s) && NodeStep(s, move, s')
    ensures DesiredInv(s')
  {
    forall d | Recorded(s.node, d) ensures Recorded(s'.node, d) {
    }
  }

  lemma ChangeStepKeepsDesired(s: System, move: Move, s': System)
    requires RecordInv(s) && DesiredInv(s) && ChangeStep(s, move, s')
    ensures DesiredInv(s')
  {
    hide LogInv, OperationsInv, CallsInv, RestoresInv, Applies;
    if move.Save? {
      assert !s.direct && s.steady ==> ChangeFromNode(s.node, s.calls[move.id]);
    }
  }

  lemma SaveObservedKeepsDesired(s: System, id: nat, s': System)
    requires RecordInv(s) && DesiredInv(s) && ObservationStep(s, SaveObserved(id), s')
    ensures DesiredInv(s')
  {
    hide OperationsInv, RestoresInv, NetInv, Applies, Accepts, Chained, Reached;
    assert CallInv(s.log, s.operations, s.calls[id]);
    LoadedIsStored(s.log, s.calls[id].loaded);
  }

  lemma OtherStepKeepsDesired(s: System, move: Move, s': System)
    requires RecordInv(s) && DesiredInv(s)
    requires OperationStep(s, move, s') || ObservationStep(s, move, s')
    ensures DesiredInv(s')
  {
    if move.SaveObserved? {
      SaveObservedKeepsDesired(s, move.id, s');
    } else {
      hide RecordInv, NetInv, Applies, Accepts, Reached, MustRestore;
    }
  }

  /** Every step keeps the node's record ahead of the VMM's. */
  lemma StepKeepsDesired(s: System, move: Move, s': System)
    requires RecordInv(s) && DesiredInv(s) && Moves(s, move, s')
    ensures DesiredInv(s')
  {
    hide RecordInv, DesiredInv;
    if NodeStep(s, move, s') {
      NodeStepKeepsDesired(s, move, s');
    } else if ChangeStep(s, move, s') {
      ChangeStepKeepsDesired(s, move, s');
    } else {
      OtherStepKeepsDesired(s, move, s');
    }
  }

  lemma GrowthKeepsGoals(log: seq<Record>, log': seq<Record>)
    requires log <= log'
    ensures forall g :: GoalInv(log, g) ==> GoalInv(log', g)
    ensures forall x :: SuccessInv(log, x) ==> SuccessInv(log', x)
    ensures forall f, c :: CallGoalInv(log, f, c) ==> CallGoalInv(log', f, c)
  {
    hide Reached;
    forall d | WasDesired(log, d) ensures WasDesired(log', d) {
      var k :| 0 <= k < |log| && log[k].desired == d;
      assert log'[k].desired == d;
    }
    forall o, n: nat | WasObserved(log, o, n) ensures WasObserved(log', o, n) {
      var k :| 0 <= k < |log| && log[k].observed == o && n <= log[k].desired.generation;
      assert log'[k].observed == o;
    }
  }

  /** Taking a backend step, or finding that none is needed. */
  lemma ConvergeKeepsGoals(s: System, move: Move, s': System)
    requires RecordInv(s) && GoalsInv(s) && OperationStep(s, move, s') && (move.Act? || move.Find?)
    ensures GoalsInv(s')
  {
    hide Reached, LogInv, OperationsInv;
    var c := s.calls[move.id];
    assert CallInv(s.log, s.operations, c);
    var k := c.loaded.version - 1;
    assert s.log[k].desired == c.loaded.desired && s.log[k].observed == c.loaded.observed;
    assert WasDesired(s.log, c.loaded.desired);
    assert WasObserved(s.log, c.loaded.observed, c.loaded.desired.generation);
  }

  lemma SaveObservedKeepsGoals(s: System, id: nat, s': System)
    requires RecordInv(s) && GoalsInv(s) && ObservationStep(s, SaveObserved(id), s')
    ensures GoalsInv(s')
  {
    hide Reached, OperationsInv;
    var c := s.calls[id];
    assert CallInv(s.log, s.operations, c) && CallGoalInv(s.log, s.faithful, c);
    LoadedIsStored(s.log, c.loaded);
    GrowthKeepsGoals(s.log, s'.log);
    var n := |s.log|;
    assert s'.log[n] == Observed(c.loaded, c.observation, AppliedBy(c.goal));
    assert c.goal.Some? ==> WasObserved(s'.log, Some(c.observation), c.goal.value.desired.generation);
    if s.faithful {
      assert AppliedIsObserved(s.log[n - 1]);
      forall k | 0 <= k < |s'.log| ensures AppliedIsObserved(s'.log[k]) {
        assert k < n ==> s'.log[k] == s.log[k];
      }
      forall k ensures Marked(s'.log, k) {
        assert Marked(s.log, k);
      }
    }
  }

  lemma SaveKeepsGoals(s: System, id: nat, s': System)
    requires RecordInv(s) && GoalsInv(s) && ChangeStep(s, Save(id), s')
    ensures GoalsInv(s')
  {
    hide Reached, OperationsInv, RestoresInv, Applies;
    GrowthKeepsGoals(s.log, s'.log);
    var c := s.calls[id];
    assert CallInv(s.log, s.operations, c);
    LoadedIsStored(s.log, c.loaded);
    hide GoalInv, SuccessInv, LogInv, CallsInv;
    if s.faithful {
      assert AppliedIsObserved(Last(s.log));
      forall k ensures Marked(s'.log, k) {
        assert Marked(s.log, k);
      }
    }
  }

  lemma ChangeKeepsGoals(s: System, move: Move, s': System)
    requires RecordInv(s) && GoalsInv(s) && ChangeStep(s, move, s')
    ensures GoalsInv(s')
  {
    if move.Save? {
      SaveKeepsGoals(s, move.id, s');
    } else {
      hide Reached, RecordInv, Applies, SuccessInv, GoalInv;
      GrowthKeepsGoals(s.log, s'.log);
    }
  }

  lemma StepKeepsGoals(s: System, move: Move, s': System)
    requires RecordInv(s) && GoalsInv(s) && Moves(s, move, s')
    ensures GoalsInv(s')
  {
    hide RecordInv, CallGoalInv, SuccessInv, AppliedIsObserved, Applies, Accepts, Reached;
    if NodeStep(s, move, s') {
    } else if ChangeStep(s, move, s') {
      ChangeKeepsGoals(s, move, s');
    } else if move.Act? || move.Find? {
      ConvergeKeepsGoals(s, move, s');
    } else if move.SaveObserved? {
      SaveObservedKeepsGoals(s, move.id, s');
    } else {
      RestKeepsGoals(s, move, s');
    }
  }

  /** Moves that hand a goal on as it is, or have none. */
  lemma RestKeepsGoals(s: System, move: Move, s': System)
    requires GoalsInv(s) && (OperationStep(s, move, s') || ObservationStep(s, move, s'))
    requires !move.Act? && !move.Find? && !move.SaveObserved?
    ensures GoalsInv(s')
  {
    hide GoalInv, SuccessInv, AppliedIsObserved, Applies, Accepts, Reached;
  }

  // ---------------------------------------------------------------- whole runs

  lemma InitHasInv(s: System)
    requires Init(s)
    ensures RecordInv(s) && DesiredInv(s) && GoalsInv(s)
  {
  }

  /** Nothing committed or done by the backend is undone, and the setting does not change. */
  ghost predicate Extends(s: System, s': System)
  {
    && s.log <= s'.log && s.steps <= s'.steps && s.restores <= s'.restores
    && s'.direct == s.direct && s'.steady == s.steady && s'.faithful == s.faithful
  }

  lemma NodeStepExtends(s: System, move: Move, s': System)
    requires NodeStep(s, move, s') || ObservationStep(s, move, s')
    ensures Extends(s, s')
  {
    hide Recorded, CommandFor, Accepts, Observed, Reached;
  }

  lemma ChangeStepExtends(s: System, move: Move, s': System)
    requires ChangeStep(s, move, s') || OperationStep(s, move, s')
    ensures Extends(s, s')
  {
    hide Applies, Changed, Reached, MustRestore;
  }

  lemma StepExtends(s: System, move: Move, s': System)
    requires Moves(s, move, s')
    ensures Extends(s, s')
  {
    hide NodeStep, ChangeStep, OperationStep, ObservationStep, Extends;
    if NodeStep(s, move, s') || ObservationStep(s, move, s') {
      NodeStepExtends(s, move, s');
    } else {
      ChangeStepExtends(s, move, s');
    }
  }

  lemma {:induction false} RunKeepsInv(run: seq<System>, i: nat)
    requires IsRun(run) && i < |run|
    ensures RecordInv(run[i]) && DesiredInv(run[i]) && GoalsInv(run[i])
    ensures run[i].direct == run[0].direct && run[i].steady == run[0].steady && run[i].faithful == run[0].faithful
  {
    hide RecordInv, DesiredInv, GoalsInv, Moves;
    if i == 0 {
      InitHasInv(run[0]);
    } else {
      RunKeepsInv(run, i - 1);
      assert Follows(run, i);
      var move :| Moves(run[i - 1], move, run[i]);
      StepKeepsRecords(run[i - 1], move, run[i]);
      StepKeepsDesired(run[i - 1], move, run[i]);
      StepKeepsGoals(run[i - 1], move, run[i]);
      StepExtends(run[i - 1], move, run[i]);
    }
  }

  lemma {:induction false} LogOnlyGrows(run: seq<System>, i: nat, j: nat)
    requires IsRun(run) && i <= j < |run|
    ensures run[i].log <= run[j].log && run[i].steps <= run[j].steps && run[i].restores <= run[j].restores
    decreases j - i
  {
    hide Moves;
    if i < j {
      LogOnlyGrows(run, i, j - 1);
      assert Follows(run, j);
      var move :| Moves(run[j - 1], move, run[j]);
      StepExtends(run[j - 1], move, run[j]);
    }
  }

  // ---------------------------------------------------------------- what commits are for

  /** Commit `k` is exactly what its cause makes of the commit before it. */
  ghost predicate Caused(log: seq<Record>, causes: seq<Cause>, k: int)
    requires |causes| == |log|
  {
    0 <= k < |log| ==>
      match causes[k]
      case Provisioned(desired, spec) =>
        k == 0 && log[0].desired == desired && log[0].spec == spec && log[0].observed == None && log[0].applied == None
      case Asked(change, generation) =>
        0 < k && IsChange(log[k - 1], log[k]) && Carries(log[k - 1], change, generation, log[k])
      case Seen(observation, goal) =>
        && 0 < k && IsObservation(log[k - 1], log[k])
        && Notes(log[k - 1], observation, if goal.Some? then Some(goal.value.desired.generation) else None, log[k])
  }

  /** A cause was sent by the node, or comes from somebody else who may. */
  predicate Sent(s: System, cause: Cause)
  {
    match cause
    case Provisioned(desired, spec) => Provision(desired, spec) in s.net
    case Asked(change, generation) => s.direct || (change.Lifecycle? && Order(change.command, generation) in s.net)
    case Seen(_, _) => true
  }

  ghost predicate CausedInv(s: System)
  {
    |s.causes| == |s.log| && forall k :: Caused(s.log, s.causes, k)
  }

  ghost predicate SentInv(s: System)
  {
    && (forall k :: 0 <= k < |s.causes| ==> Sent(s, s.causes[k]))
    && (forall id :: id in s.calls && s.calls[id].Changing? ==> Sent(s, Asked(s.calls[id].change, s.calls[id].generation)))
  }

  lemma CauseAdded(s: System, next: Record, cause: Cause, s': System)
    requires CausedInv(s) && s'.log == s.log + [next] && s'.causes == s.causes + [cause]
    requires Caused(s'.log, s'.causes, |s.log|)
    ensures CausedInv(s')
  {
    hide IsChange, IsObservation, Carries, Notes;
    forall k ensures Caused(s'.log, s'.causes, k) {
      assert Caused(s.log, s.causes, k);
    }
  }

  lemma SaveIsCaused(s: System, id: nat, s': System)
    requires RecordInv(s) && CausedInv(s) && ChangeStep(s, Save(id), s')
    ensures CausedInv(s')
  {
    hide OperationsInv, RestoresInv;
    var c := s.calls[id];
    assert CallInv(s.log, s.operations, c);
    LoadedIsStored(s.log, c.loaded);
    ChangeKeepsObservations(c.loaded, c.change, c.generation);
    hide Changed, Applies, IsChange, Carries;
    CauseAdded(s, Changed(c.loaded, c.change, c.generation), Asked(c.change, c.generation), s');
  }

  lemma SaveObservedIsCaused(s: System, id: nat, s': System)
    requires RecordInv(s) && CausedInv(s) && ObservationStep(s, SaveObserved(id), s')
    ensures CausedInv(s')
  {
    hide OperationsInv, RestoresInv, Reached;
    var c := s.calls[id];
    assert CallInv(s.log, s.operations, c);
    LoadedIsStored(s.log, c.loaded);
    ObservationKeepsDesired(c.loaded, c.observation, AppliedBy(c.goal));
    hide Observed, Accepts, IsObservation, Notes;
    CauseAdded(s, Observed(c.loaded, c.observation, AppliedBy(c.goal)), Seen(c.observation, c.goal), s');
  }

  lemma StepKeepsCaused(s: System, move: Move, s': System)
    requires RecordInv(s) && CausedInv(s) && Moves(s, move, s')
    ensures CausedInv(s')
  {
    hide RecordInv, Caused, Applies, Accepts, Reached;
    if move.Save? {
      SaveIsCaused(s, move.id, s');
    } else if move.SaveObserved? {
      SaveObservedIsCaused(s, move.id, s');
    } else if move.Create? {
      CreateIsCaused(s, move.message, move.id, s');
    } else {
      hide ChangeStep, OperationStep, ObservationStep, NodeStep;
      OthersCommitNothing(s, move, s');
    }
  }

  lemma CreateIsCaused(s: System, message: Message, id: nat, s': System)
    requires CausedInv(s) && ChangeStep(s, Create(message, id), s')
    ensures CausedInv(s')
  {
  }

  lemma OthersCommitNothing(s: System, move: Move, s': System)
    requires Moves(s, move, s') && !move.Save? && !move.SaveObserved? && !move.Create?
    ensures s'.log == s.log && s'.causes == s.causes
  {
    if NodeStep(s, move, s') {
      hide ChangeStep, OperationStep, ObservationStep;
    } else if ChangeStep(s, move, s') {
      hide NodeStep, OperationStep, ObservationStep, Applies;
    } else if OperationStep(s, move, s') {
      hide NodeStep, ChangeStep, ObservationStep, Reached, MustRestore;
    } else {
      hide NodeStep, ChangeStep, OperationStep, Accepts, Reached;
    }
  }

  /** Nothing sent is taken back, so a cause that was sent stays sent. */
  lemma SentStays(s: System, s': System, cause: Cause)
    requires s.net <= s'.net && s'.direct == s.direct && Sent(s, cause)
    ensures Sent(s', cause)
  {
  }

  /** A step that adds only causes that were sent, and calls whose changes were. */
  lemma SentKept(s: System, s': System)
    requires SentInv(s) && s.net <= s'.net && s'.direct == s.direct
    requires forall k :: 0 <= k < |s'.causes| ==> (k < |s.causes| && s'.causes[k] == s.causes[k]) || Sent(s', s'.causes[k])
    requires forall id :: id in s'.calls && s'.calls[id].Changing? ==>
               (id in s.calls && s'.calls[id] == s.calls[id]) || Sent(s', Asked(s'.calls[id].change, s'.calls[id].generation))
    ensures SentInv(s')
  {
    hide Sent;
    forall k | 0 <= k < |s'.causes| ensures Sent(s', s'.causes[k]) {
      if k < |s.causes| && s'.causes[k] == s.causes[k] {
        SentStays(s, s', s.causes[k]);
      }
    }
    forall id | id in s'.calls && s'.calls[id].Changing? ensures Sent(s', Asked(s'.calls[id].change, s'.calls[id].generation)) {
      if id in s.calls && s'.calls[id] == s.calls[id] {
        SentStays(s, s', Asked(s.calls[id].change, s.calls[id].generation));
      }
    }
  }

  lemma NodeStepKeepsSent(s: System, move: Move, s': System)
    requires SentInv(s) && NodeStep(s, move, s')
    ensures SentInv(s')
  {
    assert s'.calls == s.calls && s'.causes == s.causes && s.net <= s'.net && s'.direct == s.direct by { hide SentInv, Sent; }
    hide NodeStep, Sent, SentInv;
    SentKept(s, s');
  }

  lemma ChangeStepKeepsSent(s: System, move: Move, s': System)
    requires SentInv(s) && ChangeStep(s, move, s')
    ensures SentInv(s')
  {
    hide Applies, Changed;
    SentKept(s, s');
  }

  lemma OperationStepKeepsSent(s: System, move: Move, s': System)
    requires SentInv(s) && OperationStep(s, move, s')
    ensures SentInv(s')
  {
    hide Reached, MustRestore, Sent, SentInv;
    SentKept(s, s');
  }

  lemma ObservationStepKeepsSent(s: System, move: Move, s': System)
    requires SentInv(s) && ObservationStep(s, move, s')
    ensures SentInv(s')
  {
    hide Accepts, Reached, Observed, SentInv;
    SentKept(s, s');
  }

  lemma StepKeepsSent(s: System, move: Move, s': System)
    requires SentInv(s) && Moves(s, move, s')
    ensures SentInv(s')
  {
    hide SentInv, NodeStep, ChangeStep, OperationStep, ObservationStep;
    if NodeStep(s, move, s') {
      NodeStepKeepsSent(s, move, s');
    } else if ChangeStep(s, move, s') {
      ChangeStepKeepsSent(s, move, s');
    } else if OperationStep(s, move, s') {
      OperationStepKeepsSent(s, move, s');
    } else {
      ObservationStepKeepsSent(s, move, s');
    }
  }

  lemma {:induction false} RunKeepsCauses(run: seq<System>, i: nat)
    requires IsRun(run) && i < |run|
    ensures CausedInv(run[i]) && SentInv(run[i])
  {
    hide Moves, RecordInv, DesiredInv, GoalsInv;
    if i > 0 {
      RunKeepsCauses(run, i - 1);
      hide CausedInv, SentInv;
      RunKeepsInv(run, i - 1);
      assert Follows(run, i);
      var move :| Moves(run[i - 1], move, run[i]);
      StepKeepsCaused(run[i - 1], move, run[i]);
      StepKeepsSent(run[i - 1], move, run[i]);
    }
  }

  predicate NotOlder(a: Option<Observation>, b: Option<Observation>)
  {
    a.Some? ==> b.Some? && !Older(b.value, a.value)
  }

  /** No update is lost. Whatever was committed by the time of `run[i]` is still in the
      history of every later state, versions count the commits one by one, and each
      commit either changes what is desired and keeps everything observed, or observes
      something newer and keeps what is desired and the spec. Each is exactly what the change
      or observation it was made for makes of the commit before, and the change was sent by
      the node or by another client. */
  lemma NoLostUpdates(run: seq<System>, i: nat, j: nat)
    requires IsRun(run) && i <= j < |run|
    ensures run[i].log <= run[j].log
    ensures forall k :: 0 <= k < |run[j].log| ==> run[j].log[k].version == k + 1
    ensures forall k :: 0 < k < |run[j].log| ==>
              IsChange(run[j].log[k - 1], run[j].log[k]) || IsObservation(run[j].log[k - 1], run[j].log[k])
    ensures |run[j].causes| == |run[j].log|
    ensures forall k :: 0 <= k < |run[j].log| ==> Caused(run[j].log, run[j].causes, k) && Sent(run[j], run[j].causes[k])
  {
    RunKeepsCauses(run, j);
    LogOnlyGrows(run, i, j);
    RunKeepsInv(run, j);
    hide IsChange, IsObservation, CallsInv, OperationsInv, DesiredInv, Caused, Sent;
    forall k | 0 < k < |run[j].log|
      ensures IsChange(run[j].log[k - 1], run[j].log[k]) || IsObservation(run[j].log[k - 1], run[j].log[k])
    {
      assert Chained(run[j].log, k);
    }
  }

  lemma {:induction false} HistoryOrder(log: seq<Record>, a: nat, b: nat)
    requires LogInv(log) && a <= b < |log|
    ensures log[a].desired.generation <= log[b].desired.generation
    ensures log[a].desired.generation == log[b].desired.generation ==>
              log[a].desired == log[b].desired && log[a].spec == log[b].spec
    ensures log[a].desired.state == Deleted ==> log[b].desired == log[a].desired
    ensures NotOlder(log[a].observed, log[b].observed)
    decreases b - a
  {
    if a < b {
      HistoryOrder(log, a, b - 1);
      assert Chained(log, b);
    }
  }

  /** Between any two commits of any run, however far apart: the generation does not
      fall, the desired state and the spec are determined by it, a deleted workload stays
      deleted, and an accepted observation is only ever replaced by a newer one. */
  lemma CommitsStand(run: seq<System>, i: nat, a: nat, b: nat)
    requires IsRun(run) && i < |run| && a <= b < |run[i].log|
    ensures var first, later := run[i].log[a], run[i].log[b];
            && first.desired.generation <= later.desired.generation
            && (first.desired.generation == later.desired.generation ==>
                  first.desired == later.desired && first.spec == later.spec)
            && (first.desired.state == Deleted ==> later.desired == first.desired)
            && NotOlder(first.observed, later.observed)
  {
    RunKeepsInv(run, i);
    HistoryOrder(run[i].log, a, b);
  }

  /** Node and VMM. While only the node changes desired states, and provisions only what it
      recorded, and with its commands lost, repeated and reordered, the VMM's desired
      generation never decreases, never passes the node's, and its desired state is exactly
      what the node recorded at that generation. */
  lemma NodeRefinement(run: seq<System>, i: nat, j: nat)
    requires IsRun(run) && i <= j < |run| && !run[0].direct && run[0].steady
    ensures forall k :: 0 <= k < |run[j].log| ==> Recorded(run[j].node, run[j].log[k].desired)
    ensures run[i].log != [] ==>
              && run[j].log != []
              && Last(run[i].log).desired.generation <= Last(run[j].log).desired.generation <= |run[j].node|
  {
    RunKeepsInv(run, i);
    RunKeepsInv(run, j);
    LogOnlyGrows(run, i, j);
    hide CallsInv, OperationsInv, Chained;
    if run[i].log != [] {
      assert run[j].log[|run[i].log| - 1] == Last(run[i].log);
    }
  }

  /** Every reconciliation step ever taken acts on a committed record whose desired
      generation is the operation's own, and neither operations nor applied generations ever
      run ahead of the desired generation. */
  lemma StepGenerations(run: seq<System>, i: nat)
    requires IsRun(run) && i < |run|
    ensures forall k :: 0 <= k < |run[i].steps| ==>
              && Committed(run[i].log, run[i].steps[k].record)
              && run[i].steps[k].generation == run[i].steps[k].record.desired.generation
    ensures forall o :: o in run[i].operations ==> Attained(run[i].log, run[i].operations[o])
    ensures run[i].log != [] && Last(run[i].log).applied.Some? ==>
              Last(run[i].log).applied.value <= Last(run[i].log).desired.generation
  {
    RunKeepsInv(run, i);
    hide CallsInv, DesiredInv, Chained;
    forall k | 0 <= k < |run[i].steps| ensures Timely(run[i].log, run[i].steps[k]) {
    }
  }

  /** A restore carries its record's generation exactly when nothing newer than its own had
      been committed by then: it is made before anyone looks whether it is superseded. */
  lemma RestoreGenerations(run: seq<System>, i: nat, k: nat)
    requires IsRun(run) && i < |run| && k < |run[i].restores|
    ensures var x, log := run[i].restores[k], run[i].log;
            && Committed(log, x.record) && x.generation <= x.record.desired.generation
            && (x.generation == x.record.desired.generation <==>
                  forall j :: 0 <= j < x.record.version ==> log[j].desired.generation <= x.generation)
  {
    RunKeepsInv(run, i);
    hide CallsInv, DesiredInv, Chained, OperationsInv;
    assert NotEarly(run[i].log, run[i].restores[k]);
    var x := run[i].restores[k];
    assert run[i].log[x.record.version - 1] == x.record;
  }

  /** Success is real. Whenever an operation was finished as done, what its own generation
      desired had been committed, and so had an observation that leaves nothing to do for
      it. */
  lemma SuccessIsReal(run: seq<System>, i: nat, k: nat)
    requires IsRun(run) && i < |run| && k < |run[i].successes|
    ensures var x := run[i].successes[k];
            && x.goal.operation == x.goal.desired.generation
            && Reached(x.goal.desired, x.observed)
            && WasDesired(run[i].log, x.goal.desired)
            && WasObserved(run[i].log, x.observed, x.goal.operation)
  {
    RunKeepsInv(run, i);
    assert SuccessInv(run[i].log, run[i].successes[k]);
  }

  predicate AppliedRises(a: Record, b: Record)
  {
    a.applied.Some? ==> b.applied.Some? && a.applied.value <= b.applied.value
  }

  lemma {:induction false} AppliedOrder(s: System, a: nat, b: nat)
    requires LogInv(s.log) && GoalsInv(s) && s.faithful && a <= b < |s.log|
    ensures AppliedRises(s.log[a], s.log[b])
    decreases b - a
  {
    if a < b {
      AppliedOrder(s, a, b - 1);
      assert Chained(s.log, b) && Marked(s.log, b);
      assert AppliedIsObserved(s.log[b - 1]);
    }
  }

  /** With a backend that reports the generation it acted on, the applied generation never
      goes back, however late a step's report is written. */
  lemma AppliedNeverFalls(run: seq<System>, i: nat, a: nat, b: nat)
    requires IsRun(run) && run[0].faithful && i < |run| && a <= b < |run[i].log|
    ensures AppliedRises(run[i].log[a], run[i].log[b])
  {
    RunKeepsInv(run, i);
    AppliedOrder(run[i], a, b);
  }
}
