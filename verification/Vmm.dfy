/** The VMM control plane's rules for one workload record: which desired changes and
    which observations a stored record accepts, and what each of them leaves alone. */
module Vmm {
  import opened Wrappers

  datatype DesiredState = Stopped | Running | Paused | Deleted

  datatype Desired = Desired(state: DesiredState, generation: nat)

  datatype Health = Pending | Up | Suspended | Down | Broken | Lost

  /** A backend's report. Reports are ordered by generation, then by sequence. */
  datatype Observation = Observation(health: Health, generation: nat, sequence: nat)

  type Spec = string

  datatype Record = Record(
    spec: Spec,
    desired: Desired,
    applied: Option<nat>,
    observed: Option<Observation>,
    version: nat
  )

  datatype Command = Start | Resume | Stop | Pause | Delete

  /** A write to a record's desired side. */
  datatype Change =
    | Lifecycle(command: Command)
    | UpdateSpec(spec: Spec)
    | Restore

  datatype Failure =
    | Missing
    | Stale(current: nat)
    | VersionMismatch
    | InvalidTransition
    | WorkloadDeleted
    | Unsupported
    | StaleObservation
    | FutureObservation
    | AlreadyExists
    | OperationFinished
    | InProgress
    | KeepsChanging
    | StoreFailed

  function Target(command: Command): (state: DesiredState)
  {
    match command
    case Start => Running
    case Resume => Running
    case Stop => Stopped
    case Pause => Paused
    case Delete => Deleted
  }

  predicate Transition(from: DesiredState, to: DesiredState)
  {
    from != Deleted && (to == Paused ==> from == Running || from == Paused)
  }

  /** Why a change at a fresh generation is refused, in the order the checks are made. */
  function Refusal(record: Record, change: Change, ifMatch: Option<nat>): (refusal: Option<Failure>)
  {
    if ifMatch.Some? && ifMatch.value != record.version then Some(VersionMismatch)
    else match change
      case Lifecycle(command) =>
        if command == Resume && record.desired.state != Paused then Some(InvalidTransition)
        else if record.desired.state == Deleted then Some(WorkloadDeleted)
        else if !Transition(record.desired.state, Target(command)) then Some(InvalidTransition)
        else None
      case UpdateSpec(_) =>
        if record.desired.state == Deleted then Some(WorkloadDeleted) else None
      case Restore =>
        if record.desired.state == Deleted then Some(WorkloadDeleted) else None
  }

  /** When nothing refuses a change: the version is the one the caller expects, the
      workload is not deleted, only a paused one resumes, and only a running or paused
      one pauses. */
  lemma RefusedIff(record: Record, change: Change, ifMatch: Option<nat>)
    ensures Refusal(record, change, ifMatch).None? <==>
            && (ifMatch.None? || ifMatch.value == record.version)
            && record.desired.state != Deleted
            && (change == Lifecycle(Resume) ==> record.desired.state == Paused)
            && (change == Lifecycle(Pause) ==> record.desired.state == Running || record.desired.state == Paused)
  {
  }

  /** Which refusal is given: an unexpected version first, then resuming what is not paused,
      then any change to a deleted workload, and last pausing what is stopped. */
  lemma RefusedWith(record: Record, change: Change, ifMatch: Option<nat>)
    ensures var refusal, deleted := Refusal(record, change, ifMatch), record.desired.state == Deleted;
            var expected := ifMatch.None? || ifMatch.value == record.version;
            var resumes := change == Lifecycle(Resume) && record.desired.state != Paused;
            && (refusal == Some(VersionMismatch) <==> !expected)
            && (refusal == Some(WorkloadDeleted) <==> expected && deleted && !resumes)
            && (refusal == Some(InvalidTransition) <==>
                  expected && (resumes || (change == Lifecycle(Pause) && record.desired.state == Stopped)))
  {
  }

  /** The record a change writes. */
  function Changed(record: Record, change: Change, generation: nat): (next: Record)
  {
    var bumped := record.(version := record.version + 1);
    match change
    case Lifecycle(command) => bumped.(desired := Desired(Target(command), generation))
    case UpdateSpec(spec) => bumped.(spec := spec, desired := record.desired.(generation := generation))
    case Restore => bumped.(desired := Desired(Running, generation))
  }

  /** The change is newer than the record and nothing refuses it. */
  predicate Applies(record: Record, change: Change, generation: nat)
  {
    record.desired.generation < generation && Refusal(record, change, None).None?
  }

  predicate Older(a: Observation, b: Observation)
  {
    a.generation < b.generation || (a.generation == b.generation && a.sequence < b.sequence)
  }

  predicate Accepts(record: Record, incoming: Observation)
  {
    && incoming.generation <= record.desired.generation
    && (record.observed.Some? ==> Older(record.observed.value, incoming))
  }

  function Observed(record: Record, incoming: Observation, applied: Option<nat>): (next: Record)
  {
    record.(observed := Some(incoming),
            applied := if applied.Some? then applied else record.applied,
            version := record.version + 1)
  }

  // ---------------------------------------------------------------- reconciliation

  datatype Action = Nothing | ToStart | ToStop | ToPause | ToResume | ToDelete | ToRestart

  /** The one step that moves what is observed toward what is desired. */
  function Reconcile(desired: Desired, observed: Option<Observation>): (action: Action)
  {
    var current := observed.Some? && observed.value.generation == desired.generation;
    match desired.state
    case Deleted =>
      if observed.None? || (current && observed.value.health in {Down, Lost, Broken}) then Nothing else ToDelete
    case Running =>
      if observed.None? then ToStart
      else if observed.value.health == Up && current then Nothing
      else if observed.value.health == Suspended then ToResume
      else if observed.value.health in {Broken, Lost} then ToRestart
      else if observed.value.health == Pending && current then Nothing
      else ToStart
    case Paused =>
      if observed.Some? && observed.value.health == Suspended && current then Nothing
      else if observed.Some? && observed.value.health == Up then ToPause
      else ToStart
    case Stopped =>
      if observed.None? || observed.value.health in {Down, Broken, Lost} then Nothing else ToStop
  }

  predicate Reached(desired: Desired, observed: Option<Observation>)
  {
    Reconcile(desired, observed).Nothing?
  }

  /** When there is nothing left to do: a running or paused workload was seen so at this
      very generation, a deleted one is gone by this generation or was never seen, and a
      stopped one is not seen up, paused or on its way. */
  lemma ReachedIff(desired: Desired, observed: Option<Observation>)
    ensures Reached(desired, observed) <==>
            match desired.state
            case Running => observed.Some? && observed.value.generation == desired.generation && observed.value.health in {Up, Pending}
            case Paused => observed.Some? && observed.value.generation == desired.generation && observed.value.health == Suspended
            case Deleted =>
              observed.Some? ==> observed.value.generation == desired.generation && observed.value.health in {Down, Broken, Lost}
            case Stopped => observed.Some? ==> observed.value.health !in {Up, Suspended, Pending}
  {
    if observed.Some? {
      var h := observed.value.health;
      assert h.Pending? || h.Up? || h.Suspended? || h.Down? || h.Broken? || h.Lost?;
    }
  }

  /** Which action is taken, if not everything is as desired. A workload that is to run is
      resumed if it was paused, started again if it broke or was lost, and otherwise started;
      one that is to be paused is paused once it is up, and started until then. */
  lemma ActionFor(desired: Desired, observed: Option<Observation>)
    ensures var action, left := Reconcile(desired, observed), !Reached(desired, observed);
            && (action == ToDelete <==> desired.state == Deleted && left)
            && (action == ToStop <==> desired.state == Stopped && left)
            && (action == ToResume <==> desired.state == Running && Seen(observed, {Suspended}))
            && (action == ToRestart <==> desired.state == Running && Seen(observed, {Broken, Lost}))
            && (action == ToPause <==> desired.state == Paused && Seen(observed, {Up}))
            && (action == ToStart <==>
                  left && ((desired.state == Running && !Seen(observed, {Suspended, Broken, Lost}))
                           || (desired.state == Paused && !Seen(observed, {Up}))))
  {
  }

  predicate Seen(observed: Option<Observation>, healths: set<Health>)
  {
    observed.Some? && observed.value.health in healths
  }

  /** What a backend that does as it is asked reports afterwards. */
  function Obeyed(action: Action, desired: Desired, sequence: nat): (o: Observation)
    requires action != Nothing
  {
    var health := match action
                  case ToPause => Suspended
                  case ToStop => Down
                  case ToDelete => Down
                  case _ => Up;
    Observation(health, desired.generation, sequence)
  }

  /** With such a backend, reconciliation is done after two steps at most, and after one
      unless the workload is to be paused and is not up. */
  lemma ReconciliationConverges(desired: Desired, observed: Option<Observation>, sequence: nat)
    requires !Reached(desired, observed)
    ensures var first := Some(Obeyed(Reconcile(desired, observed), desired, sequence));
            if Reached(desired, first) then !(desired.state == Paused && !Seen(observed, {Up}))
            else
              && desired.state == Paused && !Seen(observed, {Up})
              && Reached(desired, Some(Obeyed(Reconcile(desired, first), desired, sequence + 1)))
  {
  }

  // ---------------------------------------------------------------- what commits are

  /** `b` changed what `a` desires and kept everything observed about it. */
  predicate IsChange(a: Record, b: Record)
  {
    && b.version == a.version + 1
    && a.desired.generation < b.desired.generation
    && a.desired.state != Deleted
    && (b.desired.state == Paused ==> a.desired.state == Running || a.desired.state == Paused)
    && b.observed == a.observed && b.applied == a.applied
  }

  /** `b` is `a` as a change at this generation leaves it: a command sets the state and keeps
      the spec, an update sets the spec and keeps the state, and a restore runs the workload
      again with the spec it has. */
  predicate Carries(a: Record, change: Change, generation: nat, b: Record)
  {
    && b.desired.generation == generation
    && match change
       case Lifecycle(command) =>
         && b.spec == a.spec
         && (match command
             case Start => b.desired.state == Running
             case Resume => b.desired.state == Running
             case Stop => b.desired.state == Stopped
             case Pause => b.desired.state == Paused
             case Delete => b.desired.state == Deleted)
       case UpdateSpec(spec) => b.spec == spec && b.desired.state == a.desired.state
       case Restore => b.spec == a.spec && b.desired.state == Running
  }

  /** `b` is `a` with this observation, and with `applied` marked if a step applied it. */
  predicate Notes(a: Record, observation: Observation, applied: Option<nat>, b: Record)
  {
    && b.observed == Some(observation)
    && (if applied.Some? then b.applied == applied else b.applied == a.applied)
  }

  /** `b` observed something newer about `a` and kept everything desired of it. */
  predicate IsObservation(a: Record, b: Record)
  {
    && b.version == a.version + 1
    && b.desired == a.desired && b.spec == a.spec
    && b.observed.Some? && b.observed.value.generation <= b.desired.generation
    && (a.observed.Some? ==> Older(a.observed.value, b.observed.value))
    && (b.applied == a.applied || (b.applied.Some? && b.applied.value <= b.desired.generation))
  }

  lemma ChangeKeepsObservations(record: Record, change: Change, generation: nat)
    requires Applies(record, change, generation)
    ensures IsChange(record, Changed(record, change, generation))
    ensures Carries(record, change, generation, Changed(record, change, generation))
  {
  }

  lemma ObservationKeepsDesired(record: Record, incoming: Observation, applied: Option<nat>)
    requires Accepts(record, incoming)
    requires applied.Some? ==> applied.value <= record.desired.generation
    ensures IsObservation(record, Observed(record, incoming, applied))
    ensures Notes(record, incoming, applied, Observed(record, incoming, applied))
  {
  }
}
