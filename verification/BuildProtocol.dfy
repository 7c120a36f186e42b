/** The claim, fence, reap and capacity protocol of the build queue, as a transition system. A step that
    is not enabled changes nothing, so a run of the system is any sequence of steps, by any number of
    workers, reapers, deliveries and other writers, interleaved in any way. */
module BuildProtocol {
  import opened Wrappers

  type RunId = int
  type Org = int
  type Tx = int

  // ---------------------------------------------------------------- states

  datatype State =
    | DraftConfiguration | Validating | ReadinessCheck | Queued | Running
    | Completed | CompletedWithUnmetPreferences | InfeasibleRun | Failed | Cancelled
    | Reviewed | ProgressivelyExtended | Approved | AppliedToDraftSchedule | Superseded | Archived

  /** The transition guard's matrix. */
  predicate Legal(from: State, to: State) {
    match from
    case DraftConfiguration => to == Validating
    case Validating => to == DraftConfiguration || to == ReadinessCheck
    case ReadinessCheck => to == DraftConfiguration || to == Queued
    case Queued => to == Running || to == Cancelled
    case Running => Ends(to)
    case Completed => to == Reviewed || to == Superseded || to == Archived
    case CompletedWithUnmetPreferences => to == Reviewed || to == Superseded || to == Archived
    case InfeasibleRun => to == Archived
    case Failed => to == Archived
    case Cancelled => to == Archived
    case Reviewed => to == ProgressivelyExtended || to == Approved || to == Superseded || to == Archived
    case ProgressivelyExtended => to == Reviewed || to == Superseded || to == Archived
    case Approved => to == AppliedToDraftSchedule || to == Superseded || to == Archived
    case AppliedToDraftSchedule => to == Superseded || to == Archived
    case Superseded => to == Archived
    case Archived => false
  }

  /** The states a solve can end in. */
  predicate Ends(to: State) {
    to == Completed || to == CompletedWithUnmetPreferences || to == InfeasibleRun || to == Failed || to == Cancelled
  }

  datatype Run = Run(org: Org, state: State, epoch: nat, heartbeat: Option<int>, timeout: int, updatedAt: int)

  /** The timeline, and the result rows as they are written. */
  datatype Event =
    | Claimed(run: RunId, epoch: nat)
    | Reaped(run: RunId, previous: nat, next: nat)
    | Refused(run: RunId, presented: nat, current: nat)
    | Written(run: RunId, epoch: nat)
    | Moved(run: RunId, from: State, to: State)

  /** Where the transaction of one delivery stands. `locked` says it took the organization's lock. */
  datatype Phase =
    | Delivered
    | Locked
    | Admitted
    | HasRead(epoch: nat)

  datatype Claimer = Claimer(run: RunId, locked: bool, phase: Phase)

  datatype Store = Store(
    runs: map<RunId, Run>,
    events: seq<Event>,
    locks: map<Org, Tx>,
    claimers: map<Tx, Claimer>,
    jobs: multiset<RunId>)

  /** The deployment: the cap; whether other writers may ignore the matrix (they may never set a run
      `running` or move an epoch); and whether some claimers skip the capacity lock. */
  datatype Deployment = Deployment(cap: nat, anyMove: bool, anyClaim: bool)

  datatype Step =
    | Deliver(tx: Tx, run: RunId)
    | Turn(tx: Tx)
    | Lock(tx: Tx)
    | Count(tx: Tx)
    | ReadRun(tx: Tx)
    | Commit(tx: Tx, now: int)
    | Abort(tx: Tx)
    | Heartbeat(run: RunId, epoch: nat, now: int)
    | Reap(run: RunId, now: int)
    | Persist(run: RunId, epoch: nat, to: State, now: int)
    | Insert(run: RunId, epoch: nat)
    | Move(run: RunId, to: State, now: int)
    | Sweep(run: RunId, threshold: int)

  ghost function RunningIn(runs: map<RunId, Run>, org: Org): (rs: set<RunId>)
    ensures forall r :: r in rs <==> r in runs && runs[r].org == org && runs[r].state == Running
  {
    set r | r in runs && runs[r].org == org && runs[r].state == Running
  }

  // ---------------------------------------------------------------- the steps

  /** Commit or rollback: the transaction is over and its advisory lock is gone. */
  function End(s: Store, tx: Tx): (t: Store)
    ensures t.runs == s.runs && t.events == s.events
  {
    s.(claimers := s.claimers - {tx}, locks := map o | o in s.locks && s.locks[o] != tx :: s.locks[o])
  }

  function Again(s: Store, run: RunId): (t: Store)
    ensures t.runs == s.runs && t.events == s.events
  {
    s.(jobs := s.jobs + multiset{run})
  }

  function SetPhase(s: Store, tx: Tx, phase: Phase): (t: Store)
    requires tx in s.claimers
    ensures t.runs == s.runs && t.events == s.events
  {
    s.(claimers := s.claimers[tx := s.claimers[tx].(phase := phase)])
  }

  function SetRun(s: Store, run: RunId, r: Run, more: seq<Event>): Store {
    s.(runs := s.runs[run := r], events := s.events + more)
  }

  /** A job is taken; the claim transaction opens. */
  function DeliverStep(s: Store, d: Deployment, tx: Tx, run: RunId): (t: Store)
    ensures t.runs == s.runs && t.events == s.events
  {
    if tx in s.claimers || run !in s.runs || run !in s.jobs then s
    else s.(jobs := s.jobs - multiset{run}, claimers := s.claimers[tx := Claimer(run, false, Delivered)])
  }

  /** A delivery that finds the worker shutting down: no claim, and no retry of the job. */
  function TurnStep(s: Store, tx: Tx): (t: Store)
    ensures t.runs == s.runs && t.events == s.events
  {
    if tx !in s.claimers || s.claimers[tx].phase != Delivered then s else End(s, tx)
  }

  function LockStep(s: Store, tx: Tx): (t: Store)
    ensures t.runs == s.runs && t.events == s.events
  {
    if tx !in s.claimers || s.claimers[tx].phase != Delivered || s.claimers[tx].run !in s.runs then s
    else
      var org := s.runs[s.claimers[tx].run].org;
      if org in s.locks then s
      else s.(locks := s.locks[org := tx], claimers := s.claimers[tx := Claimer(s.claimers[tx].run, true, Locked)])
  }

  /** Below the cap the claim goes on; at the cap it is deferred, and the job comes back. */
  ghost function CountStep(s: Store, d: Deployment, tx: Tx): (t: Store)
    ensures t.runs == s.runs && t.events == s.events
  {
    if tx !in s.claimers || s.claimers[tx].phase != Locked || s.claimers[tx].run !in s.runs then s
    else if |RunningIn(s.runs, s.runs[s.claimers[tx].run].org)| < d.cap then SetPhase(s, tx, Admitted)
    else Again(End(s, tx), s.claimers[tx].run)
  }

  /** The unconditional read of the run. A claimer outside the capacity lock may come straight here. */
  function ReadStep(s: Store, d: Deployment, tx: Tx): (t: Store)
    ensures t.runs == s.runs && t.events == s.events
  {
    if tx !in s.claimers || s.claimers[tx].run !in s.runs then s
    else if s.claimers[tx].phase == Admitted || (d.anyClaim && s.claimers[tx].phase == Delivered)
    then SetPhase(s, tx, HasRead(s.runs[s.claimers[tx].run].epoch))
    else s
  }

  /** The conditional update on what was read, and the database's own guard: a run becomes `running`
      only at a higher epoch. */
  function CommitStep(s: Store, tx: Tx, now: int): Store {
    if tx !in s.claimers || !s.claimers[tx].phase.HasRead? || s.claimers[tx].run !in s.runs then s
    else
      var run := s.claimers[tx].run;
      var r := s.runs[run];
      var next := s.claimers[tx].phase.epoch + 1;
      if r.state != Queued then End(s, tx)
      else if next <= r.epoch then Again(End(s, tx), run)
      else
        SetRun(End(s, tx), run, r.(state := Running, epoch := next, heartbeat := Some(now), updatedAt := now),
               [Claimed(run, next), Moved(run, Queued, Running)])
  }

  /** A rolled-back claim: nothing of it stays, and the job comes back. */
  function AbortStep(s: Store, tx: Tx): (t: Store)
    ensures t.runs == s.runs && t.events == s.events
  {
    if tx !in s.claimers then s else Again(End(s, tx), s.claimers[tx].run)
  }

  predicate BeatsAt(s: Store, run: RunId, epoch: nat) {
    run in s.runs && s.runs[run].state == Running && s.runs[run].epoch == epoch
  }

  function HeartbeatStep(s: Store, run: RunId, epoch: nat, now: int): Store {
    if !BeatsAt(s, run, epoch) then s
    else SetRun(s, run, s.runs[run].(heartbeat := Some(now), updatedAt := now), [])
  }

  predicate Stale(r: Run, now: int) {
    r.state == Running && r.heartbeat.Some? && r.heartbeat.value < now - r.timeout
  }

  function ReapStep(s: Store, run: RunId, now: int): Store {
    if run !in s.runs || !Stale(s.runs[run], now) then s
    else
      var r := s.runs[run];
      SetRun(s, run, r.(state := Failed, epoch := r.epoch + 1, heartbeat := None, updatedAt := now),
             [Reaped(run, r.epoch, r.epoch + 1), Moved(run, Running, Failed)])
  }

  /** The fencing trigger, and the one-result-per-run constraint. */
  predicate MayWrite(s: Store, run: RunId, epoch: nat) {
    BeatsAt(s, run, epoch) && !HasResult(s.events, run)
  }

  predicate HasResult(events: seq<Event>, run: RunId) {
    exists i :: 0 <= i < |events| && events[i].Written? && events[i].run == run
  }

  /** The fence, then the result and the move that ends the run, in one transaction; a refusal leaves
      its own row. */
  function PersistStep(s: Store, run: RunId, epoch: nat, to: State, now: int): Store {
    if run !in s.runs then s
    else if !BeatsAt(s, run, epoch) then s.(events := s.events + [Refused(run, epoch, s.runs[run].epoch)])
    else if !MayWrite(s, run, epoch) || !Ends(to) then s
    else SetRun(s, run, s.runs[run].(state := to, updatedAt := now), [Written(run, epoch), Moved(run, Running, to)])
  }

  /** A result row written by anything else: the trigger alone decides. */
  function InsertStep(s: Store, run: RunId, epoch: nat): Store {
    if !MayWrite(s, run, epoch) then s else s.(events := s.events + [Written(run, epoch)])
  }

  function MoveStep(s: Store, d: Deployment, run: RunId, to: State, now: int): Store {
    if run !in s.runs || to == Running || !(d.anyMove || Legal(s.runs[run].state, to)) then s
    else SetRun(s, run, s.runs[run].(state := to, updatedAt := now), [Moved(run, s.runs[run].state, to)])
  }

  function SweepStep(s: Store, run: RunId, threshold: int): (t: Store)
    ensures t.runs == s.runs && t.events == s.events
  {
    if run in s.runs && s.runs[run].state == Queued && s.runs[run].updatedAt < threshold then Again(s, run) else s
  }

  ghost function Next(s: Store, d: Deployment, step: Step): Store {
    match step
    case Deliver(tx, run) => DeliverStep(s, d, tx, run)
    case Turn(tx) => TurnStep(s, tx)
    case Lock(tx) => LockStep(s, tx)
    case Count(tx) => CountStep(s, d, tx)
    case ReadRun(tx) => ReadStep(s, d, tx)
    case Commit(tx, now) => CommitStep(s, tx, now)
    case Abort(tx) => AbortStep(s, tx)
    case Heartbeat(run, epoch, now) => HeartbeatStep(s, run, epoch, now)
    case Reap(run, now) => ReapStep(s, run, now)
    case Persist(run, epoch, to, now) => PersistStep(s, run, epoch, to, now)
    case Insert(run, epoch) => InsertStep(s, run, epoch)
    case Move(run, to, now) => MoveStep(s, d, run, to, now)
    case Sweep(run, threshold) => SweepStep(s, run, threshold)
  }

  /** The store after a run of the system. */
  ghost function After(s: Store, d: Deployment, steps: seq<Step>): Store {
    if steps == [] then s else Next(After(s, d, steps[..|steps| - 1]), d, steps[|steps| - 1])
  }

  /** Nothing is running and nothing has happened; runs, epochs and jobs are arbitrary. */
  predicate Initial(s: Store) {
    s.events == [] && s.locks == map[] && s.claimers == map[] && forall r :: r in s.runs ==> s.runs[r].state != Running
  }

  // ---------------------------------------------------------------- reading the timeline

  function Claims(events: seq<Event>, run: RunId): nat {
    if events == [] then 0
    else Claims(events[..|events| - 1], run)
         + if events[|events| - 1].Claimed? && events[|events| - 1].run == run then 1 else 0
  }

  function Reaps(events: seq<Event>, run: RunId): nat {
    if events == [] then 0
    else Reaps(events[..|events| - 1], run)
         + if events[|events| - 1].Reaped? && events[|events| - 1].run == run then 1 else 0
  }

  /** How often the run came into the queue. */
  function Entries(events: seq<Event>, run: RunId): nat {
    if events == [] then 0
    else Entries(events[..|events| - 1], run)
         + if events[|events| - 1].Moved? && events[|events| - 1].run == run
             && events[|events| - 1].to == Queued then 1 else 0
  }

  /** The claim the run's epoch belongs to: the last claim, unless a reap came after it. */
  function LiveClaim(events: seq<Event>, run: RunId): Option<nat> {
    if events == [] then None
    else
      var last := events[|events| - 1];
      if last.run == run && last.Claimed? then Some(last.epoch)
      else if last.run == run && last.Reaped? then None
      else LiveClaim(events[..|events| - 1], run)
  }

  /** The state the run's moves lead to, if each starts where the one before ended. */
  function Chain(events: seq<Event>, run: RunId, from: State): Option<State> {
    if events == [] then Some(from)
    else
      var last := events[|events| - 1];
      var before := Chain(events[..|events| - 1], run, from);
      if !(last.Moved? && last.run == run) then before
      else if before == Some(last.from) then Some(last.to) else None
  }

  /** Every result row was written at the epoch of the latest claim, with no reap after it. */
  ghost predicate Fenced(events: seq<Event>) {
    forall i :: 0 <= i < |events| && events[i].Written? ==>
      LiveClaim(events[..i], events[i].run) == Some(events[i].epoch)
  }

  /** Claims of one run never share an epoch, and each is above the ones before. */
  ghost predicate ClaimsRise(events: seq<Event>) {
    forall i, j ::
      0 <= i < j < |events| && events[i].Claimed? && events[j].Claimed? && events[i].run == events[j].run ==>
      events[i].epoch < events[j].epoch
  }

  ghost predicate OneResult(events: seq<Event>) {
    forall i, j :: 0 <= i < j < |events| && events[i].Written? && events[j].Written? ==> events[i].run != events[j].run
  }

  // ---------------------------------------------------------------- what every step keeps

  function InQueue(r: Run): nat {
    if r.state == Queued then 1 else 0
  }

  /** One run against its timeline. */
  ghost predicate Accounted(first: Run, r: Run, events: seq<Event>, run: RunId) {
    && r.org == first.org
    && r.epoch == first.epoch + Claims(events, run) + Reaps(events, run)
    && (r.state == Running ==> LiveClaim(events, run) == Some(r.epoch))
    && (forall i :: 0 <= i < |events| && events[i].Claimed? && events[i].run == run ==> events[i].epoch <= r.epoch)
    && Chain(events, run, first.state) == Some(r.state)
    && Claims(events, run) + InQueue(r) <= Entries(events, run) + InQueue(first)
  }

  ghost predicate AllAccounted(first: Store, s: Store) {
    && s.runs.Keys == first.runs.Keys
    && (forall run :: run in first.runs ==> Accounted(first.runs[run], s.runs[run], s.events, run))
    && Fenced(s.events) && ClaimsRise(s.events) && OneResult(s.events)
  }

  /** What a claimer has read is not ahead of the run. */
  ghost predicate ReadsBehind(s: Store) {
    forall tx :: tx in s.claimers ==>
      s.claimers[tx].run in s.runs
      && (s.claimers[tx].phase.HasRead? ==> s.claimers[tx].phase.epoch <= s.runs[s.claimers[tx].run].epoch)
  }

  /** The lock of an organization belongs to a claimer of one of its runs; who was admitted under the
      lock still holds it and still has a free slot. */
  ghost predicate LocksHeld(s: Store, d: Deployment) {
    && (forall o :: o in s.locks ==>
          s.locks[o] in s.claimers && s.claimers[s.locks[o]].locked && s.claimers[s.locks[o]].run in s.runs
          && s.runs[s.claimers[s.locks[o]].run].org == o)
    && (forall tx :: tx in s.claimers ==> HoldsLock(s, d, tx))
  }

  ghost predicate HoldsLock(s: Store, d: Deployment, tx: Tx)
    requires tx in s.claimers
  {
    var c := s.claimers[tx];
    && c.run in s.runs
    && (c.phase == Delivered ==> !c.locked)
    && (c.phase == Locked || c.phase == Admitted ==> c.locked)
    && (c.phase.HasRead? && !d.anyClaim ==> c.locked)
    && (c.locked ==> s.runs[c.run].org in s.locks && s.locks[s.runs[c.run].org] == tx)
    && (c.locked && (c.phase == Admitted || c.phase.HasRead?) && !d.anyClaim ==>
          |RunningIn(s.runs, s.runs[c.run].org)| < d.cap)
  }

  ghost predicate UnderCap(s: Store, d: Deployment) {
    !d.anyClaim ==> forall org :: |RunningIn(s.runs, org)| <= d.cap
  }

  ghost predicate Kept(first: Store, s: Store, d: Deployment) {
    AllAccounted(first, s) && ReadsBehind(s) && LocksHeld(s, d) && UnderCap(s, d)
  }
}
