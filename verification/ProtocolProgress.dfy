/** What deliveries of the queue can and cannot do to a run, and that a queued run can always get to
    work when there is a slot. */
module ProtocolProgress {
  import opened Wrappers
  import opened BuildProtocol
  import opened ProtocolSafety

  // ---------------------------------------------------------------- claimed once

  predicate BeforeQueue(state: State) {
    state == DraftConfiguration || state == Validating || state == ReadinessCheck
  }

  /** The matrix read the other way: where each state can be entered from. */
  lemma EnteredFrom(from: State, to: State)
    ensures Legal(from, to) <==>
              (match to
               case DraftConfiguration => from in {Validating, ReadinessCheck}
               case Validating => from == DraftConfiguration
               case ReadinessCheck => from == Validating
               case Queued => from == ReadinessCheck
               case Running => from == Queued
               case Completed => from == Running
               case CompletedWithUnmetPreferences => from == Running
               case InfeasibleRun => from == Running
               case Failed => from == Running
               case Cancelled => from in {Queued, Running}
               case Reviewed => from in {Completed, CompletedWithUnmetPreferences, ProgressivelyExtended}
               case ProgressivelyExtended => from == Reviewed
               case Approved => from == Reviewed
               case AppliedToDraftSchedule => from == Approved
               case Superseded =>
                 from in {Completed, CompletedWithUnmetPreferences, Reviewed, ProgressivelyExtended, Approved,
                          AppliedToDraftSchedule}
               case Archived =>
                 from in {Completed, CompletedWithUnmetPreferences, InfeasibleRun, Failed, Cancelled, Reviewed,
                          ProgressivelyExtended, Approved, AppliedToDraftSchedule, Superseded})
  {
  }

  /** With the matrix in force a run comes into the queue at most once, and never from behind it. */
  ghost predicate QueuedOnce(first: Store, s: Store) {
    s.runs.Keys == first.runs.Keys
    && forall run :: run in first.runs ==> QueuedOnceAt(first.runs[run], s.runs[run], s.events, run)
  }

  ghost predicate QueuedOnceAt(first: Run, r: Run, events: seq<Event>, run: RunId) {
    Entries(events, run) + InQueue(first) <= if BeforeQueue(r.state) then 0 else 1
  }

  lemma {:induction false} EntriesOfMore(events: seq<Event>, more: seq<Event>, run: RunId)
    requires forall i :: 0 <= i < |more| && more[i].Moved? && more[i].run == run ==> more[i].to != Queued
    ensures Entries(events + more, run) == Entries(events, run)
  {
    if more == [] {
      assert events + more == events;
    } else {
      var n := |more| - 1;
      EntriesOfMore(events, more[..n], run);
      assert events + more == (events + more[..n]) + [more[n]];
      OneMore(events + more[..n], more[n], run, Queued);
    }
  }

  lemma LegalOrder(from: State, to: State)
    requires Legal(from, to)
    ensures to == Queued ==> BeforeQueue(from)
    ensures BeforeQueue(to) ==> BeforeQueue(from)
  {
  }

  lemma MoveQueuesOnceAt(first: Run, r: Run, events: seq<Event>, run: RunId, other: RunId, from: State, to: State,
                         after: Run)
    requires QueuedOnceAt(first, r, events, other)
    requires if other == run then r.state == from && after.state == to else after == r
    requires (to == Queued ==> BeforeQueue(from)) && (BeforeQueue(to) ==> BeforeQueue(from))
    ensures QueuedOnceAt(first, after, events + [Moved(run, from, to)], other)
  {
  }

  /** A legal move keeps the count. */
  lemma MoveQueuesOnce(first: Store, s: Store, d: Deployment, run: RunId, to: State, now: int)
    requires QueuedOnce(first, s) && !d.anyMove
    ensures QueuedOnce(first, MoveStep(s, d, run, to, now))
  {
    if run in s.runs && to != Running && Legal(s.runs[run].state, to) {
      var from, t := s.runs[run].state, MoveStep(s, d, run, to, now);
      LegalOrder(from, to);
      forall other | other in first.runs ensures QueuedOnceAt(first.runs[other], t.runs[other], t.events, other) {
        MoveQueuesOnceAt(first.runs[other], s.runs[other], s.events, run, other, from, to, t.runs[other]);
      }
    }
  }

  lemma ClaimQueuesOnce(first: Store, s: Store, tx: Tx, now: int)
    requires QueuedOnce(first, s)
    ensures QueuedOnce(first, CommitStep(s, tx, now))
  {
    var t := CommitStep(s, tx, now);
    if t.events != s.events {
      var run := s.claimers[tx].run;
      var more := t.events[|s.events|..];
      assert t.events == s.events + more;
      forall other | other in first.runs ensures QueuedOnceAt(first.runs[other], t.runs[other], t.events, other) {
        EntriesOfMore(s.events, more, other);
      }
    }
  }

  lemma EndingQueuesOnce(first: Store, s: Store, run: RunId, r: Run, more: seq<Event>)
    requires QueuedOnce(first, s) && run in s.runs && !BeforeQueue(r.state) && !BeforeQueue(s.runs[run].state)
    requires forall i :: 0 <= i < |more| && more[i].Moved? ==> more[i].to != Queued
    ensures QueuedOnce(first, SetRun(s, run, r, more))
  {
    forall other | other in first.runs
      ensures QueuedOnceAt(first.runs[other], SetRun(s, run, r, more).runs[other], s.events + more, other)
    {
      EntriesOfMore(s.events, more, other);
    }
  }

  lemma StepQueuesOnce(first: Store, s: Store, d: Deployment, step: Step)
    requires QueuedOnce(first, s) && !d.anyMove
    ensures QueuedOnce(first, Next(s, d, step))
  {
    hide QueuedOnceAt, HasResult;
    if !Acts(step) {
      OthersOnlyWait(s, d, step);
      return;
    }
    match step
    case Commit(tx, now) => ClaimQueuesOnce(first, s, tx, now);
    case Move(run, to, now) => MoveQueuesOnce(first, s, d, run, to, now);
    case Heartbeat(run, epoch, now) =>
      if BeatsAt(s, run, epoch) {
        EndingQueuesOnce(first, s, run, s.runs[run].(heartbeat := Some(now), updatedAt := now), []);
      }
    case Reap(run, now) =>
      if run in s.runs && Stale(s.runs[run], now) {
        EndingQueuesOnce(first, s, run, ReapStep(s, run, now).runs[run],
                         [Reaped(run, s.runs[run].epoch, s.runs[run].epoch + 1), Moved(run, Running, Failed)]);
      }
    case Persist(run, epoch, to, now) =>
      if run in s.runs && BeatsAt(s, run, epoch) && MayWrite(s, run, epoch) && Ends(to) {
        EndingQueuesOnce(first, s, run, s.runs[run].(state := to, updatedAt := now),
          [Written(run, epoch), Moved(run, Running, to)]);
      } else if run in s.runs && !BeatsAt(s, run, epoch) {
        AsideQueuesOnce(first, s, Refused(run, epoch, s.runs[run].epoch));
      }
    case Insert(run, epoch) => if MayWrite(s, run, epoch) { AsideQueuesOnce(first, s, Written(run, epoch)); }
  }

  lemma AsideQueuesOnce(first: Store, s: Store, e: Event)
    requires QueuedOnce(first, s) && !e.Moved?
    ensures QueuedOnce(first, s.(events := s.events + [e]))
  {
  }

  lemma {:induction false} AlwaysQueuedOnce(first: Store, d: Deployment, steps: seq<Step>)
    requires Initial(first) && !d.anyMove && forall run :: run in first.runs ==> BeforeQueue(first.runs[run].state)
    ensures QueuedOnce(first, After(first, d, steps))
  {
    if steps != [] {
      AlwaysQueuedOnce(first, d, steps[..|steps| - 1]);
      StepQueuesOnce(first, After(first, d, steps[..|steps| - 1]), d, steps[|steps| - 1]);
    }
  }

  /** Under the transition matrix a run is claimed at most once in its life, however many deliveries of
      its job there are. */
  lemma ClaimedAtMostOnce(first: Store, d: Deployment, steps: seq<Step>, run: RunId)
    requires Initial(first) && !d.anyMove && run in first.runs
    requires forall r :: r in first.runs ==> BeforeQueue(first.runs[r].state)
    ensures Claims(After(first, d, steps).events, run) <= 1
  {
    AlwaysKept(first, d, steps);
    AlwaysQueuedOnce(first, d, steps);
    var s := After(first, d, steps);
    assert Accounted(first.runs[run], s.runs[run], s.events, run);
    assert QueuedOnceAt(first.runs[run], s.runs[run], s.events, run);
  }

  // ---------------------------------------------------------------- one claim for each stay in the queue

  /** Whether the run has come into the queue since its last claim; nothing, if some claim found it gone. */
  function InLine(events: seq<Event>, run: RunId, start: bool): Option<bool> {
    if events == [] then Some(start)
    else
      var last := events[|events| - 1];
      var before := InLine(events[..|events| - 1], run, start);
      if last.Claimed? && last.run == run then (if before == Some(true) then Some(false) else None)
      else if last.Moved? && last.run == run && last.to == Queued && before.Some? then Some(true)
      else before
  }

  lemma OneMoreInLine(events: seq<Event>, e: Event, run: RunId, start: bool)
    ensures InLine(events + [e], run, start)
         == if e.Claimed? && e.run == run then (if InLine(events, run, start) == Some(true) then Some(false) else None)
            else if e.Moved? && e.run == run && e.to == Queued && InLine(events, run, start).Some? then Some(true)
            else InLine(events, run, start)
  {
  }

  /** A move into the queue lies between the two. */
  ghost predicate CameBack(events: seq<Event>, run: RunId, i: nat, j: nat) {
    exists k :: i < k < j <= |events| && events[k].Moved? && events[k].run == run && events[k].to == Queued
  }

  ghost predicate ClaimAt(events: seq<Event>, run: RunId, i: nat) {
    i < |events| && events[i].Claimed? && events[i].run == run
  }

  lemma {:induction false} LineMeans(events: seq<Event>, run: RunId, start: bool)
    requires InLine(events, run, start).Some?
    ensures forall i: nat, j: nat :: i < j && ClaimAt(events, run, i) && ClaimAt(events, run, j) ==>
              CameBack(events, run, i, j)
    ensures InLine(events, run, start).value ==> forall i: nat :: ClaimAt(events, run, i) ==>
              CameBack(events, run, i, |events|)
  {
    if events != [] {
      var n := |events| - 1;
      var init := events[..n];
      LineMeans(init, run, start);
      forall i: nat, j: nat | i < j && ClaimAt(events, run, i) && ClaimAt(events, run, j)
        ensures CameBack(events, run, i, j)
      {
        assert ClaimAt(init, run, i);
        assert j == n || ClaimAt(init, run, j);
        BackEarlier(events, n, run, i, j);
      }
      if InLine(events, run, start).value {
        forall i: nat | ClaimAt(events, run, i) ensures CameBack(events, run, i, n + 1) {
          assert i == n || ClaimAt(init, run, i);
          BackEarlier(events, n, run, i, n);
          assert (events[n].Moved? && events[n].run == run && events[n].to == Queued) || CameBack(events, run, i, n);
        }
      }
    }
  }

  lemma BackEarlier(events: seq<Event>, n: nat, run: RunId, i: nat, j: nat)
    requires n <= |events| && j <= n
    ensures CameBack(events[..n], run, i, j) ==> CameBack(events, run, i, j)
  {
    if CameBack(events[..n], run, i, j) {
      var k :| i < k < j && events[..n][k].Moved? && events[..n][k].run == run && events[..n][k].to == Queued;
      assert events[k] == events[..n][k];
    }
  }

  /** A run that waits is in line, and no claim found its run out of it. */
  ghost predicate TakesTurns(first: Store, s: Store) {
    s.runs.Keys == first.runs.Keys
    && forall run :: run in first.runs ==> TakesTurnsAt(first.runs[run], s.runs[run], s.events, run)
  }

  ghost predicate TakesTurnsAt(first: Run, r: Run, events: seq<Event>, run: RunId) {
    var line := InLine(events, run, first.state == Queued);
    line.Some? && (r.state == Queued ==> line.value)
  }

  predicate NoQueueing(e: Event, run: RunId) {
    e.run == run ==> !e.Claimed? && (e.Moved? ==> e.to != Queued)
  }

  lemma {:induction false} LineOfMore(events: seq<Event>, more: seq<Event>, run: RunId, start: bool)
    requires forall i :: 0 <= i < |more| ==> NoQueueing(more[i], run)
    ensures InLine(events + more, run, start) == InLine(events, run, start)
  {
    if more == [] {
      assert events + more == events;
    } else {
      var n := |more| - 1;
      LineOfMore(events, more[..n], run, start);
      assert events + more == (events + more[..n]) + [more[n]];
      OneMoreInLine(events + more[..n], more[n], run, start);
    }
  }

  /** Rows and events of one run, none of them a claim or a way into the queue. */
  lemma AsideTakesTurns(first: Store, s: Store, run: RunId, r: Run, more: seq<Event>)
    requires TakesTurns(first, s) && run in s.runs && (r.state == Queued ==> s.runs[run].state == Queued)
    requires forall i :: 0 <= i < |more| ==> more[i].run == run && NoQueueing(more[i], run)
    ensures TakesTurns(first, SetRun(s, run, r, more))
  {
    forall other | other in first.runs
      ensures TakesTurnsAt(first.runs[other], SetRun(s, run, r, more).runs[other], s.events + more, other)
    {
      assert forall i :: 0 <= i < |more| ==> NoQueueing(more[i], other);
      LineOfMore(s.events, more, other, first.runs[other].state == Queued);
    }
  }

  lemma ClaimTakesTurns(first: Store, s: Store, tx: Tx, now: int)
    requires TakesTurns(first, s)
    ensures TakesTurns(first, CommitStep(s, tx, now))
  {
    hide InLine;
    var t := CommitStep(s, tx, now);
    if t.events != s.events {
      var run := s.claimers[tx].run;
      var a, b := Claimed(run, s.claimers[tx].phase.epoch + 1), Moved(run, Queued, Running);
      assert t.events == s.events + [a] + [b];
      forall other | other in first.runs ensures TakesTurnsAt(first.runs[other], t.runs[other], t.events, other) {
        OneMoreInLine(s.events, a, other, first.runs[other].state == Queued);
        OneMoreInLine(s.events + [a], b, other, first.runs[other].state == Queued);
      }
    }
  }

  lemma MoveTakesTurns(first: Store, s: Store, d: Deployment, run: RunId, to: State, now: int)
    requires TakesTurns(first, s)
    ensures TakesTurns(first, MoveStep(s, d, run, to, now))
  {
    hide InLine;
    var t := MoveStep(s, d, run, to, now);
    if t.events != s.events {
      forall other | other in first.runs ensures TakesTurnsAt(first.runs[other], t.runs[other], t.events, other) {
        OneMoreInLine(s.events, Moved(run, s.runs[run].state, to), other, first.runs[other].state == Queued);
      }
    }
  }

  lemma StepTakesTurns(first: Store, s: Store, d: Deployment, step: Step)
    requires TakesTurns(first, s)
    ensures TakesTurns(first, Next(s, d, step))
  {
    hide TakesTurnsAt, HasResult;
    if !Acts(step) {
      OthersOnlyWait(s, d, step);
      return;
    }
    match step
    case Commit(tx, now) => ClaimTakesTurns(first, s, tx, now);
    case Move(run, to, now) => MoveTakesTurns(first, s, d, run, to, now);
    case Heartbeat(run, epoch, now) =>
      if BeatsAt(s, run, epoch) {
        AsideTakesTurns(first, s, run, s.runs[run].(heartbeat := Some(now), updatedAt := now), []);
      }
    case Reap(run, now) =>
      if run in s.runs && Stale(s.runs[run], now) {
        AsideTakesTurns(first, s, run, ReapedRow(s.runs[run], now), ReapEvents(run, s.runs[run]));
      }
    case Persist(run, epoch, to, now) =>
      if run in s.runs && !BeatsAt(s, run, epoch) {
        EventTakesTurns(first, s, Refused(run, epoch, s.runs[run].epoch));
      } else if run in s.runs && MayWrite(s, run, epoch) && Ends(to) {
        AsideTakesTurns(first, s, run, s.runs[run].(state := to, updatedAt := now),
          [Written(run, epoch), Moved(run, Running, to)]);
      }
    case Insert(run, epoch) => if MayWrite(s, run, epoch) { EventTakesTurns(first, s, Written(run, epoch)); }
  }

  lemma EventTakesTurns(first: Store, s: Store, e: Event)
    requires TakesTurns(first, s) && e.run in s.runs && NoQueueing(e, e.run)
    ensures TakesTurns(first, s.(events := s.events + [e]))
  {
    AsideTakesTurns(first, s, e.run, s.runs[e.run], [e]);
    assert s.runs[e.run := s.runs[e.run]] == s.runs;
  }

  lemma {:induction false} AlwaysTakesTurns(first: Store, d: Deployment, steps: seq<Step>)
    requires Initial(first)
    ensures TakesTurns(first, After(first, d, steps))
  {
    if steps != [] {
      AlwaysTakesTurns(first, d, steps[..|steps| - 1]);
      StepTakesTurns(first, After(first, d, steps[..|steps| - 1]), d, steps[|steps| - 1]);
    }
  }

  /** At most one claim for each stay in the queue, in every run of the system and whatever the transition
      matrix allows: between two claims of a run it came into the queue again. */
  lemma OneClaimPerStay(first: Store, d: Deployment, steps: seq<Step>, run: RunId, i: nat, j: nat)
    requires Initial(first) && run in first.runs
    ensures var events := After(first, d, steps).events;
            i < j && ClaimAt(events, run, i) && ClaimAt(events, run, j) ==> CameBack(events, run, i, j)
  {
    hide InLine;
    AlwaysTakesTurns(first, d, steps);
    var s := After(first, d, steps);
    assert TakesTurnsAt(first.runs[run], s.runs[run], s.events, run);
    LineMeans(s.events, run, first.runs[run].state == Queued);
  }

  // ---------------------------------------------------------------- deliveries

  /** A delivery that is turned away, deferred at the cap or rolled back leaves the run as it was, with
      nothing on the timeline; deferred or rolled back, the job is there again and the lock is free. */
  lemma DeliveryWithoutClaim(s: Store, d: Deployment, tx: Tx, step: Step)
    requires tx in s.claimers && (step == Turn(tx) || step == Count(tx) || step == Abort(tx))
    ensures var t := Next(s, d, step); t.runs == s.runs && t.events == s.events
    ensures var t := Next(s, d, step); step != Turn(tx) && tx !in t.claimers ==> s.claimers[tx].run in t.jobs
    ensures var t := Next(s, d, step); tx !in t.claimers ==> forall o :: o in t.locks ==> t.locks[o] != tx
  {
  }

  /** Two deliveries that both read the run before either commits: only one of them claims it. */
  lemma OnlyOneOfTwoClaims(s: Store, a: Tx, b: Tx, now: int, later: int)
    requires a in s.claimers && b in s.claimers && a != b && s.claimers[a].run == s.claimers[b].run
    requires s.claimers[a].run in s.runs && s.claimers[a].phase.HasRead? && s.claimers[b].phase.HasRead?
    requires CommitStep(s, a, now).events != s.events
    ensures var t := CommitStep(s, a, now);
            CommitStep(t, b, later).runs == t.runs && CommitStep(t, b, later).events == t.events
  {
  }

  // ---------------------------------------------------------------- progress

  lemma {:induction false} AfterMore(s: Store, d: Deployment, a: seq<Step>, b: seq<Step>)
    ensures After(s, d, a + b) == After(After(s, d, a), d, b)
  {
    if b == [] {
      assert a + b == a;
    } else {
      var n := |b| - 1;
      AfterMore(s, d, a, b[..n]);
      assert (a + b)[..|a + b| - 1] == a + b[..n];
    }
  }

  lemma {:induction false} Fresh(used: set<Tx>) returns (tx: Tx)
    ensures forall u :: u in used ==> u < tx
  {
    if used == {} {
      tx := 0;
    } else {
      var u := Any(used);
      var rest := Fresh(used - {u});
      tx := if u < rest then rest else u + 1;
      assert forall v :: v in used ==> v == u || v in used - {u};
    }
  }

  /** With the lock free and a job there, one delivery claims the run. */
  lemma DeliveryClaims(s: Store, d: Deployment, run: RunId, tx: Tx, now: int) returns (steps: seq<Step>)
    requires run in s.runs && s.runs[run].state == Queued && run in s.jobs && tx !in s.claimers
    requires s.runs[run].org !in s.locks && |RunningIn(s.runs, s.runs[run].org)| < d.cap
    ensures steps == [Deliver(tx, run), Lock(tx), Count(tx), ReadRun(tx), Commit(tx, now)]
    ensures run in After(s, d, steps).runs && After(s, d, steps).runs[run].state == Running
  {
    steps := [Deliver(tx, run), Lock(tx), Count(tx), ReadRun(tx), Commit(tx, now)];
    var s1 := Next(s, d, steps[0]);
    var s2 := Next(s1, d, steps[1]);
    var s3 := Next(s2, d, steps[2]);
    var s4 := Next(s3, d, steps[3]);
    var s5 := Next(s4, d, steps[4]);
    assert s1.claimers[tx] == Claimer(run, false, Delivered);
    assert s2.claimers[tx] == Claimer(run, true, Locked);
    assert s3.claimers[tx] == Claimer(run, true, Admitted);
    assert s4.claimers[tx] == Claimer(run, true, HasRead(s.runs[run].epoch));
    assert s5.runs[run].state == Running;
    FiveSteps(s, d, steps);
  }

  lemma FiveSteps(s: Store, d: Deployment, steps: seq<Step>)
    requires |steps| == 5
    ensures After(s, d, steps)
         == Next(Next(Next(Next(Next(s, d, steps[0]), d, steps[1]), d, steps[2]), d, steps[3]), d, steps[4])
  {
    assert steps[..4][..3] == steps[..3] && steps[..3][..2] == steps[..2] && steps[..2][..1] == steps[..1];
    assert steps[..1][..0] == [];
    assert After(s, d, steps[..1]) == Next(s, d, steps[0]);
    assert After(s, d, steps[..2]) == Next(After(s, d, steps[..1]), d, steps[1]);
    assert After(s, d, steps[..3]) == Next(After(s, d, steps[..2]), d, steps[2]);
    assert After(s, d, steps[..4]) == Next(After(s, d, steps[..3]), d, steps[3]);
  }

  /** From every reachable state with a free slot and an overdue queued run, some steps make it run: the
      claim that holds the lock ends, the sweep queues a job, and one delivery claims it. */
  lemma OverdueRunCanStart(first: Store, d: Deployment, steps: seq<Step>, run: RunId, threshold: int, now: int)
      returns (more: seq<Step>)
    requires Initial(first)
    requires var s := After(first, d, steps);
             run in s.runs && s.runs[run].state == Queued && s.runs[run].updatedAt < threshold
             && |RunningIn(s.runs, s.runs[run].org)| < d.cap
    ensures After(first, d, steps + more).runs.Keys == After(first, d, steps).runs.Keys
    ensures run in After(first, d, steps + more).runs && After(first, d, steps + more).runs[run].state == Running
  {
    hide After, Next, AllAccounted, ReadsBehind, UnderCap, HoldsLock;
    AlwaysKept(first, d, steps);
    var s := After(first, d, steps);
    var start, tx := LockFreedJobThere(s, d, run, threshold);
    var claim := DeliveryClaims(After(s, d, start), d, run, tx, now);
    more := start + claim;
    AfterMore(first, d, steps, more);
    AfterMore(s, d, start, claim);
    AlwaysKept(first, d, steps + more);
    assert AllAccounted(first, s) && AllAccounted(first, After(first, d, steps + more));
    SameRuns(first, s);
    SameRuns(first, After(first, d, steps + more));
  }

  lemma SameRuns(first: Store, s: Store)
    requires AllAccounted(first, s)
    ensures s.runs.Keys == first.runs.Keys
  {
  }

  /** The claim that holds the lock ends, and the sweep queues a job. */
  lemma LockFreedJobThere(s: Store, d: Deployment, run: RunId, threshold: int) returns (start: seq<Step>, tx: Tx)
    requires LocksHeld(s, d) && run in s.runs && s.runs[run].state == Queued && s.runs[run].updatedAt < threshold
    ensures var t := After(s, d, start);
            t.runs == s.runs && run in t.jobs && tx !in t.claimers && s.runs[run].org !in t.locks
  {
    var org := s.runs[run].org;
    var holder := if org in s.locks then s.locks[org] else 0;
    var s1 := Next(s, d, Abort(holder));
    assert org !in s1.locks;
    var s2 := Next(s1, d, Sweep(run, threshold));
    tx := Fresh(s2.claimers.Keys);
    assert tx !in s2.claimers;
    start := [Abort(holder), Sweep(run, threshold)];
    assert start[..1][..0] == [] && start[..1] == [Abort(holder)];
    assert After(s, d, start[..1]) == s1;
    assert After(s, d, start) == s2;
  }
}
