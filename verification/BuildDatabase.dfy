/** The statements of the claim, reaper, capacity and queue code over the database they share. Each
    method is one transaction, or the part of one between two points where others may commit, and is
    proved to be the step of the protocol it stands for. */
module BuildDatabase {
  import opened Wrappers
  import opened BuildProtocol

  datatype Verdict = Verdict(admitted: bool, runningCount: nat, cap: nat)
  datatype Dispatch = NotClaimable | Deferred(runningCount: nat, cap: nat) | Ran(claimEpoch: nat)
  datatype ReapedBuild = ReapedBuild(run: RunId, previousClaimEpoch: nat, claimEpoch: nat)

  class Database {
    const cap: nat
    var runs: map<RunId, Run>
    var events: seq<Event>
    var locks: map<Org, Tx>
    var claimers: map<Tx, Claimer>
    var jobs: multiset<RunId>

    constructor (runs: map<RunId, Run>, cap: nat)
      ensures this.cap == cap && Contents() == Store(runs, [], map[], map[], multiset{})
    {
      this.cap := cap;
      this.runs, events, locks, claimers, jobs := runs, [], map[], map[], multiset{};
    }

    function Contents(): Store
      reads this
    {
      Store(runs, events, locks, claimers, jobs)
    }

    ghost function Deployed(): Deployment {
      Deployment(cap, false, false)
    }

    // -------------------------------------------------------------- capacity.ts

    method RunningBuildCount(org: Org) returns (n: nat)
      ensures n == |RunningIn(runs, org)|
    {
      var counted := set r | r in runs && runs[r].org == org && runs[r].state == Running;
      n := |counted|;
      assert counted == RunningIn(runs, org);
    }

    /** Counting and claiming happen under one advisory lock that only the end of the transaction
        releases. At the cap the transaction ends here and the job will be retried. */
    method AdmitBuildUnderCap(tx: Tx) returns (verdict: Verdict)
      requires tx in claimers && claimers[tx].phase == Delivered && claimers[tx].run in runs
      requires runs[claimers[tx].run].org !in locks
      modifies this
      ensures Contents() == Next(Next(old(Contents()), Deployed(), Lock(tx)), Deployed(), Count(tx))
      ensures runs == old(runs) && events == old(events)
      ensures verdict.runningCount == |RunningIn(runs, runs[old(claimers)[tx].run].org)| && verdict.cap == cap
      ensures verdict.admitted <==> verdict.runningCount < cap
    {
      var run := claimers[tx].run;
      var org := runs[run].org;
      locks := locks[org := tx];
      claimers := claimers[tx := Claimer(run, true, Locked)];
      var running := RunningBuildCount(org);
      verdict := Verdict(running < cap, running, cap);
      if verdict.admitted {
        claimers := claimers[tx := Claimer(run, true, Admitted)];
      } else {
        EndTransaction(tx);
        jobs := jobs + multiset{run};
      }
    }

    method EndTransaction(tx: Tx)
      modifies this`claimers, this`locks
      ensures Contents() == End(old(Contents()), tx)
    {
      claimers := claimers - {tx};
      locks := map o | o in locks && locks[o] != tx :: locks[o];
    }

    // -------------------------------------------------------------- claim.ts

    /** The read a claim starts with. */
    method LoadRun(tx: Tx)
      requires tx in claimers && claimers[tx].phase == Admitted && claimers[tx].run in runs
      modifies this`claimers
      ensures Contents() == ReadStep(old(Contents()), Deployed(), tx)
      ensures tx in claimers && claimers[tx].phase == HasRead(runs[claimers[tx].run].epoch)
    {
      claimers := claimers[tx := claimers[tx].(phase := HasRead(runs[claimers[tx].run].epoch))];
    }

    /** The conditional update: `None` when the run has left the queue, or the guard refused it. */
    method ClaimQueuedBuild(tx: Tx, now: int) returns (claimed: Option<nat>)
      requires tx in claimers && claimers[tx].phase.HasRead? && claimers[tx].run in runs
      modifies this
      ensures Contents() == CommitStep(old(Contents()), tx, now)
      ensures claimed.Some? <==>
                old(runs[claimers[tx].run].state == Queued && claimers[tx].phase.epoch >= runs[claimers[tx].run].epoch)
      ensures claimed.Some? ==> BeatsAt(Contents(), old(claimers[tx].run), claimed.value)
                                && claimed.value == old(claimers[tx].phase.epoch) + 1
    {
      var run, before := claimers[tx].run, claimers[tx].phase.epoch;
      EndTransaction(tx);
      if runs[run].state != Queued {
        return None;
      }
      if before + 1 <= runs[run].epoch {
        jobs := jobs + multiset{run};
        return None;
      }
      runs := runs[run := runs[run].(state := Running, epoch := before + 1, heartbeat := Some(now), updatedAt := now)];
      events := events + [Claimed(run, before + 1), Moved(run, Queued, Running)];
      return Some(before + 1);
    }

    method Heartbeat(run: RunId, claimEpoch: nat, now: int) returns (updated: bool)
      modifies this`runs
      ensures Contents() == HeartbeatStep(old(Contents()), run, claimEpoch, now)
      ensures updated <==> old(BeatsAt(Contents(), run, claimEpoch))
    {
      updated := run in runs && runs[run].state == Running && runs[run].epoch == claimEpoch;
      if updated {
        runs := runs[run := runs[run].(heartbeat := Some(now), updatedAt := now)];
      }
      assert events + [] == events;
    }

    /** The fence: the run as it stands, if the presented epoch is its own and it still runs. */
    method AssertClaimIsCurrent(run: RunId, presented: nat) returns (current: Option<Run>)
      requires run in runs
      ensures current.Some? <==> BeatsAt(Contents(), run, presented)
      ensures current.Some? ==> current.value == runs[run]
    {
      if runs[run].epoch != presented || runs[run].state != Running {
        return None;
      }
      return Some(runs[run]);
    }

    method RecordFencedResult(run: RunId, presented: nat, currentEpoch: nat)
      modifies this`events
      ensures events == old(events) + [Refused(run, presented, currentEpoch)]
    {
      events := events + [Refused(run, presented, currentEpoch)];
    }

    /** Fence and persist in one transaction; a refused result leaves its own row in a second one. */
    method RecordSolveOutcome(run: RunId, claimEpoch: nat, to: State, now: int) returns (written: bool)
      requires run in runs && Ends(to)
      modifies this`runs, this`events
      ensures Contents() == PersistStep(old(Contents()), run, claimEpoch, to, now)
      ensures written <==> old(MayWrite(Contents(), run, claimEpoch))
    {
      var current := AssertClaimIsCurrent(run, claimEpoch);
      if current.None? {
        RecordFencedResult(run, claimEpoch, runs[run].epoch);
        return false;
      }
      if HasResult(events, run) {
        return false;
      }
      events := events + [Written(run, claimEpoch), Moved(run, Running, to)];
      runs := runs[run := runs[run].(state := to, updatedAt := now)];
      return true;
    }

    // -------------------------------------------------------------- reaper.ts

    /** The epoch advance that fences the old claim, and the move to `failed`, in one transaction. */
    method ReapRow(run: RunId, now: int) returns (reaped: ReapedBuild)
      requires run in runs && Stale(runs[run], now)
      modifies this`runs, this`events
      ensures Contents() == ReapStep(old(Contents()), run, now)
      ensures reaped == ReapedBuild(run, old(runs[run].epoch), old(runs[run].epoch) + 1)
    {
      var previous := runs[run].epoch;
      events := events + [Reaped(run, previous, previous + 1), Moved(run, Running, Failed)];
      runs := runs[run := runs[run].(state := Failed, epoch := previous + 1, heartbeat := None, updatedAt := now)];
      reaped := ReapedBuild(run, previous, previous + 1);
    }

    /** Reap the listed stale rows: those the reaper could lock. */
    method ReapStaleBuilds(rows: seq<RunId>, now: int) returns (reaped: seq<ReapedBuild>)
      requires forall i, j :: 0 <= i < j < |rows| ==> rows[i] != rows[j]
      requires AllStale(runs, rows, 0, now)
      modifies this`runs, this`events
      ensures Contents() == AfterReaps(old(Contents()), rows, now)
      ensures |reaped| == |rows|
      ensures forall k :: 0 <= k < |rows| ==> rows[k] in old(runs) && reaped[k] == FencedRow(old(runs), rows[k])
    {
      reaped := [];
      assert rows[..0] == [];
      for i := 0 to |rows|
        invariant Contents() == AfterReaps(old(Contents()), rows[..i], now)
        invariant AllStale(runs, rows, i, now)
        invariant forall k :: i <= k < |rows| ==> rows[k] in old(runs) && runs[rows[k]] == old(runs)[rows[k]]
        invariant |reaped| == i
        invariant forall k :: 0 <= k < i ==> rows[k] in old(runs) && reaped[k] == FencedRow(old(runs), rows[k])
      {
        assert rows[..i + 1][..i] == rows[..i];
        var one := ReapRow(rows[i], now);
        reaped := reaped + [one];
      }
      assert rows[..|rows|] == rows;
    }

    // -------------------------------------------------------------- queue.ts

    method EnqueueBuildSolve(run: RunId)
      modifies this`jobs
      ensures jobs == old(jobs) + multiset{run}
    {
      jobs := jobs + multiset{run};
    }

    /** One more job for every listed run, and nothing else. */
    method RequeueOrphanedQueuedBuilds(rows: seq<RunId>, threshold: int) returns (requeued: seq<RunId>)
      requires forall r :: r in rows ==> r in runs && runs[r].state == Queued && runs[r].updatedAt < threshold
      modifies this`jobs
      ensures requeued == rows && Contents() == AfterSweeps(old(Contents()), rows, threshold)
      ensures jobs == old(jobs) + multiset(rows)
    {
      requeued := [];
      assert rows[..0] == [];
      for i := 0 to |rows|
        invariant requeued == rows[..i]
        invariant Contents() == AfterSweeps(old(Contents()), rows[..i], threshold)
        invariant jobs == old(jobs) + multiset(rows[..i])
      {
        assert rows[i] in rows && rows[..i + 1] == rows[..i] + [rows[i]] && rows[..i + 1][..i] == rows[..i];
        EnqueueBuildSolve(rows[i]);
        requeued := requeued + [rows[i]];
      }
      assert rows[..|rows|] == rows;
    }

    // -------------------------------------------------------------- queue-runner.ts

    /** One delivery of a job, with nobody in between. */
    method RunBuildSolveJob(tx: Tx, run: RunId, aborted: bool, now: int) returns (dispatch: Dispatch)
      requires tx !in claimers && run in runs && run in jobs && runs[run].org !in locks
      modifies this
      ensures aborted ==> dispatch == NotClaimable && Contents() == TurnedAway(old(Contents()), Deployed(), tx, run)
      ensures !aborted ==> Contents() == FullDelivery(old(Contents()), Deployed(), tx, run, now)
      ensures dispatch.Deferred? <==> !aborted && |RunningIn(old(runs), old(runs[run].org))| >= cap
      ensures dispatch.Ran? <==>
                !aborted && old(runs[run].state == Queued) && |RunningIn(old(runs), old(runs[run].org))| < cap
      ensures dispatch.Ran? ==>
                BeatsAt(Contents(), run, dispatch.claimEpoch) && dispatch.claimEpoch == old(runs[run].epoch) + 1
      ensures !dispatch.Ran? ==> runs == old(runs) && events == old(events)
    {
      ghost var s0 := Contents();
      jobs := jobs - multiset{run};
      claimers := claimers[tx := Claimer(run, false, Delivered)];
      ghost var s1 := Contents();
      assert s1 == Next(s0, Deployed(), Deliver(tx, run));
      if aborted {
        EndTransaction(tx);
        return NotClaimable;
      }
      var verdict := AdmitBuildUnderCap(tx);
      if !verdict.admitted {
        DeferredIsOver(s1, Deployed(), tx, run, now);
        return Deferred(verdict.runningCount, verdict.cap);
      }
      dispatch := ClaimAdmitted(tx, now);
    }

    /** The rest of an admitted claim. */
    method ClaimAdmitted(tx: Tx, now: int) returns (dispatch: Dispatch)
      requires tx in claimers && claimers[tx].phase == Admitted && claimers[tx].run in runs
      modifies this
      ensures Contents() == Next(Next(old(Contents()), Deployed(), ReadRun(tx)), Deployed(), Commit(tx, now))
      ensures dispatch.Ran? || dispatch == NotClaimable
      ensures dispatch.Ran? <==> old(runs[claimers[tx].run].state) == Queued
      ensures dispatch.Ran? ==> BeatsAt(Contents(), old(claimers[tx].run), dispatch.claimEpoch)
                                && dispatch.claimEpoch == old(runs[claimers[tx].run].epoch) + 1
      ensures !dispatch.Ran? ==> runs == old(runs) && events == old(events)
    {
      LoadRun(tx);
      ghost var read := Contents();
      var claimed := ClaimQueuedBuild(tx, now);
      dispatch := if claimed.None? then NotClaimable else Ran(claimed.value);
    }
  }

  ghost function TurnedAway(s: Store, d: Deployment, tx: Tx, run: RunId): Store {
    Next(Next(s, d, Deliver(tx, run)), d, Turn(tx))
  }

  /** After a deferral nothing is left of the delivery, so its later steps do nothing. */
  lemma DeferredIsOver(s: Store, d: Deployment, tx: Tx, run: RunId, now: int)
    requires tx in s.claimers && s.claimers[tx] == Claimer(run, false, Delivered) && run in s.runs
    requires s.runs[run].org !in s.locks && |RunningIn(s.runs, s.runs[run].org)| >= d.cap
    ensures var t := Next(Next(s, d, Lock(tx)), d, Count(tx)); Next(Next(t, d, ReadRun(tx)), d, Commit(tx, now)) == t
  {
  }

  predicate AllStale(runs: map<RunId, Run>, rows: seq<RunId>, from: nat, now: int) {
    forall k :: from <= k < |rows| ==> rows[k] in runs && Stale(runs[rows[k]], now)
  }

  function FencedRow(runs: map<RunId, Run>, run: RunId): ReapedBuild
    requires run in runs
  {
    ReapedBuild(run, runs[run].epoch, runs[run].epoch + 1)
  }

  ghost function FullDelivery(s: Store, d: Deployment, tx: Tx, run: RunId, now: int): Store {
    Next(Next(Next(Next(Next(s, d, Deliver(tx, run)), d, Lock(tx)), d, Count(tx)), d, ReadRun(tx)), d, Commit(tx, now))
  }

  ghost function AfterReaps(s: Store, rows: seq<RunId>, now: int): Store {
    if rows == [] then s else ReapStep(AfterReaps(s, rows[..|rows| - 1], now), rows[|rows| - 1], now)
  }

  ghost function AfterSweeps(s: Store, rows: seq<RunId>, threshold: int): Store {
    if rows == [] then s else SweepStep(AfterSweeps(s, rows[..|rows| - 1], threshold), rows[|rows| - 1], threshold)
  }

  /** A reap ends exactly the listed runs that were stale, and fences each of them. */
  lemma {:induction false} ReapsEndTheStale(s: Store, rows: seq<RunId>, now: int, run: RunId)
    requires run in s.runs
    ensures var t := AfterReaps(s, rows, now);
            run in t.runs
            && t.runs[run] == if run in rows && Stale(s.runs[run], now)
                              then s.runs[run].(state := Failed, epoch := s.runs[run].epoch + 1, heartbeat := None,
                                updatedAt := now)
                              else s.runs[run]
  {
    if rows != [] {
      var init, last := rows[..|rows| - 1], rows[|rows| - 1];
      assert rows == init + [last];
      ReapsEndTheStale(s, init, now, run);
    }
  }

  /** Two reapers that divide the rows in any way do the work of one. */
  lemma {:induction false} ReapersDivideTheWork(s: Store, mine: seq<RunId>, theirs: seq<RunId>, now: int, run: RunId)
    requires run in s.runs
    ensures var t := AfterReaps(AfterReaps(s, mine, now), theirs, now);
            var all := AfterReaps(s, mine + theirs, now);
            run in t.runs && run in all.runs && t.runs[run] == all.runs[run]
  {
    ReapsEndTheStale(s, mine, now, run);
    ReapsEndTheStale(AfterReaps(s, mine, now), theirs, now, run);
    ReapsEndTheStale(s, mine + theirs, now, run);
  }
}
