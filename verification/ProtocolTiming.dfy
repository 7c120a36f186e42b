/** When a run may be reaped: the times of its claims and heartbeats and its timeout decide it, on single
    steps and over every run of the system. */
module ProtocolTiming {
  import opened Wrappers
  import opened BuildProtocol
  import opened ProtocolSafety

  // ---------------------------------------------------------------- single steps

  /** A reap ends a running run whose last sign of life is more than its timeout ago, at the next epoch, and
      changes nothing otherwise. */
  lemma ReapInFields(s: Store, run: RunId, now: int)
    requires run in s.runs
    ensures s.runs[run].state == Running && s.runs[run].heartbeat.Some?
            && now > s.runs[run].heartbeat.value + s.runs[run].timeout ==>
              ReapStep(s, run, now).runs
              == s.runs[run := Run(s.runs[run].org, Failed, s.runs[run].epoch + 1, None, s.runs[run].timeout, now)]
              && ReapStep(s, run, now).events
                 == s.events + [Reaped(run, s.runs[run].epoch, s.runs[run].epoch + 1), Moved(run, Running, Failed)]
    ensures s.runs[run].state != Running || s.runs[run].heartbeat.None?
            || now <= s.runs[run].heartbeat.value + s.runs[run].timeout ==>
              ReapStep(s, run, now) == s
  {
  }

  /** The transaction has read the run, and the run is still queued at no higher epoch. */
  predicate ClaimGoesThrough(s: Store, tx: Tx, run: RunId) {
    tx in s.claimers && s.claimers[tx].run == run && s.claimers[tx].phase.HasRead? && run in s.runs
    && s.runs[run].state == Queued && s.runs[run].epoch <= s.claimers[tx].phase.epoch
  }

  /** A run claimed at `at` is out of the reaper's reach until its timeout is over, and then is ended at the
      epoch after the claim's. */
  lemma ClaimIsSafeUntil(s: Store, tx: Tx, run: RunId, at: int, now: int)
    requires ClaimGoesThrough(s, tx, run)
    ensures run in CommitStep(s, tx, at).runs
            && CommitStep(s, tx, at).runs[run]
            == Run(s.runs[run].org, Running, s.claimers[tx].phase.epoch + 1, Some(at), s.runs[run].timeout, at)
    ensures now <= at + s.runs[run].timeout ==> ReapStep(CommitStep(s, tx, at), run, now) == CommitStep(s, tx, at)
    ensures now > at + s.runs[run].timeout ==>
              run in ReapStep(CommitStep(s, tx, at), run, now).runs
              && ReapStep(CommitStep(s, tx, at), run, now).runs[run]
                 == Run(s.runs[run].org, Failed, s.claimers[tx].phase.epoch + 2, None, s.runs[run].timeout, now)
  {
    ReapInFields(CommitStep(s, tx, at), run, now);
    hide ReapStep;
  }

  /** The same for a run that the holder of its epoch gave a heartbeat at `at`. */
  lemma HeartbeatIsSafeUntil(s: Store, run: RunId, epoch: nat, at: int, now: int)
    requires run in s.runs && s.runs[run].state == Running && s.runs[run].epoch == epoch
    ensures HeartbeatStep(s, run, epoch, at).runs
         == s.runs[run := Run(s.runs[run].org, Running, epoch, Some(at), s.runs[run].timeout, at)]
    ensures now <= at + s.runs[run].timeout ==>
              ReapStep(HeartbeatStep(s, run, epoch, at), run, now) == HeartbeatStep(s, run, epoch, at)
    ensures now > at + s.runs[run].timeout ==>
              run in ReapStep(HeartbeatStep(s, run, epoch, at), run, now).runs
              && ReapStep(HeartbeatStep(s, run, epoch, at), run, now).runs[run]
                 == Run(s.runs[run].org, Failed, epoch + 1, None, s.runs[run].timeout, now)
  {
    ReapInFields(HeartbeatStep(s, run, epoch, at), run, now);
    hide ReapStep;
  }

  // ---------------------------------------------------------------- every run of the system

  /** When the run was last claimed, or last given a heartbeat by the holder of its epoch. */
  ghost function LastSign(first: Store, d: Deployment, steps: seq<Step>, run: RunId): Option<int> {
    if steps == [] then None
    else
      var init, step := steps[..|steps| - 1], steps[|steps| - 1];
      var s := After(first, d, init);
      if step.Commit? && ClaimGoesThrough(s, step.tx, run) then Some(step.now)
      else if step.Heartbeat? && step.run == run && run in s.runs && s.runs[run].state == Running
              && s.runs[run].epoch == step.epoch then Some(step.now)
      else LastSign(first, d, init, run)
  }

  /** The row of a running run shows its last sign of life, and the timeout it started with. */
  ghost predicate Timed(first: Run, r: Run, sign: Option<int>) {
    r.timeout == first.timeout && (r.state == Running ==> sign.Some? && r.heartbeat == sign)
  }

  lemma StepIsTimed(first: Store, d: Deployment, steps: seq<Step>, step: Step, run: RunId)
    requires run in first.runs && run in After(first, d, steps).runs
    requires Timed(first.runs[run], After(first, d, steps).runs[run], LastSign(first, d, steps, run))
    ensures run in After(first, d, steps + [step]).runs
    ensures Timed(first.runs[run], After(first, d, steps + [step]).runs[run], LastSign(first, d, steps + [step], run))
  {
    var s := After(first, d, steps);
    assert (steps + [step])[..|steps|] == steps;
    assert After(first, d, steps + [step]) == Next(s, d, step);
    hide After;
    RowAfterStep(s, d, step, run);
    hide Next, ClaimGoesThrough;
  }

  /** Only a claim and a heartbeat put a time into the row of a run that goes on running. */
  lemma RowAfterStep(s: Store, d: Deployment, step: Step, run: RunId)
    requires run in s.runs
    ensures run in Next(s, d, step).runs && Next(s, d, step).runs[run].timeout == s.runs[run].timeout
    ensures Next(s, d, step).runs[run].state == Running ==>
              if step.Commit? && ClaimGoesThrough(s, step.tx, run) then
                Next(s, d, step).runs[run].heartbeat == Some(step.now)
              else if step.Heartbeat? && step.run == run && s.runs[run].state == Running
                      && s.runs[run].epoch == step.epoch then
                Next(s, d, step).runs[run].heartbeat == Some(step.now)
              else
                s.runs[run].state == Running && Next(s, d, step).runs[run].heartbeat == s.runs[run].heartbeat
  {
    hide HasResult;
    if !Acts(step) {
      OthersOnlyWait(s, d, step);
      hide Next, ClaimGoesThrough;
    }
  }

  lemma {:induction false} AlwaysTimed(first: Store, d: Deployment, steps: seq<Step>, run: RunId)
    requires Initial(first) && run in first.runs
    ensures run in After(first, d, steps).runs
    ensures Timed(first.runs[run], After(first, d, steps).runs[run], LastSign(first, d, steps, run))
  {
    if steps != [] {
      var init, step := steps[..|steps| - 1], steps[|steps| - 1];
      AlwaysTimed(first, d, init, run);
      StepIsTimed(first, d, init, step, run);
      assert init + [step] == steps;
    }
  }

  /** The run is at work, and its last claim or heartbeat is more than its timeout ago. */
  ghost predicate Overdue(first: Store, d: Deployment, steps: seq<Step>, run: RunId, now: int) {
    && run in first.runs && run in After(first, d, steps).runs
    && After(first, d, steps).runs[run].state == Running
    && LastSign(first, d, steps, run).Some?
    && now > LastSign(first, d, steps, run).value + first.runs[run].timeout
  }

  /** Over every run of the system, a reap takes a run exactly if it is overdue. */
  lemma ReapsTheOverdue(first: Store, d: Deployment, steps: seq<Step>, run: RunId, now: int)
    requires Initial(first) && run in first.runs
    ensures Overdue(first, d, steps, run, now) <==>
              ReapStep(After(first, d, steps), run, now) != After(first, d, steps)
  {
    AlwaysTimed(first, d, steps, run);
    ReapInFields(After(first, d, steps), run, now);
    hide After, LastSign;
    if ReapStep(After(first, d, steps), run, now) == After(first, d, steps) {
      assert After(first, d, steps).events == ReapStep(After(first, d, steps), run, now).events;
    }
  }

  /** So every reap on the timeline came more than the timeout after the run's last claim or heartbeat, and
      no other step puts one there. */
  lemma EveryReapIsOverdue(first: Store, d: Deployment, steps: seq<Step>, step: Step, run: RunId)
    requires Initial(first) && run in first.runs
    ensures Reaps(After(first, d, steps + [step]).events, run)
         == Reaps(After(first, d, steps).events, run)
            + if step.Reap? && step.run == run && Overdue(first, d, steps, run, step.now) then 1 else 0
  {
    var s := After(first, d, steps);
    assert (steps + [step])[..|steps|] == steps;
    assert After(first, d, steps + [step]) == Next(s, d, step);
    if step.Reap? && step.run == run {
      ReapsTheOverdue(first, d, steps, run, step.now);
    }
    hide After, Overdue;
    StepReaps(s, d, step, run);
  }

  /** What a step puts on the timeline is a reap of the run only if it is one. */
  lemma StepReaps(s: Store, d: Deployment, step: Step, run: RunId)
    ensures Reaps(Next(s, d, step).events, run)
         == Reaps(s.events, run) + if step.Reap? && step.run == run && Next(s, d, step) != s then 1 else 0
  {
    if !Acts(step) {
      OthersOnlyWait(s, d, step);
    } else {
      var more := Next(s, d, step).events[|s.events|..];
      assert Next(s, d, step).events == s.events + more;
      assert |more| <= 2;
      ReapsOfMore(s.events, more, run);
    }
  }

  lemma ReapsOfMore(events: seq<Event>, more: seq<Event>, run: RunId)
    requires |more| <= 2
    ensures Reaps(events + more, run)
         == Reaps(events, run) + (if |more| > 0 && more[0].Reaped? && more[0].run == run then 1 else 0)
            + (if |more| > 1 && more[1].Reaped? && more[1].run == run then 1 else 0)
  {
    if |more| == 0 {
      assert events + more == events;
    } else if |more| == 1 {
      assert more == [more[0]];
      OneMore(events, more[0], run, Queued);
    } else {
      OneMore(events, more[0], run, Queued);
      OneMore(events + [more[0]], more[1], run, Queued);
      assert events + more == events + [more[0]] + [more[1]];
    }
  }

  // ---------------------------------------------------------------- deliveries, the sweep and the other writers

  /** A delivery takes a job of a known run off the queue, for a transaction that is not under way yet. */
  lemma DeliverInFields(s: Store, d: Deployment, tx: Tx, run: RunId)
    ensures tx !in s.claimers && run in s.runs && s.jobs[run] >= 1 ==>
              DeliverStep(s, d, tx, run)
              == Store(s.runs, s.events, s.locks, s.claimers[tx := Claimer(run, false, Delivered)],
                       s.jobs[run := s.jobs[run] - 1])
    ensures tx in s.claimers || run !in s.runs || s.jobs[run] == 0 ==> DeliverStep(s, d, tx, run) == s
  {
    if run in s.jobs { assert s.jobs - multiset{run} == s.jobs[run := s.jobs[run] - 1]; }
  }

  /** Only a delivery that has done nothing yet is turned away. */
  lemma TurnInFields(s: Store, tx: Tx)
    ensures tx in s.claimers && s.claimers[tx].phase == Delivered ==> tx !in TurnStep(s, tx).claimers
    ensures tx !in s.claimers || s.claimers[tx].phase != Delivered ==> TurnStep(s, tx) == s
  {
  }

  /** The sweep queues one more job for a run that is queued and was last written before the threshold, and
      for no other. */
  lemma SweepInFields(s: Store, run: RunId, threshold: int)
    ensures run in s.runs && s.runs[run].state == Queued && threshold > s.runs[run].updatedAt ==>
              SweepStep(s, run, threshold)
              == Store(s.runs, s.events, s.locks, s.claimers, s.jobs + multiset{run})
    ensures !(run in s.runs && s.runs[run].state == Queued && threshold > s.runs[run].updatedAt) ==>
              SweepStep(s, run, threshold) == s
  {
  }

  /** A delivery that has done nothing yet takes the lock of its run's organization if it is free, and waits
      otherwise. */
  lemma LockInFields(s: Store, tx: Tx)
    requires tx in s.claimers && s.claimers[tx].run in s.runs
    ensures s.claimers[tx].phase == Delivered && s.runs[s.claimers[tx].run].org !in s.locks ==>
              LockStep(s, tx)
              == Store(s.runs, s.events, s.locks[s.runs[s.claimers[tx].run].org := tx],
                       s.claimers[tx := Claimer(s.claimers[tx].run, true, Locked)], s.jobs)
    ensures s.claimers[tx].phase != Delivered || s.runs[s.claimers[tx].run].org in s.locks ==> LockStep(s, tx) == s
  {
  }

  /** The run's epoch is read once the claim is admitted under the cap, or, where claims may skip the lock,
      by a delivery that has done nothing yet. */
  lemma ReadInFields(s: Store, d: Deployment, tx: Tx)
    requires tx in s.claimers && s.claimers[tx].run in s.runs
    ensures s.claimers[tx].phase == Admitted || (d.anyClaim && s.claimers[tx].phase == Delivered) ==>
              ReadStep(s, d, tx).claimers
              == s.claimers[tx := Claimer(s.claimers[tx].run, s.claimers[tx].locked,
                                          HasRead(s.runs[s.claimers[tx].run].epoch))]
    ensures s.claimers[tx].phase == Locked || s.claimers[tx].phase.HasRead?
            || (s.claimers[tx].phase == Delivered && !d.anyClaim) ==>
              ReadStep(s, d, tx) == s
  {
  }

  /** Another writer moves a run along the matrix, or anywhere where it is not in force, but never to work,
      and writes the time. */
  lemma MoveInFields(s: Store, d: Deployment, run: RunId, to: State, now: int)
    ensures run in s.runs && to != Running && (d.anyMove || Legal(s.runs[run].state, to)) ==>
              MoveStep(s, d, run, to, now).runs
              == s.runs[run := Run(s.runs[run].org, to, s.runs[run].epoch, s.runs[run].heartbeat, s.runs[run].timeout,
                                   now)]
              && MoveStep(s, d, run, to, now).events == s.events + [Moved(run, s.runs[run].state, to)]
    ensures to == Running || (run in s.runs && !d.anyMove && !Legal(s.runs[run].state, to)) ==>
              MoveStep(s, d, run, to, now) == s
  {
  }

  /** A result row goes in at the epoch of a running run that has none, whoever writes it. */
  lemma InsertInFields(s: Store, run: RunId, epoch: nat)
    ensures run in s.runs && s.runs[run].state == Running && s.runs[run].epoch == epoch
            && (forall e :: e in s.events && e.Written? ==> e.run != run) ==>
              InsertStep(s, run, epoch) == s.(events := s.events + [Written(run, epoch)])
    ensures run !in s.runs || s.runs[run].state != Running || s.runs[run].epoch != epoch
            || (exists e :: e in s.events && e.Written? && e.run == run) ==>
              InsertStep(s, run, epoch) == s
  {
    if e :| e in s.events && e.Written? && e.run == run {
      var i :| 0 <= i < |s.events| && s.events[i] == e;
    }
  }

  /** A claim that is rolled back leaves no claimer and no lock, and its job is there again. */
  lemma AbortInFields(s: Store, tx: Tx)
    requires tx in s.claimers
    ensures AbortStep(s, tx).runs == s.runs && AbortStep(s, tx).events == s.events
    ensures AbortStep(s, tx).jobs == s.jobs + multiset{s.claimers[tx].run}
    ensures AbortStep(s, tx).claimers == map u | u in s.claimers && u != tx :: s.claimers[u]
    ensures forall o :: o in AbortStep(s, tx).locks <==> o in s.locks && s.locks[o] != tx
    ensures forall o :: o in AbortStep(s, tx).locks ==> AbortStep(s, tx).locks[o] == s.locks[o]
  {
  }
}
