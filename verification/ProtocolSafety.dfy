/** Safety of the build protocol over every run of the system. */
module ProtocolSafety {
  import opened Wrappers
  import opened BuildProtocol

  // ---------------------------------------------------------------- one more event

  lemma OneMore(events: seq<Event>, e: Event, run: RunId, from: State)
    ensures Claims(events + [e], run) == Claims(events, run) + if e.Claimed? && e.run == run then 1 else 0
    ensures Reaps(events + [e], run) == Reaps(events, run) + if e.Reaped? && e.run == run then 1 else 0
    ensures Entries(events + [e], run)
         == Entries(events, run) + if e.Moved? && e.run == run && e.to == Queued then 1 else 0
    ensures LiveClaim(events + [e], run)
         == if e.run == run && e.Claimed? then Some(e.epoch)
            else if e.run == run && e.Reaped? then None
            else LiveClaim(events, run)
    ensures Chain(events + [e], run, from)
         == if !(e.Moved? && e.run == run) then Chain(events, run, from)
            else if Chain(events, run, from) == Some(e.from) then Some(e.to) else None
  {
  }

  /** An event that tells nothing new about a run. */
  predicate Elsewhere(e: Event, run: RunId) {
    e.run != run || e.Refused? || e.Written?
  }

  lemma AccountedElsewhere(first: Run, r: Run, events: seq<Event>, e: Event, run: RunId)
    requires Accounted(first, r, events, run) && Elsewhere(e, run)
    ensures Accounted(first, r, events + [e], run)
  {
  }

  ghost predicate TimelineAdmits(events: seq<Event>, e: Event) {
    && (e.Written? ==> LiveClaim(events, e.run) == Some(e.epoch) && !HasResult(events, e.run))
    && (e.Claimed? ==> forall i :: 0 <= i < |events| && events[i].Claimed? && events[i].run == e.run ==>
      events[i].epoch < e.epoch)
  }

  ghost predicate GoodTimeline(events: seq<Event>) {
    Fenced(events) && ClaimsRise(events) && OneResult(events)
  }

  lemma TimelineGrows(events: seq<Event>, e: Event)
    requires GoodTimeline(events) && TimelineAdmits(events, e)
    ensures GoodTimeline(events + [e])
  {
    var all := events + [e];
    forall i | 0 <= i < |all| && all[i].Written? ensures LiveClaim(all[..i], all[i].run) == Some(all[i].epoch) {
      assert all[..i] == if i < |events| then events[..i] else events;
    }
  }

  // ---------------------------------------------------------------- the rows and the timeline

  /** The other runs do not notice. */
  lemma OthersAccounted(first: Store, s: Store, run: RunId, r: Run, more: seq<Event>, other: RunId)
    requires AllAccounted(first, s) && run in s.runs && other in s.runs && other != run && |more| <= 2
    requires forall i :: 0 <= i < |more| ==> more[i].run == run
    ensures Accounted(first.runs[other], SetRun(s, run, r, more).runs[other], SetRun(s, run, r, more).events, other)
  {
    hide Claims, Reaps, Entries, LiveClaim, Chain, Fenced, ClaimsRise, OneResult;
    if |more| == 0 {
      assert s.events + more == s.events;
    } else {
      AccountedElsewhere(first.runs[other], s.runs[other], s.events, more[0], other);
      if |more| == 1 {
        assert more == [more[0]];
      } else {
        AccountedElsewhere(first.runs[other], s.runs[other], s.events + [more[0]], more[1], other);
        assert s.events + more == s.events + [more[0]] + [more[1]];
      }
    }
  }

  lemma RowUpdated(first: Store, s: Store, run: RunId, r: Run, more: seq<Event>)
    requires AllAccounted(first, s) && run in s.runs && |more| <= 2
    requires forall i :: 0 <= i < |more| ==> more[i].run == run
    requires Accounted(first.runs[run], r, s.events + more, run) && GoodTimeline(s.events + more)
    ensures AllAccounted(first, SetRun(s, run, r, more))
  {
    forall other | other in first.runs
      ensures Accounted(first.runs[other], SetRun(s, run, r, more).runs[other], SetRun(s, run, r, more).events, other)
    {
      if other != run { OthersAccounted(first, s, run, r, more, other); }
    }
  }

  lemma CommitAccounts(first: Store, s: Store, run: RunId, epoch: nat, now: int)
    requires AllAccounted(first, s) && run in s.runs && s.runs[run].state == Queued && epoch == s.runs[run].epoch
    ensures var r := s.runs[run].(state := Running, epoch := epoch + 1, heartbeat := Some(now), updatedAt := now);
            AllAccounted(first, SetRun(s, run, r, [Claimed(run, epoch + 1), Moved(run, Queued, Running)]))
  {
    hide Claims, Reaps, Entries, LiveClaim, Chain, GoodTimeline;
    var r := s.runs[run].(state := Running, epoch := epoch + 1, heartbeat := Some(now), updatedAt := now);
    var a, b := Claimed(run, epoch + 1), Moved(run, Queued, Running);
    OneMore(s.events, a, run, first.runs[run].state);
    OneMore(s.events + [a], b, run, first.runs[run].state);
    TimelineGrows(s.events, a);
    TimelineGrows(s.events + [a], b);
    assert s.events + [a, b] == s.events + [a] + [b];
    RowUpdated(first, s, run, r, [a, b]);
  }

  function ReapedRow(before: Run, now: int): Run {
    before.(state := Failed, epoch := before.epoch + 1, heartbeat := None, updatedAt := now)
  }

  function ReapEvents(run: RunId, before: Run): seq<Event> {
    [Reaped(run, before.epoch, before.epoch + 1), Moved(run, Running, Failed)]
  }

  lemma ReapedRowAccounted(first: Run, before: Run, events: seq<Event>, run: RunId, now: int)
    requires Accounted(first, before, events, run) && before.state == Running
    ensures Accounted(first, ReapedRow(before, now), events + ReapEvents(run, before), run)
  {
    hide Claims, Reaps, Entries, LiveClaim, Chain;
    var a, b := Reaped(run, before.epoch, before.epoch + 1), Moved(run, Running, Failed);
    OneMore(events, a, run, first.state);
    OneMore(events + [a], b, run, first.state);
    assert events + [a, b] == events + [a] + [b];
  }

  lemma ReapedTimeline(events: seq<Event>, run: RunId, before: Run)
    requires GoodTimeline(events)
    ensures GoodTimeline(events + ReapEvents(run, before))
  {
    hide GoodTimeline;
    var a, b := Reaped(run, before.epoch, before.epoch + 1), Moved(run, Running, Failed);
    TimelineGrows(events, a);
    TimelineGrows(events + [a], b);
    assert events + [a, b] == events + [a] + [b];
  }

  lemma ReapAccounts(first: Store, s: Store, run: RunId, now: int)
    requires AllAccounted(first, s)
    ensures AllAccounted(first, ReapStep(s, run, now))
  {
    hide Accounted;
    if run in s.runs && Stale(s.runs[run], now) {
      ReapedRowAccounted(first.runs[run], s.runs[run], s.events, run, now);
      ReapedTimeline(s.events, run, s.runs[run]);
      RowUpdated(first, s, run, ReapedRow(s.runs[run], now), ReapEvents(run, s.runs[run]));
    }
  }

  lemma PersistAccounts(first: Store, s: Store, run: RunId, epoch: nat, to: State, now: int)
    requires AllAccounted(first, s)
    ensures AllAccounted(first, PersistStep(s, run, epoch, to, now))
  {
    hide Claims, Reaps, Entries, LiveClaim, Chain;
    if run in s.runs {
      if !BeatsAt(s, run, epoch) {
        var a := Refused(run, epoch, s.runs[run].epoch);
        EventOnly(first, s, a);
      } else if MayWrite(s, run, epoch) && Ends(to) {
        var r := s.runs[run].(state := to, updatedAt := now);
        var a, b := Written(run, epoch), Moved(run, Running, to);
        OneMore(s.events, a, run, first.runs[run].state);
        OneMore(s.events + [a], b, run, first.runs[run].state);
        TimelineGrows(s.events, a);
        TimelineGrows(s.events + [a], b);
        assert s.events + [a, b] == s.events + [a] + [b];
        RowUpdated(first, s, run, r, [a, b]);
      }
    }
  }

  lemma EventOnly(first: Store, s: Store, e: Event)
    requires AllAccounted(first, s) && (e.Refused? || e.Written?) && TimelineAdmits(s.events, e)
    ensures AllAccounted(first, s.(events := s.events + [e]))
  {
    TimelineGrows(s.events, e);
    forall run | run in first.runs ensures Accounted(first.runs[run], s.runs[run], s.events + [e], run) {
      AccountedElsewhere(first.runs[run], s.runs[run], s.events, e, run);
    }
  }

  lemma MoveAccounts(first: Store, s: Store, d: Deployment, run: RunId, to: State, now: int)
    requires AllAccounted(first, s)
    ensures AllAccounted(first, MoveStep(s, d, run, to, now))
  {
    if run in s.runs && to != Running {
      var r := s.runs[run].(state := to, updatedAt := now);
      var a := Moved(run, s.runs[run].state, to);
      OneMore(s.events, a, run, first.runs[run].state);
      TimelineGrows(s.events, a);
      RowUpdated(first, s, run, r, [a]);
    }
  }

  lemma HeartbeatAccounts(first: Store, s: Store, run: RunId, epoch: nat, now: int)
    requires AllAccounted(first, s)
    ensures AllAccounted(first, HeartbeatStep(s, run, epoch, now))
  {
    if BeatsAt(s, run, epoch) {
      assert s.events + [] == s.events;
      RowUpdated(first, s, run, s.runs[run].(heartbeat := Some(now), updatedAt := now), []);
    }
  }

  lemma CommitStepAccounts(first: Store, s: Store, tx: Tx, now: int)
    requires AllAccounted(first, s) && ReadsBehind(s)
    ensures AllAccounted(first, CommitStep(s, tx, now))
  {
    hide Accounted, HasResult;
    var t := CommitStep(s, tx, now);
    if t.runs != s.runs || t.events != s.events {
      var run, epoch := s.claimers[tx].run, s.claimers[tx].phase.epoch;
      assert epoch == s.runs[run].epoch;
      CommitAccounts(first, End(s, tx), run, epoch, now);
    }
  }

  predicate Acts(step: Step) {
    step.Commit? || step.Heartbeat? || step.Reap? || step.Persist? || step.Insert? || step.Move?
  }

  lemma OthersOnlyWait(s: Store, d: Deployment, step: Step)
    requires !Acts(step)
    ensures Next(s, d, step).runs == s.runs && Next(s, d, step).events == s.events
  {
  }

  lemma StepAccounts(first: Store, s: Store, d: Deployment, step: Step)
    requires AllAccounted(first, s) && ReadsBehind(s)
    ensures AllAccounted(first, Next(s, d, step))
  {
    if !Acts(step) {
      OthersOnlyWait(s, d, step);
      return;
    }
    match step
    case Commit(tx, now) => CommitStepAccounts(first, s, tx, now);
    case Heartbeat(run, epoch, now) => HeartbeatAccounts(first, s, run, epoch, now);
    case Reap(run, now) => ReapAccounts(first, s, run, now);
    case Persist(run, epoch, to, now) => PersistAccounts(first, s, run, epoch, to, now);
    case Insert(run, epoch) => if MayWrite(s, run, epoch) { EventOnly(first, s, Written(run, epoch)); }
    case Move(run, to, now) => MoveAccounts(first, s, d, run, to, now);
  }

  // ---------------------------------------------------------------- reads stay behind

  /** Epochs only grow. */
  lemma EpochsNeverDecrease(s: Store, d: Deployment, step: Step, run: RunId)
    requires run in s.runs
    ensures run in Next(s, d, step).runs && s.runs[run].epoch <= Next(s, d, step).runs[run].epoch
    ensures s.runs[run].org == Next(s, d, step).runs[run].org
  {
  }

  lemma ActsLeaveClaimers(s: Store, d: Deployment, step: Step)
    requires Acts(step) && !step.Commit?
    ensures Next(s, d, step).locks == s.locks && Next(s, d, step).claimers == s.claimers
  {
  }

  /** A claimer that is new, or has just read. */
  lemma WaitersReadBehind(s: Store, d: Deployment, step: Step)
    requires ReadsBehind(s) && !Acts(step)
    ensures ReadsBehind(Next(s, d, step))
  {
  }

  lemma StepReadsBehind(s: Store, d: Deployment, step: Step)
    requires ReadsBehind(s)
    ensures ReadsBehind(Next(s, d, step))
  {
    forall run | run in s.runs { EpochsNeverDecrease(s, d, step, run); }
    if !Acts(step) {
      WaitersReadBehind(s, d, step);
    } else if step.Commit? {
      CommitReadsBehind(s, step.tx, step.now);
    } else {
      ActsLeaveClaimers(s, d, step);
    }
  }

  lemma CommitReadsBehind(s: Store, tx: Tx, now: int)
    requires ReadsBehind(s)
    ensures ReadsBehind(CommitStep(s, tx, now))
  {
  }

  // ---------------------------------------------------------------- how many run

  lemma RunningAfter(runs: map<RunId, Run>, run: RunId, r: Run, org: Org)
    requires run in runs && r.org == runs[run].org
    ensures r.state != Running ==> |RunningIn(runs[run := r], org)| <= |RunningIn(runs, org)|
    ensures r.state == Running && runs[run].state == Running ==> RunningIn(runs[run := r], org) == RunningIn(runs, org)
    ensures org != r.org ==> RunningIn(runs[run := r], org) == RunningIn(runs, org)
    ensures |RunningIn(runs[run := r], org)| <= |RunningIn(runs, org)| + 1
  {
    var before, after := RunningIn(runs, org), RunningIn(runs[run := r], org);
    assert after == before || after == before + {run} || after == before - {run};
  }

  /** A step other than a claim puts no run to work. */
  lemma OnlyClaimsAdd(s: Store, d: Deployment, step: Step, org: Org)
    requires !step.Commit?
    ensures |RunningIn(Next(s, d, step).runs, org)| <= |RunningIn(s.runs, org)|
  {
    match step
    case Heartbeat(run, epoch, now) =>
      if BeatsAt(s, run, epoch) {
        RunningAfter(s.runs, run, s.runs[run].(heartbeat := Some(now), updatedAt := now), org);
      }
    case Reap(run, now) =>
      if run in s.runs && Stale(s.runs[run], now) {
        RunningAfter(s.runs, run, ReapStep(s, run, now).runs[run], org);
      }
    case Persist(run, epoch, to, now) =>
      if BeatsAt(s, run, epoch) && MayWrite(s, run, epoch) && Ends(to) {
        RunningAfter(s.runs, run, s.runs[run].(state := to, updatedAt := now), org);
      }
    case Move(run, to, now) =>
      if run in s.runs { RunningAfter(s.runs, run, s.runs[run].(state := to, updatedAt := now), org); }
    case _ =>
  }

  // ---------------------------------------------------------------- the lock

  /** The claimers and locks of a step that touches neither. */
  lemma LocksUntouched(s: Store, d: Deployment, t: Store)
    requires LocksHeld(s, d) && t.locks == s.locks && t.claimers == s.claimers
    requires forall run :: run in s.runs ==> run in t.runs && t.runs[run].org == s.runs[run].org
    requires forall org :: |RunningIn(t.runs, org)| <= |RunningIn(s.runs, org)|
    ensures LocksHeld(t, d)
  {
  }

  lemma EndKeepsLocks(s: Store, d: Deployment, tx: Tx)
    requires LocksHeld(s, d)
    ensures LocksHeld(End(s, tx), d)
    ensures tx in s.claimers && s.claimers[tx].locked ==> s.runs[s.claimers[tx].run].org !in End(s, tx).locks
  {
  }

  /** Whoever else was admitted in the organization would hold the lock the claim has just given up. */
  lemma CommitKeepsLocks(s: Store, d: Deployment, tx: Tx, now: int)
    requires LocksHeld(s, d) && UnderCap(s, d)
    ensures LocksHeld(CommitStep(s, tx, now), d) && UnderCap(CommitStep(s, tx, now), d)
  {
    EndKeepsLocks(s, d, tx);
    var e, t := End(s, tx), CommitStep(s, tx, now);
    if tx in s.claimers && s.claimers[tx].phase.HasRead? && s.claimers[tx].run in s.runs {
      var run := s.claimers[tx].run;
      assert HoldsLock(s, d, tx);
      if t.runs != s.runs {
        var r := t.runs[run];
        assert t.runs == s.runs[run := r];
        forall org { RunningAfter(s.runs, run, r, org); }
        if !d.anyClaim {
          assert |RunningIn(s.runs, r.org)| < d.cap;
          forall org ensures |RunningIn(t.runs, org)| <= d.cap {
            assert |RunningIn(s.runs, org)| <= d.cap;
          }
        }
        forall other | other in t.claimers ensures HoldsLock(t, d, other) {
          assert HoldsLock(e, d, other);
          if !d.anyClaim && t.claimers[other].locked {
            assert t.runs[t.claimers[other].run].org != r.org;
          }
        }
      }
    }
  }

  lemma LockStepKeeps(s: Store, d: Deployment, tx: Tx)
    requires LocksHeld(s, d)
    ensures LocksHeld(LockStep(s, tx), d)
  {
  }

  lemma CountStepKeeps(s: Store, d: Deployment, tx: Tx)
    requires LocksHeld(s, d)
    ensures LocksHeld(CountStep(s, d, tx), d)
  {
    EndKeepsLocks(s, d, tx);
    var t := CountStep(s, d, tx);
    if tx in s.claimers && t == Again(End(s, tx), s.claimers[tx].run) {
      LocksUntouched(End(s, tx), d, t);
    } else {
      forall other | other in t.claimers ensures HoldsLock(t, d, other) {
        assert HoldsLock(s, d, other);
      }
    }
  }

  lemma ReadStepKeeps(s: Store, d: Deployment, tx: Tx)
    requires LocksHeld(s, d)
    ensures LocksHeld(ReadStep(s, d, tx), d)
  {
  }

  lemma DeliverStepKeeps(s: Store, d: Deployment, tx: Tx, run: RunId)
    requires LocksHeld(s, d)
    ensures LocksHeld(DeliverStep(s, d, tx, run), d)
  {
  }

  lemma AbortKeepsLocks(s: Store, d: Deployment, tx: Tx)
    requires LocksHeld(s, d)
    ensures LocksHeld(AbortStep(s, tx), d)
  {
  }

  lemma ActKeepsLocks(s: Store, d: Deployment, step: Step)
    requires LocksHeld(s, d) && Acts(step) && !step.Commit?
    ensures LocksHeld(Next(s, d, step), d)
  {
    forall org { OnlyClaimsAdd(s, d, step, org); }
    forall run | run in s.runs { EpochsNeverDecrease(s, d, step, run); }
    ActsLeaveClaimers(s, d, step);
    LocksUntouched(s, d, Next(s, d, step));
  }

  lemma StepKeepsLocks(s: Store, d: Deployment, step: Step)
    requires LocksHeld(s, d) && UnderCap(s, d)
    ensures LocksHeld(Next(s, d, step), d) && UnderCap(Next(s, d, step), d)
  {
    if step.Commit? {
      CommitKeepsLocks(s, d, step.tx, step.now);
      return;
    }
    forall org { OnlyClaimsAdd(s, d, step, org); }
    if Acts(step) {
      ActKeepsLocks(s, d, step);
      return;
    }
    match step
    case Deliver(tx, run) => DeliverStepKeeps(s, d, tx, run);
    case Turn(tx) => EndKeepsLocks(s, d, tx);
    case Abort(tx) => AbortKeepsLocks(s, d, tx);
    case Lock(tx) => LockStepKeeps(s, d, tx);
    case Count(tx) => CountStepKeeps(s, d, tx);
    case ReadRun(tx) => ReadStepKeeps(s, d, tx);
    case Sweep(run, threshold) => LocksUntouched(s, d, SweepStep(s, run, threshold));
  }

  // ---------------------------------------------------------------- every run of the system

  lemma InitialKept(s: Store, d: Deployment)
    requires Initial(s)
    ensures Kept(s, s, d)
  {
    forall org ensures |RunningIn(s.runs, org)| == 0 {
      assert forall r :: r !in RunningIn(s.runs, org);
      assert RunningIn(s.runs, org) == {};
    }
  }

  lemma StepKeeps(first: Store, s: Store, d: Deployment, step: Step)
    requires Kept(first, s, d)
    ensures Kept(first, Next(s, d, step), d)
  {
    StepAccounts(first, s, d, step);
    StepReadsBehind(s, d, step);
    StepKeepsLocks(s, d, step);
  }

  lemma {:induction false} AlwaysKept(first: Store, d: Deployment, steps: seq<Step>)
    requires Initial(first)
    ensures Kept(first, After(first, d, steps), d)
  {
    if steps == [] {
      InitialKept(first, d);
    } else {
      AlwaysKept(first, d, steps[..|steps| - 1]);
      StepKeeps(first, After(first, d, steps[..|steps| - 1]), d, steps[|steps| - 1]);
    }
  }

  /** Fencing. Over every run of the system, with claims split into a read and a conditional update and
      anything in between: no two claims of a run share an epoch, and every result row carries the epoch
      of the run's latest claim with no reap after it; a run has at most one. */
  lemma ResultsAreFenced(first: Store, d: Deployment, steps: seq<Step>)
    requires Initial(first)
    ensures var s := After(first, d, steps); Fenced(s.events) && ClaimsRise(s.events) && OneResult(s.events)
  {
    AlwaysKept(first, d, steps);
  }

  /** Conservation. A run's epoch is its first one plus its claims plus its reaps; a running run's live
      claim is at its epoch; its moves form one unbroken chain; and it was claimed no more often than it
      came into the queue. */
  lemma TimelineConserves(first: Store, d: Deployment, steps: seq<Step>, run: RunId)
    requires Initial(first) && run in first.runs
    ensures var s := After(first, d, steps);
            run in s.runs
            && s.runs[run].epoch == first.runs[run].epoch + Claims(s.events, run) + Reaps(s.events, run)
            && (s.runs[run].state == Running ==> LiveClaim(s.events, run) == Some(s.runs[run].epoch))
            && Chain(s.events, run, first.runs[run].state) == Some(s.runs[run].state)
            && Claims(s.events, run) + InQueue(s.runs[run]) <= Entries(s.events, run) + InQueue(first.runs[run])
  {
    AlwaysKept(first, d, steps);
  }

  /** A heartbeat succeeds exactly if the run still runs and its epoch is the live claim's. */
  lemma HeartbeatIffLive(first: Store, d: Deployment, steps: seq<Step>, run: RunId, epoch: nat)
    requires Initial(first) && run in first.runs
    ensures var s := After(first, d, steps);
            run in s.runs
              && (BeatsAt(s, run, epoch) <==> s.runs[run].state == Running && LiveClaim(s.events, run) == Some(epoch))
  {
    AlwaysKept(first, d, steps);
  }

  /** Capacity. If every claim is made under the organization's lock, an organization never runs more
      builds than the cap. */
  lemma CapacityHolds(first: Store, d: Deployment, steps: seq<Step>, org: Org)
    requires Initial(first) && !d.anyClaim
    ensures |RunningIn(After(first, d, steps).runs, org)| <= d.cap
  {
    AlwaysKept(first, d, steps);
  }
}
