/** The independent re-check of a finished schedule, against what the worker posts. The checker walks
    a member's assignments in chronological order and never sees the grid, so the two are different
    formulations of the same rules; here is exactly when they accept the same schedules. */
module CheckerAgreement {
  import opened Calendar
  import opened Problems
  import opened RuleMeaning
  import opened MemberByDate
  import opened HardRules
  import opened SoftRules

  // ---------------------------------------------------------------- MaxConsecutive

  predicate LongRun(days: seq<int>, d: int, maxDays: nat) {
    forall e :: d <= e <= d + maxDays ==> e in days
  }

  /** The last of the days ends a run of exactly `run` consecutive ones. */
  predicate EndsRun(days: seq<int>, run: nat)
    requires days != []
  {
    var last := days[|days| - 1];
    run >= 1 && last - run !in days && (forall e :: last - run < e <= last ==> e in days)
    && forall e :: e in days ==> e <= last
  }

  /** The walk over the sorted distinct days: does some run get longer than `maxDays`? */
  method RunTooLong(days: seq<int>, maxDays: nat) returns (breach: bool)
    requires Increasing(days)
    ensures breach <==> exists d :: LongRun(days, d, maxDays)
  {
    hide LongRun, EndsRun, Increasing;
    var run := 0;
    breach := false;
    NoRunInNothing(maxDays);
    for index := 0 to |days|
      invariant index > 0 ==> EndsRun(days[..index], run)
      invariant breach <==> exists d :: LongRun(days[..index], d, maxDays)
    {
      assert days[..index + 1] == days[..index] + [days[index]];
      NextRun(days, index, run);
      if index == 0 || days[index] != days[index - 1] + 1 {
        run := 1;
      } else {
        run := run + 1;
      }
      if run == maxDays + 1 { breach := true; }
      RunStep(days[..index], days[index], run, maxDays);
    }
    assert days[..|days|] == days;
  }

  /** A day after a gap starts a run, any other makes the last one longer. */
  lemma NextRun(days: seq<int>, index: nat, run: nat)
    requires Increasing(days) && index < |days| && (index > 0 ==> EndsRun(days[..index], run))
    ensures days[index] !in days[..index]
    ensures EndsRun(days[..index] + [days[index]],
                    if index == 0 || days[index] != days[index - 1] + 1 then 1 else run + 1)
  {
    var before, last := days[..index], days[index];
    assert forall e :: e in before ==> e < last;
    if index > 0 {
      assert before[index - 1] == days[index - 1];
      assert forall e :: e in before ==> e <= days[index - 1];
    }
  }

  lemma NoRunInNothing(maxDays: nat)
    ensures !exists d :: LongRun([], d, maxDays)
  {
    forall d ensures !LongRun([], d, maxDays) {
      var e := d;
      assert e !in [];
    }
  }

  /** What one more day adds is decided by the run it ends. */
  lemma RunStep(before: seq<int>, last: int, run: nat, maxDays: nat)
    requires EndsRun(before + [last], run) && last !in before
    ensures (exists d :: LongRun(before + [last], d, maxDays))
       <==> (exists d :: LongRun(before, d, maxDays)) || run == maxDays + 1
  {
    var upTo := before + [last];
    if d :| LongRun(before, d, maxDays) {
      assert LongRun(upTo, d, maxDays);
    }
    if run >= maxDays + 1 {
      assert LongRun(upTo, last - maxDays, maxDays);
    }
    if run > maxDays + 1 {
      forall e | last - 1 - maxDays <= e < last ensures e in before {
        assert e in upTo;
      }
      assert LongRun(before, last - 1 - maxDays, maxDays);
    }
    if run < maxDays + 1 {
      forall d | LongRun(upTo, d, maxDays) ensures LongRun(before, d, maxDays) {
        assert d + maxDays in upTo;
        assert d <= last - run <= d + maxDays ==> last - run in upTo;
        forall e | d <= e <= d + maxDays ensures e in before {
          assert e in upTo;
        }
      }
    }
  }

  /** The checker's walk finds no long run exactly if the posted windows do not. */
  lemma RunsAgree(p: Problem, scope: Scope, x: set<Cell>, m: Id, days: seq<int>, maxDays: nat)
    requires Resolved(p) && OnGrid(p, x)
    requires forall d :: d in days <==> WorksOn(p, scope, x, m, d)
    ensures (exists d :: LongRun(days, d, maxDays)) <==> !NoLongRun(p, scope, x, m, maxDays)
  {
    forall d | LongRun(days, d, maxDays)
      ensures InWindow(p, scope, d) && InWindow(p, scope, d + maxDays) && WorksThrough(p, scope, x, m, d, d + maxDays)
    {
      assert d in days && d + maxDays in days;
      assert WorksOn(p, scope, x, m, d) && WorksOn(p, scope, x, m, d + maxDays);
    }
    if !NoLongRun(p, scope, x, m, maxDays) {
      var d :| InWindow(p, scope, d) && InWindow(p, scope, d + maxDays) && WorksThrough(p, scope, x, m, d, d + maxDays);
      assert LongRun(days, d, maxDays);
    }
  }

  // ---------------------------------------------------------------- MaxAssignmentsInWindow

  /** A rolling window from every day with an assignment, however far it reaches. */
  ghost predicate RollingWindows(p: Problem, scope: Scope, x: set<Cell>, m: Id, maxCount: nat, span: nat) {
    forall d :: WorksOn(p, scope, x, m, d) ==> |Between(p, scope, x, m, d, d + span - 1)| <= maxCount
  }

  lemma BetweenGrows(p: Problem, scope: Scope, x: set<Cell>, m: Id, lo: int, hi: int, lo2: int, hi2: int)
    requires forall c :: c in Between(p, scope, x, m, lo, hi) ==> lo2 <= c.d <= hi2
    ensures |Between(p, scope, x, m, lo, hi)| <= |Between(p, scope, x, m, lo2, hi2)|
  {
    SubsetSize(Between(p, scope, x, m, lo, hi), Between(p, scope, x, m, lo2, hi2));
  }

  ghost function FirstDay(cs: set<Cell>): (d: int)
    requires cs != {}
    ensures exists c :: c in cs && c.d == d
    ensures forall c :: c in cs ==> d <= c.d
  {
    var c :| c in cs;
    if cs == {c} then c.d
    else
      assert cs == (cs - {c}) + {c};
      var rest := FirstDay(cs - {c});
      if c.d <= rest then c.d else rest
  }

  lemma WorkedDays(p: Problem, scope: Scope, x: set<Cell>, m: Id)
    requires OnGrid(p, x)
    ensures forall c :: c in Assigned(p, scope, x, m) ==> WorksOn(p, scope, x, m, c.d)
    ensures Assigned(p, scope, x, m) == Between(p, scope, x, m, WindowStart(p, scope), WindowEnd(p, scope))
  {
  }

  /** A window counts no more than the one that starts at its own first assignment. */
  lemma FromFirstDay(p: Problem, scope: Scope, x: set<Cell>, m: Id, maxCount: nat, span: nat, d: int, e: int)
    requires OnGrid(p, x) && RollingWindows(p, scope, x, m, maxCount, span) && e <= d + span - 1
    ensures |Between(p, scope, x, m, d, e)| <= maxCount
  {
    var cs := Between(p, scope, x, m, d, e);
    if cs != {} {
      var first := FirstDay(cs);
      var c :| c in cs && c.d == first;
      assert c == Cell(m, first, c.s) && c.s in p.shiftIds;
      assert WorksOn(p, scope, x, m, first);
      BetweenGrows(p, scope, x, m, d, e, first, first + span - 1);
    }
  }

  lemma RollingBoundsTotal(p: Problem, scope: Scope, x: set<Cell>, m: Id, maxCount: nat, span: nat)
    requires OnGrid(p, x) && RollingWindows(p, scope, x, m, maxCount, span) && WindowLength(p, scope) < span
    ensures |Assigned(p, scope, x, m)| <= maxCount
  {
    hide Admits;
    var start, end := WindowStart(p, scope), WindowEnd(p, scope);
    WorkedDays(p, scope, x, m);
    if start <= end {
      FromFirstDay(p, scope, x, m, maxCount, span, start, end);
    } else {
      assert Between(p, scope, x, m, start, end) == {};
    }
  }

  /** The worker posts whole windows only. On one schedule it agrees with the checker unless the accounting
      window is shorter than the rule's, and then it posts nothing at all: what it misses is the total. */
  lemma WindowsAgreeAt(p: Problem, scope: Scope, x: set<Cell>, m: Id, maxCount: nat, span: nat)
    requires Resolved(p) && OnGrid(p, x) && span >= 1
    ensures RollingWindows(p, scope, x, m, maxCount, span)
       <==> WindowsBounded(p, scope, x, m, maxCount, span)
            && (WindowLength(p, scope) < span ==> |Assigned(p, scope, x, m)| <= maxCount)
  {
    hide Between, Assigned, Admits;
    if RollingWindows(p, scope, x, m, maxCount, span) {
      forall d | InWindow(p, scope, d) && InWindow(p, scope, d + span - 1)
        ensures |Between(p, scope, x, m, d, d + span - 1)| <= maxCount
      {
        FromFirstDay(p, scope, x, m, maxCount, span, d, d + span - 1);
      }
      if WindowLength(p, scope) < span { RollingBoundsTotal(p, scope, x, m, maxCount, span); }
    }
    if WindowsBounded(p, scope, x, m, maxCount, span)
       && (WindowLength(p, scope) < span ==> |Assigned(p, scope, x, m)| <= maxCount) {
      forall d | WorksOn(p, scope, x, m, d) ensures |Between(p, scope, x, m, d, d + span - 1)| <= maxCount {
        WorkedInWindow(p, scope, x, m, d);
        SomeWholeWindow(p, scope, x, m, maxCount, span, d);
      }
    }
  }

  lemma WorkedInWindow(p: Problem, scope: Scope, x: set<Cell>, m: Id, d: int)
    requires WorksOn(p, scope, x, m, d)
    ensures InWindow(p, scope, d)
  {
  }

  lemma SomeWholeWindow(p: Problem, scope: Scope, x: set<Cell>, m: Id, maxCount: nat, span: nat, d: int)
    requires OnGrid(p, x) && span >= 1 && InWindow(p, scope, d)
    requires WindowsBounded(p, scope, x, m, maxCount, span)
    requires WindowLength(p, scope) < span ==> |Assigned(p, scope, x, m)| <= maxCount
    ensures |Between(p, scope, x, m, d, d + span - 1)| <= maxCount
  {
    var end := WindowEnd(p, scope);
    if WindowLength(p, scope) < span {
      SubsetSize(Between(p, scope, x, m, d, d + span - 1), Assigned(p, scope, x, m));
    } else {
      var from := if d + span - 1 <= end then d else end - span + 1;
      BetweenGrows(p, scope, x, m, d, d + span - 1, from, from + span - 1);
      assert InWindow(p, scope, from) && InWindow(p, scope, from + span - 1);
    }
  }

  ghost predicate Rolling(p: Problem, scope: Scope, x: set<Cell>, maxCount: nat, span: nat) {
    forall m :: m in p.members ==> RollingWindows(p, scope, x, m, maxCount, span)
  }

  /** On all schedules the two agree exactly if the accounting window is as long as the rule's, or no
      member has more scoped cells than the rule allows assignments. */
  lemma WindowsAgreeIff(p: Problem, scope: Scope, maxCount: nat, span: nat)
    requires Resolved(p) && Modellable(p, Hard("", scope, MaxAssignmentsInWindow(maxCount, span)))
    ensures (forall x :: OnGrid(p, x) ==>
              (Accepts(p, scope, MaxAssignmentsInWindow(maxCount, span), x) <==> Rolling(p, scope, x, maxCount, span)))
       <==> WindowLength(p, scope) >= span || forall m :: m in p.members ==>
         |Assigned(p, scope, Cells(p), m)| <= maxCount
  {
    hide RollingWindows, WindowsBounded, Assigned, WindowLength, InWindow;
    forall x, m | OnGrid(p, x)
      ensures RollingWindows(p, scope, x, m, maxCount, span)
         <==> WindowsBounded(p, scope, x, m, maxCount, span)
              && (WindowLength(p, scope) < span ==> |Assigned(p, scope, x, m)| <= maxCount)
    {
      WindowsAgreeAt(p, scope, x, m, maxCount, span);
    }
    forall x, m | OnGrid(p, x) ensures |Assigned(p, scope, x, m)| <= |Assigned(p, scope, Cells(p), m)| {
      FewerAssigned(p, scope, x, m);
    }
    if WindowLength(p, scope) < span {
      forall x, m ensures WindowsBounded(p, scope, x, m, maxCount, span) {
        NoWholeWindow(p, scope, x, m, maxCount, span);
      }
      assert OnGrid(p, Cells(p));
    }
  }

  lemma FewerAssigned(p: Problem, scope: Scope, x: set<Cell>, m: Id)
    requires OnGrid(p, x)
    ensures |Assigned(p, scope, x, m)| <= |Assigned(p, scope, Cells(p), m)|
  {
    SubsetSize(Assigned(p, scope, x, m), Assigned(p, scope, Cells(p), m));
  }

  lemma NoWholeWindow(p: Problem, scope: Scope, x: set<Cell>, m: Id, maxCount: nat, span: nat)
    requires WindowLength(p, scope) < span
    ensures WindowsBounded(p, scope, x, m, maxCount, span)
  {
  }

  /** One member, one shift type, and a horizon of two days. */
  function TwoDays(): Problem {
    Problem(0, 1, [0], map[0 := "D"], map["D" := 0], map[0 := false], map[0 := Times(480, 960, false)], map[],
            [7], {(7, 0)}, map[], map[], map[], map[], map[], map[], {}, [])
  }

  /** At most one assignment in seven days, and the worker takes both days of a two-day horizon. */
  lemma OverTheRollingMaximum() returns (x: set<Cell>)
    ensures Resolved(TwoDays()) && OnGrid(TwoDays(), x)
    ensures Accepts(TwoDays(), EVERYTHING, MaxAssignmentsInWindow(1, 7), x)
    ensures !Rolling(TwoDays(), EVERYTHING, x, 1, 7)
  {
    var p := TwoDays();
    var first, second := Cell(7, 0, 0), Cell(7, 1, 0);
    x := {first, second};
    assert 7 in p.members && 0 in p.shiftIds;
    assert Between(p, EVERYTHING, x, 7, 0, 6) == x && |x| == 2;
    assert WorksOn(p, EVERYTHING, x, 7, 0);
    assert !RollingWindows(p, EVERYTHING, x, 7, 1, 7);
  }

  // ---------------------------------------------------------------- chronological order

  /** The catalogue's own check: a shift ends after it starts, the next day if it crosses midnight. */
  predicate SaneTimes(p: Problem) {
    forall s :: s in p.shiftIds ==> s in p.times && SaneTime(p.times[s])
  }

  predicate SaneTime(t: Times) {
    0 <= t.start < DAY_MINUTES && 0 <= t.end < DAY_MINUTES && (t.crossesMidnight <==> t.end <= t.start)
  }

  /** Any minute of the day may start a shift and end it, on the day exactly if it is a later one. */
  lemma AnyMinuteIsSane(start: int, end: int)
    ensures 0 <= start <= 1439 && 0 <= end <= 1439 ==> SaneTime(Times(start, end, !(start < end)))
  {
  }

  /** The list is the assignments, each once, by start instant. */
  ghost predicate Chronological(p: Problem, cs: set<Cell>, list: seq<Cell>)
    requires SaneTimes(p) && forall c :: c in cs ==> c.s in p.shiftIds
  {
    && NoDup(list)
    && (forall c :: c in list <==> c in cs)
    && forall i, j :: 0 <= i < j < |list| ==>
      list[i] in cs && list[j] in cs && StartsAt(p, list[i]) <= StartsAt(p, list[j])
  }

  /** Some assignment starts as late as any. */
  lemma {:induction false} LatestOf(p: Problem, cs: set<Cell>) returns (last: Cell)
    requires SaneTimes(p) && (forall c :: c in cs ==> c.s in p.shiftIds) && cs != {}
    ensures last in cs && forall c :: c in cs ==> StartsAt(p, c) <= StartsAt(p, last)
  {
    last :| last in cs;
    var rest := cs - {last};
    if rest != {} {
      var other := LatestOf(p, rest);
      if StartsAt(p, other) > StartsAt(p, last) { last := other; }
    }
  }

  /** Any assignments can be listed that way, also ones that start together. */
  lemma {:induction false} CanBeListed(p: Problem, cs: set<Cell>) returns (list: seq<Cell>)
    requires SaneTimes(p) && forall c :: c in cs ==> c.s in p.shiftIds
    ensures Chronological(p, cs, list)
  {
    if cs == {} {
      list := [];
    } else {
      var last := LatestOf(p, cs);
      var before := CanBeListed(p, cs - {last});
      hide StartsAt;
      list := before + [last];
      assert forall i :: 0 <= i < |before| ==> before[i] in cs - {last};
    }
  }

  // ---------------------------------------------------------------- MinimumRestBetween

  /** What the checker compares: each assignment with the one before it. */
  ghost predicate AdjacentRested(p: Problem, minMinutes: int, list: seq<Cell>)
    requires forall c :: c in list ==> c.s in p.times
  {
    forall i :: 0 < i < |list| ==> StartsAt(p, list[i]) - EndsAt(p, list[i - 1]) >= minMinutes
  }

  /** Enough rest between any two assignments, at any distance. */
  ghost predicate PairwiseRested(p: Problem, minMinutes: int, cs: set<Cell>)
    requires forall c :: c in cs ==> c.s in p.times
  {
    forall a, b :: a in cs && b in cs && a != b && StartsAt(p, a) <= StartsAt(p, b) ==>
      StartsAt(p, b) - EndsAt(p, a) >= minMinutes
  }

  lemma {:induction false} AdjacentReaches(p: Problem, minMinutes: int, cs: set<Cell>, list: seq<Cell>, i: nat, j: nat)
    requires SaneTimes(p) && minMinutes > 0 && forall c :: c in cs ==> c.s in p.shiftIds
    requires Chronological(p, cs, list) && AdjacentRested(p, minMinutes, list) && i < j < |list|
    ensures StartsAt(p, list[j]) - EndsAt(p, list[i]) >= minMinutes
  {
    assert list[i] in list && list[j] in list && list[j - 1] in list;
    assert SaneTime(p.times[list[j - 1].s]);
    if i < j - 1 {
      AdjacentReaches(p, minMinutes, cs, list, i, j - 1);
    }
  }

  lemma AdjacentIsPairwise(p: Problem, minMinutes: int, cs: set<Cell>, list: seq<Cell>)
    requires SaneTimes(p) && minMinutes > 0 && forall c :: c in cs ==> c.s in p.shiftIds
    requires Chronological(p, cs, list)
    ensures AdjacentRested(p, minMinutes, list) <==> PairwiseRested(p, minMinutes, cs)
  {
    if AdjacentRested(p, minMinutes, list) {
      forall a, b | a in cs && b in cs && a != b && StartsAt(p, a) <= StartsAt(p, b)
        ensures StartsAt(p, b) - EndsAt(p, a) >= minMinutes
      {
        var i :| 0 <= i < |list| && list[i] == a;
        var j :| 0 <= j < |list| && list[j] == b;
        if i < j {
          AdjacentReaches(p, minMinutes, cs, list, i, j);
        } else {
          assert SaneTime(p.times[b.s]);
          AdjacentReaches(p, minMinutes, cs, list, j, i);
          assert false;
        }
      }
    }
    if PairwiseRested(p, minMinutes, cs) {
      forall i | 0 < i < |list| ensures StartsAt(p, list[i]) - EndsAt(p, list[i - 1]) >= minMinutes {
        assert list[i - 1] in list && list[i] in list && list[i - 1] != list[i];
      }
    }
  }

  /** On one date, shift ids follow start times. */
  ghost predicate IdsFollowStarts(p: Problem, cs: set<Cell>)
    requires forall c :: c in cs ==> c.s in p.times
  {
    forall a, b :: a in cs && b in cs && a.d == b.d && a.s < b.s ==> StartsAt(p, a) <= StartsAt(p, b)
  }

  /** Pairs further apart than the cut-off rest long enough anyway. */
  lemma BeyondReach(p: Problem, minMinutes: int, a: Cell, b: Cell)
    requires a.s in p.times && b.s in p.times && SaneTime(p.times[a.s]) && SaneTime(p.times[b.s])
    requires b.d - a.d > RestReach(minMinutes)
    ensures StartsAt(p, b) - EndsAt(p, a) >= minMinutes
  {
  }

  /** One member's assignments keep the posted pairs apart exactly if all of them rest enough and,
      on each date, the shift ids come in start order. */
  lemma MemberRested(p: Problem, minMinutes: int, cs: set<Cell>, m: Id)
    requires SaneTimes(p) && minMinutes > 0 && forall c :: c in cs ==> c.s in p.shiftIds && c.m == m
    ensures PairsRested(p, minMinutes, cs)
       <==> PairwiseRested(p, minMinutes, cs) && IdsFollowStarts(p, cs)
  {
    assert forall c :: c in cs ==> SaneTime(p.times[c.s]) && StartsAt(p, c) < EndsAt(p, c);
    if PairsRested(p, minMinutes, cs) {
      forall a, b | a in cs && b in cs && a != b && StartsAt(p, a) <= StartsAt(p, b)
        ensures StartsAt(p, b) - EndsAt(p, a) >= minMinutes
      {
        assert a.d <= b.d;
        if a.d == b.d {
          assert a.s != b.s;
          assert RestPair(minMinutes, a, b) || RestPair(minMinutes, b, a);
        } else if b.d - a.d > RestReach(minMinutes) {
          BeyondReach(p, minMinutes, a, b);
        } else {
          assert RestPair(minMinutes, a, b);
        }
      }
      forall a, b | a in cs && b in cs && a.d == b.d && a.s < b.s ensures StartsAt(p, a) <= StartsAt(p, b) {
        assert RestPair(minMinutes, a, b);
      }
    }
    if PairwiseRested(p, minMinutes, cs) && IdsFollowStarts(p, cs) {
      forall a, b | a in cs && b in cs && RestPair(minMinutes, a, b) ensures !TooClose(p, minMinutes, a, b) {
        assert a.d < b.d ==> StartsAt(p, a) <= StartsAt(p, b);
      }
    }
  }

  ghost predicate PairsRested(p: Problem, minMinutes: int, cs: set<Cell>) {
    forall a, b :: a in cs && b in cs && RestPair(minMinutes, a, b) ==> !TooClose(p, minMinutes, a, b)
  }

  lemma RestedByMember(p: Problem, scope: Scope, x: set<Cell>, minMinutes: int)
    requires Resolved(p) && OnGrid(p, x)
    ensures Rested(p, scope, x, minMinutes)
       <==> forall m :: m in p.members ==> PairsRested(p, minMinutes, Assigned(p, scope, x, m))
  {
  }

  /** One chronological list for each member. */
  ghost predicate ListsOf(p: Problem, scope: Scope, x: set<Cell>, lists: map<Id, seq<Cell>>)
    requires SaneTimes(p) && OnGrid(p, x)
  {
    forall m :: m in p.members ==> m in lists && Chronological(p, Assigned(p, scope, x, m), lists[m])
  }

  /** The checker's verdict on one member, and what the worker adds to it. */
  ghost predicate MemberAgrees(p: Problem, scope: Scope, x: set<Cell>, minMinutes: int, m: Id, list: seq<Cell>)
    requires SaneTimes(p) && OnGrid(p, x) && Chronological(p, Assigned(p, scope, x, m), list)
  {
    AdjacentRested(p, minMinutes, list) && IdsFollowStarts(p, Assigned(p, scope, x, m))
  }

  /** The posted rest rule against the checker's on one schedule, over any chronological lists. */
  lemma RestAgreesAt(p: Problem, scope: Scope, x: set<Cell>, minMinutes: int, lists: map<Id, seq<Cell>>)
    requires Resolved(p) && OnGrid(p, x) && SaneTimes(p) && minMinutes > 0 && ListsOf(p, scope, x, lists)
    ensures Rested(p, scope, x, minMinutes)
       <==> forall m :: m in p.members ==> MemberAgrees(p, scope, x, minMinutes, m, lists[m])
  {
    RestedByMember(p, scope, x, minMinutes);
    forall m | m in p.members
      ensures PairsRested(p, minMinutes, Assigned(p, scope, x, m)) <==>
                MemberAgrees(p, scope, x, minMinutes, m, lists[m])
    {
      MemberRested(p, minMinutes, Assigned(p, scope, x, m), m);
      AdjacentIsPairwise(p, minMinutes, Assigned(p, scope, x, m), lists[m]);
    }
  }

  /** The checker finds enough rest in every member's list. */
  ghost predicate AllRested(p: Problem, scope: Scope, x: set<Cell>, minMinutes: int, lists: map<Id, seq<Cell>>)
    requires SaneTimes(p) && OnGrid(p, x) && ListsOf(p, scope, x, lists)
  {
    forall m :: m in p.members ==> AdjacentRested(p, minMinutes, lists[m])
  }

  /** Two cells of a member and date of which the one with the larger id comes well before the other. */
  predicate RestsInReverse(p: Problem, scope: Scope, minMinutes: int, a: Cell, b: Cell) {
    && IsCell(p, a) && IsCell(p, b) && Admits(p, scope, a) && Admits(p, scope, b)
    && a.m == b.m && a.d == b.d && a.s < b.s
    && a.s in p.times && b.s in p.times && StartsAt(p, a) - EndsAt(p, b) >= minMinutes
  }

  /** On all schedules the two agree exactly if no member and date has two scoped cells that rest enough
      only against the order of their ids. */
  lemma RestAgreesIff(p: Problem, scope: Scope, minMinutes: int)
    requires Resolved(p) && SaneTimes(p) && minMinutes > 0
    requires Modellable(p, Hard("", scope, MinimumRestBetween(minMinutes)))
    ensures (forall x, lists :: OnGrid(p, x) && ListsOf(p, scope, x, lists) ==>
              (Accepts(p, scope, MinimumRestBetween(minMinutes), x) <==> AllRested(p, scope, x, minMinutes, lists)))
       <==> forall a, b :: !RestsInReverse(p, scope, minMinutes, a, b)
  {
    hide Rested, AllRested, ListsOf, RestsInReverse, Resolved, SaneTimes, OnGrid;
    if a, b :| RestsInReverse(p, scope, minMinutes, a, b) {
      var x, lists := ReverseRefused(p, scope, minMinutes, a, b);
    } else {
      forall x, lists | OnGrid(p, x) && ListsOf(p, scope, x, lists)
        ensures Rested(p, scope, x, minMinutes) <==> AllRested(p, scope, x, minMinutes, lists)
      {
        RestAgreesWithout(p, scope, x, minMinutes, lists);
      }
    }
  }

  lemma RestAgreesWithout(p: Problem, scope: Scope, x: set<Cell>, minMinutes: int, lists: map<Id, seq<Cell>>)
    requires Resolved(p) && OnGrid(p, x) && SaneTimes(p) && minMinutes > 0 && ListsOf(p, scope, x, lists)
    requires forall a, b :: !RestsInReverse(p, scope, minMinutes, a, b)
    ensures Rested(p, scope, x, minMinutes) <==> AllRested(p, scope, x, minMinutes, lists)
  {
    hide Rested, Admits;
    RestAgreesAt(p, scope, x, minMinutes, lists);
    forall m | m in p.members && AdjacentRested(p, minMinutes, lists[m])
      ensures IdsFollowStarts(p, Assigned(p, scope, x, m))
    {
      IdsInOrder(p, scope, x, minMinutes, m, lists[m]);
    }
  }

  lemma IdsInOrder(p: Problem, scope: Scope, x: set<Cell>, minMinutes: int, m: Id, list: seq<Cell>)
    requires Resolved(p) && OnGrid(p, x) && SaneTimes(p) && minMinutes > 0
    requires Chronological(p, Assigned(p, scope, x, m), list) && AdjacentRested(p, minMinutes, list)
    requires forall a, b :: !RestsInReverse(p, scope, minMinutes, a, b)
    ensures IdsFollowStarts(p, Assigned(p, scope, x, m))
  {
    AdjacentIsPairwise(p, minMinutes, Assigned(p, scope, x, m), list);
    hide Chronological, AdjacentRested, Admits;
    forall a, b | a in Assigned(p, scope, x, m) && b in Assigned(p, scope, x, m) && a.d == b.d && a.s < b.s
      ensures StartsAt(p, a) <= StartsAt(p, b)
    {
      assert !RestsInReverse(p, scope, minMinutes, a, b);
    }
  }

  /** Such a pair alone is a schedule whose neighbours rest and which the worker refuses. */
  lemma ReverseRefused(p: Problem, scope: Scope, minMinutes: int, a: Cell, b: Cell)
      returns (x: set<Cell>, lists: map<Id, seq<Cell>>)
    requires Resolved(p) && SaneTimes(p) && minMinutes > 0 && RestsInReverse(p, scope, minMinutes, a, b)
    ensures x == {a, b} && OnGrid(p, x) && ListsOf(p, scope, x, lists)
    ensures AllRested(p, scope, x, minMinutes, lists) && !Rested(p, scope, x, minMinutes)
  {
    hide Chronological, Rested;
    x := {a, b};
    lists := map m | m in p.members :: if m == a.m then [b, a] else [];
    forall m | m in p.members ensures Chronological(p, Assigned(p, scope, x, m), lists[m]) {
      PairInOrder(p, scope, minMinutes, a, b, m);
    }
    ReversePairRefused(p, scope, minMinutes, a, b);
  }

  lemma ReversePairRefused(p: Problem, scope: Scope, minMinutes: int, a: Cell, b: Cell)
    requires SaneTimes(p) && minMinutes > 0 && RestsInReverse(p, scope, minMinutes, a, b)
    ensures !Rested(p, scope, {a, b}, minMinutes)
  {
    hide Admits;
    assert SaneTime(p.times[a.s]) && SaneTime(p.times[b.s]);
    assert Together(p, scope, {a, b}, a, b) && RestPair(minMinutes, a, b) && TooClose(p, minMinutes, a, b);
  }

  lemma PairInOrder(p: Problem, scope: Scope, minMinutes: int, a: Cell, b: Cell, m: Id)
    requires Resolved(p) && SaneTimes(p) && minMinutes > 0 && RestsInReverse(p, scope, minMinutes, a, b)
    ensures Chronological(p, Assigned(p, scope, {a, b}, m), if m == a.m then [b, a] else [])
  {
    hide Admits;
    assert SaneTime(p.times[a.s]) && SaneTime(p.times[b.s]);
    if m == a.m {
      assert Assigned(p, scope, {a, b}, m) == {a, b};
    } else {
      assert Assigned(p, scope, {a, b}, m) == {};
    }
  }

  /** A day with a morning shift of a larger id than the afternoon's. */
  function MorningAndAfternoon(): Problem {
    Problem(0, 0, [1, 2], map[1 := "P", 2 := "A"], map["P" := 1, "A" := 2], map[1 := false, 2 := false],
            map[1 := Times(840, 1080, false), 2 := Times(360, 720, false)], map[], [7], {(7, 1), (7, 2)},
            map[], map[], map[], map[], map[], map[], {}, [])
  }

  lemma AfternoonIsFirstById()
    ensures Resolved(MorningAndAfternoon()) && SaneTimes(MorningAndAfternoon())
    ensures RestsInReverse(MorningAndAfternoon(), EVERYTHING, 60, Cell(7, 0, 1), Cell(7, 0, 2))
  {
    var p := MorningAndAfternoon();
    assert 7 in p.members && 1 in p.shiftIds && 2 in p.shiftIds;
  }

  /** Two hours lie between the shifts, one is asked for, and the worker refuses them. */
  lemma RestedNeighboursRefused() returns (x: set<Cell>, lists: map<Id, seq<Cell>>)
    ensures var p := MorningAndAfternoon();
            Resolved(p) && SaneTimes(p) && OnGrid(p, x) && ListsOf(p, EVERYTHING, x, lists)
            && AllRested(p, EVERYTHING, x, 60, lists) && !Accepts(p, EVERYTHING, MinimumRestBetween(60), x)
  {
    AfternoonIsFirstById();
    hide Resolved, SaneTimes, OnGrid, ListsOf, AllRested, Rested, RestsInReverse, MorningAndAfternoon;
    x, lists := ReverseRefused(MorningAndAfternoon(), EVERYTHING, 60, Cell(7, 0, 1), Cell(7, 0, 2));
  }

  /** With at most one assignment per member and date, ids cannot be out of order. */
  lemma OnePerDateFollows(p: Problem, cs: set<Cell>)
    requires forall c :: c in cs ==> c.s in p.times
    requires forall a, b :: a in cs && b in cs && a.d == b.d && a.m == b.m ==> a == b
    requires forall a, b :: a in cs && b in cs ==> a.m == b.m
    ensures IdsFollowStarts(p, cs)
  {
  }

  // ---------------------------------------------------------------- CallSpacing

  ghost function Calls(p: Problem, scope: Scope, x: set<Cell>, m: Id): set<Cell> {
    set c | c in x && c.m == m && Admits(p, scope, c) && OnCall(p, c.s)
  }

  ghost predicate AdjacentSpaced(minDays: int, list: seq<Cell>) {
    forall i :: 0 < i < |list| ==> list[i].d - list[i - 1].d >= minDays
  }

  lemma {:induction false} SpacingReaches(minDays: int, list: seq<Cell>, i: nat, j: nat)
    requires minDays > 0 && AdjacentSpaced(minDays, list) && i < j < |list|
    ensures list[j].d - list[i].d >= minDays
  {
    if i < j - 1 {
      SpacingReaches(minDays, list, i, j - 1);
    }
  }

  /** The posted call pairs with the early break, against the checker's consecutive calls. */
  lemma CallSpacingAgrees(p: Problem, scope: Scope, x: set<Cell>, minDays: int, lists: map<Id, seq<Cell>>)
    requires Resolved(p) && OnGrid(p, x) && SaneTimes(p) && minDays > 0
    requires forall m :: m in p.members ==> m in lists && Chronological(p, Calls(p, scope, x, m), lists[m])
    ensures CallsSpaced(p, scope, x, minDays) <==> forall m :: m in p.members ==> AdjacentSpaced(minDays, lists[m])
  {
    hide Chronological;
    if CallsSpaced(p, scope, x, minDays) {
      forall m | m in p.members ensures AdjacentSpaced(minDays, lists[m]) {
        CallsAreApart(p, scope, x, minDays, m, lists[m]);
      }
    }
    if forall m :: m in p.members ==> AdjacentSpaced(minDays, lists[m]) {
      forall a, b | Together(p, scope, x, a, b) && OnCall(p, a.s) && OnCall(p, b.s) && a.m == b.m && a != b
        && a.d <= b.d
        ensures a.d < b.d && b.d - a.d >= minDays
      {
        TwoCallsApart(p, scope, x, minDays, lists[a.m], a, b);
      }
    }
  }

  lemma CallsAreApart(p: Problem, scope: Scope, x: set<Cell>, minDays: int, m: Id, list: seq<Cell>)
    requires Resolved(p) && OnGrid(p, x) && SaneTimes(p) && Chronological(p, Calls(p, scope, x, m), list)
    requires CallsSpaced(p, scope, x, minDays)
    ensures AdjacentSpaced(minDays, list)
  {
    hide Admits;
    forall i | 0 < i < |list| ensures list[i].d - list[i - 1].d >= minDays {
      var a, b := list[i - 1], list[i];
      assert a in list && b in list && a != b;
      assert Together(p, scope, x, a, b);
      assert SaneTime(p.times[a.s]) && SaneTime(p.times[b.s]) && StartsAt(p, a) <= StartsAt(p, b);
      assert a.d <= b.d;
    }
  }

  lemma TwoCallsApart(p: Problem, scope: Scope, x: set<Cell>, minDays: int, list: seq<Cell>, a: Cell, b: Cell)
    requires SaneTimes(p) && OnGrid(p, x) && minDays > 0 && Chronological(p, Calls(p, scope, x, a.m), list)
    requires Together(p, scope, x, a, b) && OnCall(p, a.s) && OnCall(p, b.s) && a.m == b.m && a != b && a.d <= b.d
    requires AdjacentSpaced(minDays, list)
    ensures b.d - a.d >= minDays
  {
    hide Admits, SaneTimes, AdjacentSpaced;
    assert a in Calls(p, scope, x, a.m) && b in Calls(p, scope, x, a.m);
    var i :| 0 <= i < |list| && list[i] == a;
    var j :| 0 <= j < |list| && list[j] == b;
    if i < j { SpacingReaches(minDays, list, i, j); } else { SpacingReaches(minDays, list, j, i); }
  }

  // ---------------------------------------------------------------- the linkage kinds and PatternRule

  /** What the checker asks, with no look at which cells exist. */
  ghost predicate Linked(p: Problem, scope: Scope, x: set<Cell>, names: seq<Code>) {
    forall m, d :: AllOrNone(p, scope, x, m, d, names)
  }

  ghost predicate Implied(p: Problem, scope: Scope, x: set<Cell>, a: Code, b: Code) {
    forall m, d :: WorksCode(p, scope, x, m, d, a) ==> WorksCode(p, scope, x, m, d, b)
  }

  ghost predicate Exclusive(p: Problem, scope: Scope, x: set<Cell>, names: seq<Code>) {
    forall m, d :: AtMostOne(p, scope, x, m, d, names)
  }

  ghost predicate HasNone(p: Problem, scope: Scope, m: Id, d: int, names: seq<Code>) {
    forall i :: 0 <= i < |names| ==> !HasCode(p, scope, m, d, names[i])
  }

  ghost predicate HasAtMostOne(p: Problem, scope: Scope, m: Id, d: int, names: seq<Code>) {
    forall i, j :: 0 <= i < j < |names| ==> !(HasCode(p, scope, m, d, names[i]) && HasCode(p, scope, m, d, names[j]))
  }

  lemma LinkedGap(p: Problem, scope: Scope, names: seq<Code>, m: Id, d: int) returns (x: set<Cell>)
    requires Resolved(p) && Modellable(p, Hard("", scope, LinkedShifts(names)))
    requires !HasAll(p, scope, m, d, names) && !HasNone(p, scope, m, d, names)
    ensures OnGrid(p, x) && Accepts(p, scope, LinkedShifts(names), x) && !Linked(p, scope, x, names)
  {
    var i :| 0 <= i < |names| && HasCode(p, scope, m, d, names[i]);
    var j :| 0 <= j < |names| && !HasCode(p, scope, m, d, names[j]);
    x := {Cell(m, d, p.idOfCode[names[i]])};
    assert WorksCode(p, scope, x, m, d, names[i]) && !WorksCode(p, scope, x, m, d, names[j]);
    assert !AllOrNone(p, scope, x, m, d, names);
    forall n, e | n != m || e != d ensures AllOrNone(p, scope, x, n, e, names) {
    }
  }

  /** The worker posts no link on a date where a named cell is missing. It accepts the checker's
      schedules, and no others, exactly if all or none of the cells exist on every date. */
  lemma LinkedAgreesIff(p: Problem, scope: Scope, names: seq<Code>)
    requires Resolved(p) && Modellable(p, Hard("", scope, LinkedShifts(names)))
    ensures (forall x :: OnGrid(p, x) ==> (Accepts(p, scope, LinkedShifts(names), x) <==> Linked(p, scope, x, names)))
       <==> (forall m, d :: HasAll(p, scope, m, d, names) || HasNone(p, scope, m, d, names))
  {
    if m, d :| !HasAll(p, scope, m, d, names) && !HasNone(p, scope, m, d, names) {
      var x := LinkedGap(p, scope, names, m, d);
    } else {
      forall x, m, d | OnGrid(p, x) && HasNone(p, scope, m, d, names) ensures AllOrNone(p, scope, x, m, d, names) {
        WorkedExists(p, scope, x, m, d);
      }
    }
  }

  lemma WorkedExists(p: Problem, scope: Scope, x: set<Cell>, m: Id, d: int)
    requires OnGrid(p, x)
    ensures forall code :: WorksCode(p, scope, x, m, d, code) ==> HasCode(p, scope, m, d, code)
  {
  }

  lemma ImpliedAgreesIff(p: Problem, scope: Scope, a: Code, b: Code)
    requires Resolved(p) && Modellable(p, Hard("", scope, ImpliesAssignment(a, b)))
    ensures (forall x :: OnGrid(p, x) ==>
              (Accepts(p, scope, ImpliesAssignment(a, b), x) <==> Implied(p, scope, x, a, b)))
       <==> (forall m, d :: HasCode(p, scope, m, d, a) ==> HasCode(p, scope, m, d, b))
  {
    BothCodes(p, scope, a, b);
    if forall m, d :: HasCode(p, scope, m, d, a) ==> HasCode(p, scope, m, d, b) {
      forall x | OnGrid(p, x) && Accepts(p, scope, ImpliesAssignment(a, b), x) ensures Implied(p, scope, x, a, b) {
        forall m, d | WorksCode(p, scope, x, m, d, a) ensures WorksCode(p, scope, x, m, d, b) {
          WorkedExists(p, scope, x, m, d);
        }
      }
    } else {
      var m, d :| HasCode(p, scope, m, d, a) && !HasCode(p, scope, m, d, b);
      var x := {Cell(m, d, p.idOfCode[a])};
      assert OnGrid(p, x);
      WorkedExists(p, scope, x, m, d);
      assert WorksCode(p, scope, x, m, d, a) && !WorksCode(p, scope, x, m, d, b);
      assert forall n, e :: WorksCode(p, scope, x, n, e, a) ==> n == m && e == d;
      assert Accepts(p, scope, ImpliesAssignment(a, b), x);
    }
  }

  lemma BothCodes(p: Problem, scope: Scope, a: Code, b: Code)
    ensures forall m, d :: HasAll(p, scope, m, d, [a, b]) <==> HasCode(p, scope, m, d, a) && HasCode(p, scope, m, d, b)
  {
    forall m, d ensures HasAll(p, scope, m, d, [a, b]) <==> HasCode(p, scope, m, d, a) && HasCode(p, scope, m, d, b) {
      assert [a, b][0] == a && [a, b][1] == b;
      if HasAll(p, scope, m, d, [a, b]) {
        assert HasCode(p, scope, m, d, [a, b][0]) && HasCode(p, scope, m, d, [a, b][1]);
      }
    }
  }

  lemma NoneElsewhere(p: Problem, scope: Scope, x: set<Cell>, m: Id, d: int, n: Id, e: int)
    requires (n != m || e != d) && forall c :: c in x ==> c.m == m && c.d == d
    ensures forall code :: !WorksCode(p, scope, x, n, e, code)
  {
  }

  lemma ExclusiveGap(p: Problem, scope: Scope, names: seq<Code>, m: Id, d: int) returns (x: set<Cell>)
    requires Resolved(p) && Modellable(p, Hard("", scope, MutuallyExclusive(names)))
    requires !HasAll(p, scope, m, d, names) && !HasAtMostOne(p, scope, m, d, names)
    ensures OnGrid(p, x) && Accepts(p, scope, MutuallyExclusive(names), x) && !Exclusive(p, scope, x, names)
  {
    hide Admits;
    var i, j :| 0 <= i < j < |names| && HasCode(p, scope, m, d, names[i]) && HasCode(p, scope, m, d, names[j]);
    x := {Cell(m, d, p.idOfCode[names[i]]), Cell(m, d, p.idOfCode[names[j]])};
    assert WorksCode(p, scope, x, m, d, names[i]) && WorksCode(p, scope, x, m, d, names[j]);
    assert !AtMostOne(p, scope, x, m, d, names);
    assert forall c :: c in x ==> c.m == m && c.d == d;
    forall n, e | n != m || e != d ensures AtMostOne(p, scope, x, n, e, names) {
      NoneElsewhere(p, scope, x, m, d, n, e);
    }
  }

  /** Nothing is posted either where one of the exclusive cells is missing; with three names the other
      two may then be taken together. */
  lemma ExclusiveAgreesIff(p: Problem, scope: Scope, names: seq<Code>)
    requires Resolved(p) && Modellable(p, Hard("", scope, MutuallyExclusive(names)))
    ensures (forall x :: OnGrid(p, x) ==>
              (Accepts(p, scope, MutuallyExclusive(names), x) <==> Exclusive(p, scope, x, names)))
       <==> (forall m, d :: HasAll(p, scope, m, d, names) || HasAtMostOne(p, scope, m, d, names))
  {
    if m, d :| !HasAll(p, scope, m, d, names) && !HasAtMostOne(p, scope, m, d, names) {
      var x := ExclusiveGap(p, scope, names, m, d);
    } else {
      forall x, m, d | OnGrid(p, x) && HasAtMostOne(p, scope, m, d, names) ensures AtMostOne(p, scope, x, m, d, names) {
        WorkedExists(p, scope, x, m, d);
      }
    }
  }

  ghost predicate SegmentKept(p: Problem, scope: Scope, x: set<Cell>, m: Id, target: int, code: Code) {
    p.start <= target <= p.end ==> WorksCode(p, scope, x, m, target, code)
  }

  ghost predicate PatternKept(p: Problem, scope: Scope, x: set<Cell>, trigger: Code, days: set<Weekday>,
                              segments: seq<Segment>) {
    forall m, d, i :: WorksCode(p, scope, x, m, d, trigger) && WeekdayOfDay(d) in days && 0 <= i < |segments| ==>
      SegmentKept(p, scope, x, m, d + segments[i].offsetDays, segments[i].shiftType)
  }

  /** A trigger cell whose every segment inside the horizon has a cell. */
  ghost predicate TailsExist(p: Problem, scope: Scope, m: Id, d: int, trigger: Code, days: set<Weekday>,
                             segments: seq<Segment>) {
    HasCode(p, scope, m, d, trigger) && WeekdayOfDay(d) in days ==>
      forall i :: 0 <= i < |segments| && p.start <= d + segments[i].offsetDays <= p.end ==>
        HasCode(p, scope, m, d + segments[i].offsetDays, segments[i].shiftType)
  }

  lemma PatternAgreesIff(p: Problem, scope: Scope, trigger: Code, days: set<Weekday>, segments: seq<Segment>)
    requires Resolved(p)
    ensures (forall x :: OnGrid(p, x) ==>
              (Patterned(p, scope, x, trigger, days, segments) <==> PatternKept(p, scope, x, trigger, days, segments)))
       <==> (forall m, d :: TailsExist(p, scope, m, d, trigger, days, segments))
  {
    if forall m, d :: TailsExist(p, scope, m, d, trigger, days, segments) {
      forall x | OnGrid(p, x) && Patterned(p, scope, x, trigger, days, segments)
        ensures PatternKept(p, scope, x, trigger, days, segments)
      {
        forall m, d, i | WorksCode(p, scope, x, m, d, trigger) && WeekdayOfDay(d) in days && 0 <= i < |segments|
          ensures SegmentKept(p, scope, x, m, d + segments[i].offsetDays, segments[i].shiftType)
        {
          WorkedExists(p, scope, x, m, d);
          assert TailsExist(p, scope, m, d, trigger, days, segments);
          assert Followed(p, scope, x, m, d + segments[i].offsetDays, segments[i].shiftType);
        }
      }
      assert forall x :: PatternKept(p, scope, x, trigger, days, segments) ==>
        Patterned(p, scope, x, trigger, days, segments) by {
        forall x | PatternKept(p, scope, x, trigger, days, segments)
          ensures Patterned(p, scope, x, trigger, days, segments)
        {
          KeptIsPatterned(p, scope, x, trigger, days, segments);
        }
      }
    } else {
      var m, d :| !TailsExist(p, scope, m, d, trigger, days, segments);
      var i :| 0 <= i < |segments| && p.start <= d + segments[i].offsetDays <= p.end
               && !HasCode(p, scope, m, d + segments[i].offsetDays, segments[i].shiftType);
      var x := Cells(p);
      assert OnGrid(p, x);
      assert WorksCode(p, scope, x, m, d, trigger);
      WorkedExists(p, scope, x, m, d + segments[i].offsetDays);
      assert !SegmentKept(p, scope, x, m, d + segments[i].offsetDays, segments[i].shiftType);
      assert Patterned(p, scope, x, trigger, days, segments);
      assert !PatternKept(p, scope, x, trigger, days, segments);
    }
  }

  lemma KeptIsPatterned(p: Problem, scope: Scope, x: set<Cell>, trigger: Code, days: set<Weekday>,
                        segments: seq<Segment>)
    requires PatternKept(p, scope, x, trigger, days, segments)
    ensures Patterned(p, scope, x, trigger, days, segments)
  {
  }

  // ---------------------------------------------------------------- the fixed family

  /** The checker wants every kept prior assignment in the schedule. */
  ghost predicate Preserved(p: Problem, kind: Kind, x: set<Cell>)
    requires Keeps(kind)
  {
    forall i :: 0 <= i < |p.fixed| && Kept(kind, p.fixed[i]) ==> p.fixed[i].cell in x
  }

  lemma PreservedAgreesIff(p: Problem, scope: Scope, kind: Kind)
    requires Resolved(p) && Keeps(kind) && Modellable(p, Hard("", scope, kind))
    ensures (forall x :: OnGrid(p, x) ==> (Accepts(p, scope, kind, x) <==> Preserved(p, kind, x)))
       <==> (forall i :: 0 <= i < |p.fixed| && Kept(kind, p.fixed[i]) ==> IsCell(p, p.fixed[i].cell))
  {
    assert forall x :: Accepts(p, scope, kind, x) <==> KeptIn(p, kind, x, |p.fixed|);
    if i :| 0 <= i < |p.fixed| && Kept(kind, p.fixed[i]) && !IsCell(p, p.fixed[i].cell) {
      var x := Cells(p);
      assert OnGrid(p, x) && KeptIn(p, kind, x, |p.fixed|) && !Preserved(p, kind, x);
    }
  }
}
