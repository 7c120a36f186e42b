/** What each HARD kind asks of a schedule, in the fields of the problem and in numbers. */
module RuleFields {
  import opened Wrappers
  import opened Calendar
  import opened Problems
  import opened LinearModel
  import opened RuleMeaning
  import opened ScopeMeaning
  import opened Compiler

  lemma ScopeInFields(p: Problem, scope: Scope)
    ensures forall c :: Admits(p, scope, c) <==> InScope(p, scope, c)
    ensures forall d :: InWindow(p, scope, d) <==> p.start <= d <= p.end && NamesDate(scope, d)
  {
    forall c ensures Admits(p, scope, c) <==> InScope(p, scope, c) { AdmitsByField(p, scope, c); }
  }

  predicate WindowDate(p: Problem, scope: Scope, d: int) {
    p.start <= d <= p.end && NamesDate(scope, d)
  }

  /** Numbers at the ends of their ranges are modelled: shares of nothing and of everything, one day, one
      minute, and any weight above zero. */
  lemma EndsOfRangesAreModelled(p: Problem, w: Weekday, n: nat, minutes: int, weight: real, percentage: real)
    ensures Modellable(p, Hard("", EVERYTHING, WeekdayFteLimit(w, 0.0)))
    ensures Modellable(p, Hard("", EVERYTHING, WeekdayFteLimit(w, 1.0)))
    ensures Modellable(p, Hard("", EVERYTHING, MaxAssignmentsInWindow(n, 1)))
    ensures minutes >= 1 ==> Modellable(p, Hard("", EVERYTHING, MinimumRestBetween(minutes)))
    ensures TargetInRange(WeekdayTarget(0.0, Some(0)))
    ensures weight > 0.0 ==> Modellable(p, Soft("", EVERYTHING, Unmapped, Some(weight)))
    ensures 0.0 < percentage <= 100.0 ==> Modellable(p, Soft("", EVERYTHING, WorkPercentageTarget(percentage), None))
    ensures (forall s :: s in p.credits ==> p.credits[s] >= 0.0) ==>
              Modellable(p, Soft("", EVERYTHING, CreditDistribution(Credits), None))
    ensures (forall s :: s in p.shiftIds ==> s in p.onCall) ==>
              Modellable(p, Hard("", EVERYTHING, CallSpacing(0)))
              && Modellable(p, Soft("", EVERYTHING, FairnessBalance(CallLoad, Plain), None))
  {
  }

  // ---------------------------------------------------------------- counts

  ghost function HeadCount(p: Problem, scope: Scope, x: set<Cell>, d: int, s: Id): nat {
    |set c | c in x && c.d == d && c.s == s && InScope(p, scope, c)|
  }

  /** A shift type that its code names, and that the scope names. */
  predicate CountedType(p: Problem, scope: Scope, s: Id) {
    s in p.shiftIds && s in p.codeOf && p.codeOf[s] in p.idOfCode && p.idOfCode[p.codeOf[s]] == s
    && NamesCode(p, scope, s)
  }

  /** Coverage rules compare the number of assignments in scope, for every window date and counted shift type. */
  lemma CoverageInFields(p: Problem, scope: Scope, x: set<Cell>, n: int)
    requires Resolved(p) && Modellable(p, Hard("", scope, MinCoverage(n)))
    ensures Accepts(p, scope, MinCoverage(n), x) <==>
              forall d, s :: WindowDate(p, scope, d) && CountedType(p, scope, s) ==> HeadCount(p, scope, x, d, s) >= n
    ensures Accepts(p, scope, MaxCoverage(n), x) <==>
              forall d, s :: WindowDate(p, scope, d) && CountedType(p, scope, s) ==> HeadCount(p, scope, x, d, s) <= n
    ensures Accepts(p, scope, RequiredCount(n), x) <==>
              forall d, s :: WindowDate(p, scope, d) && CountedType(p, scope, s) ==> HeadCount(p, scope, x, d, s) == n
  {
    CoverageIs(p, scope, x, Ge, n);
    CoverageIs(p, scope, x, Le, n);
    CoverageIs(p, scope, x, Eq, n);
    hide Coverage, CountedType, WindowDate, HeadCount;
  }

  lemma CoverageIs(p: Problem, scope: Scope, x: set<Cell>, cmp: Cmp, n: int)
    requires Resolved(p) && forall code :: code in scope.codes ==> code in p.idOfCode
    ensures Coverage(p, scope, x, cmp, n) <==>
              forall d, s :: WindowDate(p, scope, d) && CountedType(p, scope, s) ==>
                Compare(HeadCount(p, scope, x, d, s), cmp, n)
  {
    ScopeInFields(p, scope);
    forall d, s ensures HeadCount(p, scope, x, d, s) == |OnDateShift(p, scope, x, d, s)| {
      assert OnDateShift(p, scope, x, d, s) == set c | c in x && c.d == d && c.s == s && InScope(p, scope, c);
    }
    forall s ensures CountedType(p, scope, s) ==>
                       CoverageCode(p, scope, p.codeOf[s]) && p.idOfCode[p.codeOf[s]] == s
    {
      if CountedType(p, scope, s) { TypeIsCovered(p, scope, s); }
    }
    forall code | CoverageCode(p, scope, code) && code in p.idOfCode ensures CountedType(p, scope, p.idOfCode[code]) {
      CodeIsCounted(p, scope, code);
    }
    hide HeadCount, OnDateShift, CountedType, CoverageCode, InWindow, InScope, Admits, NamesDate, Compare;
  }

  lemma TypeIsCovered(p: Problem, scope: Scope, s: Id)
    requires CountedType(p, scope, s)
    ensures CoverageCode(p, scope, p.codeOf[s])
  {
  }

  lemma CodeIsCounted(p: Problem, scope: Scope, code: Code)
    requires Resolved(p) && CoverageCode(p, scope, code) && code in p.idOfCode
    ensures CountedType(p, scope, p.idOfCode[code])
  {
    assert p.codeOf[p.idOfCode[code]] == code;
    if scope.codes != [] {
      var i :| 0 <= i < |scope.codes| && scope.codes[i] == code;
    }
  }

  /** The member's assignments in scope on the dates `lo` to `hi`, by number. */
  ghost function CountBetween(p: Problem, scope: Scope, x: set<Cell>, m: Id, lo: int, hi: int): nat {
    |set c | c in x && c.m == m && lo <= c.d <= hi && InScope(p, scope, c)|
  }

  /** No `span` window dates in a row have more than `n` of them. */
  lemma WindowsInFields(p: Problem, scope: Scope, x: set<Cell>, n: nat, span: nat)
    requires Resolved(p) && Modellable(p, Hard("", scope, MaxAssignmentsInWindow(n, span)))
    ensures Accepts(p, scope, MaxAssignmentsInWindow(n, span), x) <==>
              forall m, lo, hi ::
                m in p.members && hi == lo + span - 1 && WindowDate(p, scope, lo) && WindowDate(p, scope, hi) ==>
                CountBetween(p, scope, x, m, lo, hi) <= n
  {
    ScopeInFields(p, scope);
    forall m, lo, hi ensures CountBetween(p, scope, x, m, lo, hi) == |Between(p, scope, x, m, lo, hi)| {
      assert Between(p, scope, x, m, lo, hi)
          == set c | c in x && c.m == m && lo <= c.d <= hi && InScope(p, scope, c);
    }
    hide CountBetween, Between, InWindow, InScope, Admits, NamesDate;
    if forall m, lo, hi ::
      m in p.members && hi == lo + span - 1 && WindowDate(p, scope, lo) && WindowDate(p, scope, hi) ==>
      CountBetween(p, scope, x, m, lo, hi) <= n {
      forall m | m in p.members ensures WindowsBounded(p, scope, x, m, n, span) {
        forall d | InWindow(p, scope, d) && InWindow(p, scope, d + span - 1)
          ensures |Between(p, scope, x, m, d, d + span - 1)| <= n
        {
          assert CountBetween(p, scope, x, m, d, d + span - 1) <= n;
        }
      }
    }
  }

  /** The member has an assignment in scope on the date. */
  ghost predicate Busy(p: Problem, scope: Scope, x: set<Cell>, m: Id, d: int) {
    exists c :: c in x && c.m == m && c.d == d && c.s in p.shiftIds && InScope(p, scope, c)
  }

  /** In `k` + 1 window dates in a row there is one the member does not work. */
  lemma RunsInFields(p: Problem, scope: Scope, x: set<Cell>, k: nat)
    requires Resolved(p) && Modellable(p, Hard("", scope, MaxConsecutive(k)))
    ensures Accepts(p, scope, MaxConsecutive(k), x) <==>
              forall m, lo, hi ::
                m in p.members && hi == lo + k && WindowDate(p, scope, lo) && WindowDate(p, scope, hi) ==>
                exists d :: lo <= d <= hi && !Busy(p, scope, x, m, d)
  {
    ScopeInFields(p, scope);
    forall m, d ensures Busy(p, scope, x, m, d) <==> WorksOn(p, scope, x, m, d) {
      BusyIsWorking(p, scope, x, m, d);
    }
    hide Busy, WorksOn, InWindow, InScope, Admits, NamesDate;
    forall m, lo, hi ensures WorksThrough(p, scope, x, m, lo, hi) <==>
                               forall d :: lo <= d <= hi ==> Busy(p, scope, x, m, d)
    {
    }
    hide WorksThrough;
    if forall m, lo, hi ::
      m in p.members && hi == lo + k && WindowDate(p, scope, lo) && WindowDate(p, scope, hi) ==>
      exists d :: lo <= d <= hi && !Busy(p, scope, x, m, d) {
      forall m | m in p.members ensures NoLongRun(p, scope, x, m, k) {
        forall d | InWindow(p, scope, d) && InWindow(p, scope, d + k)
          ensures !WorksThrough(p, scope, x, m, d, d + k)
        {
          assert WindowDate(p, scope, d) && WindowDate(p, scope, d + k);
        }
      }
    }
    if Accepts(p, scope, MaxConsecutive(k), x) {
      forall m, lo, hi | m in p.members && hi == lo + k && WindowDate(p, scope, lo) && WindowDate(p, scope, hi)
        ensures exists d :: lo <= d <= hi && !Busy(p, scope, x, m, d)
      {
        assert NoLongRun(p, scope, x, m, k);
        assert !WorksThrough(p, scope, x, m, lo, lo + k);
      }
    }
  }

  lemma BusyIsWorking(p: Problem, scope: Scope, x: set<Cell>, m: Id, d: int)
    ensures Busy(p, scope, x, m, d) <==> WorksOn(p, scope, x, m, d)
  {
    ScopeInFields(p, scope);
    hide InScope, Admits;
    if c :| c in x && c.m == m && c.d == d && c.s in p.shiftIds && InScope(p, scope, c) {
      assert c == Cell(m, d, c.s);
    }
    if s :| s in p.shiftIds && Cell(m, d, s) in x && Admits(p, scope, Cell(m, d, s)) {
      assert Cell(m, d, s).s in p.shiftIds;
    }
  }

  // ---------------------------------------------------------------- the weekday limit

  /** The smallest whole number that is not below: `k` is within it exactly if `k - 1` is below. */
  lemma RoundedUp(fraction: real, n: nat, k: int)
    ensures k <= Portion(fraction, n) <==> (k - 1) as real < fraction * n as real
  {
    var r := fraction * n as real;
    assert (-r).Floor as real <= -r < (-r).Floor as real + 1.0;
    assert Portion(fraction, n) == -((-r).Floor);
  }

  /** A count is within the limit of a weekday exactly if it is within each limit there is: the rule's share of
      the dates and the member's, each rounded up, and the member's own maximum. */
  lemma LimitInFields(p: Problem, m: Id, w: Weekday, fraction: real, n: nat, k: int)
    ensures k <= FteLimit(p, m, w, fraction, n) <==>
              (k - 1) as real < fraction * n as real
              && ((m, w) in p.weekdayTargets ==>
                    (k - 1) as real < p.weekdayTargets[(m, w)].fteFraction * n as real
                    && (p.weekdayTargets[(m, w)].maxAssignments.Some? ==>
                          k <= p.weekdayTargets[(m, w)].maxAssignments.value))
  {
    RoundedUp(fraction, n, k);
    if (m, w) in p.weekdayTargets { RoundedUp(p.weekdayTargets[(m, w)].fteFraction, n, k); }
    hide Portion;
  }

  ghost function CountOnWeekday(p: Problem, scope: Scope, x: set<Cell>, m: Id, w: Weekday): nat {
    |set c | c in x && c.m == m && WeekdayOfDay(c.d) == w && InScope(p, scope, c)|
  }

  ghost function WindowDatesOn(p: Problem, scope: Scope, w: Weekday): set<int> {
    set d | p.start <= d <= p.end && NamesDate(scope, d) && WeekdayOfDay(d) == w
  }

  lemma WeekdayLimitInFields(p: Problem, scope: Scope, x: set<Cell>, w: Weekday, fraction: real)
    requires Resolved(p) && Modellable(p, Hard("", scope, WeekdayFteLimit(w, fraction)))
    ensures Accepts(p, scope, WeekdayFteLimit(w, fraction), x) <==>
              forall m :: m in p.members ==>
                CountOnWeekday(p, scope, x, m, w) <= FteLimit(p, m, w, fraction, |WindowDatesOn(p, scope, w)|)
  {
    ScopeInFields(p, scope);
    forall m ensures CountOnWeekday(p, scope, x, m, w) == |OnWeekday(p, scope, x, m, w)| {
      assert OnWeekday(p, scope, x, m, w)
          == set c | c in x && c.m == m && WeekdayOfDay(c.d) == w && InScope(p, scope, c);
    }
    assert forall d :: d in WindowDatesOn(p, scope, w) <==> InWindow(p, scope, d) && WeekdayOfDay(d) == w;
    assert WindowDatesOn(p, scope, w) == WeekdayDates(p, scope, w);
    hide CountOnWeekday, OnWeekday, FteLimit, WindowDatesOn, WeekdayDates;
  }

  // ---------------------------------------------------------------- pairs of assignments

  ghost predicate BothIn(p: Problem, scope: Scope, x: set<Cell>, a: Cell, b: Cell) {
    a in x && b in x && InScope(p, scope, a) && InScope(p, scope, b)
  }

  /** In minutes: from the end of the one, on the next date if it crosses midnight, to the start of the other. */
  function GapBetween(p: Problem, a: Cell, b: Cell): int
    requires a.s in p.times && b.s in p.times
  {
    1440 * (b.d - a.d) + p.times[b.s].start - p.times[a.s].end - if p.times[a.s].crossesMidnight then 1440 else 0
  }

  /** Of two assignments of one member, by date and on one date by shift type, the gap from the first to the
      second is not under the minimum, as far as the rule looks. */
  lemma RestInFields(p: Problem, scope: Scope, x: set<Cell>, minutes: int)
    requires Resolved(p) && Modellable(p, Hard("", scope, MinimumRestBetween(minutes)))
    ensures Accepts(p, scope, MinimumRestBetween(minutes), x) <==>
              forall a, b ::
                BothIn(p, scope, x, a, b) && ComesFirst(minutes, a, b) && a.s in p.times && b.s in p.times ==>
                GapBetween(p, a, b) >= minutes
  {
    ScopeInFields(p, scope);
    forall a, b
      ensures RestPair(minutes, a, b) <==> ComesFirst(minutes, a, b)
      ensures a.s in p.times && b.s in p.times ==> GapBetween(p, a, b) == StartsAt(p, b) - EndsAt(p, a)
    {
    }
    hide InScope, Admits, RestPair, ComesFirst, GapBetween, StartsAt, EndsAt;
  }

  /** Of one member, the first on an earlier date but not too much earlier, or on the same date with the
      smaller shift type. */
  predicate ComesFirst(minutes: int, a: Cell, b: Cell) {
    a.m == b.m && (a.d < b.d <= a.d + minutes / 1440 + 2 || (minutes / 1440 + 2 >= 0 && a.d == b.d && a.s < b.s))
  }

  /** Two calls of one member are on dates that far apart, and on different ones. */
  lemma CallsInFields(p: Problem, scope: Scope, x: set<Cell>, days: int)
    requires Resolved(p) && Modellable(p, Hard("", scope, CallSpacing(days)))
    ensures Accepts(p, scope, CallSpacing(days), x) <==>
              forall a, b ::
                BothIn(p, scope, x, a, b) && a.m == b.m && a != b && a.d <= b.d
                && a.s in p.onCall && p.onCall[a.s] && b.s in p.onCall && p.onCall[b.s] ==>
                b.d > a.d && b.d >= a.d + days
  {
    ScopeInFields(p, scope);
    hide InScope, Admits;
  }

  // ---------------------------------------------------------------- shift types by their codes

  /** The member works the shift type of that code on the date, in scope. */
  ghost predicate Takes(p: Problem, scope: Scope, x: set<Cell>, m: Id, d: int, code: Code) {
    exists c :: c in x && c.m == m && c.d == d && code in p.idOfCode && p.idOfCode[code] == c.s && InScope(p, scope, c)
  }

  /** The member could: eligible, not off, in scope. */
  predicate Could(p: Problem, scope: Scope, m: Id, d: int, code: Code) {
    && code in p.idOfCode && p.idOfCode[code] in p.shiftIds && (m, p.idOfCode[code]) in p.eligible
    && m in p.members && p.start <= d <= p.end && (m, d) !in p.hardOff
    && NamesDate(scope, d) && NamesCode(p, scope, p.idOfCode[code]) && NamesMember(p, scope, m)
  }

  lemma CodesInFields(p: Problem, scope: Scope, x: set<Cell>)
    ensures forall m, d, code :: WorksCode(p, scope, x, m, d, code) <==> Takes(p, scope, x, m, d, code)
    ensures forall m, d, code :: HasCode(p, scope, m, d, code) <==> Could(p, scope, m, d, code)
  {
    ScopeInFields(p, scope);
    forall m, d, code ensures WorksCode(p, scope, x, m, d, code) <==> Takes(p, scope, x, m, d, code) {
      TakesIsWorking(p, scope, x, m, d, code);
    }
    forall m, d, code ensures HasCode(p, scope, m, d, code) <==> Could(p, scope, m, d, code) {
      hide Admits, NamesCode, NamesMember, NamesDate;
    }
  }

  lemma TakesIsWorking(p: Problem, scope: Scope, x: set<Cell>, m: Id, d: int, code: Code)
    ensures WorksCode(p, scope, x, m, d, code) <==> Takes(p, scope, x, m, d, code)
  {
    ScopeInFields(p, scope);
    hide Admits, InScope;
    if c :| c in x && c.m == m && c.d == d && code in p.idOfCode && p.idOfCode[code] == c.s && InScope(p, scope, c) {
      assert c == Cell(m, d, p.idOfCode[code]);
    }
  }

  /** Not the one on a window date and the other on the next, in either order. */
  lemma AdjacentInFields(p: Problem, scope: Scope, x: set<Cell>, a: Code, b: Code)
    requires Resolved(p) && Modellable(p, Hard("", scope, NoAdjacent(a, b)))
    ensures Accepts(p, scope, NoAdjacent(a, b), x) <==>
              forall m, d, e ::
                e == d + 1 && WindowDate(p, scope, d) && WindowDate(p, scope, e) ==>
                !(Takes(p, scope, x, m, d, a) && Takes(p, scope, x, m, e, b))
                && !(Takes(p, scope, x, m, d, b) && Takes(p, scope, x, m, e, a))
  {
    ScopeInFields(p, scope);
    CodesInFields(p, scope, x);
    hide WorksCode, Takes, InWindow, Admits;
    if forall m, d, e ::
      e == d + 1 && WindowDate(p, scope, d) && WindowDate(p, scope, e) ==>
      !(Takes(p, scope, x, m, d, a) && Takes(p, scope, x, m, e, b))
      && !(Takes(p, scope, x, m, d, b) && Takes(p, scope, x, m, e, a)) {
      forall m, d | InWindow(p, scope, d) && InWindow(p, scope, d + 1)
        ensures !(WorksCode(p, scope, x, m, d, a) && WorksCode(p, scope, x, m, d + 1, b))
        ensures !(WorksCode(p, scope, x, m, d, b) && WorksCode(p, scope, x, m, d + 1, a))
      {
        assert WindowDate(p, scope, d) && WindowDate(p, scope, d + 1);
      }
    }
  }

  /** Nobody works the codes of the sequence on consecutive dates. */
  lemma SequenceInFields(p: Problem, scope: Scope, x: set<Cell>, sequence: seq<Code>)
    requires Resolved(p) && Modellable(p, Hard("", scope, ForbiddenSequence(sequence)))
    ensures Accepts(p, scope, ForbiddenSequence(sequence), x) <==>
              sequence == [] || forall m, first :: !TakesInTurn(p, scope, x, m, first, sequence)
  {
    CodesInFields(p, scope, x);
    hide WorksCode, Takes;
    forall m, first
      ensures RunsThrough(p, scope, x, m, first, sequence) <==> TakesInTurn(p, scope, x, m, first, sequence)
    {
    }
    hide RunsThrough, TakesInTurn;
  }

  ghost predicate TakesInTurn(p: Problem, scope: Scope, x: set<Cell>, m: Id, first: int, sequence: seq<Code>) {
    forall i :: 0 <= i < |sequence| ==> Takes(p, scope, x, m, first + i, sequence[i])
  }

  /** Wherever the member could work all of them, linked codes are worked together or not at all. */
  lemma LinkedInFields(p: Problem, scope: Scope, x: set<Cell>, names: seq<Code>)
    requires Resolved(p) && Modellable(p, Hard("", scope, LinkedShifts(names)))
    ensures Accepts(p, scope, LinkedShifts(names), x) <==>
              forall m, d ::
                CouldAll(p, scope, m, d, names) ==>
                TakesAll(p, scope, x, m, d, names) || TakesNone(p, scope, x, m, d, names)
  {
    forall m, d { NamesInFields(p, scope, x, m, d, names); }
    hide HasAll, AllOrNone, CouldAll, TakesAll, TakesNone, TakesNoTwo, AtMostOne;
  }

  /** And no two of exclusive ones are. */
  lemma ExclusiveInFields(p: Problem, scope: Scope, x: set<Cell>, names: seq<Code>)
    requires Resolved(p) && Modellable(p, Hard("", scope, MutuallyExclusive(names)))
    ensures Accepts(p, scope, MutuallyExclusive(names), x) <==>
              forall m, d :: CouldAll(p, scope, m, d, names) ==> TakesNoTwo(p, scope, x, m, d, names)
  {
    forall m, d { NamesInFields(p, scope, x, m, d, names); }
    hide HasAll, AllOrNone, CouldAll, TakesAll, TakesNone, TakesNoTwo, AtMostOne;
  }

  /** Whoever works the one and could work the other works it too. */
  lemma ImpliedInFields(p: Problem, scope: Scope, x: set<Cell>, a: Code, b: Code)
    requires Resolved(p) && Modellable(p, Hard("", scope, ImpliesAssignment(a, b)))
    ensures Accepts(p, scope, ImpliesAssignment(a, b), x) <==>
              forall m, d ::
                Could(p, scope, m, d, a) && Could(p, scope, m, d, b) && Takes(p, scope, x, m, d, a) ==>
                Takes(p, scope, x, m, d, b)
  {
    CodesInFields(p, scope, x);
    hide WorksCode, Takes, HasCode, Could;
    forall m, d ensures HasAll(p, scope, m, d, [a, b]) <==> HasCode(p, scope, m, d, a) && HasCode(p, scope, m, d, b) {
      assert [a, b][0] == a && [a, b][1] == b;
    }
    hide HasAll;
  }

  predicate CouldAll(p: Problem, scope: Scope, m: Id, d: int, names: seq<Code>) {
    forall i :: 0 <= i < |names| ==> Could(p, scope, m, d, names[i])
  }

  ghost predicate TakesAll(p: Problem, scope: Scope, x: set<Cell>, m: Id, d: int, names: seq<Code>) {
    forall i :: 0 <= i < |names| ==> Takes(p, scope, x, m, d, names[i])
  }

  ghost predicate TakesNone(p: Problem, scope: Scope, x: set<Cell>, m: Id, d: int, names: seq<Code>) {
    forall i :: 0 <= i < |names| ==> !Takes(p, scope, x, m, d, names[i])
  }

  ghost predicate TakesNoTwo(p: Problem, scope: Scope, x: set<Cell>, m: Id, d: int, names: seq<Code>) {
    forall i, j :: 0 <= i < |names| && 0 <= j < |names| && i != j && Takes(p, scope, x, m, d, names[i]) ==>
      !Takes(p, scope, x, m, d, names[j])
  }

  lemma NamesInFields(p: Problem, scope: Scope, x: set<Cell>, m: Id, d: int, names: seq<Code>)
    ensures HasAll(p, scope, m, d, names) <==> CouldAll(p, scope, m, d, names)
    ensures AllOrNone(p, scope, x, m, d, names) <==>
              TakesAll(p, scope, x, m, d, names) || TakesNone(p, scope, x, m, d, names)
    ensures AtMostOne(p, scope, x, m, d, names) <==> TakesNoTwo(p, scope, x, m, d, names)
  {
    CodesInFields(p, scope, x);
    hide WorksCode, Takes, HasCode, Could;
    if TakesAll(p, scope, x, m, d, names) || TakesNone(p, scope, x, m, d, names) {
      forall i, j | 0 <= i < |names| && 0 <= j < |names| && WorksCode(p, scope, x, m, d, names[i])
        ensures WorksCode(p, scope, x, m, d, names[j])
      {
        assert Takes(p, scope, x, m, d, names[i]);
      }
    }
  }

  /** After the trigger on one of its weekdays, each segment on a date of the horizon that the member could
      work is worked. */
  lemma PatternInFields(p: Problem, scope: Scope, x: set<Cell>, trigger: Code, days: set<Weekday>,
                        segments: seq<Segment>)
    requires Resolved(p) && Modellable(p, Hard("", scope, PatternRule(trigger, days, segments)))
    ensures Accepts(p, scope, PatternRule(trigger, days, segments), x) <==>
              forall m, d, i ::
                Takes(p, scope, x, m, d, trigger) && WeekdayOfDay(d) in days && 0 <= i < |segments|
                && Could(p, scope, m, d + segments[i].offsetDays, segments[i].shiftType) ==>
                Takes(p, scope, x, m, d + segments[i].offsetDays, segments[i].shiftType)
  {
    CodesInFields(p, scope, x);
    forall m, d, code ensures Could(p, scope, m, d, code) ==> p.start <= d <= p.end {
    }
    hide WorksCode, Takes, HasCode, Could;
  }

  /** All the member's dates of the code are in weeks of one class, weeks counted from the first window date. */
  lemma WeeksInFields(p: Problem, scope: Scope, x: set<Cell>, code: Code, cycle: int)
    requires Resolved(p) && Modellable(p, Hard("", scope, AlternatingWeek(code, cycle)))
    ensures Accepts(p, scope, AlternatingWeek(code, cycle), x) <==>
              cycle >= 1 ==>
              forall m, d, e :: Takes(p, scope, x, m, d, code) && Takes(p, scope, x, m, e, code) ==>
                WeekOf(p, scope, d) % cycle == WeekOf(p, scope, e) % cycle
    ensures forall d :: 7 * WeekOf(p, scope, d) <= d - WindowStart(p, scope) < 7 * WeekOf(p, scope, d) + 7
    ensures WindowStart(p, scope) >= p.start && (scope.range.Some? ==> WindowStart(p, scope) >= scope.range.value.0)
    ensures WindowStart(p, scope) == p.start || (scope.range.Some? && WindowStart(p, scope) == scope.range.value.0)
  {
    CodesInFields(p, scope, x);
    hide WorksCode, Takes;
    if cycle >= 1 {
      forall d ensures ClassOf(p, scope, d, cycle) == WeekOf(p, scope, d) % cycle {
      }
      hide ClassOf, WeekOf;
    }
  }

  function WeekOf(p: Problem, scope: Scope, d: int): int {
    (d - WindowStart(p, scope)) / 7
  }

  // ---------------------------------------------------------------- single assignments

  /** Somebody assigned in scope holds the qualification then, by some active holding that has begun and not
      ended. */
  lemma QualificationInFields(p: Problem, scope: Scope, x: set<Cell>, q: Id)
    requires Resolved(p) && Modellable(p, Hard("", scope, RequiresQualification(q)))
    ensures Accepts(p, scope, RequiresQualification(q), x) <==>
              forall c :: c in x && InScope(p, scope, c) ==>
                exists h :: (c.m, q) in p.holdings && h in p.holdings[(c.m, q)] && h.active && h.from <= c.d
                  && (h.until.Some? ==> c.d < h.until.value)
  {
    ScopeInFields(p, scope);
    forall m, d ensures HoldsOn(p, m, q, d) <==>
                          exists h :: (m, q) in p.holdings && h in p.holdings[(m, q)] && h.active && h.from <= d
                                      && (h.until.Some? ==> d < h.until.value)
    {
    }
    hide HoldsOn, InScope, Admits;
  }

  /** Only members of the group, only its shift types, not on the date. */
  lemma BarsInFields(p: Problem, scope: Scope, x: set<Cell>, g: Id, date: int)
    requires Resolved(p) && Modellable(p, Hard("", scope, AvoidDate(date)))
    ensures g in p.staffGroups ==>
              (Accepts(p, scope, MemberOfStaffGroup(g), x) <==>
               forall c :: c in x && InScope(p, scope, c) ==> c.m in p.staffGroups[g])
    ensures g in p.validGroups ==>
              (Accepts(p, scope, ValidGroupRestriction(g), x) <==>
               forall c :: c in x && InScope(p, scope, c) ==> c.s in p.validGroups[g])
    ensures Accepts(p, scope, AvoidDate(date), x) <==> !exists c :: c in x && InScope(p, scope, c) && c.d == date
  {
    ScopeInFields(p, scope);
    hide InScope, Admits;
  }

  /** Every fixed input of the identity, or of the dates, that could be taken is taken; the scope does not
      matter. */
  lemma KeptInFields(p: Problem, scope: Scope, x: set<Cell>, identity: Id, from: int, to: int)
    requires Resolved(p) && Modellable(p, Hard("", scope, FixedAssignment(identity)))
    ensures Accepts(p, scope, FixedAssignment(identity), x) <==>
              forall f :: f in p.fixed && f.identity == identity && CanBeTaken(p, f.cell) ==> f.cell in x
    ensures Accepts(p, scope, ProtectedRange(from, to), x) <==>
              forall f :: f in p.fixed && from <= f.cell.d <= to && CanBeTaken(p, f.cell) ==> f.cell in x
  {
    hide CanBeTaken;
    forall c ensures IsCell(p, c) <==> CanBeTaken(p, c) { CellsInFields(p, c); }
    hide IsCell;
  }

  lemma CellsInFields(p: Problem, c: Cell)
    ensures IsCell(p, c) <==> CanBeTaken(p, c)
  {
  }

  /** Somebody could take the slot. */
  ghost predicate CanBeStaffed(p: Problem, d: int, s: Id) {
    exists m :: CanBeTaken(p, Cell(m, d, s))
  }

  ghost function TakenIn(x: set<Cell>, d: int, s: Id): nat {
    |set c | c in x && c.d == d && c.s == s|
  }

  lemma SlotInFields(p: Problem, x: set<Cell>, d: int, s: Id)
    ensures Staffable(p, d, s) <==> CanBeStaffed(p, d, s)
    ensures |Staffing(p, x, d, s)| == TakenIn(x, d, s)
    ensures Required(p, d, s) == if (d, s) in p.required then p.required[(d, s)] else 0
  {
    forall m ensures IsCell(p, Cell(m, d, s)) <==> CanBeTaken(p, Cell(m, d, s)) { CellsInFields(p, Cell(m, d, s)); }
    hide CanBeTaken;
    assert Staffing(p, x, d, s) == set c | c in x && c.d == d && c.s == s;
  }

  /** A slot that somebody could take has exactly as many as required, nobody where nothing is; one that nobody
      could take must not ask for anybody; and a pinned input that could be taken is. */
  lemma DemandInFields(p: Problem, x: set<Cell>)
    ensures DemandMet(p, x) <==>
              forall d, s :: p.start <= d <= p.end && s in p.shiftIds && CanBeStaffed(p, d, s) ==>
                TakenIn(x, d, s) == if (d, s) in p.required then p.required[(d, s)] else 0
    ensures AllSlotsPossible(p) <==>
              forall d, s ::
                p.start <= d <= p.end && s in p.shiftIds && (d, s) in p.required && p.required[(d, s)] >= 1 ==>
                CanBeStaffed(p, d, s)
    ensures PinsKept(p, x) <==> forall f :: f in p.fixed && f.isPinned && CanBeTaken(p, f.cell) ==> f.cell in x
  {
    forall d, s
      ensures SlotMet(p, x, d, s) <==>
                (CanBeStaffed(p, d, s) ==>
                 TakenIn(x, d, s) == if (d, s) in p.required then p.required[(d, s)] else 0)
      ensures SlotPossible(p, d, s) <==>
                ((d, s) in p.required && p.required[(d, s)] >= 1 ==> CanBeStaffed(p, d, s))
    {
      SlotInFields(p, x, d, s);
      hide Staffable, CanBeStaffed, Staffing, TakenIn, Required;
    }
    forall c ensures IsCell(p, c) <==> CanBeTaken(p, c) { CellsInFields(p, c); }
    hide IsCell, CanBeTaken, CanBeStaffed, TakenIn, SlotMet, SlotPossible;
  }
}
