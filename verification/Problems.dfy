/** An absent value, as the snapshot's optional fields have it; and some element of a set. */
module Wrappers {
  datatype Option<+T> = None | Some(value: T)

  ghost function Any<T>(s: set<T>): (e: T)
    requires s != {}
    ensures e in s
  {
    var e :| e in s; e
  }
}

/** The problem as the worker has it once every identifier is resolved, and the typed rules over it.

    Identifiers are opaque strings of which the worker uses only equality and order, so they are
    integers here; dates are day numbers, which module Calendar shows to be the same thing as the
    date strings, in the same order; times are minutes. */
module Problems {
  import opened Wrappers
  import opened Calendar

  type Id = int
  type Code = string
  type Key = string

  /** A decision: this member, on this day, in this shift type. */
  datatype Cell = Cell(m: Id, d: int, s: Id)

  datatype Fixed = Fixed(identity: Id, cell: Cell, isPinned: bool)
  datatype Times = Times(start: int, end: int, crossesMidnight: bool)
  datatype Holding = Holding(from: int, until: Option<int>, active: bool)
  datatype WeekdayTarget = WeekdayTarget(fteFraction: real, maxAssignments: Option<int>)

  datatype Problem = Problem(
    start: int,
    end: int,
    shiftIds: seq<Id>,
    codeOf: map<Id, Code>,
    idOfCode: map<Code, Id>,
    onCall: map<Id, bool>,
    times: map<Id, Times>,
    credits: map<Id, real>,
    members: seq<Id>,
    eligible: set<(Id, Id)>,
    required: map<(int, Id), int>,
    staffGroups: map<Id, set<Id>>,
    validGroups: map<Id, set<Id>>,
    holdings: map<(Id, Id), seq<Holding>>,
    weekdayTargets: map<(Id, Weekday), WeekdayTarget>,
    workPercentage: map<Id, real>,
    hardOff: set<(Id, int)>,
    fixed: seq<Fixed>)

  predicate Increasing(s: seq<int>) {
    forall i, j :: 0 <= i < j < |s| ==> s[i] < s[j]
  }

  /** What resolving a snapshot guarantees: sorted vocabularies without repetition, and the two code
      tables inverse to each other. */
  predicate Resolved(p: Problem) {
    && Increasing(p.members)
    && Increasing(p.shiftIds)
    && (forall s :: s in p.shiftIds ==> s in p.codeOf && p.codeOf[s] in p.idOfCode && s in p.times)
    && (forall c :: c in p.idOfCode ==> p.idOfCode[c] in p.shiftIds && p.codeOf[p.idOfCode[c]] == c)
    && (forall t :: t in p.weekdayTargets ==> TargetInRange(p.weekdayTargets[t]))
  }

  predicate TargetInRange(t: WeekdayTarget) {
    t.fteFraction >= 0.0 && (t.maxAssignments.Some? ==> t.maxAssignments.value >= 0)
  }

  predicate IsCell(p: Problem, c: Cell) {
    && c.m in p.members
    && p.start <= c.d <= p.end
    && (c.m, c.d) !in p.hardOff
    && c.s in p.shiftIds
    && (c.m, c.s) in p.eligible
  }

  /** The decision grid, as a set. */
  ghost function Cells(p: Problem): (cs: set<Cell>)
    ensures forall c :: c in cs <==> IsCell(p, c)
  {
    set m, d, s | m in p.members && p.start <= d <= p.end && s in p.shiftIds && IsCell(p, Cell(m, d, s))
      :: Cell(m, d, s)
  }

  predicate NoDup<T(==)>(s: seq<T>) {
    forall i, j :: 0 <= i < j < |s| ==> s[i] != s[j]
  }

  predicate CellBefore(a: Cell, b: Cell) {
    a.m < b.m || (a.m == b.m && (a.d < b.d || (a.d == b.d && a.s < b.s)))
  }

  /** By member, then by day, then by shift type: of any two cells one comes first. */
  lemma CellOrder(a: Cell, b: Cell)
    ensures a.m < b.m ==> CellBefore(a, b)
    ensures a.m == b.m && a.d < b.d ==> CellBefore(a, b)
    ensures CellBefore(a, b) || CellBefore(b, a) || a == b
    ensures !(CellBefore(a, b) && CellBefore(b, a)) && (CellBefore(a, b) ==> a != b)
  {
  }

  predicate CellsSorted(cs: seq<Cell>) {
    forall i, j :: 0 <= i < j < |cs| ==> CellBefore(cs[i], cs[j])
  }

  /** All eligible pairs on all dates, but for the days a member is off; sorted. */
  method GridCells(p: Problem) returns (out: seq<Cell>)
    requires Resolved(p)
    ensures CellsSorted(out)
    ensures forall c :: c in out <==> IsCell(p, c)
  {
    out := [];
    for i := 0 to |p.members|
      invariant CellsSorted(out)
      invariant forall c :: c in out <==> IsCell(p, c) && c.m in p.members[..i]
    {
      var m := p.members[i];
      assert p.members[..i + 1] == p.members[..i] + [m];
      var d := p.start;
      while d <= p.end
        invariant p.start <= d && (d <= p.end + 1 || d == p.start)
        invariant CellsSorted(out)
        invariant forall c :: c in out <==> IsCell(p, c) && (c.m in p.members[..i] || (c.m == m && c.d < d))
        decreases p.end + 1 - d
      {
        if (m, d) in p.hardOff {
          d := d + 1;
          continue;
        }
        for k := 0 to |p.shiftIds|
          invariant CellsSorted(out)
          invariant forall c :: c in out <==>
            IsCell(p, c) && (c.m in p.members[..i] || (c.m == m && (c.d < d || (c.d == d && c.s in p.shiftIds[..k]))))
        {
          var s := p.shiftIds[k];
          assert p.shiftIds[..k + 1] == p.shiftIds[..k] + [s];
          if (m, s) in p.eligible {
            out := out + [Cell(m, d, s)];
          }
        }
        d := d + 1;
      }
    }
    assert p.members[..|p.members|] == p.members;
  }

  /** Some active holding of the qualification covers the date; its last day is not part of it. */
  predicate HoldsOn(p: Problem, m: Id, qualification: Id, date: int) {
    (m, qualification) in p.holdings
    && exists i :: 0 <= i < |p.holdings[(m, qualification)]| && Live(p.holdings[(m, qualification)][i], date)
  }

  predicate Live(h: Holding, date: int) {
    h.active && h.from <= date && (h.until.None? || date < h.until.value)
  }

  method HoldsOnScan(p: Problem, m: Id, qualification: Id, date: int) returns (held: bool)
    ensures held <==> HoldsOn(p, m, qualification, date)
  {
    var windows := if (m, qualification) in p.holdings then p.holdings[(m, qualification)] else [];
    for i := 0 to |windows|
      invariant forall k :: 0 <= k < i ==> !Live(windows[k], date)
    {
      if !windows[i].active { continue; }
      if date < windows[i].from { continue; }
      if windows[i].until.Some? && date >= windows[i].until.value { continue; }
      return true;
    }
    return false;
  }

  // ---------------------------------------------------------------- rules

  datatype Scope = Scope(range: Option<(int, int)>, codes: seq<Code>, memberships: seq<Id>, staffGroups: seq<Id>)

  const EVERYTHING := Scope(None, [], [], [])

  datatype Kind =
    | RequiredCount(count: int)
    | MinCoverage(min: int)
    | MaxCoverage(max: int)
    | RequiresQualification(qualification: Id)
    | MemberOfStaffGroup(staffGroup: Id)
    | ValidGroupRestriction(validGroup: Id)
    | PickPositionRestriction
    | WeekdayFteLimit(weekday: Weekday, fteFraction: real)
    | MaxConsecutive(maxDays: nat)
    | MaxAssignmentsInWindow(maxCount: nat, windowDays: nat)
    | MinimumRestBetween(minMinutes: int)
    | CallSpacing(minDaysBetweenCalls: int)
    | NoAdjacent(shiftTypeA: Code, shiftTypeB: Code)
    | ForbiddenSequence(sequence: seq<Code>)
    | LinkedShifts(linked: seq<Code>)
    | ImpliesAssignment(ifShiftType: Code, thenShiftType: Code)
    | MutuallyExclusive(exclusive: seq<Code>)
    | AvoidDate(date: int)
    | FixedAssignment(identity: Id)
    | ProtectedRange(from: int, to: int)
    | PatternRule(trigger: Code, daysOfWeek: set<Weekday>, segments: seq<Segment>)
    | AlternatingWeek(onShiftType: Code, cycleWeeks: int)

  datatype Segment = Segment(offsetDays: int, shiftType: Code)

  datatype Metric = Assignments | WeekendLoad | CallLoad | Credits
  datatype Normalisation = Plain | PerFte | PerEligibleDay
  datatype Strength = Prefer | StrongPrefer | Avoid | StrongAvoid

  datatype SoftKind =
    | SoftAvoidDate(date: int)
    | ShiftPreference(shiftType: Code, strength: Strength)
    | WorkPercentageTarget(targetPercentage: real)
    | FairnessBalance(metric: Metric, normalisation: Normalisation)
    | CreditDistribution(creditMetric: Metric)
    | Unmapped

  datatype Rule =
    | Hard(key: Key, scope: Scope, kind: Kind)
    | Soft(key: Key, scope: Scope, soft: SoftKind, weight: Option<real>)

  /** The refusals a rule has passed before it reaches the model: every identifier resolves, a call
      rule sees the on-call flag of every shift type, and the authored numbers are in range. */
  predicate Modellable(p: Problem, r: Rule) {
    && (forall g :: g in r.scope.staffGroups ==> g in p.staffGroups)
    && (forall c :: c in r.scope.codes ==> c in p.idOfCode)
    && (match r
        case Hard(_, _, kind) =>
          (match kind
           case MemberOfStaffGroup(g) => g in p.staffGroups
           case ValidGroupRestriction(g) => g in p.validGroups
           case WeekdayFteLimit(_, fraction) => 0.0 <= fraction <= 1.0
           case CallSpacing(_) => forall s :: s in p.shiftIds ==> s in p.onCall
           case MaxAssignmentsInWindow(_, span) => span >= 1
           case MinimumRestBetween(minutes) => minutes > 0
           case _ => true)
        case Soft(_, _, soft, weight) =>
          (weight.Some? ==> weight.value > 0.0)
          && (match soft
              case WorkPercentageTarget(pct) => 0.0 < pct <= 100.0
              case FairnessBalance(metric, _) => Measured(p, metric)
              case CreditDistribution(metric) => Measured(p, metric)
              case _ => true))
  }

  /** A call-load metric needs every on-call flag; credit weights are never negative. */
  predicate Measured(p: Problem, metric: Metric) {
    && (metric == CallLoad ==> forall s :: s in p.shiftIds ==> s in p.onCall)
    && (metric == Credits ==> forall s :: s in p.credits ==> p.credits[s] >= 0.0)
  }

  // ---------------------------------------------------------------- scope

  function WindowStart(p: Problem, scope: Scope): int {
    if scope.range.None? then p.start
    else if scope.range.value.0 >= p.start then scope.range.value.0 else p.start
  }

  function WindowEnd(p: Problem, scope: Scope): int {
    if scope.range.None? then p.end
    else if scope.range.value.1 <= p.end then scope.range.value.1 else p.end
  }

  predicate InWindow(p: Problem, scope: Scope, d: int) {
    WindowStart(p, scope) <= d <= WindowEnd(p, scope)
  }

  function WindowLength(p: Problem, scope: Scope): (n: nat)
    ensures forall d :: InWindow(p, scope, d) <==> 0 <= d - WindowStart(p, scope) < n
  {
    if WindowStart(p, scope) <= WindowEnd(p, scope)
    then WindowEnd(p, scope) - WindowStart(p, scope) + 1 else 0
  }

  /** The four filters of a rule's scope. Naming a second staff group widens the scope. */
  predicate Admits(p: Problem, scope: Scope, c: Cell) {
    && InWindow(p, scope, c.d)
    && (scope.codes == [] || (c.s in p.codeOf && p.codeOf[c.s] in scope.codes))
    && (scope.memberships == [] || c.m in scope.memberships)
    && (scope.staffGroups == []
        || exists i :: 0 <= i < |scope.staffGroups| && InStaffGroup(p, scope.staffGroups[i], c.m))
  }

  predicate InStaffGroup(p: Problem, g: Id, m: Id) {
    g in p.staffGroups && m in p.staffGroups[g]
  }

  /** The accounting window: the rule's range cut to the horizon. It is one contiguous run of days,
      empty exactly when the two do not meet. */
  lemma WindowIsCut(p: Problem, scope: Scope, d: int)
    ensures InWindow(p, scope, d) <==>
            p.start <= d <= p.end && (scope.range.Some? ==> scope.range.value.0 <= d <= scope.range.value.1)
  {
  }
}
