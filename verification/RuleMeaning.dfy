/** What each HARD rule kind asks of a schedule, in the shape the worker posts it. A schedule is the
    set of cells taken. */
module RuleMeaning {
  import opened Calendar
  import opened Problems
  import opened LinearModel

  // ---------------------------------------------------------------- counting and looking up

  ghost function OnDateShift(p: Problem, scope: Scope, x: set<Cell>, d: int, s: Id): set<Cell> {
    set c | c in x && c.d == d && c.s == s && Admits(p, scope, c)
  }

  /** A member's scoped assignments on the days `lo` to `hi`. */
  ghost function Between(p: Problem, scope: Scope, x: set<Cell>, m: Id, lo: int, hi: int): set<Cell> {
    set c | c in x && c.m == m && lo <= c.d <= hi && Admits(p, scope, c)
  }

  ghost function OnWeekday(p: Problem, scope: Scope, x: set<Cell>, m: Id, w: Weekday): set<Cell> {
    set c | c in x && c.m == m && WeekdayOfDay(c.d) == w && Admits(p, scope, c)
  }

  ghost predicate WorksOn(p: Problem, scope: Scope, x: set<Cell>, m: Id, d: int) {
    exists s :: s in p.shiftIds && Cell(m, d, s) in x && Admits(p, scope, Cell(m, d, s))
  }

  /** The cell a rule means by a shift-type code on a date exists and is in scope. */
  predicate HasCode(p: Problem, scope: Scope, m: Id, d: int, code: Code) {
    code in p.idOfCode
    && IsCell(p, Cell(m, d, p.idOfCode[code])) && Admits(p, scope, Cell(m, d, p.idOfCode[code]))
  }

  predicate WorksCode(p: Problem, scope: Scope, x: set<Cell>, m: Id, d: int, code: Code) {
    code in p.idOfCode
    && Cell(m, d, p.idOfCode[code]) in x && Admits(p, scope, Cell(m, d, p.idOfCode[code]))
  }

  predicate Together(p: Problem, scope: Scope, x: set<Cell>, a: Cell, b: Cell) {
    a in x && b in x && Admits(p, scope, a) && Admits(p, scope, b)
  }

  predicate OnCall(p: Problem, s: Id) {
    s in p.onCall && p.onCall[s]
  }

  predicate CoverageCode(p: Problem, scope: Scope, code: Code) {
    if scope.codes != [] then code in scope.codes
    else exists s :: s in p.shiftIds && s in p.codeOf && p.codeOf[s] == code
  }

  const DAY_MINUTES := 1440

  function StartsAt(p: Problem, c: Cell): int
    requires c.s in p.times
  {
    c.d * DAY_MINUTES + p.times[c.s].start
  }

  function EndsAt(p: Problem, c: Cell): int
    requires c.s in p.times
  {
    c.d * DAY_MINUTES + p.times[c.s].end + (if p.times[c.s].crossesMidnight then DAY_MINUTES else 0)
  }

  /** How many days apart two assignments may be and still be compared: an over-estimate. */
  function RestReach(minMinutes: int): int {
    minMinutes / DAY_MINUTES + 2
  }

  /** The pairs a rest rule compares, in the worker's order: by date, and by shift id on one date. */
  predicate RestPair(minMinutes: int, a: Cell, b: Cell) {
    a.m == b.m && 0 <= b.d - a.d <= RestReach(minMinutes) && (a.d == b.d ==> a.s < b.s)
  }

  predicate TooClose(p: Problem, minMinutes: int, a: Cell, b: Cell) {
    a.s in p.times && b.s in p.times && StartsAt(p, b) - EndsAt(p, a) < minMinutes
  }

  function Ceil(r: real): int {
    -((-r).Floor)
  }

  ghost function WeekdayDates(p: Problem, scope: Scope, w: Weekday): set<int> {
    set d | WindowStart(p, scope) <= d <= WindowEnd(p, scope) && WeekdayOfDay(d) == w
  }

  function Min(a: int, b: int): int {
    if a <= b then a else b
  }

  function Portion(fraction: real, n: nat): int {
    Ceil(fraction * n as real)
  }

  /** The tightest of the terms that are present. */
  function FteLimit(p: Problem, m: Id, w: Weekday, fraction: real, n: nat): int {
    var authored := Portion(fraction, n);
    if (m, w) !in p.weekdayTargets then authored
    else
      var target := p.weekdayTargets[(m, w)];
      var profile := Min(authored, Portion(target.fteFraction, n));
      if target.maxAssignments.None? then profile else Min(profile, target.maxAssignments.value)
  }

  function ClassOf(p: Problem, scope: Scope, d: int, cycle: int): int
    requires cycle >= 1
  {
    ((d - WindowStart(p, scope)) / 7) % cycle
  }

  // ---------------------------------------------------------------- the kinds

  ghost predicate Coverage(p: Problem, scope: Scope, x: set<Cell>, cmp: Cmp, bound: int) {
    forall d, code :: InWindow(p, scope, d) && CoverageCode(p, scope, code) && code in p.idOfCode ==>
      Compare(|OnDateShift(p, scope, x, d, p.idOfCode[code])|, cmp, bound)
  }

  /** The member works on every one of the days `lo` to `hi`. */
  ghost predicate WorksThrough(p: Problem, scope: Scope, x: set<Cell>, m: Id, lo: int, hi: int) {
    forall d :: lo <= d <= hi ==> WorksOn(p, scope, x, m, d)
  }

  ghost predicate NoLongRun(p: Problem, scope: Scope, x: set<Cell>, m: Id, maxDays: nat) {
    forall d :: InWindow(p, scope, d) && InWindow(p, scope, d + maxDays) ==>
      !WorksThrough(p, scope, x, m, d, d + maxDays)
  }

  ghost predicate WindowsBounded(p: Problem, scope: Scope, x: set<Cell>, m: Id, maxCount: nat, span: nat) {
    forall d :: InWindow(p, scope, d) && InWindow(p, scope, d + span - 1) ==>
      |Between(p, scope, x, m, d, d + span - 1)| <= maxCount
  }

  ghost predicate Rested(p: Problem, scope: Scope, x: set<Cell>, minMinutes: int) {
    forall a, b :: Together(p, scope, x, a, b) && RestPair(minMinutes, a, b) ==> !TooClose(p, minMinutes, a, b)
  }

  ghost predicate CallsSpaced(p: Problem, scope: Scope, x: set<Cell>, minDays: int) {
    forall a, b :: Together(p, scope, x, a, b) && OnCall(p, a.s) && OnCall(p, b.s) && a.m == b.m && a != b && a.d <= b.d
      ==> a.d < b.d && b.d - a.d >= minDays
  }

  ghost predicate NotAdjacent(p: Problem, scope: Scope, x: set<Cell>, a: Code, b: Code) {
    forall m, d :: InWindow(p, scope, d) && InWindow(p, scope, d + 1) ==>
      && !(WorksCode(p, scope, x, m, d, a) && WorksCode(p, scope, x, m, d + 1, b))
      && !(WorksCode(p, scope, x, m, d, b) && WorksCode(p, scope, x, m, d + 1, a))
  }

  /** The member works the named sequence on consecutive dates from `d`. */
  ghost predicate RunsThrough(p: Problem, scope: Scope, x: set<Cell>, m: Id, d: int, sequence: seq<Code>) {
    forall k :: 0 <= k < |sequence| ==> WorksCode(p, scope, x, m, d + k, sequence[k])
  }

  predicate HasAll(p: Problem, scope: Scope, m: Id, d: int, names: seq<Code>) {
    forall i :: 0 <= i < |names| ==> HasCode(p, scope, m, d, names[i])
  }

  ghost predicate AllOrNone(p: Problem, scope: Scope, x: set<Cell>, m: Id, d: int, names: seq<Code>) {
    forall i, j :: 0 <= i < |names| && 0 <= j < |names| && WorksCode(p, scope, x, m, d, names[i])
      ==> WorksCode(p, scope, x, m, d, names[j])
  }

  ghost predicate AtMostOne(p: Problem, scope: Scope, x: set<Cell>, m: Id, d: int, names: seq<Code>) {
    forall i, j :: 0 <= i < j < |names| ==>
      !(WorksCode(p, scope, x, m, d, names[i]) && WorksCode(p, scope, x, m, d, names[j]))
  }

  ghost predicate Followed(p: Problem, scope: Scope, x: set<Cell>, m: Id, target: int, code: Code) {
    p.start <= target <= p.end && HasCode(p, scope, m, target, code) ==> WorksCode(p, scope, x, m, target, code)
  }

  ghost predicate Patterned(p: Problem, scope: Scope, x: set<Cell>, trigger: Code, days: set<Weekday>,
                            segments: seq<Segment>) {
    forall m, d, i :: WorksCode(p, scope, x, m, d, trigger) && WeekdayOfDay(d) in days && 0 <= i < |segments| ==>
      Followed(p, scope, x, m, d + segments[i].offsetDays, segments[i].shiftType)
  }

  ghost predicate OneClass(p: Problem, scope: Scope, x: set<Cell>, code: Code, cycle: int)
    requires cycle >= 1
  {
    forall m, d, e :: WorksCode(p, scope, x, m, d, code) && WorksCode(p, scope, x, m, e, code) ==>
      ClassOf(p, scope, d, cycle) == ClassOf(p, scope, e, cycle)
  }

  /** The schedule meets the rule. */
  ghost predicate Accepts(p: Problem, scope: Scope, kind: Kind, x: set<Cell>)
    requires Resolved(p) && Modellable(p, Hard("", scope, kind))
  {
    match kind
    case RequiredCount(n) => Coverage(p, scope, x, Eq, n)
    case MinCoverage(n) => Coverage(p, scope, x, Ge, n)
    case MaxCoverage(n) => Coverage(p, scope, x, Le, n)
    case RequiresQualification(q) => forall c :: c in x && Admits(p, scope, c) ==> HoldsOn(p, c.m, q, c.d)
    case MemberOfStaffGroup(g) => forall c :: c in x && Admits(p, scope, c) ==> c.m in p.staffGroups[g]
    case ValidGroupRestriction(g) => forall c :: c in x && Admits(p, scope, c) ==> c.s in p.validGroups[g]
    case PickPositionRestriction => true
    case WeekdayFteLimit(w, fraction) =>
      forall m :: m in p.members ==>
        |OnWeekday(p, scope, x, m, w)| <= FteLimit(p, m, w, fraction, |WeekdayDates(p, scope, w)|)
    case MaxConsecutive(k) => forall m :: m in p.members ==> NoLongRun(p, scope, x, m, k)
    case MaxAssignmentsInWindow(n, span) => forall m :: m in p.members ==> WindowsBounded(p, scope, x, m, n, span)
    case MinimumRestBetween(minutes) => Rested(p, scope, x, minutes)
    case CallSpacing(k) => CallsSpaced(p, scope, x, k)
    case NoAdjacent(a, b) => NotAdjacent(p, scope, x, a, b)
    case ForbiddenSequence(sequence) =>
      sequence != [] ==> forall m, d :: !RunsThrough(p, scope, x, m, d, sequence)
    case LinkedShifts(names) => forall m, d :: HasAll(p, scope, m, d, names) ==> AllOrNone(p, scope, x, m, d, names)
    case ImpliesAssignment(a, b) =>
      forall m, d :: HasAll(p, scope, m, d, [a, b]) && WorksCode(p, scope, x, m, d, a) ==>
        WorksCode(p, scope, x, m, d, b)
    case MutuallyExclusive(names) =>
      forall m, d :: HasAll(p, scope, m, d, names) ==> AtMostOne(p, scope, x, m, d, names)
    case AvoidDate(date) => forall c :: c in x && Admits(p, scope, c) ==> c.d != date
    case FixedAssignment(identity) =>
      forall i :: 0 <= i < |p.fixed| && p.fixed[i].identity == identity && IsCell(p, p.fixed[i].cell) ==>
        p.fixed[i].cell in x
    case ProtectedRange(from, to) =>
      forall i :: 0 <= i < |p.fixed| && from <= p.fixed[i].cell.d <= to && IsCell(p, p.fixed[i].cell) ==>
        p.fixed[i].cell in x
    case PatternRule(trigger, days, segments) => Patterned(p, scope, x, trigger, days, segments)
    case AlternatingWeek(code, cycle) => cycle >= 1 ==> OneClass(p, scope, x, code, cycle)
  }
}
