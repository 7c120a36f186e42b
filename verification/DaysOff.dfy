/** Leaving a member's days off out of the grid, against keeping every cell and forcing those to 0;
    and what the SOFT rules can exclude. */
module DaysOff {
  import opened Wrappers
  import opened Calendar
  import opened Problems
  import opened LinearModel
  import opened RuleMeaning
  import opened MemberByDate
  import opened HardRules
  import opened SoftRules
  import opened Compiler
  import opened CompiledMeaning
  import CheckerAgreement
  import Readiness

  /** The same problem with nobody off: the full grid. */
  function FullGrid(p: Problem): Problem {
    p.(hardOff := {})
  }

  lemma FullGridCells(p: Problem)
    ensures Resolved(p) ==> Resolved(FullGrid(p))
    ensures forall c :: IsCell(p, c) <==> IsCell(FullGrid(p), c) && (c.m, c.d) !in p.hardOff
  {
  }

  /** Schedules that set every dropped cell to 0. */
  lemma OnGridIsForcedOff(p: Problem, x: set<Cell>)
    ensures OnGrid(p, x) <==> OnGrid(FullGrid(p), x) && forall c :: c in x ==> (c.m, c.d) !in p.hardOff
  {
  }

  /** A rule that names a prior assignment or a pattern tail on a day off. Nothing else can tell the
      two grids apart. */
  ghost predicate Reaches(p: Problem, scope: Scope, kind: Kind) {
    match kind
    case PatternRule(trigger, days, segments) =>
      exists m, d, i :: 0 <= i < |segments| && TailOff(p, scope, m, d, trigger, days, segments[i])
    case FixedAssignment(_) =>
      exists i :: 0 <= i < |p.fixed| && Kept(kind, p.fixed[i]) && DroppedCell(p, p.fixed[i].cell)
    case ProtectedRange(_, _) =>
      exists i :: 0 <= i < |p.fixed| && Kept(kind, p.fixed[i]) && DroppedCell(p, p.fixed[i].cell)
    case _ => false
  }

  predicate DroppedCell(p: Problem, c: Cell) {
    IsCell(FullGrid(p), c) && !IsCell(p, c)
  }

  ghost predicate TailOff(p: Problem, scope: Scope, m: Id, d: int, trigger: Code, days: set<Weekday>,
                          segment: Segment) {
    && HasCode(p, scope, m, d, trigger) && WeekdayOfDay(d) in days
    && HasCode(FullGrid(p), scope, m, d + segment.offsetDays, segment.shiftType)
    && !HasCode(p, scope, m, d + segment.offsetDays, segment.shiftType)
  }

  lemma AdmitsAlike(p: Problem, scope: Scope, c: Cell)
    ensures Admits(p, scope, c) <==> Admits(FullGrid(p), scope, c)
  {
  }

  lemma WorksCodeAlike(p: Problem, scope: Scope, x: set<Cell>, m: Id, d: int, code: Code)
    ensures WorksCode(p, scope, x, m, d, code) <==> WorksCode(FullGrid(p), scope, x, m, d, code)
  {
  }

  lemma WorksOnAlike(p: Problem, scope: Scope, x: set<Cell>, m: Id, d: int)
    ensures WorksOn(p, scope, x, m, d) <==> WorksOn(FullGrid(p), scope, x, m, d)
  {
  }

  lemma WorksAlike(p: Problem, scope: Scope, x: set<Cell>)
    ensures forall m, d, code :: WorksCode(p, scope, x, m, d, code) <==> WorksCode(FullGrid(p), scope, x, m, d, code)
    ensures forall m, d :: WorksOn(p, scope, x, m, d) <==> WorksOn(FullGrid(p), scope, x, m, d)
    ensures forall c :: Admits(p, scope, c) <==> Admits(FullGrid(p), scope, c)
  {
    forall m, d, code { WorksCodeAlike(p, scope, x, m, d, code); }
    forall m, d { WorksOnAlike(p, scope, x, m, d); }
    forall c { AdmitsAlike(p, scope, c); }
  }

  /** On a date, a member has all of their cells or none of them are off. */
  lemma LinksAlike(p: Problem, scope: Scope, x: set<Cell>, m: Id, d: int, names: seq<Code>)
    requires OnGrid(p, x)
    ensures HasAll(p, scope, m, d, names) ==> HasAll(FullGrid(p), scope, m, d, names)
    ensures HasAll(FullGrid(p), scope, m, d, names) && !HasAll(p, scope, m, d, names) ==>
              forall code :: !WorksCode(p, scope, x, m, d, code)
  {
  }

  lemma LinkAlikeAt(p: Problem, scope: Scope, x: set<Cell>, m: Id, d: int, names: seq<Code>)
    requires OnGrid(p, x)
    ensures (HasAll(p, scope, m, d, names) ==> AllOrNone(p, scope, x, m, d, names))
       <==> (HasAll(FullGrid(p), scope, m, d, names) ==> AllOrNone(FullGrid(p), scope, x, m, d, names))
    ensures (HasAll(p, scope, m, d, names) ==> AtMostOne(p, scope, x, m, d, names))
       <==> (HasAll(FullGrid(p), scope, m, d, names) ==> AtMostOne(FullGrid(p), scope, x, m, d, names))
  {
  }

  lemma LinkedAlike(p: Problem, scope: Scope, kind: Kind, x: set<Cell>)
    requires Resolved(p) && OnGrid(p, x) && Modellable(p, Hard("", scope, kind))
    requires kind.LinkedShifts? || kind.MutuallyExclusive?
    ensures Accepts(p, scope, kind, x) <==> Accepts(FullGrid(p), scope, kind, x)
  {
    var names := if kind.LinkedShifts? then kind.linked else kind.exclusive;
    forall m, d { LinkAlikeAt(p, scope, x, m, d, names); }
  }

  lemma ImpliedAlike(p: Problem, scope: Scope, x: set<Cell>, a: Code, b: Code)
    requires Resolved(p) && OnGrid(p, x) && Modellable(p, Hard("", scope, ImpliesAssignment(a, b)))
    ensures Accepts(p, scope, ImpliesAssignment(a, b), x) <==> Accepts(FullGrid(p), scope, ImpliesAssignment(a, b), x)
  {
    forall m, d
      ensures WorksCode(p, scope, x, m, d, a) <==> WorksCode(FullGrid(p), scope, x, m, d, a)
      ensures WorksCode(p, scope, x, m, d, b) <==> WorksCode(FullGrid(p), scope, x, m, d, b)
    {
      WorksCodeAlike(p, scope, x, m, d, a);
      WorksCodeAlike(p, scope, x, m, d, b);
    }
    forall m, d {
      LinksAlike(p, scope, x, m, d, [a, b]);
    }
  }

  lemma CountsAlike(p: Problem, scope: Scope, x: set<Cell>)
    ensures forall d, s :: OnDateShift(p, scope, x, d, s) == OnDateShift(FullGrid(p), scope, x, d, s)
    ensures forall m, lo, hi :: Between(p, scope, x, m, lo, hi) == Between(FullGrid(p), scope, x, m, lo, hi)
    ensures forall m, w :: OnWeekday(p, scope, x, m, w) == OnWeekday(FullGrid(p), scope, x, m, w)
    ensures forall w :: WeekdayDates(p, scope, w) == WeekdayDates(FullGrid(p), scope, w)
    ensures forall code :: CoverageCode(p, scope, code) <==> CoverageCode(FullGrid(p), scope, code)
  {
  }

  /** Kinds that count assignments, or look at single ones. */
  lemma CountingAlike(p: Problem, scope: Scope, kind: Kind, x: set<Cell>)
    requires Resolved(p) && Modellable(p, Hard("", scope, kind))
    requires kind.RequiredCount? || kind.MinCoverage? || kind.MaxCoverage? || kind.WeekdayFteLimit? || Bars(kind)
             || kind.PickPositionRestriction? || kind.MaxAssignmentsInWindow?
    ensures Accepts(p, scope, kind, x) <==> Accepts(FullGrid(p), scope, kind, x)
  {
    hide Admits, FteLimit, Coverage, WindowsBounded;
    match kind
    case WeekdayFteLimit(w, fraction) => FteAlike(p, scope, x, w, fraction);
    case MaxAssignmentsInWindow(n, span) => forall m { WindowsAlike(p, scope, x, m, n, span); }
    case RequiredCount(n) => CoverageAlike(p, scope, x, Eq, n);
    case MinCoverage(n) => CoverageAlike(p, scope, x, Ge, n);
    case MaxCoverage(n) => CoverageAlike(p, scope, x, Le, n);
    case PickPositionRestriction =>
    case _ => BarsAlike(p, scope, kind, x);
  }

  lemma BarsAlike(p: Problem, scope: Scope, kind: Kind, x: set<Cell>)
    requires Resolved(p) && Modellable(p, Hard("", scope, kind)) && Bars(kind)
    ensures Accepts(p, scope, kind, x) <==> Accepts(FullGrid(p), scope, kind, x)
  {
    hide Admits;
    forall c { AdmitsAlike(p, scope, c); }
    assert forall m, q, d :: HoldsOn(p, m, q, d) <==> HoldsOn(FullGrid(p), m, q, d);
  }

  lemma FteAlike(p: Problem, scope: Scope, x: set<Cell>, w: Weekday, fraction: real)
    ensures forall m :: OnWeekday(p, scope, x, m, w) == OnWeekday(FullGrid(p), scope, x, m, w)
    ensures forall m :: FteLimit(p, m, w, fraction, |WeekdayDates(p, scope, w)|)
                     == FteLimit(FullGrid(p), m, w, fraction, |WeekdayDates(FullGrid(p), scope, w)|)
  {
    CountsAlike(p, scope, x);
    hide OnWeekday, WeekdayDates, Portion;
  }

  lemma WindowsAlike(p: Problem, scope: Scope, x: set<Cell>, m: Id, maxCount: nat, span: nat)
    ensures WindowsBounded(p, scope, x, m, maxCount, span) <==> WindowsBounded(FullGrid(p), scope, x, m, maxCount, span)
  {
    CountsAlike(p, scope, x);
    hide Between;
  }

  lemma CoverageAlike(p: Problem, scope: Scope, x: set<Cell>, cmp: Cmp, bound: int)
    ensures Coverage(p, scope, x, cmp, bound) <==> Coverage(FullGrid(p), scope, x, cmp, bound)
  {
    CountsAlike(p, scope, x);
    assert forall d :: InWindow(p, scope, d) <==> InWindow(FullGrid(p), scope, d);
  }

  lemma TogetherAlike(p: Problem, scope: Scope, x: set<Cell>, a: Cell, b: Cell)
    ensures Together(p, scope, x, a, b) <==> Together(FullGrid(p), scope, x, a, b)
  {
  }

  lemma RunsAlike(p: Problem, scope: Scope, x: set<Cell>, m: Id, maxDays: nat)
    ensures NoLongRun(p, scope, x, m, maxDays) <==> NoLongRun(FullGrid(p), scope, x, m, maxDays)
  {
    forall d { WorksOnAlike(p, scope, x, m, d); }
    forall lo, hi ensures WorksThrough(p, scope, x, m, lo, hi) <==> WorksThrough(FullGrid(p), scope, x, m, lo, hi) {
    }
  }

  lemma SequencesAlike(p: Problem, scope: Scope, x: set<Cell>, m: Id, d: int, sequence: seq<Code>)
    ensures RunsThrough(p, scope, x, m, d, sequence) <==> RunsThrough(FullGrid(p), scope, x, m, d, sequence)
  {
  }

  /** Kinds that look at pairs or runs of assignments. */
  lemma SpacingAlike(p: Problem, scope: Scope, kind: Kind, x: set<Cell>)
    requires Resolved(p) && Modellable(p, Hard("", scope, kind))
    requires kind.MaxConsecutive? || kind.MinimumRestBetween? || kind.CallSpacing?
             || kind.ForbiddenSequence? || kind.AlternatingWeek?
    ensures Accepts(p, scope, kind, x) <==> Accepts(FullGrid(p), scope, kind, x)
  {
    hide Admits, Together, RunsThrough, NoLongRun, WorksCode, RestPair;
    match kind
    case MaxConsecutive(k) => forall m { RunsAlike(p, scope, x, m, k); }
    case MinimumRestBetween(minutes) => forall a, b { TogetherAlike(p, scope, x, a, b); }
    case CallSpacing(k) => forall a, b { TogetherAlike(p, scope, x, a, b); }
    case ForbiddenSequence(sequence) => forall m, d { SequencesAlike(p, scope, x, m, d, sequence); }
    case AlternatingWeek(code, cycle) => forall m, d { WorksCodeAlike(p, scope, x, m, d, code); }
  }

  lemma AdjacentAlike(p: Problem, scope: Scope, x: set<Cell>, a: Code, b: Code)
    ensures NotAdjacent(p, scope, x, a, b) <==> NotAdjacent(FullGrid(p), scope, x, a, b)
  {
    forall m, d
      ensures WorksCode(p, scope, x, m, d, a) <==> WorksCode(FullGrid(p), scope, x, m, d, a)
      ensures WorksCode(p, scope, x, m, d, b) <==> WorksCode(FullGrid(p), scope, x, m, d, b)
    {
      WorksCodeAlike(p, scope, x, m, d, a);
      WorksCodeAlike(p, scope, x, m, d, b);
    }
  }

  /** Every rule but one that reaches for a dropped cell accepts the same schedules on both grids. */
  lemma AcceptsAlike(p: Problem, scope: Scope, kind: Kind, x: set<Cell>)
    requires Resolved(p) && Modellable(p, Hard("", scope, kind)) && OnGrid(p, x)
    requires !Reaches(p, scope, kind)
    ensures Accepts(p, scope, kind, x) <==> Accepts(FullGrid(p), scope, kind, x)
  {
    hide Reaches, Modellable;
    match kind
    case LinkedShifts(names) => LinkedAlike(p, scope, kind, x);
    case MutuallyExclusive(names) => LinkedAlike(p, scope, kind, x);
    case ImpliesAssignment(a, b) => ImpliedAlike(p, scope, x, a, b);
    case PatternRule(trigger, days, segments) => PatternAlike(p, scope, x, trigger, days, segments);
    case FixedAssignment(_) => KeptAlike(p, scope, kind, x);
    case ProtectedRange(_, _) => KeptAlike(p, scope, kind, x);
    case NoAdjacent(a, b) => AdjacentAlike(p, scope, x, a, b);
    case _ =>
      if kind.MaxConsecutive? || kind.MinimumRestBetween? || kind.CallSpacing?
         || kind.ForbiddenSequence? || kind.AlternatingWeek? {
        SpacingAlike(p, scope, kind, x);
      } else {
        CountingAlike(p, scope, kind, x);
      }
  }

  lemma KeptAlike(p: Problem, scope: Scope, kind: Kind, x: set<Cell>)
    requires Resolved(p) && Modellable(p, Hard("", scope, kind)) && Keeps(kind) && !Reaches(p, scope, kind)
    ensures Accepts(p, scope, kind, x) <==> Accepts(FullGrid(p), scope, kind, x)
  {
    FullGridCells(p);
    forall i | 0 <= i < |p.fixed| && Kept(kind, p.fixed[i])
      ensures IsCell(p, p.fixed[i].cell) <==> IsCell(FullGrid(p), p.fixed[i].cell)
    {
      assert !DroppedCell(p, p.fixed[i].cell);
    }
  }

  lemma PatternAlike(p: Problem, scope: Scope, x: set<Cell>, trigger: Code, days: set<Weekday>, segments: seq<Segment>)
    requires Resolved(p) && OnGrid(p, x) && !Reaches(p, scope, PatternRule(trigger, days, segments))
    ensures Patterned(p, scope, x, trigger, days, segments) <==>
              Patterned(FullGrid(p), scope, x, trigger, days, segments)
  {
    FullGridCells(p);
    WorksAlike(p, scope, x);
    forall m, d, i | WorksCode(p, scope, x, m, d, trigger) && WeekdayOfDay(d) in days && 0 <= i < |segments|
      ensures Followed(p, scope, x, m, d + segments[i].offsetDays, segments[i].shiftType)
         <==> Followed(FullGrid(p), scope, x, m, d + segments[i].offsetDays, segments[i].shiftType)
    {
      CheckerAgreement.WorkedExists(p, scope, x, m, d);
      assert !TailOff(p, scope, m, d, trigger, days, segments[i]);
    }
  }

  /** And a rule that does reach for one accepts some schedule on the small grid only. */
  lemma ReachingRuleDiffers(p: Problem, scope: Scope, kind: Kind) returns (x: set<Cell>)
    requires Resolved(p) && Modellable(p, Hard("", scope, kind)) && Reaches(p, scope, kind)
    ensures OnGrid(p, x) && Accepts(p, scope, kind, x) && !Accepts(FullGrid(p), scope, kind, x)
  {
    x := Cells(p);
    match kind
    case PatternRule(trigger, days, segments) =>
      var m, d, i :| 0 <= i < |segments| && TailOff(p, scope, m, d, trigger, days, segments[i]);
      FullScheduleFollows(p, scope, x, trigger, days, segments);
      TailBreaks(p, scope, x, m, d, trigger, days, segments, i);
    case FixedAssignment(_) => KeptBreaks(p, scope, kind, x);
    case ProtectedRange(_, _) => KeptBreaks(p, scope, kind, x);
  }

  lemma FullScheduleFollows(p: Problem, scope: Scope, x: set<Cell>, trigger: Code, days: set<Weekday>,
                            segments: seq<Segment>)
    requires x == Cells(p)
    ensures Patterned(p, scope, x, trigger, days, segments)
  {
  }

  lemma TailBreaks(p: Problem, scope: Scope, x: set<Cell>, m: Id, d: int, trigger: Code, days: set<Weekday>,
                   segments: seq<Segment>, i: nat)
    requires x == Cells(p) && i < |segments| && TailOff(p, scope, m, d, trigger, days, segments[i])
    ensures !Patterned(FullGrid(p), scope, x, trigger, days, segments)
  {
    WorksCodeAlike(p, scope, x, m, d, trigger);
    assert WorksCode(FullGrid(p), scope, x, m, d, trigger);
    WorksCodeAlike(p, scope, x, m, d + segments[i].offsetDays, segments[i].shiftType);
    CheckerAgreement.WorkedExists(p, scope, x, m, d + segments[i].offsetDays);
    assert !Followed(FullGrid(p), scope, x, m, d + segments[i].offsetDays, segments[i].shiftType);
  }

  lemma KeptBreaks(p: Problem, scope: Scope, kind: Kind, x: set<Cell>)
    requires Resolved(p) && Modellable(p, Hard("", scope, kind)) && Keeps(kind) && Reaches(p, scope, kind)
              && x == Cells(p)
    ensures Accepts(p, scope, kind, x) && !Accepts(FullGrid(p), scope, kind, x)
  {
  }

  // ---------------------------------------------------------------- the whole problem

  ghost predicate NoRuleReaches(p: Problem, rules: seq<Rule>) {
    forall i :: 0 <= i < |rules| && rules[i].Hard? ==> !Reaches(p, rules[i].scope, rules[i].kind)
  }

  predicate NoPinOff(p: Problem) {
    forall i :: 0 <= i < |p.fixed| && p.fixed[i].isPinned ==> !DroppedCell(p, p.fixed[i].cell)
  }

  predicate NaturalDemand(p: Problem) {
    forall k :: k in p.required ==> p.required[k] >= 0
  }

  /** A fixed input that is not pinned may be on a day off, and a requirement may be nothing. */
  lemma UnpinnedAndUnwanted(p: Problem)
    ensures (forall f :: f in p.fixed ==> !f.isPinned) ==> NoPinOff(p)
    ensures (forall k :: k in p.required ==> p.required[k] == 0) ==> NaturalDemand(p)
  {
    assert forall i :: 0 <= i < |p.fixed| ==> p.fixed[i] in p.fixed;
  }

  lemma DemandAlike(p: Problem, x: set<Cell>)
    requires Resolved(p) && OnGrid(p, x) && NaturalDemand(p)
    ensures AllSlotsPossible(p) && DemandMet(p, x) <==> AllSlotsPossible(FullGrid(p)) && DemandMet(FullGrid(p), x)
  {
    FullGridCells(p);
    forall d, s
      ensures SlotPossible(p, d, s) && SlotMet(p, x, d, s)
         <==> SlotPossible(FullGrid(p), d, s) && SlotMet(FullGrid(p), x, d, s)
    {
      assert Staffing(p, x, d, s) == Staffing(FullGrid(p), x, d, s);
      assert Staffable(p, d, s) ==> Staffable(FullGrid(p), d, s);
      if !Staffable(p, d, s) {
        assert forall c :: c in Staffing(p, x, d, s) ==> IsCell(p, c) && c == Cell(c.m, d, s);
        assert Staffing(p, x, d, s) == {};
      }
    }
    assert AllSlotsPossible(p) && DemandMet(p, x) <==>
      forall d, s :: p.start <= d <= p.end && s in p.shiftIds ==> SlotPossible(p, d, s) && SlotMet(p, x, d, s);
  }

  lemma TargetAlike(p: Problem, scope: Scope, percentage: real)
    ensures WindowLength(p, scope) == WindowLength(FullGrid(p), scope)
    ensures TargetCount(p, scope, percentage) == TargetCount(FullGrid(p), scope, percentage)
  {
    hide Share;
    assert WindowLength(p, scope) == WindowLength(FullGrid(p), scope);
  }

  lemma AssignedAlike(p: Problem, scope: Scope, x: set<Cell>, m: Id)
    ensures Assigned(p, scope, x, m) == Assigned(FullGrid(p), scope, x, m)
    ensures HasScopedCell(p, scope, m) ==> HasScopedCell(FullGrid(p), scope, m)
  {
  }

  /** A member without a cell misses no more than the whole window. */
  lemma NoCellNoMiss(p: Problem, scope: Scope, percentage: real, x: set<Cell>, m: Id)
    requires OnGrid(p, x) && 0.0 < percentage <= 100.0 && !HasScopedCell(p, scope, m)
    ensures Miss(p, scope, percentage, x, m) <= WindowLength(p, scope)
  {
    TargetInWindow(p, scope, percentage);
    assert Assigned(p, scope, x, m) == {};
  }

  lemma MissAlike(p: Problem, scope: Scope, percentage: real, x: set<Cell>, m: Id)
    ensures Miss(p, scope, percentage, x, m) == Miss(FullGrid(p), scope, percentage, x, m)
  {
    TargetAlike(p, scope, percentage);
    AssignedAlike(p, scope, x, m);
  }

  lemma SoftFitsAlike(p: Problem, rule: Rule, x: set<Cell>)
    requires Resolved(p) && OnGrid(p, x) && rule.Soft? && Modellable(p, rule)
    ensures SoftFits(p, rule.scope, rule.soft, x) <==> SoftFits(FullGrid(p), rule.scope, rule.soft, x)
  {
    if rule.soft.WorkPercentageTarget? {
      TargetAlike(p, rule.scope, rule.soft.targetPercentage);
      forall m { MissAlike(p, rule.scope, rule.soft.targetPercentage, x, m); }
      forall m { AssignedAlike(p, rule.scope, x, m); }
      forall m | !HasScopedCell(p, rule.scope, m) { NoCellNoMiss(p, rule.scope, rule.soft.targetPercentage, x, m); }
    }
  }

  lemma ModellableAlike(p: Problem, rule: Rule)
    ensures Modellable(p, rule) ==> Modellable(FullGrid(p), rule)
  {
  }

  /** The ordinary model without the days off has exactly the schedules of the full-grid model that
      set those cells to 0. */
  lemma DroppingIsForcing(p: Problem, rules: seq<Rule>, lits: set<Key>, x: set<Cell>)
    requires Resolved(p) && AllModellable(p, rules) && OnGrid(p, x)
    requires NaturalDemand(p) && NoPinOff(p) && NoRuleReaches(p, rules)
    ensures AllModellable(FullGrid(p), rules)
    ensures MetBy(p, rules, false, lits, x) <==> MetBy(FullGrid(p), rules, false, lits, x)
  {
    FullGridCells(p);
    DemandAlike(p, x);
    forall i | 0 <= i < |rules|
      ensures Modellable(FullGrid(p), rules[i])
      ensures RuleMet(p, rules[i], false, lits, x) <==> RuleMet(FullGrid(p), rules[i], false, lits, x)
    {
      ModellableAlike(p, rules[i]);
      match rules[i]
      case Hard(key, scope, kind) => AcceptsAlike(p, scope, kind, x);
      case Soft(_, _, _, _) => SoftFitsAlike(p, rules[i], x);
    }
    forall i | 0 <= i < |p.fixed| && p.fixed[i].isPinned
      ensures IsCell(p, p.fixed[i].cell) <==> IsCell(FullGrid(p), p.fixed[i].cell)
    {
      assert !DroppedCell(p, p.fixed[i].cell);
    }
  }

  // ---------------------------------------------------------------- what the SOFT rules can exclude

  lemma TargetInWindow(p: Problem, scope: Scope, percentage: real)
    requires 0.0 < percentage <= 100.0
    ensures 0 <= TargetCount(p, scope, percentage) <= WindowLength(p, scope)
  {
    var n := WindowLength(p, scope);
    var r := percentage / 100.0 * n as real;
    assert 0.0 <= percentage / 100.0 <= 1.0;
    assert 0.0 <= r <= n as real;
  }

  /** The deviation bound excludes a schedule exactly if a member has more assignments than the target
      and the number of window dates together; nobody who works once a day can. */
  lemma WorkTargetFitsIff(p: Problem, scope: Scope, percentage: real, x: set<Cell>)
    requires 0.0 < percentage <= 100.0
    ensures SoftFits(p, scope, WorkPercentageTarget(percentage), x)
       <==> forall m :: m in p.members && HasScopedCell(p, scope, m) ==>
              |Assigned(p, scope, x, m)| <= TargetCount(p, scope, percentage) + WindowLength(p, scope)
  {
    TargetInWindow(p, scope, percentage);
  }

  lemma {:induction false} OncePerDay(cs: set<Cell>, lo: int, n: nat)
    requires forall c :: c in cs ==> lo <= c.d < lo + n
    requires forall a, b :: a in cs && b in cs && a.d == b.d ==> a == b
    ensures |cs| <= n
  {
    if n > 0 {
      var rest := set c | c in cs && c.d != lo + n - 1;
      OncePerDay(rest, lo, n - 1);
      if c :| c in cs && c.d == lo + n - 1 {
        assert cs == rest + {c};
      } else {
        assert cs == rest;
      }
    }
  }

  lemma OncePerDayFits(p: Problem, scope: Scope, percentage: real, x: set<Cell>)
    requires 0.0 < percentage <= 100.0
    requires forall a, b :: a in x && b in x && a.m == b.m && a.d == b.d ==> a == b
    ensures SoftFits(p, scope, WorkPercentageTarget(percentage), x)
  {
    TargetInWindow(p, scope, percentage);
    forall m | m in p.members ensures |Assigned(p, scope, x, m)| <= WindowLength(p, scope) {
      OncePerDay(Assigned(p, scope, x, m), WindowStart(p, scope), WindowLength(p, scope));
    }
  }

  /** The SOFT rules exclude a schedule the rest of the model admits exactly if some work-percentage
      target has no room for it. */
  lemma SoftExcludesIff(p: Problem, rules: seq<Rule>, reify: bool, lits: set<Key>, x: set<Cell>)
    requires Resolved(p) && AllModellable(p, rules)
    ensures AllModellable(p, HardOnly(rules))
    ensures MetBy(p, rules, reify, lits, x)
       <==> MetBy(p, HardOnly(rules), reify, lits, x)
            && forall r :: r in rules && r.Soft? ==> SoftFits(p, r.scope, r.soft, x)
  {
    HardOnlyRules(rules);
    var hard := HardOnly(rules);
    forall i | 0 <= i < |hard| ensures Modellable(p, hard[i]) {
      assert hard[i] in hard;
    }
    AllMet(p, rules, reify, lits, x);
    AllMet(p, hard, reify, lits, x);
  }

  /** The cap alone turns down the one schedule there is: half of a single day rounds to no assignment,
      and two are one more than the cap takes. */
  lemma CapAloneExcludes() returns (p: Problem, rules: seq<Rule>, x: set<Cell>)
    ensures Resolved(p) && AllModellable(p, rules) && AllModellable(p, HardOnly(rules)) && OnGrid(p, x)
    ensures MetBy(p, HardOnly(rules), false, {}, x) && !MetBy(p, rules, false, {}, x)
    ensures forall y :: OnGrid(p, y) && DemandMet(p, y) ==> y == x
  {
    hide Readiness.OneForTwo, Readiness.BOTH;
    p, x := Readiness.OneForTwo([]), Readiness.BOTH;
    rules := [Soft("half", EVERYTHING, WorkPercentageTarget(50.0), None)];
    BothMeetTheRest();
    assert HardOnly(rules) == HardOnly([]) + [];
    NoRoomForBoth();
    assert !RuleMet(p, rules[0], false, {}, x);
    forall y | OnGrid(p, y) && DemandMet(p, y) ensures y == x {
      OnlyBoth(y);
    }
  }

  lemma BothMeetTheRest()
    ensures Resolved(Readiness.OneForTwo([])) && OnGrid(Readiness.OneForTwo([]), Readiness.BOTH)
    ensures MetBy(Readiness.OneForTwo([]), [], false, {}, Readiness.BOTH)
  {
    Readiness.BothShiftsWorked([]);
  }

  lemma NoRoomForBoth()
    ensures !SoftFits(Readiness.OneForTwo([]), EVERYTHING, WorkPercentageTarget(50.0), Readiness.BOTH)
  {
    var p, x := Readiness.OneForTwo([]), Readiness.BOTH;
    assert WindowLength(p, EVERYTHING) == 1 && TargetCount(p, EVERYTHING, 50.0) == 0;
    assert Assigned(p, EVERYTHING, x, 7) == x && |x| == 2;
    assert IsCell(p, Cell(7, 0, 1)) && HasScopedCell(p, EVERYTHING, 7);
    WorkTargetFitsIff(p, EVERYTHING, 50.0, x);
  }

  lemma OnlyBoth(y: set<Cell>)
    requires OnGrid(Readiness.OneForTwo([]), y) && DemandMet(Readiness.OneForTwo([]), y)
    ensures y == Readiness.BOTH
  {
    var p := Readiness.OneForTwo([]);
    forall s | s == 1 || s == 2 ensures Cell(7, 0, s) in y {
      assert s in p.shiftIds && IsCell(p, Cell(7, 0, s)) && SlotMet(p, y, 0, s);
      var c :| c in Staffing(p, y, 0, s);
      assert IsCell(p, c);
    }
  }

  /** Every pinned input is in the schedule. */
  ghost predicate AllPinsIn(p: Problem, x: set<Cell>) {
    forall i :: 0 <= i < |p.fixed| && p.fixed[i].isPinned ==> p.fixed[i].cell in x
  }

  /** The posted pins see to all pinned inputs, on all schedules, exactly if each pinned input has a cell. */
  lemma PinsAreKeptIff(p: Problem)
    ensures (forall x :: OnGrid(p, x) && PinsKept(p, x) ==> AllPinsIn(p, x))
       <==> forall i :: 0 <= i < |p.fixed| && p.fixed[i].isPinned ==> IsCell(p, p.fixed[i].cell)
  {
    assert OnGrid(p, Cells(p)) && PinsKept(p, Cells(p));
  }

  /** A pin on a day off is not kept, and nothing says so: the empty schedule meets the whole model. */
  lemma PinOnDayOffIsPassedOver(m: Id, s: Id) returns (p: Problem)
    ensures Resolved(p) && AllModellable(p, []) && p.fixed == [Fixed(1, Cell(m, 0, s), true)]
    ensures IsCell(FullGrid(p), Cell(m, 0, s)) && MetBy(p, [], false, {}, {})
  {
    p := Problem(0, 0, [s], map[s := "D"], map["D" := s], map[s := false], map[s := Times(480, 960, false)], map[],
                 [m], {(m, s)}, map[], map[], map[], map[], map[], map[], {(m, 0)}, [Fixed(1, Cell(m, 0, s), true)]);
    assert m in p.members && s in p.shiftIds;
  }

  /** The rules of a list are met one by one, in any order. */
  lemma AllMet(p: Problem, rules: seq<Rule>, reify: bool, lits: set<Key>, x: set<Cell>)
    requires Resolved(p) && AllModellable(p, rules)
    ensures (forall i :: 0 <= i < |rules| ==> RuleMet(p, rules[i], reify, lits, x))
       <==> (forall r :: r in rules ==> Modellable(p, r) && RuleMet(p, r, reify, lits, x))
  {
  }

  function HardOnly(rules: seq<Rule>): seq<Rule> {
    if rules == [] then []
    else HardOnly(rules[..|rules| - 1]) + if rules[|rules| - 1].Hard? then [rules[|rules| - 1]] else []
  }

  lemma {:induction false} HardOnlyRules(rules: seq<Rule>)
    ensures forall r :: r in HardOnly(rules) <==> r in rules && r.Hard?
  {
    if rules != [] {
      HardOnlyRules(rules[..|rules| - 1]);
      assert rules == rules[..|rules| - 1] + [rules[|rules| - 1]];
    }
  }
}
