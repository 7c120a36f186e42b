/** What the built model means for schedules: which ones extend to a solution of it, under which
    assumption literals, and what the objective is worth on them. */
module CompiledMeaning {
  import opened Wrappers
  import opened Problems
  import opened LinearModel
  import opened RuleMeaning
  import opened MemberByDate
  import opened HardRules
  import opened SoftRules
  import opened Compiler

  // ---------------------------------------------------------------- what is asked of a schedule

  /** The deviation variables have room for the schedule. No other SOFT rule can exclude one. */
  ghost predicate SoftFits(p: Problem, scope: Scope, soft: SoftKind, x: set<Cell>) {
    soft.WorkPercentageTarget? ==>
      forall m :: m in p.members && HasScopedCell(p, scope, m) ==>
        Miss(p, scope, soft.targetPercentage, x, m) <= WindowLength(p, scope)
  }

  ghost predicate RuleMet(p: Problem, rule: Rule, reify: bool, lits: set<Key>, x: set<Cell>)
    requires Resolved(p) && Modellable(p, rule)
  {
    match rule
    case Hard(key, scope, kind) => On(reify, key, lits) ==> Accepts(p, scope, kind, x)
    case Soft(_, scope, soft, _) => SoftFits(p, scope, soft, x)
  }

  /** The statements no literal releases, and the groups `lits` names. */
  ghost predicate MetBy(p: Problem, rules: seq<Rule>, reify: bool, lits: set<Key>, x: set<Cell>)
    requires Resolved(p) && AllModellable(p, rules)
  {
    && AllSlotsPossible(p)
    && (On(reify, DEMAND_KEY, lits) ==> DemandMet(p, x))
    && PinsKept(p, x)
    && forall i :: 0 <= i < |rules| ==> RuleMet(p, rules[i], reify, lits, x)
  }

  // ---------------------------------------------------------------- reading the auxiliaries off a schedule

  /** The largest load of the first `n` members that have one, and the smallest. */
  ghost function Highest(p: Problem, f: map<Cell, int>, x: set<Cell>, n: nat): int
    requires n <= |p.members|
  {
    if n == 0 then 0
    else
      var h := Highest(p, f, x, n - 1);
      var l := Load(f, x, p.members[n - 1]);
      if Counted(p, f, p.members[n - 1]) && l > h then l else h
  }

  ghost function Lowest(p: Problem, f: map<Cell, int>, x: set<Cell>, n: nat): int
    requires n <= |p.members|
  {
    if n == 0 then Upper(f)
    else
      var h := Lowest(p, f, x, n - 1);
      var l := Load(f, x, p.members[n - 1]);
      if Counted(p, f, p.members[n - 1]) && l < h then l else h
  }

  ghost predicate ReadsTrue(p: Problem, rules: seq<Rule>, x: set<Cell>, v: BVar) {
    match v
    case X(c) => c in x
    case Worked(ri, m, d) => ri < |rules| && WorksOn(p, rules[ri].scope, x, m, d)
    case InClass(ri, m, class_) =>
      ri < |rules| && rules[ri].Hard? && rules[ri].kind.AlternatingWeek? && rules[ri].kind.cycleWeeks >= 1
      && UsesClass(p, rules[ri].scope, x, m, rules[ri].kind.onShiftType, rules[ri].kind.cycleWeeks, class_)
  }

  ghost predicate UsesClass(p: Problem, scope: Scope, x: set<Cell>, m: Id, code: Code, cycle: int, class_: int)
    requires cycle >= 1
  {
    exists d :: WorksCode(p, scope, x, m, d, code) && ClassOf(p, scope, d, cycle) == class_
  }

  ghost function ReadsAs(p: Problem, rules: seq<Rule>, x: set<Cell>, v: NVar): int {
    if v.rule >= |rules| || !rules[v.rule].Soft? then 0
    else
      var scope, soft := rules[v.rule].scope, rules[v.rule].soft;
      match v
      case Deviation(_, m) => if soft.WorkPercentageTarget? then Miss(p, scope, soft.targetPercentage, x, m) else 0
      case High(_) => if TierRank(soft) == 1 then Highest(p, BurdensOf(p, scope, soft), x, |p.members|) else 0
      case Low(_) => if TierRank(soft) == 1 then Lowest(p, BurdensOf(p, scope, soft), x, |p.members|) else 0
  }

  /** The schedule, with every auxiliary variable at its own value. */
  ghost function Reading(p: Problem, rules: seq<Rule>, x: set<Cell>): Val {
    Val(iset v | ReadsTrue(p, rules, x, v), imap v | true :: ReadsAs(p, rules, x, v))
  }

  lemma ReadingPicks(p: Problem, rules: seq<Rule>, x: set<Cell>)
    requires OnGrid(p, x)
    ensures Picks(p, Reading(p, rules, x)) == x
  {
  }

  // ---------------------------------------------------------------- HARD rules

  /** Whatever the auxiliaries are, the posted statements give the rule. */
  lemma GuardIsSound(p: Problem, ri: nat, scope: Scope, kind: Kind, w: Val)
    requires Resolved(p) && Modellable(p, Hard("", scope, kind))
    requires AuxHolds(p, ri, scope, kind, w) && GuardHolds(p, ri, scope, kind, w)
    ensures Accepts(p, scope, kind, Picks(p, w))
  {
    if kind.AlternatingWeek? && kind.cycleWeeks >= 1 {
      var x, code, cycle := Picks(p, w), kind.onShiftType, kind.cycleWeeks;
      forall m, d, e | WorksCode(p, scope, x, m, d, code) && WorksCode(p, scope, x, m, e, code)
        ensures ClassOf(p, scope, d, cycle) == ClassOf(p, scope, e, cycle)
      {
        var i :| 0 <= i < |p.members| && p.members[i] == m;
        assert AuxAt(p, ri, scope, kind, w, p.members[i]) && GuardAt(p, ri, scope, kind, w, p.members[i]);
        var a, c := ClassOf(p, scope, d, cycle), ClassOf(p, scope, e, cycle);
        assert HasCode(p, scope, m, d, code) && HasCode(p, scope, m, e, code);
        assert ClassExists(p, scope, m, code, cycle, a) && ClassExists(p, scope, m, code, cycle, c);
        if a != c {
          assert ClassIsMarked(p, ri, scope, w, m, code, cycle, a) && ClassIsMarked(p, ri, scope, w, m, code, cycle, c);
          assert MarkedClass(p, ri, scope, w, m, code, cycle, a) && MarkedClass(p, ri, scope, w, m, code, cycle, c);
        }
      }
    }
  }

  /** Read off any schedule, the auxiliaries meet what is asked of them. */
  lemma AuxReads(p: Problem, rules: seq<Rule>, ri: nat, x: set<Cell>)
    requires OnGrid(p, x) && ri < |rules| && rules[ri].Hard?
    ensures AuxHolds(p, ri, rules[ri].scope, rules[ri].kind, Reading(p, rules, x))
  {
    var w, scope, kind := Reading(p, rules, x), rules[ri].scope, rules[ri].kind;
    ReadingPicks(p, rules, x);
    forall i | 0 <= i < |p.members| ensures AuxAt(p, ri, scope, kind, w, p.members[i]) {
      var m := p.members[i];
      if kind.MaxConsecutive? {
        forall d ensures DayIsRead(p, ri, scope, w, m, d) {
          assert ReadsTrue(p, rules, x, Worked(ri, m, d)) <==> WorksOn(p, scope, x, m, d);
        }
      } else if kind.AlternatingWeek? && kind.cycleWeeks >= 1 {
        forall class_ ensures ClassIsMarked(p, ri, scope, w, m, kind.onShiftType, kind.cycleWeeks, class_) {
          assert ReadsTrue(p, rules, x, InClass(ri, m, class_)) <==>
            UsesClass(p, scope, x, m, kind.onShiftType, kind.cycleWeeks, class_);
        }
      }
    }
  }

  lemma GuardReads(p: Problem, rules: seq<Rule>, ri: nat, x: set<Cell>)
    requires Resolved(p) && OnGrid(p, x) && ri < |rules| && rules[ri].Hard? && Modellable(p, rules[ri])
    requires Accepts(p, rules[ri].scope, rules[ri].kind, x)
    ensures GuardHolds(p, ri, rules[ri].scope, rules[ri].kind, Reading(p, rules, x))
  {
    var w, scope, kind := Reading(p, rules, x), rules[ri].scope, rules[ri].kind;
    ReadingPicks(p, rules, x);
    if kind.AlternatingWeek? && kind.cycleWeeks >= 1 {
      var code, cycle := kind.onShiftType, kind.cycleWeeks;
      forall i | 0 <= i < |p.members| ensures GuardAt(p, ri, scope, kind, w, p.members[i]) {
        var m := p.members[i];
        forall a, c | MarkedClass(p, ri, scope, w, m, code, cycle, a) && MarkedClass(p, ri, scope, w, m, code, cycle, c)
          ensures a == c
        {
          assert ReadsTrue(p, rules, x, InClass(ri, m, a)) && ReadsTrue(p, rules, x, InClass(ri, m, c));
          assert UsesClass(p, scope, x, m, code, cycle, a) && UsesClass(p, scope, x, m, code, cycle, c);
        }
      }
    }
  }

  // ---------------------------------------------------------------- SOFT rules

  lemma {:induction false} HighestIsMaximum(p: Problem, f: map<Cell, int>, x: set<Cell>, n: nat)
    requires n <= |p.members| && Natural(f)
    ensures 0 <= Highest(p, f, x, n) <= Upper(f) && 0 <= Lowest(p, f, x, n) <= Upper(f)
    ensures forall i :: 0 <= i < n && Counted(p, f, p.members[i]) ==>
              Lowest(p, f, x, n) <= Load(f, x, p.members[i]) <= Highest(p, f, x, n)
  {
    SumOverMonotone(f, {}, f.Keys);
    if n > 0 {
      HighestIsMaximum(p, f, x, n - 1);
      SumOverMonotone(f, LoadCells(f, x, p.members[n - 1]), f.Keys);
    }
  }

  ghost predicate IsLoad(p: Problem, f: map<Cell, int>, x: set<Cell>, n: nat, value: int)
    requires n <= |p.members|
  {
    exists i :: 0 <= i < n && Counted(p, f, p.members[i]) && Load(f, x, p.members[i]) == value
  }

  ghost predicate NoneCounted(p: Problem, f: map<Cell, int>, n: nat)
    requires n <= |p.members|
  {
    forall i :: 0 <= i < n ==> !Counted(p, f, p.members[i])
  }

  /** Both are the loads of members, if any member has one. */
  lemma {:induction false} SpreadIsAttained(p: Problem, f: map<Cell, int>, x: set<Cell>, n: nat)
    requires n <= |p.members| && Natural(f)
    ensures NoneCounted(p, f, n) ==> Highest(p, f, x, n) == 0 && Lowest(p, f, x, n) == Upper(f)
    ensures !NoneCounted(p, f, n) ==> IsLoad(p, f, x, n, Highest(p, f, x, n)) && IsLoad(p, f, x, n, Lowest(p, f, x, n))
  {
    if n > 0 {
      SpreadIsAttained(p, f, x, n - 1);
      var m := p.members[n - 1];
      SumOverMonotone(f, LoadCells(f, x, m), f.Keys);
      assert forall v :: IsLoad(p, f, x, n - 1, v) ==> IsLoad(p, f, x, n, v);
      if Counted(p, f, m) {
        assert IsLoad(p, f, x, n, Load(f, x, m));
      }
    }
  }

  /** Bounds around every load are around the largest and the smallest. */
  lemma {:induction false} SpreadIsLeast(p: Problem, f: map<Cell, int>, x: set<Cell>, n: nat, low: int, high: int)
    requires n <= |p.members| && Natural(f) && high >= 0 && low <= Upper(f)
    requires forall i :: 0 <= i < n && Counted(p, f, p.members[i]) ==> low <= Load(f, x, p.members[i]) <= high
    ensures low <= Lowest(p, f, x, n) && Highest(p, f, x, n) <= high
  {
    if n > 0 {
      SpreadIsLeast(p, f, x, n - 1, low, high);
    }
  }

  lemma BurdensOfNatural(p: Problem, scope: Scope, soft: SoftKind, weight: Option<real>)
    requires TierRank(soft) == 1 && Modellable(p, Soft("", scope, soft, weight))
    ensures Natural(BurdensOf(p, scope, soft))
  {
    match soft
    case FairnessBalance(metric, normalisation) => BurdensNatural(p, scope, metric, normalisation);
    case CreditDistribution(metric) => BurdensNatural(p, scope, metric, PerFte);
  }

  lemma SoftIsSound(p: Problem, ri: nat, scope: Scope, soft: SoftKind, w: Val)
    requires SoftHolds(p, ri, scope, soft, w)
    ensures SoftFits(p, scope, soft, Picks(p, w))
  {
  }

  lemma SoftReads(p: Problem, rules: seq<Rule>, ri: nat, x: set<Cell>)
    requires OnGrid(p, x) && ri < |rules| && rules[ri].Soft? && Modellable(p, rules[ri])
    requires SoftFits(p, rules[ri].scope, rules[ri].soft, x)
    ensures SoftHolds(p, ri, rules[ri].scope, rules[ri].soft, Reading(p, rules, x))
  {
    var w, scope, soft := Reading(p, rules, x), rules[ri].scope, rules[ri].soft;
    ReadingPicks(p, rules, x);
    if soft.WorkPercentageTarget? {
      forall i | 0 <= i < |p.members| ensures DeviationAt(p, ri, scope, soft.targetPercentage, w, p.members[i]) {
        assert IntOf(w, Deviation(ri, p.members[i])) == Miss(p, scope, soft.targetPercentage, x, p.members[i]);
      }
    } else if TierRank(soft) == 1 {
      var f := BurdensOf(p, scope, soft);
      BurdensOfNatural(p, scope, soft, rules[ri].weight);
      HighestIsMaximum(p, f, x, |p.members|);
      assert IntOf(w, High(ri)) == Highest(p, f, x, |p.members|);
      assert IntOf(w, Low(ri)) == Lowest(p, f, x, |p.members|);
      assert LoadsInside(p, ri, f, w, |p.members|);
    }
  }

  // ---------------------------------------------------------------- the main theorem

  /** The schedule extends to a solution of the posted statements with those literals true. */
  ghost predicate Extendable(p: Problem, posted: seq<Posted>, lits: set<Key>, x: set<Cell>) {
    exists w :: Picks(p, w) == x && Sat(posted, w, lits)
  }

  lemma SolutionsAreMet(p: Problem, rules: seq<Rule>, reify: bool, lits: set<Key>, w: Val)
    requires Resolved(p) && AllModellable(p, rules) && BuiltSat(p, rules, reify, w, lits)
    ensures MetBy(p, rules, reify, lits, Picks(p, w))
  {
    forall i | 0 <= i < |rules| ensures RuleMet(p, rules[i], reify, lits, Picks(p, w)) {
      assert RuleSat(p, i, rules[i], reify, w, lits);
      match rules[i]
      case Hard(key, scope, kind) =>
        if On(reify, key, lits) { GuardIsSound(p, i, scope, kind, w); }
      case Soft(key, scope, soft, weight) => SoftIsSound(p, i, scope, soft, w);
    }
  }

  lemma MetIsSolved(p: Problem, rules: seq<Rule>, reify: bool, lits: set<Key>, x: set<Cell>)
    requires Resolved(p) && AllModellable(p, rules) && OnGrid(p, x) && MetBy(p, rules, reify, lits, x)
    ensures BuiltSat(p, rules, reify, Reading(p, rules, x), lits)
  {
    var w := Reading(p, rules, x);
    ReadingPicks(p, rules, x);
    forall i | 0 <= i < |rules| ensures RuleSat(p, i, rules[i], reify, w, lits) {
      assert RuleMet(p, rules[i], reify, lits, x);
      if rules[i].Hard? {
        AuxReads(p, rules, i, x);
        if On(reify, rules[i].key, lits) { GuardReads(p, rules, i, x); }
      } else {
        SoftReads(p, rules, i, x);
      }
    }
  }

  // ---------------------------------------------------------------- the objective

  /** The misses of the first `n` members that have a scoped cell, added up. */
  ghost function MissSum(p: Problem, scope: Scope, percentage: real, x: set<Cell>, n: nat): int
    requires n <= |p.members|
  {
    if n == 0 then 0
    else MissSum(p, scope, percentage, x, n - 1)
         + if HasScopedCell(p, scope, p.members[n - 1]) then Miss(p, scope, percentage, x, p.members[n - 1]) else 0
  }

  /** `k` times the distance between the largest load and the smallest. */
  ghost function SpreadWorth(p: Problem, f: map<Cell, int>, k: int, x: set<Cell>): int {
    if TwoCounted(p, f) then k * (Highest(p, f, x, |p.members|) - Lowest(p, f, x, |p.members|)) else 0
  }

  /** What a SOFT rule is worth on a schedule: its preference count, its misses, or its spread. */
  ghost function Worth(p: Problem, rule: Rule, x: set<Cell>): int {
    if rule.Hard? then 0
    else
      var scope, soft, weight := rule.scope, rule.soft, rule.weight;
      match TierRank(soft)
      case 1 => SpreadWorth(p, BurdensOf(p, scope, soft), SpreadCoefficient(Coefficient(soft, weight)), x)
      case 2 => Coefficient(soft, weight) * MissSum(p, scope, soft.targetPercentage, x, |p.members|)
      case 3 => Factor(soft) * Coefficient(soft, weight) * |Touched(p, scope, soft, x)|
      case _ => 0
  }

  ghost function TotalWorth(p: Problem, rules: seq<Rule>, x: set<Cell>, n: nat): int
    requires n <= |rules|
  {
    if n == 0 then 0 else TotalWorth(p, rules, x, n - 1) + Worth(p, rules[n - 1], x)
  }

  lemma CoefficientNatural(soft: SoftKind, weight: Option<real>)
    requires weight.Some? ==> weight.value > 0.0
    ensures Coefficient(soft, weight) >= 0
  {
  }

  lemma {:induction false} MissIsLeast(p: Problem, ri: nat, scope: Scope, percentage: real, w: Val, n: nat)
    requires n <= |p.members| && DeviationsUpTo(p, ri, scope, percentage, w, n)
    ensures MissSum(p, scope, percentage, Picks(p, w), n) <= DeviationSum(p, ri, scope, w, n)
  {
    if n > 0 {
      MissIsLeast(p, ri, scope, percentage, w, n - 1);
      assert DeviationAt(p, ri, scope, percentage, w, p.members[n - 1]);
    }
  }

  lemma Scale(k: int, a: int, b: int)
    requires k >= 0 && a <= b
    ensures k * a <= k * b
  {
  }

  lemma SpreadCostsItsWorth(p: Problem, ri: nat, f: map<Cell, int>, k: int, w: Val)
    requires Natural(f) && k >= 0 && SpreadHolds(p, ri, f, w)
    ensures SpreadCost(p, ri, f, k, w) >= SpreadWorth(p, f, k, Picks(p, w))
  {
    if !TwoCounted(p, f) {
      return;
    }
    var x := Picks(p, w);
    assert forall i :: 0 <= i < |p.members| ==> LoadInside(p, ri, f, w, p.members[i]);
    SpreadIsLeast(p, f, x, |p.members|, IntOf(w, Low(ri)), IntOf(w, High(ri)));
    Scale(k, Highest(p, f, x, |p.members|) - Lowest(p, f, x, |p.members|), IntOf(w, High(ri)) - IntOf(w, Low(ri)));
  }

  /** No choice of the auxiliaries makes a rule cheaper than it is worth. */
  lemma CostAtLeastWorth(p: Problem, ri: nat, scope: Scope, soft: SoftKind, weight: Option<real>, w: Val)
    requires Resolved(p) && Modellable(p, Soft("", scope, soft, weight)) && SoftHolds(p, ri, scope, soft, w)
    ensures SoftCost(p, ri, scope, soft, weight, w) >= Worth(p, Soft("", scope, soft, weight), Picks(p, w))
  {
    match soft
    case FairnessBalance(_, _) => SpreadRuleCost(p, ri, scope, soft, weight, w);
    case CreditDistribution(_) => SpreadRuleCost(p, ri, scope, soft, weight, w);
    case WorkPercentageTarget(percentage) =>
      CoefficientNatural(soft, weight);
      MissIsLeast(p, ri, scope, percentage, w, |p.members|);
      Scale(Coefficient(soft, weight), MissSum(p, scope, percentage, Picks(p, w), |p.members|),
            DeviationSum(p, ri, scope, w, |p.members|));
    case _ =>
  }

  lemma SpreadRuleCost(p: Problem, ri: nat, scope: Scope, soft: SoftKind, weight: Option<real>, w: Val)
    requires Resolved(p) && Modellable(p, Soft("", scope, soft, weight)) && TierRank(soft) == 1
    requires SpreadHolds(p, ri, BurdensOf(p, scope, soft), w)
    ensures SoftCost(p, ri, scope, soft, weight, w) >= Worth(p, Soft("", scope, soft, weight), Picks(p, w))
  {
    BurdensOfNatural(p, scope, soft, weight);
    SpreadCostsItsWorth(p, ri, BurdensOf(p, scope, soft), SpreadCoefficient(Coefficient(soft, weight)), w);
  }

  lemma {:induction false} MissReads(p: Problem, rules: seq<Rule>, ri: nat, x: set<Cell>, n: nat)
    requires n <= |p.members| && ri < |rules| && rules[ri].Soft? && rules[ri].soft.WorkPercentageTarget?
    ensures DeviationSum(p, ri, rules[ri].scope, Reading(p, rules, x), n)
         == MissSum(p, rules[ri].scope, rules[ri].soft.targetPercentage, x, n)
  {
    if n > 0 {
      MissReads(p, rules, ri, x, n - 1);
      assert IntOf(Reading(p, rules, x), Deviation(ri, p.members[n - 1]))
          == Miss(p, rules[ri].scope, rules[ri].soft.targetPercentage, x, p.members[n - 1]);
    }
  }

  /** The reading of a schedule costs what the schedule is worth. */
  lemma CostReads(p: Problem, rules: seq<Rule>, ri: nat, x: set<Cell>)
    requires ri < |rules| && OnGrid(p, x)
    ensures RuleCost(p, ri, rules[ri], Reading(p, rules, x)) == Worth(p, rules[ri], x)
  {
    ReadingPicks(p, rules, x);
    match rules[ri]
    case Hard(_, _, _) =>
    case Soft(_, scope, soft, weight) =>
      if TierRank(soft) == 1 {
        SpreadReads(p, rules, ri, x, SpreadCoefficient(Coefficient(soft, weight)));
      } else if soft.WorkPercentageTarget? {
        MissReads(p, rules, ri, x, |p.members|);
      }
  }

  lemma SpreadReads(p: Problem, rules: seq<Rule>, ri: nat, x: set<Cell>, k: int)
    requires ri < |rules| && rules[ri].Soft? && TierRank(rules[ri].soft) == 1
    ensures SpreadCost(p, ri, BurdensOf(p, rules[ri].scope, rules[ri].soft), k, Reading(p, rules, x))
         == SpreadWorth(p, BurdensOf(p, rules[ri].scope, rules[ri].soft), k, x)
  {
    hide Reading, Highest, Lowest, BurdensOf;
    ReadingIs(p, rules, x, High(ri));
    ReadingIs(p, rules, x, Low(ri));
  }

  lemma ReadingIs(p: Problem, rules: seq<Rule>, x: set<Cell>, v: NVar)
    ensures IntOf(Reading(p, rules, x), v) == ReadsAs(p, rules, x, v)
  {
    hide ReadsAs;
  }

  lemma RuleCostAtLeastWorth(p: Problem, ri: nat, rule: Rule, reify: bool, w: Val, lits: set<Key>)
    requires Resolved(p) && Modellable(p, rule) && RuleSat(p, ri, rule, reify, w, lits)
    ensures RuleCost(p, ri, rule, w) >= Worth(p, rule, Picks(p, w))
  {
    match rule
    case Hard(_, _, _) =>
    case Soft(_, scope, soft, weight) => CostAtLeastWorth(p, ri, scope, soft, weight, w);
  }

  lemma {:induction false} TotalAtLeastWorth(p: Problem, rules: seq<Rule>, reify: bool, w: Val, lits: set<Key>, n: nat)
    requires Resolved(p) && AllModellable(p, rules) && n <= |rules| && RulesSat(p, rules, reify, w, lits, n)
    ensures Cost(p, rules, w, n) >= TotalWorth(p, rules, Picks(p, w), n)
  {
    hide RuleSat, RuleCost, Worth, Modellable;
    if n > 0 {
      TotalAtLeastWorth(p, rules, reify, w, lits, n - 1);
      RuleCostAtLeastWorth(p, n - 1, rules[n - 1], reify, w, lits);
    }
  }

  lemma {:induction false} TotalReads(p: Problem, rules: seq<Rule>, x: set<Cell>, n: nat)
    requires n <= |rules| && OnGrid(p, x)
    ensures Cost(p, rules, Reading(p, rules, x), n) == TotalWorth(p, rules, x, n)
  {
    hide Reading, RuleCost, Worth;
    if n > 0 {
      TotalReads(p, rules, x, n - 1);
      CostReads(p, rules, n - 1, x);
    }
  }

  // ---------------------------------------------------------------- assumption sets

  /** Some schedule extends to a solution with the literals in `lits` true. */
  ghost predicate Feasible(p: Problem, rules: seq<Rule>, lits: set<Key>)
    requires Resolved(p) && AllModellable(p, rules)
  {
    exists x :: OnGrid(p, x) && MetBy(p, rules, true, lits, x)
  }

  /** Assuming less never loses a schedule. */
  lemma FewerLiteralsAdmitMore(p: Problem, rules: seq<Rule>, fewer: set<Key>, more: set<Key>, x: set<Cell>)
    requires Resolved(p) && AllModellable(p, rules) && fewer <= more
    ensures MetBy(p, rules, true, more, x) ==> MetBy(p, rules, true, fewer, x)
    ensures Feasible(p, rules, more) ==> Feasible(p, rules, fewer)
  {
  }

  /** With every literal true the assumption model has the schedules of the ordinary one. */
  lemma AllLiteralsIsOrdinary(p: Problem, rules: seq<Rule>, lits: set<Key>, any: set<Key>, x: set<Cell>)
    requires Resolved(p) && AllModellable(p, rules)
    requires DEMAND_KEY in lits && forall i :: 0 <= i < |rules| && rules[i].Hard? ==> rules[i].key in lits
    ensures MetBy(p, rules, true, lits, x) <==> MetBy(p, rules, false, any, x)
  {
  }

  /** A rule whose literal is false asks nothing, whatever auxiliaries it has: leaving the rule out
      altogether admits the same schedules. */
  lemma ReleasedRuleAsksNothing(p: Problem, rules: seq<Rule>, at: nat, lits: set<Key>, x: set<Cell>)
    requires Resolved(p) && AllModellable(p, rules)
    requires at < |rules| && rules[at].Hard? && rules[at].key !in lits
    ensures AllModellable(p, rules[..at] + rules[at + 1..])
    ensures MetBy(p, rules, true, lits, x) <==> MetBy(p, rules[..at] + rules[at + 1..], true, lits, x)
  {
    var rest := rules[..at] + rules[at + 1..];
    forall i | 0 <= i < |rest| ensures rest[i] == if i < at then rules[i] else rules[i + 1] {
    }
    if MetBy(p, rest, true, lits, x) {
      forall i | 0 <= i < |rules| ensures RuleMet(p, rules[i], true, lits, x) {
        if i < at { assert RuleMet(p, rest[i], true, lits, x); }
        if i > at { assert RuleMet(p, rest[i - 1], true, lits, x); }
      }
    }
  }

  /** No statement of a model under construction, and no term of its objective, names a cell on a day its
      member is off: there is nothing for a later constraint to refer to. */
  lemma NothingNamesADayOff(p: Problem, b: Built, c: Cell)
    requires b.Valid() && b.Covers(p) && (c.m, c.d) in p.hardOff
    ensures forall i :: 0 <= i < |b.posted| ==> !Mentions(b.posted[i].stmt, X(c))
    ensures forall i :: 0 <= i < |b.tiers| ==> !Uses(b.tiers[i].terms, X(c))
  {
  }

  /** The valuation with the cells of days off, and all others that are not on the grid, set another way. */
  ghost function Besides(p: Problem, w: Val, also: set<Cell>): Val {
    w.(t := iset v: BVar | if v.X? && !IsCell(p, v.cell) then v.cell in also else v in w.t)
  }

  /** So whatever a valuation says about such cells is of no consequence: it is a solution, picks a schedule
      and costs what it did. */
  lemma DaysOffAreUnheard(p: Problem, b: Built, w: Val, also: set<Cell>, lits: set<Key>)
    requires b.Valid() && b.Covers(p)
    ensures Sat(b.posted, Besides(p, w, also), lits) <==> Sat(b.posted, w, lits)
    ensures Picks(p, Besides(p, w, also)) == Picks(p, w)
    ensures TierTotal(b.tiers, Besides(p, w, also)) == TierTotal(b.tiers, w)
  {
    var v := Besides(p, w, also);
    assert AgreeWithin(b.cells, v, w);
    SatAgrees(b.cells, b.posted, v, w, lits);
    TotalAgrees(b.cells, b.tiers, v, w);
  }

  // ---------------------------------------------------------------- the translation

  /** The least objective value of a schedule over the solutions that pick it. */
  ghost predicate LeastCost(p: Problem, posted: seq<Posted>, tiers: seq<Tier>, lits: set<Key>, x: set<Cell>,
                            value: int) {
    && (forall w :: Picks(p, w) == x && Sat(posted, w, lits) ==> TierTotal(tiers, w) >= value)
    && (exists w :: Picks(p, w) == x && Sat(posted, w, lits) && TierTotal(tiers, w) == value)
  }

  /** The literals the finished model has recorded, in the order of their first use. */
  ghost function Literals(p: Problem, rules: seq<Rule>, reify: bool): seq<Key>
    requires AllModellable(p, rules)
  {
    RuleLiterals(p, rules, reify, WithKey([], DEMAND_KEY, reify && DemandAsks(p)), |rules|)
  }

  lemma {:induction false} RuleLiteralsIff(p: Problem, rules: seq<Rule>, before: seq<Key>, n: nat, key: Key)
    requires AllModellable(p, rules) && n <= |rules|
    ensures key in RuleLiterals(p, rules, true, before, n)
       <==> key in before || exists i :: 0 <= i < n && RuleAsks(p, rules[i]) && rules[i].key == key
    ensures RuleLiterals(p, rules, false, before, n) == before
  {
    hide RuleAsks;
    if n > 0 { RuleLiteralsIff(p, rules, before, n - 1, key); }
  }

  /** A key is recorded exactly if the demand or a HARD rule of that key posts a statement; in the ordinary
      model no key is. */
  lemma LiteralsIff(p: Problem, rules: seq<Rule>, key: Key)
    requires AllModellable(p, rules)
    ensures key in Literals(p, rules, true)
       <==> (key == DEMAND_KEY && DemandAsks(p))
            || exists i :: 0 <= i < |rules| && RuleAsks(p, rules[i]) && rules[i].key == key
    ensures Literals(p, rules, false) == []
  {
    RuleLiteralsIff(p, rules, WithKey([], DEMAND_KEY, DemandAsks(p)), |rules|, key);
    RuleLiteralsIff(p, rules, [], |rules|, key);
  }

  /** Translate the problem; `reify` puts the HARD statements behind assumption literals. A schedule
      extends to a solution exactly if it meets the unguarded statements and the groups whose
      literals are true; with all the recorded literals true these are the schedules of the ordinary
      model; and a schedule's least objective value is what it is worth. */
  method Build(p: Problem, rules: seq<Rule>, reify: bool) returns (b: Built)
    requires Resolved(p) && AllModellable(p, rules)
    ensures fresh(b) && b.Valid() && b.Covers(p) && b.reify == reify
    ensures b.assumptions == Literals(p, rules, reify)
    ensures b.hardRuleKeys == HardKeys(rules) && TiersInOrder(b.tiers) && OnRecord(b.tiers, rules, |rules|)
    ensures forall lits, x :: OnGrid(p, x) ==> (Extendable(p, b.posted, lits, x) <==> MetBy(p, rules, reify, lits, x))
    ensures forall x :: OnGrid(p, x) ==>
              (Extendable(p, b.posted, Keys(b.assumptions), x) <==> MetBy(p, rules, false, {}, x))
    ensures forall lits, x :: OnGrid(p, x) && MetBy(p, rules, reify, lits, x) ==>
              LeastCost(p, b.posted, b.tiers, lits, x, TotalWorth(p, rules, x, |rules|))
  {
    hide Sat, BuiltSat, RulesSat, LeastCost, MetBy;
    b := new Built(reify);
    b.cells := GridCells(p);
    PostDemand(b, p);
    PostPins(b, p);
    PostRules(b, p, rules);
    NothingPosted();
    assert forall w, lits :: Sat(b.posted, w, lits) <==> BuiltSat(p, rules, reify, w, lits) by {
      forall w, lits { BuiltSatParts(p, rules, reify, w, lits); }
    }
    forall lits, x | OnGrid(p, x) { ModelMeans(p, rules, reify, b.posted, b.tiers, lits, x); }
    ghost var every := Keys(b.assumptions) + Keys(HardKeys(rules)) + {DEMAND_KEY};
    EveryHardKey(rules);
    forall x | OnGrid(p, x) ensures Extendable(p, b.posted, Keys(b.assumptions), x) <==> MetBy(p, rules, false, {}, x) {
      OwnLiteralsAreEnough(p, b.posted, Keys(b.assumptions), every, x);
      if reify {
        AllLiteralsIsOrdinary(p, rules, every, {}, x);
      } else {
        OrdinaryHasNoLiterals(p, rules, every, {}, x);
      }
    }
  }

  lemma NothingPosted()
    ensures forall w, lits :: Sat([], w, lits)
  {
  }

  lemma BuiltSatParts(p: Problem, rules: seq<Rule>, reify: bool, w: Val, lits: set<Key>)
    requires Resolved(p) && AllModellable(p, rules)
    ensures BuiltSat(p, rules, reify, w, lits)
       <==> AllSlotsPossible(p) && (On(reify, DEMAND_KEY, lits) ==> DemandMet(p, Picks(p, w)))
            && PinsKept(p, Picks(p, w)) && RulesSat(p, rules, reify, w, lits, |rules|)
  {
  }

  lemma OrdinaryHasNoLiterals(p: Problem, rules: seq<Rule>, a: set<Key>, b: set<Key>, x: set<Cell>)
    requires Resolved(p) && AllModellable(p, rules)
    ensures MetBy(p, rules, false, a, x) <==> MetBy(p, rules, false, b, x)
  {
    forall i | 0 <= i < |rules| ensures RuleMet(p, rules[i], false, a, x) <==> RuleMet(p, rules[i], false, b, x) {
    }
  }

  ghost function Keys(s: seq<Key>): set<Key> {
    set k | k in s
  }

  lemma {:induction false} EveryHardKey(rules: seq<Rule>)
    ensures forall i :: 0 <= i < |rules| && rules[i].Hard? ==> rules[i].key in Keys(HardKeys(rules))
  {
    if rules != [] {
      EveryHardKey(rules[..|rules| - 1]);
      assert forall k :: k in Keys(HardKeys(rules[..|rules| - 1])) ==> k in HardKeys(rules);
    }
  }

  /** No statement has a literal the model did not record. */
  lemma OwnLiteralsAreEnough(p: Problem, posted: seq<Posted>, own: set<Key>, every: set<Key>, x: set<Cell>)
    requires forall i :: 0 <= i < |posted| && posted[i].guard.Some? ==> posted[i].guard.value in own
    requires own <= every
    ensures Extendable(p, posted, own, x) <==> Extendable(p, posted, every, x)
  {
  }

  lemma ModelMeans(p: Problem, rules: seq<Rule>, reify: bool, posted: seq<Posted>, tiers: seq<Tier>, lits: set<Key>,
                   x: set<Cell>)
    requires Resolved(p) && AllModellable(p, rules) && OnGrid(p, x)
    requires forall w, on :: Sat(posted, w, on) <==> BuiltSat(p, rules, reify, w, on)
    requires forall w :: TierTotal(tiers, w) == Cost(p, rules, w, |rules|)
    ensures Extendable(p, posted, lits, x) <==> MetBy(p, rules, reify, lits, x)
    ensures MetBy(p, rules, reify, lits, x) ==> LeastCost(p, posted, tiers, lits, x, TotalWorth(p, rules, x, |rules|))
  {
    forall w | Picks(p, w) == x && Sat(posted, w, lits)
      ensures MetBy(p, rules, reify, lits, x) && TierTotal(tiers, w) >= TotalWorth(p, rules, x, |rules|)
    {
      SolutionsAreMet(p, rules, reify, lits, w);
      TotalAtLeastWorth(p, rules, reify, w, lits, |rules|);
    }
    if MetBy(p, rules, reify, lits, x) {
      var w := Reading(p, rules, x);
      ReadingPicks(p, rules, x);
      MetIsSolved(p, rules, reify, lits, x);
      TotalReads(p, rules, x, |rules|);
    }
  }
}
