/** The objective in numbers: what one more assignment costs under each SOFT kind, at weight 1 and at any
    weight, and what that makes of the least objective value of the built model. */
module Prices {
  import opened Wrappers
  import opened Calendar
  import opened Problems
  import opened LinearModel
  import opened MemberByDate
  import opened SoftRules
  import opened Compiler
  import opened CompiledMeaning
  import opened ScopeMeaning

  // ---------------------------------------------------------------- weights and rounding

  /** A weight counts ten-thousandths, the nearest number of them, half-way cases away from zero. */
  lemma WeightInNumbers(value: real)
    ensures value >= 0.0 ==> ScaleWeight(value) as real - 0.5 <= 10000.0 * value < ScaleWeight(value) as real + 0.5
    ensures ScaleWeight(-value) == -ScaleWeight(value)
    ensures ScaledWeight(None) == ScaledWeight(Some(1.0)) == 10000
    ensures ScaledWeight(Some(value)) == ScaleWeight(value)
  {
    if value >= 0.0 { NearestHalfUp(value * 10000.0); }
    assert -(-value) == value;
    assert (1.0 * 10000.0 + 0.5).Floor == 10000;
  }

  lemma NearestHalfUp(r: real)
    ensures (r + 0.5).Floor as real - 0.5 <= r < (r + 0.5).Floor as real + 0.5
  {
  }

  /** The nearest integer, and the even one of two. */
  lemma NearestEven(r: real)
    ensures RoundHalfEven(r) as real - 0.5 <= r <= RoundHalfEven(r) as real + 0.5
    ensures r == RoundHalfEven(r) as real - 0.5 || r == RoundHalfEven(r) as real + 0.5 ==> RoundHalfEven(r) % 2 == 0
  {
    NearestHalfUp(r);
    var up := RoundHalfUp(r);
    assert HalfWay(r) <==> r == up as real - 0.5;
  }

  /** The target of a work percentage: that share of the window's dates, rounded. */
  lemma TargetInNumbers(p: Problem, scope: Scope, percentage: real)
    ensures var target, exact := TargetCount(p, scope, percentage), percentage / 100.0 * WindowLength(p, scope) as real;
            target as real - 0.5 <= exact <= target as real + 0.5
            && (exact == target as real - 0.5 || exact == target as real + 0.5 ==> target % 2 == 0)
  {
    NearestEven(percentage / 100.0 * WindowLength(p, scope) as real);
  }

  // ---------------------------------------------------------------- preferences

  /** The assignment is in scope and of the date or the shift type the preference is about. */
  predicate SpeaksOf(p: Problem, scope: Scope, soft: SoftKind, c: Cell) {
    && InScope(p, scope, c)
    && (soft.SoftAvoidDate? ==> c.d == soft.date)
    && (soft.ShiftPreference? ==> c.s in p.codeOf && p.codeOf[c.s] == soft.shiftType)
  }

  /** What one more assignment adds to the worth of a rule. */
  ghost function Added(p: Problem, rule: Rule, x: set<Cell>, c: Cell): int {
    Worth(p, rule, x + {c}) - Worth(p, rule, x)
  }

  lemma OneMoreTouched(p: Problem, scope: Scope, soft: SoftKind, x: set<Cell>, c: Cell)
    requires Prefers(soft) && c !in x
    ensures |Touched(p, scope, soft, x + {c})|
         == |Touched(p, scope, soft, x)| + if SpeaksOf(p, scope, soft, c) then 1 else 0
  {
    AdmitsByField(p, scope, c);
    assert Touches(p, scope, soft, c) <==> SpeaksOf(p, scope, soft, c);
    hide Touches, SpeaksOf;
    var before, after := Touched(p, scope, soft, x), Touched(p, scope, soft, x + {c});
    if Touches(p, scope, soft, c) {
      assert after == before + {c};
    } else {
      assert after == before;
    }
  }

  lemma OneMore(k: int, n: int)
    ensures k * (n + 1) - k * n == k
  {
  }

  /** One more assignment a preference is about: once or twice the scaled weight, off for a preferred one and
      on for an avoided one. Any other assignment changes nothing. */
  lemma OneMoreAssignment(p: Problem, key: Key, scope: Scope, soft: SoftKind, weight: Option<real>, x: set<Cell>,
                          c: Cell)
    requires Prefers(soft) && c !in x
    ensures !SpeaksOf(p, scope, soft, c) ==> Added(p, Soft(key, scope, soft, weight), x, c) == 0
    ensures SpeaksOf(p, scope, soft, c) ==>
              (match soft
               case SoftAvoidDate(_) => Added(p, Soft(key, scope, soft, weight), x, c) == ScaledWeight(weight)
               case ShiftPreference(_, strength) =>
                 match strength
                 case Prefer => Added(p, Soft(key, scope, soft, weight), x, c) == -ScaledWeight(weight)
                 case StrongPrefer => Added(p, Soft(key, scope, soft, weight), x, c) == -2 * ScaledWeight(weight)
                 case Avoid => Added(p, Soft(key, scope, soft, weight), x, c) == ScaledWeight(weight)
                 case StrongAvoid => Added(p, Soft(key, scope, soft, weight), x, c) == 2 * ScaledWeight(weight))
  {
    OneMoreTouched(p, scope, soft, x, c);
    OneMore(Factor(soft) * Coefficient(soft, weight), |Touched(p, scope, soft, x)|);
    hide Touched, SpeaksOf, ScaledWeight;
  }

  /** At weight 1, or without a weight. */
  lemma OneMoreAtWeightOne(p: Problem, rule: Rule, x: set<Cell>, c: Cell)
    requires rule.Soft? && Prefers(rule.soft) && c !in x && SpeaksOf(p, rule.scope, rule.soft, c)
    requires rule.weight.Some? ==> rule.weight.value == 1.0
    ensures rule.soft.SoftAvoidDate? ==> Added(p, rule, x, c) == 10000
    ensures rule.soft.ShiftPreference? && rule.soft.strength == Prefer ==> Added(p, rule, x, c) == -10000
    ensures rule.soft.ShiftPreference? && rule.soft.strength == StrongPrefer ==> Added(p, rule, x, c) == -20000
    ensures rule.soft.ShiftPreference? && rule.soft.strength == Avoid ==> Added(p, rule, x, c) == 10000
    ensures rule.soft.ShiftPreference? && rule.soft.strength == StrongAvoid ==> Added(p, rule, x, c) == 20000
  {
    OneMoreAssignment(p, rule.key, rule.scope, rule.soft, rule.weight, x, c);
    WeightInNumbers(1.0);
    hide SpeaksOf, Added, ScaleWeight;
  }

  /** A weight of at least half a ten-thousandth makes preferring strictly cheaper and avoiding strictly dearer. */
  lemma PreferringPays(p: Problem, rule: Rule, x: set<Cell>, c: Cell)
    requires rule.Soft? && rule.soft.ShiftPreference? && c !in x && SpeaksOf(p, rule.scope, rule.soft, c)
    requires rule.weight.Some? && rule.weight.value >= 0.00005
    ensures rule.soft.strength == Prefer || rule.soft.strength == StrongPrefer ==>
              Worth(p, rule, x + {c}) < Worth(p, rule, x)
    ensures rule.soft.strength == Avoid || rule.soft.strength == StrongAvoid ==>
              Worth(p, rule, x + {c}) > Worth(p, rule, x)
  {
    OneMoreAssignment(p, rule.key, rule.scope, rule.soft, rule.weight, x, c);
    WeightInNumbers(rule.weight.value);
    hide SpeaksOf, Worth, ScaleWeight;
    assert 10000.0 * rule.weight.value >= 0.5;
    assert ScaledWeight(rule.weight) >= 1;
  }

  // ---------------------------------------------------------------- work percentages

  /** How many assignments in scope a member has. */
  ghost function CountOf(p: Problem, scope: Scope, x: set<Cell>, m: Id): int {
    |set c | c in x && c.m == m && InScope(p, scope, c)|
  }

  /** The member could be assigned something in scope. */
  ghost predicate CouldWork(p: Problem, scope: Scope, m: Id) {
    exists c: Cell :: c.m == m && CanBeTaken(p, c) && InScope(p, scope, c)
  }

  /** How far a count is from a target. */
  function Away(count: int, target: int): int {
    if count >= target then count - target else target - count
  }

  lemma CountsAreAssigned(p: Problem, scope: Scope, x: set<Cell>, m: Id)
    ensures CountOf(p, scope, x, m) == |Assigned(p, scope, x, m)|
    ensures CouldWork(p, scope, m) <==> HasScopedCell(p, scope, m)
  {
    forall c ensures InScope(p, scope, c) <==> Admits(p, scope, c) {
      AdmitsByField(p, scope, c);
    }
    hide InScope, Admits;
    assert Assigned(p, scope, x, m) == set c | c in x && c.m == m && InScope(p, scope, c);
  }

  /** Two schedules differ at most in what one member does. */
  ghost predicate DifferBy(x: set<Cell>, y: set<Cell>, m: Id) {
    forall c: Cell :: c.m != m ==> (c in x <==> c in y)
  }

  lemma {:induction false} OneMissMoves(p: Problem, scope: Scope, percentage: real, x: set<Cell>, y: set<Cell>, m: Id,
                                        n: nat)
    requires Increasing(p.members) && n <= |p.members| && DifferBy(x, y, m)
    ensures MissSum(p, scope, percentage, y, n) - MissSum(p, scope, percentage, x, n)
         == if m in p.members[..n] && HasScopedCell(p, scope, m)
            then Miss(p, scope, percentage, y, m) - Miss(p, scope, percentage, x, m) else 0
  {
    if n > 0 {
      var k := p.members[n - 1];
      OneMissMoves(p, scope, percentage, x, y, m, n - 1);
      assert p.members[..n] == p.members[..n - 1] + [k];
      if k != m {
        assert Assigned(p, scope, x, k) == Assigned(p, scope, y, k);
      }
    }
  }

  /** When one member's assignments change, a work percentage charges ten times its scaled weight for each step
      the member's count goes away from the target, and gives as much back for each step towards it. */
  lemma OneMemberMoves(p: Problem, rule: Rule, x: set<Cell>, y: set<Cell>, m: Id, target: int)
    requires Resolved(p) && rule.Soft? && rule.soft.WorkPercentageTarget? && DifferBy(x, y, m)
    requires target == TargetCount(p, rule.scope, rule.soft.targetPercentage)
    ensures CouldWork(p, rule.scope, m) ==>
              Worth(p, rule, y) - Worth(p, rule, x)
              == 10 * ScaledWeight(rule.weight)
                 * (Away(CountOf(p, rule.scope, y, m), target) - Away(CountOf(p, rule.scope, x, m), target))
    ensures !CouldWork(p, rule.scope, m) ==> Worth(p, rule, y) == Worth(p, rule, x)
  {
    CountsAreAssigned(p, rule.scope, x, m);
    CountsAreAssigned(p, rule.scope, y, m);
    var percentage := rule.soft.targetPercentage;
    OneMissMoves(p, rule.scope, percentage, x, y, m, |p.members|);
    assert p.members[..|p.members|] == p.members;
    hide CouldWork, CountOf, ScaledWeight, MissSum, TargetCount, Assigned;
    Difference(Coefficient(rule.soft, rule.weight), MissSum(p, rule.scope, percentage, y, |p.members|),
               MissSum(p, rule.scope, percentage, x, |p.members|));
  }

  lemma {:induction false} NoMisses(p: Problem, scope: Scope, percentage: real, x: set<Cell>, n: nat)
    requires n <= |p.members|
    requires forall m :: HasScopedCell(p, scope, m) ==> |Assigned(p, scope, x, m)| == TargetCount(p, scope, percentage)
    ensures MissSum(p, scope, percentage, x, n) == 0
  {
    hide TargetCount, Assigned, HasScopedCell;
    if n > 0 { NoMisses(p, scope, percentage, x, n - 1); }
  }

  /** With every member on target it charges nothing. */
  lemma AllOnTarget(p: Problem, rule: Rule, x: set<Cell>)
    requires rule.Soft? && rule.soft.WorkPercentageTarget?
    requires forall m :: CouldWork(p, rule.scope, m) ==>
               CountOf(p, rule.scope, x, m) == TargetCount(p, rule.scope, rule.soft.targetPercentage)
    ensures Worth(p, rule, x) == 0
  {
    forall m { CountsAreAssigned(p, rule.scope, x, m); }
    hide CouldWork, CountOf, TargetCount, Assigned;
    NoMisses(p, rule.scope, rule.soft.targetPercentage, x, |p.members|);
  }

  lemma Difference(k: int, a: int, b: int)
    ensures k * a - k * b == k * (a - b)
  {
  }

  // ---------------------------------------------------------------- fairness

  /** What the objective counts for an assignment, by metric: ten thousand, or the weight of its credits. */
  lemma UnitsInNumbers(p: Problem, metric: Metric, c: Cell)
    ensures metric == Assignments ==> Units(p, metric, c) == 10000
    ensures metric == WeekendLoad ==>
              Units(p, metric, c) == if WeekdayOfDay(c.d) == Saturday || WeekdayOfDay(c.d) == Sunday then 10000 else 0
    ensures metric == CallLoad ==> Units(p, metric, c) == if c.s in p.onCall && p.onCall[c.s] then 10000 else 0
    ensures metric == Credits && c.s in p.credits && p.credits[c.s] >= 0.0 ==>
              Units(p, metric, c) as real - 0.5 <= 10000.0 * p.credits[c.s] < Units(p, metric, c) as real + 0.5
    ensures metric == Credits && c.s !in p.credits ==> Units(p, metric, c) == 0
  {
    if c.s in p.credits {
      WeightInNumbers(p.credits[c.s]);
    }
  }

  /** The snapshot allows the assignment, on a date of the horizon, in scope. Days off are not taken out. */
  predicate Allowed(p: Problem, scope: Scope, c: Cell) {
    c.m in p.members && c.s in p.shiftIds && (c.m, c.s) in p.eligible && InScope(p, scope, c)
  }

  /** The dates on which something in scope is allowed for the member. */
  ghost function AllowedDates(p: Problem, scope: Scope, m: Id): set<int> {
    set d | p.start <= d <= p.end && AllowedOn(p, scope, m, d)
  }

  ghost predicate AllowedOn(p: Problem, scope: Scope, m: Id, d: int) {
    exists s :: s in p.shiftIds && Allowed(p, scope, Cell(m, d, s))
  }

  lemma AllowedIsMeasurable(p: Problem, scope: Scope, c: Cell)
    ensures Allowed(p, scope, c) <==> Measurable(p, scope, c)
  {
    AdmitsByField(p, scope, c);
  }

  lemma AllowedDatesAreEligible(p: Problem, scope: Scope, m: Id)
    ensures AllowedDates(p, scope, m) == EligibleDays(p, scope, m)
  {
    forall c ensures Allowed(p, scope, c) <==> Measurable(p, scope, c) { AllowedIsMeasurable(p, scope, c); }
    assert forall d, s :: Measurable(p, scope, Cell(m, d, s)) ==> InWindow(p, scope, d) && p.start <= d <= p.end;
    hide Allowed, Measurable;
  }

  /** What a member's load is divided by: nothing, the share of a full post, or the number of dates on which
      the member could be assigned. Members with no share or no date are left out. */
  lemma DivisorInNumbers(p: Problem, scope: Scope, normalisation: Normalisation, m: Id)
    ensures normalisation == Plain ==> Divisor(p, scope, normalisation, m) == Some(1.0)
    ensures normalisation == PerFte && m in p.workPercentage && p.workPercentage[m] > 0.0 ==>
              Divisor(p, scope, normalisation, m) == Some(p.workPercentage[m] / 100.0)
    ensures normalisation == PerFte && !(m in p.workPercentage && p.workPercentage[m] > 0.0) ==>
              Divisor(p, scope, normalisation, m) == None
    ensures normalisation == PerEligibleDay && AllowedDates(p, scope, m) != {} ==>
              Divisor(p, scope, normalisation, m) == Some(|AllowedDates(p, scope, m)| as real)
    ensures normalisation == PerEligibleDay && AllowedDates(p, scope, m) == {} ==>
              Divisor(p, scope, normalisation, m) == None
  {
    AllowedDatesAreEligible(p, scope, m);
    hide EligibleDays, AllowedDates;
  }

  /** The coefficients of a fairness rule: the units of an allowed assignment over the member's divisor,
      rounded to the nearest whole, the half-way case up. */
  lemma BurdenInNumbers(p: Problem, scope: Scope, metric: Metric, normalisation: Normalisation, c: Cell)
    ensures c in Burdens(p, scope, metric, normalisation) <==>
              Allowed(p, scope, c) && Divisor(p, scope, normalisation, c.m).Some? && Units(p, metric, c) != 0
    ensures c in Burdens(p, scope, metric, normalisation) ==>
              Divisor(p, scope, normalisation, c.m).Some?
              && Burdens(p, scope, metric, normalisation)[c] as real - 0.5
                 <= Units(p, metric, c) as real / Divisor(p, scope, normalisation, c.m).value
                 <  Burdens(p, scope, metric, normalisation)[c] as real + 0.5
  {
    AllowedIsMeasurable(p, scope, c);
    hide Allowed, Measurable, Units, Divisor;
    if c in Burdens(p, scope, metric, normalisation) {
      NearestHalfUp(Units(p, metric, c) as real / Divisor(p, scope, normalisation, c.m).value);
    }
  }

  /** One more assignment adds its burden to the load of its member, and to no other. */
  lemma OneMoreLoad(f: map<Cell, int>, x: set<Cell>, c: Cell, m: Id)
    requires c !in x
    ensures Load(f, {}, m) == 0
    ensures Load(f, x + {c}, m) == Load(f, x, m) + if c in f && c.m == m then f[c] else 0
  {
    var before, after := LoadCells(f, x, m), LoadCells(f, x + {c}, m);
    assert LoadCells(f, {}, m) == {};
    SumOverNothing(f);
    hide SumOver;
    if c in f && c.m == m {
      assert c in after && after - {c} == before;
      SumOverPick(f, after, c);
    } else {
      assert after == before;
    }
  }

  /** The member has a cell on the grid that carries a burden. */
  ghost predicate Measures(p: Problem, f: map<Cell, int>, m: Id) {
    exists c: Cell :: c in f && c.m == m && CanBeTaken(p, c)
  }

  lemma MeasuresIsCounted(p: Problem, f: map<Cell, int>, m: Id)
    ensures Measures(p, f, m) <==> Counted(p, f, m)
  {
    if c: Cell :| c in f && c.m == m && CanBeTaken(p, c) {
      assert CountedCell(p, f, m, c);
    }
  }

  lemma LargestIs(p: Problem, f: map<Cell, int>, x: set<Cell>, a: Id, b: Id)
    requires Natural(f) && Counted(p, f, a) && Counted(p, f, b)
    requires forall m :: Counted(p, f, m) ==> Load(f, x, b) <= Load(f, x, m) <= Load(f, x, a)
    ensures Highest(p, f, x, |p.members|) == Load(f, x, a) && Lowest(p, f, x, |p.members|) == Load(f, x, b)
  {
    HighestIsMaximum(p, f, x, |p.members|);
    SpreadIsAttained(p, f, x, |p.members|);
    var ca :| CountedCell(p, f, a, ca);
    var cb :| CountedCell(p, f, b, cb);
    var i :| 0 <= i < |p.members| && p.members[i] == a;
    var j :| 0 <= j < |p.members| && p.members[j] == b;
    hide Load, Counted, Highest, Lowest, Natural;
    assert Counted(p, f, p.members[i]) && Counted(p, f, p.members[j]);
  }

  /** How many times a fairness rule counts its spread: a hundred times its weight, rounded down from the
      scaled weight, and never less than once. */
  lemma SpreadTimes(soft: SoftKind, weight: Option<real>)
    requires soft.FairnessBalance? || soft.CreditDistribution?
    requires weight.Some? ==> weight.value > 0.0
    ensures ScaledWeight(weight) < 200 ==> SpreadCoefficient(Coefficient(soft, weight)) == 1
    ensures ScaledWeight(weight) >= 100 ==>
              0 <= ScaledWeight(weight) - 100 * SpreadCoefficient(Coefficient(soft, weight)) < 100
    ensures weight.None? || weight.value == 1.0 ==> SpreadCoefficient(Coefficient(soft, weight)) == 100
  {
    WeightInNumbers(1.0);
    hide ScaledWeight;
  }

  /** A fairness rule is worth that many times what the most burdened member has more than the least burdened;
      with nobody to measure it is worth nothing. */
  lemma SpreadInNumbers(p: Problem, rule: Rule, x: set<Cell>, f: map<Cell, int>, a: Id, b: Id)
    requires rule.Soft? && Modellable(p, rule) && (rule.soft.FairnessBalance? || rule.soft.CreditDistribution?)
    requires rule.soft.FairnessBalance? ==> f == Burdens(p, rule.scope, rule.soft.metric, rule.soft.normalisation)
    requires rule.soft.CreditDistribution? ==> f == Burdens(p, rule.scope, rule.soft.creditMetric, PerFte)
    requires Measures(p, f, a) && Measures(p, f, b)
    requires forall m :: Measures(p, f, m) ==> Load(f, x, b) <= Load(f, x, m) <= Load(f, x, a)
    ensures Worth(p, rule, x)
         == SpreadCoefficient(Coefficient(rule.soft, rule.weight)) * (Load(f, x, a) - Load(f, x, b))
  {
    forall m ensures Measures(p, f, m) <==> Counted(p, f, m) { MeasuresIsCounted(p, f, m); }
    assert f == BurdensOf(p, rule.scope, rule.soft);
    BurdensOfNatural(p, rule.scope, rule.soft, rule.weight);
    hide Measures, Load, Counted, Burdens, BurdensOf, Coefficient, SpreadCoefficient, Natural, SpreadWorth;
    SpreadOf(p, f, SpreadCoefficient(Coefficient(rule.soft, rule.weight)), x, a, b);
  }

  lemma SpreadOf(p: Problem, f: map<Cell, int>, k: int, x: set<Cell>, a: Id, b: Id)
    requires Natural(f) && Counted(p, f, a) && Counted(p, f, b)
    requires forall m :: Counted(p, f, m) ==> Load(f, x, b) <= Load(f, x, m) <= Load(f, x, a)
    ensures SpreadWorth(p, f, k, x) == k * (Load(f, x, a) - Load(f, x, b))
  {
    LargestIs(p, f, x, a, b);
    hide Load, Counted, Natural, Highest, Lowest;
    if !TwoCounted(p, f) {
      assert a == b;
    }
  }

  lemma NobodyMeasured(p: Problem, rule: Rule, x: set<Cell>, f: map<Cell, int>)
    requires rule.Soft? && (rule.soft.FairnessBalance? || rule.soft.CreditDistribution?)
    requires rule.soft.FairnessBalance? ==> f == Burdens(p, rule.scope, rule.soft.metric, rule.soft.normalisation)
    requires rule.soft.CreditDistribution? ==> f == Burdens(p, rule.scope, rule.soft.creditMetric, PerFte)
    requires forall m :: !Measures(p, f, m)
    ensures Worth(p, rule, x) == 0
  {
    forall m ensures !Counted(p, f, m) { MeasuresIsCounted(p, f, m); }
    hide Counted, Measures, Burdens;
  }

  // ---------------------------------------------------------------- in the built model

  lemma OnlyOneLeast(p: Problem, posted: seq<Posted>, tiers: seq<Tier>, lits: set<Key>, x: set<Cell>, v: int, u: int)
    requires LeastCost(p, posted, tiers, lits, x, v) && LeastCost(p, posted, tiers, lits, x, u)
    ensures v == u
  {
  }

  lemma {:induction false} OneRuleMoves(p: Problem, rules: seq<Rule>, x: set<Cell>, y: set<Cell>, at: nat, n: nat)
    requires at < |rules| && n <= |rules|
    requires forall i :: 0 <= i < |rules| && i != at ==> Worth(p, rules[i], x) == Worth(p, rules[i], y)
    ensures TotalWorth(p, rules, y, n) - TotalWorth(p, rules, x, n)
         == if at < n then Worth(p, rules[at], y) - Worth(p, rules[at], x) else 0
  {
    hide Worth;
    if n > 0 { OneRuleMoves(p, rules, x, y, at, n - 1); }
  }

  /** The least objective values of two schedules that only one rule tells apart differ by what the rule adds. */
  lemma OneRulePays(p: Problem, rules: seq<Rule>, posted: seq<Posted>, tiers: seq<Tier>, lits: set<Key>, x: set<Cell>,
                    y: set<Cell>, at: nat, before: int, after: int)
    requires LeastCost(p, posted, tiers, lits, x, TotalWorth(p, rules, x, |rules|))
    requires LeastCost(p, posted, tiers, lits, y, TotalWorth(p, rules, y, |rules|))
    requires LeastCost(p, posted, tiers, lits, x, before) && LeastCost(p, posted, tiers, lits, y, after)
    requires at < |rules|
    requires forall i :: 0 <= i < |rules| && i != at ==> Worth(p, rules[i], x) == Worth(p, rules[i], y)
    ensures after - before == Worth(p, rules[at], y) - Worth(p, rules[at], x)
  {
    OneRuleMoves(p, rules, x, y, at, |rules|);
    OnlyOneLeast(p, posted, tiers, lits, x, before, TotalWorth(p, rules, x, |rules|));
    OnlyOneLeast(p, posted, tiers, lits, y, after, TotalWorth(p, rules, y, |rules|));
  }

  /** A rule is in the tier of the rank with its scaled weight; with none, by its key alone. */
  ghost predicate InTier(tiers: seq<Tier>, rank: int, key: Key, recorded: Option<int>) {
    exists t :: t in tiers && t.rank == rank
      && (recorded.Some? ==> Component(key, recorded.value) in t.components)
      && (recorded.None? ==> key in t.unmapped)
  }

  /** The record by kind: fairness first, work percentages second, preferences third, each with ten thousand
      times its weight, rounded; and what the objective does not know at 99, by its key. */
  lemma RecordInNumbers(tiers: seq<Tier>, rules: seq<Rule>, at: nat)
    requires OnRecord(tiers, rules, |rules|) && at < |rules| && rules[at].Soft?
    ensures rules[at].soft.FairnessBalance? || rules[at].soft.CreditDistribution? ==>
              InTier(tiers, 1, rules[at].key, Some(ScaledWeight(rules[at].weight)))
    ensures rules[at].soft.WorkPercentageTarget? ==>
              InTier(tiers, 2, rules[at].key, Some(ScaledWeight(rules[at].weight)))
    ensures rules[at].soft.ShiftPreference? || rules[at].soft.SoftAvoidDate? ==>
              InTier(tiers, 3, rules[at].key, Some(ScaledWeight(rules[at].weight)))
    ensures rules[at].soft.Unmapped? ==> InTier(tiers, 99, rules[at].key, None)
  {
    var rule := rules[at];
    var rank, recorded := TierRank(rule.soft), RecordedWeight(rule.soft, rule.weight);
    hide ScaledWeight;
    assert RecordedAs(rules[at], rank, rule.key, recorded);
    assert Recorded(tiers, rank, rule.key, recorded);
    var i :| 0 <= i < |tiers| && tiers[i].rank == rank && Names(tiers[i], rule.key, recorded);
    assert InTier(tiers, rank, rule.key, recorded) by { assert tiers[i] in tiers; }
  }

  /** There is one tier of a rank, and the ranks rise. */
  lemma RanksRise(tiers: seq<Tier>, i: nat, j: nat)
    requires TiersInOrder(tiers) && i < j < |tiers|
    ensures tiers[i].rank + 1 <= tiers[j].rank
  {
  }

  function OnePreference(m: Id, strength: Strength): seq<Rule> {
    [Soft("k", Scope(None, [], [m], []), ShiftPreference("D", strength), None)]
  }

  lemma PreferenceOfOne(m: Id, strength: Strength, worker: Id)
    requires (m == 1 || m == 2) && (worker == 1 || worker == 2)
    ensures Worth(EitherOfTwo(), OnePreference(m, strength)[0], {}) == 0
    ensures worker != m ==> Worth(EitherOfTwo(), OnePreference(m, strength)[0], {Cell(worker, 0, 1)}) == 0
    ensures worker == m ==>
              Worth(EitherOfTwo(), OnePreference(m, strength)[0], {Cell(worker, 0, 1)})
              == match strength
                 case Prefer => -10000
                 case StrongPrefer => -20000
                 case Avoid => 10000
                 case StrongAvoid => 20000
  {
    var p, rule, c := EitherOfTwo(), OnePreference(m, strength)[0], Cell(worker, 0, 1);
    assert rule.scope.memberships[0] == m;
    assert SpeaksOf(p, rule.scope, rule.soft, c) <==> worker == m;
    OneMoreAssignment(p, rule.key, rule.scope, rule.soft, rule.weight, {}, c);
    if worker == m { OneMoreAtWeightOne(p, rule, {}, c); }
    assert {} + {c} == {c};
    assert Touched(p, rule.scope, rule.soft, {}) == {};
    hide SpeaksOf, EitherOfTwo, Touched, ScaleWeight;
  }

  /** Asked to prefer or avoid a shift for one member, the model has the member's schedule cheaper or dearer by
      ten or twenty thousand than the schedule that gives the shift to the other, which costs nothing. */
  method PreferredByOne(m: Id, strength: Strength) returns (b: Built)
    requires m == 1 || m == 2
    ensures fresh(b)
    ensures LeastCost(EitherOfTwo(), b.posted, b.tiers, {}, {Cell(3 - m, 0, 1)}, 0)
    ensures strength == Prefer ==> LeastCost(EitherOfTwo(), b.posted, b.tiers, {}, {Cell(m, 0, 1)}, -10000)
    ensures strength == StrongPrefer ==> LeastCost(EitherOfTwo(), b.posted, b.tiers, {}, {Cell(m, 0, 1)}, -20000)
    ensures strength == Avoid ==> LeastCost(EitherOfTwo(), b.posted, b.tiers, {}, {Cell(m, 0, 1)}, 10000)
    ensures strength == StrongAvoid ==> LeastCost(EitherOfTwo(), b.posted, b.tiers, {}, {Cell(m, 0, 1)}, 20000)
  {
    hide *;
    EitherIsMet(m, strength, m);
    EitherIsMet(m, strength, 3 - m);
    OnePreferenceTotal(m, strength, m);
    OnePreferenceTotal(m, strength, 3 - m);
    b := Build(EitherOfTwo(), OnePreference(m, strength), false);
  }

  lemma OnePreferenceTotal(m: Id, strength: Strength, worker: Id)
    requires (m == 1 || m == 2) && (worker == 1 || worker == 2)
    ensures |OnePreference(m, strength)| == 1
    ensures TotalWorth(EitherOfTwo(), OnePreference(m, strength), {Cell(worker, 0, 1)}, 1)
         == if worker != m then 0
            else match strength
                 case Prefer => -10000
                 case StrongPrefer => -20000
                 case Avoid => 10000
                 case StrongAvoid => 20000
  {
    PreferenceOfOne(m, strength, worker);
    hide Worth;
    assert TotalWorth(EitherOfTwo(), OnePreference(m, strength), {Cell(worker, 0, 1)}, 0) == 0;
  }

  lemma EitherIsMet(m: Id, strength: Strength, worker: Id)
    requires (m == 1 || m == 2) && (worker == 1 || worker == 2)
    ensures Resolved(EitherOfTwo()) && OnGrid(EitherOfTwo(), {Cell(worker, 0, 1)})
    ensures AllModellable(EitherOfTwo(), OnePreference(m, strength))
    ensures MetBy(EitherOfTwo(), OnePreference(m, strength), false, {}, {Cell(worker, 0, 1)})
  {
    EitherWillDo(worker);
  }
}
