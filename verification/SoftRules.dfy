/** The SOFT rules: the statements and objective terms each one posts, and what the objective is
    worth on a schedule. The source's binary floats are reals here. */
module SoftRules {
  import opened Wrappers
  import opened Calendar
  import opened Problems
  import opened LinearModel
  import opened RuleMeaning
  import opened MemberByDate
  import opened HardRules

  // ---------------------------------------------------------------- rounding

  const OBJECTIVE_SCALE := 10000

  /** A positive or zero value's half-way case goes up, a negative one's goes down. */
  function ScaleWeight(value: real): int {
    if value >= 0.0 then (value * OBJECTIVE_SCALE as real + 0.5).Floor
    else -((-value * OBJECTIVE_SCALE as real + 0.5).Floor)
  }

  /** The rounding of the platform's own scaler: half-way cases go up. */
  function RoundHalfUp(r: real): int {
    (r + 0.5).Floor
  }

  predicate HalfWay(r: real) {
    (r + 0.5).Floor as real == r + 0.5
  }

  /** The two scalers differ exactly on negative half-way values. */
  lemma ScaleWeightAgreesIff(value: real)
    ensures ScaleWeight(value) == RoundHalfUp(value * OBJECTIVE_SCALE as real)
       <==> !(value < 0.0 && HalfWay(value * OBJECTIVE_SCALE as real))
  {
    var r := value * OBJECTIVE_SCALE as real;
    if value < 0.0 {
      var up, down := (r + 0.5).Floor, (-r + 0.5).Floor;
      assert -value * OBJECTIVE_SCALE as real == -r;
      assert up as real <= r + 0.5 < up as real + 1.0;
      assert down as real <= -r + 0.5 < down as real + 1.0;
      if HalfWay(r) {
        assert (-up + 1) as real == -r + 0.5;
        assert down == -up + 1;
      } else {
        assert -up as real - 0.5 < -r + 0.5 + 0.0 && -up as real <= -r + 0.5 + 1.0;
        assert down == -up;
      }
    }
  }

  /** Half-way cases go to the even neighbour. */
  function RoundHalfEven(r: real): int {
    if HalfWay(r) && RoundHalfUp(r) % 2 != 0 then RoundHalfUp(r) - 1 else RoundHalfUp(r)
  }

  // ---------------------------------------------------------------- tiers and weights

  function TierRank(soft: SoftKind): int {
    match soft
    case FairnessBalance(_, _) => 1
    case CreditDistribution(_) => 1
    case WorkPercentageTarget(_) => 2
    case SoftAvoidDate(_) => 3
    case ShiftPreference(_, _) => 3
    case Unmapped => 99
  }

  function TierWeight(soft: SoftKind): int {
    match TierRank(soft)
    case 1 => 100
    case 2 => 10
    case 3 => 1
    case _ => 0
  }

  function Coefficient(soft: SoftKind, weight: Option<real>): int {
    TierWeight(soft) * ScaledWeight(weight)
  }

  /** A rule without a weight counts once. */
  function ScaledWeight(weight: Option<real>): int {
    ScaleWeight(if weight.None? then 1.0 else weight.value)
  }

  /** The scaled weight a rule is on record with; none for a kind the objective does not know. */
  function RecordedWeight(soft: SoftKind, weight: Option<real>): Option<int> {
    if soft.Unmapped? then None else Some(ScaledWeight(weight))
  }

  predicate TiersInOrder(tiers: seq<Tier>) {
    forall i, j :: 0 <= i < j < |tiers| ==> tiers[i].rank < tiers[j].rank
  }

  lemma {:induction false} TierTotalInsert(tiers: seq<Tier>, at: nat, t: Tier, w: Val)
    requires at <= |tiers|
    ensures TierTotal(tiers[..at] + [t] + tiers[at..], w) == TierTotal(tiers, w) + Dot(t.terms, w)
  {
    var all := tiers[..at] + [t] + tiers[at..];
    if at == 0 {
      assert all[1..] == tiers;
    } else {
      TierTotalInsert(tiers[1..], at - 1, t, w);
      assert all[1..] == tiers[1..][..at - 1] + [t] + tiers[1..][at - 1..];
    }
  }

  lemma {:induction false} TierTotalUpdate(tiers: seq<Tier>, at: nat, t: Tier, w: Val)
    requires at < |tiers|
    ensures TierTotal(tiers[at := t], w) == TierTotal(tiers, w) - Dot(tiers[at].terms, w) + Dot(t.terms, w)
  {
    if at == 0 {
      assert tiers[at := t][1..] == tiers[1..];
    } else {
      TierTotalUpdate(tiers[1..], at - 1, t, w);
      assert tiers[at := t][1..] == tiers[1..][at - 1 := t];
    }
  }

  /** Where the tier of a rank is; the first rule of the rank puts it in its place. */
  method TierFor(b: Built, rank: int) returns (at: nat)
    requires b.Valid() && TiersInOrder(b.tiers)
    modifies b`tiers
    ensures b.Valid() && TiersInOrder(b.tiers) && at < |b.tiers| && b.tiers[at].rank == rank
    ensures b.tiers == old(b.tiers)
         || (at <= |old(b.tiers)| && b.tiers == old(b.tiers)[..at] + [Tier(rank, [], [], [])] + old(b.tiers)[at..]
             && forall i :: 0 <= i < |old(b.tiers)| ==> old(b.tiers)[i].rank != rank)
    ensures forall w :: TierTotal(b.tiers, w) == TierTotal(old(b.tiers), w)
    ensures SameRecord(old(b.tiers), b.tiers)
  {
    hide Recorded;
    at := 0;
    while at < |b.tiers| && b.tiers[at].rank < rank
      invariant at <= |b.tiers|
      invariant forall i :: 0 <= i < at ==> b.tiers[i].rank < rank
    {
      at := at + 1;
    }
    if at < |b.tiers| && b.tiers[at].rank == rank {
      return;
    }
    ghost var before := b.tiers;
    b.tiers := b.tiers[..at] + [Tier(rank, [], [], [])] + b.tiers[at..];
    forall w { TierTotalInsert(before, at, Tier(rank, [], [], []), w); }
    EmptyTierRecordsNothing(before, at, rank);
  }

  /** A rule's terms go to the end of its tier. */
  method AddTerms(b: Built, at: nat, terms: seq<Term>)
    requires b.Valid() && TiersInOrder(b.tiers) && at < |b.tiers| && TermsWithin(b.cells, terms)
    modifies b`tiers
    ensures b.Valid() && TiersInOrder(b.tiers)
    ensures b.tiers == old(b.tiers)[at := old(b.tiers)[at].(terms := old(b.tiers)[at].terms + terms)]
    ensures forall w :: TierTotal(b.tiers, w) == TierTotal(old(b.tiers), w) + Dot(terms, w)
  {
    ghost var before := b.tiers;
    var t := b.tiers[at].(terms := b.tiers[at].terms + terms);
    b.tiers := b.tiers[at := t];
    forall w ensures TierTotal(b.tiers, w) == TierTotal(before, w) + Dot(terms, w) {
      TierTotalUpdate(before, at, t, w);
      DotConcat(before[at].terms, terms, w);
    }
  }

  // ---------------------------------------------------------------- preferences

  predicate Prefers(soft: SoftKind) {
    soft.SoftAvoidDate? || soft.ShiftPreference?
  }

  function Factor(soft: SoftKind): int {
    match soft
    case ShiftPreference(_, Prefer) => -1
    case ShiftPreference(_, StrongPrefer) => -2
    case ShiftPreference(_, StrongAvoid) => 2
    case _ => 1
  }

  /** The cells a preference speaks about. */
  predicate Touches(p: Problem, scope: Scope, soft: SoftKind, c: Cell) {
    Admits(p, scope, c)
    && (match soft
        case SoftAvoidDate(date) => c.d == date
        case ShiftPreference(wanted, _) => c.s in p.codeOf && p.codeOf[c.s] == wanted
        case _ => false)
  }

  ghost function Touched(p: Problem, scope: Scope, soft: SoftKind, x: set<Cell>): set<Cell> {
    set c | c in x && Touches(p, scope, soft, c)
  }

  method PreferenceTerms(b: Built, p: Problem, scope: Scope, soft: SoftKind, coefficient: int)
      returns (terms: seq<Term>)
    requires b.Valid() && b.Covers(p) && Prefers(soft)
    ensures forall w :: Dot(terms, w) == Factor(soft) * coefficient * |Touched(p, scope, soft, Picks(p, w))|
    ensures TermsWithin(b.cells, terms)
  {
    var cs: seq<Cell> := [];
    for i := 0 to |b.cells|
      invariant forall k :: 0 <= k < |cs| ==> cs[k] in b.cells[..i]
      invariant CellsSorted(cs)
      invariant forall c :: c in cs <==> c in b.cells[..i] && Touches(p, scope, soft, c)
    {
      var c := b.cells[i];
      assert b.cells[..i + 1] == b.cells[..i] + [c];
      if Touches(p, scope, soft, c) {
        assert forall k :: 0 <= k < |cs| ==> cs[k] in b.cells[..i];
        cs := cs + [c];
      }
    }
    assert b.cells[..|b.cells|] == b.cells;
    SortedNoDup(cs);
    terms := Scaled(Xs(cs), Factor(soft) * coefficient);
    XsWithin(b.cells, cs);
    ScaledWithin(b.cells, Xs(cs), Factor(soft) * coefficient);
    forall w ensures Dot(terms, w) == Factor(soft) * coefficient * |Touched(p, scope, soft, Picks(p, w))| {
      ScaledSum(Xs(cs), Factor(soft) * coefficient, w);
      SumOfCells(p, cs, w, Touched(p, scope, soft, Picks(p, w)));
    }
  }

  // ---------------------------------------------------------------- WorkPercentageTarget

  /** The member's scoped assignments. */
  ghost function Assigned(p: Problem, scope: Scope, x: set<Cell>, m: Id): set<Cell> {
    set c | c in x && c.m == m && Admits(p, scope, c)
  }

  ghost predicate HasScopedCell(p: Problem, scope: Scope, m: Id) {
    exists c :: IsCell(p, c) && c.m == m && Admits(p, scope, c)
  }

  function Share(percentage: real, n: nat): int {
    RoundHalfEven(percentage / 100.0 * n as real)
  }

  function TargetCount(p: Problem, scope: Scope, percentage: real): int {
    Share(percentage, WindowLength(p, scope))
  }

  function Abs(i: int): int {
    if i < 0 then -i else i
  }

  ghost function Miss(p: Problem, scope: Scope, percentage: real, x: set<Cell>, m: Id): int {
    Abs(|Assigned(p, scope, x, m)| - TargetCount(p, scope, percentage))
  }

  /** The deviation variable is at least the miss, and at most the number of window dates. */
  ghost predicate DeviationAt(p: Problem, ri: nat, scope: Scope, percentage: real, w: Val, m: Id) {
    HasScopedCell(p, scope, m) ==>
      Miss(p, scope, percentage, Picks(p, w), m) <= IntOf(w, Deviation(ri, m)) <= WindowLength(p, scope)
  }

  ghost predicate DeviationsUpTo(p: Problem, ri: nat, scope: Scope, percentage: real, w: Val, n: nat)
    requires n <= |p.members|
  {
    forall i :: 0 <= i < n ==> DeviationAt(p, ri, scope, percentage, w, p.members[i])
  }

  /** The sum of the deviations of the first `n` members that have a scoped cell. */
  ghost function DeviationSum(p: Problem, ri: nat, scope: Scope, w: Val, n: nat): int
    requires n <= |p.members|
  {
    if n == 0 then 0
    else DeviationSum(p, ri, scope, w, n - 1)
         + if HasScopedCell(p, scope, p.members[n - 1]) then IntOf(w, Deviation(ri, p.members[n - 1])) else 0
  }

  method MemberCells(b: Built, p: Problem, scope: Scope, m: Id) returns (cs: seq<Cell>)
    requires b.Valid() && b.Covers(p)
    ensures CellsSorted(cs)
    ensures forall c :: c in cs <==> IsCell(p, c) && c.m == m && Admits(p, scope, c)
    ensures cs != [] <==> HasScopedCell(p, scope, m)
  {
    cs := [];
    for i := 0 to |b.cells|
      invariant forall k :: 0 <= k < |cs| ==> cs[k] in b.cells[..i]
      invariant CellsSorted(cs)
      invariant forall c :: c in cs <==> c in b.cells[..i] && c.m == m && Admits(p, scope, c)
    {
      var c := b.cells[i];
      assert b.cells[..i + 1] == b.cells[..i] + [c];
      if c.m == m && Admits(p, scope, c) { cs := cs + [c]; }
    }
    assert b.cells[..|b.cells|] == b.cells;
    assert cs != [] ==> cs[0] in cs;
  }

  /** `deviation + k * (the assignments) >= rhs`. */
  function DeviationBound(ri: nat, m: Id, cs: seq<Cell>, k: int, rhs: int): Stmt {
    Linear([Term(1, N(Deviation(ri, m)))] + Scaled(Xs(cs), k), Ge, rhs)
  }

  lemma DeviationBoundWithin(cells: seq<Cell>, ri: nat, m: Id, cs: seq<Cell>, k: int, rhs: int)
    requires forall c :: c in cs ==> c in cells
    ensures Within(cells, DeviationBound(ri, m, cs, k, rhs))
  {
    XsWithin(cells, cs);
    ScaledWithin(cells, Xs(cs), k);
  }

  lemma DeviationBoundMeans(p: Problem, ri: nat, scope: Scope, m: Id, cs: seq<Cell>, k: int, rhs: int, w: Val)
    requires CellsSorted(cs)
    requires forall c :: c in cs <==> IsCell(p, c) && c.m == m && Admits(p, scope, c)
    ensures Holds(DeviationBound(ri, m, cs, k, rhs), w)
       <==> IntOf(w, Deviation(ri, m)) + k * |Assigned(p, scope, Picks(p, w), m)| >= rhs
  {
    var deviation := [Term(1, N(Deviation(ri, m)))];
    DotPair(deviation[0], deviation[0], w);
    DotConcat(deviation, Scaled(Xs(cs), k), w);
    ScaledSum(Xs(cs), k, w);
    SortedNoDup(cs);
    SumOfCells(p, cs, w, Assigned(p, scope, Picks(p, w), m));
  }

  method PostDeviation(b: Built, p: Problem, ri: nat, scope: Scope, percentage: real, m: Id) returns (some: bool)
    requires b.Valid() && b.Covers(p)
    modifies b`posted
    ensures b.Valid()
    ensures some <==> HasScopedCell(p, scope, m)
    ensures forall w, lits :: Sat(b.posted, w, lits) <==>
              Sat(old(b.posted), w, lits) && DeviationAt(p, ri, scope, percentage, w, m)
  {
    hide Built.Valid;
    var cs := MemberCells(b, p, scope, m);
    some := cs != [];
    if !some {
      return;
    }
    var target := TargetCount(p, scope, percentage);
    b.Post(Domain(Deviation(ri, m), 0, WindowLength(p, scope)));
    DeviationBoundWithin(b.cells, ri, m, cs, -1, -target);
    DeviationBoundWithin(b.cells, ri, m, cs, 1, target);
    b.Post(DeviationBound(ri, m, cs, -1, -target));
    b.Post(DeviationBound(ri, m, cs, 1, target));
    forall w
      ensures DeviationAt(p, ri, scope, percentage, w, m) <==>
                Holds(Domain(Deviation(ri, m), 0, WindowLength(p, scope)), w)
                && Holds(DeviationBound(ri, m, cs, -1, -target), w) && Holds(DeviationBound(ri, m, cs, 1, target), w)
    {
      DeviationBoundMeans(p, ri, scope, m, cs, -1, -target, w);
      DeviationBoundMeans(p, ri, scope, m, cs, 1, target, w);
    }
  }

  method PostDeviations(b: Built, p: Problem, ri: nat, scope: Scope, percentage: real, coefficient: int)
      returns (terms: seq<Term>)
    requires b.Valid() && b.Covers(p)
    modifies b`posted
    ensures b.Valid()
    ensures forall w, lits :: Sat(b.posted, w, lits) <==>
              Sat(old(b.posted), w, lits) && DeviationsUpTo(p, ri, scope, percentage, w, |p.members|)
    ensures forall w :: Dot(terms, w) == coefficient * DeviationSum(p, ri, scope, w, |p.members|)
    ensures TermsWithin(b.cells, terms)
  {
    hide Sat, DeviationAt, Built.Valid;
    terms := [];
    for i := 0 to |p.members|
      invariant b.Valid()
      invariant forall w, lits :: Sat(b.posted, w, lits) <==>
                  Sat(old(b.posted), w, lits) && DeviationsUpTo(p, ri, scope, percentage, w, i)
      invariant forall w :: Dot(terms, w) == coefficient * DeviationSum(p, ri, scope, w, i)
      invariant TermsWithin(b.cells, terms)
    {
      var some := PostDeviation(b, p, ri, scope, percentage, p.members[i]);
      if some {
        var term := Term(coefficient, N(Deviation(ri, p.members[i])));
        forall w ensures Dot(terms + [term], w) == coefficient * DeviationSum(p, ri, scope, w, i + 1) {
          DotAppend(terms, term, w);
          Distributes(coefficient, DeviationSum(p, ri, scope, w, i), IntOf(w, Deviation(ri, p.members[i])));
        }
        terms := terms + [term];
      }
    }
  }

  // ---------------------------------------------------------------- fairness: the burdens

  /** Burden of one assignment, before it is divided by what the member is measured against. */
  function Units(p: Problem, metric: Metric, c: Cell): int {
    match metric
    case Assignments => OBJECTIVE_SCALE
    case WeekendLoad => if WeekdayOfDay(c.d) in {Saturday, Sunday} then OBJECTIVE_SCALE else 0
    case CallLoad => if OnCall(p, c.s) then OBJECTIVE_SCALE else 0
    case Credits => if c.s in p.credits then ScaleWeight(p.credits[c.s]) else 0
  }

  /** A (membership, shift type) the snapshot allows, on a window date, in scope. The days a member
      is off are not taken out here. */
  predicate Measurable(p: Problem, scope: Scope, c: Cell) {
    InWindow(p, scope, c.d) && c.m in p.members && c.s in p.shiftIds && (c.m, c.s) in p.eligible && Admits(p, scope, c)
  }

  ghost function EligibleDays(p: Problem, scope: Scope, m: Id): set<int> {
    set d | WindowStart(p, scope) <= d <= WindowEnd(p, scope) && EligibleOn(p, scope, m, d)
  }

  predicate EligibleOn(p: Problem, scope: Scope, m: Id, d: int) {
    exists s :: s in p.shiftIds && Measurable(p, scope, Cell(m, d, s))
  }

  /** What a member's burden is divided by; a member nothing is known about is left out. */
  ghost function Divisor(p: Problem, scope: Scope, normalisation: Normalisation, m: Id): (r: Option<real>)
    ensures r.Some? ==> r.value > 0.0
  {
    match normalisation
    case Plain => Some(1.0)
    case PerFte =>
      if m in p.workPercentage && p.workPercentage[m] > 0.0 then Some(p.workPercentage[m] / 100.0) else None
    case PerEligibleDay =>
      if |EligibleDays(p, scope, m)| == 0 then None else Some(|EligibleDays(p, scope, m)| as real)
  }

  ghost predicate Burdened(p: Problem, scope: Scope, metric: Metric, normalisation: Normalisation, c: Cell) {
    Measurable(p, scope, c) && Divisor(p, scope, normalisation, c.m).Some? && Units(p, metric, c) != 0
  }

  function BurdenOf(units: int, divisor: real): int
    requires divisor > 0.0
  {
    (units as real / divisor + 0.5).Floor
  }

  ghost function Burdens(p: Problem, scope: Scope, metric: Metric, normalisation: Normalisation): (f: map<Cell, int>)
    ensures forall c :: c in f <==> Burdened(p, scope, metric, normalisation, c)
    ensures forall c :: c in f ==>
              Divisor(p, scope, normalisation, c.m).Some?
              && f[c] == BurdenOf(Units(p, metric, c), Divisor(p, scope, normalisation, c.m).value)
  {
    var grid := set m, d, s | m in p.members && WindowStart(p, scope) <= d <= WindowEnd(p, scope) && s in p.shiftIds
      :: Cell(m, d, s);
    assert forall c :: Measurable(p, scope, c) ==> c == Cell(c.m, c.d, c.s) && c in grid;
    map c | c in grid && Burdened(p, scope, metric, normalisation, c)
      :: BurdenOf(Units(p, metric, c), Divisor(p, scope, normalisation, c.m).value)
  }

  lemma BurdensNatural(p: Problem, scope: Scope, metric: Metric, normalisation: Normalisation)
    requires Measured(p, metric)
    ensures forall c :: c in Burdens(p, scope, metric, normalisation) ==>
              Burdens(p, scope, metric, normalisation)[c] >= 0
  {
    hide BurdenOf, Units, Divisor;
    forall c | c in Burdens(p, scope, metric, normalisation)
      ensures Burdens(p, scope, metric, normalisation)[c] >= 0
    {
      UnitsNatural(p, metric, c);
      BurdenNatural(Units(p, metric, c), Divisor(p, scope, normalisation, c.m).value);
    }
  }

  lemma UnitsNatural(p: Problem, metric: Metric, c: Cell)
    requires Measured(p, metric)
    ensures Units(p, metric, c) >= 0
  {
  }

  lemma BurdenNatural(units: int, divisor: real)
    requires units >= 0 && divisor > 0.0
    ensures BurdenOf(units, divisor) >= 0
  {
    assert units as real / divisor >= 0.0;
  }

  method CountEligibleDays(p: Problem, scope: Scope, m: Id) returns (days: nat)
    requires m in p.members
    ensures days == |EligibleDays(p, scope, m)|
  {
    days := 0;
    ghost var seen: set<int> := {};
    var d, end := WindowStart(p, scope), WindowEnd(p, scope);
    while d <= end
      invariant d <= end + 1 || d == WindowStart(p, scope)
      invariant days == |seen|
      invariant forall e :: e in seen <==> WindowStart(p, scope) <= e < d && e <= end && EligibleOn(p, scope, m, e)
      decreases end + 1 - d
    {
      for k := 0 to |p.shiftIds|
        invariant days == |seen|
        invariant forall e :: e in seen <==> WindowStart(p, scope) <= e < d && e <= end && EligibleOn(p, scope, m, e)
        invariant forall i :: 0 <= i < k ==> !Measurable(p, scope, Cell(m, d, p.shiftIds[i]))
      {
        var s := p.shiftIds[k];
        if (m, s) !in p.eligible { continue; }
        if !Admits(p, scope, Cell(m, d, s)) { continue; }
        assert s in p.shiftIds && Measurable(p, scope, Cell(m, d, s));
        days := days + 1;
        seen := seen + {d};
        break;
      }
      d := d + 1;
    }
    assert seen == EligibleDays(p, scope, m);
  }

  method DivisorOf(p: Problem, scope: Scope, normalisation: Normalisation, m: Id) returns (divisor: Option<real>)
    requires m in p.members
    ensures divisor == Divisor(p, scope, normalisation, m)
  {
    match normalisation
    case Plain => return Some(1.0);
    case PerFte =>
      if m in p.workPercentage && p.workPercentage[m] > 0.0 {
        return Some(p.workPercentage[m] / 100.0);
      }
      return None;
    case PerEligibleDay =>
      var days := CountEligibleDays(p, scope, m);
      return if days == 0 then None else Some(days as real);
  }

  method Divisors(p: Problem, scope: Scope, normalisation: Normalisation) returns (divisors: map<Id, real>)
    ensures forall m :: m in divisors <==> m in p.members && Divisor(p, scope, normalisation, m).Some?
    ensures forall m :: m in divisors ==> divisors[m] == Divisor(p, scope, normalisation, m).value
  {
    divisors := map[];
    for i := 0 to |p.members|
      invariant forall m :: m in divisors <==> m in p.members[..i] && Divisor(p, scope, normalisation, m).Some?
      invariant forall m :: m in divisors ==> divisors[m] == Divisor(p, scope, normalisation, m).value
    {
      assert p.members[..i + 1] == p.members[..i] + [p.members[i]];
      var divisor := DivisorOf(p, scope, normalisation, p.members[i]);
      if divisor.None? { continue; }
      divisors := divisors[p.members[i] := divisor.value];
    }
    assert p.members[..|p.members|] == p.members;
  }

  method MemberBurdens(p: Problem, scope: Scope, metric: Metric, m: Id) returns (cs: seq<Cell>)
    requires Resolved(p) && m in p.members
    ensures CellsSorted(cs)
    ensures forall c :: c in cs <==> Measurable(p, scope, c) && Units(p, metric, c) != 0 && c.m == m
  {
    cs := [];
    var d, end := WindowStart(p, scope), WindowEnd(p, scope);
    while d <= end
      invariant WindowStart(p, scope) <= d && (d <= end + 1 || d == WindowStart(p, scope))
      invariant CellsSorted(cs)
      invariant forall c :: c in cs <==> Measurable(p, scope, c) && Units(p, metric, c) != 0 && c.m == m && c.d < d
      decreases end + 1 - d
    {
      for k := 0 to |p.shiftIds|
        invariant CellsSorted(cs)
        invariant forall c :: c in cs <==>
          Measurable(p, scope, c) && Units(p, metric, c) != 0 && c.m == m
            && (c.d < d || (c.d == d && c.s in p.shiftIds[..k]))
      {
        var s := p.shiftIds[k];
        var c := Cell(m, d, s);
        assert p.shiftIds[..k + 1] == p.shiftIds[..k] + [s];
        if (m, s) !in p.eligible { continue; }
        if !Admits(p, scope, c) { continue; }
        if Units(p, metric, c) == 0 { continue; }
        cs := cs + [c];
      }
      d := d + 1;
    }
  }

  method BurdenedCells(p: Problem, scope: Scope, metric: Metric, normalisation: Normalisation, divisors: map<Id, real>)
      returns (cs: seq<Cell>)
    requires Resolved(p)
    requires forall m :: m in divisors <==> m in p.members && Divisor(p, scope, normalisation, m).Some?
    ensures CellsSorted(cs) && forall c :: c in cs <==> Burdened(p, scope, metric, normalisation, c)
  {
    cs := [];
    for i := 0 to |p.members|
      invariant CellsSorted(cs)
      invariant forall c :: c in cs ==> c.m in p.members[..i]
      invariant forall c :: c in cs <==> Burdened(p, scope, metric, normalisation, c) && c.m in p.members[..i]
    {
      var m := p.members[i];
      assert p.members[..i + 1] == p.members[..i] + [m];
      if m !in divisors { continue; }
      var more := MemberBurdens(p, scope, metric, m);
      SortedConcat(cs, more, p.members[..i], m);
      cs := cs + more;
    }
    assert p.members[..|p.members|] == p.members;
  }

  lemma SortedConcat(cs: seq<Cell>, more: seq<Cell>, before: seq<Id>, m: Id)
    requires CellsSorted(cs) && CellsSorted(more) && Increasing(before + [m])
    requires forall c :: c in cs ==> c.m in before
    requires forall c :: c in more ==> c.m == m
    ensures CellsSorted(cs + more)
  {
    forall k, l | 0 <= k < |cs| && 0 <= l < |more| ensures CellBefore(cs[k], more[l]) {
      assert cs[k] in cs && more[l] in more;
      var i :| 0 <= i < |before| && before[i] == cs[k].m;
      assert (before + [m])[i] < (before + [m])[|before|];
    }
  }

  function BurdenMap(p: Problem, metric: Metric, cs: seq<Cell>, divisors: map<Id, real>): (f: map<Cell, int>)
    requires forall c :: c in cs ==> c.m in divisors && divisors[c.m] > 0.0
    ensures forall c :: c in f <==> c in cs
    ensures forall c :: c in f ==> f[c] == BurdenOf(Units(p, metric, c), divisors[c.m])
  {
    map c | c in cs :: BurdenOf(Units(p, metric, c), divisors[c.m])
  }

  lemma BurdenMapIs(p: Problem, scope: Scope, metric: Metric, normalisation: Normalisation, cs: seq<Cell>,
                    divisors: map<Id, real>)
    requires forall m :: m in divisors <==> m in p.members && Divisor(p, scope, normalisation, m).Some?
    requires forall m :: m in divisors ==> divisors[m] == Divisor(p, scope, normalisation, m).value
    requires forall c :: c in cs <==> Burdened(p, scope, metric, normalisation, c)
    ensures forall c :: c in cs ==> c.m in divisors && divisors[c.m] > 0.0
    ensures BurdenMap(p, metric, cs, divisors) == Burdens(p, scope, metric, normalisation)
  {
    hide BurdenOf, Units, Admits;
    forall c | c in cs ensures c.m in divisors && divisors[c.m] > 0.0 {
      assert Burdened(p, scope, metric, normalisation, c);
      assert Divisor(p, scope, normalisation, c.m).Some?;
    }
    var f, g := BurdenMap(p, metric, cs, divisors), Burdens(p, scope, metric, normalisation);
    assert forall c :: c in f <==> c in g;
    forall c | c in f ensures f[c] == g[c] {
      assert Burdened(p, scope, metric, normalisation, c);
      assert divisors[c.m] == Divisor(p, scope, normalisation, c.m).value;
      assert f[c] == BurdenOf(Units(p, metric, c), divisors[c.m]) == g[c];
    }
  }

  /** The burden coefficients, and their cells in order. */
  method FairnessCoefficients(p: Problem, scope: Scope, metric: Metric, normalisation: Normalisation)
      returns (cs: seq<Cell>, burden: map<Cell, int>)
    requires Resolved(p)
    ensures CellsSorted(cs) && forall c :: c in cs <==> c in burden
    ensures burden == Burdens(p, scope, metric, normalisation)
  {
    var divisors := Divisors(p, scope, normalisation);
    cs := BurdenedCells(p, scope, metric, normalisation, divisors);
    BurdenMapIs(p, scope, metric, normalisation, cs, divisors);
    burden := BurdenMap(p, metric, cs, divisors);
  }

  // ---------------------------------------------------------------- sums over sets of cells

  ghost function SumOver(f: map<Cell, int>, cells: set<Cell>): int
    requires cells <= f.Keys
  {
    if cells == {} then 0 else var c :| c in cells; f[c] + SumOver(f, cells - {c})
  }

  lemma {:induction false} SumOverPick(f: map<Cell, int>, cells: set<Cell>, c: Cell)
    requires cells <= f.Keys && c in cells
    ensures SumOver(f, cells) == f[c] + SumOver(f, cells - {c})
  {
    var d :| d in cells && SumOver(f, cells) == f[d] + SumOver(f, cells - {d});
    if c != d {
      SumOverPick(f, cells - {d}, c);
      SumOverPick(f, cells - {c}, d);
      assert cells - {d} - {c} == cells - {c} - {d};
    }
  }

  lemma SumOverNothing(f: map<Cell, int>)
    ensures SumOver(f, {}) == 0
  {
  }

  lemma {:induction false} SumOverMonotone(f: map<Cell, int>, a: set<Cell>, b: set<Cell>)
    requires a <= b <= f.Keys
    requires forall c :: c in f ==> f[c] >= 0
    ensures 0 <= SumOver(f, a) <= SumOver(f, b)
  {
    if b != {} {
      var c :| c in b;
      SumOverPick(f, b, c);
      if c in a {
        SumOverPick(f, a, c);
        SumOverMonotone(f, a - {c}, b - {c});
      } else {
        SumOverMonotone(f, a, b - {c});
      }
    }
  }

  /** Minus the burden of the cells taken among some. */
  function MinusBurden(cs: seq<Cell>, f: map<Cell, int>): seq<Term>
    requires forall c :: c in cs ==> c in f
  {
    if cs == [] then []
    else
      assert forall c :: c in cs[..|cs| - 1] ==> c in cs;
      MinusBurden(cs[..|cs| - 1], f) + [Term(-f[cs[|cs| - 1]], B(X(cs[|cs| - 1])))]
  }

  ghost function TakenOf(cs: seq<Cell>, w: Val): set<Cell> {
    set c | c in cs && X(c) in w.t
  }

  lemma TakenOfLast(cs: seq<Cell>, w: Val)
    requires NoDup(cs) && cs != []
    ensures var last := cs[|cs| - 1];
            TakenOf(cs, w) == TakenOf(cs[..|cs| - 1], w) + (if X(last) in w.t then {last} else {})
            && last !in TakenOf(cs[..|cs| - 1], w)
  {
  }

  /** One more cell of the list adds its burden if it is taken. */
  lemma OneMoreTaken(cs: seq<Cell>, f: map<Cell, int>, w: Val)
    requires NoDup(cs) && cs != [] && forall c :: c in cs ==> c in f
    ensures TakenOf(cs[..|cs| - 1], w) <= f.Keys && TakenOf(cs, w) <= f.Keys
    ensures SumOver(f, TakenOf(cs, w))
         == SumOver(f, TakenOf(cs[..|cs| - 1], w)) + if X(cs[|cs| - 1]) in w.t then f[cs[|cs| - 1]] else 0
  {
    hide SumOver;
    var last := cs[|cs| - 1];
    TakenOfLast(cs, w);
    if X(last) in w.t {
      SumOverPick(f, TakenOf(cs, w), last);
      assert TakenOf(cs, w) - {last} == TakenOf(cs[..|cs| - 1], w);
    } else {
      assert TakenOf(cs, w) == TakenOf(cs[..|cs| - 1], w);
    }
  }

  lemma {:induction false} MinusBurdenSum(cs: seq<Cell>, f: map<Cell, int>, w: Val)
    requires NoDup(cs) && forall c :: c in cs ==> c in f
    ensures Dot(MinusBurden(cs, f), w) == -SumOver(f, TakenOf(cs, w))
  {
    hide SumOver, TakenOf;
    if cs == [] {
      NothingTaken(f, w);
    } else {
      var init, last := cs[..|cs| - 1], cs[|cs| - 1];
      assert forall c :: c in init ==> c in cs;
      MinusBurdenSum(init, f, w);
      DotAppend(MinusBurden(init, f), Term(-f[last], B(X(last))), w);
      OneMoreTaken(cs, f, w);
    }
  }

  lemma NothingTaken(f: map<Cell, int>, w: Val)
    ensures TakenOf([], w) <= f.Keys && SumOver(f, TakenOf([], w)) == 0
  {
    assert TakenOf([], w) == {};
  }

  // ---------------------------------------------------------------- fairness: the spread

  ghost predicate CountedCell(p: Problem, f: map<Cell, int>, m: Id, c: Cell) {
    IsCell(p, c) && c in f && c.m == m
  }

  /** The member has a cell that carries a burden. */
  ghost predicate Counted(p: Problem, f: map<Cell, int>, m: Id) {
    exists c :: CountedCell(p, f, m, c)
  }

  ghost predicate TwoCounted(p: Problem, f: map<Cell, int>) {
    exists a, b :: a != b && Counted(p, f, a) && Counted(p, f, b)
  }

  ghost function LoadCells(f: map<Cell, int>, x: set<Cell>, m: Id): (cs: set<Cell>)
    ensures cs <= f.Keys
  {
    set c | c in x && c in f && c.m == m
  }

  /** The normalised burden a schedule puts on the member. */
  ghost function Load(f: map<Cell, int>, x: set<Cell>, m: Id): int {
    SumOver(f, LoadCells(f, x, m))
  }

  /** The bound the worker puts on a load: every burden, of cells on the grid or not. */
  ghost function Upper(f: map<Cell, int>): int {
    SumOver(f, f.Keys)
  }

  ghost predicate LoadInside(p: Problem, ri: nat, f: map<Cell, int>, w: Val, m: Id) {
    Counted(p, f, m) ==> IntOf(w, Low(ri)) <= Load(f, Picks(p, w), m) <= IntOf(w, High(ri))
  }

  ghost predicate LoadsInside(p: Problem, ri: nat, f: map<Cell, int>, w: Val, n: nat)
    requires n <= |p.members|
  {
    forall i :: 0 <= i < n ==> LoadInside(p, ri, f, w, p.members[i])
  }

  ghost predicate SpreadHolds(p: Problem, ri: nat, f: map<Cell, int>, w: Val) {
    TwoCounted(p, f) ==>
      0 <= IntOf(w, High(ri)) <= Upper(f) && 0 <= IntOf(w, Low(ri)) <= Upper(f) && LoadsInside(p, ri, f, w, |p.members|)
  }

  ghost predicate Natural(f: map<Cell, int>) {
    forall c :: c in f ==> f[c] >= 0
  }

  method UpperOf(cs: seq<Cell>, f: map<Cell, int>) returns (upper: int)
    requires CellsSorted(cs) && Natural(f) && forall c :: c in cs <==> c in f
    ensures upper == Upper(f)
  {
    hide SumOver;
    upper := 0;
    SumOverNothing(f);
    ghost var seen: set<Cell> := {};
    for i := 0 to |cs|
      invariant forall c :: c in seen <==> c in cs[..i]
      invariant seen <= f.Keys && upper == SumOver(f, seen)
    {
      assert cs[i] in cs && cs[..i + 1] == cs[..i] + [cs[i]];
      assert cs[i] !in seen;
      upper := upper + if f[cs[i]] > 0 then f[cs[i]] else 0;
      SumOverPick(f, seen + {cs[i]}, cs[i]);
      assert seen + {cs[i]} - {cs[i]} == seen;
      seen := seen + {cs[i]};
    }
    assert cs[..|cs|] == cs;
    assert seen == f.Keys;
  }

  ghost predicate LoadList(p: Problem, f: map<Cell, int>, m: Id, cs: seq<Cell>) {
    CellsSorted(cs) && forall c :: c in cs <==> CountedCell(p, f, m, c)
  }

  /** The burdened cells of the grid, by member. */
  method LoadsByMember(b: Built, p: Problem, cs: seq<Cell>, f: map<Cell, int>) returns (loads: map<Id, seq<Cell>>)
    requires b.Valid() && b.Covers(p) && CellsSorted(cs) && forall c :: c in cs <==> c in f
    ensures forall m :: m in loads <==> Counted(p, f, m)
    ensures forall m :: m in loads ==> LoadList(p, f, m, loads[m])
  {
    hide Built.Valid;
    loads := map[];
    for i := 0 to |cs|
      invariant forall m :: m in loads ==> loads[m] != [] && CellsSorted(loads[m])
      invariant forall m, c :: m in loads && c in loads[m] ==> c in cs[..i] && CountedCell(p, f, m, c)
      invariant forall c :: c in cs[..i] && IsCell(p, c) ==> c.m in loads && c in loads[c.m]
    {
      var c := cs[i];
      assert c in cs && cs[..i + 1] == cs[..i] + [c];
      if c !in b.cells { continue; }
      var before := if c.m in loads then loads[c.m] else [];
      forall k | 0 <= k < |before| ensures CellBefore(before[k], c) {
        assert before[k] in before && before[k] in cs[..i];
      }
      assert c in before + [c];
      loads := loads[c.m := before + [c]];
    }
    assert cs[..|cs|] == cs;
    forall m ensures m in loads <==> Counted(p, f, m) {
      if m in loads {
        assert loads[m][0] in loads[m];
        assert CountedCell(p, f, m, loads[m][0]);
      }
      if c :| CountedCell(p, f, m, c) {
        assert c in cs[..|cs|];
      }
    }
  }

  function LoadBound(v: NVar, cs: seq<Cell>, f: map<Cell, int>, cmp: Cmp): Stmt
    requires forall c :: c in cs ==> c in f
  {
    Linear([Term(1, N(v))] + MinusBurden(cs, f), cmp, 0)
  }

  lemma {:induction false} MinusBurdenWithin(cells: seq<Cell>, cs: seq<Cell>, f: map<Cell, int>)
    requires forall c :: c in cs ==> c in f && c in cells
    ensures TermsWithin(cells, MinusBurden(cs, f))
  {
    if cs != [] {
      assert forall c :: c in cs[..|cs| - 1] ==> c in cs;
      MinusBurdenWithin(cells, cs[..|cs| - 1], f);
    }
  }

  lemma LoadBoundWithin(cells: seq<Cell>, v: NVar, cs: seq<Cell>, f: map<Cell, int>, cmp: Cmp)
    requires forall c :: c in cs ==> c in f && c in cells
    ensures Within(cells, LoadBound(v, cs, f, cmp))
  {
    MinusBurdenWithin(cells, cs, f);
  }

  lemma LoadBoundMeans(p: Problem, v: NVar, cs: seq<Cell>, f: map<Cell, int>, cmp: Cmp, m: Id, w: Val)
    requires LoadList(p, f, m, cs)
    ensures Holds(LoadBound(v, cs, f, cmp), w) <==> Compare(IntOf(w, v), cmp, Load(f, Picks(p, w), m))
  {
    var term := Term(1, N(v));
    DotPair(term, term, w);
    DotConcat([term], MinusBurden(cs, f), w);
    SortedNoDup(cs);
    MinusBurdenSum(cs, f, w);
    assert TakenOf(cs, w) == LoadCells(f, Picks(p, w), m);
  }

  /** The statements of one spread; `some` says whether there are two loads to compare. */
  method PostSpread(b: Built, p: Problem, ri: nat, scope: Scope, metric: Metric, normalisation: Normalisation)
      returns (some: bool)
    requires b.Valid() && b.Covers(p) && Measured(p, metric)
    modifies b`posted
    ensures b.Valid()
    ensures some <==> TwoCounted(p, Burdens(p, scope, metric, normalisation))
    ensures forall w, lits :: Sat(b.posted, w, lits) <==>
              Sat(old(b.posted), w, lits) && SpreadHolds(p, ri, Burdens(p, scope, metric, normalisation), w)
  {
    hide Built.Valid;
    var cs, f := FairnessCoefficients(p, scope, metric, normalisation);
    BurdensNatural(p, scope, metric, normalisation);
    some := PostSpreadOf(b, p, ri, cs, f);
  }

  method PostSpreadOf(b: Built, p: Problem, ri: nat, cs: seq<Cell>, f: map<Cell, int>) returns (some: bool)
    requires b.Valid() && b.Covers(p) && CellsSorted(cs) && Natural(f) && forall c :: c in cs <==> c in f
    modifies b`posted
    ensures b.Valid()
    ensures some <==> TwoCounted(p, f)
    ensures forall w, lits :: Sat(b.posted, w, lits) <==> Sat(old(b.posted), w, lits) && SpreadHolds(p, ri, f, w)
  {
    hide Sat, Counted, LoadsInside, SumOver, Built.Valid;
    var loads := LoadsByMember(b, p, cs, f);
    TwoLoads(p, f, loads);
    some := |loads.Keys| >= 2;
    if !some {
      return;
    }
    var upper := UpperOf(cs, f);
    b.Post(Domain(High(ri), 0, upper));
    b.Post(Domain(Low(ri), 0, upper));
    PostLoads(b, p, ri, f, loads);
  }

  method PostLoads(b: Built, p: Problem, ri: nat, f: map<Cell, int>, loads: map<Id, seq<Cell>>)
    requires b.Valid() && b.Covers(p)
    requires forall m :: m in loads <==> Counted(p, f, m)
    requires forall m :: m in loads ==> LoadList(p, f, m, loads[m])
    modifies b`posted
    ensures b.Valid()
    ensures forall w, lits :: Sat(b.posted, w, lits) <==>
              Sat(old(b.posted), w, lits) && LoadsInside(p, ri, f, w, |p.members|)
  {
    hide Sat, LoadList, Built.Valid;
    for i := 0 to |p.members|
      invariant b.Valid()
      invariant forall w, lits :: Sat(b.posted, w, lits) <==> Sat(old(b.posted), w, lits) && LoadsInside(p, ri, f, w, i)
    {
      if p.members[i] in loads { PostLoad(b, p, ri, f, p.members[i], loads[p.members[i]]); }
    }
  }

  method PostLoad(b: Built, p: Problem, ri: nat, f: map<Cell, int>, m: Id, cs: seq<Cell>)
    requires b.Valid() && b.Covers(p) && LoadList(p, f, m, cs) && Counted(p, f, m)
    modifies b`posted
    ensures b.Valid()
    ensures forall w, lits :: Sat(b.posted, w, lits) <==> Sat(old(b.posted), w, lits) && LoadInside(p, ri, f, w, m)
  {
    LoadBoundWithin(b.cells, High(ri), cs, f, Ge);
    LoadBoundWithin(b.cells, Low(ri), cs, f, Le);
    b.Post(LoadBound(High(ri), cs, f, Ge));
    b.Post(LoadBound(Low(ri), cs, f, Le));
    forall w
      ensures LoadInside(p, ri, f, w, m) <==>
                Holds(LoadBound(High(ri), cs, f, Ge), w) && Holds(LoadBound(Low(ri), cs, f, Le), w)
    {
      LoadBoundMeans(p, High(ri), cs, f, Ge, m, w);
      LoadBoundMeans(p, Low(ri), cs, f, Le, m, w);
    }
  }

  lemma TwoLoads(p: Problem, f: map<Cell, int>, loads: map<Id, seq<Cell>>)
    requires forall m :: m in loads <==> Counted(p, f, m)
    ensures |loads.Keys| >= 2 <==> TwoCounted(p, f)
  {
    if |loads.Keys| >= 2 {
      var a, c := TwoElements(loads.Keys);
      assert Counted(p, f, a) && Counted(p, f, c);
    }
    if TwoCounted(p, f) {
      var a, c :| a != c && Counted(p, f, a) && Counted(p, f, c);
      SubsetSize({a, c}, loads.Keys);
      assert |{a, c}| == 2;
    }
  }

  // ---------------------------------------------------------------- the branch on the kind

  ghost function BurdensOf(p: Problem, scope: Scope, soft: SoftKind): map<Cell, int>
    requires TierRank(soft) == 1
  {
    match soft
    case FairnessBalance(metric, normalisation) => Burdens(p, scope, metric, normalisation)
    case CreditDistribution(metric) => Burdens(p, scope, metric, PerFte)
  }

  /** What a SOFT rule posts. It is never behind a literal. */
  ghost predicate SoftHolds(p: Problem, ri: nat, scope: Scope, soft: SoftKind, w: Val) {
    match soft
    case WorkPercentageTarget(percentage) => DeviationsUpTo(p, ri, scope, percentage, w, |p.members|)
    case FairnessBalance(_, _) => SpreadHolds(p, ri, BurdensOf(p, scope, soft), w)
    case CreditDistribution(_) => SpreadHolds(p, ri, BurdensOf(p, scope, soft), w)
    case _ => true
  }

  /** The multiplier of a spread: the unit is divided out again, and the rule never vanishes. */
  function SpreadCoefficient(coefficient: int): int {
    if coefficient / OBJECTIVE_SCALE > 1 then coefficient / OBJECTIVE_SCALE else 1
  }

  ghost function SpreadCost(p: Problem, ri: nat, f: map<Cell, int>, k: int, w: Val): int {
    if TwoCounted(p, f) then k * (IntOf(w, High(ri)) - IntOf(w, Low(ri))) else 0
  }

  /** What a SOFT rule adds to the objective. */
  ghost function SoftCost(p: Problem, ri: nat, scope: Scope, soft: SoftKind, weight: Option<real>, w: Val): int {
    match TierRank(soft)
    case 1 => SpreadCost(p, ri, BurdensOf(p, scope, soft), SpreadCoefficient(Coefficient(soft, weight)), w)
    case 2 => Coefficient(soft, weight) * DeviationSum(p, ri, scope, w, |p.members|)
    case 3 => Factor(soft) * Coefficient(soft, weight) * |Touched(p, scope, soft, Picks(p, w))|
    case _ => 0
  }

  method SoftTerms(b: Built, p: Problem, ri: nat, scope: Scope, key: Key, soft: SoftKind, weight: Option<real>)
      returns (terms: seq<Term>)
    requires b.Valid() && b.Covers(p) && Modellable(p, Soft(key, scope, soft, weight))
    modifies b`posted
    ensures b.Valid()
    ensures forall w, lits :: Sat(b.posted, w, lits) <==>
              Sat(old(b.posted), w, lits) && SoftHolds(p, ri, scope, soft, w)
    ensures forall w :: Dot(terms, w) == SoftCost(p, ri, scope, soft, weight, w)
    ensures TermsWithin(b.cells, terms)
  {
    hide Built.Valid;
    var coefficient := Coefficient(soft, weight);
    match soft
    case SoftAvoidDate(_) => terms := PreferenceTerms(b, p, scope, soft, coefficient);
    case ShiftPreference(_, _) => terms := PreferenceTerms(b, p, scope, soft, coefficient);
    case WorkPercentageTarget(percentage) => terms := PostDeviations(b, p, ri, scope, percentage, coefficient);
    case FairnessBalance(metric, normalisation) =>
      var some := PostSpread(b, p, ri, scope, metric, normalisation);
      terms := SpreadTerms(ri, SpreadCoefficient(coefficient), some);
    case CreditDistribution(metric) =>
      var some := PostSpread(b, p, ri, scope, metric, PerFte);
      terms := SpreadTerms(ri, SpreadCoefficient(coefficient), some);
    case Unmapped => terms := [];
  }

  function SpreadTerms(ri: nat, k: int, some: bool): (terms: seq<Term>)
    ensures forall w :: Dot(terms, w) == if some then k * (IntOf(w, High(ri)) - IntOf(w, Low(ri))) else 0
    ensures forall cells :: TermsWithin(cells, terms)
  {
    var high, low := Term(k, N(High(ri))), Term(-k, N(Low(ri)));
    assert forall w :: Dot([high, low], w) == k * (IntOf(w, High(ri)) - IntOf(w, Low(ri))) by {
      forall w ensures Dot([high, low], w) == k * (IntOf(w, High(ri)) - IntOf(w, Low(ri))) {
        DotPair(high, low, w);
      }
    }
    if some then [high, low] else []
  }

  /** A rule is on record in the tier of a rank, with its scaled weight or as an unmapped one. */
  ghost predicate Recorded(tiers: seq<Tier>, rank: int, key: Key, recorded: Option<int>) {
    exists at :: 0 <= at < |tiers| && tiers[at].rank == rank && Names(tiers[at], key, recorded)
  }

  predicate Names(t: Tier, key: Key, recorded: Option<int>) {
    if recorded.None? then key in t.unmapped else Component(key, recorded.value) in t.components
  }

  /** The record has the old rules and this one. */
  ghost predicate RecordsOneMore(before: seq<Tier>, after: seq<Tier>, rank: int, key: Key, recorded: Option<int>) {
    forall r, k, u :: Recorded(after, r, k, u) <==>
      Recorded(before, r, k, u) || (r == rank && k == key && u == recorded)
  }

  ghost predicate SameRecord(before: seq<Tier>, after: seq<Tier>) {
    forall r, k, u :: Recorded(after, r, k, u) <==> Recorded(before, r, k, u)
  }

  lemma RecordsItself(tiers: seq<Tier>)
    ensures SameRecord(tiers, tiers)
  {
  }

  lemma RecordChain(a: seq<Tier>, b: seq<Tier>, c: seq<Tier>, d: seq<Tier>, rank: int, key: Key, recorded: Option<int>)
    requires SameRecord(a, b) && RecordsOneMore(b, c, rank, key, recorded) && SameRecord(c, d)
    ensures RecordsOneMore(a, d, rank, key, recorded)
  {
    hide Recorded;
  }

  /** Lists whose tiers are those of the other, but for ones that name nothing. */
  ghost predicate RecordsWithin(a: seq<Tier>, b: seq<Tier>) {
    forall i :: 0 <= i < |a| ==> (a[i].components == [] && a[i].unmapped == []) || HasTier(b, a[i])
  }

  ghost predicate HasTier(b: seq<Tier>, t: Tier) {
    exists j :: 0 <= j < |b| && b[j].rank == t.rank && b[j].components == t.components && b[j].unmapped == t.unmapped
  }

  lemma HasTierAt(b: seq<Tier>, j: nat, t: Tier)
    requires j < |b| && b[j].rank == t.rank && b[j].components == t.components && b[j].unmapped == t.unmapped
    ensures HasTier(b, t)
  {
  }

  lemma WithinRecords(a: seq<Tier>, b: seq<Tier>, r: int, k: Key, u: Option<int>)
    requires RecordsWithin(a, b)
    ensures Recorded(a, r, k, u) ==> Recorded(b, r, k, u)
  {
    if Recorded(a, r, k, u) {
      var i :| 0 <= i < |a| && a[i].rank == r && Names(a[i], k, u);
      assert HasTier(b, a[i]);
      var j :| 0 <= j < |b| && b[j].rank == a[i].rank && b[j].components == a[i].components
        && b[j].unmapped == a[i].unmapped;
      assert Names(b[j], k, u);
    }
  }

  lemma EmptyTierRecordsNothing(before: seq<Tier>, at: nat, rank: int)
    requires at <= |before|
    ensures SameRecord(before, before[..at] + [Tier(rank, [], [], [])] + before[at..])
  {
    hide Recorded, HasTier;
    var after := before[..at] + [Tier(rank, [], [], [])] + before[at..];
    forall i | 0 <= i < |after| && i != at ensures HasTier(before, after[i]) {
      HasTierAt(before, if i < at then i else i - 1, after[i]);
    }
    forall i | 0 <= i < |before| ensures HasTier(after, before[i]) {
      HasTierAt(after, if i < at then i else i + 1, before[i]);
    }
    forall r, k, u ensures Recorded(after, r, k, u) <==> Recorded(before, r, k, u) {
      WithinRecords(after, before, r, k, u);
      WithinRecords(before, after, r, k, u);
    }
  }

  /** The tier with the rule's key added. */
  function Named(t: Tier, key: Key, recorded: Option<int>): Tier {
    if recorded.None? then t.(unmapped := t.unmapped + [key])
    else t.(components := t.components + [Component(key, recorded.value)])
  }

  lemma NamingRecords(before: seq<Tier>, at: nat, key: Key, recorded: Option<int>)
    requires at < |before|
    ensures RecordsOneMore(before, before[at := Named(before[at], key, recorded)], before[at].rank, key, recorded)
  {
    var after := before[at := Named(before[at], key, recorded)];
    forall r, k, u { NamingRecordsAt(before, after, at, key, recorded, r, k, u); }
  }

  lemma NamingRecordsAt(before: seq<Tier>, after: seq<Tier>, at: nat, key: Key, recorded: Option<int>, r: int, k: Key,
                        u: Option<int>)
    requires at < |before| && after == before[at := Named(before[at], key, recorded)]
    ensures Recorded(after, r, k, u) <==>
              Recorded(before, r, k, u) || (r == before[at].rank && k == key && u == recorded)
  {
    if Recorded(after, r, k, u) {
      var i :| 0 <= i < |after| && after[i].rank == r && Names(after[i], k, u);
      assert before[i].rank == r;
      assert Names(before[i], k, u) || (i == at && k == key && u == recorded);
    }
    if Recorded(before, r, k, u) {
      var i :| 0 <= i < |before| && before[i].rank == r && Names(before[i], k, u);
      assert after[i].rank == r && Names(after[i], k, u);
    }
    if r == before[at].rank && k == key && u == recorded {
      assert after[at].rank == r && Names(after[at], k, u);
    }
  }

  lemma TermsRecordNothing(before: seq<Tier>, at: nat, terms: seq<Term>)
    requires at < |before|
    ensures SameRecord(before, before[at := before[at].(terms := terms)])
  {
    hide Recorded, HasTier;
    var after := before[at := before[at].(terms := terms)];
    forall i | 0 <= i < |before| ensures HasTier(before, after[i]) && HasTier(after, before[i]) {
      HasTierAt(before, i, after[i]);
      HasTierAt(after, i, before[i]);
    }
    forall r, k, u ensures Recorded(after, r, k, u) <==> Recorded(before, r, k, u) {
      WithinRecords(after, before, r, k, u);
      WithinRecords(before, after, r, k, u);
    }
  }

  /** One SOFT rule, turned into statements and objective terms of its tier. A kind the objective
      does not know adds nothing but its name. */
  method TranslateSoft(b: Built, p: Problem, ri: nat, scope: Scope, key: Key, soft: SoftKind, weight: Option<real>)
    requires b.Valid() && b.Covers(p) && Modellable(p, Soft(key, scope, soft, weight)) && TiersInOrder(b.tiers)
    modifies b`posted, b`tiers
    ensures b.Valid() && TiersInOrder(b.tiers)
    ensures forall w, lits :: Sat(b.posted, w, lits) <==>
              Sat(old(b.posted), w, lits) && SoftHolds(p, ri, scope, soft, w)
    ensures forall w :: TierTotal(b.tiers, w) == TierTotal(old(b.tiers), w) + SoftCost(p, ri, scope, soft, weight, w)
    ensures RecordsOneMore(old(b.tiers), b.tiers, TierRank(soft), key, RecordedWeight(soft, weight))
  {
    hide Sat, SoftHolds, SameRecord, RecordsOneMore, Built.Valid;
    ghost var before := b.tiers;
    var at := TierFor(b, TierRank(soft));
    ghost var found := b.tiers;
    NameRule(b, at, key, RecordedWeight(soft, weight));
    ghost var named := b.tiers;
    if soft.Unmapped? {
      RecordsItself(named);
      RecordChain(before, found, named, named, TierRank(soft), key, None);
      assert forall w :: SoftHolds(p, ri, scope, soft, w) by { UnmappedAsksNothing(p, ri, scope, soft); }
      return;
    }
    var terms := SoftTerms(b, p, ri, scope, key, soft, weight);
    AddTerms(b, at, terms);
    TermsRecordNothing(named, at, named[at].terms + terms);
    RecordChain(before, found, named, b.tiers, TierRank(soft), key, RecordedWeight(soft, weight));
  }

  lemma UnmappedAsksNothing(p: Problem, ri: nat, scope: Scope, soft: SoftKind)
    requires soft.Unmapped?
    ensures forall w :: SoftHolds(p, ri, scope, soft, w)
  {
  }

  method NameRule(b: Built, at: nat, key: Key, recorded: Option<int>)
    requires b.Valid() && TiersInOrder(b.tiers) && at < |b.tiers|
    modifies b`tiers
    ensures b.Valid() && TiersInOrder(b.tiers) && b.tiers == old(b.tiers)[at := Named(old(b.tiers)[at], key, recorded)]
    ensures forall w :: TierTotal(b.tiers, w) == TierTotal(old(b.tiers), w)
    ensures RecordsOneMore(old(b.tiers), b.tiers, b.tiers[at].rank, key, recorded)
  {
    ghost var before := b.tiers;
    b.tiers := b.tiers[at := Named(b.tiers[at], key, recorded)];
    forall w { TierTotalUpdate(before, at, Named(before[at], key, recorded), w); }
    NamingRecords(before, at, key, recorded);
  }
}
