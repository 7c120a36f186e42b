/** The translation of a whole problem: demand, pins, then the rules in order. */
module Compiler {
  import opened Wrappers
  import opened Problems
  import opened LinearModel
  import opened MemberByDate
  import opened HardRules
  import opened SoftRules

  const DEMAND_KEY := "__demand__"

  // ---------------------------------------------------------------- demand

  /** A slot nobody asks for wants nobody. */
  function Required(p: Problem, d: int, s: Id): int {
    if (d, s) in p.required then p.required[(d, s)] else 0
  }

  predicate Staffable(p: Problem, d: int, s: Id) {
    exists m :: m in p.members && IsCell(p, Cell(m, d, s))
  }

  ghost function Staffing(p: Problem, x: set<Cell>, d: int, s: Id): set<Cell> {
    set c | c in x && c.d == d && c.s == s
  }

  ghost predicate SlotMet(p: Problem, x: set<Cell>, d: int, s: Id) {
    Staffable(p, d, s) ==> |Staffing(p, x, d, s)| == Required(p, d, s)
  }

  /** No slot asks for somebody when nobody can be put there. */
  predicate SlotPossible(p: Problem, d: int, s: Id) {
    Staffable(p, d, s) || Required(p, d, s) <= 0
  }

  ghost predicate DayMet(p: Problem, x: set<Cell>, d: int, n: nat)
    requires n <= |p.shiftIds|
  {
    forall i :: 0 <= i < n ==> SlotMet(p, x, d, p.shiftIds[i])
  }

  ghost predicate DayPossible(p: Problem, d: int, n: nat)
    requires n <= |p.shiftIds|
  {
    forall i :: 0 <= i < n ==> SlotPossible(p, d, p.shiftIds[i])
  }

  ghost predicate DemandMetUpTo(p: Problem, x: set<Cell>, upTo: int) {
    forall d :: p.start <= d < upTo ==> DayMet(p, x, d, |p.shiftIds|)
  }

  ghost predicate PossibleUpTo(p: Problem, upTo: int) {
    forall d :: p.start <= d < upTo ==> DayPossible(p, d, |p.shiftIds|)
  }

  /** Every slot of the horizon is staffed as required, exactly. */
  ghost predicate DemandMet(p: Problem, x: set<Cell>) {
    forall d, s :: p.start <= d <= p.end && s in p.shiftIds ==> SlotMet(p, x, d, s)
  }

  ghost predicate AllSlotsPossible(p: Problem) {
    forall d, s :: p.start <= d <= p.end && s in p.shiftIds ==> SlotPossible(p, d, s)
  }

  ghost predicate SomeStaffable(p: Problem, d: int, n: nat)
    requires n <= |p.shiftIds|
  {
    exists i :: 0 <= i < n && Staffable(p, d, p.shiftIds[i])
  }

  ghost predicate StaffableUpTo(p: Problem, upTo: int) {
    exists d :: p.start <= d < upTo && SomeStaffable(p, d, |p.shiftIds|)
  }

  /** The demand posts at least one statement behind its literal: some slot has a cell. */
  ghost predicate DemandAsks(p: Problem) {
    exists d, s :: p.start <= d <= p.end && s in p.shiftIds && Staffable(p, d, s)
  }

  /** The cells of a slot. */
  method CellsOn(b: Built, p: Problem, d: int, s: Id) returns (cs: seq<Cell>)
    requires b.Valid() && b.Covers(p)
    ensures CellsSorted(cs)
    ensures forall c :: c in cs <==> IsCell(p, c) && c.d == d && c.s == s
    ensures cs != [] <==> Staffable(p, d, s)
  {
    cs := [];
    for i := 0 to |p.members|
      invariant CellsSorted(cs)
      invariant forall c :: c in cs ==> c.m in p.members[..i]
      invariant forall c :: c in cs <==> IsCell(p, c) && c.d == d && c.s == s && c.m in p.members[..i]
    {
      var c := Cell(p.members[i], d, s);
      assert p.members[..i + 1] == p.members[..i] + [p.members[i]];
      if c in b.cells {
        SortedConcat(cs, [c], p.members[..i], c.m);
        cs := cs + [c];
      }
    }
    assert p.members[..|p.members|] == p.members;
    if cs != [] {
      assert cs[0] in cs;
      assert cs[0] == Cell(cs[0].m, d, s);
    }
    if m :| m in p.members && IsCell(p, Cell(m, d, s)) {
      assert Cell(m, d, s) in cs;
    }
  }

  /** An impossible slot is an unguarded contradiction; the others are an equality each. */
  method PostSlot(b: Built, p: Problem, d: int, s: Id)
    requires b.Valid() && b.Covers(p)
    modifies b`posted, b`assumptions
    ensures b.Valid()
    ensures b.assumptions == WithKey(old(b.assumptions), DEMAND_KEY, b.reify && Staffable(p, d, s))
    ensures forall w, lits :: Sat(b.posted, w, lits) <==>
              Sat(old(b.posted), w, lits) && SlotPossible(p, d, s)
              && (On(b.reify, DEMAND_KEY, lits) ==> SlotMet(p, Picks(p, w), d, s))
  {
    var required := Required(p, d, s);
    var cs := CellsOn(b, p, d, s);
    if cs == [] {
      if required > 0 {
        b.Post(Linear([], Eq, required));
      }
      return;
    }
    CellSumWithin(b.cells, cs, Eq, required);
    b.Enforce(Sum(Xs(cs), Eq, required), DEMAND_KEY);
    forall w ensures Holds(Sum(Xs(cs), Eq, required), w) <==> SlotMet(p, Picks(p, w), d, s) {
      SortedNoDup(cs);
      SumOfCells(p, cs, w, Staffing(p, Picks(p, w), d, s));
    }
  }

  method PostDemandOn(b: Built, p: Problem, d: int)
    requires b.Valid() && b.Covers(p)
    modifies b`posted, b`assumptions
    ensures b.Valid()
    ensures b.assumptions == WithKey(old(b.assumptions), DEMAND_KEY, b.reify && SomeStaffable(p, d, |p.shiftIds|))
    ensures forall w, lits :: Sat(b.posted, w, lits) <==>
              Sat(old(b.posted), w, lits) && DayPossible(p, d, |p.shiftIds|)
              && (On(b.reify, DEMAND_KEY, lits) ==> DayMet(p, Picks(p, w), d, |p.shiftIds|))
  {
    hide Sat, SlotMet, Built.Valid;
    for i := 0 to |p.shiftIds|
      invariant b.Valid()
      invariant b.assumptions == WithKey(old(b.assumptions), DEMAND_KEY, b.reify && SomeStaffable(p, d, i))
      invariant forall w, lits :: Sat(b.posted, w, lits) <==>
                  Sat(old(b.posted), w, lits) && DayPossible(p, d, i)
                  && (On(b.reify, DEMAND_KEY, lits) ==> DayMet(p, Picks(p, w), d, i))
    {
      PostSlot(b, p, d, p.shiftIds[i]);
    }
  }

  method PostDemand(b: Built, p: Problem)
    requires b.Valid() && b.Covers(p)
    modifies b`posted, b`assumptions
    ensures b.Valid()
    ensures b.assumptions == WithKey(old(b.assumptions), DEMAND_KEY, b.reify && DemandAsks(p))
    ensures forall w, lits :: Sat(b.posted, w, lits) <==>
              Sat(old(b.posted), w, lits) && AllSlotsPossible(p)
              && (On(b.reify, DEMAND_KEY, lits) ==> DemandMet(p, Picks(p, w)))
  {
    hide Sat, Built.Valid;
    var d := p.start;
    while d <= p.end
      invariant p.start <= d && (d <= p.end + 1 || d == p.start)
      invariant b.Valid()
      invariant b.assumptions == WithKey(old(b.assumptions), DEMAND_KEY, b.reify && StaffableUpTo(p, d))
      invariant forall w, lits :: Sat(b.posted, w, lits) <==>
                  Sat(old(b.posted), w, lits) && PossibleUpTo(p, d)
                  && (On(b.reify, DEMAND_KEY, lits) ==> DemandMetUpTo(p, Picks(p, w), d))
      decreases p.end + 1 - d
    {
      PostDemandOn(b, p, d);
      StaffableStep(p, d);
      forall w { DemandStep(p, Picks(p, w), d); }
      d := d + 1;
    }
    StaffableEnd(p, d);
    forall w { DemandEnd(p, Picks(p, w), d); }
  }

  lemma StaffableStep(p: Problem, d: int)
    requires p.start <= d
    ensures StaffableUpTo(p, d + 1) <==> StaffableUpTo(p, d) || SomeStaffable(p, d, |p.shiftIds|)
  {
  }

  lemma StaffableEnd(p: Problem, d: int)
    requires p.end < d && (d <= p.end + 1 || d == p.start)
    ensures StaffableUpTo(p, d) <==> DemandAsks(p)
  {
    if e, s :| p.start <= e <= p.end && s in p.shiftIds && Staffable(p, e, s) {
      var i :| 0 <= i < |p.shiftIds| && p.shiftIds[i] == s;
      assert SomeStaffable(p, e, |p.shiftIds|);
    }
  }

  lemma DemandStep(p: Problem, x: set<Cell>, d: int)
    requires p.start <= d
    ensures DemandMetUpTo(p, x, d + 1) <==> DemandMetUpTo(p, x, d) && DayMet(p, x, d, |p.shiftIds|)
    ensures PossibleUpTo(p, d + 1) <==> PossibleUpTo(p, d) && DayPossible(p, d, |p.shiftIds|)
  {
  }

  lemma DemandEnd(p: Problem, x: set<Cell>, d: int)
    requires p.end < d && (d <= p.end + 1 || d == p.start)
    ensures DemandMetUpTo(p, x, d) <==> DemandMet(p, x)
    ensures PossibleUpTo(p, d) <==> AllSlotsPossible(p)
  {
    if DemandMetUpTo(p, x, d) {
      forall e, s | p.start <= e <= p.end && s in p.shiftIds ensures SlotMet(p, x, e, s) {
        var i :| 0 <= i < |p.shiftIds| && p.shiftIds[i] == s;
        assert DayMet(p, x, e, |p.shiftIds|);
      }
    }
    if PossibleUpTo(p, d) {
      forall e, s | p.start <= e <= p.end && s in p.shiftIds ensures SlotPossible(p, e, s) {
        var i :| 0 <= i < |p.shiftIds| && p.shiftIds[i] == s;
        assert DayPossible(p, e, |p.shiftIds|);
      }
    }
  }

  // ---------------------------------------------------------------- pins

  ghost predicate PinsKeptUpTo(p: Problem, x: set<Cell>, n: nat)
    requires n <= |p.fixed|
  {
    forall i :: 0 <= i < n && p.fixed[i].isPinned && IsCell(p, p.fixed[i].cell) ==> p.fixed[i].cell in x
  }

  /** Every pinned input that has a cell is in the schedule. */
  ghost predicate PinsKept(p: Problem, x: set<Cell>) {
    PinsKeptUpTo(p, x, |p.fixed|)
  }

  method PostPins(b: Built, p: Problem)
    requires b.Valid() && b.Covers(p)
    modifies b`posted
    ensures b.Valid()
    ensures forall w, lits :: Sat(b.posted, w, lits) <==> Sat(old(b.posted), w, lits) && PinsKept(p, Picks(p, w))
  {
    hide Built.Valid;
    for i := 0 to |p.fixed|
      invariant b.Valid()
      invariant forall w, lits :: Sat(b.posted, w, lits) <==>
                  Sat(old(b.posted), w, lits) && PinsKeptUpTo(p, Picks(p, w), i)
    {
      if !p.fixed[i].isPinned { continue; }
      if p.fixed[i].cell in b.cells {
        b.Post(Forced(p.fixed[i].cell, 1));
      }
    }
  }

  // ---------------------------------------------------------------- the rules in order

  /** A valuation meets what one rule posts. */
  ghost predicate RuleSat(p: Problem, ri: nat, rule: Rule, reify: bool, w: Val, lits: set<Key>)
    requires Resolved(p) && Modellable(p, rule)
  {
    match rule
    case Hard(key, scope, kind) =>
      AuxHolds(p, ri, scope, kind, w) && (On(reify, key, lits) ==> GuardHolds(p, ri, scope, kind, w))
    case Soft(key, scope, soft, weight) => SoftHolds(p, ri, scope, soft, w)
  }

  predicate AllModellable(p: Problem, rules: seq<Rule>) {
    forall i :: 0 <= i < |rules| ==> Modellable(p, rules[i])
  }

  ghost predicate RulesSat(p: Problem, rules: seq<Rule>, reify: bool, w: Val, lits: set<Key>, n: nat)
    requires Resolved(p) && AllModellable(p, rules) && n <= |rules|
  {
    forall i :: 0 <= i < n ==> RuleSat(p, i, rules[i], reify, w, lits)
  }

  ghost function RuleCost(p: Problem, ri: nat, rule: Rule, w: Val): int {
    match rule
    case Hard(_, _, _) => 0
    case Soft(key, scope, soft, weight) => SoftCost(p, ri, scope, soft, weight, w)
  }

  /** The objective of the first `n` rules. */
  ghost function Cost(p: Problem, rules: seq<Rule>, w: Val, n: nat): int
    requires n <= |rules|
  {
    if n == 0 then 0 else Cost(p, rules, w, n - 1) + RuleCost(p, n - 1, rules[n - 1], w)
  }

  function HardKeys(rules: seq<Rule>): seq<Key> {
    if rules == [] then []
    else HardKeys(rules[..|rules| - 1]) + if rules[|rules| - 1].Hard? then [rules[|rules| - 1].key] else []
  }

  /** What the built model asks of a valuation, statement by statement put together. */
  ghost predicate BuiltSat(p: Problem, rules: seq<Rule>, reify: bool, w: Val, lits: set<Key>)
    requires Resolved(p) && AllModellable(p, rules)
  {
    && AllSlotsPossible(p)
    && (On(reify, DEMAND_KEY, lits) ==> DemandMet(p, Picks(p, w)))
    && PinsKept(p, Picks(p, w))
    && RulesSat(p, rules, reify, w, lits, |rules|)
  }

  ghost predicate RuleAsks(p: Problem, rule: Rule)
    requires Modellable(p, rule)
  {
    rule.Hard? && Asks(p, rule.scope, rule.kind)
  }

  /** The literals recorded once the first `n` rules are posted: one for each HARD rule that posts something,
      in the order of the rules. */
  ghost function RuleLiterals(p: Problem, rules: seq<Rule>, reify: bool, before: seq<Key>, n: nat): seq<Key>
    requires AllModellable(p, rules) && n <= |rules|
  {
    if n == 0 then before
    else WithKey(RuleLiterals(p, rules, reify, before, n - 1), rules[n - 1].key, reify && RuleAsks(p, rules[n - 1]))
  }

  method PostRule(b: Built, p: Problem, ri: nat, rule: Rule)
    requires b.Valid() && b.Covers(p) && Modellable(p, rule) && TiersInOrder(b.tiers)
    modifies b`posted, b`assumptions, b`hardRuleKeys, b`tiers
    ensures b.Valid() && TiersInOrder(b.tiers)
    ensures forall w, lits :: Sat(b.posted, w, lits) <==>
              Sat(old(b.posted), w, lits) && RuleSat(p, ri, rule, b.reify, w, lits)
    ensures forall w :: TierTotal(b.tiers, w) == TierTotal(old(b.tiers), w) + RuleCost(p, ri, rule, w)
    ensures b.assumptions == WithKey(old(b.assumptions), rule.key, b.reify && RuleAsks(p, rule))
    ensures b.hardRuleKeys == old(b.hardRuleKeys) + if rule.Hard? then [rule.key] else []
    ensures match rule
            case Hard(_, _, _) => b.tiers == old(b.tiers)
            case Soft(key, _, soft, weight) =>
              RecordsOneMore(old(b.tiers), b.tiers, TierRank(soft), key, RecordedWeight(soft, weight))
  {
    match rule
    case Hard(key, scope, kind) =>
      b.hardRuleKeys := b.hardRuleKeys + [key];
      Translate(b, p, ri, scope, key, kind);
    case Soft(key, scope, soft, weight) =>
      TranslateSoft(b, p, ri, scope, key, soft, weight);
  }

  /** The SOFT rules among the first `n`, and they alone, are on record, each in the tier of its kind and
      with the scaled weight it carried. */
  ghost predicate OnRecord(tiers: seq<Tier>, rules: seq<Rule>, n: nat)
    requires n <= |rules|
  {
    forall r, k, u :: Recorded(tiers, r, k, u) <==> exists i :: 0 <= i < n && RecordedAs(rules[i], r, k, u)
  }

  predicate RecordedAs(rule: Rule, rank: int, key: Key, recorded: Option<int>) {
    rule.Soft? && TierRank(rule.soft) == rank && rule.key == key && RecordedWeight(rule.soft, rule.weight) == recorded
  }

  lemma NothingRecorded(rules: seq<Rule>)
    ensures OnRecord([], rules, 0)
  {
  }

  lemma RecordGrows(before: seq<Tier>, after: seq<Tier>, rules: seq<Rule>, n: nat)
    requires n < |rules| && OnRecord(before, rules, n)
    requires match rules[n]
             case Hard(_, _, _) => after == before
             case Soft(key, _, soft, weight) =>
               RecordsOneMore(before, after, TierRank(soft), key, RecordedWeight(soft, weight))
    ensures OnRecord(after, rules, n + 1)
  {
    hide Recorded;
    forall r, k, u
      ensures (exists i :: 0 <= i < n + 1 && RecordedAs(rules[i], r, k, u))
         <==> (exists i :: 0 <= i < n && RecordedAs(rules[i], r, k, u)) || RecordedAs(rules[n], r, k, u)
    {
    }
  }

  method PostRules(b: Built, p: Problem, rules: seq<Rule>)
    requires b.Valid() && b.Covers(p) && AllModellable(p, rules)
    requires b.hardRuleKeys == [] && b.tiers == []
    modifies b`posted, b`assumptions, b`hardRuleKeys, b`tiers
    ensures b.Valid() && TiersInOrder(b.tiers) && b.hardRuleKeys == HardKeys(rules)
    ensures forall w, lits :: Sat(b.posted, w, lits) <==>
              Sat(old(b.posted), w, lits) && RulesSat(p, rules, b.reify, w, lits, |rules|)
    ensures forall w :: TierTotal(b.tiers, w) == Cost(p, rules, w, |rules|)
    ensures b.assumptions == RuleLiterals(p, rules, b.reify, old(b.assumptions), |rules|)
    ensures OnRecord(b.tiers, rules, |rules|)
  {
    hide Sat, Recorded, Built.Valid;
    assert OnRecord([], rules, 0) by { NothingRecorded(rules); }
    for i := 0 to |rules|
      invariant b.Valid() && TiersInOrder(b.tiers) && b.hardRuleKeys == HardKeys(rules[..i])
      invariant forall w, lits :: Sat(b.posted, w, lits) <==>
                  Sat(old(b.posted), w, lits) && RulesSat(p, rules, b.reify, w, lits, i)
      invariant forall w :: TierTotal(b.tiers, w) == Cost(p, rules, w, i)
      invariant b.assumptions == RuleLiterals(p, rules, b.reify, old(b.assumptions), i)
      invariant OnRecord(b.tiers, rules, i)
    {
      ghost var before := b.tiers;
      PostRule(b, p, i, rules[i]);
      RecordGrows(before, b.tiers, rules, i);
      assert b.hardRuleKeys == HardKeys(rules[..i + 1]) by {
        assert rules[..i + 1][..i] == rules[..i];
      }
      forall w, lits { RulesSatStep(p, rules, b.reify, w, lits, i); }
    }
    assert rules[..|rules|] == rules;
  }

  lemma RulesSatStep(p: Problem, rules: seq<Rule>, reify: bool, w: Val, lits: set<Key>, n: nat)
    requires Resolved(p) && AllModellable(p, rules) && n < |rules|
    ensures RulesSat(p, rules, reify, w, lits, n + 1)
       <==> RulesSat(p, rules, reify, w, lits, n) && RuleSat(p, n, rules[n], reify, w, lits)
  {
  }
}
