/** The structural checks made twice over one snapshot, before a solve by the platform and after an
    infeasible one by the worker: when they name the same findings, and what a finding proves. */
module Readiness {
  import opened Wrappers
  import opened Problems
  import opened MemberByDate
  import opened Compiler

  datatype FindingCode =
    | NoEligibleMember
    | EligibleCapacityBelowDemand
    | DayDemandExceedsParticipants
    | ConflictingFixedAssignments
    | RequirementShiftTypeUnknown
    | RequirementOutsidePeriod

  datatype Finding = Finding(code: FindingCode, date: int, shift: Option<Id>)

  type Slot = (int, Id)

  // ---------------------------------------------------------------- what there is to find

  ghost function EligibleFor(p: Problem, s: Id): set<Id> {
    set m | m in p.members && (m, s) in p.eligible
  }

  /** The capacity verdict on one requirement. */
  ghost function SlotCode(p: Problem, slot: Slot): Option<FindingCode>
    requires slot in p.required
  {
    var eligible := |EligibleFor(p, slot.1)|;
    if p.required[slot] <= 0 then None
    else if eligible == 0 then Some(NoEligibleMember)
    else if eligible < p.required[slot] then Some(EligibleCapacityBelowDemand)
    else None
  }

  function Positive(n: int): int {
    if n > 0 then n else 0
  }

  /** Positive demand of a day, over some of the requirements. */
  ghost function DayDemand(required: map<Slot, int>, slots: set<Slot>, d: int): int
    requires slots <= required.Keys
  {
    if slots == {} then 0
    else
      var slot :| slot in slots;
      DayDemand(required, slots - {slot}, d) + if slot.0 == d then Positive(required[slot]) else 0
  }

  lemma {:induction false} DayDemandPick(required: map<Slot, int>, slots: set<Slot>, d: int, slot: Slot)
    requires slots <= required.Keys && slot in slots
    ensures DayDemand(required, slots, d)
         == DayDemand(required, slots - {slot}, d) + if slot.0 == d then Positive(required[slot]) else 0
  {
    var other :| other in slots && DayDemand(required, slots, d)
      == DayDemand(required, slots - {other}, d) + if other.0 == d then Positive(required[other]) else 0;
    if other != slot {
      DayDemandPick(required, slots - {other}, d, slot);
      DayDemandPick(required, slots - {slot}, d, other);
      assert slots - {other} - {slot} == slots - {slot} - {other};
    }
  }

  predicate DayIsOver(p: Problem, demand: int) {
    demand > |p.members|
  }

  /** The fixed inputs that come after a smaller shift type of the same member and date. */
  ghost function Conflicts(fixed: seq<Cell>, d: int, s: Id): set<Cell> {
    set c | c in fixed && c.d == d && c.s == s && exists b :: b in fixed && b.m == c.m && b.d == c.d && b.s < c.s
  }

  /** A consistent statement of demand: every positive row names a shift type and a date there are. */
  predicate Consistent(p: Problem, known: set<Id>, slot: Slot)
    requires slot in p.required
  {
    p.required[slot] > 0 ==> slot.1 in known && p.start <= slot.0 <= p.end
  }

  /** How often each finding of the two checks is named. `known` is `None` for the worker, which does
      not look at whether a requirement is consistent. */
  ghost function Count(p: Problem, fixed: seq<Cell>, known: Option<set<Id>>, f: Finding): nat {
    match f.code
    case DayDemandExceedsParticipants =>
      if f.shift.None? && DayIsOver(p, DayDemand(p.required, p.required.Keys, f.date)) then 1 else 0
    case ConflictingFixedAssignments =>
      if f.shift.Some? then |Conflicts(fixed, f.date, f.shift.value)| else 0
    case _ => SlotCount(p, known, f)
  }

  ghost function SlotCount(p: Problem, known: Option<set<Id>>, f: Finding): nat {
    if f.shift.Some? && (f.date, f.shift.value) in p.required
      && SlotVerdict(p, known, (f.date, f.shift.value)) == Some(f.code)
    then 1 else 0
  }

  ghost function SlotVerdict(p: Problem, known: Option<set<Id>>, slot: Slot): Option<FindingCode>
    requires slot in p.required
  {
    if known.Some? && p.required[slot] > 0 && slot.1 !in known.value then Some(RequirementShiftTypeUnknown)
    else if known.Some? && p.required[slot] > 0 && !(p.start <= slot.0 <= p.end) then Some(RequirementOutsidePeriod)
    else SlotCode(p, slot)
  }

  /** The findings are named as often as they should be. */
  ghost predicate Exactly(p: Problem, fixed: seq<Cell>, known: Option<set<Id>>, findings: seq<Finding>) {
    forall f :: multiset(findings)[f] == Count(p, fixed, known, f)
  }

  /** What the worker's findings say: nobody is eligible for a wanted shift type, too few are, more is wanted on
      a date than there are members, or a member is fixed twice on it. None of these is missed. */
  lemma FindingsSay(p: Problem, fixed: seq<Cell>, findings: seq<Finding>, d: int, s: Id)
    requires Exactly(p, fixed, None, findings)
    ensures Finding(NoEligibleMember, d, Some(s)) in findings <==>
              (d, s) in p.required && p.required[(d, s)] >= 1 && forall m :: m in p.members ==> (m, s) !in p.eligible
    ensures Finding(EligibleCapacityBelowDemand, d, Some(s)) in findings <==>
              (d, s) in p.required && 1 <= |set m | m in p.members && (m, s) in p.eligible| < p.required[(d, s)]
    ensures Finding(DayDemandExceedsParticipants, d, None) in findings <==>
              DayDemand(p.required, p.required.Keys, d) >= |p.members| + 1
    ensures Finding(ConflictingFixedAssignments, d, Some(s)) in findings <==>
              exists b, c :: b in fixed && c in fixed && b.m == c.m && b.d == c.d == d && b.s < c.s == s
  {
    NamedIff(p, fixed, None, findings, Finding(NoEligibleMember, d, Some(s)));
    NamedIff(p, fixed, None, findings, Finding(EligibleCapacityBelowDemand, d, Some(s)));
    NamedIff(p, fixed, None, findings, Finding(DayDemandExceedsParticipants, d, None));
    NamedIff(p, fixed, None, findings, Finding(ConflictingFixedAssignments, d, Some(s)));
    ConflictsSay(fixed, d, s);
    NobodyIsAble(p, s);
    hide Exactly, DayDemand, Conflicts, EligibleFor;
  }

  lemma NobodyIsAble(p: Problem, s: Id)
    ensures EligibleFor(p, s) == set m | m in p.members && (m, s) in p.eligible
    ensures |EligibleFor(p, s)| == 0 <==> forall m :: m in p.members ==> (m, s) !in p.eligible
  {
    var able := EligibleFor(p, s);
    assert forall m :: m in able <==> m in p.members && (m, s) in p.eligible;
    hide EligibleFor;
    if |able| == 0 {
      assert able == {};
      forall m | m in p.members ensures (m, s) !in p.eligible {
        assert m !in able;
      }
    }
    if forall m :: m in p.members ==> (m, s) !in p.eligible {
      assert able == {};
    }
  }

  lemma NamedIff(p: Problem, fixed: seq<Cell>, known: Option<set<Id>>, findings: seq<Finding>, f: Finding)
    requires Exactly(p, fixed, known, findings)
    ensures f in findings <==> Count(p, fixed, known, f) > 0
  {
    assert f in findings <==> f in multiset(findings);
    hide Count;
  }

  lemma ConflictsSay(fixed: seq<Cell>, d: int, s: Id)
    ensures |Conflicts(fixed, d, s)| > 0 <==>
              exists b, c :: b in fixed && c in fixed && b.m == c.m && b.d == c.d == d && b.s < c.s == s
  {
    assert |Conflicts(fixed, d, s)| == 0 <==> Conflicts(fixed, d, s) == {};
    if Conflicts(fixed, d, s) != {} {
      var c :| c in Conflicts(fixed, d, s);
    }
    if b, c :| b in fixed && c in fixed && b.m == c.m && b.d == c.d == d && b.s < c.s == s {
      assert c in Conflicts(fixed, d, s);
    }
  }

  // ---------------------------------------------------------------- the parts of the two walks

  /** A list of the requirements, each once. */
  ghost predicate Lists(rows: seq<Slot>, required: map<Slot, int>) {
    NoDup(rows) && forall slot :: slot in rows <==> slot in required
  }

  ghost function EligibleAmong(p: Problem, members: seq<Id>, s: Id): set<Id> {
    set m | m in members && (m, s) in p.eligible
  }

  lemma OneMoreMember(p: Problem, before: seq<Id>, m: Id, s: Id)
    requires m !in before
    ensures |EligibleAmong(p, before + [m], s)| == |EligibleAmong(p, before, s)| + if (m, s) in p.eligible then 1 else 0
  {
    if (m, s) in p.eligible {
      assert EligibleAmong(p, before + [m], s) == EligibleAmong(p, before, s) + {m};
    } else {
      assert EligibleAmong(p, before + [m], s) == EligibleAmong(p, before, s);
    }
  }

  method CountEligible(p: Problem, s: Id) returns (n: nat)
    requires Resolved(p)
    ensures n == |EligibleFor(p, s)|
  {
    n := 0;
    for i := 0 to |p.members|
      invariant n == |EligibleAmong(p, p.members[..i], s)|
    {
      assert p.members[..i + 1] == p.members[..i] + [p.members[i]];
      OneMoreMember(p, p.members[..i], p.members[i], s);
      if (p.members[i], s) in p.eligible { n := n + 1; }
    }
    assert p.members[..|p.members|] == p.members;
    assert EligibleAmong(p, p.members, s) == EligibleFor(p, s);
  }

  /** The slot findings of a prefix of the rows. */
  ghost predicate SlotsExactly(p: Problem, known: Option<set<Id>>, rows: seq<Slot>, findings: seq<Finding>)
    requires forall slot :: slot in rows ==> slot in p.required
  {
    forall f :: multiset(findings)[f] ==
      if f.shift.Some? && (f.date, f.shift.value) in rows
        && SlotVerdict(p, known, (f.date, f.shift.value)) == Some(f.code)
      then 1 else 0
  }

  lemma OneMoreSlot(p: Problem, known: Option<set<Id>>, before: seq<Slot>, slot: Slot, findings: seq<Finding>)
    requires slot !in before && slot in p.required && forall b :: b in before ==> b in p.required
    requires SlotsExactly(p, known, before, findings)
    ensures var verdict := SlotVerdict(p, known, slot);
            SlotsExactly(p, known, before + [slot],
                         if verdict.None? then findings else findings + [Finding(verdict.value, slot.0, Some(slot.1))])
  {
  }

  method WorkerVerdict(p: Problem, slot: Slot) returns (verdict: Option<FindingCode>)
    requires Resolved(p) && slot in p.required
    ensures verdict == SlotVerdict(p, None, slot)
  {
    if p.required[slot] <= 0 {
      return None;
    }
    var eligible := CountEligible(p, slot.1);
    if eligible == 0 {
      return Some(NoEligibleMember);
    } else if eligible < p.required[slot] {
      return Some(EligibleCapacityBelowDemand);
    }
    return None;
  }

  method PlatformVerdict(p: Problem, known: set<Id>, slot: Slot) returns (verdict: Option<FindingCode>)
    requires Resolved(p) && slot in p.required
    ensures verdict == SlotVerdict(p, Some(known), slot)
  {
    if p.required[slot] <= 0 {
      return None;
    }
    if slot.1 !in known {
      return Some(RequirementShiftTypeUnknown);
    }
    if slot.0 < p.start || slot.0 > p.end {
      return Some(RequirementOutsidePeriod);
    }
    var eligible := CountEligible(p, slot.1);
    if eligible == 0 {
      return Some(NoEligibleMember);
    } else if eligible < p.required[slot] {
      return Some(EligibleCapacityBelowDemand);
    }
    return None;
  }

  method WorkerSlots(p: Problem, rows: seq<Slot>) returns (findings: seq<Finding>)
    requires Resolved(p) && Lists(rows, p.required)
    ensures SlotsExactly(p, None, rows, findings)
  {
    hide SlotVerdict, Resolved;
    findings := [];
    for i := 0 to |rows|
      invariant SlotsExactly(p, None, rows[..i], findings)
    {
      var slot := rows[i];
      assert slot in rows && rows[..i + 1] == rows[..i] + [slot] && slot !in rows[..i];
      OneMoreSlot(p, None, rows[..i], slot, findings);
      var verdict := WorkerVerdict(p, slot);
      if verdict.Some? { findings := findings + [Finding(verdict.value, slot.0, Some(slot.1))]; }
    }
    assert rows[..|rows|] == rows;
  }

  method PlatformSlots(p: Problem, known: set<Id>, rows: seq<Slot>) returns (findings: seq<Finding>)
    requires Resolved(p) && Lists(rows, p.required)
    ensures SlotsExactly(p, Some(known), rows, findings)
  {
    hide SlotVerdict, Resolved;
    findings := [];
    for i := 0 to |rows|
      invariant SlotsExactly(p, Some(known), rows[..i], findings)
    {
      var slot := rows[i];
      assert slot in rows && rows[..i + 1] == rows[..i] + [slot] && slot !in rows[..i];
      OneMoreSlot(p, Some(known), rows[..i], slot, findings);
      var verdict := PlatformVerdict(p, known, slot);
      if verdict.Some? { findings := findings + [Finding(verdict.value, slot.0, Some(slot.1))]; }
    }
    assert rows[..|rows|] == rows;
  }

  ghost predicate SumsDays(required: map<Slot, int>, slots: set<Slot>, byDay: map<int, int>)
    requires slots <= required.Keys
  {
    forall d :: DayDemand(required, slots, d) == if d in byDay then byDay[d] else 0
  }

  /** The demand of each day. The worker adds zeros for the rows that ask for nobody, the platform
      passes them over. */
  method SumByDay(p: Problem, rows: seq<Slot>, skip: bool) returns (byDay: map<int, int>)
    requires Lists(rows, p.required)
    ensures SumsDays(p.required, p.required.Keys, byDay)
  {
    byDay := map[];
    ghost var seen: set<Slot> := {};
    for i := 0 to |rows|
      invariant forall slot :: slot in seen <==> slot in rows[..i]
      invariant seen <= p.required.Keys && SumsDays(p.required, seen, byDay)
    {
      var slot := rows[i];
      assert slot in rows && rows[..i + 1] == rows[..i] + [slot] && slot !in rows[..i];
      forall d { DayDemandPick(p.required, seen + {slot}, d, slot); }
      assert seen + {slot} - {slot} == seen;
      seen := seen + {slot};
      if skip && p.required[slot] <= 0 { continue; }
      byDay := byDay[slot.0 := (if slot.0 in byDay then byDay[slot.0] else 0) + Positive(p.required[slot])];
    }
    assert rows[..|rows|] == rows;
    assert seen == p.required.Keys;
  }

  ghost predicate DaysExactly(p: Problem, byDay: map<int, int>, days: seq<int>, findings: seq<Finding>) {
    forall f :: multiset(findings)[f] ==
      if f.code == DayDemandExceedsParticipants && f.shift.None? && f.date in days
         && f.date in byDay && DayIsOver(p, byDay[f.date]) then 1 else 0
  }

  method OverfullDays(p: Problem, byDay: map<int, int>, days: seq<int>) returns (findings: seq<Finding>)
    requires NoDup(days) && forall d :: d in days <==> d in byDay
    ensures DaysExactly(p, byDay, days, findings)
  {
    findings := [];
    for i := 0 to |days|
      invariant DaysExactly(p, byDay, days[..i], findings)
    {
      var day := days[i];
      assert day in days;
      assert days[..i + 1] == days[..i] + [day] && day !in days[..i];
      if byDay[day] > |p.members| {
        var f := Finding(DayDemandExceedsParticipants, day, None);
        assert multiset(findings + [f]) == multiset(findings)[f := multiset(findings)[f] + 1];
        findings := findings + [f];
      }
    }
    assert days[..|days|] == days;
  }

  /** Within one member and date the inputs come in shift order. Both sort keys give this. */
  ghost predicate Grouped(fixed: seq<Cell>) {
    forall i, j :: 0 <= i < j < |fixed| && fixed[i].m == fixed[j].m && fixed[i].d == fixed[j].d ==>
      fixed[i].s <= fixed[j].s
  }

  predicate ByDateThenShift(a: Cell, b: Cell) {
    a.d < b.d || (a.d == b.d && (a.s < b.s || (a.s == b.s && a.m <= b.m)))
  }

  predicate ByMemberThenDate(a: Cell, b: Cell) {
    a.m < b.m || (a.m == b.m && (a.d < b.d || (a.d == b.d && a.s <= b.s)))
  }

  /** Both orders compare any two inputs: by date, shift type and member, and by member, date and shift type. */
  lemma OrdersInFields(a: Cell, b: Cell)
    ensures ByDateThenShift(a, b) || ByDateThenShift(b, a)
    ensures ByDateThenShift(a, b) && ByDateThenShift(b, a) ==> a == b
    ensures ByDateThenShift(a, b) ==> a.d <= b.d && (a.d == b.d ==> a.s <= b.s)
    ensures ByMemberThenDate(a, b) || ByMemberThenDate(b, a)
    ensures ByMemberThenDate(a, b) && ByMemberThenDate(b, a) ==> a == b
    ensures ByMemberThenDate(a, b) ==> a.m <= b.m && (a.m == b.m ==> a.d <= b.d)
  {
  }

  lemma EitherOrderGroups(fixed: seq<Cell>)
    ensures (forall i, j :: 0 <= i < j < |fixed| ==> ByDateThenShift(fixed[i], fixed[j])) ==> Grouped(fixed)
    ensures (forall i, j :: 0 <= i < j < |fixed| ==> ByMemberThenDate(fixed[i], fixed[j])) ==> Grouped(fixed)
  {
  }

  ghost predicate ConflictsExactly(fixed: seq<Cell>, findings: seq<Finding>) {
    forall f :: multiset(findings)[f] ==
      if f.code == ConflictingFixedAssignments && f.shift.Some? then |Conflicts(fixed, f.date, f.shift.value)| else 0
  }

  ghost predicate LastSeen(fixed: seq<Cell>, seen: map<(Id, int), Id>) {
    && (forall c :: c in fixed ==> (c.m, c.d) in seen && c.s <= seen[(c.m, c.d)])
    && (forall k :: k in seen ==> Cell(k.0, k.1, seen[k]) in fixed)
  }

  lemma OneMoreSeen(before: seq<Cell>, c: Cell, seen: map<(Id, int), Id>)
    requires Grouped(before + [c]) && LastSeen(before, seen)
    ensures forall b :: b in before && b.m == c.m && b.d == c.d ==> b.s <= c.s
    ensures LastSeen(before + [c], seen[(c.m, c.d) := c.s])
  {
    var all := before + [c];
    forall b | b in before && b.m == c.m && b.d == c.d ensures b.s <= c.s {
      var i :| 0 <= i < |before| && before[i] == b;
      assert all[i] == b && all[|before|] == c;
    }
    assert Cell(c.m, c.d, c.s) == c;
  }

  /** Only a first input after a smaller one adds a conflict. */
  lemma OneMoreConflict(before: seq<Cell>, c: Cell, seen: map<(Id, int), Id>, d: int, s: Id)
    requires Grouped(before + [c]) && LastSeen(before, seen)
    ensures |Conflicts(before + [c], d, s)| == |Conflicts(before, d, s)|
              + if d == c.d && s == c.s && (c.m, c.d) in seen && seen[(c.m, c.d)] != c.s then 1 else 0
  {
    OneMoreSeen(before, c, seen);
    if d == c.d && s == c.s && (c.m, c.d) in seen && seen[(c.m, c.d)] != c.s {
      var last := Cell(c.m, c.d, seen[(c.m, c.d)]);
      assert last in before && last.s < c.s && c !in before;
      assert Conflicts(before + [c], d, s) == Conflicts(before, d, s) + {c};
    } else {
      NoNewConflict(before, c, seen, d, s);
    }
  }

  lemma NoNewConflict(before: seq<Cell>, c: Cell, seen: map<(Id, int), Id>, d: int, s: Id)
    requires LastSeen(before, seen) && forall b :: b in before && b.m == c.m && b.d == c.d ==> b.s <= c.s
    requires d != c.d || s != c.s || (c.m, c.d) !in seen || seen[(c.m, c.d)] == c.s
    ensures Conflicts(before + [c], d, s) == Conflicts(before, d, s)
  {
    var all := before + [c];
    if d == c.d && s == c.s && c !in before {
      assert (c.m, c.d) !in seen;
      assert c !in Conflicts(all, d, s);
    }
    forall e ensures e in Conflicts(all, d, s) <==> e in Conflicts(before, d, s) {
      assert e in all <==> e in before || e == c;
    }
  }

  lemma OneMoreFixed(before: seq<Cell>, c: Cell, seen: map<(Id, int), Id>, findings: seq<Finding>)
    requires Grouped(before + [c]) && LastSeen(before, seen) && ConflictsExactly(before, findings)
    ensures ConflictsExactly(before + [c],
              if (c.m, c.d) in seen && seen[(c.m, c.d)] != c.s
              then findings + [Finding(ConflictingFixedAssignments, c.d, Some(c.s))] else findings)
  {
    forall d, s { OneMoreConflict(before, c, seen, d, s); }
    if (c.m, c.d) in seen && seen[(c.m, c.d)] != c.s {
      var f := Finding(ConflictingFixedAssignments, c.d, Some(c.s));
      assert multiset(findings + [f]) == multiset(findings)[f := multiset(findings)[f] + 1];
    }
  }

  lemma NothingFixed()
    ensures LastSeen([], map[]) && ConflictsExactly([], [])
  {
    assert forall d, s :: Conflicts([], d, s) == {};
  }

  lemma GroupedPrefix(fixed: seq<Cell>, n: nat)
    requires Grouped(fixed) && n <= |fixed|
    ensures Grouped(fixed[..n])
  {
  }

  method ConflictingFixed(fixed: seq<Cell>) returns (findings: seq<Finding>)
    requires Grouped(fixed)
    ensures ConflictsExactly(fixed, findings)
  {
    hide Grouped, LastSeen, Conflicts, ConflictsExactly;
    findings := [];
    var seen: map<(Id, int), Id> := map[];
    NothingFixed();
    assert fixed[..0] == [];
    for i := 0 to |fixed|
      invariant LastSeen(fixed[..i], seen) && ConflictsExactly(fixed[..i], findings)
    {
      var c := fixed[i];
      assert fixed[..i + 1] == fixed[..i] + [c];
      GroupedPrefix(fixed, i + 1);
      OneMoreSeen(fixed[..i], c, seen);
      OneMoreFixed(fixed[..i], c, seen, findings);
      if (c.m, c.d) in seen && seen[(c.m, c.d)] != c.s {
        findings := findings + [Finding(ConflictingFixedAssignments, c.d, Some(c.s))];
      }
      seen := seen[(c.m, c.d) := c.s];
    }
    assert fixed[..|fixed|] == fixed;
  }

  lemma PartsTogether(p: Problem, known: Option<set<Id>>, rows: seq<Slot>, byDay: map<int, int>, days: seq<int>,
                      fixed: seq<Cell>,
                      slots: seq<Finding>, over: seq<Finding>, clashes: seq<Finding>)
    requires Lists(rows, p.required) && SlotsExactly(p, known, rows, slots)
    requires SumsDays(p.required, p.required.Keys, byDay) && (forall d :: d in days <==> d in byDay)
              && DaysExactly(p, byDay, days, over)
    requires ConflictsExactly(fixed, clashes)
    ensures Exactly(p, fixed, known, slots + over + clashes)
  {
    hide DayDemand, SlotVerdict, Conflicts;
    forall f ensures multiset(slots + over + clashes)[f] == Count(p, fixed, known, f) {
      assert multiset(slots + over + clashes)[f] == multiset(slots)[f] + multiset(over)[f] + multiset(clashes)[f];
      SlotCodesOnly(p, known, f);
    }
  }

  lemma SlotCodesOnly(p: Problem, known: Option<set<Id>>, f: Finding)
    ensures f.code == DayDemandExceedsParticipants || f.code == ConflictingFixedAssignments ==>
              SlotCount(p, known, f) == 0
  {
  }

  // ---------------------------------------------------------------- the two checks

  /** The worker's check, after an infeasible solve. `rows` and `days` are the orders it walks in. */
  method StructuralFindings(p: Problem, rows: seq<Slot>, fixed: seq<Cell>) returns (findings: seq<Finding>)
    requires Resolved(p) && Lists(rows, p.required)
    requires forall i, j :: 0 <= i < j < |fixed| ==> ByDateThenShift(fixed[i], fixed[j])
    ensures Exactly(p, fixed, None, findings)
  {
    var slots := WorkerSlots(p, rows);
    var byDay := SumByDay(p, rows, false);
    var days := SortedDays(byDay.Keys);
    var over := OverfullDays(p, byDay, days);
    EitherOrderGroups(fixed);
    var clashes := ConflictingFixed(fixed);
    PartsTogether(p, None, rows, byDay, days, fixed, slots, over, clashes);
    findings := slots + over + clashes;
  }

  /** The platform's check, before the solve. */
  method ReadinessFindings(p: Problem, known: set<Id>, rows: seq<Slot>, fixed: seq<Cell>)
      returns (findings: seq<Finding>)
    requires Resolved(p) && Lists(rows, p.required)
    requires forall i, j :: 0 <= i < j < |fixed| ==> ByMemberThenDate(fixed[i], fixed[j])
    ensures Exactly(p, fixed, Some(known), findings)
  {
    var slots := PlatformSlots(p, known, rows);
    var byDay := SumByDay(p, rows, true);
    var days := SortedDays(byDay.Keys);
    var over := OverfullDays(p, byDay, days);
    EitherOrderGroups(fixed);
    var clashes := ConflictingFixed(fixed);
    PartsTogether(p, Some(known), rows, byDay, days, fixed, slots, over, clashes);
    findings := slots + over + clashes;
  }

  method AnyOf<T(==)>(s: set<T>) returns (e: T)
    requires s != {}
    ensures e in s
  {
    e :| e in s;
  }

  /** The days of a set, each once. */
  method SortedDays(days: set<int>) returns (list: seq<int>)
    ensures NoDup(list) && forall d :: d in list <==> d in days
  {
    list := [];
    var left := days;
    while left != {}
      invariant left <= days && NoDup(list)
      invariant forall d :: d in list <==> d in days && d !in left
      decreases |left|
    {
      var d := AnyOf(left);
      list := list + [d];
      left := left - {d};
    }
  }

  ghost predicate SameInputs(a: seq<Cell>, b: seq<Cell>) {
    forall c :: c in a <==> c in b
  }

  /** The two checks name the same findings, as often, exactly if every positive requirement names a
      shift type the snapshot carries and a date of the period. */
  lemma ChecksAgreeIff(p: Problem, known: set<Id>, ours: seq<Cell>, theirs: seq<Cell>, worker: seq<Finding>,
                       platform: seq<Finding>)
    requires SameInputs(ours, theirs)
    requires Exactly(p, ours, None, worker) && Exactly(p, theirs, Some(known), platform)
    ensures multiset(worker) == multiset(platform) <==> forall slot :: slot in p.required ==> Consistent(p, known, slot)
  {
    forall d, s ensures Conflicts(ours, d, s) == Conflicts(theirs, d, s) {
    }
    if forall slot :: slot in p.required ==> Consistent(p, known, slot) {
      forall f ensures multiset(worker)[f] == multiset(platform)[f] {
        assert multiset(worker)[f] == Count(p, ours, None, f);
        assert multiset(platform)[f] == Count(p, theirs, Some(known), f);
        if f.shift.Some? && (f.date, f.shift.value) in p.required {
          assert Consistent(p, known, (f.date, f.shift.value));
        }
      }
      assert multiset(worker) == multiset(platform);
    }
    if slot :| slot in p.required && !Consistent(p, known, slot) {
      var code := SlotVerdict(p, Some(known), slot).value;
      var f := Finding(code, slot.0, Some(slot.1));
      assert multiset(platform)[f] == Count(p, theirs, Some(known), f) == 1;
      assert multiset(worker)[f] == Count(p, ours, None, f) == 0;
    }
  }

  // ---------------------------------------------------------------- what a finding proves

  ghost function Available(p: Problem, d: int, s: Id): set<Id> {
    set m | m in p.members && IsCell(p, Cell(m, d, s))
  }

  ghost predicate DemandHolds(p: Problem, x: set<Cell>) {
    AllSlotsPossible(p) && DemandMet(p, x)
  }

  lemma {:induction false} StaffingFits(p: Problem, cs: set<Cell>, members: set<Id>, d: int, s: Id)
    requires forall c :: c in cs ==> c.d == d && c.s == s && c.m in members
    ensures |cs| <= |members|
  {
    if c :| c in cs {
      StaffingFits(p, cs - {c}, members - {c.m}, d, s);
    }
  }

  /** A capacity finding on an active shift type and a date of the horizon: nothing staffs the slot. */
  lemma CapacityFindingIsProof(p: Problem, slot: Slot, x: set<Cell>)
    requires Resolved(p) && OnGrid(p, x) && slot in p.required && SlotCode(p, slot).Some?
    requires slot.1 in p.shiftIds && p.start <= slot.0 <= p.end
    ensures !DemandHolds(p, x)
  {
    var (d, s) := slot;
    if DemandHolds(p, x) {
      assert SlotPossible(p, d, s) && SlotMet(p, x, d, s);
      var m :| m in p.members && IsCell(p, Cell(m, d, s));
      assert m in EligibleFor(p, s);
      StaffingFits(p, Staffing(p, x, d, s), EligibleFor(p, s), d, s);
      assert false;
    }
  }

  ghost predicate SlotFits(p: Problem, d: int, s: Id) {
    Required(p, d, s) <= |Available(p, d, s)| && (Staffable(p, d, s) ==> Required(p, d, s) >= 0)
  }

  ghost function Choose(members: set<Id>, n: nat): (chosen: set<Id>)
    requires n <= |members|
    ensures chosen <= members && |chosen| == n
  {
    if n == 0 then {}
    else
      var m := Any(members);
      assert |members - {m}| == |members| - 1;
      Choose(members - {m}, n - 1) + {m}
  }

  ghost function Crew(p: Problem, d: int, s: Id): (crew: set<Id>)
    ensures SlotFits(p, d, s) && Staffable(p, d, s) ==> crew <= Available(p, d, s) && |crew| == Required(p, d, s)
  {
    if SlotFits(p, d, s) && Staffable(p, d, s) then Choose(Available(p, d, s), Required(p, d, s)) else {}
  }

  lemma {:induction false} CrewSize(crew: set<Id>, cs: set<Cell>, d: int, s: Id)
    requires forall c :: c in cs <==> c.d == d && c.s == s && c.m in crew
    ensures |cs| == |crew|
  {
    if crew == {} {
      assert cs == {};
    } else {
      var m := Any(crew);
      CrewSize(crew - {m}, cs - {Cell(m, d, s)}, d, s);
      assert Cell(m, d, s) in cs;
    }
  }

  /** Demand alone can be met exactly if every slot has that many members who may be put there. The
      total of a day does not matter, because nothing limits a member to one shift on a date. */
  lemma DemandCanBeMetIff(p: Problem)
    requires Resolved(p)
    ensures (exists x :: OnGrid(p, x) && DemandHolds(p, x))
       <==> forall d, s :: p.start <= d <= p.end && s in p.shiftIds ==> SlotFits(p, d, s)
  {
    hide DemandHolds, SlotFits, OnGrid;
    if x :| OnGrid(p, x) && DemandHolds(p, x) {
      forall d, s | p.start <= d <= p.end && s in p.shiftIds ensures SlotFits(p, d, s) {
        MetSlotFits(p, x, d, s);
      }
    }
    if forall d, s :: p.start <= d <= p.end && s in p.shiftIds ==> SlotFits(p, d, s) {
      CrewsMeetDemand(p);
    }
  }

  lemma MetSlotFits(p: Problem, x: set<Cell>, d: int, s: Id)
    requires OnGrid(p, x) && DemandHolds(p, x) && p.start <= d <= p.end && s in p.shiftIds
    ensures SlotFits(p, d, s)
  {
    assert SlotPossible(p, d, s) && SlotMet(p, x, d, s);
    assert forall c :: c in Staffing(p, x, d, s) ==> IsCell(p, Cell(c.m, d, s)) && c.m in Available(p, d, s);
    StaffingFits(p, Staffing(p, x, d, s), Available(p, d, s), d, s);
  }

  /** Every slot with a crew of its own. */
  ghost function Crewed(p: Problem): (x: set<Cell>)
    ensures OnGrid(p, x)
  {
    set c | c in Cells(p) && c.m in Crew(p, c.d, c.s)
  }

  lemma CrewsMeetDemand(p: Problem)
    requires Resolved(p) && forall d, s :: p.start <= d <= p.end && s in p.shiftIds ==> SlotFits(p, d, s)
    ensures OnGrid(p, Crewed(p)) && DemandHolds(p, Crewed(p))
  {
    forall d, s | p.start <= d <= p.end && s in p.shiftIds
      ensures SlotPossible(p, d, s) && SlotMet(p, Crewed(p), d, s)
    {
      assert SlotFits(p, d, s);
      if Staffable(p, d, s) {
        CrewSize(Crew(p, d, s), Staffing(p, Crewed(p), d, s), d, s);
      } else {
        assert Available(p, d, s) == {};
      }
    }
  }

  /** One member, wanted for both shifts of one day. */
  function OneForTwo(fixed: seq<Fixed>): Problem {
    Problem(0, 0, [1, 2], map[1 := "A", 2 := "B"], map["A" := 1, "B" := 2], map[1 := false, 2 := false],
            map[1 := Times(480, 960, false), 2 := Times(480, 960, false)], map[], [7], {(7, 1), (7, 2)},
            map[(0, 1) := 1, (0, 2) := 1], map[], map[], map[], map[], map[], {}, fixed)
  }

  const BOTH := {Cell(7, 0, 1), Cell(7, 0, 2)}

  lemma BothShiftsWorked(fixed: seq<Fixed>)
    ensures Resolved(OneForTwo(fixed)) && OnGrid(OneForTwo(fixed), BOTH) && DemandHolds(OneForTwo(fixed), BOTH)
  {
    var p := OneForTwo(fixed);
    assert Staffing(p, BOTH, 0, 1) == {Cell(7, 0, 1)} && Staffing(p, BOTH, 0, 2) == {Cell(7, 0, 2)};
    assert 7 in p.members;
    forall d, s | p.start <= d <= p.end && s in p.shiftIds ensures SlotPossible(p, d, s) && SlotMet(p, BOTH, d, s) {
      assert d == 0 && (s == 1 || s == 2);
      assert IsCell(p, Cell(7, 0, s));
    }
  }

  /** So the finding that a day asks for more than there are participants proves nothing: here it fires,
      one member works both shifts, and demand is met. */
  lemma DayFindingIsNoProof() returns (p: Problem, x: set<Cell>)
    ensures Resolved(p) && DayIsOver(p, DayDemand(p.required, p.required.Keys, 0))
    ensures OnGrid(p, x) && DemandHolds(p, x)
  {
    p, x := OneForTwo([]), BOTH;
    assert p.required.Keys == {(0, 1), (0, 2)};
    DayDemandPick(p.required, {(0, 1), (0, 2)}, 0, (0, 1));
    assert {(0, 1), (0, 2)} - {(0, 1)} == {(0, 2)};
    DayDemandPick(p.required, {(0, 2)}, 0, (0, 2));
    BothShiftsWorked([]);
  }

  /** Nor does the finding about two fixed inputs of one member and date, even if both are pinned: they
      are kept together, and demand is met. */
  lemma ConflictFindingIsNoProof() returns (p: Problem, fixed: seq<Cell>, x: set<Cell>)
    ensures Resolved(p) && |p.fixed| == |fixed| && forall i :: 0 <= i < |fixed| ==>
              p.fixed[i].isPinned && p.fixed[i].cell == fixed[i]
    ensures Conflicts(fixed, 0, 2) != {}
    ensures OnGrid(p, x) && DemandHolds(p, x) && PinsKept(p, x)
  {
    var first, second := Cell(7, 0, 1), Cell(7, 0, 2);
    var pins := [Fixed(1, first, true), Fixed(2, second, true)];
    p, fixed, x := OneForTwo(pins), [first, second], BOTH;
    assert first in fixed && second in Conflicts(fixed, 0, 2);
    BothShiftsWorked(pins);
  }
}
