/** The stub solver's deterministic greedy fill. */
module GreedyFill {
  import opened Wrappers
  import opened Problems
  import opened Sorting

  /** A dated demand cell; a count that is not an integer is passed over. */
  datatype Demand = Demand(date: int, shift: Id, required: Option<int>)

  datatype Participant = Participant(membership: Id, eligible: set<Id>)

  datatype Filled = Filled(placed: seq<Cell>, taken: set<(Id, int)>, unfilled: int)

  function ByDate(c: Cell): Key3 {
    (c.d, c.s, c.m)
  }

  function DemandKey(d: Demand): Key3 {
    (d.date, d.shift, 0)
  }

  function IdKey(id: Id): Key3 {
    (id, 0, 0)
  }

  function Count(cs: seq<Cell>, d: int, s: Id): nat {
    if cs == [] then 0
    else Count(cs[..|cs| - 1], d, s) + if cs[|cs| - 1].d == d && cs[|cs| - 1].s == s then 1 else 0
  }

  method CountScan(cs: seq<Cell>, d: int, s: Id) returns (n: nat)
    ensures n == Count(cs, d, s)
  {
    n := 0;
    for i := 0 to |cs|
      invariant n == Count(cs[..i], d, s)
    {
      assert cs[..i + 1][..i] == cs[..i];
      if cs[i].d == d && cs[i].s == s { n := n + 1; }
    }
    assert cs[..|cs|] == cs;
  }

  // ---------------------------------------------------------------- the fill as a function

  function Members(participants: seq<Participant>, s: Id): seq<Id> {
    if participants == [] then []
    else
      var last := participants[|participants| - 1];
      Members(participants[..|participants| - 1], s) + if s in last.eligible then [last.membership] else []
  }

  function Eligible(participants: seq<Participant>, s: Id): seq<Id> {
    Sort(Members(participants, s), IdKey)
  }

  function Place(st: Filled, d: int, s: Id, m: Id): Filled {
    st.(placed := st.placed + [Cell(m, d, s)], taken := st.taken + {(m, d)})
  }

  function PlaceAll(st: Filled, d: int, s: Id, required: int, already: int, candidates: seq<Id>): Filled
    decreases candidates
  {
    if candidates == [] || already >= required then st
    else if (candidates[0], d) in st.taken then PlaceAll(st, d, s, required, already, candidates[1..])
    else PlaceAll(Place(st, d, s, candidates[0]), d, s, required, already + 1, candidates[1..])
  }

  function Shortfall(cs: seq<Cell>, cell: Demand): int {
    if cell.required.Some? && Count(cs, cell.date, cell.shift) < cell.required.value
    then cell.required.value - Count(cs, cell.date, cell.shift) else 0
  }

  function FillCell(st: Filled, cell: Demand, participants: seq<Participant>): Filled {
    if cell.required.None? then st
    else
      var already := Count(st.placed, cell.date, cell.shift);
      var after := PlaceAll(st, cell.date, cell.shift, cell.required.value, already,
        Eligible(participants, cell.shift));
      after.(unfilled := st.unfilled + Shortfall(after.placed, cell))
  }

  function FillAll(st: Filled, demand: seq<Demand>, participants: seq<Participant>): Filled
    decreases demand
  {
    if demand == [] then st else FillAll(FillCell(st, demand[0], participants), demand[1..], participants)
  }

  function TakenBy(cs: seq<Cell>): (taken: set<(Id, int)>)
    ensures forall c :: c in cs ==> (c.m, c.d) in taken
    ensures forall k :: k in taken ==> exists c :: c in cs && k == (c.m, c.d)
  {
    set c | c in cs :: (c.m, c.d)
  }

  /** The fill before its final sort. */
  function Greedy(fixed: seq<Cell>, demand: seq<Demand>, participants: seq<Participant>): Filled {
    FillAll(Filled(Sort(fixed, ByDate), TakenBy(Sort(fixed, ByDate)), 0), Sort(demand, DemandKey), participants)
  }

  // ---------------------------------------------------------------- the fill as the worker runs it

  method EligibleParticipants(participants: seq<Participant>, s: Id) returns (eligible: seq<Id>)
    ensures eligible == Eligible(participants, s)
  {
    eligible := [];
    for i := 0 to |participants|
      invariant eligible == Members(participants[..i], s)
    {
      assert participants[..i + 1][..i] == participants[..i];
      if s in participants[i].eligible { eligible := eligible + [participants[i].membership]; }
    }
    assert participants[..|participants|] == participants;
    eligible := Sort(eligible, IdKey);
  }

  method PlaceCandidates(st: Filled, d: int, s: Id, required: int, already: int, candidates: seq<Id>)
      returns (out: Filled)
    requires already == Count(st.placed, d, s)
    ensures out == PlaceAll(st, d, s, required, already, candidates)
    ensures out.unfilled == st.unfilled
  {
    out := st;
    var count := already;
    for i := 0 to |candidates|
      invariant PlaceAll(st, d, s, required, already, candidates)
                == PlaceAll(out, d, s, required, count, candidates[i..])
      invariant out.unfilled == st.unfilled
    {
      assert candidates[i..][0] == candidates[i] && candidates[i..][1..] == candidates[i + 1..];
      if count >= required { break; }
      if (candidates[i], d) in out.taken { continue; }
      out := Place(out, d, s, candidates[i]);
      count := count + 1;
    }
  }

  method PlaceFixed(first: seq<Cell>) returns (st: Filled)
    ensures st == Filled(first, TakenBy(first), 0)
  {
    st := Filled([], {}, 0);
    assert first[..0] == [];
    for i := 0 to |first|
      invariant st == Filled(first[..i], TakenBy(first[..i]), 0)
    {
      assert first[..i + 1] == first[..i] + [first[i]];
      st := Filled(st.placed + [first[i]], st.taken + {(first[i].m, first[i].d)}, 0);
      TakenByAppend(first[..i], first[i]);
    }
    assert first[..|first|] == first;
  }

  method FillOne(st: Filled, cell: Demand, participants: seq<Participant>) returns (out: Filled)
    ensures out == FillCell(st, cell, participants)
  {
    if cell.required.None? {
      return st;
    }
    var already := CountScan(st.placed, cell.date, cell.shift);
    var candidates := EligibleParticipants(participants, cell.shift);
    var next := PlaceCandidates(st, cell.date, cell.shift, cell.required.value, already, candidates);
    var now := CountScan(next.placed, cell.date, cell.shift);
    return next.(unfilled := st.unfilled + if now < cell.required.value then cell.required.value - now else 0);
  }

  method BuildCandidate(fixed: seq<Cell>, demand: seq<Demand>, participants: seq<Participant>)
      returns (assignments: seq<Cell>, unfilled: int)
    ensures assignments == Sort(Greedy(fixed, demand, participants).placed, ByDate)
    ensures unfilled == Greedy(fixed, demand, participants).unfilled
  {
    hide FillCell, TakenBy, Sort;
    var st := PlaceFixed(Sort(fixed, ByDate));
    var cells := Sort(demand, DemandKey);
    for i := 0 to |cells|
      invariant Greedy(fixed, demand, participants) == FillAll(st, cells[i..], participants)
    {
      assert cells[i..][0] == cells[i] && cells[i..][1..] == cells[i + 1..];
      st := FillOne(st, cells[i], participants);
    }
    assignments := Sort(st.placed, ByDate);
    unfilled := st.unfilled;
  }

  lemma TakenByAppend(cs: seq<Cell>, c: Cell)
    ensures TakenBy(cs + [c]) == TakenBy(cs) + {(c.m, c.d)}
  {
  }

  // ---------------------------------------------------------------- one demand cell

  lemma {:induction false} CountAppend(a: seq<Cell>, b: seq<Cell>, d: int, s: Id)
    ensures Count(a + b, d, s) == Count(a, d, s) + Count(b, d, s)
  {
    if b == [] {
      assert a + b == a;
    } else {
      CountAppend(a, b[..|b| - 1], d, s);
      assert (a + b)[..|a + b| - 1] == a + b[..|b| - 1];
    }
  }

  lemma {:induction false} CountBounds(cs: seq<Cell>, d: int, s: Id)
    ensures (forall c :: c in cs ==> c.d == d && c.s == s) ==> Count(cs, d, s) == |cs|
    ensures (forall c :: c in cs ==> c.d != d || c.s != s) ==> Count(cs, d, s) == 0
  {
    if cs != [] {
      CountBounds(cs[..|cs| - 1], d, s);
      assert cs == cs[..|cs| - 1] + [cs[|cs| - 1]];
    }
  }

  predicate Reuses(a: Cell, b: Cell) {
    a.m == b.m && a.d == b.d
  }

  ghost predicate NoReuse(cs: seq<Cell>) {
    forall i, j :: 0 <= i < j < |cs| ==> !Reuses(cs[i], cs[j])
  }

  /** What a step adds: no (member, date) taken before or twice, and all of it recorded as taken. */
  ghost predicate Adds(before: Filled, after: Filled, added: seq<Cell>) {
    && after.placed == before.placed + added
    && after.taken == before.taken + TakenBy(added)
    && NoReuse(added)
    && forall c :: c in added ==> (c.m, c.d) !in before.taken
  }

  lemma AddsChains(a: Filled, b: Filled, c: Filled, first: seq<Cell>, second: seq<Cell>)
    requires Adds(a, b, first) && Adds(b, c, second)
    ensures Adds(a, c, first + second)
  {
  }

  /** One cell's walk adds only free candidates of the cell, stops at the requirement, and if it stays
      short every candidate is taken. */
  lemma {:induction false} PlaceAllFills(st: Filled, d: int, s: Id, required: int, already: int, candidates: seq<Id>)
      returns (added: seq<Cell>)
    decreases candidates
    ensures Adds(st, PlaceAll(st, d, s, required, already, candidates), added)
    ensures forall c :: c in added ==> c.d == d && c.s == s && c.m in candidates
    ensures already + |added| <= required || added == []
    ensures already + |added| < required ==>
              forall m :: m in candidates ==> (m, d) in PlaceAll(st, d, s, required, already, candidates).taken
    ensures PlaceAll(st, d, s, required, already, candidates).unfilled == st.unfilled
  {
    added := [];
    if candidates == [] || already >= required {
    } else if (candidates[0], d) in st.taken {
      added := PlaceAllFills(st, d, s, required, already, candidates[1..]);
    } else {
      var c := Cell(candidates[0], d, s);
      var rest := PlaceAllFills(Place(st, d, s, candidates[0]), d, s, required, already + 1, candidates[1..]);
      assert Adds(st, Place(st, d, s, candidates[0]), [c]) by {
        assert TakenBy([c]) == {(candidates[0], d)};
      }
      AddsChains(st, Place(st, d, s, candidates[0]), PlaceAll(st, d, s, required, already, candidates), [c], rest);
      added := [c] + rest;
    }
  }

  ghost predicate AllTaken(cell: Demand, participants: seq<Participant>, taken: set<(Id, int)>) {
    forall m :: m in Eligible(participants, cell.shift) ==> (m, cell.date) in taken
  }

  /** A finished cell: not past its requirement, and short only when everybody is taken. */
  ghost predicate Done(cell: Demand, before: seq<Cell>, after: seq<Cell>, taken: set<(Id, int)>,
                       participants: seq<Participant>) {
    cell.required.Some? ==>
      var had, has := Count(before, cell.date, cell.shift), Count(after, cell.date, cell.shift);
      had <= has && (has <= cell.required.value || has == had)
      && (has < cell.required.value ==> AllTaken(cell, participants, taken))
  }

  lemma FillCellFills(st: Filled, cell: Demand, participants: seq<Participant>) returns (added: seq<Cell>)
    ensures Adds(st, FillCell(st, cell, participants), added)
    ensures forall c :: c in added ==>
              c.d == cell.date && c.s == cell.shift && c.m in Eligible(participants, cell.shift)
    ensures FillCell(st, cell, participants).unfilled
         == st.unfilled + Shortfall(FillCell(st, cell, participants).placed, cell)
    ensures Done(cell, st.placed, FillCell(st, cell, participants).placed, FillCell(st, cell, participants).taken,
              participants)
  {
    if cell.required.None? {
      added := [];
      assert TakenBy([]) == {};
    } else {
      var already := Count(st.placed, cell.date, cell.shift);
      added := PlaceAllFills(st, cell.date, cell.shift, cell.required.value, already,
        Eligible(participants, cell.shift));
      CountAppend(st.placed, added, cell.date, cell.shift);
      CountBounds(added, cell.date, cell.shift);
    }
  }

  // ---------------------------------------------------------------- the whole fill

  function TotalShortfall(cs: seq<Cell>, demand: seq<Demand>): int {
    if demand == [] then 0 else Shortfall(cs, demand[0]) + TotalShortfall(cs, demand[1..])
  }

  ghost predicate ForDemand(c: Cell, demand: seq<Demand>, participants: seq<Participant>) {
    exists k ::
      0 <= k < |demand| && c.d == demand[k].date && c.s == demand[k].shift && c.m in Eligible(participants, c.s)
  }

  lemma AddedElsewhere(added: seq<Cell>, cell: Demand, later: seq<Demand>, participants: seq<Participant>)
    requires forall c :: c in added ==> ForDemand(c, later, participants)
    requires forall k :: 0 <= k < |later| ==> DemandKey(later[k]) != DemandKey(cell)
    ensures Count(added, cell.date, cell.shift) == 0
  {
    CountBounds(added, cell.date, cell.shift);
  }

  /** What came before a cell's turn was for other cells. */
  lemma DoneBefore(cell: Demand, other: Demand, first: seq<Cell>, before: seq<Cell>, after: seq<Cell>,
                   taken: set<(Id, int)>,
                   participants: seq<Participant>)
    requires DemandKey(cell) != DemandKey(other) && Done(other, before + first, after, taken, participants)
    requires forall c :: c in first ==> c.d == cell.date && c.s == cell.shift
    ensures Done(other, before, after, taken, participants)
  {
    hide Eligible;
    CountAppend(before, first, other.date, other.shift);
    CountBounds(first, other.date, other.shift);
  }

  /** What comes after it too. */
  lemma DoneAfter(cell: Demand, before: seq<Cell>, mid: seq<Cell>, rest: seq<Cell>, taken: set<(Id, int)>,
                  all: set<(Id, int)>,
                  participants: seq<Participant>)
    requires Done(cell, before, mid, taken, participants) && taken <= all && Count(rest, cell.date, cell.shift) == 0
    ensures Done(cell, before, mid + rest, all, participants) && Shortfall(mid + rest, cell) == Shortfall(mid, cell)
  {
    hide Eligible;
    CountAppend(mid, rest, cell.date, cell.shift);
  }

  lemma ForOneMore(c: Cell, demand: seq<Demand>, participants: seq<Participant>)
    requires demand != []
    requires (c.d == demand[0].date && c.s == demand[0].shift && c.m in Eligible(participants, c.s))
             || ForDemand(c, demand[1..], participants)
    ensures ForDemand(c, demand, participants)
  {
  }

  /** Every cell of the walk is finished on the final list, and the shortfalls add up. */
  lemma {:induction false} FillAllFills(st: Filled, demand: seq<Demand>, participants: seq<Participant>)
      returns (added: seq<Cell>)
    requires KeysDistinct(demand, DemandKey)
    decreases demand
    ensures Adds(st, FillAll(st, demand, participants), added)
    ensures forall c :: c in added ==> ForDemand(c, demand, participants)
    ensures FillAll(st, demand, participants).unfilled
         == st.unfilled + TotalShortfall(FillAll(st, demand, participants).placed, demand)
    ensures forall k :: 0 <= k < |demand| ==>
              Done(demand[k], st.placed, FillAll(st, demand, participants).placed,
                FillAll(st, demand, participants).taken, participants)
  {
    hide Eligible, Count, FillCell, Done, ForDemand, NoReuse, Shortfall;
    added := [];
    if demand == [] {
      assert TakenBy([]) == {};
      assert NoReuse([]) by { NothingReused(); }
    } else {
      var cell, later := demand[0], demand[1..];
      var first := FillCellFills(st, cell, participants);
      var mid := FillCell(st, cell, participants);
      assert KeysDistinct(later, DemandKey);
      var rest := FillAllFills(mid, later, participants);
      var out := FillAll(mid, later, participants);
      AddsChains(st, mid, out, first, rest);
      AddedElsewhere(rest, cell, later, participants);
      DoneAfter(cell, st.placed, mid.placed, rest, mid.taken, out.taken, participants);
      forall k | 1 <= k < |demand| ensures Done(demand[k], st.placed, out.placed, out.taken, participants) {
        assert later[k - 1] == demand[k];
        assert DemandKey(demand[0]) != DemandKey(demand[k]);
        DoneBefore(cell, demand[k], first, st.placed, out.placed, out.taken, participants);
      }
      added := first + rest;
      forall c | c in added { ForOneMore(c, demand, participants); }
    }
  }

  lemma NothingReused()
    ensures NoReuse([])
  {
  }

  /** The fill, with distinct demand cells: what it adds reuses no (member, date); no cell is filled
      past its requirement or what was fixed in it; `unfilled` is the shortfall of the final list; and a
      cell that stays short has no eligible member left free that date. */
  lemma GreedyFills(fixed: seq<Cell>, demand: seq<Demand>, participants: seq<Participant>) returns (added: seq<Cell>)
    requires KeysDistinct(demand, DemandKey)
    ensures Greedy(fixed, demand, participants).placed == Sort(fixed, ByDate) + added
    ensures NoReuse(added) && forall c, f :: c in added && f in fixed ==> !Reuses(c, f)
    ensures forall c :: c in added ==> ForDemand(c, demand, participants)
    ensures Greedy(fixed, demand, participants).unfilled
         == TotalShortfall(Greedy(fixed, demand, participants).placed, Sort(demand, DemandKey))
    ensures forall cell :: cell in demand ==>
              Done(cell, Sort(fixed, ByDate), Greedy(fixed, demand, participants).placed,
                   TakenBy(Greedy(fixed, demand, participants).placed), participants)
  {
    SortKeepsDistinct(demand, DemandKey);
    var first, cells := Sort(fixed, ByDate), Sort(demand, DemandKey);
    var st := Filled(first, TakenBy(first), 0);
    added := FillAllFills(st, cells, participants);
    SameMembers(fixed, first);
    SameMembers(demand, cells);
    AddedApart(first, added, st, FillAll(st, cells, participants));
    forall c | c in added { DemandOf(c, demand, cells, participants); }
    var out := Greedy(fixed, demand, participants);
    forall cell | cell in demand ensures Done(cell, first, out.placed, TakenBy(out.placed), participants) {
      assert cell in cells;
      var k :| 0 <= k < |cells| && cells[k] == cell;
    }
  }

  lemma AddedApart(first: seq<Cell>, added: seq<Cell>, st: Filled, out: Filled)
    requires st.placed == first && st.taken == TakenBy(first) && Adds(st, out, added)
    ensures out.taken == TakenBy(out.placed)
    ensures forall c, f :: c in added && f in first ==> !Reuses(c, f)
  {
  }

  lemma DemandOf(c: Cell, demand: seq<Demand>, cells: seq<Demand>, participants: seq<Participant>)
    requires ForDemand(c, cells, participants) && forall cell :: cell in cells ==> cell in demand
    ensures ForDemand(c, demand, participants)
  {
    var k :| 0 <= k < |cells| && c.d == cells[k].date && c.s == cells[k].shift && c.m in Eligible(participants, c.s);
    assert cells[k] in demand;
    var l :| 0 <= l < |demand| && demand[l] == cells[k];
  }

  // ---------------------------------------------------------------- order independence

  lemma {:induction false} MembersConcat(a: seq<Participant>, b: seq<Participant>, s: Id)
    ensures Members(a + b, s) == Members(a, s) + Members(b, s)
  {
    if b == [] {
      assert a + b == a;
    } else {
      MembersConcat(a, b[..|b| - 1], s);
      assert (a + b)[..|a + b| - 1] == a + b[..|b| - 1];
    }
  }

  /** Who is eligible does not depend on the order of the participants. */
  lemma {:induction false} MembersForgetOrder(a: seq<Participant>, b: seq<Participant>, s: Id)
    requires multiset(a) == multiset(b)
    ensures multiset(Members(a, s)) == multiset(Members(b, s))
  {
    SameMembers(a, b);
    if a != [] {
      var init, last := a[..|a| - 1], a[|a| - 1];
      assert a == init + [last];
      assert last in a;
      var k :| 0 <= k < |b| && b[k] == last;
      TakenOut(b, k);
      assert multiset(init) == multiset(a) - multiset{last};
      MembersForgetOrder(init, b[..k] + b[k + 1..], s);
      MembersConcat(init, [last], s);
      MembersTakenOut(b, k, s);
    }
  }

  lemma TakenOut<T>(b: seq<T>, k: nat)
    requires k < |b|
    ensures multiset(b[..k] + b[k + 1..]) == multiset(b) - multiset{b[k]}
  {
    assert b == b[..k] + [b[k]] + b[k + 1..];
  }

  lemma MembersTakenOut(b: seq<Participant>, k: nat, s: Id)
    requires k < |b|
    ensures multiset(Members(b, s)) == multiset(Members(b[..k] + b[k + 1..], s)) + multiset(Members([b[k]], s))
  {
    hide Members;
    assert b == b[..k] + [b[k]] + b[k + 1..];
    MembersConcat(b[..k] + [b[k]], b[k + 1..], s);
    MembersConcat(b[..k], [b[k]], s);
    MembersConcat(b[..k], b[k + 1..], s);
  }

  lemma {:induction false} FillAllSame(st: Filled, demand: seq<Demand>, a: seq<Participant>, b: seq<Participant>)
    requires forall s :: Eligible(a, s) == Eligible(b, s)
    ensures FillAll(st, demand, a) == FillAll(st, demand, b)
    decreases demand
  {
    if demand != [] {
      FillCellSame(st, demand[0], a, b);
      hide FillCell, Eligible;
      FillAllSame(FillCell(st, demand[0], a), demand[1..], a, b);
    }
  }

  lemma FillCellSame(st: Filled, d: Demand, a: seq<Participant>, b: seq<Participant>)
    requires forall s :: Eligible(a, s) == Eligible(b, s)
    ensures FillCell(st, d, a) == FillCell(st, d, b)
  {
  }

  /** The order of the fixed inputs, of the demand and of the participants does not matter. */
  lemma GreedyForgetsOrder(fixed: seq<Cell>, demand: seq<Demand>, participants: seq<Participant>,
                           fixed': seq<Cell>, demand': seq<Demand>, participants': seq<Participant>)
    requires KeysDistinct(demand, DemandKey)
    requires multiset(fixed) == multiset(fixed') && multiset(demand) == multiset(demand')
    requires multiset(participants) == multiset(participants')
    ensures Greedy(fixed, demand, participants) == Greedy(fixed', demand', participants')
  {
    SortForgetsOrder(fixed, fixed', ByDate);
    SortForgetsOrder(demand, demand', DemandKey);
    forall s ensures Eligible(participants, s) == Eligible(participants', s) {
      MembersForgetOrder(participants, participants', s);
      SortForgetsOrder(Members(participants, s), Members(participants', s), IdKey);
    }
    var first := Sort(fixed, ByDate);
    FillAllSame(Filled(first, TakenBy(first), 0), Sort(demand, DemandKey), participants, participants');
  }

  // ---------------------------------------------------------------- who is picked, and when

  /** The cells are walked by date and shift type, and the result is ordered by date, shift type and member. */
  lemma WalkOrder(cs: seq<Cell>, demand: seq<Demand>)
    ensures forall i, j :: 0 <= i < j < |Sort(cs, ByDate)| ==>
              CellNotAfter(Sort(cs, ByDate)[i], Sort(cs, ByDate)[j])
    ensures forall i, j :: 0 <= i < j < |Sort(demand, DemandKey)| ==>
              DemandNotAfter(Sort(demand, DemandKey)[i], Sort(demand, DemandKey)[j])
  {
    SortSorts(cs, ByDate);
    SortSorts(demand, DemandKey);
    hide Sort;
  }

  predicate CellNotAfter(a: Cell, b: Cell) {
    if a.d != b.d then a.d < b.d else if a.s != b.s then a.s < b.s else a.m <= b.m
  }

  predicate DemandNotAfter(a: Demand, b: Demand) {
    if a.date != b.date then a.date < b.date else a.shift <= b.shift
  }

  predicate CanDo(participants: seq<Participant>, s: Id, m: Id) {
    exists i :: 0 <= i < |participants| && participants[i].membership == m && s in participants[i].eligible
  }

  lemma {:induction false} MembersCanDo(participants: seq<Participant>, s: Id, m: Id)
    ensures m in Members(participants, s) <==> CanDo(participants, s, m)
  {
    if participants != [] {
      var init, last := participants[..|participants| - 1], participants[|participants| - 1];
      MembersCanDo(init, s, m);
      assert CanDo(participants, s, m) <==> CanDo(init, s, m) || (last.membership == m && s in last.eligible);
    }
  }

  /** The candidates of a cell are the participants eligible for its shift type, lowest identifier first. */
  lemma CandidatesAre(participants: seq<Participant>, s: Id)
    ensures forall m :: m in Eligible(participants, s) <==> CanDo(participants, s, m)
    ensures forall i, j :: 0 <= i < j < |Eligible(participants, s)| ==>
              Eligible(participants, s)[i] <= Eligible(participants, s)[j]
  {
    forall m { MembersCanDo(participants, s, m); }
    SameMembers(Members(participants, s), Eligible(participants, s));
    SortSorts(Members(participants, s), IdKey);
    hide Sort, Members, CanDo;
    forall i, j | 0 <= i < j < |Eligible(participants, s)|
      ensures Eligible(participants, s)[i] <= Eligible(participants, s)[j]
    {
      assert AtMost(IdKey(Eligible(participants, s)[i]), IdKey(Eligible(participants, s)[j]));
    }
  }

  predicate Ascending(ids: seq<Id>) {
    forall i, j :: 0 <= i < j < |ids| ==> ids[i] <= ids[j]
  }

  /** Whoever is placed comes before whoever stays free. */
  lemma {:induction false} LowestArePlaced(st: Filled, d: int, s: Id, required: int, already: int, candidates: seq<Id>)
    requires Ascending(candidates)
    ensures |PlaceAll(st, d, s, required, already, candidates).placed| >= |st.placed|
    ensures forall i, m ::
              |st.placed| <= i < |PlaceAll(st, d, s, required, already, candidates).placed| && m in candidates
              && (m, d) !in PlaceAll(st, d, s, required, already, candidates).taken ==>
                PlaceAll(st, d, s, required, already, candidates).placed[i].m < m
    ensures forall k :: k in st.taken ==> k in PlaceAll(st, d, s, required, already, candidates).taken
    ensures PlaceAll(st, d, s, required, already, candidates).placed[..|st.placed|] == st.placed
    decreases candidates
  {
    if candidates != [] && already < required {
      var rest := candidates[1..];
      assert Ascending(rest);
      if (candidates[0], d) in st.taken {
        LowestArePlaced(st, d, s, required, already, rest);
      } else {
        var next := Place(st, d, s, candidates[0]);
        LowestArePlaced(next, d, s, required, already + 1, rest);
        var out := PlaceAll(next, d, s, required, already + 1, rest);
        assert out.placed[|st.placed|] == next.placed[|st.placed|];
        assert next.placed[..|st.placed|] == st.placed;
        assert out.placed[..|st.placed|] == out.placed[..|next.placed|][..|st.placed|];
        assert (candidates[0], d) in out.taken;
      }
    }
  }

  /** A cell with an integer count takes the eligible members who are free that date, lowest identifier first,
      until it has its number: nobody who stays free comes before somebody who is taken. */
  lemma LowestFreeFirst(st: Filled, cell: Demand, participants: seq<Participant>, i: nat, m: Id)
    requires |st.placed| <= i < |FillCell(st, cell, participants).placed|
    requires CanDo(participants, cell.shift, m)
    requires (m, cell.date) !in FillCell(st, cell, participants).taken
    ensures FillCell(st, cell, participants).placed[i].m < m
  {
    CandidatesAre(participants, cell.shift);
    hide Eligible, CanDo, Count;
    LowestArePlaced(st, cell.date, cell.shift, cell.required.value, Count(st.placed, cell.date, cell.shift),
                    Eligible(participants, cell.shift));
  }

  /** The first one is the lowest who is free. */
  lemma FirstIsLowest(st: Filled, cell: Demand, participants: seq<Participant>, m: Id)
    requires cell.required.Some? && Count(st.placed, cell.date, cell.shift) < cell.required.value
    requires CanDo(participants, cell.shift, m) && (m, cell.date) !in st.taken
    requires forall k :: CanDo(participants, cell.shift, k) && (k, cell.date) !in st.taken ==> m <= k
    ensures |FillCell(st, cell, participants).placed| > |st.placed|
    ensures FillCell(st, cell, participants).placed[|st.placed|] == Cell(m, cell.date, cell.shift)
  {
    CandidatesAre(participants, cell.shift);
    hide Eligible, CanDo, Count;
    FirstFree(st, cell.date, cell.shift, cell.required.value, Count(st.placed, cell.date, cell.shift),
              Eligible(participants, cell.shift), m);
  }

  lemma {:induction false} FirstFree(st: Filled, d: int, s: Id, required: int, already: int, candidates: seq<Id>, m: Id)
    requires Ascending(candidates) && already < required && m in candidates && (m, d) !in st.taken
    requires forall k :: k in candidates && (k, d) !in st.taken ==> m <= k
    ensures |PlaceAll(st, d, s, required, already, candidates).placed| > |st.placed|
    ensures PlaceAll(st, d, s, required, already, candidates).placed[|st.placed|] == Cell(m, d, s)
    decreases candidates
  {
    if (candidates[0], d) in st.taken {
      FirstFree(st, d, s, required, already, candidates[1..], m);
    } else {
      assert candidates[0] == m;
      assert Ascending(candidates[1..]);
      LowestArePlaced(Place(st, d, s, m), d, s, required, already + 1, candidates[1..]);
      var out := PlaceAll(Place(st, d, s, m), d, s, required, already + 1, candidates[1..]);
      assert out.placed[|st.placed|] == out.placed[..|st.placed| + 1][|st.placed|];
    }
  }
}
