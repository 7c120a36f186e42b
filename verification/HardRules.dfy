/** The other HARD rule kinds, and the branch on the kind. */
module HardRules {
  import opened Wrappers
  import opened Calendar
  import opened Problems
  import opened LinearModel
  import opened RuleMeaning
  import opened MemberByDate

  // ---------------------------------------------------------------- scoped cells

  method ScopedCells(b: Built, p: Problem, scope: Scope, date: Option<int>, shift: Option<Id>) returns (cs: seq<Cell>)
    requires b.Valid() && b.Covers(p)
    ensures CellsSorted(cs)
    ensures forall c :: c in cs <==>
              IsCell(p, c) && Admits(p, scope, c) && (date.Some? ==> c.d == date.value)
                && (shift.Some? ==> c.s == shift.value)
  {
    cs := [];
    for i := 0 to |b.cells|
      invariant forall c :: c in cs ==> exists k :: 0 <= k < i && b.cells[k] == c
      invariant CellsSorted(cs)
      invariant forall c :: c in cs <==>
        c in b.cells[..i] && Admits(p, scope, c) && (date.Some? ==> c.d == date.value)
          && (shift.Some? ==> c.s == shift.value)
    {
      var c := b.cells[i];
      assert b.cells[..i + 1] == b.cells[..i] + [c];
      if date.Some? && c.d != date.value { continue; }
      if shift.Some? && c.s != shift.value { continue; }
      if !Admits(p, scope, c) { continue; }
      assert forall k :: 0 <= k < |cs| ==> cs[k] in cs;
      cs := cs + [c];
    }
    assert b.cells[..|b.cells|] == b.cells;
  }

  // ---------------------------------------------------------------- coverage

  function CoverageCodes(p: Problem, scope: Scope): (codes: seq<Code>)
    requires Resolved(p)
  {
    if scope.codes != [] then scope.codes
    else seq(|p.shiftIds|, i requires 0 <= i < |p.shiftIds| => ActiveCode(p, i))
  }

  function ActiveCode(p: Problem, i: nat): Code
    requires Resolved(p) && i < |p.shiftIds|
  {
    assert p.shiftIds[i] in p.shiftIds;
    p.codeOf[p.shiftIds[i]]
  }

  lemma CoverageCodesAre(p: Problem, scope: Scope)
    requires Resolved(p)
    ensures forall code :: code in CoverageCodes(p, scope) <==> CoverageCode(p, scope, code)
  {
    if scope.codes == [] {
      var codes := CoverageCodes(p, scope);
      forall code ensures code in codes <==> CoverageCode(p, scope, code) {
        if code in codes {
          var i :| 0 <= i < |codes| && codes[i] == code;
          assert p.shiftIds[i] in p.shiftIds;
        }
        if CoverageCode(p, scope, code) {
          var s :| s in p.shiftIds && s in p.codeOf && p.codeOf[s] == code;
          var i :| 0 <= i < |p.shiftIds| && p.shiftIds[i] == s;
          assert codes[i] == ActiveCode(p, i) == code;
        }
      }
    }
  }

  ghost predicate CoverageCell(p: Problem, scope: Scope, x: set<Cell>, cmp: Cmp, bound: int, d: int, code: Code) {
    code in p.idOfCode ==> Compare(|OnDateShift(p, scope, x, d, p.idOfCode[code])|, cmp, bound)
  }

  ghost predicate CoverageRow(p: Problem, scope: Scope, x: set<Cell>, cmp: Cmp, bound: int, d: int, codes: seq<Code>,
                              n: nat)
    requires n <= |codes|
  {
    forall i :: 0 <= i < n ==> CoverageCell(p, scope, x, cmp, bound, d, codes[i])
  }

  ghost predicate CoverageRows(p: Problem, scope: Scope, x: set<Cell>, cmp: Cmp, bound: int, codes: seq<Code>,
                               upTo: int) {
    forall d :: InWindow(p, scope, d) && d < upTo ==> CoverageRow(p, scope, x, cmp, bound, d, codes, |codes|)
  }

  ghost predicate SomeCodeKnown(p: Problem, codes: seq<Code>, n: nat)
    requires n <= |codes|
  {
    exists i :: 0 <= i < n && codes[i] in p.idOfCode
  }

  /** A coverage rule counts on every window date, cells or not. */
  ghost predicate CoverageAsks(p: Problem, scope: Scope) {
    WindowLength(p, scope) > 0 && exists code :: CoverageCode(p, scope, code) && code in p.idOfCode
  }

  method PostCoverageOn(b: Built, p: Problem, scope: Scope, key: Key, cmp: Cmp, bound: int, d: int, codes: seq<Code>)
    requires b.Valid() && b.Covers(p)
    modifies b`posted, b`assumptions
    ensures b.Valid()
    ensures b.assumptions == WithKey(old(b.assumptions), key, b.reify && SomeCodeKnown(p, codes, |codes|))
    ensures forall w, lits :: Sat(b.posted, w, lits) <==>
              Sat(old(b.posted), w, lits)
              && (On(b.reify, key, lits) ==> CoverageRow(p, scope, Picks(p, w), cmp, bound, d, codes, |codes|))
  {
    hide Built.Valid;
    for i := 0 to |codes|
      invariant b.Valid()
      invariant b.assumptions == WithKey(old(b.assumptions), key, b.reify && SomeCodeKnown(p, codes, i))
      invariant forall w, lits :: Sat(b.posted, w, lits) <==>
                  Sat(old(b.posted), w, lits)
                  && (On(b.reify, key, lits) ==> CoverageRow(p, scope, Picks(p, w), cmp, bound, d, codes, i))
    {
      if codes[i] !in p.idOfCode { continue; }
      var s := p.idOfCode[codes[i]];
      var cs := ScopedCells(b, p, scope, Some(d), Some(s));
      SortedNoDup(cs);
      CellSumWithin(b.cells, cs, cmp, bound);
      b.Enforce(Sum(Xs(cs), cmp, bound), key);
      forall w { SumOfCells(p, cs, w, OnDateShift(p, scope, Picks(p, w), d, s)); }
    }
  }

  method PostCoverage(b: Built, p: Problem, scope: Scope, key: Key, cmp: Cmp, bound: int)
    requires b.Valid() && b.Covers(p)
    modifies b`posted, b`assumptions
    ensures b.Valid()
    ensures b.assumptions == WithKey(old(b.assumptions), key, b.reify && CoverageAsks(p, scope))
    ensures forall w, lits :: Sat(b.posted, w, lits) <==>
              Sat(old(b.posted), w, lits) && (On(b.reify, key, lits) ==> Coverage(p, scope, Picks(p, w), cmp, bound))
  {
    hide Built.Valid;
    var codes := CoverageCodes(p, scope);
    CoverageCodesAre(p, scope);
    var start, end := WindowStart(p, scope), WindowEnd(p, scope);
    var d := start;
    while d <= end
      invariant start <= d && (d <= end + 1 || d == start)
      invariant b.Valid()
      invariant b.assumptions
             == WithKey(old(b.assumptions), key, b.reify && d > start && SomeCodeKnown(p, codes, |codes|))
      invariant forall w, lits :: Sat(b.posted, w, lits) <==>
                  Sat(old(b.posted), w, lits)
                  && (On(b.reify, key, lits) ==> CoverageRows(p, scope, Picks(p, w), cmp, bound, codes, d))
      decreases end + 1 - d
    {
      PostCoverageOn(b, p, scope, key, cmp, bound, d, codes);
      forall w { CoverageRowsStep(p, scope, Picks(p, w), cmp, bound, codes, d); }
      d := d + 1;
    }
    forall w { CoverageMeaning(p, scope, Picks(p, w), cmp, bound, codes, d); }
  }

  lemma CoverageRowsStep(p: Problem, scope: Scope, x: set<Cell>, cmp: Cmp, bound: int, codes: seq<Code>, d: int)
    requires InWindow(p, scope, d)
    ensures CoverageRows(p, scope, x, cmp, bound, codes, d + 1)
       <==> CoverageRows(p, scope, x, cmp, bound, codes, d) && CoverageRow(p, scope, x, cmp, bound, d, codes, |codes|)
  {
  }

  lemma CoverageMeaning(p: Problem, scope: Scope, x: set<Cell>, cmp: Cmp, bound: int, codes: seq<Code>, upTo: int)
    requires upTo > WindowEnd(p, scope)
    requires forall code :: code in codes <==> CoverageCode(p, scope, code)
    ensures CoverageRows(p, scope, x, cmp, bound, codes, upTo) <==> Coverage(p, scope, x, cmp, bound)
  {
  }

  // ---------------------------------------------------------------- kinds that bar single cells

  predicate Bars(kind: Kind) {
    kind.RequiresQualification? || kind.MemberOfStaffGroup? || kind.ValidGroupRestriction? || kind.AvoidDate?
  }

  /** The rule forbids this cell outright. */
  predicate Barred(p: Problem, scope: Scope, kind: Kind, c: Cell)
    requires Bars(kind) && Modellable(p, Hard("", scope, kind))
  {
    match kind
    case RequiresQualification(q) => !HoldsOn(p, c.m, q, c.d)
    case MemberOfStaffGroup(g) => c.m !in p.staffGroups[g]
    case ValidGroupRestriction(g) => c.s !in p.validGroups[g]
    case AvoidDate(date) => c.d == date
  }

  ghost predicate BarredOut(p: Problem, scope: Scope, kind: Kind, x: set<Cell>, cs: seq<Cell>, n: nat)
    requires n <= |cs| && Bars(kind) && Modellable(p, Hard("", scope, kind))
  {
    forall i :: 0 <= i < n && Barred(p, scope, kind, cs[i]) ==> cs[i] !in x
  }

  ghost predicate SomeBarred(p: Problem, scope: Scope, kind: Kind, cs: seq<Cell>, n: nat)
    requires n <= |cs| && Bars(kind) && Modellable(p, Hard("", scope, kind))
  {
    exists i :: 0 <= i < n && Barred(p, scope, kind, cs[i])
  }

  /** The rule forbids some scoped cell outright. */
  ghost predicate BarsSome(p: Problem, scope: Scope, kind: Kind)
    requires Bars(kind) && Modellable(p, Hard("", scope, kind))
  {
    exists c :: IsCell(p, c) && Admits(p, scope, c) && Barred(p, scope, kind, c)
  }

  lemma BarredAreListed(p: Problem, scope: Scope, kind: Kind, cs: seq<Cell>)
    requires Bars(kind) && Modellable(p, Hard("", scope, kind))
    requires forall c :: c in cs <==> IsCell(p, c) && Admits(p, scope, c)
    ensures SomeBarred(p, scope, kind, cs, |cs|) <==> BarsSome(p, scope, kind)
  {
    hide Barred, Admits;
    if i :| 0 <= i < |cs| && Barred(p, scope, kind, cs[i]) {
      assert cs[i] in cs;
    }
    if c :| IsCell(p, c) && Admits(p, scope, c) && Barred(p, scope, kind, c) {
      assert c in cs;
    }
  }

  /** The key of a rule does not decide whether it can be modelled. */
  lemma AnyKey(p: Problem, scope: Scope, key: Key, kind: Kind)
    ensures Modellable(p, Hard(key, scope, kind)) <==> Modellable(p, Hard("", scope, kind))
  {
  }

  method PostBars(b: Built, p: Problem, scope: Scope, key: Key, kind: Kind)
    requires b.Valid() && b.Covers(p) && Bars(kind) && Modellable(p, Hard(key, scope, kind))
    modifies b`posted, b`assumptions
    ensures b.Valid()
    ensures b.assumptions == WithKey(old(b.assumptions), key, b.reify && BarsSome(p, scope, kind))
    ensures forall w, lits :: Sat(b.posted, w, lits) <==>
              Sat(old(b.posted), w, lits) && (On(b.reify, key, lits) ==> Accepts(p, scope, kind, Picks(p, w)))
  {
    AnyKey(p, scope, key, kind);
    hide Sat, Modellable, Accepts, Barred, Admits, Built.Valid;
    var cs := ScopedCells(b, p, scope, None, None);
    for i := 0 to |cs|
      invariant b.Valid()
      invariant b.assumptions == WithKey(old(b.assumptions), key, b.reify && SomeBarred(p, scope, kind, cs, i))
      invariant forall w, lits :: Sat(b.posted, w, lits) <==>
                  Sat(old(b.posted), w, lits)
                    && (On(b.reify, key, lits) ==> BarredOut(p, scope, kind, Picks(p, w), cs, i))
    {
      assert cs[i] in cs;
      if !Barred(p, scope, kind, cs[i]) { continue; }
      b.Enforce(Forced(cs[i], 0), key);
    }
    BarredAreListed(p, scope, kind, cs);
    forall w { BarsMeaning(p, scope, kind, Picks(p, w), cs); }
  }

  lemma BarsMeaning(p: Problem, scope: Scope, kind: Kind, x: set<Cell>, cs: seq<Cell>)
    requires Resolved(p) && OnGrid(p, x) && Bars(kind) && Modellable(p, Hard("", scope, kind))
    requires forall c :: c in cs <==> IsCell(p, c) && Admits(p, scope, c)
    ensures BarredOut(p, scope, kind, x, cs, |cs|) <==> Accepts(p, scope, kind, x)
  {
  }

  // ---------------------------------------------------------------- the fixed family

  predicate Keeps(kind: Kind) {
    kind.FixedAssignment? || kind.ProtectedRange?
  }

  predicate Kept(kind: Kind, f: Fixed)
    requires Keeps(kind)
  {
    match kind
    case FixedAssignment(identity) => f.identity == identity
    case ProtectedRange(from, to) => from <= f.cell.d <= to
  }

  ghost predicate KeptIn(p: Problem, kind: Kind, x: set<Cell>, n: nat)
    requires Keeps(kind) && n <= |p.fixed|
  {
    forall i :: 0 <= i < n && Kept(kind, p.fixed[i]) && IsCell(p, p.fixed[i].cell) ==> p.fixed[i].cell in x
  }

  /** Some kept input has a cell. */
  ghost predicate KeepsSome(p: Problem, kind: Kind, n: nat)
    requires Keeps(kind) && n <= |p.fixed|
  {
    exists i :: 0 <= i < n && Kept(kind, p.fixed[i]) && IsCell(p, p.fixed[i].cell)
  }

  lemma KeptMeaning(p: Problem, scope: Scope, key: Key, kind: Kind, x: set<Cell>)
    requires Resolved(p) && Keeps(kind) && Modellable(p, Hard(key, scope, kind))
    ensures KeptIn(p, kind, x, |p.fixed|) <==> Accepts(p, scope, kind, x)
  {
  }

  method PostKept(b: Built, p: Problem, scope: Scope, key: Key, kind: Kind)
    requires b.Valid() && b.Covers(p) && Keeps(kind) && Modellable(p, Hard(key, scope, kind))
    modifies b`posted, b`assumptions
    ensures b.Valid()
    ensures b.assumptions == WithKey(old(b.assumptions), key, b.reify && KeepsSome(p, kind, |p.fixed|))
    ensures forall w, lits :: Sat(b.posted, w, lits) <==>
              Sat(old(b.posted), w, lits) && (On(b.reify, key, lits) ==> Accepts(p, scope, kind, Picks(p, w)))
  {
    hide Sat, Accepts, Modellable, Kept, Built.Valid;
    for i := 0 to |p.fixed|
      invariant b.Valid()
      invariant b.assumptions == WithKey(old(b.assumptions), key, b.reify && KeepsSome(p, kind, i))
      invariant forall w, lits :: Sat(b.posted, w, lits) <==>
                  Sat(old(b.posted), w, lits) && (On(b.reify, key, lits) ==> KeptIn(p, kind, Picks(p, w), i))
    {
      if !Kept(kind, p.fixed[i]) { continue; }
      if p.fixed[i].cell in b.cells {
        b.Enforce(Forced(p.fixed[i].cell, 1), key);
      }
    }
    forall w { KeptMeaning(p, scope, key, kind, Picks(p, w)); }
  }

  // ---------------------------------------------------------------- WeekdayFteLimit

  method DatesOnWeekday(p: Problem, scope: Scope, weekday: Weekday) returns (dates: seq<int>)
    ensures Increasing(dates)
    ensures forall d :: d in dates <==> InWindow(p, scope, d) && WeekdayOfDay(d) == weekday
    ensures |dates| == |WeekdayDates(p, scope, weekday)|
  {
    var end := WindowEnd(p, scope);
    var d := WindowStart(p, scope);
    dates := [];
    ghost var seen: set<int> := {};
    while d <= end
      invariant d <= end + 1 || d == WindowStart(p, scope)
      invariant Increasing(dates) && |dates| == |seen|
      invariant forall e :: e in dates <==> WindowStart(p, scope) <= e < d && WeekdayOfDay(e) == weekday
      invariant forall e :: e in seen <==> e in dates
      decreases end + 1 - d
    {
      if WeekdayOfDay(d) == weekday {
        assert forall k :: 0 <= k < |dates| ==> dates[k] in dates;
        dates := dates + [d];
        seen := seen + {d};
      }
      d := d + 1;
    }
    assert seen == WeekdayDates(p, scope, weekday);
  }

  ghost predicate WithinFte(p: Problem, scope: Scope, x: set<Cell>, weekday: Weekday, fraction: real, m: Id) {
    |OnWeekday(p, scope, x, m, weekday)| <= FteLimit(p, m, weekday, fraction, |WeekdayDates(p, scope, weekday)|)
  }

  lemma FteLimitNatural(p: Problem, m: Id, weekday: Weekday, fraction: real, n: nat)
    requires Resolved(p) && fraction >= 0.0
    ensures FteLimit(p, m, weekday, fraction, n) >= 0
  {
  }

  ghost predicate SomeOnWeekday(p: Problem, scope: Scope, weekday: Weekday, n: nat)
    requires n <= |p.members|
  {
    exists i :: 0 <= i < n && OnWeekday(p, scope, Cells(p), p.members[i], weekday) != {}
  }

  method PostFteAt(b: Built, p: Problem, scope: Scope, key: Key, weekday: Weekday, fraction: real,
                   dates: seq<int>, m: Id)
    requires b.Valid() && b.Covers(p) && fraction >= 0.0 && Increasing(dates)
    requires forall d :: d in dates <==> InWindow(p, scope, d) && WeekdayOfDay(d) == weekday
    requires |dates| == |WeekdayDates(p, scope, weekday)|
    modifies b`posted, b`assumptions
    ensures b.Valid()
    ensures b.assumptions
         == WithKey(old(b.assumptions), key, b.reify && OnWeekday(p, scope, Cells(p), m, weekday) != {})
    ensures forall w, lits :: Sat(b.posted, w, lits) <==>
              Sat(old(b.posted), w, lits)
              && (On(b.reify, key, lits) ==> WithinFte(p, scope, Picks(p, w), weekday, fraction, m))
  {
    hide Sat, FteLimit, Built.Valid;
    var limit := FteLimit(p, m, weekday, fraction, |dates|);
    FteLimitNatural(p, m, weekday, fraction, |dates|);
    var cs := CellsOnDates(b, p, scope, m, dates);
    SortedNoDup(cs);
    SomeListed(cs, OnWeekday(p, scope, Cells(p), m, weekday));
    if cs != [] {
      CellSumWithin(b.cells, cs, Le, limit);
      b.Enforce(Sum(Xs(cs), Le, limit), key);
    }
    forall w { SumOfCells(p, cs, w, OnWeekday(p, scope, Picks(p, w), m, weekday)); }
  }

  method PostWeekdayFteLimit(b: Built, p: Problem, scope: Scope, key: Key, weekday: Weekday, fraction: real)
    requires b.Valid() && b.Covers(p) && fraction >= 0.0
    modifies b`posted, b`assumptions
    ensures b.Valid()
    ensures b.assumptions == WithKey(old(b.assumptions), key, b.reify && SomeOnWeekday(p, scope, weekday, |p.members|))
    ensures forall w, lits :: Sat(b.posted, w, lits) <==>
              Sat(old(b.posted), w, lits)
              && (On(b.reify, key, lits) ==> forall m :: m in p.members ==>
                WithinFte(p, scope, Picks(p, w), weekday, fraction, m))
  {
    hide Sat, WithinFte, OnWeekday, Built.Valid;
    var dates := DatesOnWeekday(p, scope, weekday);
    for i := 0 to |p.members|
      invariant b.Valid()
      invariant b.assumptions == WithKey(old(b.assumptions), key, b.reify && SomeOnWeekday(p, scope, weekday, i))
      invariant forall w, lits :: Sat(b.posted, w, lits) <==>
                  Sat(old(b.posted), w, lits)
                  && (On(b.reify, key, lits) ==> WithinFteUpTo(p, scope, Picks(p, w), weekday, fraction, i))
    {
      PostFteAt(b, p, scope, key, weekday, fraction, dates, p.members[i]);
    }
    forall w { WithinFteForAll(p, scope, Picks(p, w), weekday, fraction, |p.members|); }
  }

  ghost predicate WithinFteUpTo(p: Problem, scope: Scope, x: set<Cell>, weekday: Weekday, fraction: real, n: nat)
    requires n <= |p.members|
  {
    forall k :: 0 <= k < n ==> WithinFte(p, scope, x, weekday, fraction, p.members[k])
  }

  lemma WithinFteForAll(p: Problem, scope: Scope, x: set<Cell>, weekday: Weekday, fraction: real, n: nat)
    requires n == |p.members|
    ensures WithinFteUpTo(p, scope, x, weekday, fraction, n)
       <==> forall m :: m in p.members ==> WithinFte(p, scope, x, weekday, fraction, m)
  {
  }

  // ---------------------------------------------------------------- MaxConsecutive

  /** The member has a scoped cell that day. */
  predicate DayHasCell(p: Problem, scope: Scope, m: Id, d: int) {
    exists s :: s in p.shiftIds && IsCell(p, Cell(m, d, s)) && Admits(p, scope, Cell(m, d, s))
  }

  /** The day variable says whether the member works at all that day. */
  ghost predicate DayIsRead(p: Problem, ri: nat, scope: Scope, w: Val, m: Id, d: int) {
    DayHasCell(p, scope, m, d) ==> (Worked(ri, m, d) in w.t <==> WorksOn(p, scope, Picks(p, w), m, d))
  }

  ghost predicate DaysAreRead(p: Problem, ri: nat, scope: Scope, w: Val, m: Id, upTo: int) {
    forall d :: InWindow(p, scope, d) && d < upTo ==> DayIsRead(p, ri, scope, w, m, d)
  }

  method PerDayAt(b: Built, p: Problem, ri: nat, scope: Scope, m: Id, d: int) returns (some: bool)
    requires b.Valid() && b.Covers(p)
    modifies b`posted
    ensures b.Valid()
    ensures some <==> DayHasCell(p, scope, m, d)
    ensures forall w, lits :: Sat(b.posted, w, lits) <==>
              Sat(old(b.posted), w, lits) && DayIsRead(p, ri, scope, w, m, d)
  {
    hide Sat, Admits;
    var cs := CellsOnDates(b, p, scope, m, [d]);
    DayCells(p, scope, m, d, cs);
    some := cs != [];
    if some {
      b.Post(IsMax(Worked(ri, m, d), Xs(cs)));
      forall w { DayVariable(p, ri, scope, w, m, d, cs); }
    }
  }

  /** One Boolean per window date on which the member has a cell. Unguarded in both modes. */
  method PerDay(b: Built, p: Problem, ri: nat, scope: Scope, m: Id) returns (days: set<int>)
    requires b.Valid() && b.Covers(p)
    modifies b`posted
    ensures b.Valid()
    ensures forall d :: d in days <==> InWindow(p, scope, d) && DayHasCell(p, scope, m, d)
    ensures forall w, lits :: Sat(b.posted, w, lits) <==>
              Sat(old(b.posted), w, lits) && DaysAreRead(p, ri, scope, w, m, WindowEnd(p, scope) + 1)
  {
    hide Sat, Admits, DayIsRead, DayHasCell, Built.Valid;
    days := {};
    var d, end := WindowStart(p, scope), WindowEnd(p, scope);
    while d <= end
      invariant WindowStart(p, scope) <= d && (d <= end + 1 || d == WindowStart(p, scope))
      invariant b.Valid()
      invariant forall e :: e in days <==> InWindow(p, scope, e) && e < d && DayHasCell(p, scope, m, e)
      invariant forall w, lits :: Sat(b.posted, w, lits) <==>
                  Sat(old(b.posted), w, lits) && DaysAreRead(p, ri, scope, w, m, d)
      decreases end + 1 - d
    {
      var worked := PerDayAt(b, p, ri, scope, m, d);
      if worked { days := days + {d}; }
      forall w { DaysAreReadStep(p, ri, scope, w, m, d); }
      d := d + 1;
    }
    forall w { DaysAreReadEnd(p, ri, scope, w, m, d); }
  }

  lemma DayCells(p: Problem, scope: Scope, m: Id, d: int, cs: seq<Cell>)
    requires forall c :: c in cs <==> IsCell(p, c) && Admits(p, scope, c) && c.m == m && c.d in [d]
    ensures cs == [] <==> !DayHasCell(p, scope, m, d)
  {
    if cs != [] {
      assert cs[0] in cs;
      assert cs[0] == Cell(m, d, cs[0].s);
    }
    if DayHasCell(p, scope, m, d) {
      var s :| s in p.shiftIds && IsCell(p, Cell(m, d, s)) && Admits(p, scope, Cell(m, d, s));
      assert Cell(m, d, s) in cs;
    }
  }

  lemma DayVariable(p: Problem, ri: nat, scope: Scope, w: Val, m: Id, d: int, cs: seq<Cell>)
    requires DayHasCell(p, scope, m, d)
    requires forall c :: c in cs <==> IsCell(p, c) && Admits(p, scope, c) && c.m == m && c.d in [d]
    ensures Holds(IsMax(Worked(ri, m, d), Xs(cs)), w) <==> DayIsRead(p, ri, scope, w, m, d)
  {
  }

  lemma DaysAreReadStep(p: Problem, ri: nat, scope: Scope, w: Val, m: Id, d: int)
    requires InWindow(p, scope, d)
    ensures DaysAreRead(p, ri, scope, w, m, d + 1) <==>
              DaysAreRead(p, ri, scope, w, m, d) && DayIsRead(p, ri, scope, w, m, d)
  {
  }

  lemma DaysAreReadEnd(p: Problem, ri: nat, scope: Scope, w: Val, m: Id, d: int)
    requires d > WindowEnd(p, scope)
    ensures DaysAreRead(p, ri, scope, w, m, d) <==> DaysAreRead(p, ri, scope, w, m, WindowEnd(p, scope) + 1)
  {
  }

  ghost predicate NoLongRunFrom(p: Problem, scope: Scope, x: set<Cell>, m: Id, maxDays: nat, upTo: int) {
    forall d :: InWindow(p, scope, d) && d < upTo && InWindow(p, scope, d + maxDays) ==>
      !WorksThrough(p, scope, x, m, d, d + maxDays)
  }

  /** The day variables of a stretch of dates, if every one of them has one. */
  method RunVars(ri: nat, m: Id, d: int, n: nat, days: set<int>) returns (all: bool, run: seq<BVar>)
    ensures all <==> forall e :: d <= e < d + n ==> e in days
    ensures all ==> |run| == n && forall k :: 0 <= k < n ==> run[k] == Worked(ri, m, d + k)
  {
    run := [];
    all := true;
    for k := 0 to n
      invariant all <==> forall e :: d <= e < d + k ==> e in days
      invariant all ==> |run| == k && forall j :: 0 <= j < k ==> run[j] == Worked(ri, m, d + j)
    {
      if d + k in days { run := run + [Worked(ri, m, d + k)]; } else { all := false; }
    }
  }

  ghost predicate AllHaveCells(p: Problem, scope: Scope, m: Id, d: int, maxDays: nat) {
    forall e :: d <= e <= d + maxDays ==> DayHasCell(p, scope, m, e)
  }

  lemma RunMeans(p: Problem, ri: nat, scope: Scope, w: Val, m: Id, d: int, maxDays: nat, run: seq<BVar>)
    requires InWindow(p, scope, d) && InWindow(p, scope, d + maxDays) && AllHaveCells(p, scope, m, d, maxDays)
    requires DaysAreRead(p, ri, scope, w, m, WindowEnd(p, scope) + 1)
    requires |run| == maxDays + 1 && forall k :: 0 <= k <= maxDays ==> run[k] == Worked(ri, m, d + k)
    ensures Holds(Sum(run, Le, maxDays), w) <==> !WorksThrough(p, scope, Picks(p, w), m, d, d + maxDays)
  {
    var x := Picks(p, w);
    SumIsFull(run, w);
    forall e | d <= e <= d + maxDays ensures Worked(ri, m, e) in w.t <==> WorksOn(p, scope, x, m, e) {
      assert DayIsRead(p, ri, scope, w, m, e);
    }
    if forall i :: 0 <= i < |run| ==> run[i] in w.t {
      forall e | d <= e <= d + maxDays ensures WorksOn(p, scope, x, m, e) {
        assert run[e - d] == Worked(ri, m, d + (e - d));
      }
    }
    if WorksThrough(p, scope, x, m, d, d + maxDays) {
      forall i | 0 <= i < |run| ensures run[i] in w.t {
        assert WorksOn(p, scope, x, m, d + i);
      }
    }
  }

  lemma RunIsBroken(p: Problem, scope: Scope, w: Val, m: Id, d: int, maxDays: nat)
    requires !AllHaveCells(p, scope, m, d, maxDays)
    ensures !WorksThrough(p, scope, Picks(p, w), m, d, d + maxDays)
  {
    var e :| d <= e <= d + maxDays && !DayHasCell(p, scope, m, e);
    assert !WorksOn(p, scope, Picks(p, w), m, e);
  }

  lemma AllCellsWorkThrough(p: Problem, scope: Scope, m: Id, d: int, maxDays: nat)
    ensures WorksThrough(p, scope, Cells(p), m, d, d + maxDays) <==> AllHaveCells(p, scope, m, d, maxDays)
  {
    forall e ensures WorksOn(p, scope, Cells(p), m, e) <==> DayHasCell(p, scope, m, e) {
    }
  }

  method PostNoLongRun(b: Built, p: Problem, ri: nat, scope: Scope, key: Key, m: Id, maxDays: nat)
    requires b.Valid() && b.Covers(p)
    modifies b`posted, b`assumptions
    ensures b.Valid()
    ensures b.assumptions == WithKey(old(b.assumptions), key, b.reify && !NoLongRun(p, scope, Cells(p), m, maxDays))
    ensures forall w, lits :: Sat(b.posted, w, lits) <==>
              Sat(old(b.posted), w, lits) && DaysAreRead(p, ri, scope, w, m, WindowEnd(p, scope) + 1)
              && (On(b.reify, key, lits) ==> NoLongRun(p, scope, Picks(p, w), m, maxDays))
  {
    hide Sat, Built.Valid;
    var days := PerDay(b, p, ri, scope, m);
    ghost var before := b.posted;
    var d, end := WindowStart(p, scope), WindowEnd(p, scope);
    while d + maxDays <= end
      invariant WindowStart(p, scope) <= d
      invariant b.Valid()
      invariant b.assumptions
             == WithKey(old(b.assumptions), key, b.reify && !NoLongRunFrom(p, scope, Cells(p), m, maxDays, d))
      invariant forall w, lits :: Sat(b.posted, w, lits) <==>
                  Sat(before, w, lits)
                    && (On(b.reify, key, lits) ==> NoLongRunFrom(p, scope, Picks(p, w), m, maxDays, d))
      decreases end + 1 - d
    {
      var all, run := RunVars(ri, m, d, maxDays + 1, days);
      assert all <==> AllHaveCells(p, scope, m, d, maxDays);
      if all {
        SumWithin(b.cells, run, Le, maxDays);
        b.Enforce(Sum(run, Le, maxDays), key);
        forall w | DaysAreRead(p, ri, scope, w, m, end + 1) { RunMeans(p, ri, scope, w, m, d, maxDays, run); }
      } else {
        forall w { RunIsBroken(p, scope, w, m, d, maxDays); }
      }
      AllCellsWorkThrough(p, scope, m, d, maxDays);
      NoLongRunStep(p, scope, Cells(p), m, maxDays, d);
      forall w { NoLongRunStep(p, scope, Picks(p, w), m, maxDays, d); }
      d := d + 1;
    }
    NoLongRunEnd(p, scope, Cells(p), m, maxDays, d);
    forall w { NoLongRunEnd(p, scope, Picks(p, w), m, maxDays, d); }
  }

  lemma NoLongRunStep(p: Problem, scope: Scope, x: set<Cell>, m: Id, maxDays: nat, d: int)
    requires InWindow(p, scope, d) && InWindow(p, scope, d + maxDays)
    ensures NoLongRunFrom(p, scope, x, m, maxDays, d + 1)
       <==> NoLongRunFrom(p, scope, x, m, maxDays, d) && !WorksThrough(p, scope, x, m, d, d + maxDays)
  {
  }

  lemma NoLongRunEnd(p: Problem, scope: Scope, x: set<Cell>, m: Id, maxDays: nat, d: int)
    requires d + maxDays > WindowEnd(p, scope)
    ensures NoLongRunFrom(p, scope, x, m, maxDays, d) <==> NoLongRun(p, scope, x, m, maxDays)
  {
  }

  // ---------------------------------------------------------------- AlternatingWeek

  /** Some window date of the class has a cell of the code for the member. */
  ghost predicate ClassExists(p: Problem, scope: Scope, m: Id, code: Code, cycle: int, class_: int)
    requires cycle >= 1
  {
    exists d :: HasCode(p, scope, m, d, code) && ClassOf(p, scope, d, cycle) == class_
  }

  ghost predicate TwoClasses(p: Problem, scope: Scope, m: Id, code: Code, cycle: int)
    requires cycle >= 1
  {
    exists a, b :: a != b && ClassExists(p, scope, m, code, cycle, a) && ClassExists(p, scope, m, code, cycle, b)
  }

  /** Every class the member works in is marked as used. */
  ghost predicate ClassIsMarked(p: Problem, ri: nat, scope: Scope, w: Val, m: Id, code: Code, cycle: int, class_: int)
    requires cycle >= 1
  {
    forall d :: WorksCode(p, scope, Picks(p, w), m, d, code) && ClassOf(p, scope, d, cycle) == class_ ==>
      InClass(ri, m, class_) in w.t
  }

  ghost predicate ClassesAreMarked(p: Problem, ri: nat, scope: Scope, w: Val, m: Id, code: Code, cycle: int)
    requires cycle >= 1
  {
    TwoClasses(p, scope, m, code, cycle) ==>
      forall class_ :: ClassIsMarked(p, ri, scope, w, m, code, cycle, class_)
  }

  ghost predicate MarkedClass(p: Problem, ri: nat, scope: Scope, w: Val, m: Id, code: Code, cycle: int, class_: int)
    requires cycle >= 1
  {
    ClassExists(p, scope, m, code, cycle, class_) && InClass(ri, m, class_) in w.t
  }

  ghost predicate OneClassMarked(p: Problem, ri: nat, scope: Scope, w: Val, m: Id, code: Code, cycle: int)
    requires cycle >= 1
  {
    TwoClasses(p, scope, m, code, cycle) ==>
      forall a, b ::
        MarkedClass(p, ri, scope, w, m, code, cycle, a) && MarkedClass(p, ri, scope, w, m, code, cycle, b) ==> a == b
  }

  /** The cells of the code, by the week class of their date. */
  ghost predicate Grouped(p: Problem, scope: Scope, m: Id, code: Code, cycle: int, classes: map<int, seq<Cell>>,
                          upTo: int)
    requires cycle >= 1
  {
    && (forall k :: k in classes ==> classes[k] != [])
    && (forall k, i :: k in classes && 0 <= i < |classes[k]| ==>
      GroupedCell(p, scope, m, code, cycle, classes[k][i], k))
    && (forall d :: HasCode(p, scope, m, d, code) && d < upTo ==>
          ClassOf(p, scope, d, cycle) in classes
            && Cell(m, d, p.idOfCode[code]) in classes[ClassOf(p, scope, d, cycle)])
  }

  ghost predicate GroupedCell(p: Problem, scope: Scope, m: Id, code: Code, cycle: int, c: Cell, class_: int)
    requires cycle >= 1
  {
    HasCode(p, scope, m, c.d, code) && c == Cell(m, c.d, p.idOfCode[code]) && ClassOf(p, scope, c.d, cycle) == class_
  }

  lemma NothingGrouped(p: Problem, scope: Scope, m: Id, code: Code, cycle: int)
    requires cycle >= 1
    ensures Grouped(p, scope, m, code, cycle, map[], WindowStart(p, scope))
  {
  }

  /** A date without a cell changes nothing; a cell goes to the end of its class. */
  lemma GroupedStep(p: Problem, scope: Scope, m: Id, code: Code, cycle: int, classes: map<int, seq<Cell>>, d: int)
    requires cycle >= 1 && Grouped(p, scope, m, code, cycle, classes, d)
    ensures !HasCode(p, scope, m, d, code) ==> Grouped(p, scope, m, code, cycle, classes, d + 1)
    ensures HasCode(p, scope, m, d, code) ==>
              var k := ClassOf(p, scope, d, cycle);
              Grouped(p, scope, m, code, cycle,
                      classes[k := (if k in classes then classes[k] else []) + [Cell(m, d, p.idOfCode[code])]], d + 1)
  {
    hide Admits, IsCell;
    if HasCode(p, scope, m, d, code) {
      var k := ClassOf(p, scope, d, cycle);
      var before := if k in classes then classes[k] else [];
      assert Cell(m, d, p.idOfCode[code]) in before + [Cell(m, d, p.idOfCode[code])];
    }
  }

  lemma GroupedEnd(p: Problem, scope: Scope, m: Id, code: Code, cycle: int, classes: map<int, seq<Cell>>, d: int)
    requires cycle >= 1 && Grouped(p, scope, m, code, cycle, classes, d) && d > WindowEnd(p, scope)
    ensures Grouped(p, scope, m, code, cycle, classes, WindowEnd(p, scope) + 1)
  {
  }

  method GroupByClass(b: Built, p: Problem, scope: Scope, m: Id, code: Code, cycle: int)
      returns (classes: map<int, seq<Cell>>)
    requires b.Valid() && b.Covers(p) && cycle >= 1
    ensures Grouped(p, scope, m, code, cycle, classes, WindowEnd(p, scope) + 1)
  {
    hide Grouped, HasCode, Built.Valid;
    classes := map[];
    var d, end := WindowStart(p, scope), WindowEnd(p, scope);
    NothingGrouped(p, scope, m, code, cycle);
    while d <= end
      invariant WindowStart(p, scope) <= d && (d <= end + 1 || d == WindowStart(p, scope))
      invariant Grouped(p, scope, m, code, cycle, classes, d)
      decreases end + 1 - d
    {
      var got := CodeCell(b, p, scope, m, d, code);
      GroupedStep(p, scope, m, code, cycle, classes, d);
      if got.Some? {
        var k := ClassOf(p, scope, d, cycle);
        classes := classes[k := (if k in classes then classes[k] else []) + [got.value]];
      }
      d := d + 1;
    }
    GroupedEnd(p, scope, m, code, cycle, classes, d);
  }

  lemma GroupedOnGrid(p: Problem, scope: Scope, m: Id, code: Code, cycle: int, classes: map<int, seq<Cell>>, k: int)
    requires cycle >= 1 && Grouped(p, scope, m, code, cycle, classes, WindowEnd(p, scope) + 1) && k in classes
    ensures forall c :: c in classes[k] ==> IsCell(p, c)
  {
    forall i | 0 <= i < |classes[k]| ensures IsCell(p, classes[k][i]) {
      assert GroupedCell(p, scope, m, code, cycle, classes[k][i], k);
    }
  }

  lemma GroupedClasses(p: Problem, scope: Scope, m: Id, code: Code, cycle: int, classes: map<int, seq<Cell>>)
    requires cycle >= 1 && Grouped(p, scope, m, code, cycle, classes, WindowEnd(p, scope) + 1)
    ensures forall k :: k in classes <==> ClassExists(p, scope, m, code, cycle, k)
    ensures forall k :: k in classes ==> 0 <= k < cycle
    ensures |classes.Keys| >= 2 <==> TwoClasses(p, scope, m, code, cycle)
  {
    forall k ensures k in classes <==> ClassExists(p, scope, m, code, cycle, k) {
      if k in classes {
        assert GroupedCell(p, scope, m, code, cycle, classes[k][0], k);
      }
    }
    if |classes.Keys| >= 2 {
      var a, c := TwoElements(classes.Keys);
      assert ClassExists(p, scope, m, code, cycle, a) && ClassExists(p, scope, m, code, cycle, c);
    }
    if TwoClasses(p, scope, m, code, cycle) {
      var a, c :| a != c && ClassExists(p, scope, m, code, cycle, a) && ClassExists(p, scope, m, code, cycle, c);
      assert {a, c} <= classes.Keys;
      SubsetSize({a, c}, classes.Keys);
      assert |{a, c}| == 2;
    }
  }

  lemma TwoElements<T>(s: set<T>) returns (a: T, b: T)
    requires |s| >= 2
    ensures a != b && a in s && b in s
  {
    a :| a in s;
    assert |s - {a}| == |s| - 1;
    b :| b in s - {a};
  }

  lemma {:induction false} SubsetSize<T>(a: set<T>, b: set<T>)
    requires a <= b
    ensures |a| <= |b|
  {
    if a != {} {
      var e :| e in a;
      SubsetSize(a - {e}, b - {e});
    }
  }

  ghost predicate MarkedUpTo(p: Problem, ri: nat, scope: Scope, w: Val, m: Id, code: Code, cycle: int, upTo: int)
    requires cycle >= 1
  {
    forall class_ :: class_ < upTo ==> ClassIsMarked(p, ri, scope, w, m, code, cycle, class_)
  }

  ghost predicate CellsMarked(cells: seq<Cell>, n: nat, mark: BVar, w: Val)
    requires n <= |cells|
  {
    forall i :: 0 <= i < n && X(cells[i]) in w.t ==> mark in w.t
  }

  /** Unguarded in both modes: a cell of the class marks it. */
  method MarkClass(b: Built, cells: seq<Cell>, mark: BVar)
    requires b.Valid() && VarsWithin(b.cells, Xs(cells)) && !mark.X?
    modifies b`posted
    ensures b.Valid()
    ensures forall w, lits :: Sat(b.posted, w, lits) <==>
              Sat(old(b.posted), w, lits) && CellsMarked(cells, |cells|, mark, w)
  {
    for i := 0 to |cells|
      invariant b.Valid()
      invariant forall w, lits :: Sat(b.posted, w, lits) <==>
                Sat(old(b.posted), w, lits) && CellsMarked(cells, i, mark, w)
    {
      assert VarWithin(b.cells, Xs(cells)[i]);
      b.Post(Implies(X(cells[i]), mark));
    }
  }

  lemma MarksMean(p: Problem, ri: nat, scope: Scope, w: Val, m: Id, code: Code, cycle: int,
                  classes: map<int, seq<Cell>>, k: int)
    requires cycle >= 1 && Grouped(p, scope, m, code, cycle, classes, WindowEnd(p, scope) + 1)
    ensures k in classes ==>
              (CellsMarked(classes[k], |classes[k]|, InClass(ri, m, k), w) <==>
                ClassIsMarked(p, ri, scope, w, m, code, cycle, k))
    ensures k !in classes ==> ClassIsMarked(p, ri, scope, w, m, code, cycle, k)
  {
  }

  lemma AllMarked(p: Problem, ri: nat, scope: Scope, w: Val, m: Id, code: Code, cycle: int,
                  classes: map<int, seq<Cell>>)
    requires cycle >= 1 && Grouped(p, scope, m, code, cycle, classes, WindowEnd(p, scope) + 1)
    ensures MarkedUpTo(p, ri, scope, w, m, code, cycle, 0)
    ensures MarkedUpTo(p, ri, scope, w, m, code, cycle, cycle)
       <==> forall class_ :: ClassIsMarked(p, ri, scope, w, m, code, cycle, class_)
  {
  }

  ghost predicate Indicators(ri: nat, m: Id, marks: seq<BVar>, classes: map<int, seq<Cell>>, upTo: int) {
    && (forall k :: k in classes && k < upTo <==> InClass(ri, m, k) in marks)
    && (forall i :: 0 <= i < |marks| ==> marks[i].InClass? && marks[i] == InClass(ri, m, marks[i].class_))
    && NoDup(marks)
  }

  lemma MarksApart(p: Problem, ri: nat, scope: Scope, w: Val, m: Id, code: Code, cycle: int,
                   classes: map<int, seq<Cell>>, marks: seq<BVar>)
    requires cycle >= 1 && Grouped(p, scope, m, code, cycle, classes, WindowEnd(p, scope) + 1)
    requires TwoClasses(p, scope, m, code, cycle) && Indicators(ri, m, marks, classes, cycle)
    ensures Holds(Sum(marks, Le, 1), w) <==> OneClassMarked(p, ri, scope, w, m, code, cycle)
  {
    GroupedClasses(p, scope, m, code, cycle, classes);
    SumAtMostOne(marks, w);
    forall k ensures ClassExists(p, scope, m, code, cycle, k) <==> InClass(ri, m, k) in marks {
    }
    if NoTwo(marks, w) {
      forall a, c | MarkedClass(p, ri, scope, w, m, code, cycle, a) && MarkedClass(p, ri, scope, w, m, code, cycle, c)
        ensures a == c
      {
        NoTwoIsOne(marks, w, InClass(ri, m, a), InClass(ri, m, c));
      }
    }
    if OneClassMarked(p, ri, scope, w, m, code, cycle) {
      forall i, j | 0 <= i < j < |marks| ensures !(marks[i] in w.t && marks[j] in w.t) {
        var a, c := marks[i].class_, marks[j].class_;
        assert marks[i] == InClass(ri, m, a) && marks[j] == InClass(ri, m, c) && a != c;
        assert InClass(ri, m, a) in marks && InClass(ri, m, c) in marks;
        assert !(MarkedClass(p, ri, scope, w, m, code, cycle, a) && MarkedClass(p, ri, scope, w, m, code, cycle, c));
      }
    }
  }

  lemma NoTwoIsOne(vs: seq<BVar>, w: Val, a: BVar, c: BVar)
    requires NoTwo(vs, w) && a in vs && c in vs && a in w.t && c in w.t
    ensures a == c
  {
  }

  method PostOneClass(b: Built, p: Problem, ri: nat, scope: Scope, key: Key, m: Id, code: Code, cycle: int)
    requires b.Valid() && b.Covers(p) && cycle >= 1
    modifies b`posted, b`assumptions
    ensures b.Valid()
    ensures b.assumptions == WithKey(old(b.assumptions), key, b.reify && TwoClasses(p, scope, m, code, cycle))
    ensures forall w, lits :: Sat(b.posted, w, lits) <==>
              Sat(old(b.posted), w, lits) && ClassesAreMarked(p, ri, scope, w, m, code, cycle)
              && (On(b.reify, key, lits) ==> OneClassMarked(p, ri, scope, w, m, code, cycle))
  {
    hide Sat, Admits, ClassIsMarked, Grouped, ClassExists, MarkedClass, Built.Valid;
    var classes := GroupByClass(b, p, scope, m, code, cycle);
    GroupedClasses(p, scope, m, code, cycle, classes);
    if |classes.Keys| < 2 {
      return;
    }
    var marks: seq<BVar> := [];
    forall w { AllMarked(p, ri, scope, w, m, code, cycle, classes); }
    for k := 0 to cycle
      invariant b.Valid() && b.assumptions == old(b.assumptions)
      invariant Indicators(ri, m, marks, classes, k)
      invariant forall w, lits :: Sat(b.posted, w, lits) <==>
                  Sat(old(b.posted), w, lits) && MarkedUpTo(p, ri, scope, w, m, code, cycle, k)
    {
      if k in classes {
        GroupedOnGrid(p, scope, m, code, cycle, classes, k);
        XsWithin(b.cells, classes[k]);
        MarkClass(b, classes[k], InClass(ri, m, k));
        marks := marks + [InClass(ri, m, k)];
      }
      forall w { MarksMean(p, ri, scope, w, m, code, cycle, classes, k); }
      forall w { MarkedStep(p, ri, scope, w, m, code, cycle, k); }
    }
    SumWithin(b.cells, marks, Le, 1);
    b.Enforce(Sum(marks, Le, 1), key);
    forall w { MarksApart(p, ri, scope, w, m, code, cycle, classes, marks); }
  }

  lemma MarkedStep(p: Problem, ri: nat, scope: Scope, w: Val, m: Id, code: Code, cycle: int, k: int)
    requires cycle >= 1
    ensures MarkedUpTo(p, ri, scope, w, m, code, cycle, k + 1)
       <==> MarkedUpTo(p, ri, scope, w, m, code, cycle, k) && ClassIsMarked(p, ri, scope, w, m, code, cycle, k)
  {
  }

  // ---------------------------------------------------------------- the branch on the kind

  /** What a rule asks of its auxiliary variables. It is posted without a literal in both modes. */
  ghost predicate AuxAt(p: Problem, ri: nat, scope: Scope, kind: Kind, w: Val, m: Id) {
    match kind
    case MaxConsecutive(_) => DaysAreRead(p, ri, scope, w, m, WindowEnd(p, scope) + 1)
    case AlternatingWeek(code, cycle) => cycle >= 1 ==> ClassesAreMarked(p, ri, scope, w, m, code, cycle)
    case _ => true
  }

  ghost predicate AuxUpTo(p: Problem, ri: nat, scope: Scope, kind: Kind, w: Val, n: nat)
    requires n <= |p.members|
  {
    forall i :: 0 <= i < n ==> AuxAt(p, ri, scope, kind, w, p.members[i])
  }

  ghost predicate AuxHolds(p: Problem, ri: nat, scope: Scope, kind: Kind, w: Val) {
    AuxUpTo(p, ri, scope, kind, w, |p.members|)
  }

  /** What the rule posts behind its literal. */
  ghost predicate GuardAt(p: Problem, ri: nat, scope: Scope, kind: Kind, w: Val, m: Id) {
    match kind
    case MaxConsecutive(k) => NoLongRun(p, scope, Picks(p, w), m, k)
    case AlternatingWeek(code, cycle) => cycle >= 1 ==> OneClassMarked(p, ri, scope, w, m, code, cycle)
    case _ => true
  }

  ghost predicate GuardUpTo(p: Problem, ri: nat, scope: Scope, kind: Kind, w: Val, n: nat)
    requires n <= |p.members|
  {
    forall i :: 0 <= i < n ==> GuardAt(p, ri, scope, kind, w, p.members[i])
  }

  ghost predicate GuardHolds(p: Problem, ri: nat, scope: Scope, kind: Kind, w: Val)
    requires Resolved(p) && Modellable(p, Hard("", scope, kind))
  {
    if kind.AlternatingWeek? then GuardUpTo(p, ri, scope, kind, w, |p.members|)
    else Accepts(p, scope, kind, Picks(p, w))
  }

  /** Whether one of these kinds posts anything behind its literal for a member. */
  ghost predicate GuardAsks(p: Problem, scope: Scope, kind: Kind, m: Id) {
    match kind
    case MaxConsecutive(k) => !NoLongRun(p, scope, Cells(p), m, k)
    case AlternatingWeek(code, cycle) => cycle >= 1 && TwoClasses(p, scope, m, code, cycle)
    case _ => false
  }

  ghost predicate SomeGuardAsks(p: Problem, scope: Scope, kind: Kind, n: nat)
    requires n <= |p.members|
  {
    exists i :: 0 <= i < n && GuardAsks(p, scope, kind, p.members[i])
  }

  /** The two kinds with auxiliary variables, member by member. */
  method PostWithAux(b: Built, p: Problem, ri: nat, scope: Scope, key: Key, kind: Kind)
    requires b.Valid() && b.Covers(p) && (kind.MaxConsecutive? || kind.AlternatingWeek?)
    modifies b`posted, b`assumptions
    ensures b.Valid()
    ensures b.assumptions == WithKey(old(b.assumptions), key, b.reify && SomeGuardAsks(p, scope, kind, |p.members|))
    ensures forall w, lits :: Sat(b.posted, w, lits) <==>
              Sat(old(b.posted), w, lits) && AuxHolds(p, ri, scope, kind, w)
              && (On(b.reify, key, lits) ==> GuardUpTo(p, ri, scope, kind, w, |p.members|))
  {
    hide Sat, AuxAt, GuardAt, GuardAsks, Built.Valid;
    for i := 0 to |p.members|
      invariant b.Valid()
      invariant b.assumptions == WithKey(old(b.assumptions), key, b.reify && SomeGuardAsks(p, scope, kind, i))
      invariant forall w, lits :: Sat(b.posted, w, lits) <==>
                  Sat(old(b.posted), w, lits) && AuxUpTo(p, ri, scope, kind, w, i)
                  && (On(b.reify, key, lits) ==> GuardUpTo(p, ri, scope, kind, w, i))
    {
      PostAuxAt(b, p, ri, scope, key, kind, p.members[i]);
    }
  }

  method PostAuxAt(b: Built, p: Problem, ri: nat, scope: Scope, key: Key, kind: Kind, m: Id)
    requires b.Valid() && b.Covers(p) && (kind.MaxConsecutive? || kind.AlternatingWeek?)
    modifies b`posted, b`assumptions
    ensures b.Valid()
    ensures b.assumptions == WithKey(old(b.assumptions), key, b.reify && GuardAsks(p, scope, kind, m))
    ensures forall w, lits :: Sat(b.posted, w, lits) <==>
              Sat(old(b.posted), w, lits) && AuxAt(p, ri, scope, kind, w, m)
              && (On(b.reify, key, lits) ==> GuardAt(p, ri, scope, kind, w, m))
  {
    hide Sat, Built.Valid;
    match kind
    case MaxConsecutive(maxDays) => PostNoLongRun(b, p, ri, scope, key, m, maxDays);
    case AlternatingWeek(code, cycle) =>
      if cycle < 1 {
        return;
      }
      PostOneClass(b, p, ri, scope, key, m, code, cycle);
  }

  lemma GuardIsRule(p: Problem, ri: nat, scope: Scope, kind: Kind, w: Val)
    requires Resolved(p) && Modellable(p, Hard("", scope, kind)) && kind.MaxConsecutive?
    ensures GuardUpTo(p, ri, scope, kind, w, |p.members|) <==> Accepts(p, scope, kind, Picks(p, w))
  {
  }

  /** The kinds that count assignments: over a date and shift type, or over a member's weekdays. */
  predicate Counts(kind: Kind) {
    kind.RequiredCount? || kind.MinCoverage? || kind.MaxCoverage? || kind.WeekdayFteLimit?
    || kind.PickPositionRestriction?
  }

  ghost predicate CountingAsks(p: Problem, scope: Scope, kind: Kind)
    requires Counts(kind)
  {
    match kind
    case WeekdayFteLimit(weekday, _) => SomeOnWeekday(p, scope, weekday, |p.members|)
    case PickPositionRestriction => false
    case _ => CoverageAsks(p, scope)
  }

  /** These, and the one kind that posts nothing. */
  method PostCounting(b: Built, p: Problem, scope: Scope, key: Key, kind: Kind)
    requires b.Valid() && b.Covers(p) && Counts(kind) && Modellable(p, Hard(key, scope, kind))
    modifies b`posted, b`assumptions
    ensures b.Valid()
    ensures b.assumptions == WithKey(old(b.assumptions), key, b.reify && CountingAsks(p, scope, kind))
    ensures forall w, lits :: Sat(b.posted, w, lits) <==>
              Sat(old(b.posted), w, lits) && (On(b.reify, key, lits) ==> Accepts(p, scope, kind, Picks(p, w)))
  {
    hide Sat, Coverage, CoverageAsks, SomeOnWeekday, OnWeekday, FteLimit, Built.Valid;
    match kind
    case RequiredCount(n) => PostCoverage(b, p, scope, key, Eq, n);
    case MinCoverage(n) => PostCoverage(b, p, scope, key, Ge, n);
    case MaxCoverage(n) => PostCoverage(b, p, scope, key, Le, n);
    case WeekdayFteLimit(weekday, fraction) => PostWeekdayFteLimit(b, p, scope, key, weekday, fraction);
    case PickPositionRestriction =>
  }

  lemma NoAux(p: Problem, ri: nat, scope: Scope, kind: Kind, w: Val)
    ensures !kind.MaxConsecutive? && !kind.AlternatingWeek? ==> AuxHolds(p, ri, scope, kind, w)
  {
  }

  /** The rule posts at least one statement behind its literal. */
  ghost predicate Asks(p: Problem, scope: Scope, kind: Kind)
    requires Modellable(p, Hard("", scope, kind))
  {
    if kind.MaxConsecutive? || kind.AlternatingWeek? then SomeGuardAsks(p, scope, kind, |p.members|)
    else if ByDate(kind) then AsksSomewhere(p, scope, kind)
    else if Bars(kind) then BarsSome(p, scope, kind)
    else if Keeps(kind) then KeepsSome(p, kind, |p.fixed|)
    else CountingAsks(p, scope, kind)
  }

  /** One HARD rule, turned into statements. */
  method Translate(b: Built, p: Problem, ri: nat, scope: Scope, key: Key, kind: Kind)
    requires b.Valid() && b.Covers(p) && Modellable(p, Hard("", scope, kind))
    modifies b`posted, b`assumptions
    ensures b.Valid()
    ensures b.assumptions == WithKey(old(b.assumptions), key, b.reify && Asks(p, scope, kind))
    ensures forall w, lits :: Sat(b.posted, w, lits) <==>
              Sat(old(b.posted), w, lits) && AuxHolds(p, ri, scope, kind, w)
              && (On(b.reify, key, lits) ==> GuardHolds(p, ri, scope, kind, w))
  {
    AnyKey(p, scope, key, kind);
    hide Sat, Modellable, Accepts, GuardUpTo, Built.Valid;
    hide AsksSomewhere, SomeGuardAsks, BarsSome, KeepsSome, CountingAsks;
    forall w { NoAux(p, ri, scope, kind, w); }
    hide AuxHolds;
    if kind.MaxConsecutive? || kind.AlternatingWeek? {
      PostWithAux(b, p, ri, scope, key, kind);
      if kind.MaxConsecutive? { forall w { GuardIsRule(p, ri, scope, kind, w); } }
    } else if ByDate(kind) {
      PerMember(b, p, scope, key, kind);
    } else if Bars(kind) {
      PostBars(b, p, scope, key, kind);
    } else if Keeps(kind) {
      PostKept(b, p, scope, key, kind);
    } else {
      PostCounting(b, p, scope, key, kind);
    }
  }
}
