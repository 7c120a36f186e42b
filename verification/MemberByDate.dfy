/** The HARD rule kinds that look at one member and one window date at a time. Each method adds to
    the model statements that together mean what module RuleMeaning says, behind the rule's
    assumption literal in reify mode. The loops over members and window dates, which the source
    repeats in every branch, are written once, in `PerMember` and `PerDate`. */
module MemberByDate {
  import opened Wrappers
  import opened Calendar
  import opened Problems
  import opened LinearModel
  import opened RuleMeaning

  /** Two cells may not both be taken, if both exist and are in scope. */
  method EnforceApart(b: Built, p: Problem, scope: Scope, key: Key, c: Cell, d: Cell)
    requires b.Valid() && b.Covers(p)
    modifies b`posted, b`assumptions
    ensures b.Valid()
    ensures b.assumptions == WithKey(old(b.assumptions), key, b.reify && Together(p, scope, Cells(p), c, d))
    ensures forall w, lits :: Sat(b.posted, w, lits) <==>
              Sat(old(b.posted), w, lits) && (On(b.reify, key, lits) ==> !Together(p, scope, Picks(p, w), c, d))
  {
    if c in b.cells && d in b.cells && Admits(p, scope, c) && Admits(p, scope, d) {
      b.Enforce(NotBoth(c, d), key);
    }
  }

  // ---------------------------------------------------------------- CallSpacing

  function CallIds(p: Problem, n: nat): (ids: seq<Id>)
    requires n <= |p.shiftIds|
    requires Increasing(p.shiftIds)
    ensures Increasing(ids)
    ensures forall s :: s in ids <==> s in p.shiftIds[..n] && OnCall(p, s)
  {
    if n == 0 then []
    else
      var s := p.shiftIds[n - 1];
      var before := CallIds(p, n - 1);
      assert p.shiftIds[..n] == p.shiftIds[..n - 1] + [s];
      assert forall i :: 0 <= i < |before| ==> before[i] < s by {
        forall i | 0 <= i < |before| ensures before[i] < s {
          assert before[i] in before;
          var k :| 0 <= k < n - 1 && p.shiftIds[k] == before[i];
        }
      }
      if OnCall(p, s) then before + [s] else before
  }

  /** The first `n` calls on date `e`, or of them those after `ids[i]` when it is the same date,
      stay apart from the call `ids[i]` on date `d`. */
  ghost predicate CallRow(p: Problem, scope: Scope, x: set<Cell>, m: Id, d: int, e: int, ids: seq<Id>, i: nat, n: nat)
    requires i < |ids| && n <= |ids|
  {
    forall j :: 0 <= j < n && (d == e ==> i < j) ==> !Together(p, scope, x, Cell(m, d, ids[i]), Cell(m, e, ids[j]))
  }

  ghost predicate CallRows(p: Problem, scope: Scope, x: set<Cell>, m: Id, d: int, e: int, ids: seq<Id>, n: nat)
    requires n <= |ids|
  {
    forall i :: 0 <= i < n ==> CallRow(p, scope, x, m, d, e, ids, i, |ids|)
  }

  ghost predicate CallsApart(p: Problem, scope: Scope, x: set<Cell>, m: Id, d: int, e: int) {
    forall f, s :: f in p.shiftIds && s in p.shiftIds && OnCall(p, f) && OnCall(p, s) && (d == e ==> f < s) ==>
      !Together(p, scope, x, Cell(m, d, f), Cell(m, e, s))
  }

  lemma CallRowsMean(p: Problem, scope: Scope, x: set<Cell>, m: Id, d: int, e: int, ids: seq<Id>)
    requires Increasing(ids) && forall s :: s in ids <==> s in p.shiftIds && OnCall(p, s)
    ensures CallRows(p, scope, x, m, d, e, ids, |ids|) <==> CallsApart(p, scope, x, m, d, e)
  {
    if CallRows(p, scope, x, m, d, e, ids, |ids|) {
      forall f, s | f in p.shiftIds && s in p.shiftIds && OnCall(p, f) && OnCall(p, s) && (d == e ==> f < s)
        ensures !Together(p, scope, x, Cell(m, d, f), Cell(m, e, s))
      {
        assert f in ids && s in ids;
        var i :| 0 <= i < |ids| && ids[i] == f;
        var j :| 0 <= j < |ids| && ids[j] == s;
        assert CallRow(p, scope, x, m, d, e, ids, i, |ids|);
      }
    }
    if CallsApart(p, scope, x, m, d, e) {
      forall i | 0 <= i < |ids| ensures CallRow(p, scope, x, m, d, e, ids, i, |ids|) {
        assert ids[i] in ids;
        assert forall j :: 0 <= j < |ids| ==> ids[j] in ids;
      }
    }
  }

  method CallPairs(b: Built, p: Problem, scope: Scope, key: Key, m: Id, d: int, e: int, ids: seq<Id>)
    requires b.Valid() && b.Covers(p)
    requires Increasing(ids) && forall s :: s in ids <==> s in p.shiftIds && OnCall(p, s)
    modifies b`posted, b`assumptions
    ensures b.Valid()
    ensures b.assumptions == WithKey(old(b.assumptions), key, b.reify && !CallsApart(p, scope, Cells(p), m, d, e))
    ensures forall w, lits :: Sat(b.posted, w, lits) <==>
              Sat(old(b.posted), w, lits) && (On(b.reify, key, lits) ==> CallsApart(p, scope, Picks(p, w), m, d, e))
  {
    hide Sat, Together, OnCall, Built.Valid;
    for i := 0 to |ids|
      invariant b.Valid()
      invariant b.assumptions
             == WithKey(old(b.assumptions), key, b.reify && !CallRows(p, scope, Cells(p), m, d, e, ids, i))
      invariant forall w, lits :: Sat(b.posted, w, lits) <==>
                  Sat(old(b.posted), w, lits)
                  && (On(b.reify, key, lits) ==> CallRows(p, scope, Picks(p, w), m, d, e, ids, i))
    {
      ghost var row, keys := b.posted, b.assumptions;
      var from := if d == e then i + 1 else 0;
      for j := from to |ids|
        invariant b.Valid()
        invariant b.assumptions == WithKey(keys, key, b.reify && !CallRow(p, scope, Cells(p), m, d, e, ids, i, j))
        invariant forall w, lits :: Sat(b.posted, w, lits) <==>
                    Sat(row, w, lits) && (On(b.reify, key, lits) ==> CallRow(p, scope, Picks(p, w), m, d, e, ids, i, j))
      {
        EnforceApart(b, p, scope, key, Cell(m, d, ids[i]), Cell(m, e, ids[j]));
      }
    }
    CallRowsMean(p, scope, Cells(p), m, d, e, ids);
    forall w { CallRowsMean(p, scope, Picks(p, w), m, d, e, ids); }
  }

  ghost predicate CallsFrom(p: Problem, scope: Scope, x: set<Cell>, m: Id, d: int, minDays: int, upTo: int) {
    forall e :: d < e < upTo && InWindow(p, scope, e) && e - d < minDays ==> CallsApart(p, scope, x, m, d, e)
  }

  ghost predicate CallsSpacedFrom(p: Problem, scope: Scope, x: set<Cell>, m: Id, d: int, minDays: int) {
    CallsFrom(p, scope, x, m, d, minDays, WindowEnd(p, scope) + 1) && CallsApart(p, scope, x, m, d, d)
  }

  /** Nothing is lost by stopping at the first date far enough away. */
  lemma CallsFromStop(p: Problem, scope: Scope, x: set<Cell>, m: Id, d: int, minDays: int, e: int)
    requires d < e && (e > WindowEnd(p, scope) || e - d >= minDays)
    ensures CallsFrom(p, scope, x, m, d, minDays, e) <==> CallsFrom(p, scope, x, m, d, minDays, WindowEnd(p, scope) + 1)
  {
  }

  method CallSpacingAt(b: Built, p: Problem, scope: Scope, key: Key, m: Id, d: int, minDays: int)
    requires b.Valid() && b.Covers(p) && InWindow(p, scope, d)
    modifies b`posted, b`assumptions
    ensures b.Valid()
    ensures b.assumptions
         == WithKey(old(b.assumptions), key, b.reify && !CallsSpacedFrom(p, scope, Cells(p), m, d, minDays))
    ensures forall w, lits :: Sat(b.posted, w, lits) <==>
              Sat(old(b.posted), w, lits)
              && (On(b.reify, key, lits) ==> CallsSpacedFrom(p, scope, Picks(p, w), m, d, minDays))
  {
    hide Sat, CallsApart, Increasing, Built.Valid;
    var ids := CallIds(p, |p.shiftIds|);
    assert p.shiftIds[..|p.shiftIds|] == p.shiftIds;
    var e := d + 1;
    var end := WindowEnd(p, scope);
    while e <= end
      invariant d < e && (e <= end + 1 || e == d + 1)
      invariant b.Valid()
      invariant b.assumptions
             == WithKey(old(b.assumptions), key, b.reify && !CallsFrom(p, scope, Cells(p), m, d, minDays, e))
      invariant forall w, lits :: Sat(b.posted, w, lits) <==>
                  Sat(old(b.posted), w, lits)
                    && (On(b.reify, key, lits) ==> CallsFrom(p, scope, Picks(p, w), m, d, minDays, e))
      decreases end + 1 - e
    {
      if e - d >= minDays {
        break;
      }
      CallPairs(b, p, scope, key, m, d, e, ids);
      e := e + 1;
    }
    CallsFromStop(p, scope, Cells(p), m, d, minDays, e);
    forall w { CallsFromStop(p, scope, Picks(p, w), m, d, minDays, e); }
    CallPairs(b, p, scope, key, m, d, d, ids);
  }

  // ---------------------------------------------------------------- MinimumRestBetween

  ghost predicate RestCell(p: Problem, scope: Scope, x: set<Cell>, minMinutes: int, m: Id, d: int, e: int, f: Id,
                           s: Id) {
    (e == d ==> f < s) && TooClose(p, minMinutes, Cell(m, d, f), Cell(m, e, s)) ==>
      !Together(p, scope, x, Cell(m, d, f), Cell(m, e, s))
  }

  ghost predicate RestRow(p: Problem, scope: Scope, x: set<Cell>, minMinutes: int, m: Id, d: int, e: int, f: Id, n: nat)
    requires n <= |p.shiftIds|
  {
    forall j :: 0 <= j < n ==> RestCell(p, scope, x, minMinutes, m, d, e, f, p.shiftIds[j])
  }

  ghost predicate RestRows(p: Problem, scope: Scope, x: set<Cell>, minMinutes: int, m: Id, d: int, e: int, n: nat)
    requires n <= |p.shiftIds|
  {
    forall i :: 0 <= i < n ==> RestRow(p, scope, x, minMinutes, m, d, e, p.shiftIds[i], |p.shiftIds|)
  }

  method RestPairs(b: Built, p: Problem, scope: Scope, key: Key, minMinutes: int, m: Id, d: int, e: int)
    requires b.Valid() && b.Covers(p)
    modifies b`posted, b`assumptions
    ensures b.Valid()
    ensures b.assumptions
         == WithKey(old(b.assumptions), key,
                    b.reify && !RestRows(p, scope, Cells(p), minMinutes, m, d, e, |p.shiftIds|))
    ensures forall w, lits :: Sat(b.posted, w, lits) <==>
              Sat(old(b.posted), w, lits)
              && (On(b.reify, key, lits) ==> RestRows(p, scope, Picks(p, w), minMinutes, m, d, e, |p.shiftIds|))
  {
    hide Sat, Together, TooClose, Built.Valid;
    for i := 0 to |p.shiftIds|
      invariant b.Valid()
      invariant b.assumptions
             == WithKey(old(b.assumptions), key, b.reify && !RestRows(p, scope, Cells(p), minMinutes, m, d, e, i))
      invariant forall w, lits :: Sat(b.posted, w, lits) <==>
                  Sat(old(b.posted), w, lits)
                  && (On(b.reify, key, lits) ==> RestRows(p, scope, Picks(p, w), minMinutes, m, d, e, i))
    {
      ghost var row, keys := b.posted, b.assumptions;
      var f := p.shiftIds[i];
      for j := 0 to |p.shiftIds|
        invariant b.Valid()
        invariant b.assumptions
               == WithKey(keys, key, b.reify && !RestRow(p, scope, Cells(p), minMinutes, m, d, e, f, j))
        invariant forall w, lits :: Sat(b.posted, w, lits) <==>
                    Sat(row, w, lits)
                      && (On(b.reify, key, lits) ==> RestRow(p, scope, Picks(p, w), minMinutes, m, d, e, f, j))
      {
        var s := p.shiftIds[j];
        if e == d && f >= s { continue; }
        if !TooClose(p, minMinutes, Cell(m, d, f), Cell(m, e, s)) { continue; }
        EnforceApart(b, p, scope, key, Cell(m, d, f), Cell(m, e, s));
      }
    }
  }

  ghost predicate RestFrom(p: Problem, scope: Scope, x: set<Cell>, minMinutes: int, m: Id, d: int, upTo: int) {
    forall e :: d <= e < upTo && InWindow(p, scope, e) && e - d <= RestReach(minMinutes) ==>
      RestRows(p, scope, x, minMinutes, m, d, e, |p.shiftIds|)
  }

  lemma RestFromStop(p: Problem, scope: Scope, x: set<Cell>, minMinutes: int, m: Id, d: int, e: int)
    requires e > WindowEnd(p, scope) || e - d > RestReach(minMinutes)
    ensures RestFrom(p, scope, x, minMinutes, m, d, e) <==>
              RestFrom(p, scope, x, minMinutes, m, d, WindowEnd(p, scope) + 1)
  {
  }

  method MinimumRestAt(b: Built, p: Problem, scope: Scope, key: Key, m: Id, d: int, minMinutes: int)
    requires b.Valid() && b.Covers(p) && InWindow(p, scope, d)
    modifies b`posted, b`assumptions
    ensures b.Valid()
    ensures b.assumptions
         == WithKey(old(b.assumptions), key,
                    b.reify && !RestFrom(p, scope, Cells(p), minMinutes, m, d, WindowEnd(p, scope) + 1))
    ensures forall w, lits :: Sat(b.posted, w, lits) <==>
              Sat(old(b.posted), w, lits)
              && (On(b.reify, key, lits) ==> RestFrom(p, scope, Picks(p, w), minMinutes, m, d, WindowEnd(p, scope) + 1))
  {
    hide Sat, RestRows, Built.Valid;
    var e := d;
    var end := WindowEnd(p, scope);
    while e <= end
      invariant d <= e <= end + 1
      invariant b.Valid()
      invariant b.assumptions
             == WithKey(old(b.assumptions), key, b.reify && !RestFrom(p, scope, Cells(p), minMinutes, m, d, e))
      invariant forall w, lits :: Sat(b.posted, w, lits) <==>
                  Sat(old(b.posted), w, lits)
                    && (On(b.reify, key, lits) ==> RestFrom(p, scope, Picks(p, w), minMinutes, m, d, e))
      decreases end + 1 - e
    {
      if e - d > RestReach(minMinutes) {
        break;
      }
      RestPairs(b, p, scope, key, minMinutes, m, d, e);
      e := e + 1;
    }
    RestFromStop(p, scope, Cells(p), minMinutes, m, d, e);
    forall w { RestFromStop(p, scope, Picks(p, w), minMinutes, m, d, e); }
  }

  // ---------------------------------------------------------------- the cells of a code

  /** The cell of a code on a date, if it exists and is in scope. */
  method CodeCell(b: Built, p: Problem, scope: Scope, m: Id, d: int, code: Code) returns (found: Option<Cell>)
    requires b.Valid() && b.Covers(p)
    ensures found.Some? <==> HasCode(p, scope, m, d, code)
    ensures found.Some? ==> found.value == Cell(m, d, p.idOfCode[code]) && found.value in b.cells
  {
    if code !in p.idOfCode {
      return None;
    }
    var c := Cell(m, d, p.idOfCode[code]);
    if c !in b.cells || !Admits(p, scope, c) {
      return None;
    }
    return Some(c);
  }

  // ---------------------------------------------------------------- NoAdjacent

  ghost predicate NotInOrder(p: Problem, scope: Scope, x: set<Cell>, m: Id, d: int, first: Code, second: Code) {
    !(WorksCode(p, scope, x, m, d, first) && WorksCode(p, scope, x, m, d + 1, second))
  }

  method NotInOrderAt(b: Built, p: Problem, scope: Scope, key: Key, m: Id, d: int, first: Code, second: Code)
    requires b.Valid() && b.Covers(p)
    modifies b`posted, b`assumptions
    ensures b.Valid()
    ensures b.assumptions
         == WithKey(old(b.assumptions), key, b.reify && !NotInOrder(p, scope, Cells(p), m, d, first, second))
    ensures forall w, lits :: Sat(b.posted, w, lits) <==>
              Sat(old(b.posted), w, lits)
              && (On(b.reify, key, lits) ==> NotInOrder(p, scope, Picks(p, w), m, d, first, second))
  {
    var left := CodeCell(b, p, scope, m, d, first);
    var right := CodeCell(b, p, scope, m, d + 1, second);
    if left.Some? && right.Some? {
      b.Enforce(NotBoth(left.value, right.value), key);
    }
  }

  method NoAdjacentAt(b: Built, p: Problem, scope: Scope, key: Key, m: Id, d: int, a: Code, c: Code)
    requires b.Valid() && b.Covers(p)
    modifies b`posted, b`assumptions
    ensures b.Valid()
    ensures b.assumptions == WithKey(old(b.assumptions), key, b.reify && !ApartNextDay(p, scope, Cells(p), m, d, a, c))
    ensures forall w, lits :: Sat(b.posted, w, lits) <==>
              Sat(old(b.posted), w, lits)
              && (On(b.reify, key, lits) ==> ApartNextDay(p, scope, Picks(p, w), m, d, a, c))
  {
    if InWindow(p, scope, d + 1) {
      NotInOrderAt(b, p, scope, key, m, d, a, c);
      NotInOrderAt(b, p, scope, key, m, d, c, a);
    }
  }

  ghost predicate ApartNextDay(p: Problem, scope: Scope, x: set<Cell>, m: Id, d: int, a: Code, c: Code) {
    InWindow(p, scope, d + 1) ==> NotInOrder(p, scope, x, m, d, a, c) && NotInOrder(p, scope, x, m, d, c, a)
  }

  // ---------------------------------------------------------------- lists of codes

  /** The variables of several codes: for the linkage kinds on one date, for a sequence on
      consecutive dates (`step` 1). `all` says that every one exists. */
  method CodeVars(b: Built, p: Problem, scope: Scope, m: Id, d: int, step: int, names: seq<Code>)
      returns (all: bool, vs: seq<BVar>)
    requires b.Valid() && b.Covers(p)
    ensures all <==> forall i :: 0 <= i < |names| ==> HasCode(p, scope, m, d + step * i, names[i])
    ensures all ==> |vs| == |names|
    ensures all ==> forall i :: 0 <= i < |names| ==>
              names[i] in p.idOfCode && vs[i] == X(Cell(m, d + step * i, p.idOfCode[names[i]]))
    ensures VarsWithin(b.cells, vs)
  {
    vs := [];
    for i := 0 to |names|
      invariant |vs| == i && VarsWithin(b.cells, vs)
      invariant forall k :: 0 <= k < i ==> HasCode(p, scope, m, d + step * k, names[k])
      invariant forall k :: 0 <= k < i ==> vs[k] == X(Cell(m, d + step * k, p.idOfCode[names[k]]))
    {
      var got := CodeCell(b, p, scope, m, d + step * i, names[i]);
      if got.None? {
        return false, [];
      }
      vs := vs + [X(got.value)];
    }
    all := true;
  }

  // ---------------------------------------------------------------- ForbiddenSequence

  ghost predicate SequenceBroken(p: Problem, scope: Scope, x: set<Cell>, m: Id, d: int, sequence: seq<Code>) {
    sequence != [] && InWindow(p, scope, d + |sequence| - 1) ==> !RunsThrough(p, scope, x, m, d, sequence)
  }

  method ForbiddenSequenceAt(b: Built, p: Problem, scope: Scope, key: Key, m: Id, d: int, sequence: seq<Code>)
    requires b.Valid() && b.Covers(p)
    modifies b`posted, b`assumptions
    ensures b.Valid()
    ensures b.assumptions
         == WithKey(old(b.assumptions), key, b.reify && !SequenceBroken(p, scope, Cells(p), m, d, sequence))
    ensures forall w, lits :: Sat(b.posted, w, lits) <==>
              Sat(old(b.posted), w, lits)
              && (On(b.reify, key, lits) ==> SequenceBroken(p, scope, Picks(p, w), m, d, sequence))
  {
    hide Sat, HasCode, RunsThrough, Sum, VarsWithin, Built.Valid;
    if sequence == [] || !InWindow(p, scope, d + |sequence| - 1) {
      return;
    }
    SequenceOfAllCells(p, scope, m, d, sequence);
    var all, run := CodeVars(b, p, scope, m, d, 1, sequence);
    if all {
      SumWithin(b.cells, run, Le, |sequence| - 1);
      b.Enforce(Sum(run, Le, |sequence| - 1), key);
      SequencePosted(p, scope, m, d, sequence, run);
    } else {
      forall w { SequenceMissing(p, scope, w, m, d, sequence); }
    }
  }

  /** Taking every cell runs through the sequence exactly where every step has a cell. */
  lemma SequenceOfAllCells(p: Problem, scope: Scope, m: Id, d: int, sequence: seq<Code>)
    ensures RunsThrough(p, scope, Cells(p), m, d, sequence)
       <==> forall i :: 0 <= i < |sequence| ==> HasCode(p, scope, m, d + 1 * i, sequence[i])
  {
    forall i | 0 <= i < |sequence|
      ensures HasCode(p, scope, m, d + 1 * i, sequence[i]) <==> WorksCode(p, scope, Cells(p), m, d + i, sequence[i])
    {
      assert d + 1 * i == d + i;
    }
  }

  lemma SequencePosted(p: Problem, scope: Scope, m: Id, d: int, sequence: seq<Code>, run: seq<BVar>)
    requires |run| == |sequence|
    requires forall i :: 0 <= i < |sequence| ==> HasCode(p, scope, m, d + 1 * i, sequence[i])
    requires forall i :: 0 <= i < |sequence| ==>
              sequence[i] in p.idOfCode && run[i] == X(Cell(m, d + 1 * i, p.idOfCode[sequence[i]]))
    ensures forall w :: Holds(Sum(run, Le, |sequence| - 1), w) <==> !RunsThrough(p, scope, Picks(p, w), m, d, sequence)
  {
    forall w ensures Holds(Sum(run, Le, |sequence| - 1), w) <==> !RunsThrough(p, scope, Picks(p, w), m, d, sequence) {
      SequenceVars(p, scope, w, m, d, sequence, run);
    }
  }

  lemma SequenceMissing(p: Problem, scope: Scope, w: Val, m: Id, d: int, sequence: seq<Code>)
    requires !forall i :: 0 <= i < |sequence| ==> HasCode(p, scope, m, d + 1 * i, sequence[i])
    ensures !RunsThrough(p, scope, Picks(p, w), m, d, sequence)
  {
  }

  lemma SequenceVars(p: Problem, scope: Scope, w: Val, m: Id, d: int, sequence: seq<Code>, run: seq<BVar>)
    requires |run| == |sequence|
    requires forall i :: 0 <= i < |sequence| ==> HasCode(p, scope, m, d + 1 * i, sequence[i])
    requires forall i :: 0 <= i < |sequence| ==>
              sequence[i] in p.idOfCode && run[i] == X(Cell(m, d + 1 * i, p.idOfCode[sequence[i]]))
    ensures Holds(Sum(run, Le, |sequence| - 1), w) <==> !RunsThrough(p, scope, Picks(p, w), m, d, sequence)
  {
    SumIsFull(run, w);
    hide Admits, IsCell, Dot;
    forall i | 0 <= i < |run| ensures run[i] in w.t <==> WorksCode(p, scope, Picks(p, w), m, d + i, sequence[i]) {
      assert HasCode(p, scope, m, d + 1 * i, sequence[i]);
    }
  }

  // ---------------------------------------------------------------- the linkage kinds

  ghost predicate LinkedAt(p: Problem, scope: Scope, x: set<Cell>, m: Id, d: int, names: seq<Code>) {
    HasAll(p, scope, m, d, names) ==> AllOrNone(p, scope, x, m, d, names)
  }

  ghost predicate ImpliedAt(p: Problem, scope: Scope, x: set<Cell>, m: Id, d: int, a: Code, c: Code) {
    HasCode(p, scope, m, d, a) && HasCode(p, scope, m, d, c) ==>
      (WorksCode(p, scope, x, m, d, a) ==> WorksCode(p, scope, x, m, d, c))
  }

  ghost predicate ExclusiveAt(p: Problem, scope: Scope, x: set<Cell>, m: Id, d: int, names: seq<Code>) {
    HasAll(p, scope, m, d, names) ==> AtMostOne(p, scope, x, m, d, names)
  }

  lemma LinkVars(p: Problem, scope: Scope, w: Val, m: Id, d: int, names: seq<Code>, vs: seq<BVar>)
    requires |vs| == |names|
    requires forall i :: 0 <= i < |names| ==> names[i] in p.idOfCode && HasCode(p, scope, m, d, names[i])
    requires forall i :: 0 <= i < |names| ==> vs[i] == X(Cell(m, d, p.idOfCode[names[i]]))
    ensures forall i :: 0 <= i < |names| ==> (vs[i] in w.t <==> WorksCode(p, scope, Picks(p, w), m, d, names[i]))
    ensures NoTwo(vs, w) <==> AtMostOne(p, scope, Picks(p, w), m, d, names)
  {
  }

  method MutuallyExclusiveAt(b: Built, p: Problem, scope: Scope, key: Key, m: Id, d: int, names: seq<Code>)
    requires b.Valid() && b.Covers(p)
    modifies b`posted, b`assumptions
    ensures b.Valid()
    ensures b.assumptions == WithKey(old(b.assumptions), key, b.reify && HasAll(p, scope, m, d, names))
    ensures forall w, lits :: Sat(b.posted, w, lits) <==>
              Sat(old(b.posted), w, lits)
              && (On(b.reify, key, lits) ==> ExclusiveAt(p, scope, Picks(p, w), m, d, names))
  {
    var all, vs := CodesOnDate(b, p, scope, m, d, names);
    if all {
      SumWithin(b.cells, vs, Le, 1);
      b.Enforce(Sum(vs, Le, 1), key);
      forall w ensures Holds(Sum(vs, Le, 1), w) <==> ExclusiveAt(p, scope, Picks(p, w), m, d, names) {
        SumAtMostOne(vs, w);
        LinkVars(p, scope, w, m, d, names, vs);
      }
    }
  }

  method ImpliesAssignmentAt(b: Built, p: Problem, scope: Scope, key: Key, m: Id, d: int, a: Code, c: Code)
    requires b.Valid() && b.Covers(p)
    modifies b`posted, b`assumptions
    ensures b.Valid()
    ensures b.assumptions
         == WithKey(old(b.assumptions), key, b.reify && HasCode(p, scope, m, d, a) && HasCode(p, scope, m, d, c))
    ensures forall w, lits :: Sat(b.posted, w, lits) <==>
              Sat(old(b.posted), w, lits)
              && (On(b.reify, key, lits) ==> ImpliedAt(p, scope, Picks(p, w), m, d, a, c))
  {
    var head := CodeCell(b, p, scope, m, d, a);
    var tail := CodeCell(b, p, scope, m, d, c);
    if head.Some? && tail.Some? {
      b.Enforce(Implies(X(head.value), X(tail.value)), key);
    }
  }

  ghost predicate SameAsFirst(vs: seq<BVar>, w: Val, n: nat)
    requires n <= |vs|
  {
    forall k :: 1 <= k < n ==> (vs[0] in w.t <==> vs[k] in w.t)
  }

  method PostSameAsFirst(b: Built, key: Key, vs: seq<BVar>)
    requires b.Valid() && vs != [] && VarsWithin(b.cells, vs)
    modifies b`posted, b`assumptions
    ensures b.Valid()
    ensures b.assumptions == WithKey(old(b.assumptions), key, b.reify && |vs| >= 2)
    ensures forall w, lits :: Sat(b.posted, w, lits) <==>
              Sat(old(b.posted), w, lits) && (On(b.reify, key, lits) ==> SameAsFirst(vs, w, |vs|))
  {
    hide Sat;
    for k := 1 to |vs|
      invariant b.Valid()
      invariant b.assumptions == WithKey(old(b.assumptions), key, b.reify && k >= 2)
      invariant forall w, lits :: Sat(b.posted, w, lits) <==>
                  Sat(old(b.posted), w, lits) && (On(b.reify, key, lits) ==> SameAsFirst(vs, w, k))
    {
      b.Enforce(Same(vs[0], vs[k]), key);
    }
  }

  /** The variables of several codes on one date. */
  method CodesOnDate(b: Built, p: Problem, scope: Scope, m: Id, d: int, names: seq<Code>)
      returns (all: bool, vs: seq<BVar>)
    requires b.Valid() && b.Covers(p)
    ensures all <==> HasAll(p, scope, m, d, names)
    ensures all ==> |vs| == |names|
    ensures all ==> forall i :: 0 <= i < |names| ==>
              names[i] in p.idOfCode && vs[i] == X(Cell(m, d, p.idOfCode[names[i]]))
    ensures VarsWithin(b.cells, vs)
  {
    hide Admits, IsCell;
    all, vs := CodeVars(b, p, scope, m, d, 0, names);
    assert forall i :: d + 0 * i == d;
    assert all <==> forall i :: 0 <= i < |names| ==> HasCode(p, scope, m, d + 0 * i, names[i]);
  }

  method LinkedShiftsAt(b: Built, p: Problem, scope: Scope, key: Key, m: Id, d: int, names: seq<Code>)
    requires b.Valid() && b.Covers(p)
    modifies b`posted, b`assumptions
    ensures b.Valid()
    ensures b.assumptions == WithKey(old(b.assumptions), key, b.reify && |names| >= 2 && HasAll(p, scope, m, d, names))
    ensures forall w, lits :: Sat(b.posted, w, lits) <==>
              Sat(old(b.posted), w, lits)
              && (On(b.reify, key, lits) ==> LinkedAt(p, scope, Picks(p, w), m, d, names))
  {
    hide Sat, HasCode;
    var all, vs := CodesOnDate(b, p, scope, m, d, names);
    if all && names != [] {
      PostSameAsFirst(b, key, vs);
      LinksPosted(p, scope, m, d, names, vs);
    }
  }

  lemma LinksPosted(p: Problem, scope: Scope, m: Id, d: int, names: seq<Code>, vs: seq<BVar>)
    requires |vs| == |names| > 0 && HasAll(p, scope, m, d, names)
    requires forall i :: 0 <= i < |names| ==> names[i] in p.idOfCode && vs[i] == X(Cell(m, d, p.idOfCode[names[i]]))
    ensures forall w :: SameAsFirst(vs, w, |vs|) <==> LinkedAt(p, scope, Picks(p, w), m, d, names)
  {
    forall w ensures SameAsFirst(vs, w, |vs|) <==> LinkedAt(p, scope, Picks(p, w), m, d, names) {
      LinkVars(p, scope, w, m, d, names, vs);
      LinkedMeans(p, scope, w, m, d, names, vs);
    }
  }

  lemma LinkedMeans(p: Problem, scope: Scope, w: Val, m: Id, d: int, names: seq<Code>, vs: seq<BVar>)
    requires |vs| == |names| > 0 && HasAll(p, scope, m, d, names)
    requires forall i :: 0 <= i < |names| ==> (vs[i] in w.t <==> WorksCode(p, scope, Picks(p, w), m, d, names[i]))
    ensures SameAsFirst(vs, w, |vs|) <==> LinkedAt(p, scope, Picks(p, w), m, d, names)
  {
  }

  // ---------------------------------------------------------------- PatternRule

  ghost predicate SegmentsFollowed(p: Problem, scope: Scope, x: set<Cell>, m: Id, d: int, segments: seq<Segment>,
                                   n: nat)
    requires n <= |segments|
  {
    forall i :: 0 <= i < n ==> Followed(p, scope, x, m, d + segments[i].offsetDays, segments[i].shiftType)
  }

  ghost predicate PatternAt(p: Problem, scope: Scope, x: set<Cell>, m: Id, d: int, trigger: Code, days: set<Weekday>,
                            segments: seq<Segment>, n: nat)
    requires n <= |segments|
  {
    WeekdayOfDay(d) in days && WorksCode(p, scope, x, m, d, trigger) ==>
      SegmentsFollowed(p, scope, x, m, d, segments, n)
  }

  /** A trigger cell that has a cell for one of the first `n` segments. */
  ghost predicate TailsPosted(p: Problem, scope: Scope, m: Id, d: int, trigger: Code, days: set<Weekday>,
                              segments: seq<Segment>, n: nat)
    requires n <= |segments|
  {
    WeekdayOfDay(d) in days && HasCode(p, scope, m, d, trigger)
    && exists i :: 0 <= i < n && HasCode(p, scope, m, d + segments[i].offsetDays, segments[i].shiftType)
  }

  lemma NoTrigger(p: Problem, scope: Scope, w: Val, m: Id, d: int, code: Code)
    requires !HasCode(p, scope, m, d, code)
    ensures !WorksCode(p, scope, Picks(p, w), m, d, code)
  {
  }

  lemma TriggerTaken(p: Problem, scope: Scope, w: Val, m: Id, d: int, code: Code)
    requires HasCode(p, scope, m, d, code)
    ensures WorksCode(p, scope, Picks(p, w), m, d, code) <==> X(Cell(m, d, p.idOfCode[code])) in w.t
  {
  }

  /** One segment after a trigger cell, if the target is in the horizon and has a cell. */
  method PostSegment(b: Built, p: Problem, scope: Scope, key: Key, m: Id, head: Cell, target: int, code: Code)
    requires b.Valid() && b.Covers(p) && IsCell(p, head)
    modifies b`posted, b`assumptions
    ensures b.Valid()
    ensures b.assumptions == WithKey(old(b.assumptions), key, b.reify && HasCode(p, scope, m, target, code))
    ensures forall w, lits :: Sat(b.posted, w, lits) <==>
              Sat(old(b.posted), w, lits)
              && (On(b.reify, key, lits) ==> X(head) in w.t ==> Followed(p, scope, Picks(p, w), m, target, code))
  {
    hide Sat, Built.Valid;
    if target < p.start || target > p.end {
      return;
    }
    var tail := CodeCell(b, p, scope, m, target, code);
    if tail.Some? {
      b.Enforce(Implies(X(head), X(tail.value)), key);
    }
  }

  method PatternRuleAt(b: Built, p: Problem, scope: Scope, key: Key, m: Id, d: int, trigger: Code, days: set<Weekday>,
                       segments: seq<Segment>)
    requires b.Valid() && b.Covers(p)
    modifies b`posted, b`assumptions
    ensures b.Valid()
    ensures b.assumptions
         == WithKey(old(b.assumptions), key,
                    b.reify && TailsPosted(p, scope, m, d, trigger, days, segments, |segments|))
    ensures forall w, lits :: Sat(b.posted, w, lits) <==>
              Sat(old(b.posted), w, lits)
              && (On(b.reify, key, lits) ==>
                PatternAt(p, scope, Picks(p, w), m, d, trigger, days, segments, |segments|))
  {
    hide Sat, HasCode, Followed, Built.Valid;
    if WeekdayOfDay(d) !in days {
      return;
    }
    var head := CodeCell(b, p, scope, m, d, trigger);
    if head.None? {
      forall w { NoTrigger(p, scope, w, m, d, trigger); }
      return;
    }
    forall w { TriggerTaken(p, scope, w, m, d, trigger); }
    for i := 0 to |segments|
      invariant b.Valid()
      invariant b.assumptions
             == WithKey(old(b.assumptions), key, b.reify && TailsPosted(p, scope, m, d, trigger, days, segments, i))
      invariant forall w, lits :: Sat(b.posted, w, lits) <==>
                  Sat(old(b.posted), w, lits)
                  && (On(b.reify, key, lits) ==> PatternAt(p, scope, Picks(p, w), m, d, trigger, days, segments, i))
    {
      PostSegment(b, p, scope, key, m, head.value, d + segments[i].offsetDays, segments[i].shiftType);
    }
  }

  // ---------------------------------------------------------------- MaxAssignmentsInWindow

  /** The member's scoped cells on the listed dates. */
  method CellsOnDates(b: Built, p: Problem, scope: Scope, m: Id, dates: seq<int>) returns (cs: seq<Cell>)
    requires b.Valid() && b.Covers(p) && Increasing(dates)
    ensures CellsSorted(cs)
    ensures forall c :: c in cs <==> IsCell(p, c) && Admits(p, scope, c) && c.m == m && c.d in dates
  {
    cs := [];
    for i := 0 to |dates|
      invariant CellsSorted(cs)
      invariant forall c :: c in cs <==> IsCell(p, c) && Admits(p, scope, c) && c.m == m && c.d in dates[..i]
    {
      var d := dates[i];
      assert dates[..i + 1] == dates[..i] + [d];
      for k := 0 to |p.shiftIds|
        invariant CellsSorted(cs)
        invariant forall c :: c in cs <==>
          IsCell(p, c) && Admits(p, scope, c) && c.m == m && (c.d in dates[..i] || (c.d == d && c.s in p.shiftIds[..k]))
      {
        var s := p.shiftIds[k];
        assert p.shiftIds[..k + 1] == p.shiftIds[..k] + [s];
        var c := Cell(m, d, s);
        if c in b.cells && Admits(p, scope, c) {
          cs := cs + [c];
        }
      }
    }
    assert dates[..|dates|] == dates;
  }

  function Days(lo: int, n: nat): (days: seq<int>)
    ensures Increasing(days) && forall d :: d in days <==> lo <= d < lo + n
  {
    if n == 0 then []
    else
      var before := Days(lo, n - 1);
      assert forall i :: 0 <= i < |before| ==> before[i] in before;
      before + [lo + n - 1]
  }

  lemma SomeListed(cs: seq<Cell>, cells: set<Cell>)
    requires forall c :: c in cs <==> c in cells
    ensures cs != [] <==> cells != {}
  {
    if cs != [] { assert cs[0] in cs; }
  }

  lemma SortedNoDup(cs: seq<Cell>)
    requires CellsSorted(cs)
    ensures NoDup(cs)
  {
  }

  ghost predicate WindowAt(p: Problem, scope: Scope, x: set<Cell>, m: Id, d: int, maxCount: nat, span: nat) {
    InWindow(p, scope, d + span - 1) ==> |Between(p, scope, x, m, d, d + span - 1)| <= maxCount
  }

  ghost predicate WindowHasCell(p: Problem, scope: Scope, m: Id, d: int, span: nat) {
    InWindow(p, scope, d + span - 1) && Between(p, scope, Cells(p), m, d, d + span - 1) != {}
  }

  method MaxAssignmentsAt(b: Built, p: Problem, scope: Scope, key: Key, m: Id, d: int, maxCount: nat, span: nat)
    requires b.Valid() && b.Covers(p) && span >= 1
    modifies b`posted, b`assumptions
    ensures b.Valid()
    ensures b.assumptions == WithKey(old(b.assumptions), key, b.reify && WindowHasCell(p, scope, m, d, span))
    ensures forall w, lits :: Sat(b.posted, w, lits) <==>
              Sat(old(b.posted), w, lits)
              && (On(b.reify, key, lits) ==> WindowAt(p, scope, Picks(p, w), m, d, maxCount, span))
  {
    if !InWindow(p, scope, d + span - 1) {
      return;
    }
    var cs := CellsOnDates(b, p, scope, m, Days(d, span));
    SortedNoDup(cs);
    SomeListed(cs, Between(p, scope, Cells(p), m, d, d + span - 1));
    if cs != [] {
      CellSumWithin(b.cells, cs, Le, maxCount);
      b.Enforce(Sum(Xs(cs), Le, maxCount), key);
    }
    forall w ensures Dot(Ones(Xs(cs)), w) == |Between(p, scope, Picks(p, w), m, d, d + span - 1)| {
      SumOfCells(p, cs, w, Between(p, scope, Picks(p, w), m, d, d + span - 1));
    }
  }

  // ---------------------------------------------------------------- members by dates

  predicate ByDate(kind: Kind) {
    kind.MaxAssignmentsInWindow? || kind.MinimumRestBetween? || kind.CallSpacing? || kind.NoAdjacent?
    || kind.ForbiddenSequence? || kind.LinkedShifts? || kind.ImpliesAssignment? || kind.MutuallyExclusive?
    || kind.PatternRule?
  }

  /** What a rule of a member-by-date kind asks at one member and one window date. */
  ghost predicate MeansAt(p: Problem, scope: Scope, kind: Kind, x: set<Cell>, m: Id, d: int)
    requires ByDate(kind)
  {
    match kind
    case MaxAssignmentsInWindow(n, span) => WindowAt(p, scope, x, m, d, n, span)
    case MinimumRestBetween(minutes) => RestFrom(p, scope, x, minutes, m, d, WindowEnd(p, scope) + 1)
    case CallSpacing(k) => CallsSpacedFrom(p, scope, x, m, d, k)
    case NoAdjacent(a, c) => ApartNextDay(p, scope, x, m, d, a, c)
    case ForbiddenSequence(sequence) => SequenceBroken(p, scope, x, m, d, sequence)
    case LinkedShifts(names) => LinkedAt(p, scope, x, m, d, names)
    case ImpliesAssignment(a, c) => ImpliedAt(p, scope, x, m, d, a, c)
    case MutuallyExclusive(names) => ExclusiveAt(p, scope, x, m, d, names)
    case PatternRule(trigger, days, segments) => PatternAt(p, scope, x, m, d, trigger, days, segments, |segments|)
  }

  /** The rule posts something behind its literal at one member and one window date. A kind that forbids
      combinations does so exactly where taking every cell would break it. */
  ghost predicate AsksAt(p: Problem, scope: Scope, kind: Kind, m: Id, d: int)
    requires ByDate(kind)
  {
    match kind
    case MaxAssignmentsInWindow(_, span) => WindowHasCell(p, scope, m, d, span)
    case LinkedShifts(names) => |names| >= 2 && HasAll(p, scope, m, d, names)
    case ImpliesAssignment(a, c) => HasCode(p, scope, m, d, a) && HasCode(p, scope, m, d, c)
    case MutuallyExclusive(names) => HasAll(p, scope, m, d, names)
    case PatternRule(trigger, days, segments) =>
      TailsPosted(p, scope, m, d, trigger, days, segments, |segments|)
    case _ => !MeansAt(p, scope, kind, Cells(p), m, d)
  }

  method PostAt(b: Built, p: Problem, scope: Scope, key: Key, kind: Kind, m: Id, d: int)
    requires b.Valid() && b.Covers(p) && InWindow(p, scope, d)
    requires ByDate(kind) && Modellable(p, Hard(key, scope, kind))
    modifies b`posted, b`assumptions
    ensures b.Valid()
    ensures b.assumptions == WithKey(old(b.assumptions), key, b.reify && AsksAt(p, scope, kind, m, d))
    ensures forall w, lits :: Sat(b.posted, w, lits) <==>
              Sat(old(b.posted), w, lits) && (On(b.reify, key, lits) ==> MeansAt(p, scope, kind, Picks(p, w), m, d))
  {
    hide Sat, Built.Valid, HasCode, HasAll, WindowHasCell, TailsPosted;
    hide WindowAt, RestFrom, CallsSpacedFrom, ApartNextDay, SequenceBroken, LinkedAt, ImpliedAt, ExclusiveAt, PatternAt;
    match kind
    case MaxAssignmentsInWindow(n, span) => MaxAssignmentsAt(b, p, scope, key, m, d, n, span);
    case MinimumRestBetween(minutes) => MinimumRestAt(b, p, scope, key, m, d, minutes);
    case CallSpacing(k) => CallSpacingAt(b, p, scope, key, m, d, k);
    case NoAdjacent(a, c) => NoAdjacentAt(b, p, scope, key, m, d, a, c);
    case ForbiddenSequence(sequence) => ForbiddenSequenceAt(b, p, scope, key, m, d, sequence);
    case LinkedShifts(names) => LinkedShiftsAt(b, p, scope, key, m, d, names);
    case ImpliesAssignment(a, c) => ImpliesAssignmentAt(b, p, scope, key, m, d, a, c);
    case MutuallyExclusive(names) => MutuallyExclusiveAt(b, p, scope, key, m, d, names);
    case PatternRule(trigger, days, segments) => PatternRuleAt(b, p, scope, key, m, d, trigger, days, segments);
  }

  ghost predicate MeansFor(p: Problem, scope: Scope, kind: Kind, x: set<Cell>, m: Id, upTo: int)
    requires ByDate(kind)
  {
    forall d :: InWindow(p, scope, d) && d < upTo ==> MeansAt(p, scope, kind, x, m, d)
  }

  ghost predicate AsksFor(p: Problem, scope: Scope, kind: Kind, m: Id, upTo: int)
    requires ByDate(kind)
  {
    exists d :: InWindow(p, scope, d) && d < upTo && AsksAt(p, scope, kind, m, d)
  }

  method PerDate(b: Built, p: Problem, scope: Scope, key: Key, kind: Kind, m: Id)
    requires b.Valid() && b.Covers(p)
    requires ByDate(kind) && Modellable(p, Hard(key, scope, kind))
    modifies b`posted, b`assumptions
    ensures b.Valid()
    ensures b.assumptions
         == WithKey(old(b.assumptions), key, b.reify && AsksFor(p, scope, kind, m, WindowEnd(p, scope) + 1))
    ensures forall w, lits :: Sat(b.posted, w, lits) <==>
              Sat(old(b.posted), w, lits)
              && (On(b.reify, key, lits) ==> MeansFor(p, scope, kind, Picks(p, w), m, WindowEnd(p, scope) + 1))
  {
    hide Built.Valid;
    var start, end := WindowStart(p, scope), WindowEnd(p, scope);
    var d := start;
    while d <= end
      invariant start <= d && (d <= end + 1 || d == start)
      invariant b.Valid()
      invariant b.assumptions == WithKey(old(b.assumptions), key, b.reify && AsksFor(p, scope, kind, m, d))
      invariant forall w, lits :: Sat(b.posted, w, lits) <==>
                  Sat(old(b.posted), w, lits)
                    && (On(b.reify, key, lits) ==> MeansFor(p, scope, kind, Picks(p, w), m, d))
      decreases end + 1 - d
    {
      PostAt(b, p, scope, key, kind, m, d);
      AsksForStep(p, scope, kind, m, d);
      forall w { MeansForStep(p, scope, kind, Picks(p, w), m, d); }
      d := d + 1;
    }
    AsksForEnd(p, scope, kind, m, d);
    forall w { MeansForEnd(p, scope, kind, Picks(p, w), m, d); }
  }

  lemma AsksForStep(p: Problem, scope: Scope, kind: Kind, m: Id, d: int)
    requires ByDate(kind) && InWindow(p, scope, d)
    ensures AsksFor(p, scope, kind, m, d + 1) <==> AsksFor(p, scope, kind, m, d) || AsksAt(p, scope, kind, m, d)
  {
  }

  lemma AsksForEnd(p: Problem, scope: Scope, kind: Kind, m: Id, d: int)
    requires ByDate(kind) && d > WindowEnd(p, scope)
    ensures AsksFor(p, scope, kind, m, d) <==> AsksFor(p, scope, kind, m, WindowEnd(p, scope) + 1)
  {
  }

  lemma MeansForStep(p: Problem, scope: Scope, kind: Kind, x: set<Cell>, m: Id, d: int)
    requires ByDate(kind) && InWindow(p, scope, d)
    ensures MeansFor(p, scope, kind, x, m, d + 1) <==>
              MeansFor(p, scope, kind, x, m, d) && MeansAt(p, scope, kind, x, m, d)
  {
  }

  lemma MeansForEnd(p: Problem, scope: Scope, kind: Kind, x: set<Cell>, m: Id, d: int)
    requires ByDate(kind) && d > WindowEnd(p, scope)
    ensures MeansFor(p, scope, kind, x, m, d) <==> MeansFor(p, scope, kind, x, m, WindowEnd(p, scope) + 1)
  {
  }

  ghost predicate MeansForAll(p: Problem, scope: Scope, kind: Kind, x: set<Cell>, n: nat)
    requires ByDate(kind) && n <= |p.members|
  {
    forall i :: 0 <= i < n ==> MeansFor(p, scope, kind, x, p.members[i], WindowEnd(p, scope) + 1)
  }

  ghost predicate AsksForFirst(p: Problem, scope: Scope, kind: Kind, n: nat)
    requires ByDate(kind) && n <= |p.members|
  {
    exists i :: 0 <= i < n && AsksFor(p, scope, kind, p.members[i], WindowEnd(p, scope) + 1)
  }

  /** It does so at some member and some window date. */
  ghost predicate AsksSomewhere(p: Problem, scope: Scope, kind: Kind)
    requires ByDate(kind)
  {
    exists m, d :: m in p.members && InWindow(p, scope, d) && AsksAt(p, scope, kind, m, d)
  }

  lemma AskedSomewhere(p: Problem, scope: Scope, kind: Kind)
    requires ByDate(kind)
    ensures AsksForFirst(p, scope, kind, |p.members|) <==> AsksSomewhere(p, scope, kind)
  {
    hide AsksAt;
    if m, d :| m in p.members && InWindow(p, scope, d) && AsksAt(p, scope, kind, m, d) {
      var i :| 0 <= i < |p.members| && p.members[i] == m;
      assert AsksFor(p, scope, kind, p.members[i], WindowEnd(p, scope) + 1);
    }
  }

  method PerMember(b: Built, p: Problem, scope: Scope, key: Key, kind: Kind)
    requires b.Valid() && b.Covers(p)
    requires ByDate(kind) && Modellable(p, Hard(key, scope, kind))
    modifies b`posted, b`assumptions
    ensures b.Valid()
    ensures b.assumptions == WithKey(old(b.assumptions), key, b.reify && AsksSomewhere(p, scope, kind))
    ensures forall w, lits :: Sat(b.posted, w, lits) <==>
              Sat(old(b.posted), w, lits) && (On(b.reify, key, lits) ==> Accepts(p, scope, kind, Picks(p, w)))
  {
    hide Sat, MeansFor, AsksFor, AsksSomewhere, Accepts, Built.Valid;
    for i := 0 to |p.members|
      invariant b.Valid()
      invariant b.assumptions == WithKey(old(b.assumptions), key, b.reify && AsksForFirst(p, scope, kind, i))
      invariant forall w, lits :: Sat(b.posted, w, lits) <==>
                  Sat(old(b.posted), w, lits)
                    && (On(b.reify, key, lits) ==> MeansForAll(p, scope, kind, Picks(p, w), i))
    {
      PerDate(b, p, scope, key, kind, p.members[i]);
    }
    AskedSomewhere(p, scope, kind);
    forall w { ByDateMeaning(p, scope, key, kind, Picks(p, w)); }
  }

  ghost predicate MeansOverall(p: Problem, scope: Scope, kind: Kind, x: set<Cell>)
    requires ByDate(kind)
  {
    forall m, d :: m in p.members && InWindow(p, scope, d) ==> MeansAt(p, scope, kind, x, m, d)
  }

  lemma MeansEverywhere(p: Problem, scope: Scope, kind: Kind, x: set<Cell>)
    requires ByDate(kind)
    ensures MeansForAll(p, scope, kind, x, |p.members|) <==> MeansOverall(p, scope, kind, x)
  {
  }

  /** The pieces posted at each member and date are the rule. */
  lemma ByDateMeaning(p: Problem, scope: Scope, key: Key, kind: Kind, x: set<Cell>)
    requires Resolved(p) && ByDate(kind) && Modellable(p, Hard(key, scope, kind))
    requires forall c :: c in x ==> IsCell(p, c)
    ensures MeansForAll(p, scope, kind, x, |p.members|) <==> Accepts(p, scope, kind, x)
  {
    MeansEverywhere(p, scope, kind, x);
    match kind
    case MaxAssignmentsInWindow(n, span) => WindowMeaning(p, scope, key, x, n, span);
    case MinimumRestBetween(minutes) => RestMeaning(p, scope, key, x, minutes);
    case CallSpacing(k) => CallMeaning(p, scope, key, x, k);
    case NoAdjacent(a, c) => AdjacentMeaning(p, scope, key, x, a, c);
    case ForbiddenSequence(sequence) => SequenceMeaning(p, scope, key, x, sequence);
    case LinkedShifts(names) => LinkMeaning(p, scope, key, x, names);
    case ImpliesAssignment(a, c) => ImpliesMeaning(p, scope, key, x, a, c);
    case MutuallyExclusive(names) => ExclusiveMeaning(p, scope, key, x, names);
    case PatternRule(trigger, days, segments) => PatternMeaning(p, scope, key, x, trigger, days, segments);
  }

  ghost predicate OnGrid(p: Problem, x: set<Cell>) {
    forall c :: c in x ==> IsCell(p, c)
  }

  lemma WindowMeaning(p: Problem, scope: Scope, key: Key, x: set<Cell>, n: nat, span: nat)
    requires Resolved(p) && OnGrid(p, x) && Modellable(p, Hard(key, scope, MaxAssignmentsInWindow(n, span)))
    ensures MeansOverall(p, scope, MaxAssignmentsInWindow(n, span), x) <==>
              Accepts(p, scope, MaxAssignmentsInWindow(n, span), x)
  {
  }

  lemma RestMeaning(p: Problem, scope: Scope, key: Key, x: set<Cell>, minutes: int)
    requires Resolved(p) && OnGrid(p, x) && Modellable(p, Hard(key, scope, MinimumRestBetween(minutes)))
    ensures MeansOverall(p, scope, MinimumRestBetween(minutes), x) <==>
              Accepts(p, scope, MinimumRestBetween(minutes), x)
  {
    if MeansOverall(p, scope, MinimumRestBetween(minutes), x) {
      forall a, b | Together(p, scope, x, a, b) && RestPair(minutes, a, b) ensures !TooClose(p, minutes, a, b) {
        assert MeansAt(p, scope, MinimumRestBetween(minutes), x, a.m, a.d);
        assert RestFrom(p, scope, x, minutes, a.m, a.d, WindowEnd(p, scope) + 1);
        assert RestRows(p, scope, x, minutes, a.m, a.d, b.d, |p.shiftIds|);
        var i :| 0 <= i < |p.shiftIds| && p.shiftIds[i] == a.s;
        var j :| 0 <= j < |p.shiftIds| && p.shiftIds[j] == b.s;
        assert RestRow(p, scope, x, minutes, a.m, a.d, b.d, p.shiftIds[i], |p.shiftIds|);
        assert RestCell(p, scope, x, minutes, a.m, a.d, b.d, a.s, p.shiftIds[j]);
      }
    }
    if Rested(p, scope, x, minutes) {
      forall m, d, e, f, s | d <= e && e - d <= RestReach(minutes)
        ensures RestCell(p, scope, x, minutes, m, d, e, f, s)
      {
        assert RestPair(minutes, Cell(m, d, f), Cell(m, e, s)) || (e == d && f >= s);
      }
    }
  }

  lemma CallMeaning(p: Problem, scope: Scope, key: Key, x: set<Cell>, minDays: int)
    requires Resolved(p) && OnGrid(p, x) && Modellable(p, Hard(key, scope, CallSpacing(minDays)))
    ensures MeansOverall(p, scope, CallSpacing(minDays), x) <==> Accepts(p, scope, CallSpacing(minDays), x)
  {
    if MeansOverall(p, scope, CallSpacing(minDays), x) {
      forall a, b | Together(p, scope, x, a, b) && OnCall(p, a.s) && OnCall(p, b.s) && a.m == b.m && a != b
        && a.d <= b.d
        ensures a.d < b.d && b.d - a.d >= minDays
      {
        assert MeansAt(p, scope, CallSpacing(minDays), x, a.m, a.d);
        assert CallsSpacedFrom(p, scope, x, a.m, a.d, minDays);
        assert a == Cell(a.m, a.d, a.s) && b == Cell(a.m, b.d, b.s);
      }
    }
    if CallsSpaced(p, scope, x, minDays) {
      forall m, d, e | d == e || (d < e && e - d < minDays) ensures CallsApart(p, scope, x, m, d, e) {
      }
    }
  }

  lemma AdjacentMeaning(p: Problem, scope: Scope, key: Key, x: set<Cell>, a: Code, c: Code)
    requires Resolved(p) && OnGrid(p, x) && Modellable(p, Hard(key, scope, NoAdjacent(a, c)))
    ensures MeansOverall(p, scope, NoAdjacent(a, c), x) <==> Accepts(p, scope, NoAdjacent(a, c), x)
  {
    if MeansOverall(p, scope, NoAdjacent(a, c), x) {
      forall m, d | InWindow(p, scope, d) && InWindow(p, scope, d + 1)
        ensures NotInOrder(p, scope, x, m, d, a, c) && NotInOrder(p, scope, x, m, d, c, a)
      {
        if m in p.members { assert MeansAt(p, scope, NoAdjacent(a, c), x, m, d); }
      }
    }
  }

  lemma SequenceMeaning(p: Problem, scope: Scope, key: Key, x: set<Cell>, sequence: seq<Code>)
    requires Resolved(p) && OnGrid(p, x) && Modellable(p, Hard(key, scope, ForbiddenSequence(sequence)))
    ensures MeansOverall(p, scope, ForbiddenSequence(sequence), x) <==>
              Accepts(p, scope, ForbiddenSequence(sequence), x)
  {
    if sequence != [] && MeansOverall(p, scope, ForbiddenSequence(sequence), x) {
      forall m, d ensures !RunsThrough(p, scope, x, m, d, sequence) {
        var n := |sequence| - 1;
        assert RunsThrough(p, scope, x, m, d, sequence) ==>
          WorksCode(p, scope, x, m, d + 0, sequence[0]) && WorksCode(p, scope, x, m, d + n, sequence[n]);
        assert m in p.members && InWindow(p, scope, d) ==> MeansAt(p, scope, ForbiddenSequence(sequence), x, m, d);
      }
    }
  }

  lemma LinkMeaning(p: Problem, scope: Scope, key: Key, x: set<Cell>, names: seq<Code>)
    requires Resolved(p) && OnGrid(p, x) && Modellable(p, Hard(key, scope, LinkedShifts(names)))
    ensures MeansOverall(p, scope, LinkedShifts(names), x) <==> Accepts(p, scope, LinkedShifts(names), x)
  {
  }

  lemma ExclusiveMeaning(p: Problem, scope: Scope, key: Key, x: set<Cell>, names: seq<Code>)
    requires Resolved(p) && OnGrid(p, x) && Modellable(p, Hard(key, scope, MutuallyExclusive(names)))
    ensures MeansOverall(p, scope, MutuallyExclusive(names), x) <==> Accepts(p, scope, MutuallyExclusive(names), x)
  {
  }

  lemma ImpliesMeaning(p: Problem, scope: Scope, key: Key, x: set<Cell>, a: Code, c: Code)
    requires Resolved(p) && OnGrid(p, x) && Modellable(p, Hard(key, scope, ImpliesAssignment(a, c)))
    ensures MeansOverall(p, scope, ImpliesAssignment(a, c), x) <==> Accepts(p, scope, ImpliesAssignment(a, c), x)
  {
    assert forall m, d :: HasAll(p, scope, m, d, [a, c]) <==>
      HasCode(p, scope, m, d, a) && HasCode(p, scope, m, d, c) by {
      forall m, d ensures HasAll(p, scope, m, d, [a, c]) <==> HasCode(p, scope, m, d, a) && HasCode(p, scope, m, d, c) {
        assert [a, c][0] == a && [a, c][1] == c;
        if HasAll(p, scope, m, d, [a, c]) {
          assert HasCode(p, scope, m, d, [a, c][0]) && HasCode(p, scope, m, d, [a, c][1]);
        }
      }
    }
    if MeansOverall(p, scope, ImpliesAssignment(a, c), x) {
      forall m, d | HasCode(p, scope, m, d, a) && HasCode(p, scope, m, d, c) && WorksCode(p, scope, x, m, d, a)
        ensures WorksCode(p, scope, x, m, d, c)
      {
        assert MeansAt(p, scope, ImpliesAssignment(a, c), x, m, d);
      }
    }
  }

  lemma PatternMeaning(p: Problem, scope: Scope, key: Key, x: set<Cell>, trigger: Code, days: set<Weekday>,
                       segments: seq<Segment>)
    requires Resolved(p) && OnGrid(p, x) && Modellable(p, Hard(key, scope, PatternRule(trigger, days, segments)))
    ensures MeansOverall(p, scope, PatternRule(trigger, days, segments), x) <==>
              Accepts(p, scope, PatternRule(trigger, days, segments), x)
  {
  }
}
