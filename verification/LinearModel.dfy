/** The constraint model the worker hands to its solver, and what a solution of it is. */
module LinearModel {
  import opened Wrappers
  import opened Problems

  /** Boolean variables: the cells, and the auxiliaries of the rule at index `rule`. */
  datatype BVar =
    | X(cell: Cell)
    | Worked(rule: nat, m: Id, d: int)
    | InClass(rule: nat, m: Id, class_: int)

  /** Integer variables of the soft rules. */
  datatype NVar = Deviation(rule: nat, m: Id) | High(rule: nat) | Low(rule: nat)

  /** A valuation: the true Booleans, and the integers (0 where not listed). */
  datatype Val = Val(t: iset<BVar>, n: imap<NVar, int>)

  datatype Atom = B(b: BVar) | N(v: NVar)
  datatype Term = Term(coef: int, atom: Atom)
  datatype Cmp = Eq | Le | Ge

  datatype Stmt =
    | Linear(terms: seq<Term>, cmp: Cmp, rhs: int)
    | IsMax(target: BVar, args: seq<BVar>)
    | Domain(v: NVar, lo: int, hi: int)

  /** A posted statement, behind the assumption literal of `guard` if it has one. */
  datatype Posted = Posted(guard: Option<Key>, stmt: Stmt)

  ghost function IntOf(w: Val, v: NVar): int {
    if v in w.n then w.n[v] else 0
  }

  ghost function AtomValue(a: Atom, w: Val): int {
    match a
    case B(b) => if b in w.t then 1 else 0
    case N(v) => IntOf(w, v)
  }

  ghost function Dot(ts: seq<Term>, w: Val): int {
    if ts == [] then 0 else Dot(ts[..|ts| - 1], w) + ts[|ts| - 1].coef * AtomValue(ts[|ts| - 1].atom, w)
  }

  predicate Compare(l: int, cmp: Cmp, r: int) {
    match cmp
    case Eq => l == r
    case Le => l <= r
    case Ge => l >= r
  }

  ghost predicate Holds(s: Stmt, w: Val) {
    match s
    case Linear(ts, cmp, rhs) => Compare(Dot(ts, w), cmp, rhs)
    case IsMax(b, vs) => b in w.t <==> exists i :: 0 <= i < |vs| && vs[i] in w.t
    case Domain(v, lo, hi) => lo <= IntOf(w, v) <= hi
  }

  /** `lits` are the assumption literals that are true; the others release their statements. */
  ghost predicate Meets(q: Posted, w: Val, lits: set<Key>) {
    q.guard.None? || q.guard.value in lits ==> Holds(q.stmt, w)
  }

  ghost predicate Sat(ps: seq<Posted>, w: Val, lits: set<Key>) {
    forall i :: 0 <= i < |ps| ==> Meets(ps[i], w, lits)
  }

  /** The schedule a valuation picks. */
  ghost function Picks(p: Problem, w: Val): (x: set<Cell>)
    ensures forall c :: c in x <==> IsCell(p, c) && X(c) in w.t
  {
    set c | c in Cells(p) && X(c) in w.t
  }

  // ---------------------------------------------------------------- the variables of a statement

  /** The variable is an auxiliary or the cell is among those given. */
  predicate VarWithin(cells: seq<Cell>, v: BVar) {
    v.X? ==> v.cell in cells
  }

  predicate VarsWithin(cells: seq<Cell>, vs: seq<BVar>) {
    forall i :: 0 <= i < |vs| ==> VarWithin(cells, vs[i])
  }

  predicate TermsWithin(cells: seq<Cell>, ts: seq<Term>) {
    forall i :: 0 <= i < |ts| && ts[i].atom.B? ==> VarWithin(cells, ts[i].atom.b)
  }

  /** The statement is about no other cells. */
  predicate Within(cells: seq<Cell>, s: Stmt) {
    match s
    case Linear(ts, _, _) => TermsWithin(cells, ts)
    case IsMax(target, args) => VarWithin(cells, target) && VarsWithin(cells, args)
    case Domain(_, _, _) => true
  }

  predicate AllWithin(cells: seq<Cell>, ps: seq<Posted>) {
    forall i :: 0 <= i < |ps| ==> Within(cells, ps[i].stmt)
  }

  predicate TiersWithin(cells: seq<Cell>, tiers: seq<Tier>) {
    forall i :: 0 <= i < |tiers| ==> TermsWithin(cells, tiers[i].terms)
  }

  /** Two valuations that differ at most on other cells. */
  ghost predicate AgreeWithin(cells: seq<Cell>, v: Val, w: Val) {
    v.n == w.n && forall b :: VarWithin(cells, b) ==> (b in v.t <==> b in w.t)
  }

  lemma {:induction false} DotAgrees(cells: seq<Cell>, ts: seq<Term>, v: Val, w: Val)
    requires TermsWithin(cells, ts) && AgreeWithin(cells, v, w)
    ensures Dot(ts, v) == Dot(ts, w)
  {
    if ts != [] {
      DotAgrees(cells, ts[..|ts| - 1], v, w);
      assert ts[|ts| - 1].atom.B? ==> VarWithin(cells, ts[|ts| - 1].atom.b);
    }
  }

  lemma HoldsAgrees(cells: seq<Cell>, s: Stmt, v: Val, w: Val)
    requires Within(cells, s) && AgreeWithin(cells, v, w)
    ensures Holds(s, v) <==> Holds(s, w)
  {
    match s
    case Linear(ts, _, _) => DotAgrees(cells, ts, v, w);
    case IsMax(_, args) => assert forall i :: 0 <= i < |args| ==> VarWithin(cells, args[i]);
    case Domain(_, _, _) =>
  }

  lemma SatAgrees(cells: seq<Cell>, ps: seq<Posted>, v: Val, w: Val, lits: set<Key>)
    requires AllWithin(cells, ps) && AgreeWithin(cells, v, w)
    ensures Sat(ps, v, lits) <==> Sat(ps, w, lits)
  {
    forall i | 0 <= i < |ps| ensures Meets(ps[i], v, lits) <==> Meets(ps[i], w, lits) {
      HoldsAgrees(cells, ps[i].stmt, v, w);
    }
  }

  lemma {:induction false} TotalAgrees(cells: seq<Cell>, tiers: seq<Tier>, v: Val, w: Val)
    requires TiersWithin(cells, tiers) && AgreeWithin(cells, v, w)
    ensures TierTotal(tiers, v) == TierTotal(tiers, w)
  {
    if tiers != [] {
      DotAgrees(cells, tiers[0].terms, v, w);
      TotalAgrees(cells, tiers[1..], v, w);
    }
  }

  /** The variable occurs in the statement. */
  predicate Mentions(s: Stmt, v: BVar) {
    match s
    case Linear(ts, _, _) => Uses(ts, v)
    case IsMax(target, args) => v == target || v in args
    case Domain(_, _, _) => false
  }

  predicate Uses(ts: seq<Term>, v: BVar) {
    exists i :: 0 <= i < |ts| && ts[i].atom == B(v)
  }

  /** The valuation with the variable set. */
  ghost function With(w: Val, v: BVar, value: bool): Val {
    w.(t := if value then w.t + iset{v} else w.t - iset{v})
  }

  lemma {:induction false} UnusedIsUnheard(ts: seq<Term>, v: BVar, w: Val)
    requires !Uses(ts, v)
    ensures Dot(ts, With(w, v, true)) == Dot(ts, With(w, v, false))
  {
    if ts != [] {
      var init, last := ts[..|ts| - 1], ts[|ts| - 1];
      assert forall i :: 0 <= i < |init| ==> init[i].atom == ts[i].atom;
      UnusedIsUnheard(init, v, w);
      assert last.atom != B(v);
    }
  }

  /** A variable that a statement does not mention makes no difference to it. */
  lemma UnmentionedIsUnheard(s: Stmt, v: BVar, w: Val)
    requires !Mentions(s, v)
    ensures Holds(s, With(w, v, true)) <==> Holds(s, With(w, v, false))
  {
    match s
    case Linear(ts, _, _) => UnusedIsUnheard(ts, v, w);
    case IsMax(_, args) => assert forall i :: 0 <= i < |args| ==> args[i] in args && args[i] != v;
    case Domain(_, _, _) =>
  }

  // ---------------------------------------------------------------- statements by name

  ghost predicate On(reify: bool, key: Key, lits: set<Key>) {
    reify ==> key in lits
  }

  function Literal(b: BVar, coef: int): Term {
    Term(coef, B(b))
  }

  lemma DotAppend(ts: seq<Term>, t: Term, w: Val)
    ensures Dot(ts + [t], w) == Dot(ts, w) + t.coef * AtomValue(t.atom, w)
  {
  }

  lemma DotPair(t: Term, u: Term, w: Val)
    ensures Dot([t], w) == t.coef * AtomValue(t.atom, w)
    ensures Dot([t, u], w) == t.coef * AtomValue(t.atom, w) + u.coef * AtomValue(u.atom, w)
  {
  }

  function Forced(c: Cell, value: int): (s: Stmt)
    requires value == 0 || value == 1
    ensures forall w :: Holds(s, w) <==> (X(c) in w.t <==> value == 1)
    ensures forall cells :: c in cells ==> Within(cells, s)
  {
    var s := Linear([Literal(X(c), 1)], Eq, value);
    assert forall w :: Holds(s, w) <==> (X(c) in w.t <==> value == 1) by {
      forall w { DotPair(Literal(X(c), 1), Literal(X(c), 1), w); }
    }
    s
  }

  function NotBoth(c: Cell, d: Cell): (s: Stmt)
    ensures forall w :: Holds(s, w) <==> !(X(c) in w.t && X(d) in w.t)
    ensures forall cells :: c in cells && d in cells ==> Within(cells, s)
  {
    var s := Linear([Literal(X(c), 1), Literal(X(d), 1)], Le, 1);
    assert forall w :: Holds(s, w) <==> !(X(c) in w.t && X(d) in w.t) by {
      forall w { DotPair(Literal(X(c), 1), Literal(X(d), 1), w); }
    }
    s
  }

  /** `a <= b`. */
  function Implies(a: BVar, b: BVar): (s: Stmt)
    ensures forall w :: Holds(s, w) <==> (a in w.t ==> b in w.t)
    ensures forall cells :: VarWithin(cells, a) && VarWithin(cells, b) ==> Within(cells, s)
  {
    var s := Linear([Literal(a, 1), Literal(b, -1)], Le, 0);
    assert forall w :: Holds(s, w) <==> (a in w.t ==> b in w.t) by {
      forall w { DotPair(Literal(a, 1), Literal(b, -1), w); }
    }
    s
  }

  function Same(a: BVar, b: BVar): (s: Stmt)
    ensures forall w :: Holds(s, w) <==> (a in w.t <==> b in w.t)
    ensures forall cells :: VarWithin(cells, a) && VarWithin(cells, b) ==> Within(cells, s)
  {
    var s := Linear([Literal(a, 1), Literal(b, -1)], Eq, 0);
    assert forall w :: Holds(s, w) <==> (a in w.t <==> b in w.t) by {
      forall w { DotPair(Literal(a, 1), Literal(b, -1), w); }
    }
    s
  }

  function Ones(vs: seq<BVar>): seq<Term> {
    if vs == [] then [] else Ones(vs[..|vs| - 1]) + [Literal(vs[|vs| - 1], 1)]
  }

  /** The sum of some Booleans, compared with a number. */
  function Sum(vs: seq<BVar>, cmp: Cmp, rhs: int): Stmt {
    Linear(Ones(vs), cmp, rhs)
  }

  lemma {:induction false} SumWithin(cells: seq<Cell>, vs: seq<BVar>, cmp: Cmp, rhs: int)
    requires VarsWithin(cells, vs)
    ensures Within(cells, Sum(vs, cmp, rhs))
  {
    if vs != [] {
      SumWithin(cells, vs[..|vs| - 1], cmp, rhs);
      assert VarWithin(cells, vs[|vs| - 1]);
    }
  }

  lemma {:induction false} DotConcat(ts: seq<Term>, us: seq<Term>, w: Val)
    ensures Dot(ts + us, w) == Dot(ts, w) + Dot(us, w)
  {
    if us == [] {
      assert ts + us == ts;
    } else {
      DotConcat(ts, us[..|us| - 1], w);
      DotAppend(ts + us[..|us| - 1], us[|us| - 1], w);
      assert ts + us == (ts + us[..|us| - 1]) + [us[|us| - 1]];
    }
  }

  /** The sum of some Booleans, each `k` times. */
  function Scaled(vs: seq<BVar>, k: int): seq<Term> {
    if vs == [] then [] else Scaled(vs[..|vs| - 1], k) + [Literal(vs[|vs| - 1], k)]
  }

  lemma {:induction false} ScaledWithin(cells: seq<Cell>, vs: seq<BVar>, k: int)
    requires VarsWithin(cells, vs)
    ensures TermsWithin(cells, Scaled(vs, k))
  {
    if vs != [] {
      ScaledWithin(cells, vs[..|vs| - 1], k);
      assert VarWithin(cells, vs[|vs| - 1]);
    }
  }

  lemma {:induction false} ScaledSum(vs: seq<BVar>, k: int, w: Val)
    ensures Dot(Scaled(vs, k), w) == k * Dot(Ones(vs), w)
  {
    if vs != [] {
      hide Dot, AtomValue;
      var init, last := vs[..|vs| - 1], vs[|vs| - 1];
      ScaledSum(init, k, w);
      DotAppend(Scaled(init, k), Literal(last, k), w);
      DotAppend(Ones(init), Literal(last, 1), w);
      Distributes(k, Dot(Ones(init), w), AtomValue(B(last), w));
    }
  }

  lemma Distributes(k: int, a: int, b: int)
    ensures k * (a + b) == k * a + k * b
  {
  }

  /** A sum of distinct Booleans counts the true ones. */
  lemma {:induction false} SumCounts(vs: seq<BVar>, w: Val, trues: set<BVar>)
    requires NoDup(vs)
    requires forall v :: v in trues <==> v in vs && v in w.t
    ensures Dot(Ones(vs), w) == |trues|
  {
    if vs == [] {
      assert trues == {};
    } else {
      var last := vs[|vs| - 1];
      SumCounts(vs[..|vs| - 1], w, trues - {last});
      DotAppend(Ones(vs[..|vs| - 1]), Literal(last, 1), w);
      if last in w.t { assert trues == (trues - {last}) + {last}; } else { assert trues == trues - {last}; }
    }
  }

  function Xs(cs: seq<Cell>): (vs: seq<BVar>)
    ensures |vs| == |cs| && forall i :: 0 <= i < |cs| ==> vs[i] == X(cs[i])
  {
    seq(|cs|, i requires 0 <= i < |cs| => X(cs[i]))
  }

  lemma XsWithin(cells: seq<Cell>, cs: seq<Cell>)
    requires forall c :: c in cs ==> c in cells
    ensures VarsWithin(cells, Xs(cs))
  {
  }

  lemma CellSumWithin(cells: seq<Cell>, cs: seq<Cell>, cmp: Cmp, rhs: int)
    requires forall c :: c in cs ==> c in cells
    ensures Within(cells, Sum(Xs(cs), cmp, rhs))
  {
    XsWithin(cells, cs);
    SumWithin(cells, Xs(cs), cmp, rhs);
  }

  /** The sum over a list of distinct grid cells counts the picked ones among them. */
  lemma SumOfCells(p: Problem, cs: seq<Cell>, w: Val, counted: set<Cell>)
    requires NoDup(cs) && forall c :: c in cs ==> IsCell(p, c)
    requires forall c :: c in counted <==> c in Picks(p, w) && c in cs
    ensures Dot(Ones(Xs(cs)), w) == |counted|
  {
    var trues := set c | c in counted :: X(c);
    assert forall v :: v in trues <==> v in Xs(cs) && v in w.t;
    SumCounts(Xs(cs), w, trues);
    ImageSize(counted, trues);
  }

  lemma {:induction false} ImageSize(cells: set<Cell>, image: set<BVar>)
    requires image == set c | c in cells :: X(c)
    ensures |image| == |cells|
  {
    if cells == {} {
    } else {
      var c :| c in cells;
      ImageSize(cells - {c}, image - {X(c)});
    }
  }

  /** A sum of distinct Booleans is as long as the list exactly when all of them are true. */
  lemma {:induction false} SumIsFull(vs: seq<BVar>, w: Val)
    ensures 0 <= Dot(Ones(vs), w) <= |vs|
    ensures Dot(Ones(vs), w) == |vs| <==> forall i :: 0 <= i < |vs| ==> vs[i] in w.t
  {
    if vs != [] {
      SumIsFull(vs[..|vs| - 1], w);
      DotAppend(Ones(vs[..|vs| - 1]), Literal(vs[|vs| - 1], 1), w);
    }
  }

  lemma {:induction false} SumIsZero(vs: seq<BVar>, w: Val)
    ensures Dot(Ones(vs), w) >= 0
    ensures Dot(Ones(vs), w) == 0 <==> forall i :: 0 <= i < |vs| ==> vs[i] !in w.t
  {
    if vs != [] {
      SumIsZero(vs[..|vs| - 1], w);
      DotAppend(Ones(vs[..|vs| - 1]), Literal(vs[|vs| - 1], 1), w);
    }
  }

  ghost predicate NoTwo(vs: seq<BVar>, w: Val) {
    forall i, j :: 0 <= i < j < |vs| ==> !(vs[i] in w.t && vs[j] in w.t)
  }

  /** A sum of Booleans is at most one exactly when no two of them are true. */
  lemma {:induction false} SumAtMostOne(vs: seq<BVar>, w: Val)
    ensures Dot(Ones(vs), w) <= 1 <==> NoTwo(vs, w)
  {
    if vs != [] {
      var n := |vs| - 1;
      var init := vs[..n];
      SumAtMostOne(init, w);
      SumIsZero(init, w);
      DotAppend(Ones(init), Literal(vs[n], 1), w);
      if NoTwo(vs, w) {
        assert NoTwo(init, w);
        if vs[n] in w.t { assert forall i :: 0 <= i < n ==> vs[i] !in w.t; }
      } else {
        var i, j :| 0 <= i < j < |vs| && vs[i] in w.t && vs[j] in w.t;
        if j < n { assert init[i] in w.t && init[j] in w.t; } else { assert init[i] in w.t; }
      }
    }
  }

  // ---------------------------------------------------------------- the model under construction

  /** The recorded literals, and that of the key if a statement was posted behind it. */
  function WithKey(keys: seq<Key>, key: Key, asked: bool): seq<Key> {
    if asked && key !in keys then keys + [key] else keys
  }

  /** A SOFT rule and the scaled weight it carried. */
  datatype Component = Component(ruleKey: Key, scaledWeight: int)

  /** What the SOFT rules of a rank put into the objective. */
  datatype Tier = Tier(rank: int, components: seq<Component>, terms: seq<Term>, unmapped: seq<Key>)

  ghost function TierTotal(tiers: seq<Tier>, w: Val): int {
    if tiers == [] then 0 else Dot(tiers[0].terms, w) + TierTotal(tiers[1..], w)
  }

  /** The statements posted so far, and what is recorded beside them. */
  class Built {
    const reify: bool
    var cells: seq<Cell>
    var posted: seq<Posted>
    var assumptions: seq<Key>
    var hardRuleKeys: seq<Key>
    var tiers: seq<Tier>

    constructor (reify: bool)
      ensures this.reify == reify && cells == [] && posted == [] && assumptions == []
      ensures hardRuleKeys == [] && tiers == []
    {
      this.reify := reify;
      cells, posted, assumptions, hardRuleKeys, tiers := [], [], [], [], [];
    }

    /** Guards occur in reify mode only, and every one has its assumption literal. Statements and objective
        speak of the recorded cells alone. */
    ghost predicate Valid()
      reads this
    {
      && AllWithin(cells, posted) && TiersWithin(cells, tiers)
      && NoDup(assumptions)
      && forall i :: 0 <= i < |posted| && posted[i].guard.Some? ==> reify && posted[i].guard.value in assumptions
    }

    ghost predicate Covers(p: Problem)
      reads this`cells
    {
      Resolved(p) && CellsSorted(cells) && forall c :: c in cells <==> IsCell(p, c)
    }

    /** An unguarded statement. */
    method Post(s: Stmt)
      requires Valid() && Within(cells, s)
      modifies this`posted
      ensures Valid()
      ensures posted == old(posted) + [Posted(None, s)]
      ensures forall w, lits :: Sat(posted, w, lits) <==> Sat(old(posted), w, lits) && Holds(s, w)
    {
      ghost var before := posted;
      posted := posted + [Posted(None, s)];
      SatAppend(before, Posted(None, s));
    }

    /** A statement of a HARD group: guarded by the literal of its key where literals are in use. */
    method Enforce(s: Stmt, key: Key)
      requires Valid() && Within(cells, s)
      modifies this`posted, this`assumptions
      ensures Valid()
      ensures posted == old(posted) + [Posted(if reify then Some(key) else None, s)]
      ensures assumptions == WithKey(old(assumptions), key, reify)
      ensures forall w, lits :: Sat(posted, w, lits) <==>
                Sat(old(posted), w, lits) && (On(reify, key, lits) ==> Holds(s, w))
    {
      ghost var before := posted;
      if !reify {
        posted := posted + [Posted(None, s)];
        SatAppend(before, Posted(None, s));
      } else {
        if key !in assumptions {
          assumptions := assumptions + [key];
        }
        posted := posted + [Posted(Some(key), s)];
        SatAppend(before, Posted(Some(key), s));
      }
    }
  }

  lemma SatAppend(ps: seq<Posted>, q: Posted)
    ensures forall w, lits :: Sat(ps + [q], w, lits) <==> Sat(ps, w, lits) && Meets(q, w, lits)
  {
    forall w, lits
      ensures Sat(ps + [q], w, lits) <==> Sat(ps, w, lits) && Meets(q, w, lits)
    {
      var qs := ps + [q];
      assert forall i :: 0 <= i < |ps| ==> qs[i] == ps[i];
      assert qs[|ps|] == q;
      if Sat(ps, w, lits) && Meets(q, w, lits) {
        assert forall i :: 0 <= i < |qs| ==> Meets(qs[i], w, lits);
      }
      if Sat(qs, w, lits) {
        assert Meets(qs[|ps|], w, lits);
        assert forall i :: 0 <= i < |ps| ==> Meets(qs[i], w, lits);
      }
    }
  }

  /** With every literal true a reified model is the ordinary one. */
  lemma AllLiteralsOn(ps: seq<Posted>, keys: set<Key>, w: Val, lits: set<Key>)
    requires forall i :: 0 <= i < |ps| && ps[i].guard.Some? ==> ps[i].guard.value in keys
    requires keys <= lits
    ensures Sat(ps, w, lits) <==> forall i :: 0 <= i < |ps| ==> Holds(ps[i].stmt, w)
  {
  }
}
