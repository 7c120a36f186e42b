/** Why a problem has no solution: the assumption solve, the deletion-based shrinking of the subset
    it returns, and what each explanation state is entitled to claim. The solver is an oracle that
    may give up or raise; the clock is a function of how many probes were made. */
module Explain {
  import opened Wrappers
  import opened Calendar
  import opened Problems
  import opened RuleMeaning
  import opened MemberByDate
  import opened HardRules
  import opened SoftRules
  import opened Compiler
  import opened CompiledMeaning
  import opened DaysOff
  import Readiness

  datatype Status = Optimal | FeasibleOnly | Infeasible | Unknown | ModelInvalid | Raises

  const T2_MAX_ITERATIONS := 64

  function Elements(s: seq<Key>): set<Key> {
    set k | k in s
  }

  /** The probe answers: one per assumption set and per probe number. */
  type Oracle = (set<Key>, nat) -> Status

  /** A definite answer is a true one. */
  ghost predicate Truthful(p: Problem, rules: seq<Rule>, solve: Oracle)
    requires Resolved(p) && AllModellable(p, rules)
  {
    forall s, n ::
      (solve(s, n) == Infeasible ==> !Feasible(p, rules, s))
      && (solve(s, n) == Optimal || solve(s, n) == FeasibleOnly ==> Feasible(p, rules, s))
  }

  predicate Definite(status: Status) {
    status == Infeasible || status == Optimal || status == FeasibleOnly
  }

  /** Nothing stops a pass: every probe is answered, and in time. */
  ghost predicate Answers(solve: Oracle, elapsed: nat -> real, seconds: real) {
    (forall n :: elapsed(n) < seconds) && forall s, n :: Definite(solve(s, n))
  }

  /** Every element is needed: without it the rest is feasible. */
  ghost predicate LocallyMinimal(p: Problem, rules: seq<Rule>, s: set<Key>)
    requires Resolved(p) && AllModellable(p, rules)
  {
    !Feasible(p, rules, s) && forall k :: k in s ==> Feasible(p, rules, s - {k})
  }

  // ---------------------------------------------------------------- releasing one key

  function Without(s: seq<Key>, key: Key): (r: seq<Key>)
    ensures forall k :: k in r <==> k in s && k != key
    ensures NoDup(s) ==> NoDup(r) && |r| == if key in s then |s| - 1 else |s|
  {
    if s == [] then []
    else
      var n := |s| - 1;
      assert s == s[..n] + [s[n]];
      var before := Without(s[..n], key);
      assert NoDup(s) ==> NoDup(s[..n]) && s[n] !in s[..n];
      assert s[n] !in s[..n] ==> forall i :: 0 <= i < |before| ==> before[i] in before;
      if s[n] == key then before else before + [s[n]]
  }

  lemma Antitone(p: Problem, rules: seq<Rule>, fewer: set<Key>, more: set<Key>)
    requires Resolved(p) && AllModellable(p, rules) && fewer <= more
    ensures Feasible(p, rules, more) ==> Feasible(p, rules, fewer)
  {
  }

  // ---------------------------------------------------------------- T2

  datatype Shrunk = Shrunk(minimal: bool, subset: seq<Key>, iterations: nat, removed: nat, solves: nat)

  /** Every kept candidate so far was shown necessary. */
  ghost predicate KeptNecessary(p: Problem, rules: seq<Rule>, subset: seq<Key>, n: nat, remaining: seq<Key>)
    requires Resolved(p) && AllModellable(p, rules) && n <= |subset|
  {
    forall i :: 0 <= i < n && subset[i] in remaining ==> Feasible(p, rules, Elements(remaining) - {subset[i]})
  }

  /** Where the pass stands before candidate `n`. */
  ghost predicate Underway(p: Problem, rules: seq<Rule>, subset: seq<Key>, n: nat, remaining: seq<Key>)
    requires Resolved(p) && AllModellable(p, rules) && n <= |subset|
  {
    && NoDup(remaining) && (forall k :: k in remaining ==> k in subset) && !Feasible(p, rules, Elements(remaining))
    && (forall i :: n <= i < |subset| ==> subset[i] in remaining)
    && KeptNecessary(p, rules, subset, n, remaining)
    && (subset != [] ==> remaining != [])
  }

  /** Dropping a candidate keeps the others necessary. */
  lemma NecessaryStays(p: Problem, rules: seq<Rule>, subset: seq<Key>, n: nat, remaining: seq<Key>, trial: seq<Key>)
    requires Resolved(p) && AllModellable(p, rules) && n < |subset| && KeptNecessary(p, rules, subset, n, remaining)
    requires forall k :: k in trial ==> k in remaining && k != subset[n]
    ensures KeptNecessary(p, rules, subset, n + 1, trial)
  {
  }

  lemma CandidateDropped(p: Problem, rules: seq<Rule>, subset: seq<Key>, n: nat, remaining: seq<Key>)
    requires Resolved(p) && AllModellable(p, rules) && NoDup(subset) && n < |subset| && |remaining| > 1
    requires Underway(p, rules, subset, n, remaining)
    requires !Feasible(p, rules, Elements(Without(remaining, subset[n])))
    ensures Underway(p, rules, subset, n + 1, Without(remaining, subset[n]))
  {
    hide Feasible, KeptNecessary;
    NecessaryStays(p, rules, subset, n, remaining, Without(remaining, subset[n]));
  }

  lemma CandidateKept(p: Problem, rules: seq<Rule>, subset: seq<Key>, n: nat, remaining: seq<Key>)
    requires Resolved(p) && AllModellable(p, rules) && n < |subset|
    requires Underway(p, rules, subset, n, remaining)
    requires Feasible(p, rules, Elements(Without(remaining, subset[n])))
    ensures Underway(p, rules, subset, n + 1, remaining)
  {
  }

  lemma FullPass(p: Problem, rules: seq<Rule>, subset: seq<Key>, remaining: seq<Key>)
    requires Resolved(p) && AllModellable(p, rules) && Underway(p, rules, subset, |subset|, remaining)
    ensures LocallyMinimal(p, rules, Elements(remaining))
  {
  }

  // ---------------------------------------------------------------- the course of a pass

  /** What is left after `n` probes: each candidate in turn is dropped if the others were found infeasible. */
  function Remaining(subset: seq<Key>, solve: Oracle, n: nat): seq<Key>
    requires n <= |subset|
    decreases n, 1
  {
    if n == 0 then subset
    else if Probe(subset, solve, n) == Infeasible then Without(Remaining(subset, solve, n - 1), subset[n - 1])
    else Remaining(subset, solve, n - 1)
  }

  /** The answer to probe `n`, which asks about what was left without the candidate of that number. */
  function Probe(subset: seq<Key>, solve: Oracle, n: nat): Status
    requires 1 <= n <= |subset|
    decreases n, 0
  {
    solve(Elements(Without(Remaining(subset, solve, n - 1), subset[n - 1])), n)
  }

  /** A further probe may be made after `n` of them: fewer than 64, in time, and with two keys left. */
  predicate MayGoOn(subset: seq<Key>, solve: Oracle, elapsed: nat -> real, seconds: real, n: nat)
    requires n <= |subset|
  {
    n < 64 && elapsed(n) < seconds && |Remaining(subset, solve, n)| >= 2
  }

  /** The pass makes `n` probes: it could go on before each of them, all but perhaps the last were answered, and
      after the last it could not go on, or had no answer or no candidate. */
  ghost predicate MakesProbes(subset: seq<Key>, solve: Oracle, elapsed: nat -> real, seconds: real, n: nat) {
    && n <= |subset|
    && (forall k :: 0 <= k < n ==> MayGoOn(subset, solve, elapsed, seconds, k))
    && (forall k :: 1 <= k < n ==> Definite(Probe(subset, solve, k)))
    && (n == |subset| || !MayGoOn(subset, solve, elapsed, seconds, n) || (n > 0 && !Definite(Probe(subset, solve, n))))
  }

  /** After `n` probes with answers the pass is through, or at a single key with budget to spare. */
  predicate Through(subset: seq<Key>, solve: Oracle, elapsed: nat -> real, seconds: real, n: nat)
    requires n <= |subset|
  {
    && (n > 0 ==> Definite(Probe(subset, solve, n)))
    && (n == |subset| || (n < 64 && elapsed(n) < seconds && |Remaining(subset, solve, n)| <= 1))
  }

  /** No pass makes two numbers of probes. */
  lemma ProbesAreDetermined(subset: seq<Key>, solve: Oracle, elapsed: nat -> real, seconds: real, n: nat, k: nat)
    requires MakesProbes(subset, solve, elapsed, seconds, n) && MakesProbes(subset, solve, elapsed, seconds, k)
    ensures n == k
  {
    hide Definite, MayGoOn;
  }

  /** All `n` probes were allowed and answered. */
  ghost predicate Course(subset: seq<Key>, solve: Oracle, elapsed: nat -> real, seconds: real, n: nat) {
    && n <= |subset|
    && (forall k :: 0 <= k < n ==> MayGoOn(subset, solve, elapsed, seconds, k))
    && (forall k :: 1 <= k <= n ==> Definite(Probe(subset, solve, k)))
  }

  lemma CourseGoesOn(subset: seq<Key>, solve: Oracle, elapsed: nat -> real, seconds: real, n: nat)
    requires Course(subset, solve, elapsed, seconds, n) && n < |subset| && MayGoOn(subset, solve, elapsed, seconds, n)
    ensures Remaining(subset, solve, n + 1)
         == if Probe(subset, solve, n + 1) == Infeasible then Without(Remaining(subset, solve, n), subset[n])
            else Remaining(subset, solve, n)
    ensures Definite(Probe(subset, solve, n + 1)) ==> Course(subset, solve, elapsed, seconds, n + 1)
    ensures !Definite(Probe(subset, solve, n + 1)) ==>
              MakesProbes(subset, solve, elapsed, seconds, n + 1) && !Through(subset, solve, elapsed, seconds, n + 1)
  {
    hide MayGoOn, Definite, Probe;
  }

  lemma CourseStops(subset: seq<Key>, solve: Oracle, elapsed: nat -> real, seconds: real, n: nat)
    requires Course(subset, solve, elapsed, seconds, n)
    requires n == |subset| || !MayGoOn(subset, solve, elapsed, seconds, n)
    ensures MakesProbes(subset, solve, elapsed, seconds, n)
    ensures Through(subset, solve, elapsed, seconds, n)
       <==> n == |subset| || (n < 64 && elapsed(n) < seconds && |Remaining(subset, solve, n)| <= 1)
    ensures n > 0 ==> Definite(Probe(subset, solve, n))
  {
    hide MayGoOn, Definite, Probe;
  }

  lemma ProbeMeans(p: Problem, rules: seq<Rule>, solve: Oracle, s: set<Key>, n: nat)
    requires Resolved(p) && AllModellable(p, rules) && Truthful(p, rules, solve)
    ensures solve(s, n) == Infeasible ==> !Feasible(p, rules, s)
    ensures solve(s, n) == Optimal || solve(s, n) == FeasibleOnly ==> Feasible(p, rules, s)
  {
  }

  /** Release one candidate after another, and keep those without which the rest is not shown
      infeasible. A claim of minimality needs a full pass of definite answers. */
  method Minimise(ghost p: Problem, ghost rules: seq<Rule>, subset: seq<Key>, solve: Oracle, elapsed: nat -> real,
                  seconds: real)
      returns (raised: bool, out: Shrunk)
    requires Resolved(p) && AllModellable(p, rules) && Truthful(p, rules, solve)
    requires NoDup(subset) && !Feasible(p, rules, Elements(subset))
    ensures raised ==> exists s, n :: solve(s, n) == Raises
    ensures MakesProbes(subset, solve, elapsed, seconds, out.iterations)
    ensures out.subset == Remaining(subset, solve, out.iterations)
    ensures raised <==> out.iterations > 0 && Probe(subset, solve, out.iterations) == Raises
    ensures out.minimal <==> Through(subset, solve, elapsed, seconds, out.iterations)
    ensures NoDup(out.subset) && (forall k :: k in out.subset ==> k in subset)
              && !Feasible(p, rules, Elements(out.subset))
    ensures subset != [] ==> out.subset != []
    ensures out.removed == |subset| - |out.subset| && out.removed <= out.iterations
    ensures out.solves == out.iterations <= |subset| && out.iterations <= T2_MAX_ITERATIONS
    ensures out.minimal && (|out.subset| > 1 || Feasible(p, rules, {})) ==>
              LocallyMinimal(p, rules, Elements(out.subset))
    ensures |subset| <= T2_MAX_ITERATIONS && Answers(solve, elapsed, seconds) ==> !raised && out.minimal
  {
    hide Feasible, Truthful, KeptNecessary, Remaining, MakesProbes, Through, Course, AllModellable, LocallyMinimal;
    PassBegins(p, rules, subset, solve, elapsed, seconds);
    var remaining := subset;
    var iterations, removed, solves := 0, 0, 0;
    for i := 0 to |subset|
      invariant Underway(p, rules, subset, i, remaining)
      invariant remaining == Remaining(subset, solve, i) && Course(subset, solve, elapsed, seconds, i)
      invariant removed == |subset| - |remaining| && removed <= iterations
      invariant solves == iterations == i <= T2_MAX_ITERATIONS
    {
      if iterations >= T2_MAX_ITERATIONS {
        CourseStops(subset, solve, elapsed, seconds, i);
        return false, Shrunk(false, remaining, iterations, removed, solves);
      }
      if elapsed(iterations) >= seconds {
        CourseStops(subset, solve, elapsed, seconds, i);
        return false, Shrunk(false, remaining, iterations, removed, solves);
      }
      if |remaining| <= 1 {
        AtMostOneLeft(p, rules, remaining);
        CourseStops(subset, solve, elapsed, seconds, i);
        return false, Shrunk(true, remaining, iterations, removed, solves);
      }
      var trial := Without(remaining, subset[i]);
      iterations := iterations + 1;
      var status := solve(Elements(trial), iterations);
      solves := solves + 1;
      CourseGoesOn(subset, solve, elapsed, seconds, i);
      ProbeMeans(p, rules, solve, Elements(trial), iterations);
      if status == Infeasible {
        CandidateDropped(p, rules, subset, i, remaining);
        remaining := trial;
        removed := removed + 1;
      } else if status == Raises {
        return true, Shrunk(false, remaining, iterations, removed, solves);
      } else if status != Optimal && status != FeasibleOnly {
        return false, Shrunk(false, remaining, iterations, removed, solves);
      } else {
        CandidateKept(p, rules, subset, i, remaining);
      }
    }
    FullPass(p, rules, subset, remaining);
    CourseStops(subset, solve, elapsed, seconds, |subset|);
    return false, Shrunk(true, remaining, iterations, removed, solves);
  }

  lemma PassBegins(p: Problem, rules: seq<Rule>, subset: seq<Key>, solve: Oracle, elapsed: nat -> real, seconds: real)
    requires Resolved(p) && AllModellable(p, rules) && NoDup(subset) && !Feasible(p, rules, Elements(subset))
    ensures Underway(p, rules, subset, 0, subset) && Remaining(subset, solve, 0) == subset
    ensures Course(subset, solve, elapsed, seconds, 0)
  {
    hide Feasible;
  }

  lemma AtMostOneLeft(p: Problem, rules: seq<Rule>, remaining: seq<Key>)
    requires Resolved(p) && AllModellable(p, rules) && !Feasible(p, rules, Elements(remaining)) && |remaining| <= 1
    ensures Feasible(p, rules, {}) ==> LocallyMinimal(p, rules, Elements(remaining))
  {
    hide Feasible;
    if remaining != [] {
      assert Elements(remaining) == {remaining[0]};
      assert Elements(remaining) - {remaining[0]} == {};
    }
  }

  /** No set with an element is minimal when the unguarded part is already infeasible, so the early
      stop at one element is right exactly if that part is satisfiable. */
  lemma MinimalNeedsUnguardedPart(p: Problem, rules: seq<Rule>, s: set<Key>)
    requires Resolved(p) && AllModellable(p, rules) && s != {}
    ensures LocallyMinimal(p, rules, s) ==> Feasible(p, rules, {})
    ensures |s| == 1 && !Feasible(p, rules, s) ==> (LocallyMinimal(p, rules, s) <==> Feasible(p, rules, {}))
  {
    var k :| k in s;
    Antitone(p, rules, {}, s - {k});
    if |s| == 1 {
      assert |s - {k}| == 0;
    }
  }

  // ---------------------------------------------------------------- the unguarded part

  ghost function PinnedCells(p: Problem): set<Cell> {
    set i | 0 <= i < |p.fixed| && p.fixed[i].isPinned && IsCell(p, p.fixed[i].cell) :: p.fixed[i].cell
  }

  /** The unguarded part is satisfiable exactly if no slot is impossible and the pins alone leave room
      in every work-percentage target. */
  lemma UnguardedPartIff(p: Problem, rules: seq<Rule>)
    requires Resolved(p) && AllModellable(p, rules)
    ensures Feasible(p, rules, {})
       <==> AllSlotsPossible(p) && forall i :: 0 <= i < |rules| && rules[i].Soft? ==>
              SoftFits(p, rules[i].scope, rules[i].soft, PinnedCells(p))
  {
    var pins := PinnedCells(p);
    if x :| OnGrid(p, x) && MetBy(p, rules, true, {}, x) {
      assert pins <= x;
      forall i | 0 <= i < |rules| && rules[i].Soft? ensures SoftFits(p, rules[i].scope, rules[i].soft, pins) {
        assert RuleMet(p, rules[i], true, {}, x);
        FitsShrinks(p, rules[i], pins, x);
      }
    }
    if AllSlotsPossible(p) && forall i :: 0 <= i < |rules| && rules[i].Soft? ==>
      SoftFits(p, rules[i].scope, rules[i].soft, pins) {
      assert OnGrid(p, pins) && PinsKept(p, pins);
      forall i | 0 <= i < |rules| ensures RuleMet(p, rules[i], true, {}, pins) {
      }
      assert MetBy(p, rules, true, {}, pins);
    }
  }

  lemma FitsShrinks(p: Problem, rule: Rule, a: set<Cell>, b: set<Cell>)
    requires Modellable(p, rule) && rule.Soft? && a <= b && SoftFits(p, rule.scope, rule.soft, b)
    ensures SoftFits(p, rule.scope, rule.soft, a)
  {
    match rule.soft
    case WorkPercentageTarget(percentage) =>
      WorkTargetFitsIff(p, rule.scope, percentage, a);
      WorkTargetFitsIff(p, rule.scope, percentage, b);
      forall m ensures |Assigned(p, rule.scope, a, m)| <= |Assigned(p, rule.scope, b, m)| {
        SubsetSize(Assigned(p, rule.scope, a, m), Assigned(p, rule.scope, b, m));
      }
    case _ =>
  }

  // ---------------------------------------------------------------- the explanation

  datatype State = ExplainedExact | ExplainedSubset | ExplainedMinimal | BudgetExceeded | Unavailable

  /** What the assumption solve came back with, or that it raised. */
  datatype Answer = Raised | Answered(status: Status, core: set<Key>)

  /** The core that comes with INFEASIBLE is sufficient for it, and made of the literals asked about. */
  ghost predicate Sound(p: Problem, rules: seq<Rule>, t1: Answer)
    requires Resolved(p) && AllModellable(p, rules)
  {
    t1.Answered? && t1.status == Infeasible ==>
      t1.core <= Elements(Literals(p, rules, true)) && !Feasible(p, rules, t1.core)
  }

  function CellsOf(fixed: seq<Fixed>): seq<Cell> {
    seq(|fixed|, i requires 0 <= i < |fixed| => fixed[i].cell)
  }

  /** The fixed inputs, in the order of the structural check. */
  ghost predicate InputsInOrder(p: Problem, fixed: seq<Cell>) {
    && multiset(fixed) == multiset(CellsOf(p.fixed))
    && forall i, j :: 0 <= i < j < |fixed| ==> Readiness.ByDateThenShift(fixed[i], fixed[j])
  }

  // ---------------------------------------------------------------- keys in order

  predicate KeysInOrder(keys: seq<Key>) {
    forall i, j :: 0 <= i < j < |keys| ==> !LexLess(keys[j], keys[i])
  }

  lemma {:induction false} LexLessOneWay(a: Key, b: Key)
    requires LexLess(a, b)
    ensures !LexLess(b, a)
  {
    if a != "" && a[0] == b[0] { LexLessOneWay(a[1..], b[1..]); }
  }

  lemma {:induction false} NotLessChain(a: Key, b: Key, c: Key)
    requires !LexLess(b, a) && !LexLess(c, b)
    ensures !LexLess(c, a)
  {
    if a != "" && b != "" && c != "" && a[0] == b[0] == c[0] { NotLessChain(a[1..], b[1..], c[1..]); }
  }

  function InsertKey(keys: seq<Key>, key: Key): (r: seq<Key>)
    ensures multiset(r) == multiset(keys) + multiset{key}
  {
    if keys == [] then [key]
    else
      var n := |keys| - 1;
      assert keys == keys[..n] + [keys[n]];
      if LexLess(key, keys[n]) then InsertKey(keys[..n], key) + [keys[n]] else keys + [key]
  }

  function SortKeys(keys: seq<Key>): (r: seq<Key>)
    ensures multiset(r) == multiset(keys)
  {
    if keys == [] then []
    else
      var n := |keys| - 1;
      assert keys == keys[..n] + [keys[n]];
      InsertKey(SortKeys(keys[..n]), keys[n])
  }

  lemma AppendInOrder(keys: seq<Key>, key: Key)
    requires KeysInOrder(keys) && forall k :: k in keys ==> !LexLess(key, k)
    ensures KeysInOrder(keys + [key])
  {
  }

  lemma {:induction false} InsertKeyInOrder(keys: seq<Key>, key: Key)
    requires KeysInOrder(keys)
    ensures KeysInOrder(InsertKey(keys, key))
  {
    if keys != [] {
      var init, last := keys[..|keys| - 1], keys[|keys| - 1];
      if LexLess(key, last) {
        InsertKeyInOrder(init, key);
        LexLessOneWay(key, last);
        forall k | k in InsertKey(init, key) ensures !LexLess(last, k) {
          assert k in multiset(InsertKey(init, key));
          assert k == key || k in init;
        }
        AppendInOrder(InsertKey(init, key), last);
      } else {
        forall k | k in keys ensures !LexLess(key, k) {
          if k != last { NotLessChain(k, last, key); }
        }
        AppendInOrder(keys, key);
      }
    }
  }

  lemma {:induction false} SortKeysInOrder(keys: seq<Key>)
    ensures KeysInOrder(SortKeys(keys))
  {
    if keys != [] {
      SortKeysInOrder(keys[..|keys| - 1]);
      InsertKeyInOrder(SortKeys(keys[..|keys| - 1]), keys[|keys| - 1]);
    }
  }

  /** Sorting keeps the keys, each as often as it was there. */
  lemma SortKeysKeeps(keys: seq<Key>)
    requires NoDup(keys)
    ensures NoDup(SortKeys(keys)) && Elements(SortKeys(keys)) == Elements(keys) && |SortKeys(keys)| == |keys|
  {
    var r := SortKeys(keys);
    assert |multiset(r)| == |r| && |multiset(keys)| == |keys|;
    forall k ensures k in r <==> k in keys {
      assert k in r <==> k in multiset(r);
      assert k in keys <==> k in multiset(keys);
    }
    forall i, j | 0 <= i < j < |r| ensures r[i] != r[j] {
      if r[i] == r[j] {
        SameTwice(r, i, j);
        OnceEach(keys, r[i]);
        assert false;
      }
    }
  }

  lemma SameTwice(keys: seq<Key>, i: nat, j: nat)
    requires i < j < |keys| && keys[i] == keys[j]
    ensures multiset(keys)[keys[i]] >= 2
  {
    assert keys == keys[..j] + keys[j..];
    assert keys[i] in keys[..j] && keys[j] in keys[j..];
  }

  lemma {:induction false} OnceEach(keys: seq<Key>, key: Key)
    requires NoDup(keys)
    ensures multiset(keys)[key] <= 1
  {
    if keys != [] {
      var n := |keys| - 1;
      OnceEach(keys[..n], key);
      assert keys == keys[..n] + [keys[n]] && keys[n] !in keys[..n];
    }
  }

  /** The keys that are in the core, in their order. */
  function Chosen(keys: seq<Key>, core: set<Key>): (r: seq<Key>)
    ensures forall k :: k in r <==> k in keys && k in core
    ensures NoDup(keys) ==> NoDup(r)
  {
    if keys == [] then []
    else
      var n := |keys| - 1;
      assert keys == keys[..n] + [keys[n]];
      var before := Chosen(keys[..n], core);
      assert NoDup(keys) ==> NoDup(keys[..n]) && keys[n] !in keys[..n];
      assert keys[n] !in keys[..n] ==> forall i :: 0 <= i < |before| ==> before[i] in before;
      if keys[n] in core then before + [keys[n]] else before
  }

  lemma {:induction false} AsManyElements(keys: seq<Key>)
    requires NoDup(keys)
    ensures |Elements(keys)| == |keys|
  {
    if keys != [] {
      var n := |keys| - 1;
      AsManyElements(keys[..n]);
      assert keys == keys[..n] + [keys[n]] && keys[n] !in keys[..n];
      assert Elements(keys) == Elements(keys[..n]) + {keys[n]};
    }
  }

  lemma CoreIsChosen(keys: seq<Key>, core: set<Key>)
    requires NoDup(keys) && core <= Elements(keys)
    ensures Elements(Chosen(keys, core)) == core && |Chosen(keys, core)| == |core|
  {
    assert Elements(Chosen(keys, core)) == core;
    AsManyElements(Chosen(keys, core));
  }

  lemma {:induction false} ChosenInOrder(keys: seq<Key>, core: set<Key>)
    requires KeysInOrder(keys)
    ensures KeysInOrder(Chosen(keys, core))
  {
    if keys != [] {
      var n := |keys| - 1;
      ChosenInOrder(keys[..n], core);
      forall k | k in Chosen(keys[..n], core) ensures !LexLess(keys[n], k) {
        assert k in keys[..n];
      }
      if keys[n] in core { AppendInOrder(Chosen(keys[..n], core), keys[n]); }
    }
  }

  /** The list has the keys of the core, each once, in order. */
  ghost predicate Enumerates(keys: seq<Key>, core: set<Key>) {
    NoDup(keys) && KeysInOrder(keys) && Elements(keys) == core
  }

  lemma {:induction false} NeitherLess(a: Key, b: Key)
    requires !LexLess(a, b) && !LexLess(b, a)
    ensures a == b
  {
    if a != "" && b != "" { NeitherLess(a[1..], b[1..]); }
  }

  /** There is one such list. */
  lemma {:induction false} EnumeratedOneWay(a: seq<Key>, b: seq<Key>, core: set<Key>)
    requires Enumerates(a, core) && Enumerates(b, core)
    ensures a == b
  {
    AsManyElements(a);
    AsManyElements(b);
    if a != [] {
      var x, y := a[|a| - 1], b[|b| - 1];
      assert x in core && y in core;
      LastIsLargest(a, core, y);
      LastIsLargest(b, core, x);
      NeitherLess(x, y);
      WithoutLast(a, core);
      WithoutLast(b, core);
      EnumeratedOneWay(a[..|a| - 1], b[..|b| - 1], core - {x});
      assert a == a[..|a| - 1] + [x] && b == b[..|b| - 1] + [y];
    }
  }

  lemma LastIsLargest(keys: seq<Key>, core: set<Key>, k: Key)
    requires Enumerates(keys, core) && keys != [] && k in core
    ensures !LexLess(keys[|keys| - 1], k)
  {
    hide LexLess;
    assert k in keys;
    if k == keys[|keys| - 1] { NotLessThanItself(k); }
  }

  lemma {:induction false} NotLessThanItself(k: Key)
    ensures !LexLess(k, k)
  {
    if k != "" { NotLessThanItself(k[1..]); }
  }

  lemma WithoutLast(keys: seq<Key>, core: set<Key>)
    requires Enumerates(keys, core) && keys != []
    ensures Enumerates(keys[..|keys| - 1], core - {keys[|keys| - 1]})
  {
    hide LexLess;
    var last := keys[|keys| - 1];
    assert keys == keys[..|keys| - 1] + [last];
  }

  // ---------------------------------------------------------------- the four states

  datatype Explanation = Explanation(
    state: State,
    structural: seq<Readiness.Finding>,
    subset: seq<Key>,
    attempted: bool,
    exhausted: bool,
    iterations: nat,
    removed: nat,
    solves: nat)

  /** What is told of a pass of `n` probes over the core. One whose last probe raised leaves no trace but that
      it was attempted. */
  ghost predicate ToldOfPass(e: Explanation, first: seq<Key>, solve: Oracle, elapsed: nat -> real, seconds: real,
                             n: nat)
    requires n <= |first|
  {
    if n > 0 && Probe(first, solve, n) == Raises then
      e.state == ExplainedSubset && Elements(e.subset) == Elements(first) && !e.exhausted && e.iterations == 0
      && e.removed == 0 && e.solves == 1
    else
      var through := Through(first, solve, elapsed, seconds, n);
      e.state == (if through then ExplainedMinimal else BudgetExceeded) && e.exhausted == !through
      && Elements(e.subset) == Elements(Remaining(first, solve, n)) && e.removed == |first| - |e.subset|
      && e.iterations == n && e.solves == 1 + n
  }

  /** The model is built again with its HARD groups behind literals, and explained over the literals that
      were recorded. T0 outranks T1, T1 is failable, and T2 is tried only for a core of several keys and no
      structural finding. A probe of T2 that raises leaves the answer of T1. */
  method ExplainInfeasible(p: Problem, rows: seq<Readiness.Slot>, fixed: seq<Cell>, rules: seq<Rule>, t1: Answer,
                           solve: Oracle, elapsed: nat -> real, seconds: real)
      returns (e: Explanation)
    requires Resolved(p) && AllModellable(p, rules) && Truthful(p, rules, solve) && Sound(p, rules, t1)
    requires Readiness.Lists(rows, p.required) && InputsInOrder(p, fixed)
    ensures Readiness.Exactly(p, fixed, None, e.structural)
    ensures e.state == ExplainedExact <==> e.structural != []
    ensures NoDup(e.subset) && KeysInOrder(e.subset) && Elements(e.subset) <= Elements(Literals(p, rules, true))
    ensures e.attempted <==>
              e.structural == [] && Literals(p, rules, true) != [] && t1.Answered? && t1.status == Infeasible
              && |t1.core| >= 2
    ensures !e.attempted ==> !e.exhausted && e.iterations == 0 && e.removed == 0
    ensures Literals(p, rules, true) == [] || t1.Raised? ==>
              e.subset == [] && e.solves == 0 && (e.structural == [] ==> e.state == Unavailable)
    ensures Literals(p, rules, true) != [] && t1.Answered? && !e.attempted ==> e.solves == 1
    ensures Literals(p, rules, true) != [] && t1.Answered? && t1.status == Infeasible && !e.attempted ==>
              Elements(e.subset) == t1.core
              && (e.structural == [] ==> e.state == if t1.core == {} then Unavailable else ExplainedSubset)
    ensures Literals(p, rules, true) != [] && t1.Answered? && t1.status != Infeasible ==>
              e.subset == []
              && (e.structural == [] ==> e.state == if t1.status == Unknown then BudgetExceeded else Unavailable)
    ensures e.attempted ==>
              exists first, n :: Enumerates(first, t1.core) && MakesProbes(first, solve, elapsed, seconds, n)
                && ToldOfPass(e, first, solve, elapsed, seconds, n)
    ensures e.subset != [] ==> !Feasible(p, rules, Elements(e.subset))
    ensures e.state == ExplainedMinimal ==>
              e.attempted && (Feasible(p, rules, {}) <==> LocallyMinimal(p, rules, Elements(e.subset)))
    ensures e.state == ExplainedMinimal && |e.subset| > 1 ==> LocallyMinimal(p, rules, Elements(e.subset))
    ensures e.state == ExplainedSubset ==>
              t1.Answered? && Elements(e.subset) == t1.core != {}
              && (|t1.core| > 1 ==> exists s, n :: solve(s, n) == Raises)
    ensures e.state == Unavailable ==> e.subset == []
    ensures e.attempted ==> e.subset != [] && e.exhausted == (e.state == BudgetExceeded)
    ensures e.solves <= 1 + T2_MAX_ITERATIONS
    ensures e.attempted && |t1.core| <= T2_MAX_ITERATIONS && Answers(solve, elapsed, seconds) ==>
              e.state == ExplainedMinimal
  {
    hide Feasible, AllModellable, Truthful, Literals, LocallyMinimal, LexLess, SortKeys, Chosen, Probe, Through,
      MakesProbes, Remaining, ToldOfPass, Answers, Resolved;
    hide Readiness.Exactly, Readiness.Lists;
    var t0 := Readiness.StructuralFindings(p, rows, fixed);
    var state := if t0 != [] then ExplainedExact else Unavailable;
    e := Explanation(state, t0, [], false, false, 0, 0, 0);
    var keys := LiteralsInOrder(p, rules);
    if keys == [] || t1.Raised? {
      return;
    }
    if t1.status == Infeasible {
      var subset := Chosen(keys, t1.core);
      CoreIsChosen(keys, t1.core);
      ChosenInOrder(keys, t1.core);
      e := Explanation(if subset != [] && t0 == [] then ExplainedSubset else state, t0, subset, false, false, 0, 0, 1);
      if e.state == ExplainedSubset && |subset| > 1 {
        var raised, out := Minimise(p, rules, subset, solve, elapsed, seconds);
        if raised {
          e := e.(attempted := true);
        } else {
          e := Explanation(if out.minimal then ExplainedMinimal else BudgetExceeded, t0, out.subset, true, !out.minimal,
                           out.iterations, out.removed, 1 + out.solves);
          assert out.subset[0] in Elements(out.subset);
          if out.minimal {
            MinimalNeedsUnguardedPart(p, rules, Elements(out.subset));
          }
        }
        PassIsTold(e, e.(subset := SortKeys(e.subset)), subset, solve, elapsed, seconds, out, raised);
      }
    } else if t1.status == Unknown && t0 == [] {
      e := Explanation(BudgetExceeded, t0, [], false, false, 0, 0, 1);
    } else {
      e := Explanation(state, t0, [], false, false, 0, 0, 1);
    }
    SortKeysKeeps(e.subset);
    SortKeysInOrder(e.subset);
    e := e.(subset := SortKeys(e.subset));
  }

  lemma PassIsTold(e: Explanation, sorted: Explanation, first: seq<Key>, solve: Oracle, elapsed: nat -> real,
                   seconds: real, out: Shrunk, raised: bool)
    requires NoDup(e.subset) && sorted == e.(subset := SortKeys(e.subset)) && out.iterations <= |first|
    requires out.subset == Remaining(first, solve, out.iterations)
    requires raised <==> out.iterations > 0 && Probe(first, solve, out.iterations) == Raises
    requires out.minimal <==> Through(first, solve, elapsed, seconds, out.iterations)
    requires out.removed == |first| - |out.subset| && out.solves == out.iterations
    requires if raised then
               e.state == ExplainedSubset && e.subset == first && !e.exhausted && e.iterations == 0 && e.removed == 0
               && e.solves == 1
             else
               e.state == (if out.minimal then ExplainedMinimal else BudgetExceeded) && e.exhausted == !out.minimal
               && e.subset == out.subset && e.removed == out.removed && e.iterations == out.iterations
               && e.solves == 1 + out.solves
    ensures ToldOfPass(sorted, first, solve, elapsed, seconds, out.iterations)
  {
    hide Probe, Through, Remaining, SortKeys;
    SortKeysKeeps(e.subset);
  }

  /** The literals of the model in reify mode, sorted. */
  method LiteralsInOrder(p: Problem, rules: seq<Rule>) returns (keys: seq<Key>)
    requires Resolved(p) && AllModellable(p, rules)
    ensures NoDup(keys) && KeysInOrder(keys) && Elements(keys) == Elements(Literals(p, rules, true))
    ensures keys == [] <==> Literals(p, rules, true) == []
  {
    hide Literals, MetBy, LeastCost, Extendable;
    var reified := Build(p, rules, true);
    SortKeysKeeps(reified.assumptions);
    SortKeysInOrder(reified.assumptions);
    keys := SortKeys(reified.assumptions);
  }

  // ---------------------------------------------------------------- a claim that is not true

  /** One member is wanted, eligible, and off: nothing is wrong with the snapshot, and no schedule exists
      even if every rule is released. */
  function WantedAndOff(): Problem {
    Problem(0, 0, [1], map[1 := "D"], map["D" := 1], map[1 := false], map[1 := Times(480, 960, false)], map[],
            [7], {(7, 1)}, map[(0, 1) := 1], map[], map[], map[], map[], map[], {(7, 0)}, [])
  }

  const TWO_RULES := [Hard("a", EVERYTHING, MaxCoverage(3)), Hard("b", EVERYTHING, MaxCoverage(4))]

  lemma WantedAndOffIsResolved()
    ensures Resolved(WantedAndOff()) && AllModellable(WantedAndOff(), TWO_RULES)
  {
  }

  lemma CoverageCountsThere()
    ensures CoverageAsks(WantedAndOff(), EVERYTHING)
  {
    var p := WantedAndOff();
    assert CoverageCode(p, EVERYTHING, "D") by { assert 1 in p.shiftIds; }
    assert WindowLength(p, EVERYTHING) == 1;
  }

  lemma BothRulesAsk()
    ensures Resolved(WantedAndOff()) && AllModellable(WantedAndOff(), TWO_RULES)
    ensures RuleAsks(WantedAndOff(), TWO_RULES[0]) && RuleAsks(WantedAndOff(), TWO_RULES[1])
  {
    WantedAndOffIsResolved();
    CoverageCountsThere();
    hide WantedAndOff, Resolved, CoverageAsks;
  }

  lemma NoDemandToAsk()
    ensures !DemandAsks(WantedAndOff())
  {
  }

  /** Both rules post a statement there, about no cell at all, and the demand posts none. */
  lemma TwoLiterals()
    ensures AllModellable(WantedAndOff(), TWO_RULES)
    ensures Elements(Literals(WantedAndOff(), TWO_RULES, true)) == {"a", "b"}
  {
    BothRulesAsk();
    NoDemandToAsk();
    hide RuleAsks, DemandAsks, Literals, WantedAndOff, AllModellable;
    forall k ensures k in Literals(WantedAndOff(), TWO_RULES, true) <==> k in {"a", "b"} {
      LiteralsIff(WantedAndOff(), TWO_RULES, k);
    }
  }

  lemma NothingIsFeasible(s: set<Key>)
    ensures Resolved(WantedAndOff()) && AllModellable(WantedAndOff(), TWO_RULES)
    ensures !Feasible(WantedAndOff(), TWO_RULES, s)
  {
    var p := WantedAndOff();
    assert 1 in p.shiftIds && !Staffable(p, 0, 1) && !SlotPossible(p, 0, 1);
    UnguardedPartIff(p, TWO_RULES);
    Antitone(p, TWO_RULES, {}, s);
  }

  /** With two rules on that problem that both have a literal, no structural finding, a first core of both,
      and a solver that answers every probe correctly and in time, a subset of one key is reported as minimal,
      and is not. */
  method MinimalClaimIsWrong(solve: Oracle, elapsed: nat -> real, seconds: real) returns (e: Explanation)
    requires Answers(solve, elapsed, seconds)
    requires Resolved(WantedAndOff()) && AllModellable(WantedAndOff(), TWO_RULES)
              && Truthful(WantedAndOff(), TWO_RULES, solve)
    ensures e.structural == [] && e.state == ExplainedMinimal && |e.subset| == 1
    ensures !LocallyMinimal(WantedAndOff(), TWO_RULES, Elements(e.subset))
  {
    var p := WantedAndOff();
    var rows: seq<Readiness.Slot> := [(0, 1)];
    NothingIsFeasible({});
    NothingIsFeasible({"a", "b"});
    TwoLiterals();
    assert |{"a", "b"}| == 2;
    assert Readiness.Lists(rows, p.required) && InputsInOrder(p, []);
    hide Feasible, Truthful, Literals, WantedAndOff, Readiness.Exactly;
    e := ExplainInfeasible(p, rows, [], TWO_RULES, Answered(Infeasible, {"a", "b"}), solve, elapsed, seconds);
    NothingIsStructural(e.structural);
    AsManyElements(e.subset);
    MinimalNeedsUnguardedPart(p, TWO_RULES, Elements(e.subset));
  }

  lemma NothingIsStructural(findings: seq<Readiness.Finding>)
    requires Readiness.Exactly(WantedAndOff(), [], None, findings)
    ensures findings == []
  {
    var p := WantedAndOff();
    assert forall i :: 0 <= i < |findings| ==> findings[i] in multiset(findings);
    forall f ensures Readiness.Count(p, [], None, f) == 0 {
      assert Readiness.EligibleFor(p, 1) == {7};
      Readiness.DayDemandPick(p.required, {(0, 1)}, f.date, (0, 1));
      assert p.required.Keys == {(0, 1)};
    }
  }
}
