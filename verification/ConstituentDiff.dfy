/** The staleness comparison: the constituents pinned when a build was posed, and those in force now.
    Kinds, keys and revisions are strings of which only equality and one fixed order are used, so they
    are integers here. */
module ConstituentDiff {
  import opened Wrappers
  import opened Sorting

  type Text = int
  type Ident = (Text, Text)

  datatype Constituent = Constituent(kind: Text, key: Text, revision: Text)
  datatype Direction = Added | Moved | Removed
  datatype Change = Change(kind: Text, key: Text, direction: Direction, pinned: Option<Text>, current: Option<Text>)
  datatype Class = Class(kind: Text, direction: Direction, count: nat)

  const CHANGE_LIMIT := 20

  function Rank(d: Direction): int {
    match d
    case Added => 0
    case Moved => 1
    case Removed => 2
  }

  function ChangeKey(c: Change): Key3 {
    (c.kind, c.key, Rank(c.direction))
  }

  function ClassKey(c: Class): Key3 {
    (c.kind, Rank(c.direction), 0)
  }

  function At(c: Change): Ident {
    (c.kind, c.key)
  }

  /** The revisions by kind and key; a repeated constituent keeps its last revision. */
  function Revisions(list: seq<Constituent>): map<Ident, Text> {
    if list == [] then map[]
    else Revisions(list[..|list| - 1])[(list[|list| - 1].kind, list[|list| - 1].key) := list[|list| - 1].revision]
  }

  // ---------------------------------------------------------------- what a comparison is

  function Lookup(m: map<Ident, Text>, id: Ident): Option<Text> {
    if id in m then Some(m[id]) else None
  }

  predicate IsChange(pinned: map<Ident, Text>, current: map<Ident, Text>, c: Change) {
    && c.pinned == Lookup(pinned, At(c)) && c.current == Lookup(current, At(c)) && c.pinned != c.current
    && c.direction == if c.current.None? then Removed else if c.pinned.None? then Added else Moved
  }

  ghost predicate Distinct(cs: seq<Change>) {
    forall i, j :: 0 <= i < j < |cs| ==> At(cs[i]) != At(cs[j])
  }

  /** The full change list: every change once, in order. */
  ghost predicate IsDiff(pinned: map<Ident, Text>, current: map<Ident, Text>, cs: seq<Change>) {
    SortedBy(cs, ChangeKey) && Distinct(cs) && forall c :: c in cs <==> IsChange(pinned, current, c)
  }

  function OfClass(cs: seq<Change>, kind: Text, direction: Direction): nat {
    if cs == [] then 0
    else OfClass(cs[..|cs| - 1], kind, direction)
         + if cs[|cs| - 1].kind == kind && cs[|cs| - 1].direction == direction then 1 else 0
  }

  function Total(classes: seq<Class>): nat {
    if classes == [] then 0 else Total(classes[..|classes| - 1]) + classes[|classes| - 1].count
  }

  /** Every class of change once, with its complete count. */
  ghost predicate Classifies(classes: seq<Class>, cs: seq<Change>) {
    && KeysDistinct(classes, ClassKey)
    && (forall c :: c in classes ==> c.count == OfClass(cs, c.kind, c.direction) > 0)
    && (forall c :: c in cs ==> Class(c.kind, c.direction, OfClass(cs, c.kind, c.direction)) in classes)
    && Total(classes) == |cs|
  }

  // ---------------------------------------------------------------- classesOf

  lemma {:induction false} TotalUpdate(classes: seq<Class>, at: nat, c: Class)
    requires at < |classes|
    ensures Total(classes[at := c]) == Total(classes) - classes[at].count + c.count
  {
    var n := |classes| - 1;
    if at < n {
      TotalUpdate(classes[..n], at, c);
      assert classes[at := c][..n] == classes[..n][at := c];
    } else {
      assert classes[at := c][..n] == classes[..n];
    }
  }

  lemma {:induction false} TotalOfInsert(s: seq<Class>, x: Class)
    ensures Total(Insert(s, x, ClassKey)) == Total(s) + x.count
  {
    if s != [] {
      var n := |s| - 1;
      if AtMost(ClassKey(s[n]), ClassKey(x)) {
        assert (s + [x])[..|s + [x]| - 1] == s;
      } else {
        var r := Insert(s[..n], x, ClassKey);
        TotalOfInsert(s[..n], x);
        assert (r + [s[n]])[..|r + [s[n]]| - 1] == r;
      }
    }
  }

  lemma {:induction false} TotalOfSort(s: seq<Class>)
    ensures Total(Sort(s, ClassKey)) == Total(s)
  {
    if s != [] {
      TotalOfSort(s[..|s| - 1]);
      TotalOfInsert(Sort(s[..|s| - 1], ClassKey), s[|s| - 1]);
    }
  }

  lemma SortClassifies(classes: seq<Class>, cs: seq<Change>)
    requires Classifies(classes, cs)
    ensures Classifies(Sort(classes, ClassKey), cs)
  {
    SortKeepsDistinct(classes, ClassKey);
    TotalOfSort(classes);
    SameMembers(classes, Sort(classes, ClassKey));
  }

  ghost predicate GrowsBy(cs: seq<Change>, c: Change, kind: Text, direction: Direction) {
    OfClass(cs + [c], kind, direction)
    == OfClass(cs, kind, direction) + if c.kind == kind && c.direction == direction then 1 else 0
  }

  /** One more change goes to its class, or opens it. */
  lemma CountsOn(classes: seq<Class>, cs: seq<Change>, c: Change, at: nat)
    requires Classifies(classes, cs) && at <= |classes|
    requires at < |classes| ==> classes[at].kind == c.kind && classes[at].direction == c.direction
    requires at == |classes| ==> forall i :: 0 <= i < at ==>
              !(classes[i].kind == c.kind && classes[i].direction == c.direction)
    ensures Classifies(
              if at < |classes| then classes[at := classes[at].(count := classes[at].count + 1)]
              else classes + [Class(c.kind, c.direction, 1)],
              cs + [c])
  {
    assert (cs + [c])[..|cs|] == cs;
    assert forall kind, direction :: GrowsBy(cs, c, kind, direction);
    hide OfClass, KeysDistinct;
    if at < |classes| {
      var next := classes[at := classes[at].(count := classes[at].count + 1)];
      TotalUpdate(classes, at, next[at]);
      Reclassed(classes, next, at, cs, c);
    } else {
      var next := classes + [Class(c.kind, c.direction, 1)];
      assert next[..|next| - 1] == classes;
      NewlyClassed(classes, next, cs, c);
    }
  }

  lemma NewlyClassed(classes: seq<Class>, next: seq<Class>, cs: seq<Change>, c: Change)
    requires Classifies(classes, cs) && next == classes + [Class(c.kind, c.direction, 1)]
    requires forall i :: 0 <= i < |classes| ==> !(classes[i].kind == c.kind && classes[i].direction == c.direction)
    requires forall kind, direction :: GrowsBy(cs, c, kind, direction)
    ensures KeysDistinct(next, ClassKey)
    ensures forall e :: e in next ==> e.count == OfClass(cs + [c], e.kind, e.direction) > 0
    ensures forall e :: e in cs + [c] ==> Class(e.kind, e.direction, OfClass(cs + [c], e.kind, e.direction)) in next
  {
    hide OfClass;
    Unclassed(classes, cs, c);
    forall e | e in next ensures e.count == OfClass(cs + [c], e.kind, e.direction) > 0 {
      assert GrowsBy(cs, c, e.kind, e.direction);
    }
    forall e | e in cs + [c] ensures Class(e.kind, e.direction, OfClass(cs + [c], e.kind, e.direction)) in next {
      assert GrowsBy(cs, c, e.kind, e.direction);
      if e in cs && !(e.kind == c.kind && e.direction == c.direction) {
        assert Class(e.kind, e.direction, OfClass(cs, e.kind, e.direction)) in classes;
      } else {
        assert next[|classes|] == Class(e.kind, e.direction, 1);
      }
    }
  }

  lemma Unclassed(classes: seq<Class>, cs: seq<Change>, c: Change)
    requires Classifies(classes, cs)
    requires forall i :: 0 <= i < |classes| ==> !(classes[i].kind == c.kind && classes[i].direction == c.direction)
    ensures OfClass(cs, c.kind, c.direction) == 0
    ensures forall e :: e in cs ==> !(e.kind == c.kind && e.direction == c.direction)
  {
    forall e | e in cs ensures !(e.kind == c.kind && e.direction == c.direction) {
      var i :| 0 <= i < |classes| && classes[i] == Class(e.kind, e.direction, OfClass(cs, e.kind, e.direction));
    }
    NoneOfClass(cs, c.kind, c.direction);
  }

  lemma {:induction false} NoneOfClass(cs: seq<Change>, kind: Text, direction: Direction)
    requires forall e :: e in cs ==> !(e.kind == kind && e.direction == direction)
    ensures OfClass(cs, kind, direction) == 0
  {
    if cs != [] {
      assert forall e :: e in cs[..|cs| - 1] ==> e in cs;
      NoneOfClass(cs[..|cs| - 1], kind, direction);
    }
  }

  lemma Reclassed(classes: seq<Class>, next: seq<Class>, at: nat, cs: seq<Change>, c: Change)
    requires Classifies(classes, cs) && at < |classes|
    requires classes[at].kind == c.kind && classes[at].direction == c.direction
    requires next == classes[at := classes[at].(count := classes[at].count + 1)]
    requires forall kind, direction :: GrowsBy(cs, c, kind, direction)
    ensures KeysDistinct(next, ClassKey)
    ensures forall e :: e in next ==> e.count == OfClass(cs + [c], e.kind, e.direction) > 0
    ensures forall e :: e in cs + [c] ==> Class(e.kind, e.direction, OfClass(cs + [c], e.kind, e.direction)) in next
  {
    assert forall i :: 0 <= i < |next| ==> ClassKey(next[i]) == ClassKey(classes[i]);
    forall e | e in next ensures e.count == OfClass(cs + [c], e.kind, e.direction) > 0 {
      var i :| 0 <= i < |next| && next[i] == e;
      assert classes[i] in classes;
      if i != at { assert ClassKey(classes[i]) != ClassKey(classes[at]); }
    }
    forall e | e in cs + [c] ensures Class(e.kind, e.direction, OfClass(cs + [c], e.kind, e.direction)) in next {
      if e.kind == c.kind && e.direction == c.direction {
        assert next[at] in next && classes[at] in classes;
        assert next[at] == Class(e.kind, e.direction, OfClass(cs + [c], e.kind, e.direction));
      } else {
        var i :| 0 <= i < |classes| && classes[i] == Class(e.kind, e.direction, OfClass(cs, e.kind, e.direction));
        assert next[i] == classes[i];
      }
    }
  }

  method ClassesOf(cs: seq<Change>) returns (classes: seq<Class>)
    ensures Classifies(classes, cs) && SortedBy(classes, ClassKey)
  {
    classes := [];
    for i := 0 to |cs|
      invariant Classifies(classes, cs[..i])
    {
      var c := cs[i];
      assert cs[..i + 1] == cs[..i] + [c];
      var at := 0;
      while at < |classes| && !(classes[at].kind == c.kind && classes[at].direction == c.direction)
        invariant at <= |classes|
        invariant forall k :: 0 <= k < at ==> !(classes[k].kind == c.kind && classes[k].direction == c.direction)
      {
        at := at + 1;
      }
      CountsOn(classes, cs[..i], c, at);
      if at < |classes| {
        classes := classes[at := classes[at].(count := classes[at].count + 1)];
      } else {
        classes := classes + [Class(c.kind, c.direction, 1)];
      }
    }
    assert cs[..|cs|] == cs;
    SortClassifies(classes, cs);
    SortSorts(classes, ClassKey);
    classes := Sort(classes, ClassKey);
  }

  // ---------------------------------------------------------------- compareConstituents

  /** A list as a map that remembers the order of first appearance. */
  method ByKey(list: seq<Constituent>) returns (order: seq<Ident>, revisions: map<Ident, Text>)
    ensures revisions == Revisions(list)
    ensures (forall i, j :: 0 <= i < j < |order| ==> order[i] != order[j])
    ensures forall id :: id in order <==> id in revisions
  {
    order, revisions := [], map[];
    for i := 0 to |list|
      invariant revisions == Revisions(list[..i])
      invariant forall k, j :: 0 <= k < j < |order| ==> order[k] != order[j]
      invariant forall id :: id in order <==> id in revisions
    {
      assert list[..i + 1][..i] == list[..i];
      var id := (list[i].kind, list[i].key);
      if id !in revisions { order := order + [id]; }
      revisions := revisions[id := list[i].revision];
    }
    assert list[..|list|] == list;
  }

  /** The changes at some identifiers. */
  ghost predicate Collects(pinned: map<Ident, Text>, current: map<Ident, Text>, cs: seq<Change>, ids: set<Ident>) {
    Distinct(cs) && forall c :: c in cs <==> IsChange(pinned, current, c) && At(c) in ids
  }

  lemma CollectsNothing(pinned: map<Ident, Text>, current: map<Ident, Text>)
    ensures Collects(pinned, current, [], {})
  {
  }

  lemma CollectsOne(pinned: map<Ident, Text>, current: map<Ident, Text>, cs: seq<Change>, ids: set<Ident>, c: Change)
    requires Collects(pinned, current, cs, ids) && At(c) !in ids && IsChange(pinned, current, c)
    ensures Collects(pinned, current, cs + [c], ids + {At(c)})
  {
  }

  lemma CollectsNone(pinned: map<Ident, Text>, current: map<Ident, Text>, cs: seq<Change>, ids: set<Ident>, id: Ident)
    requires Collects(pinned, current, cs, ids) && Lookup(pinned, id) == Lookup(current, id)
    ensures Collects(pinned, current, cs, ids + {id})
  {
  }

  lemma SortedDiff(pinned: map<Ident, Text>, current: map<Ident, Text>, cs: seq<Change>)
    requires Collects(pinned, current, cs, pinned.Keys + current.Keys)
    ensures IsDiff(pinned, current, Sort(cs, ChangeKey))
  {
    var all := Sort(cs, ChangeKey);
    SortSorts(cs, ChangeKey);
    SortKeepsDistinct(cs, ChangeKey);
    SameMembers(cs, all);
    forall i, j | 0 <= i < j < |all| ensures At(all[i]) != At(all[j]) {
      assert ChangeKey(all[i]) != ChangeKey(all[j]);
      assert all[i] in all && all[j] in all;
      assert IsChange(pinned, current, all[i]) && IsChange(pinned, current, all[j]);
    }
  }

  method CompareConstituents(pinned: seq<Constituent>, current: seq<Constituent>)
      returns (changes: seq<Change>, changeCount: nat, classes: seq<Class>, ghost all: seq<Change>)
    ensures IsDiff(Revisions(pinned), Revisions(current), all)
    ensures changes == if |all| <= 20 then all else all[..20]
    ensures changeCount == |all|
    ensures Classifies(classes, all) && SortedBy(classes, ClassKey)
    ensures Total(classes) == changeCount
    ensures changeCount == 0 <==> Revisions(pinned) == Revisions(current)
  {
    hide Collects, IsDiff, Classifies, SortedBy, Sort, Revisions;
    var pinnedOrder, before := ByKey(pinned);
    var currentOrder, after := ByKey(current);
    var cs: seq<Change> := [];
    ghost var ids: set<Ident> := {};
    CollectsNothing(before, after);
    for i := 0 to |pinnedOrder|
      invariant Collects(before, after, cs, ids) && forall id :: id in ids <==> id in pinnedOrder[..i]
    {
      var id := pinnedOrder[i];
      assert id in pinnedOrder && pinnedOrder[..i + 1] == pinnedOrder[..i] + [id] && id !in pinnedOrder[..i];
      var c := Change(id.0, id.1, if id in after then Moved else Removed, Some(before[id]), Lookup(after, id));
      if id !in after || after[id] != before[id] {
        CollectsOne(before, after, cs, ids, c);
        cs := cs + [c];
      } else {
        CollectsNone(before, after, cs, ids, id);
      }
      ids := ids + {id};
    }
    assert pinnedOrder[..|pinnedOrder|] == pinnedOrder;
    for i := 0 to |currentOrder|
      invariant Collects(before, after, cs, ids)
      invariant forall id :: id in ids <==> id in before || id in currentOrder[..i]
    {
      var id := currentOrder[i];
      assert id in currentOrder && currentOrder[..i + 1] == currentOrder[..i] + [id] && id !in currentOrder[..i];
      if id !in before {
        var c := Change(id.0, id.1, Added, None, Some(after[id]));
        CollectsOne(before, after, cs, ids, c);
        cs := cs + [c];
      } else {
        assert ids + {id} == ids;
      }
      ids := ids + {id};
    }
    assert currentOrder[..|currentOrder|] == currentOrder;
    assert ids == before.Keys + after.Keys;
    SortedDiff(before, after, cs);
    var sorted := Sort(cs, ChangeKey);
    all := sorted;
    EmptyDiff(before, after, all);
    classes := ClassesOf(sorted);
    changes := if |sorted| <= CHANGE_LIMIT then sorted else sorted[..CHANGE_LIMIT];
    changeCount := |sorted|;
  }

  // ---------------------------------------------------------------- what the list is good for

  lemma EmptyDiff(pinned: map<Ident, Text>, current: map<Ident, Text>, cs: seq<Change>)
    requires IsDiff(pinned, current, cs)
    ensures cs == [] <==> pinned == current
  {
    if cs == [] {
      forall id ensures Lookup(pinned, id) == Lookup(current, id) {
        var c := Change(id.0, id.1,
                        if id !in current then Removed else if id !in pinned then Added else Moved,
                        Lookup(pinned, id), Lookup(current, id));
        assert !IsChange(pinned, current, c);
      }
      assert pinned.Keys == current.Keys by {
        assert forall id :: id in pinned <==> Lookup(pinned, id).Some?;
        assert forall id :: id in current <==> Lookup(current, id).Some?;
      }
      assert forall id :: id in pinned ==>
        Lookup(pinned, id) == Some(pinned[id]) && Lookup(current, id) == Some(current[id]);
    } else {
      assert cs[0] in cs;
    }
  }

  /** What an entry says: added is in force now and was not pinned, removed was pinned and is not in force
      any more, and moved is both with another revision. Everything else has no entry. */
  lemma EntriesSay(pinned: map<Ident, Text>, current: map<Ident, Text>, cs: seq<Change>, kind: Text, key: Text)
    requires IsDiff(pinned, current, cs)
    ensures forall r :: Change(kind, key, Added, None, Some(r)) in cs <==>
              (kind, key) !in pinned && (kind, key) in current && current[(kind, key)] == r
    ensures forall r :: Change(kind, key, Removed, Some(r), None) in cs <==>
              (kind, key) in pinned && pinned[(kind, key)] == r && (kind, key) !in current
    ensures forall r, q :: Change(kind, key, Moved, Some(r), Some(q)) in cs <==>
              (kind, key) in pinned && (kind, key) in current
              && pinned[(kind, key)] == r != q == current[(kind, key)]
    ensures forall c :: c in cs ==>
              (c.direction == Added && c.pinned.None? && c.current.Some?)
              || (c.direction == Removed && c.pinned.Some? && c.current.None?)
              || (c.direction == Moved && c.pinned.Some? && c.current.Some?)
  {
  }

  predicate BeforeOrIs(a: Direction, b: Direction) {
    match a
    case Added => true
    case Moved => b != Added
    case Removed => b == Removed
  }

  /** The entries come by kind and then by key, and the classes by kind, with added before moved before
      removed. */
  lemma InOrder(pinned: map<Ident, Text>, current: map<Ident, Text>, cs: seq<Change>, classes: seq<Class>)
    requires IsDiff(pinned, current, cs) && Classifies(classes, cs) && SortedBy(classes, ClassKey)
    ensures forall i, j :: 0 <= i < j < |cs| ==>
              cs[i].kind < cs[j].kind || (cs[i].kind == cs[j].kind && cs[i].key < cs[j].key)
    ensures forall i, j :: 0 <= i < j < |classes| ==>
              classes[i].kind < classes[j].kind
              || (classes[i].kind == classes[j].kind && classes[i].direction != classes[j].direction
                  && BeforeOrIs(classes[i].direction, classes[j].direction))
  {
    forall i, j | 0 <= i < j < |cs|
      ensures cs[i].kind < cs[j].kind || (cs[i].kind == cs[j].kind && cs[i].key < cs[j].key)
    {
      assert AtMost(ChangeKey(cs[i]), ChangeKey(cs[j])) && At(cs[i]) != At(cs[j]);
    }
    forall i, j | 0 <= i < j < |classes|
      ensures classes[i].kind < classes[j].kind
              || (classes[i].kind == classes[j].kind && classes[i].direction != classes[j].direction
                  && BeforeOrIs(classes[i].direction, classes[j].direction))
    {
      assert AtMost(ClassKey(classes[i]), ClassKey(classes[j])) && ClassKey(classes[i]) != ClassKey(classes[j]);
    }
  }

  function ApplyOne(m: map<Ident, Text>, c: Change): map<Ident, Text> {
    if c.current.None? then m - {At(c)} else m[At(c) := c.current.value]
  }

  function Apply(m: map<Ident, Text>, cs: seq<Change>): map<Ident, Text> {
    if cs == [] then m else ApplyOne(Apply(m, cs[..|cs| - 1]), cs[|cs| - 1])
  }

  lemma ApplyOneAt(m: map<Ident, Text>, c: Change, id: Ident)
    ensures Lookup(ApplyOne(m, c), id) == if At(c) == id then c.current else Lookup(m, id)
  {
  }

  lemma {:induction false} ApplyAt(m: map<Ident, Text>, cs: seq<Change>, id: Ident)
    requires Distinct(cs)
    ensures (forall c :: c in cs ==> At(c) != id) ==> Lookup(Apply(m, cs), id) == Lookup(m, id)
    ensures forall c :: c in cs && At(c) == id ==> Lookup(Apply(m, cs), id) == c.current
  {
    if cs != [] {
      var init, last := cs[..|cs| - 1], cs[|cs| - 1];
      assert cs == init + [last];
      ApplyAt(m, init, id);
      ApplyOneAt(Apply(m, init), last, id);
      assert Apply(m, cs) == ApplyOne(Apply(m, init), last);
      LastIsNew(cs);
      if At(last) == id {
        assert forall c :: c in cs && At(c) == id ==> c == last;
      } else {
        assert forall c :: c in cs && At(c) == id ==> c in init;
      }
    }
  }

  lemma LastIsNew(cs: seq<Change>)
    requires cs != [] && Distinct(cs)
    ensures forall c :: c in cs[..|cs| - 1] ==> At(c) != At(cs[|cs| - 1])
  {
  }

  /** Applying the full change list to the pinned map gives the current one. */
  lemma ApplyGivesCurrent(pinned: map<Ident, Text>, current: map<Ident, Text>, cs: seq<Change>)
    requires IsDiff(pinned, current, cs)
    ensures Apply(pinned, cs) == current
  {
    var out := Apply(pinned, cs);
    forall id ensures Lookup(out, id) == Lookup(current, id) {
      ApplyAt(pinned, cs, id);
      if Lookup(pinned, id) != Lookup(current, id) {
        var c := Change(id.0, id.1,
                        if id !in current then Removed else if id !in pinned then Added else Moved,
                        Lookup(pinned, id), Lookup(current, id));
        assert IsChange(pinned, current, c);
        assert c in cs;
      } else {
        forall c | c in cs ensures At(c) != id {
          assert IsChange(pinned, current, c);
        }
      }
    }
    assert forall id :: id in out <==> Lookup(out, id).Some?;
    assert forall id :: id in current <==> Lookup(current, id).Some?;
    assert forall id :: id in out ==> Lookup(out, id) == Some(out[id]);
    assert out.Keys == current.Keys;
  }

  function Swap(c: Change): Change {
    Change(c.kind, c.key, match c.direction case Added => Removed case Removed => Added case Moved => Moved,
           c.current, c.pinned)
  }

  function Swapped(cs: seq<Change>): seq<Change> {
    seq(|cs|, i requires 0 <= i < |cs| => Swap(cs[i]))
  }

  /** Comparing the other way round swaps added and removed, entry by entry. */
  lemma DiffSwaps(pinned: map<Ident, Text>, current: map<Ident, Text>, cs: seq<Change>)
    requires IsDiff(pinned, current, cs)
    ensures IsDiff(current, pinned, Swapped(cs))
  {
    var out := Swapped(cs);
    forall i, j | 0 <= i < j < |out| ensures AtMost(ChangeKey(out[i]), ChangeKey(out[j])) && At(out[i]) != At(out[j]) {
      assert AtMost(ChangeKey(cs[i]), ChangeKey(cs[j])) && At(cs[i]) != At(cs[j]);
    }
    forall c ensures c in out <==> IsChange(current, pinned, c) {
      if c in out {
        var i :| 0 <= i < |out| && out[i] == c;
        assert cs[i] in cs;
      }
      if IsChange(current, pinned, c) {
        assert IsChange(pinned, current, Swap(c));
        assert Swap(c) in cs;
        var i :| 0 <= i < |cs| && cs[i] == Swap(c);
        assert out[i] == c;
      }
    }
  }

  lemma DiffMultiset(cs: seq<Change>, x: Change)
    requires Distinct(cs)
    ensures multiset(cs)[x] == if x in cs then 1 else 0
  {
    assert KeysDistinct(cs, ChangeKey);
    DistinctCounts(cs, ChangeKey, x);
    assert x in cs <==> x in multiset(cs);
  }

  /** The list depends on the two maps alone, so not on the order of the inputs. */
  lemma DiffIsUnique(pinned: map<Ident, Text>, current: map<Ident, Text>, a: seq<Change>, b: seq<Change>)
    requires IsDiff(pinned, current, a) && IsDiff(pinned, current, b)
    ensures a == b
  {
    forall x ensures multiset(a)[x] == multiset(b)[x] {
      DiffMultiset(a, x);
      DiffMultiset(b, x);
    }
    assert multiset(a) == multiset(b);
    SortedIsUnique(a, b, ChangeKey);
  }

  lemma {:induction false} CountedThere(cs: seq<Change>, kind: Text, direction: Direction)
    requires OfClass(cs, kind, direction) > 0
    ensures exists c :: c in cs && c.kind == kind && c.direction == direction
  {
    var n := |cs| - 1;
    if !(cs[n].kind == kind && cs[n].direction == direction) {
      CountedThere(cs[..n], kind, direction);
      var c :| c in cs[..n] && c.kind == kind && c.direction == direction;
      assert c in cs;
    }
  }

  /** The classes of a list of changes are those with a change, each with the number of them. */
  lemma ClassIsThere(classes: seq<Class>, cs: seq<Change>, x: Class)
    requires Classifies(classes, cs)
    ensures x in classes <==> x.count == OfClass(cs, x.kind, x.direction) > 0
    ensures multiset(classes)[x] == if x in classes then 1 else 0
  {
    if x.count == OfClass(cs, x.kind, x.direction) > 0 {
      CountedThere(cs, x.kind, x.direction);
    }
    DistinctCounts(classes, ClassKey, x);
    assert x in classes <==> x in multiset(classes);
  }

  /** The class list too depends on the changes alone. */
  lemma ClassesAreUnique(cs: seq<Change>, a: seq<Class>, b: seq<Class>)
    requires Classifies(a, cs) && SortedBy(a, ClassKey) && Classifies(b, cs) && SortedBy(b, ClassKey)
    ensures a == b
  {
    hide Classifies, OfClass;
    forall x ensures multiset(a)[x] == multiset(b)[x] {
      ClassIsThere(a, cs, x);
      ClassIsThere(b, cs, x);
    }
    assert multiset(a) == multiset(b);
    DistinctSeparates(a, cs);
    SortedIsUnique(a, b, ClassKey);
  }

  lemma DistinctSeparates(classes: seq<Class>, cs: seq<Change>)
    requires Classifies(classes, cs)
    ensures Separates(ClassKey, classes)
  {
  }

  ghost predicate DistinctConstituents(list: seq<Constituent>) {
    forall i, j :: 0 <= i < j < |list| ==> (list[i].kind, list[i].key) != (list[j].kind, list[j].key)
  }

  lemma TwoAreDistinct(a: Constituent, b: Constituent)
    ensures DistinctConstituents([a]) && (DistinctConstituents([a, b]) <==> a.kind != b.kind || a.key != b.key)
  {
    assert [a, b][0] == a && [a, b][1] == b;
  }

  lemma {:induction false} RevisionsAt(list: seq<Constituent>, id: Ident)
    requires DistinctConstituents(list)
    ensures Lookup(Revisions(list), id).Some? ==>
              Constituent(id.0, id.1, Revisions(list)[id]) in list
    ensures forall c :: c in list && (c.kind, c.key) == id ==> Lookup(Revisions(list), id) == Some(c.revision)
  {
    if list != [] {
      var init, last := list[..|list| - 1], list[|list| - 1];
      assert list == init + [last];
      RevisionsAt(init, id);
      forall c | c in init ensures (c.kind, c.key) != (last.kind, last.key) {
        var i :| 0 <= i < |init| && init[i] == c;
        assert list[i] == c;
      }
    }
  }

  /** Two orders of the same distinct constituents are the same map. */
  lemma RevisionsForgetOrder(a: seq<Constituent>, b: seq<Constituent>)
    requires DistinctConstituents(a) && DistinctConstituents(b) && forall c :: c in a <==> c in b
    ensures Revisions(a) == Revisions(b)
  {
    var m, n := Revisions(a), Revisions(b);
    forall id ensures Lookup(m, id) == Lookup(n, id) {
      RevisionsAt(a, id);
      RevisionsAt(b, id);
    }
    assert forall id :: id in m <==> Lookup(m, id).Some?;
    assert forall id :: id in n <==> Lookup(n, id).Some?;
    assert forall id :: id in m ==> Lookup(m, id) == Some(m[id]);
    assert m.Keys == n.Keys;
  }
}
