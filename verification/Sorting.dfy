/** Stable sorting by a key of three integers, and why a sorted list does not remember the order it
    came from. */
module Sorting {
  type Key3 = (int, int, int)

  predicate AtMost(a: Key3, b: Key3) {
    a.0 < b.0 || (a.0 == b.0 && (a.1 < b.1 || (a.1 == b.1 && a.2 <= b.2)))
  }

  predicate SortedBy<T>(s: seq<T>, key: T -> Key3) {
    forall i, j :: 0 <= i < j < |s| ==> AtMost(key(s[i]), key(s[j]))
  }

  predicate KeysDistinct<T(==)>(s: seq<T>, key: T -> Key3) {
    forall i, j :: 0 <= i < j < |s| ==> key(s[i]) != key(s[j])
  }

  /** After the elements with the same key. */
  function Insert<T>(s: seq<T>, x: T, key: T -> Key3): (r: seq<T>)
    ensures multiset(r) == multiset(s) + multiset{x}
  {
    if s == [] then [x]
    else
      var last := s[|s| - 1];
      assert s == s[..|s| - 1] + [last];
      if AtMost(key(last), key(x)) then s + [x] else Insert(s[..|s| - 1], x, key) + [last]
  }

  function Sort<T>(s: seq<T>, key: T -> Key3): (r: seq<T>)
    ensures multiset(r) == multiset(s)
  {
    if s == [] then []
    else
      assert s == s[..|s| - 1] + [s[|s| - 1]];
      Insert(Sort(s[..|s| - 1], key), s[|s| - 1], key)
  }

  lemma SortedAppend<T>(s: seq<T>, x: T, key: T -> Key3)
    requires SortedBy(s, key) && forall y :: y in s ==> AtMost(key(y), key(x))
    ensures SortedBy(s + [x], key)
  {
  }

  lemma {:induction false} InsertSorts<T>(s: seq<T>, x: T, key: T -> Key3)
    requires SortedBy(s, key)
    ensures SortedBy(Insert(s, x, key), key)
  {
    if s != [] {
      var last := s[|s| - 1];
      assert forall y :: y in s ==> AtMost(key(y), key(last));
      if AtMost(key(last), key(x)) {
        SortedAppend(s, x, key);
      } else {
        var init := s[..|s| - 1];
        InsertSorts(init, x, key);
        forall y | y in Insert(init, x, key) ensures AtMost(key(y), key(last)) {
          assert y in multiset(Insert(init, x, key));
          assert y in multiset(init) || y == x;
          assert y in init ==> y in s;
        }
        SortedAppend(Insert(init, x, key), last, key);
      }
    }
  }

  lemma {:induction false} SortSorts<T>(s: seq<T>, key: T -> Key3)
    ensures SortedBy(Sort(s, key), key)
  {
    if s != [] {
      SortSorts(s[..|s| - 1], key);
      InsertSorts(Sort(s[..|s| - 1], key), s[|s| - 1], key);
    }
  }

  lemma SameMembers<T>(a: seq<T>, b: seq<T>)
    requires multiset(a) == multiset(b)
    ensures |a| == |b| && forall x :: x in a <==> x in b
  {
    assert |multiset(a)| == |a| && |multiset(b)| == |b|;
    forall x ensures x in a <==> x in b {
      assert x in a <==> x in multiset(a);
      assert x in b <==> x in multiset(b);
    }
  }

  /** Equal keys mean equal elements. */
  predicate Separates<T(==)>(key: T -> Key3, s: seq<T>) {
    forall i, j :: 0 <= i < |s| && 0 <= j < |s| && key(s[i]) == key(s[j]) ==> s[i] == s[j]
  }

  /** Two sorted lists of the same elements are the same list, if equal keys mean equal elements. */
  lemma {:induction false} SortedIsUnique<T>(a: seq<T>, b: seq<T>, key: T -> Key3)
    requires multiset(a) == multiset(b) && SortedBy(a, key) && SortedBy(b, key) && Separates(key, a)
    ensures a == b
  {
    SameMembers(a, b);
    if a != [] {
      hide SortedBy, Separates;
      HeadsAreSame(a, b, key);
      TailsMatch(a, b);
      TailSorted(a, key);
      TailSorted(b, key);
      SortedIsUnique(a[1..], b[1..], key);
      assert a == [a[0]] + a[1..] && b == [b[0]] + b[1..];
    }
  }

  lemma HeadsAreSame<T>(a: seq<T>, b: seq<T>, key: T -> Key3)
    requires multiset(a) == multiset(b) && SortedBy(a, key) && SortedBy(b, key) && Separates(key, a) && a != []
    ensures b != [] && a[0] == b[0]
  {
    SameMembers(a, b);
    assert a[0] in b && b[0] in a;
    var i :| 0 <= i < |a| && a[i] == b[0];
    var j :| 0 <= j < |b| && b[j] == a[0];
    assert AtMost(key(a[0]), key(a[i])) && AtMost(key(b[0]), key(b[j]));
    assert key(a[0]) == key(a[i]);
  }

  lemma TailsMatch<T>(a: seq<T>, b: seq<T>)
    requires multiset(a) == multiset(b) && a != [] && b != [] && a[0] == b[0]
    ensures multiset(a[1..]) == multiset(b[1..])
  {
    assert a == [a[0]] + a[1..] && b == [b[0]] + b[1..];
    assert multiset(a[1..]) == multiset(a) - multiset{a[0]} && multiset(b[1..]) == multiset(b) - multiset{a[0]};
  }

  lemma TailSorted<T>(s: seq<T>, key: T -> Key3)
    requires s != []
    ensures SortedBy(s, key) ==> SortedBy(s[1..], key)
    ensures Separates(key, s) ==> Separates(key, s[1..])
  {
    var rest := s[1..];
    assert forall i :: 0 <= i < |rest| ==> rest[i] == s[i + 1];
  }

  lemma SeparatesAlike<T>(key: T -> Key3, a: seq<T>, b: seq<T>)
    requires multiset(a) == multiset(b) && Separates(key, a)
    ensures Separates(key, b)
  {
    SameMembers(a, b);
    forall i, j | 0 <= i < |b| && 0 <= j < |b| && key(b[i]) == key(b[j]) ensures b[i] == b[j] {
      assert b[i] in b && b[j] in b;
      var k :| 0 <= k < |a| && a[k] == b[i];
      var l :| 0 <= l < |a| && a[l] == b[j];
    }
  }

  /** So sorting forgets the order of its input. */
  lemma SortForgetsOrder<T>(a: seq<T>, b: seq<T>, key: T -> Key3)
    requires multiset(a) == multiset(b) && Separates(key, a)
    ensures Sort(a, key) == Sort(b, key)
  {
    SortSorts(a, key);
    SortSorts(b, key);
    var c, d := Sort(a, key), Sort(b, key);
    SeparatesAlike(key, a, c);
    SortedIsUnique(c, d, key);
  }

  lemma {:induction false} DistinctCounts<T>(s: seq<T>, key: T -> Key3, x: T)
    requires KeysDistinct(s, key)
    ensures multiset(s)[x] <= 1
  {
    if s != [] {
      var n := |s| - 1;
      DistinctCounts(s[..n], key, x);
      assert s == s[..n] + [s[n]];
      if s[n] == x {
        assert forall i :: 0 <= i < n ==> s[i] != x;
        assert x !in s[..n];
      }
    }
  }

  lemma TwiceCounts<T>(s: seq<T>, i: nat, j: nat)
    requires i < j < |s| && s[i] == s[j]
    ensures multiset(s)[s[i]] >= 2
  {
    assert s == s[..j] + s[j..];
    assert s[i] in s[..j] && s[j] in s[j..];
  }

  /** Sorting keeps distinct keys distinct. */
  lemma SortKeepsDistinct<T>(s: seq<T>, key: T -> Key3)
    requires KeysDistinct(s, key)
    ensures KeysDistinct(Sort(s, key), key)
  {
    var r := Sort(s, key);
    SameMembers(s, r);
    forall i, j | 0 <= i < j < |r| ensures key(r[i]) != key(r[j]) {
      assert r[i] in multiset(s) && r[j] in multiset(s);
      var k :| 0 <= k < |s| && s[k] == r[i];
      var l :| 0 <= l < |s| && s[l] == r[j];
      if k == l {
        DistinctCounts(s, key, r[i]);
        TwiceCounts(r, i, j);
        assert false;
      }
    }
  }
}
