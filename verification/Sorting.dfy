/** Stable sorting by an integer key. */
module Sorting {

  /** The items with key `k`, in their order. */
  function WithKey<T>(key: T -> int, k: int, s: seq<T>): seq<T> {
    if s == [] then []
    else
      var n := |s| - 1;
      WithKey(key, k, s[..n]) + if key(s[n]) == k then [s[n]] else []
  }

  predicate SortedBy<T>(key: T -> int, s: seq<T>) {
    forall i, j :: 0 <= i < j < |s| ==> key(s[i]) <= key(s[j])
  }

  predicate SameAt<T(==)>(key: T -> int, a: seq<T>, b: seq<T>, k: int) {
    WithKey(key, k, a) == WithKey(key, k, b)
  }

  /** Key by key, the same items in the same order. */
  ghost predicate SameByKey<T(!new)>(key: T -> int, a: seq<T>, b: seq<T>) {
    forall k :: SameAt(key, a, b, k)
  }

  /** What a stable sort promises: the keys ascend, and items with the same key keep their order. */
  ghost predicate IsStableSort<T(!new)>(key: T -> int, s: seq<T>, r: seq<T>) {
    SortedBy(key, r) && SameByKey(key, r, s)
  }

  function InsertAfter<T>(key: T -> int, s: seq<T>, x: T): seq<T> {
    if s == [] || key(s[|s| - 1]) <= key(x) then s + [x]
    else InsertAfter(key, s[..|s| - 1], x) + [s[|s| - 1]]
  }

  function StableSort<T>(key: T -> int, s: seq<T>): seq<T> {
    if s == [] then [] else InsertAfter(key, StableSort(key, s[..|s| - 1]), s[|s| - 1])
  }

  lemma {:induction false} WithKeyAppend<T>(key: T -> int, k: int, a: seq<T>, b: seq<T>)
    ensures WithKey(key, k, a + b) == WithKey(key, k, a) + WithKey(key, k, b)
    decreases |b|
  {
    if b == [] {
      assert a + b == a;
    } else {
      var n := |b| - 1;
      var ab := a + b;
      assert ab[..|ab| - 1] == a + b[..n] && ab[|ab| - 1] == b[n];
      WithKeyAppend(key, k, a, b[..n]);
    }
  }

  lemma {:induction false} InsertSorts<T>(key: T -> int, s: seq<T>, x: T)
    requires SortedBy(key, s)
    ensures SortedBy(key, InsertAfter(key, s, x))
    ensures forall y :: y in InsertAfter(key, s, x) ==> y == x || y in s
    decreases |s|
  {
    if s != [] && key(s[|s| - 1]) > key(x) {
      var front, last := s[..|s| - 1], s[|s| - 1];
      InsertSorts(key, front, x);
      var r := InsertAfter(key, front, x);
      assert s == front + [last];
      forall i | 0 <= i < |r| ensures key(r[i]) <= key(last) {
        assert r[i] in r;
        if r[i] in front {
          var j :| 0 <= j < |front| && front[j] == r[i];
          assert s[j] == r[i] && s[|s| - 1] == last;
        }
      }
    }
  }

  lemma {:induction false} WithKeySnoc<T>(key: T -> int, k: int, s: seq<T>, x: T)
    ensures WithKey(key, k, s + [x]) == if key(x) == k then WithKey(key, k, s) + [x] else WithKey(key, k, s)
  {
    assert (s + [x])[..|s|] == s;
  }

  lemma {:induction false} InsertPast<T>(key: T -> int, k: int, inserted: seq<T>, front: seq<T>, last: T, x: T)
    requires key(last) > key(x) && WithKey(key, k, inserted) == WithKey(key, k, front + [x])
    ensures WithKey(key, k, inserted + [last]) == WithKey(key, k, front + [last] + [x])
  {
    WithKeySnoc(key, k, inserted, last);
    WithKeySnoc(key, k, front, x);
    WithKeySnoc(key, k, front + [last], x);
    WithKeySnoc(key, k, front, last);
  }

  lemma {:induction false} InsertKeepsKeys<T>(key: T -> int, k: int, s: seq<T>, x: T)
    ensures WithKey(key, k, InsertAfter(key, s, x)) == WithKey(key, k, s + [x])
    decreases |s|
  {
    if s != [] && key(s[|s| - 1]) > key(x) {
      var front, last := s[..|s| - 1], s[|s| - 1];
      InsertKeepsKeys(key, k, front, x);
      InsertPast(key, k, InsertAfter(key, front, x), front, last, x);
      assert s == front + [last];
    }
  }

  lemma {:induction false} InsertIsSnoc<T>(key: T -> int, k: int, sorted: seq<T>, front: seq<T>, last: T)
    requires WithKey(key, k, sorted) == WithKey(key, k, front)
    ensures WithKey(key, k, InsertAfter(key, sorted, last)) == WithKey(key, k, front + [last])
  {
    InsertKeepsKeys(key, k, sorted, last);
    WithKeySnoc(key, k, sorted, last);
    WithKeySnoc(key, k, front, last);
  }

  lemma {:induction false} InsertIsStable<T(!new)>(key: T -> int, sorted: seq<T>, front: seq<T>, last: T)
    requires IsStableSort(key, front, sorted)
    ensures IsStableSort(key, front + [last], InsertAfter(key, sorted, last))
  {
    InsertSorts(key, sorted, last);
    forall k ensures SameAt(key, InsertAfter(key, sorted, last), front + [last], k) {
      assert SameAt(key, sorted, front, k);
      InsertIsSnoc(key, k, sorted, front, last);
    }
  }

  lemma {:induction false} StableSortIsStable<T(!new)>(key: T -> int, s: seq<T>)
    ensures IsStableSort(key, s, StableSort(key, s))
    decreases |s|
  {
    if s != [] {
      var front, last := s[..|s| - 1], s[|s| - 1];
      StableSortIsStable(key, front);
      InsertIsStable(key, StableSort(key, front), front, last);
      assert s == front + [last];
    }
  }

  lemma {:induction false} WithKeyAbsent<T>(key: T -> int, k: int, s: seq<T>)
    requires forall i :: 0 <= i < |s| ==> key(s[i]) != k
    ensures WithKey(key, k, s) == []
  {
    if s != [] { WithKeyAbsent(key, k, s[..|s| - 1]); }
  }

  lemma {:induction false} WithKeyMembers<T>(key: T -> int, k: int, s: seq<T>, x: T)
    ensures x in WithKey(key, k, s) <==> x in s && key(x) == k
  {
    if s != [] {
      WithKeyMembers(key, k, s[..|s| - 1], x);
      assert s == s[..|s| - 1] + [s[|s| - 1]];
    }
  }

  lemma LastKey<T>(key: T -> int, s: seq<T>, y: T)
    requires SortedBy(key, s) && y in s
    ensures key(y) <= key(s[|s| - 1])
  {
    var i :| 0 <= i < |s| && s[i] == y;
  }

  lemma SameLast<T(!new)>(key: T -> int, a: seq<T>, b: seq<T>)
    requires SortedBy(key, a) && SortedBy(key, b) && a != [] && SameByKey(key, a, b)
    ensures b != [] && a[|a| - 1] == b[|b| - 1]
  {
    var x := a[|a| - 1];
    SameMembers(key, a, b, x);
    var y := b[|b| - 1];
    SameMembers(key, a, b, y);
    LastKey(key, a, y);
    LastKey(key, b, x);
    WithKeyLast(key, a);
    WithKeyLast(key, b);
    assert SameAt(key, a, b, key(x));
  }

  lemma SameAsBoth<T(!new)>(key: T -> int, a: seq<T>, b: seq<T>, s: seq<T>)
    requires SameByKey(key, a, s) && SameByKey(key, b, s)
    ensures SameByKey(key, a, b)
  {
    forall k ensures SameAt(key, a, b, k) {
      assert SameAt(key, a, s, k) && SameAt(key, b, s, k);
    }
  }

  lemma SameMembers<T(!new)>(key: T -> int, a: seq<T>, b: seq<T>, x: T)
    requires SameByKey(key, a, b)
    ensures x in a <==> x in b
  {
    assert SameAt(key, a, b, key(x));
    WithKeyMembers(key, key(x), a, x);
    WithKeyMembers(key, key(x), b, x);
  }

  lemma WithKeyLast<T>(key: T -> int, s: seq<T>)
    requires s != []
    ensures var x := s[|s| - 1];
            var w := WithKey(key, key(x), s);
            w != [] && w[|w| - 1] == x
  {
  }

  lemma SameFront<T(!new)>(key: T -> int, a: seq<T>, b: seq<T>, x: T)
    requires SameByKey(key, a + [x], b + [x])
    ensures SameByKey(key, a, b)
  {
    forall k ensures SameAt(key, a, b, k) {
      assert SameAt(key, a + [x], b + [x], k);
      WithKeySnoc(key, k, a, x);
      WithKeySnoc(key, k, b, x);
      var w := WithKey(key, k, a + [x]);
      if key(x) == k {
        assert w[..|w| - 1] == WithKey(key, k, a) && w[..|w| - 1] == WithKey(key, k, b);
      }
    }
  }

  /** There is only one stable sort: whatever satisfies the promise is it. */
  lemma {:induction false} StableSortUnique<T(!new)>(key: T -> int, a: seq<T>, b: seq<T>)
    requires SortedBy(key, a) && SortedBy(key, b) && SameByKey(key, a, b)
    ensures a == b
    decreases |a|
  {
    if a == [] {
      if b != [] { SameMembers(key, a, b, b[0]); }
    } else {
      SameLast(key, a, b);
      var front, front', x := a[..|a| - 1], b[..|b| - 1], a[|a| - 1];
      assert a == front + [x] && b == front' + [x];
      SameFront(key, front, front', x);
      StableSortUnique(key, front, front');
    }
  }
}
