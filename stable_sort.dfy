/**
 * A stable sort into non-increasing key order, as Python's
 * `sorted(xs, key=k, reverse=True)` performs it, and the order in which
 * repeated `pop()` takes the elements of a list. The key is any function
 * into the reals.
 */
module StableSort {

  /** Keys never increase along `s`. */
  predicate Descending<T>(key: T -> real, s: seq<T>) {
    forall i, j :: 0 <= i < j < |s| ==> key(s[i]) >= key(s[j])
  }

  /** Keys never decrease along `s`. */
  predicate Ascending<T>(key: T -> real, s: seq<T>) {
    forall i, j :: 0 <= i < j < |s| ==> key(s[i]) <= key(s[j])
  }

  /** The elements of `s` whose key is `v`, in their order in `s`. */
  function WithKey<T>(key: T -> real, s: seq<T>, v: real): seq<T> {
    if s == [] then []
    else (if key(s[0]) == v then [s[0]] else []) + WithKey(key, s[1..], v)
  }

  /** `s` back to front: the order in which repeated `pop()` removes its elements. */
  function Reversed<T>(s: seq<T>): (r: seq<T>)
    ensures |r| == |s|
    ensures forall k :: 0 <= k < |s| ==> r[k] == s[|s| - 1 - k]
  {
    if s == [] then [] else [s[|s| - 1]] + Reversed(s[..|s| - 1])
  }

  /** Insert `x` after every element whose key is at least its own. */
  function Insert<T>(key: T -> real, x: T, s: seq<T>): seq<T> {
    if s == [] then [x]
    else if key(s[0]) >= key(x) then [s[0]] + Insert(key, x, s[1..])
    else [x] + s
  }

  /** Stable sort into non-increasing key order (insertion sort, left to right). */
  function SortDesc<T>(key: T -> real, s: seq<T>): seq<T> {
    if s == [] then [] else Insert(key, s[|s| - 1], SortDesc(key, s[..|s| - 1]))
  }

  lemma {:induction false} InsertPermutation<T>(key: T -> real, x: T, s: seq<T>)
    ensures multiset(Insert(key, x, s)) == multiset(s) + multiset{x}
  {
    if s != [] && key(s[0]) >= key(x) {
      InsertPermutation(key, x, s[1..]);
      assert s == [s[0]] + s[1..];
    }
  }

  /** The sorted sequence holds the same elements, each as often as in `s`. */
  lemma {:induction false} SortDescPermutation<T>(key: T -> real, s: seq<T>)
    ensures multiset(SortDesc(key, s)) == multiset(s)
  {
    if s != [] {
      var init, last := s[..|s| - 1], s[|s| - 1];
      SortDescPermutation(key, init);
      InsertPermutation(key, last, SortDesc(key, init));
      assert SortDesc(key, s) == Insert(key, last, SortDesc(key, init));
      assert s == init + [last];
      assert multiset(s) == multiset(init) + multiset{last};
    }
  }

  lemma DescendingTail<T>(key: T -> real, s: seq<T>)
    requires s != [] && Descending(key, s)
    ensures Descending(key, s[1..])
  {
    var t := s[1..];
    forall i, j | 0 <= i < j < |t| ensures key(t[i]) >= key(t[j]) {
      assert t[i] == s[i + 1] && t[j] == s[j + 1];
    }
  }

  /** A bound on the keys of `x` and of `s` bounds the keys of `Insert(key, x, s)`. */
  lemma {:induction false} InsertBounded<T>(key: T -> real, x: T, s: seq<T>, bound: real)
    requires bound >= key(x)
    requires forall k :: 0 <= k < |s| ==> bound >= key(s[k])
    ensures forall j :: 0 <= j < |Insert(key, x, s)| ==> bound >= key(Insert(key, x, s)[j])
  {
    if s != [] && key(s[0]) >= key(x) {
      InsertBounded(key, x, s[1..], bound);
      assert Insert(key, x, s) == [s[0]] + Insert(key, x, s[1..]);
    } else if s != [] {
      assert Insert(key, x, s) == [x] + s;
    }
  }

  lemma {:induction false} InsertDescending<T>(key: T -> real, x: T, s: seq<T>)
    requires Descending(key, s)
    ensures Descending(key, Insert(key, x, s))
  {
    if s != [] && key(s[0]) >= key(x) {
      var t := s[1..];
      DescendingTail(key, s);
      InsertDescending(key, x, t);
      InsertBounded(key, x, t, key(s[0]));
      assert Insert(key, x, s) == [s[0]] + Insert(key, x, t);
    }
  }

  /** The sorted sequence is in non-increasing key order. */
  lemma {:induction false} SortDescDescending<T>(key: T -> real, s: seq<T>)
    ensures Descending(key, SortDesc(key, s))
  {
    if s != [] {
      SortDescDescending(key, s[..|s| - 1]);
      InsertDescending(key, s[|s| - 1], SortDesc(key, s[..|s| - 1]));
    }
  }

  lemma {:induction false} WithKeyAppend<T>(key: T -> real, a: seq<T>, b: seq<T>, v: real)
    ensures WithKey(key, a + b, v) == WithKey(key, a, v) + WithKey(key, b, v)
  {
    if a != [] {
      assert (a + b)[1..] == a[1..] + b;
      WithKeyAppend(key, a[1..], b, v);
    } else {
      assert a + b == b;
    }
  }

  lemma {:induction false} WithKeyNone<T>(key: T -> real, s: seq<T>, v: real)
    requires forall k :: 0 <= k < |s| ==> key(s[k]) != v
    ensures WithKey(key, s, v) == []
  {
    if s != [] {
      WithKeyNone(key, s[1..], v);
    }
  }

  /** Inserting `x` into a descending sequence puts it after every element of the same key. */
  lemma {:induction false} InsertStable<T>(key: T -> real, x: T, s: seq<T>, v: real)
    requires Descending(key, s)
    ensures WithKey(key, Insert(key, x, s), v) == WithKey(key, s, v) + (if key(x) == v then [x] else [])
  {
    var last := if key(x) == v then [x] else [];
    if s == [] {
      assert Insert(key, x, s) == [x];
      assert WithKey(key, [x], v) == last + WithKey(key, [], v);
    } else {
      var t := s[1..];
      var r := Insert(key, x, s);
      var first := if key(s[0]) == v then [s[0]] else [];
      assert WithKey(key, s, v) == first + WithKey(key, t, v);
      if key(s[0]) >= key(x) {
        DescendingTail(key, s);
        InsertStable(key, x, t, v);
        assert r[0] == s[0] && r[1..] == Insert(key, x, t);
        assert WithKey(key, r, v) == first + WithKey(key, Insert(key, x, t), v);
      } else {
        if key(x) == v {
          forall k | 0 <= k < |s| ensures key(s[k]) != v {
            assert k == 0 || key(s[0]) >= key(s[k]);
          }
          WithKeyNone(key, s, v);
        }
        assert r[0] == x && r[1..] == s;
        assert WithKey(key, r, v) == last + WithKey(key, s, v);
      }
    }
  }

  /** Elements of equal key appear in the sorted sequence in their order in `s`. */
  lemma {:induction false} SortDescStableAt<T>(key: T -> real, s: seq<T>, v: real)
    ensures WithKey(key, SortDesc(key, s), v) == WithKey(key, s, v)
  {
    if s != [] {
      var init, last := s[..|s| - 1], s[|s| - 1];
      var sortedInit := SortDesc(key, init);
      var tail := if key(last) == v then [last] else [];
      assert SortDesc(key, s) == Insert(key, last, sortedInit);
      SortDescStableAt(key, init, v);
      SortDescDescending(key, init);
      InsertStable(key, last, sortedInit, v);
      assert WithKey(key, SortDesc(key, s), v) == WithKey(key, init, v) + tail;
      assert s == init + [last];
      WithKeyAppend(key, init, [last], v);
      assert WithKey(key, [last], v) == tail + WithKey(key, [], v);
    }
  }

  lemma SortDescStable<T>(key: T -> real, s: seq<T>)
    ensures forall v :: WithKey(key, SortDesc(key, s), v) == WithKey(key, s, v)
  {
    forall v {
      SortDescStableAt(key, s, v);
    }
  }

  /** Popping reverses the order of the elements of each key. */
  lemma {:induction false} WithKeyReversed<T>(key: T -> real, s: seq<T>, v: real)
    ensures WithKey(key, Reversed(s), v) == Reversed(WithKey(key, s, v))
  {
    if s != [] {
      var init, last := s[..|s| - 1], s[|s| - 1];
      WithKeyReversed(key, init, v);
      assert Reversed(s) == [last] + Reversed(init);
      assert s == init + [last];
      WithKeyAppend(key, init, [last], v);
      var w := WithKey(key, init, v);
      if key(last) == v {
        assert WithKey(key, s, v) == w + [last];
        assert (w + [last])[..|w|] == w;
      } else {
        assert WithKey(key, [last], v) == [];
        assert WithKey(key, s, v) == w;
      }
    }
  }

  lemma {:induction false} ReversedMultiset<T>(s: seq<T>)
    ensures multiset(Reversed(s)) == multiset(s)
  {
    if s != [] {
      ReversedMultiset(s[..|s| - 1]);
      assert s == s[..|s| - 1] + [s[|s| - 1]];
    }
  }

  /** Popping a non-increasing sequence from its tail yields a non-decreasing one. */
  lemma ReversedAscending<T>(key: T -> real, s: seq<T>)
    requires Descending(key, s)
    ensures Ascending(key, Reversed(s))
  {
    var r := Reversed(s);
    forall i, j | 0 <= i < j < |r| ensures key(r[i]) <= key(r[j]) {
      assert r[i] == s[|s| - 1 - i] && r[j] == s[|s| - 1 - j];
    }
  }
}
