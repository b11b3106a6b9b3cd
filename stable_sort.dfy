/**
 * `Array.prototype.sort` is a stable sort. Every comparator the extension passes to it
 * compares a key lexicographically:
 *   `(a, b) => a.order - b.order`                       key (order, 0)
 *   `(a, b) => b.score - a.score`                       key (-score, 0)
 *   enabled first, then `a.order - b.order`             key (enabled ? 0 : 1, order)
 * so the sort is modelled once, as a stable insertion sort by a pair key.
 */
module StableSort {

  /** Lexicographic order on pair keys: the comparator returns a value <= 0. */
  predicate KeyLe(a: (int, int), b: (int, int)) {
    a.0 < b.0 || (a.0 == b.0 && a.1 <= b.1)
  }

  /** Inserts `x` before the first element whose key is not smaller, so `x` precedes its equals. */
  function Insert<T>(x: T, t: seq<T>, key: T -> (int, int)): (r: seq<T>)
    ensures |r| == |t| + 1
    decreases |t|
  {
    if t == [] || KeyLe(key(x), key(t[0])) then [x] + t else [t[0]] + Insert(x, t[1..], key)
  }

  function Sort<T>(s: seq<T>, key: T -> (int, int)): (r: seq<T>)
    ensures |r| == |s|
    decreases |s|
  {
    if s == [] then [] else Insert(s[0], Sort(s[1..], key), key)
  }

  ghost predicate Sorted<T>(s: seq<T>, key: T -> (int, int)) {
    forall i, j :: 0 <= i < j < |s| ==> KeyLe(key(s[i]), key(s[j]))
  }

  /** The elements of `s` whose key is `k`, in their order in `s`. */
  function WithKey<T>(s: seq<T>, key: T -> (int, int), k: (int, int)): (r: seq<T>)
    ensures |r| <= |s|
    decreases |s|
  {
    if s == [] then [] else (if key(s[0]) == k then [s[0]] else []) + WithKey(s[1..], key, k)
  }

  lemma {:induction false} InsertPermutes<T>(x: T, t: seq<T>, key: T -> (int, int))
    ensures multiset(Insert(x, t, key)) == multiset([x] + t)
    decreases |t|
  {
    if !(t == [] || KeyLe(key(x), key(t[0]))) {
      InsertPermutes(x, t[1..], key);
      assert t == [t[0]] + t[1..];
    }
  }

  /** The sort only reorders. */
  lemma {:induction false} SortPermutes<T>(s: seq<T>, key: T -> (int, int))
    ensures multiset(Sort(s, key)) == multiset(s)
    decreases |s|
  {
    if s != [] {
      SortPermutes(s[1..], key);
      InsertPermutes(s[0], Sort(s[1..], key), key);
      assert s == [s[0]] + s[1..];
    }
  }

  lemma {:induction false} InsertSorted<T>(x: T, t: seq<T>, key: T -> (int, int))
    requires Sorted(t, key)
    ensures Sorted(Insert(x, t, key), key)
    decreases |t|
  {
    var r := Insert(x, t, key);
    if t == [] || KeyLe(key(x), key(t[0])) {
      forall i, j | 0 <= i < j < |r| ensures KeyLe(key(r[i]), key(r[j])) {
        if i > 0 { assert r[i] == t[i - 1] && r[j] == t[j - 1]; }
        else { assert r[j] == t[j - 1]; if j > 1 { assert KeyLe(key(t[0]), key(t[j - 1])); } }
      }
    } else {
      var r' := Insert(x, t[1..], key);
      InsertSorted(x, t[1..], key);
      InsertKeepsLowerBound(x, t, key);
      forall i, j | 0 <= i < j < |r| ensures KeyLe(key(r[i]), key(r[j])) {
        assert r[j] == r'[j - 1];
        if i > 0 { assert r[i] == r'[i - 1]; }
      }
    }
  }

  /** When `x` goes behind the head of a sorted list, the head's key bounds everything after it. */
  lemma InsertKeepsLowerBound<T>(x: T, t: seq<T>, key: T -> (int, int))
    requires Sorted(t, key) && t != [] && !KeyLe(key(x), key(t[0]))
    ensures forall j :: 0 <= j < |Insert(x, t[1..], key)| ==> KeyLe(key(t[0]), key(Insert(x, t[1..], key)[j]))
  {
    var r' := Insert(x, t[1..], key);
    InsertPermutes(x, t[1..], key);
    forall j | 0 <= j < |r'| ensures KeyLe(key(t[0]), key(r'[j])) {
      assert r'[j] in multiset(r');
      assert r'[j] in multiset([x] + t[1..]);
      if r'[j] != x {
        var k :| 0 <= k < |t[1..]| && t[1..][k] == r'[j];
        assert t[k + 1] == r'[j];
      }
    }
  }

  /** The sort leaves the keys in non-decreasing order. */
  lemma {:induction false} SortSorted<T>(s: seq<T>, key: T -> (int, int))
    ensures Sorted(Sort(s, key), key)
    decreases |s|
  {
    if s != [] {
      SortSorted(s[1..], key);
      InsertSorted(s[0], Sort(s[1..], key), key);
    }
  }

  lemma {:induction false} InsertWithKey<T>(x: T, t: seq<T>, key: T -> (int, int), k: (int, int))
    ensures WithKey(Insert(x, t, key), key, k) == (if key(x) == k then [x] else []) + WithKey(t, key, k)
    decreases |t|
  {
    var r := Insert(x, t, key);
    if t == [] || KeyLe(key(x), key(t[0])) {
      assert r[1..] == t;
    } else {
      InsertWithKey(x, t[1..], key, k);
      assert r[1..] == Insert(x, t[1..], key);
    }
  }

  /** Stability: elements with equal keys keep their relative order. */
  lemma {:induction false} SortStable<T>(s: seq<T>, key: T -> (int, int), k: (int, int))
    ensures WithKey(Sort(s, key), key, k) == WithKey(s, key, k)
    decreases |s|
  {
    if s != [] {
      SortStable(s[1..], key, k);
      InsertWithKey(s[0], Sort(s[1..], key), key, k);
    }
  }
}
