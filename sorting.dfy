/**
 * Python's `sorted(xs, key=f, reverse=True)` followed by the slice `[:n]`.
 *
 * Python's sort is stable, and `reverse=True` keeps it stable: elements with
 * equal keys stay in their original relative order. The model is an
 * insertion sort on integer keys; stability is stated as "for every key k,
 * the elements with key k appear in the output in the same order as in the
 * input", and `SortedUnique` shows that this together with the descending
 * order determines the output completely.
 */
module Sorting {

  /** Keys never increase from left to right. */
  ghost predicate SortedDesc<T>(s: seq<T>, key: T -> int) {
    forall i, j :: 0 <= i < j < |s| ==> key(s[i]) >= key(s[j])
  }

  /** The elements of `s` whose key is `k`, in their order in `s`. */
  function WithKey<T>(s: seq<T>, key: T -> int, k: int): (r: seq<T>)
    ensures |r| <= |s|
  {
    if s == [] then []
    else (if key(s[0]) == k then [s[0]] else []) + WithKey(s[1..], key, k)
  }

  /** `WithKey` keeps exactly the elements with key `k`. */
  lemma {:induction false} WithKeyMembers<T>(s: seq<T>, key: T -> int, k: int)
    ensures forall x :: x in WithKey(s, key, k) <==> x in s && key(x) == k
  {
    if s != [] {
      WithKeyMembers(s[1..], key, k);
      assert s == [s[0]] + s[1..];
    }
  }

  /**
   * Places `x` in front of the first element whose key is at most `key(x)`, so
   * `x` ends up before every element of `s` with the same key.
   */
  function Insert<T>(x: T, s: seq<T>, key: T -> int): (r: seq<T>)
    ensures |r| == |s| + 1
    ensures multiset(r) == multiset(s) + multiset{x}
  {
    if s == [] || key(s[0]) <= key(x) then [x] + s
    else
      assert s == [s[0]] + s[1..];
      [s[0]] + Insert(x, s[1..], key)
  }

  lemma {:induction false} InsertSorted<T>(x: T, s: seq<T>, key: T -> int)
    requires SortedDesc(s, key)
    ensures SortedDesc(Insert(x, s, key), key)
  {
    if s != [] && key(s[0]) > key(x) {
      var t := Insert(x, s[1..], key);
      InsertSorted(x, s[1..], key);
      var r := Insert(x, s, key);
      assert r == [s[0]] + t;
      forall j | 0 < j < |r| ensures key(r[0]) >= key(r[j]) {
        assert r[j] == t[j - 1];
        assert t[j - 1] in multiset(t);
        assert r[j] == x || r[j] in multiset(s[1..]);
      }
    }
  }

  /** Inserting `x` puts it in front of the elements that share its key. */
  lemma {:induction false} InsertWithKey<T>(x: T, s: seq<T>, key: T -> int, k: int)
    ensures WithKey(Insert(x, s, key), key, k) == (if key(x) == k then [x] else []) + WithKey(s, key, k)
  {
    if s != [] && key(s[0]) > key(x) {
      var t := Insert(x, s[1..], key);
      InsertWithKey(x, s[1..], key, k);
      var r := [s[0]] + t;
      assert r[0] == s[0] && r[1..] == t;
      assert WithKey(r, key, k) == (if key(s[0]) == k then [s[0]] else []) + WithKey(t, key, k);
      assert WithKey(s, key, k) == (if key(s[0]) == k then [s[0]] else []) + WithKey(s[1..], key, k);
      if key(s[0]) == k {
        assert key(x) != k;
      }
    } else {
      var r := [x] + s;
      assert r[0] == x && r[1..] == s;
    }
  }

  /** `sorted(s, key=key, reverse=True)`: a stable sort by descending key. */
  function SortDesc<T>(s: seq<T>, key: T -> int): (r: seq<T>)
    ensures |r| == |s|
    ensures multiset(r) == multiset(s)
    ensures SortedDesc(r, key)
    ensures forall k :: WithKey(r, key, k) == WithKey(s, key, k)
  {
    if s == [] then []
    else
      var t := SortDesc(s[1..], key);
      assert s == [s[0]] + s[1..];
      InsertSorted(s[0], t, key);
      assert forall k :: WithKey(Insert(s[0], t, key), key, k) == WithKey(s, key, k) by {
        forall k ensures WithKey(Insert(s[0], t, key), key, k) == WithKey(s, key, k) {
          InsertWithKey(s[0], t, key, k);
        }
      }
      Insert(s[0], t, key)
  }

  /**
   * Two descending sequences that hold, key by key, the same elements in the
   * same order are equal.
   */
  lemma {:induction false} SortedUnique<T>(t: seq<T>, u: seq<T>, key: T -> int)
    requires SortedDesc(t, key) && SortedDesc(u, key)
    requires forall k :: WithKey(t, key, k) == WithKey(u, key, k)
    ensures t == u
    decreases |t| + |u|
  {
    if t == [] && u == [] {
    } else if u == [] {
      var w := WithKey(t, key, key(t[0]));
      assert false;
    } else if t == [] {
      var w := WithKey(u, key, key(u[0]));
      assert false;
    } else {
      HeadsAgree(t, u, key);
      SortedUnique(t[1..], u[1..], key);
      assert t == [t[0]] + t[1..] && u == [u[0]] + u[1..];
    }
  }

  /** The induction step of `SortedUnique`: the heads agree, and so do the tails, key by key. */
  lemma HeadsAgree<T>(t: seq<T>, u: seq<T>, key: T -> int)
    requires t != [] && u != []
    requires SortedDesc(t, key) && SortedDesc(u, key)
    requires forall k :: WithKey(t, key, k) == WithKey(u, key, k)
    ensures t[0] == u[0]
    ensures SortedDesc(t[1..], key) && SortedDesc(u[1..], key)
    ensures forall k :: WithKey(t[1..], key, k) == WithKey(u[1..], key, k)
  {
    var m := SameLeadingKey(t, u, key);
    assert WithKey(t, key, m) == [t[0]] + WithKey(t[1..], key, m);
    assert WithKey(u, key, m) == [u[0]] + WithKey(u[1..], key, m);
    forall k ensures WithKey(t[1..], key, k) == WithKey(u[1..], key, k) {
      if k == m {
        assert WithKey(t, key, m)[1..] == WithKey(t[1..], key, m);
        assert WithKey(u, key, m)[1..] == WithKey(u[1..], key, m);
      } else {
        assert WithKey(t, key, k) == WithKey(t[1..], key, k);
        assert WithKey(u, key, k) == WithKey(u[1..], key, k);
      }
    }
  }

  /** Both heads carry the largest key, so the same one. */
  lemma SameLeadingKey<T>(t: seq<T>, u: seq<T>, key: T -> int) returns (m: int)
    requires t != [] && u != []
    requires SortedDesc(t, key) && SortedDesc(u, key)
    requires forall k :: WithKey(t, key, k) == WithKey(u, key, k)
    ensures m == key(t[0]) == key(u[0])
  {
    m := key(t[0]);
    WithKeyMembers(t, key, m);
    WithKeyMembers(u, key, m);
    WithKeyMembers(t, key, key(u[0]));
    WithKeyMembers(u, key, key(u[0]));
    assert t[0] in WithKey(u, key, m);
    assert u[0] in WithKey(t, key, key(u[0]));
  }

  /**
   * `SortDesc` is the only stable descending sort: any descending arrangement
   * that keeps equal keys in input order is `SortDesc(s, key)`.
   */
  lemma StableSortIsSortDesc<T>(s: seq<T>, t: seq<T>, key: T -> int)
    requires SortedDesc(t, key)
    requires forall k :: WithKey(t, key, k) == WithKey(s, key, k)
    ensures t == SortDesc(s, key)
  {
    SortedUnique(t, SortDesc(s, key), key);
  }

  /** The Python slice `s[:n]`: the first `n` elements, or all of `s` when it is shorter. */
  function Take<T>(s: seq<T>, n: nat): (r: seq<T>)
    ensures |r| == if |s| <= n then |s| else n
    ensures r == s[..|r|]
  {
    if |s| <= n then s else s[..n]
  }

  /**
   * `sorted(s, key=key, reverse=True)[:n]`: the `n` elements with the largest
   * keys (all of `s` when it is shorter), largest first. Among elements with
   * equal keys the earlier ones in `s` are kept, in their order in `s`, and
   * every element left out has a key no larger than any element kept.
   */
  function TopByKey<T>(s: seq<T>, n: nat, key: T -> int): (r: seq<T>)
    ensures |r| == if |s| <= n then |s| else n
    ensures multiset(r) <= multiset(s)
    ensures SortedDesc(r, key)
    ensures forall x :: x in multiset(s) - multiset(r) ==> forall i :: 0 <= i < |r| ==> key(r[i]) >= key(x)
    ensures forall k :: WithKey(r, key, k) <= WithKey(s, key, k)
  {
    var sorted := SortDesc(s, key);
    TakeFromSorted(sorted, n, key);
    Take(sorted, n)
  }

  /** What `TopByKey` promises, stated of a prefix of an already sorted sequence. */
  lemma TakeFromSorted<T>(sorted: seq<T>, n: nat, key: T -> int)
    requires SortedDesc(sorted, key)
    ensures multiset(Take(sorted, n)) <= multiset(sorted)
    ensures SortedDesc(Take(sorted, n), key)
    ensures forall x :: x in multiset(sorted) - multiset(Take(sorted, n)) ==>
      forall i :: 0 <= i < |Take(sorted, n)| ==> key(Take(sorted, n)[i]) >= key(x)
    ensures forall k :: WithKey(Take(sorted, n), key, k) <= WithKey(sorted, key, k)
  {
    var r := Take(sorted, n);
    assert sorted == r + sorted[|r|..];
    TakeKeepsLargest(sorted, n, key);
    LeftOutAreSmaller(sorted, n, key);
    forall k ensures WithKey(r, key, k) <= WithKey(sorted, key, k) {
      TakeWithKey(sorted, n, key, k);
    }
  }

  /** Every element a prefix of a descending sequence leaves out has a key no larger than those kept. */
  lemma LeftOutAreSmaller<T>(sorted: seq<T>, n: nat, key: T -> int)
    requires SortedDesc(sorted, key)
    ensures forall x :: x in multiset(sorted) - multiset(Take(sorted, n)) ==>
      forall i :: 0 <= i < |Take(sorted, n)| ==> key(Take(sorted, n)[i]) >= key(x)
  {
    var r := Take(sorted, n);
    var rest := sorted[|r|..];
    assert sorted == r + rest;
    assert multiset(sorted) - multiset(r) == multiset(rest);
    forall x | x in multiset(rest) ensures forall i :: 0 <= i < |r| ==> key(r[i]) >= key(x) {
      var j :| 0 <= j < |rest| && rest[j] == x;
      assert x == sorted[|r| + j];
    }
  }

  /** Keeping a prefix of a descending sequence keeps the largest keys. */
  lemma TakeKeepsLargest<T>(s: seq<T>, n: nat, key: T -> int)
    requires SortedDesc(s, key)
    ensures SortedDesc(Take(s, n), key)
    ensures forall i, j :: 0 <= i < |Take(s, n)| <= j < |s| ==> key(s[i]) >= key(s[j])
  {
  }

  lemma {:induction false} WithKeyAppend<T>(a: seq<T>, b: seq<T>, key: T -> int, k: int)
    ensures WithKey(a + b, key, k) == WithKey(a, key, k) + WithKey(b, key, k)
  {
    if a != [] {
      var head := if key(a[0]) == k then [a[0]] else [];
      assert a + b != [] && (a + b)[0] == a[0] && (a + b)[1..] == a[1..] + b;
      assert WithKey(a + b, key, k) == head + WithKey((a + b)[1..], key, k);
      WithKeyAppend(a[1..], b, key, k);
      assert WithKey(a[1..] + b, key, k) == WithKey(a[1..], key, k) + WithKey(b, key, k);
      assert WithKey(a, key, k) == head + WithKey(a[1..], key, k);
    } else {
      assert a + b == b;
    }
  }

  /** Per key, a prefix of a sequence holds a prefix of that key's elements. */
  lemma TakeWithKey<T>(s: seq<T>, n: nat, key: T -> int, k: int)
    ensures WithKey(Take(s, n), key, k) <= WithKey(s, key, k)
  {
    var m := |Take(s, n)|;
    assert s == s[..m] + s[m..];
    WithKeyAppend(s[..m], s[m..], key, k);
  }
}
