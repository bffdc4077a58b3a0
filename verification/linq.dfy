/** The LINQ operators the bootstrap relies on, as functions on sequences:
    `OrderBy` (a stable sort on an integer key), the `Where` filter by key and
    the first-match search behind `FirstOrDefault`.
 */
module Linq {

  /** Ascending by `key`. */
  ghost predicate Sorted<T>(s: seq<T>, key: T -> int) {
    forall i, j :: 0 <= i < j < |s| ==> key(s[i]) <= key(s[j])
  }

  /** The elements of `s` whose key is `k`, in their order in `s`. */
  function WithKey<T>(s: seq<T>, key: T -> int, k: int): (r: seq<T>)
    ensures |r| <= |s|
    ensures forall x :: x in r ==> x in s && key(x) == k
  {
    if s == [] then []
    else (if key(s[0]) == k then [s[0]] else []) + WithKey(s[1..], key, k)
  }

  /** Index of the first element satisfying `p`, or `|s|` when there is none. */
  function FirstWhere<T>(s: seq<T>, p: T -> bool): (n: nat)
    ensures n <= |s|
    ensures forall j :: 0 <= j < n ==> !p(s[j])
    ensures n < |s| ==> p(s[n])
  {
    if s == [] then 0
    else if p(s[0]) then 0
    else 1 + FirstWhere(s[1..], p)
  }

  /** Places `x` before the first element whose key is not smaller. */
  function Insert<T>(x: T, s: seq<T>, key: T -> int): (r: seq<T>)
    ensures multiset(r) == multiset(s) + multiset{x}
  {
    if s == [] || key(x) <= key(s[0]) then [x] + s
    else
      assert s == [s[0]] + s[1..];
      [s[0]] + Insert(x, s[1..], key)
  }

  /** `Enumerable.OrderBy(s, key)`: ascending by key; elements with equal
      keys keep their relative order (the operator is documented as stable). */
  function OrderBy<T>(s: seq<T>, key: T -> int): (r: seq<T>)
    ensures multiset(r) == multiset(s)
  {
    if s == [] then []
    else
      assert s == [s[0]] + s[1..];
      Insert(s[0], OrderBy(s[1..], key), key)
  }

  lemma {:induction false} WithKeyConcat<T>(a: seq<T>, b: seq<T>, key: T -> int, k: int)
    ensures WithKey(a + b, key, k) == WithKey(a, key, k) + WithKey(b, key, k)
  {
    if a == [] {
      assert a + b == b;
    } else {
      assert (a + b)[0] == a[0];
      assert (a + b)[1..] == a[1..] + b;
      WithKeyConcat(a[1..], b, key, k);
    }
  }

  lemma KeyOfHeadPresent<T>(s: seq<T>, key: T -> int)
    requires s != []
    ensures WithKey(s, key, key(s[0])) != []
  {
  }

  lemma SortedLeast<T>(s: seq<T>, key: T -> int, x: T)
    requires Sorted(s, key) && x in s
    ensures key(s[0]) <= key(x)
  {
    var j :| 0 <= j < |s| && s[j] == x;
    if j > 0 {
      assert key(s[0]) <= key(s[j]);
    }
  }

  /** A lower bound on the keys of `s` and of `x` bounds the keys after insertion. */
  lemma {:induction false} InsertBounded<T>(x: T, s: seq<T>, key: T -> int, lo: int)
    requires lo <= key(x)
    requires forall i :: 0 <= i < |s| ==> lo <= key(s[i])
    ensures forall i :: 0 <= i < |Insert(x, s, key)| ==> lo <= key(Insert(x, s, key)[i])
  {
    if s == [] || key(x) <= key(s[0]) {
      assert forall i :: 0 < i < |s| + 1 ==> ([x] + s)[i] == s[i - 1];
    } else {
      InsertBounded(x, s[1..], key, lo);
      var t := Insert(x, s[1..], key);
      assert forall i :: 0 < i < |t| + 1 ==> ([s[0]] + t)[i] == t[i - 1];
    }
  }

  lemma {:induction false} InsertSorted<T>(x: T, s: seq<T>, key: T -> int)
    requires Sorted(s, key)
    ensures Sorted(Insert(x, s, key), key)
  {
    if s == [] || key(x) <= key(s[0]) {
      forall i, j | 0 <= i < j < |s| + 1
        ensures key(([x] + s)[i]) <= key(([x] + s)[j])
      {
        assert ([x] + s)[j] == s[j - 1];
        if i > 0 {
          assert ([x] + s)[i] == s[i - 1];
        } else if j > 1 {
          assert key(s[0]) <= key(s[j - 1]);
        }
      }
    } else {
      var rest := s[1..];
      assert forall i :: 0 <= i < |rest| ==> rest[i] == s[i + 1];
      InsertSorted(x, rest, key);
      InsertBounded(x, rest, key, key(s[0]));
      var t := Insert(x, rest, key);
      forall i, j | 0 <= i < j < |t| + 1
        ensures key(([s[0]] + t)[i]) <= key(([s[0]] + t)[j])
      {
        assert ([s[0]] + t)[j] == t[j - 1];
        if i > 0 {
          assert ([s[0]] + t)[i] == t[i - 1];
        }
      }
    }
  }

  lemma WithKeyCons<T>(a: T, u: seq<T>, key: T -> int, k: int)
    ensures WithKey([a] + u, key, k) == (if key(a) == k then [a] else []) + WithKey(u, key, k)
  {
    assert ([a] + u)[0] == a;
    assert ([a] + u)[1..] == u;
  }

  /** Two blocks of which one is empty can be swapped. */
  lemma SwapEmpty<T>(a: seq<T>, b: seq<T>, w: seq<T>)
    requires a == [] || b == []
    ensures a + (b + w) == b + (a + w)
  {
    if a == [] {
      assert a + (b + w) == b + w == b + (a + w);
    } else {
      assert a + (b + w) == a + w == b + (a + w);
    }
  }

  lemma {:induction false} InsertWithKey<T>(x: T, s: seq<T>, key: T -> int, k: int)
    ensures WithKey(Insert(x, s, key), key, k) == (if key(x) == k then [x] else []) + WithKey(s, key, k)
  {
    if s == [] || key(x) <= key(s[0]) {
      WithKeyCons(x, s, key, k);
    } else {
      var rest := s[1..];
      InsertWithKey(x, rest, key, k);
      WithKeyCons(s[0], Insert(x, rest, key), key, k);
      assert [s[0]] + rest == s;
      WithKeyCons(s[0], rest, key, k);
      SwapEmpty(if key(s[0]) == k then [s[0]] else [], if key(x) == k then [x] else [], WithKey(rest, key, k));
    }
  }

  /** The result of `OrderBy` is ascending by key. */
  lemma {:induction false} OrderBySorted<T>(s: seq<T>, key: T -> int)
    ensures Sorted(OrderBy(s, key), key)
  {
    if s != [] {
      OrderBySorted(s[1..], key);
      InsertSorted(s[0], OrderBy(s[1..], key), key);
    }
  }

  /** `OrderBy` is stable: the elements with any one key come out in the order
      they went in. */
  lemma {:induction false} OrderByStable<T>(s: seq<T>, key: T -> int, k: int)
    ensures WithKey(OrderBy(s, key), key, k) == WithKey(s, key, k)
  {
    if s != [] {
      OrderByStable(s[1..], key, k);
      InsertWithKey(s[0], OrderBy(s[1..], key), key, k);
    }
  }

  /** Two ascending sequences that agree on the elements of every key are equal. */
  lemma {:induction false} SortedStableUnique<T>(t: seq<T>, u: seq<T>, key: T -> int)
    requires Sorted(t, key) && Sorted(u, key)
    requires forall k :: WithKey(t, key, k) == WithKey(u, key, k)
    ensures t == u
    decreases |t|
  {
    if t == [] && u == [] {
    } else if t == [] || u == [] {
      KeyOfHeadPresent(if t == [] then u else t, key);
      assert false;
    } else {
      var kt, ku := key(t[0]), key(u[0]);
      var wt := WithKey(u, key, kt);
      assert WithKey(t, key, kt) != [];
      assert wt[0] in wt;
      SortedLeast(u, key, wt[0]);
      var wu := WithKey(t, key, ku);
      assert WithKey(u, key, ku) != [];
      assert wu[0] in wu;
      SortedLeast(t, key, wu[0]);
      assert kt == ku;
      assert WithKey(t, key, kt) == [t[0]] + WithKey(t[1..], key, kt);
      assert WithKey(u, key, kt) == [u[0]] + WithKey(u[1..], key, kt);
      assert t[0] == WithKey(t, key, kt)[0] == u[0];
      forall k
        ensures WithKey(t[1..], key, k) == WithKey(u[1..], key, k)
      {
        var head := if kt == k then [t[0]] else [];
        assert WithKey(t, key, k) == head + WithKey(t[1..], key, k);
        assert WithKey(u, key, k) == head + WithKey(u[1..], key, k);
        assert WithKey(t[1..], key, k) == WithKey(t, key, k)[|head|..];
        assert WithKey(u[1..], key, k) == WithKey(u, key, k)[|head|..];
      }
      SortedStableUnique(t[1..], u[1..], key);
      assert t == [t[0]] + t[1..];
      assert u == [u[0]] + u[1..];
    }
  }

  /** `OrderBy(s, key)` is the one and only ascending arrangement of `s` that
      keeps every key's elements in input order. */
  lemma OrderByCharacterized<T>(s: seq<T>, t: seq<T>, key: T -> int)
    ensures t == OrderBy(s, key) ==> Sorted(t, key) && forall k :: WithKey(t, key, k) == WithKey(s, key, k)
    ensures Sorted(t, key) && (forall k :: WithKey(t, key, k) == WithKey(s, key, k)) ==> t == OrderBy(s, key)
  {
    var o := OrderBy(s, key);
    OrderBySorted(s, key);
    forall k
      ensures WithKey(o, key, k) == WithKey(s, key, k)
    {
      OrderByStable(s, key, k);
    }
    if Sorted(t, key) && forall k :: WithKey(t, key, k) == WithKey(s, key, k) {
      forall k
        ensures WithKey(t, key, k) == WithKey(o, key, k)
      {
        assert WithKey(t, key, k) == WithKey(s, key, k);
      }
      SortedStableUnique(t, o, key);
    }
  }
}
