/**
  list.sort(key=..., reverse=True) as healthy.py uses it: a stable sort into
  non-increasing key order. Python keeps equal elements in their original
  order also when reverse=True, so the result is the insertion sort that
  places each element after every element already placed whose key is at
  least its own.
 */
module Sorting {
  /** xs is in non-increasing order of key. */
  predicate Descending<T>(xs: seq<T>, key: T -> real) {
    forall i, j | 0 <= i < j < |xs| :: key(xs[i]) >= key(xs[j])
  }

  /** The elements of xs whose key is v, in their order in xs. */
  function WithKey<T>(xs: seq<T>, key: T -> real, v: real): (r: seq<T>)
    decreases |xs|
  {
    if xs == [] then []
    else WithKey(xs[..|xs| - 1], key, v) + (if key(xs[|xs| - 1]) == v then [xs[|xs| - 1]] else [])
  }

  /** x placed after the last element of xs whose key is at least key(x), scanning xs from its end. */
  function Insert<T>(xs: seq<T>, x: T, key: T -> real): (r: seq<T>)
    ensures |r| == |xs| + 1
    decreases |xs|
  {
    if xs == [] || key(xs[|xs| - 1]) >= key(x) then xs + [x]
    else Insert(xs[..|xs| - 1], x, key) + [xs[|xs| - 1]]
  }

  /** Inserting adds x and keeps every other element. */
  lemma {:induction false} InsertPermutes<T>(xs: seq<T>, x: T, key: T -> real)
    ensures multiset(Insert(xs, x, key)) == multiset(xs) + multiset{x}
    decreases |xs|
  {
    if !(xs == [] || key(xs[|xs| - 1]) >= key(x)) {
      InsertPermutes(xs[..|xs| - 1], x, key);
      assert xs == xs[..|xs| - 1] + [xs[|xs| - 1]];
    }
  }

  /** The stable sort of xs into non-increasing key order. */
  function SortDesc<T>(xs: seq<T>, key: T -> real): (r: seq<T>)
    ensures |r| == |xs|
    decreases |xs|
  {
    if xs == [] then [] else Insert(SortDesc(xs[..|xs| - 1], key), xs[|xs| - 1], key)
  }

  lemma {:induction false} InsertDescending<T>(xs: seq<T>, x: T, key: T -> real)
    requires Descending(xs, key)
    ensures Descending(Insert(xs, x, key), key)
    decreases |xs|
  {
    if xs == [] || key(xs[|xs| - 1]) >= key(x) {
    } else {
      var init, last := xs[..|xs| - 1], xs[|xs| - 1];
      InsertDescending(init, x, key);
      InsertPermutes(init, x, key);
      var r0 := Insert(init, x, key);
      forall y | y in r0 ensures key(y) >= key(last) {
        assert y in multiset(r0);
        if y != x {
          assert y in multiset(init);
          var i :| 0 <= i < |init| && init[i] == y;
          assert xs[i] == y;
        }
      }
      forall i, j | 0 <= i < j < |r0| + 1 ensures key((r0 + [last])[i]) >= key((r0 + [last])[j]) {
        if j == |r0| {
          assert (r0 + [last])[i] == r0[i] && r0[i] in r0;
        }
      }
    }
  }

  /** The sort puts its result in non-increasing key order. */
  lemma {:induction false} SortDescDescending<T>(xs: seq<T>, key: T -> real)
    ensures Descending(SortDesc(xs, key), key)
    decreases |xs|
  {
    if xs != [] {
      SortDescDescending(xs[..|xs| - 1], key);
      InsertDescending(SortDesc(xs[..|xs| - 1], key), xs[|xs| - 1], key);
    }
  }

  /** The sort neither drops nor adds an element: its result is a permutation of its input. */
  lemma {:induction false} SortDescPermutes<T>(xs: seq<T>, key: T -> real)
    ensures multiset(SortDesc(xs, key)) == multiset(xs)
    decreases |xs|
  {
    if xs != [] {
      SortDescPermutes(xs[..|xs| - 1], key);
      InsertPermutes(SortDesc(xs[..|xs| - 1], key), xs[|xs| - 1], key);
      assert xs == xs[..|xs| - 1] + [xs[|xs| - 1]];
    }
  }

  lemma {:induction false} WithKeyAppend<T>(xs: seq<T>, ys: seq<T>, key: T -> real, v: real)
    ensures WithKey(xs + ys, key, v) == WithKey(xs, key, v) + WithKey(ys, key, v)
    decreases |ys|
  {
    if ys == [] {
      assert xs + ys == xs;
    } else {
      var init, last := ys[..|ys| - 1], ys[|ys| - 1];
      assert (xs + ys)[..|xs + ys| - 1] == xs + init;
      WithKeyAppend(xs, init, key, v);
    }
  }

  lemma {:induction false} InsertWithKey<T>(xs: seq<T>, x: T, key: T -> real, v: real)
    ensures WithKey(Insert(xs, x, key), key, v) == WithKey(xs, key, v) + WithKey([x], key, v)
    decreases |xs|
  {
    if xs == [] || key(xs[|xs| - 1]) >= key(x) {
      WithKeyAppend(xs, [x], key, v);
    } else {
      var init, last := xs[..|xs| - 1], xs[|xs| - 1];
      InsertWithKey(init, x, key, v);
      WithKeyAppend(Insert(init, x, key), [last], key, v);
      WithKeyAppend(init, [last], key, v);
      assert init + [last] == xs;
      assert WithKey([x], key, v) == (if key(x) == v then [x] else []) by {
        assert [x][..0] == [];
      }
      assert WithKey([last], key, v) == (if key(last) == v then [last] else []) by {
        assert [last][..0] == [];
      }
    }
  }

  /**
    The sort is stable: the elements of any one key value come out in the
    order they went in.
   */
  lemma {:induction false} SortDescStable<T>(xs: seq<T>, key: T -> real, v: real)
    ensures WithKey(SortDesc(xs, key), key, v) == WithKey(xs, key, v)
    decreases |xs|
  {
    if xs != [] {
      var init, last := xs[..|xs| - 1], xs[|xs| - 1];
      SortDescStable(init, key, v);
      InsertWithKey(SortDesc(init, key), last, key, v);
      WithKeyAppend(init, [last], key, v);
      assert init + [last] == xs;
    }
  }

  /**
    list.sort on an array in place: insertion sort that shifts each element
    left past the elements of smaller key.
   */
  method SortInPlace<T>(a: array<T>, key: T -> real)
    modifies a
    ensures a[..] == SortDesc(old(a[..]), key)
  {
    ghost var s := a[..];
    var i := 0;
    while i < a.Length
      invariant 0 <= i <= a.Length
      invariant a[..i] == SortDesc(s[..i], key)
      invariant a[i..] == s[i..]
    {
      ghost var before := a[..];
      var j := InsertLast(a, i, key);
      SortStep(s, before, a[..], i, j, key);
      i := i + 1;
    }
    assert s[..a.Length] == s;
  }

  lemma SortDescSnoc<T>(s: seq<T>, i: nat, key: T -> real)
    requires i < |s|
    ensures SortDesc(s[..i + 1], key) == Insert(SortDesc(s[..i], key), s[i], key)
  {
    assert s[..i + 1][..i] == s[..i];
  }

  /**
    One pass of the insertion sort: a[i] moves left past the elements of
    a[..i] of smaller key and lands at the returned index j; the rest of a
    stays.
   */
  method InsertLast<T>(a: array<T>, i: nat, key: T -> real) returns (j: nat)
    requires i < a.Length
    modifies a
    ensures j <= i
    ensures a[..i + 1] == old(a[..i])[..j] + [old(a[i])] + old(a[..i])[j..]
    ensures j == 0 || key(old(a[j - 1])) >= key(old(a[i]))
    ensures forall k | j <= k < i :: key(old(a[k])) < key(old(a[i]))
    ensures forall k | i < k < a.Length :: a[k] == old(a[k])
  {
    var x := a[i];
    ghost var p := a[..i];
    j := i;
    while j > 0 && key(a[j - 1]) < key(x)
      invariant 0 <= j <= i
      invariant forall k | 0 <= k < j :: a[k] == p[k]
      invariant forall k | j < k <= i :: a[k] == p[k - 1]
      invariant forall k | i < k < a.Length :: a[k] == old(a[k])
      invariant forall k | j <= k < i :: key(p[k]) < key(x)
    {
      a[j] := a[j - 1];
      j := j - 1;
    }
    a[j] := x;
    Placed(a[..i + 1], p, x, j);
  }

  /** x goes in after the last element whose key is at least its own: past every later element of smaller key. */
  lemma {:induction false} InsertAt<T>(p: seq<T>, x: T, key: T -> real, j: nat)
    requires j <= |p|
    requires j == 0 || key(p[j - 1]) >= key(x)
    requires forall k | j <= k < |p| :: key(p[k]) < key(x)
    ensures Insert(p, x, key) == p[..j] + [x] + p[j..]
    decreases |p|
  {
    if j < |p| {
      var init, last := p[..|p| - 1], p[|p| - 1];
      assert key(last) < key(x);
      assert Insert(p, x, key) == Insert(init, x, key) + [last];
      assert forall k | j <= k < |init| :: init[k] == p[k];
      assert j == 0 || init[j - 1] == p[j - 1];
      InsertAt(init, x, key, j);
      assert init[..j] == p[..j];
      assert p[j..] == init[j..] + [last];
    } else {
      assert p[..j] == p && p[j..] == [];
    }
  }

  /** One step of the outer loop: after the pass over a[..i + 1], a[..i + 1] is the sorted prefix of length i + 1. */
  lemma SortStep<T>(s: seq<T>, b: seq<T>, c: seq<T>, i: nat, j: nat, key: T -> real)
    requires i < |s| == |b| == |c| && j <= i
    requires b[..i] == SortDesc(s[..i], key) && b[i..] == s[i..]
    requires c[..i + 1] == b[..i][..j] + [b[i]] + b[..i][j..]
    requires j == 0 || key(b[j - 1]) >= key(b[i])
    requires forall k | j <= k < i :: key(b[k]) < key(b[i])
    requires forall k | i < k < |c| :: c[k] == b[k]
    ensures c[..i + 1] == SortDesc(s[..i + 1], key) && c[i + 1..] == s[i + 1..]
  {
    var p := b[..i];
    assert b[i] == s[i] by {
      assert b[i..][0] == s[i..][0];
    }
    assert forall k | j <= k < i :: p[k] == b[k];
    assert j == 0 || p[j - 1] == b[j - 1];
    InsertAt(p, b[i], key, j);
    SortDescSnoc(s, i, key);
    forall k | i + 1 <= k < |s| ensures c[k] == s[k] {
      assert b[i..][k - i] == s[i..][k - i];
    }
    assert c[i + 1..] == s[i + 1..];
  }

  /** The array after the shifts: p[..j], then x, then p[j..]. */
  lemma Placed<T>(b: seq<T>, p: seq<T>, x: T, j: nat)
    requires |b| == |p| + 1 && j <= |p|
    requires forall k | 0 <= k < j :: b[k] == p[k]
    requires b[j] == x
    requires forall k | j < k < |b| :: b[k] == p[k - 1]
    ensures b == p[..j] + [x] + p[j..]
  {
    var q := p[..j] + [x] + p[j..];
    forall k | 0 <= k < |b| ensures b[k] == q[k] {
      if k < j {
        assert q[k] == p[k];
      } else if k > j {
        assert q[k] == p[k - 1];
      }
    }
  }
}
