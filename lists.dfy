/** Sequence operations the pages build out of `Array.prototype` methods:
    de-duplication by a key (`reduce` with `find`, or `Array.from(new Set(..))`),
    removal of every occurrence of a value (`filter(c => c !== v)`), and an
    order-preserving `filter` by a condition. */
module Lists {

  /** A prefix one element longer is the prefix and that element. */
  lemma TakeSnoc<T>(xs: seq<T>, i: nat)
    requires i < |xs|
    ensures xs[..i + 1] == xs[..i] + [xs[i]]
  {
  }

  /** The keys that occur in `xs`. */
  function Keys<T, K>(xs: seq<T>, key: T -> K): set<K>
  {
    set i | 0 <= i < |xs| :: key(xs[i])
  }

  lemma KeysSnoc<T, K>(xs: seq<T>, x: T, key: T -> K)
    ensures Keys(xs + [x], key) == Keys(xs, key) + {key(x)}
  {
    var ys := xs + [x];
    forall k | k in Keys(ys, key) ensures k in Keys(xs, key) + {key(x)} {
      var i :| 0 <= i < |ys| && key(ys[i]) == k;
      if i < |xs| {
        assert ys[i] == xs[i];
      }
    }
    forall k | k in Keys(xs, key) ensures k in Keys(ys, key) {
      var i :| 0 <= i < |xs| && key(xs[i]) == k;
      assert ys[i] == xs[i];
    }
    assert ys[|xs|] == x;
  }

  /** The first document (or value) of every key, in the order of their first
      appearance: what the `reduce` that pushes an element only when no earlier
      element has its key computes, and what `Array.from(new Set(xs))` computes
      when the key is the value itself. */
  function UniqueBy<T, K(==)>(xs: seq<T>, key: T -> K): (r: seq<T>)
    ensures |r| <= |xs|
    ensures Keys(r, key) == Keys(xs, key)
    ensures forall i, j :: 0 <= i < j < |r| ==> key(r[i]) != key(r[j])
  {
    if xs == [] then []
    else
      var front, x := xs[..|xs| - 1], xs[|xs| - 1];
      var p := UniqueBy(front, key);
      assert xs == front + [x];
      KeysSnoc(front, x, key);
      if key(x) in Keys(p, key) then p
      else
        KeysSnoc(p, x, key);
        p + [x]
  }

  /** One more element: it is kept exactly when its key is new. */
  lemma UniqueBySnoc<T, K>(xs: seq<T>, x: T, key: T -> K)
    ensures UniqueBy(xs + [x], key) ==
      if key(x) in Keys(UniqueBy(xs, key), key) then UniqueBy(xs, key) else UniqueBy(xs, key) + [x]
  {
    assert (xs + [x])[..|xs|] == xs;
  }

  /** The position of the first element of `xs` that has key `k`. */
  function FirstIndex<T, K(==)>(xs: seq<T>, key: T -> K, k: K): (i: nat)
    requires k in Keys(xs, key)
    ensures i < |xs| && key(xs[i]) == k
    ensures forall m :: 0 <= m < i ==> key(xs[m]) != k
  {
    var front := xs[..|xs| - 1];
    if k in Keys(front, key) then
      var i := FirstIndex(front, key, k);
      assert forall m :: 0 <= m < i ==> xs[m] == front[m];
      i
    else
      assert forall m :: 0 <= m < |xs| - 1 ==> xs[m] == front[m];
      |xs| - 1
  }

  lemma FirstIndexSnoc<T, K>(front: seq<T>, x: T, key: T -> K, k: K)
    requires k in Keys(front, key)
    ensures k in Keys(front + [x], key)
    ensures FirstIndex(front + [x], key, k) == FirstIndex(front, key, k)
  {
    KeysSnoc(front, x, key);
    assert (front + [x])[..|front|] == front;
  }

  lemma FirstIndexNew<T, K>(front: seq<T>, x: T, key: T -> K)
    requires key(x) !in Keys(front, key)
    ensures key(x) in Keys(front + [x], key)
    ensures FirstIndex(front + [x], key, key(x)) == |front|
  {
    KeysSnoc(front, x, key);
    assert (front + [x])[..|front|] == front;
  }

  /** Every element of `r` is the first element of `xs` with its key. */
  ghost predicate AllFirst<T, K>(xs: seq<T>, r: seq<T>, key: T -> K)
  {
    forall j :: 0 <= j < |r| ==>
      key(r[j]) in Keys(xs, key) && r[j] == xs[FirstIndex(xs, key, key(r[j]))]
  }

  /** The elements of `r` appear in the order of their first positions in `xs`. */
  ghost predicate InFirstOrder<T, K>(xs: seq<T>, r: seq<T>, key: T -> K)
  {
    forall j1, j2 :: 0 <= j1 < j2 < |r| ==>
      key(r[j1]) in Keys(xs, key) && key(r[j2]) in Keys(xs, key) &&
      FirstIndex(xs, key, key(r[j1])) < FirstIndex(xs, key, key(r[j2]))
  }

  /** Every kept element is the first one with its key. */
  lemma {:induction false} UniqueByKeepsFirst<T, K>(xs: seq<T>, key: T -> K)
    ensures AllFirst(xs, UniqueBy(xs, key), key)
  {
    var r := UniqueBy(xs, key);
    if xs != [] {
      var front, x := xs[..|xs| - 1], xs[|xs| - 1];
      var p := UniqueBy(front, key);
      UniqueByKeepsFirst(front, key);
      assert xs == front + [x];
      forall j | 0 <= j < |r|
        ensures key(r[j]) in Keys(xs, key) && r[j] == xs[FirstIndex(xs, key, key(r[j]))]
      {
        if j < |p| {
          assert r[j] == p[j];
          var i := FirstIndex(front, key, key(p[j]));
          assert p[j] == front[i];
          FirstIndexSnoc(front, x, key, key(p[j]));
        } else {
          assert r[j] == x;
          FirstIndexNew(front, x, key);
        }
      }
    }
  }

  /** The kept elements appear in the order of their positions in `xs`; with
      UniqueByKeepsFirst, the result is the subsequence of `xs` made of the first
      element of every key. */
  lemma {:induction false} UniqueByKeepsOrder<T, K>(xs: seq<T>, key: T -> K)
    ensures InFirstOrder(xs, UniqueBy(xs, key), key)
  {
    var r := UniqueBy(xs, key);
    if xs != [] {
      var front, x := xs[..|xs| - 1], xs[|xs| - 1];
      var p := UniqueBy(front, key);
      UniqueByKeepsOrder(front, key);
      assert xs == front + [x];
      forall j1, j2 | 0 <= j1 < j2 < |r|
        ensures key(r[j1]) in Keys(xs, key) && key(r[j2]) in Keys(xs, key) &&
          FirstIndex(xs, key, key(r[j1])) < FirstIndex(xs, key, key(r[j2]))
      {
        assert r[j1] == p[j1];
        FirstIndexSnoc(front, x, key, key(p[j1]));
        if j2 < |p| {
          assert r[j2] == p[j2];
          FirstIndexSnoc(front, x, key, key(p[j2]));
        } else {
          assert r[j2] == x;
          FirstIndexNew(front, x, key);
        }
      }
    }
  }

  /** `filter(c => c !== x)`: every occurrence of `x` removed, the rest kept in
      order. */
  function Without<T(==)>(s: seq<T>, x: T): (r: seq<T>)
    ensures multiset(r) == multiset(s)[x := 0]
  {
    if s == [] then []
    else
      assert s == [s[0]] + s[1..];
      (if s[0] != x then [s[0]] else []) + Without(s[1..], x)
  }

  lemma {:induction false} WithoutAppend<T>(a: seq<T>, b: seq<T>, x: T)
    ensures Without(a + b, x) == Without(a, x) + Without(b, x)
  {
    if a == [] {
      assert a + b == b;
    } else {
      assert (a + b)[1..] == a[1..] + b;
      WithoutAppend(a[1..], b, x);
    }
  }

  lemma {:induction false} WithoutAbsent<T>(s: seq<T>, x: T)
    requires x !in s
    ensures Without(s, x) == s
  {
    if s != [] {
      WithoutAbsent(s[1..], x);
    }
  }

  /** `filter(p)`: the elements satisfying `p`, in order. */
  function FilterBy<T>(xs: seq<T>, p: T -> bool): (r: seq<T>)
    ensures |r| <= |xs|
    ensures forall i :: 0 <= i < |r| ==> p(r[i])
  {
    if xs == [] then []
    else
      var front, x := xs[..|xs| - 1], xs[|xs| - 1];
      FilterBy(front, p) + if p(x) then [x] else []
  }

  /** One more element: it is kept exactly when it satisfies `p`. */
  lemma FilterBySnoc<T>(xs: seq<T>, x: T, p: T -> bool)
    ensures FilterBy(xs + [x], p) == FilterBy(xs, p) + if p(x) then [x] else []
  {
    assert (xs + [x])[..|xs|] == xs;
  }

  /** The kept elements come from `xs`, and every element of `xs` that
      satisfies `p` is kept: there are as many copies of each value satisfying
      `p` as in `xs`, and no copy of any other value. */
  lemma {:induction false} FilterByMembers<T>(xs: seq<T>, p: T -> bool)
    ensures forall x :: p(x) ==> multiset(FilterBy(xs, p))[x] == multiset(xs)[x]
    ensures forall x :: !p(x) ==> multiset(FilterBy(xs, p))[x] == 0
  {
    if xs != [] {
      var front, x := xs[..|xs| - 1], xs[|xs| - 1];
      FilterByMembers(front, p);
      assert xs == front + [x];
    }
  }

  lemma {:induction false} FilterByAppend<T>(a: seq<T>, b: seq<T>, p: T -> bool)
    ensures FilterBy(a + b, p) == FilterBy(a, p) + FilterBy(b, p)
  {
    if b == [] {
      assert a + b == a;
    } else {
      var front, x := b[..|b| - 1], b[|b| - 1];
      FilterByAppend(a, front, p);
      assert a + b == (a + front) + [x];
      FilterBySnoc(a + front, x, p);
      FilterBySnoc(front, x, p);
      assert b == front + [x];
    }
  }

  lemma {:induction false} FilterByAll<T>(xs: seq<T>, p: T -> bool)
    requires forall i :: 0 <= i < |xs| ==> p(xs[i])
    ensures FilterBy(xs, p) == xs
  {
    if xs != [] {
      FilterByAll(xs[..|xs| - 1], p);
      assert xs == xs[..|xs| - 1] + [xs[|xs| - 1]];
    }
  }

  /** `filter(Boolean).length` over a list of test outcomes. */
  function CountTrue(bs: seq<bool>): (n: nat)
    ensures n <= |bs|
    ensures n == |bs| <==> forall i :: 0 <= i < |bs| ==> bs[i]
    ensures n == 0 <==> forall i :: 0 <= i < |bs| ==> !bs[i]
  {
    if bs == [] then 0 else (if bs[0] then 1 else 0) + CountTrue(bs[1..])
  }
}
