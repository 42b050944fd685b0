/** Python's ordering built-ins as the engine uses them: `sorted(xs, key=k, reverse=True)`
    (a stable sort, so equal keys keep their input order), `max(xs, key=k)` (the first
    maximal element), list-comprehension filters and `xs[:n]`. */
module Sorting {

  /** Every element's key is at least that of every later element. */
  predicate NonIncreasing<T>(s: seq<T>, key: T -> real) {
    forall i, j :: 0 <= i < j < |s| ==> key(s[i]) >= key(s[j])
  }

  /** The elements of `s` whose key is `k`, in their order in `s`. */
  function WithKey<T>(s: seq<T>, key: T -> real, k: real): seq<T>
  {
    if s == [] then []
    else (if key(s[0]) == k then [s[0]] else []) + WithKey(s[1..], key, k)
  }

  /** `[x for x in s if p(x)]` */
  function Filter<T>(s: seq<T>, p: T -> bool): (r: seq<T>)
    ensures |r| <= |s|
  {
    if s == [] then []
    else (if p(s[0]) then [s[0]] else []) + Filter(s[1..], p)
  }

  /** The filter keeps part of what `s` holds. */
  lemma {:induction false} FilterMultiset<T>(s: seq<T>, p: T -> bool)
    ensures multiset(Filter(s, p)) <= multiset(s)
    decreases |s|
  {
    if s != [] {
      FilterMultiset(s[1..], p);
      assert s == [s[0]] + s[1..];
    }
  }

  /** The filter keeps exactly the elements that pass. */
  lemma {:induction false} FilterMembers<T>(s: seq<T>, p: T -> bool)
    ensures forall x :: x in Filter(s, p) ==> x in s && p(x)
    ensures forall x :: x in s && p(x) ==> x in Filter(s, p)
    decreases |s|
  {
    if s != [] {
      FilterMembers(s[1..], p);
      var head := if p(s[0]) then [s[0]] else [];
      assert Filter(s, p) == head + Filter(s[1..], p);
      assert forall x :: x in s ==> x == s[0] || x in s[1..];
    }
  }

  /** `s[:n]` */
  function Take<T>(s: seq<T>, n: nat): (r: seq<T>)
    ensures |r| == if |s| <= n then |s| else n
    ensures forall i :: 0 <= i < |r| ==> r[i] == s[i]
  {
    if |s| <= n then s else s[..n]
  }

  /** Inserts `x` in front of the first element whose key is not larger, so that
      `x` precedes every element of `t` with the same key. */
  function InsertDesc<T>(x: T, t: seq<T>, key: T -> real): seq<T>
  {
    if t == [] || key(x) >= key(t[0]) then [x] + t
    else [t[0]] + InsertDesc(x, t[1..], key)
  }

  /** Insertion adds `x` and keeps a non-increasing sequence non-increasing. */
  lemma {:induction false} InsertDescFacts<T>(x: T, t: seq<T>, key: T -> real)
    requires NonIncreasing(t, key)
    ensures multiset(InsertDesc(x, t, key)) == multiset(t) + multiset{x}
    ensures NonIncreasing(InsertDesc(x, t, key), key)
    decreases |t|
  {
    if t != [] && key(x) < key(t[0]) {
      var rest := InsertDesc(x, t[1..], key);
      assert t == [t[0]] + t[1..];
      InsertDescFacts(x, t[1..], key);
      forall y | y in rest ensures key(t[0]) >= key(y) {
        assert y in multiset(rest);
        if y != x {
          assert y in multiset(t[1..]);
          var j :| 0 <= j < |t[1..]| && t[1..][j] == y;
          assert t[j + 1] == y;
        }
      }
      HeadBefore(t[0], rest, key);
    } else {
      forall y | y in t ensures key(x) >= key(y) {
        var j :| 0 <= j < |t| && t[j] == y;
      }
      HeadBefore(x, t, key);
    }
  }

  /** A head whose key bounds every key of a non-increasing tail gives a non-increasing
      sequence. */
  lemma HeadBefore<T>(h: T, rest: seq<T>, key: T -> real)
    requires NonIncreasing(rest, key)
    requires forall y :: y in rest ==> key(h) >= key(y)
    ensures NonIncreasing([h] + rest, key)
  {
    var r := [h] + rest;
    forall i, j | 0 <= i < j < |r| ensures key(r[i]) >= key(r[j]) {
      assert r[j] == rest[j - 1];
      if i > 0 {
        assert r[i] == rest[i - 1];
      }
    }
  }

  /** `sorted(s, key=key, reverse=True)`: a permutation of `s` in non-increasing key
      order. Stability is `SortDescStable`. */
  function SortDesc<T>(s: seq<T>, key: T -> real): (r: seq<T>)
    ensures multiset(r) == multiset(s)
    ensures NonIncreasing(r, key)
  {
    if s == [] then []
    else
      assert s == [s[0]] + s[1..];
      InsertDescFacts(s[0], SortDesc(s[1..], key), key);
      InsertDesc(s[0], SortDesc(s[1..], key), key)
  }

  lemma {:induction false} WithKeyAppend<T>(a: seq<T>, b: seq<T>, key: T -> real, k: real)
    ensures WithKey(a + b, key, k) == WithKey(a, key, k) + WithKey(b, key, k)
    decreases |a|
  {
    if a == [] {
      assert a + b == b;
    } else {
      var head := if key(a[0]) == k then [a[0]] else [];
      assert (a + b)[0] == a[0];
      assert (a + b)[1..] == a[1..] + b;
      assert WithKey(a + b, key, k) == head + WithKey(a[1..] + b, key, k);
      WithKeyAppend(a[1..], b, key, k);
      assert WithKey(a, key, k) == head + WithKey(a[1..], key, k);
      assert head + (WithKey(a[1..], key, k) + WithKey(b, key, k))
          == (head + WithKey(a[1..], key, k)) + WithKey(b, key, k);
    }
  }

  lemma {:induction false} InsertDescStable<T>(x: T, t: seq<T>, key: T -> real, k: real)
    ensures WithKey(InsertDesc(x, t, key), key, k) ==
            (if key(x) == k then [x] else []) + WithKey(t, key, k)
    decreases |t|
  {
    var mine := if key(x) == k then [x] else [];
    if t == [] || key(x) >= key(t[0]) {
      WithKeyAppend([x], t, key, k);
      WithKeySingle(x, key, k);
    } else {
      var rest := InsertDesc(x, t[1..], key);
      var head := if key(t[0]) == k then [t[0]] else [];
      var tail := WithKey(t[1..], key, k);
      assert InsertDesc(x, t, key) == [t[0]] + rest;
      WithKeyAppend([t[0]], rest, key, k);
      WithKeySingle(t[0], key, k);
      InsertDescStable(x, t[1..], key, k);
      assert WithKey(rest, key, k) == mine + tail;
      assert WithKey(t, key, k) == head + tail;
      assert head == [] || mine == [];
      assert head + (mine + tail) == mine + (head + tail);
    }
  }

  lemma WithKeySingle<T>(x: T, key: T -> real, k: real)
    ensures WithKey([x], key, k) == if key(x) == k then [x] else []
  {
    assert [x][1..] == [];
  }

  /** Stability: for every key value, the elements with that key come out of the sort
      in the order they went in. */
  lemma {:induction false} SortDescStable<T>(s: seq<T>, key: T -> real, k: real)
    ensures WithKey(SortDesc(s, key), key, k) == WithKey(s, key, k)
    decreases |s|
  {
    if s != [] {
      SortDescStable(s[1..], key, k);
      InsertDescStable(s[0], SortDesc(s[1..], key), key, k);
    }
  }

  lemma {:induction false} FilterNonIncreasing<T>(s: seq<T>, p: T -> bool, key: T -> real)
    requires NonIncreasing(s, key)
    ensures NonIncreasing(Filter(s, p), key)
    decreases |s|
  {
    if s != [] {
      var rest := Filter(s[1..], p);
      FilterNonIncreasing(s[1..], p, key);
      FilterMembers(s[1..], p);
      forall y | y in rest ensures key(s[0]) >= key(y) {
        var j :| 0 <= j < |s[1..]| && s[1..][j] == y;
        assert s[j + 1] == y;
      }
      if p(s[0]) {
        HeadBefore(s[0], rest, key);
      }
    }
  }

  /** Top-`n` after filtering (`[x for x in sorted(...) if p(x)][:n]`): an element of
      the input that passes the filter but is not kept means all `n` places are taken,
      each by an element whose key is at least as large. */
  lemma TopOfFiltered<T>(s: seq<T>, key: T -> real, p: T -> bool, n: nat, x: T)
    requires x in s && p(x)
    requires x !in Take(Filter(SortDesc(s, key), p), n)
    ensures |Take(Filter(SortDesc(s, key), p), n)| == n
    ensures forall y :: y in Take(Filter(SortDesc(s, key), p), n) ==> key(y) >= key(x)
  {
    var f := Filter(SortDesc(s, key), p);
    assert x in multiset(SortDesc(s, key));
    FilterNonIncreasing(SortDesc(s, key), p, key);
    FilterMembers(SortDesc(s, key), p);
    var q :| 0 <= q < |f| && f[q] == x;
    assert n <= q;
    forall y | y in Take(f, n) ensures key(y) >= key(x) {
      var i :| 0 <= i < |Take(f, n)| && Take(f, n)[i] == y;
      assert f[i] == y;
    }
  }

  /** `s[:n]` keeps part of what `s` holds. */
  lemma TakeMultiset<T>(s: seq<T>, n: nat)
    ensures multiset(Take(s, n)) <= multiset(s)
  {
    if n < |s| {
      assert s == s[..n] + s[n..];
    }
  }

  /** `top` is a top-`n` of `s` by `key`: an element that `s` holds more often than
      `top` does means all `n` places are taken, each by an element whose key is at
      least as large. */
  ghost predicate KeepsTop<T>(top: seq<T>, s: seq<T>, key: T -> real, n: nat) {
    forall x :: x in s && multiset(top)[x] < multiset(s)[x] ==>
      |top| == n && forall k :: 0 <= k < |top| ==> key(top[k]) >= key(x)
  }

  /** `sorted(s, ...)[:n]` is a top-`n` of `s`. */
  lemma TopOfSorted<T>(s: seq<T>, key: T -> real, n: nat)
    ensures KeepsTop(Take(SortDesc(s, key), n), s, key, n)
  {
    var sorted := SortDesc(s, key);
    var top := Take(sorted, n);
    var rest := sorted[|top|..];
    assert sorted == top + rest;
    assert multiset(sorted) == multiset(top) + multiset(rest);
    forall x | x in s && multiset(top)[x] < multiset(s)[x]
      ensures |top| == n && forall k :: 0 <= k < |top| ==> key(top[k]) >= key(x)
    {
      assert x in multiset(rest);
      LaterKeys(sorted, key, |top|, x);
    }
  }

  /** In a non-increasing list, an element at or after position `m` has a key no
      larger than any element before `m`. */
  lemma LaterKeys<T>(s: seq<T>, key: T -> real, m: nat, x: T)
    requires NonIncreasing(s, key) && m <= |s| && x in s[m..]
    ensures forall k :: 0 <= k < m ==> key(s[k]) >= key(x)
  {
    var q :| 0 <= q < |s[m..]| && s[m..][q] == x;
    assert s[m + q] == x;
  }

  /** `[x for x in sorted(s, ...) if p(x)][:n]` keeps at most `n` elements of `s`, each
      passing the filter, in non-increasing key order. */
  lemma TopFilteredFacts<T>(s: seq<T>, key: T -> real, p: T -> bool, n: nat)
    ensures var top := Take(Filter(SortDesc(s, key), p), n);
            |top| <= n && NonIncreasing(top, key) && multiset(top) <= multiset(s)
            && forall i :: 0 <= i < |top| ==> p(top[i]) && top[i] in s
  {
    var sorted := SortDesc(s, key);
    var f := Filter(sorted, p);
    var top := Take(f, n);
    TakeMultiset(f, n);
    FilterMultiset(sorted, p);
    FilterNonIncreasing(sorted, p, key);
    FilterMembers(sorted, p);
    forall i | 0 <= i < |top| ensures p(top[i]) && top[i] in s {
      assert top[i] == f[i];
      assert f[i] in sorted;
      assert f[i] in multiset(sorted);
    }
  }

  /** The top `n > 0` after filtering is empty exactly when nothing passes the
      filter. */
  lemma TopFilteredEmptyIff<T>(s: seq<T>, key: T -> real, p: T -> bool, n: nat)
    requires n > 0
    ensures Take(Filter(SortDesc(s, key), p), n) == [] <==> forall i :: 0 <= i < |s| ==> !p(s[i])
  {
    var sorted := SortDesc(s, key);
    var f := Filter(sorted, p);
    FilterMembers(sorted, p);
    if f == [] {
      forall i | 0 <= i < |s| ensures !p(s[i]) {
        assert s[i] in multiset(sorted);
      }
    } else {
      assert f[0] in sorted;
      assert f[0] in multiset(s);
      assert |Take(f, n)| >= 1;
    }
  }

  /** `[x for x in s if key(x) > t]` */
  function KeepAbove<T>(s: seq<T>, key: T -> real, t: real): (r: seq<T>)
    ensures |r| <= |s|
  {
    if s == [] then []
    else (if key(s[0]) > t then [s[0]] else []) + KeepAbove(s[1..], key, t)
  }

  /** The threshold filter keeps exactly the elements whose key is above it. */
  lemma {:induction false} KeepAboveMembers<T>(s: seq<T>, key: T -> real, t: real)
    ensures forall x :: x in KeepAbove(s, key, t) ==> x in s && key(x) > t
    ensures forall x :: x in s && key(x) > t ==> x in KeepAbove(s, key, t)
    decreases |s|
  {
    if s != [] {
      KeepAboveMembers(s[1..], key, t);
      var head := if key(s[0]) > t then [s[0]] else [];
      assert KeepAbove(s, key, t) == head + KeepAbove(s[1..], key, t);
      assert forall x :: x in s ==> x == s[0] || x in s[1..];
    }
  }

  /** A threshold every element clears keeps everything. */
  lemma {:induction false} KeepAboveAll<T>(s: seq<T>, key: T -> real, t: real)
    requires forall i :: 0 <= i < |s| ==> key(s[i]) > t
    ensures KeepAbove(s, key, t) == s
    decreases |s|
  {
    if s != [] {
      KeepAboveAll(s[1..], key, t);
      assert s == [s[0]] + s[1..];
    }
  }

  /** Top-`n` before a key threshold (`[x for x in sorted(...)[:n] if key(x) > t]`):
      an element above the threshold that is not kept means `n` elements were kept,
      each with a key at least as large. */
  lemma TopAboveThreshold<T>(s: seq<T>, key: T -> real, t: real, n: nat, x: T)
    requires x in s && key(x) > t
    requires x !in KeepAbove(Take(SortDesc(s, key), n), key, t)
    ensures |KeepAbove(Take(SortDesc(s, key), n), key, t)| == n
    ensures forall y :: y in KeepAbove(Take(SortDesc(s, key), n), key, t) ==> key(y) >= key(x)
  {
    var sorted := SortDesc(s, key);
    var top := Take(sorted, n);
    assert x in multiset(sorted);
    var q :| 0 <= q < |sorted| && sorted[q] == x;
    KeepAboveMembers(top, key, t);
    assert n <= q;
    assert top == sorted[..n];
    assert forall i :: 0 <= i < n ==> key(top[i]) >= key(x) > t;
    KeepAboveAll(top, key, t);
  }

  /** On a non-increasing sequence, cutting at a key threshold and taking the first `n`
      commute: every element above the threshold comes before every element below it. */
  lemma {:induction false} KeepAboveTake<T>(s: seq<T>, key: T -> real, t: real, n: nat)
    requires NonIncreasing(s, key)
    ensures KeepAbove(Take(s, n), key, t) == Take(KeepAbove(s, key, t), n)
    decreases |s|
  {
    if s == [] || n == 0 {
      KeepAboveTakeEmpty(s, key, t, n);
    } else if key(s[0]) <= t {
      KeepAboveTakeLow(s, key, t, n);
    } else {
      NonIncreasingTail(s, key);
      KeepAboveTake(s[1..], key, t, n - 1);
      KeepAboveTakeStep(s, key, t, n);
    }
  }

  /** With nothing to take from, or nothing to take, both sides are empty. */
  lemma KeepAboveTakeEmpty<T>(s: seq<T>, key: T -> real, t: real, n: nat)
    requires s == [] || n == 0
    ensures KeepAbove(Take(s, n), key, t) == [] == Take(KeepAbove(s, key, t), n)
  {
    if s == [] {
      assert Take(s, n) == [] && KeepAbove(s, key, t) == [];
    } else {
      assert Take(s, n) == [];
    }
  }

  /** When the first key misses the threshold, both sides are empty. */
  lemma KeepAboveTakeLow<T>(s: seq<T>, key: T -> real, t: real, n: nat)
    requires NonIncreasing(s, key) && s != [] && n > 0 && key(s[0]) <= t
    ensures KeepAbove(Take(s, n), key, t) == [] == Take(KeepAbove(s, key, t), n)
  {
    KeepAboveNone(s, key, t);
    TakeNonIncreasing(s, key, n);
    KeepAboveNone(Take(s, n), key, t);
  }

  /** When the first key clears the threshold, it heads both sides. */
  lemma KeepAboveTakeStep<T>(s: seq<T>, key: T -> real, t: real, n: nat)
    requires s != [] && n > 0 && key(s[0]) > t
    requires KeepAbove(Take(s[1..], n - 1), key, t) == Take(KeepAbove(s[1..], key, t), n - 1)
    ensures KeepAbove(Take(s, n), key, t) == Take(KeepAbove(s, key, t), n)
  {
    var rest := KeepAbove(s[1..], key, t);
    TakeCons(s, n);
    var front := Take(s, n);
    assert front[0] == s[0] && front[1..] == Take(s[1..], n - 1);
    assert KeepAbove(front, key, t) == [s[0]] + KeepAbove(Take(s[1..], n - 1), key, t);
    assert KeepAbove(s, key, t) == [s[0]] + rest;
    TakeCons([s[0]] + rest, n);
    assert ([s[0]] + rest)[1..] == rest;
  }

  lemma NonIncreasingTail<T>(s: seq<T>, key: T -> real)
    requires NonIncreasing(s, key) && s != []
    ensures NonIncreasing(s[1..], key)
  {
    forall i, j | 0 <= i < j < |s[1..]| ensures key(s[1..][i]) >= key(s[1..][j]) {
      assert s[1..][i] == s[i + 1] && s[1..][j] == s[j + 1];
    }
  }

  lemma TakeNonIncreasing<T>(s: seq<T>, key: T -> real, n: nat)
    requires NonIncreasing(s, key)
    ensures NonIncreasing(Take(s, n), key)
  {
    var r := Take(s, n);
    forall i, j | 0 <= i < j < |r| ensures key(r[i]) >= key(r[j]) {
      assert r[i] == s[i] && r[j] == s[j];
    }
  }

  /** `s[:n]` of a non-empty `s` with `n > 0` is the head before `s[1:][:n - 1]`. */
  lemma TakeCons<T>(s: seq<T>, n: nat)
    requires s != [] && n > 0
    ensures Take(s, n) == [s[0]] + Take(s[1..], n - 1)
  {
    if |s| > n {
      assert s[..n] == [s[0]] + s[1..][..n - 1];
    }
  }

  /** Nothing of a non-increasing sequence clears a threshold its first key misses. */
  lemma KeepAboveNone<T>(s: seq<T>, key: T -> real, t: real)
    requires NonIncreasing(s, key) && s != [] && key(s[0]) <= t
    ensures KeepAbove(s, key, t) == []
  {
    KeepAboveMembers(s, key, t);
    assert forall x :: x in s ==> key(x) <= t;
  }

  /** Filtering and picking one key value commute: the filter keeps the order of the
      elements that share a key. */
  lemma {:induction false} FilterWithKey<T>(s: seq<T>, p: T -> bool, key: T -> real, k: real)
    ensures WithKey(Filter(s, p), key, k) == Filter(WithKey(s, key, k), p)
    decreases |s|
  {
    if s != [] {
      var x := s[0];
      FilterWithKey(s[1..], p, key, k);
      var head := if p(x) then [x] else [];
      assert Filter(s, p) == head + Filter(s[1..], p);
      WithKeyAppend(head, Filter(s[1..], p), key, k);
      assert WithKey(head, key, k) == (if p(x) && key(x) == k then [x] else []) by {
        if p(x) { WithKeySingle(x, key, k); }
      }
      var rest := WithKey(s[1..], key, k);
      if key(x) == k {
        assert WithKey(s, key, k) == [x] + rest;
        FilterCons(x, rest, p);
      } else {
        assert WithKey(s, key, k) == rest;
      }
    }
  }

  lemma FilterCons<T>(x: T, b: seq<T>, p: T -> bool)
    ensures Filter([x] + b, p) == (if p(x) then [x] else []) + Filter(b, p)
  {
    assert ([x] + b)[0] == x;
    assert ([x] + b)[1..] == b;
  }

  /** `max(range(len(s)), key=lambda i: s[i])`: the index of the FIRST maximal
      element, as Python's `max` keeps the earliest of equal candidates. */
  function FirstArgMax(s: seq<int>): (b: nat)
    requires |s| > 0
    ensures b < |s|
    ensures forall j :: 0 <= j < |s| ==> s[j] <= s[b]
    ensures forall j :: 0 <= j < b ==> s[j] < s[b]
  {
    if |s| == 1 then 0
    else
      var b := FirstArgMax(s[..|s| - 1]);
      if s[|s| - 1] > s[b] then |s| - 1 else b
  }

  /** The two properties of `FirstArgMax` single out its index. */
  lemma FirstArgMaxUnique(s: seq<int>, i: nat)
    requires i < |s|
    ensures i == FirstArgMax(s) <==>
            (forall j :: 0 <= j < |s| ==> s[j] <= s[i]) && (forall j :: 0 <= j < i ==> s[j] < s[i])
  {
  }
}
