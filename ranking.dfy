/** Ranking by a real-valued key, as the query layers do it: a stable sort in
    descending order of the key, and the first n elements of that order
    (`nlargest`, `sorted(..., reverse=True)[:n]`, `argsort(...)[::-1][:n]`). */
module Ranking {

  function Min(a: int, b: int): int
  {
    if a <= b then a else b
  }

  function Max(a: int, b: int): int
  {
    if a <= b then b else a
  }

  /** The first n elements of s, or all of s when it is shorter (a Python
      slice s[:n] with n >= 0). */
  function Take<T>(s: seq<T>, n: nat): (r: seq<T>)
    ensures |r| == Min(n, |s|) && r == s[..|r|]
    ensures |s| <= n ==> r == s
  {
    s[..Min(n, |s|)]
  }

  /** Keys never increase along s. */
  ghost predicate SortedDesc<T>(s: seq<T>, key: T -> real)
  {
    forall i, j :: 0 <= i < j < |s| ==> key(s[j]) <= key(s[i])
  }

  /** The elements of s whose key is k, in the order of s. */
  function WithKey<T>(s: seq<T>, key: T -> real, k: real): seq<T>
  {
    if |s| == 0 then []
    else (if key(s[0]) == k then [s[0]] else []) + WithKey(s[1..], key, k)
  }

  /** Places x in front of the first element whose key is not larger than x's. */
  function Insert<T>(x: T, s: seq<T>, key: T -> real): (r: seq<T>)
    ensures |r| == |s| + 1
    ensures multiset(r) == multiset(s) + multiset{x}
  {
    if |s| == 0 then [x]
    else if key(s[0]) <= key(x) then [x] + s
    else
      assert s == [s[0]] + s[1..];
      [s[0]] + Insert(x, s[1..], key)
  }

  lemma {:induction false} InsertKeepsOrder<T>(x: T, s: seq<T>, key: T -> real)
    requires SortedDesc(s, key)
    ensures SortedDesc(Insert(x, s, key), key)
  {
    if |s| > 0 && key(x) < key(s[0]) {
      var t := Insert(x, s[1..], key);
      InsertKeepsOrder(x, s[1..], key);
      assert s == [s[0]] + s[1..];
      forall j | 0 <= j < |t| ensures key(t[j]) <= key(s[0]) {
        assert t[j] in multiset(s[1..]) + multiset{x};
        if t[j] != x {
          assert t[j] in s[1..];
        }
      }
    }
  }

  /** Stable insertion sort, largest key first. */
  function SortDesc<T>(s: seq<T>, key: T -> real): (r: seq<T>)
    ensures |r| == |s|
    ensures multiset(r) == multiset(s)
    ensures SortedDesc(r, key)
  {
    if |s| == 0 then []
    else
      assert s == [s[0]] + s[1..];
      InsertKeepsOrder(s[0], SortDesc(s[1..], key), key);
      Insert(s[0], SortDesc(s[1..], key), key)
  }

  /** In a descending sequence, nothing after position m outranks anything before it. */
  lemma PrefixOutranksRest<T>(t: seq<T>, key: T -> real, m: nat)
    requires SortedDesc(t, key) && m <= |t|
    ensures forall x, y :: x in multiset(t[m..]) && y in t[..m] ==> key(x) <= key(y)
  {
    forall x, y | x in multiset(t[m..]) && y in t[..m]
      ensures key(x) <= key(y)
    {
      var j :| 0 <= j < |t[m..]| && t[m..][j] == x;
      var i :| 0 <= i < m && t[..m][i] == y;
      assert t[i] == y && t[m + j] == x;
    }
  }

  /** The first min(n, |s|) elements of the descending order. */
  function TopN<T>(s: seq<T>, key: T -> real, n: nat): (r: seq<T>)
    ensures |r| == Min(n, |s|)
    ensures SortedDesc(r, key)
    ensures multiset(r) <= multiset(s)
    ensures forall x, y :: x in multiset(s) - multiset(r) && y in r ==> key(x) <= key(y)
  {
    var t := SortDesc(s, key);
    var m := Min(n, |s|);
    assert t == t[..m] + t[m..];
    assert multiset(t) == multiset(t[..m]) + multiset(t[m..]);
    assert multiset(s) - multiset(t[..m]) == multiset(t[m..]);
    PrefixOutranksRest(t, key, m);
    t[..m]
  }

  lemma {:induction false} InsertKeepsKeyOrder<T>(x: T, s: seq<T>, key: T -> real, k: real)
    ensures WithKey(Insert(x, s, key), key, k) == (if key(x) == k then [x] else []) + WithKey(s, key, k)
  {
    if |s| == 0 {
      assert WithKey([x], key, k) == (if key(x) == k then [x] else []) + WithKey([x][1..], key, k);
    } else if key(s[0]) <= key(x) {
      assert ([x] + s)[0] == x && ([x] + s)[1..] == s;
    } else {
      InsertKeepsKeyOrder(x, s[1..], key, k);
      InsertBehindHead(x, s, key, k);
    }
  }

  /** The step of InsertKeepsKeyOrder where x goes behind the head of s. */
  lemma InsertBehindHead<T>(x: T, s: seq<T>, key: T -> real, k: real)
    requires |s| > 0 && key(x) < key(s[0])
    requires WithKey(Insert(x, s[1..], key), key, k) == (if key(x) == k then [x] else []) + WithKey(s[1..], key, k)
    ensures WithKey(Insert(x, s, key), key, k) == (if key(x) == k then [x] else []) + WithKey(s, key, k)
  {
    var xs := if key(x) == k then [x] else [];
    var hs := if key(s[0]) == k then [s[0]] else [];
    var t := Insert(x, s[1..], key);
    var u := [s[0]] + t;
    var rest := WithKey(s[1..], key, k);
    assert Insert(x, s, key) == u;
    assert u[0] == s[0] && u[1..] == t;
    assert WithKey(u, key, k) == hs + (xs + rest);
    assert WithKey(s, key, k) == hs + rest;
    if key(x) == k {
      assert hs == [];
      assert hs + (xs + rest) == xs + rest && hs + rest == rest;
    } else {
      assert xs == [];
      assert xs + rest == rest && xs + (hs + rest) == hs + rest;
    }
  }

  /** SortDesc is stable: elements with equal keys keep their relative order. */
  lemma {:induction false} SortDescIsStable<T>(s: seq<T>, key: T -> real, k: real)
    ensures WithKey(SortDesc(s, key), key, k) == WithKey(s, key, k)
  {
    if |s| > 0 {
      SortDescIsStable(s[1..], key, k);
      InsertKeepsKeyOrder(s[0], SortDesc(s[1..], key), key, k);
    }
  }

  /** The elements of a prefix with key k are a prefix of those of the whole. */
  lemma {:induction false} WithKeyPrefix<T>(t: seq<T>, m: nat, key: T -> real, k: real)
    requires m <= |t|
    ensures var w := WithKey(t[..m], key, k);
            |w| <= |WithKey(t, key, k)| && w == WithKey(t, key, k)[..|w|]
  {
    if m > 0 {
      var h := if key(t[0]) == k then [t[0]] else [];
      assert t[..m][0] == t[0] && t[..m][1..] == t[1..][..m - 1];
      WithKeyPrefix(t[1..], m - 1, key, k);
      var a, b := WithKey(t[1..][..m - 1], key, k), WithKey(t[1..], key, k);
      assert WithKey(t[..m], key, k) == h + a;
      assert WithKey(t, key, k) == h + b;
      assert (h + b)[..|h + a|] == h + b[..|a|];
    }
  }

  /** TopN is stable: the kept elements with key k are the first elements of
      s with key k, in the order of s. */
  lemma TopNIsStable<T>(s: seq<T>, key: T -> real, n: nat, k: real)
    ensures var w := WithKey(TopN(s, key, n), key, k);
            |w| <= |WithKey(s, key, k)| && w == WithKey(s, key, k)[..|w|]
  {
    var t := SortDesc(s, key);
    assert TopN(s, key, n) == t[..Min(n, |s|)];
    SortDescIsStable(s, key, k);
    WithKeyPrefix(t, Min(n, |s|), key, k);
  }

  /** A sub-multiset of the same size is the whole multiset. */
  lemma SubmultisetOfSameSize<T>(a: seq<T>, b: seq<T>)
    requires multiset(a) <= multiset(b) && |a| == |b|
    ensures multiset(a) == multiset(b)
  {
    var d := multiset(b) - multiset(a);
    assert multiset(b) == multiset(a) + d;
    assert |multiset(b)| == |multiset(a)| + |d|;
  }
}
