/** Distinct keys in ascending order, the way a pandas group-by lays out its
    index and its columns: every key once, smallest first. */
module Keys {

  predicate Distinct<T(==)>(s: seq<T>)
  {
    forall i, j :: 0 <= i < j < |s| ==> s[i] != s[j]
  }

  ghost predicate StrictTotalOrder<T(!new)>(lt: (T, T) -> bool)
  {
    && (forall a :: !lt(a, a))
    && (forall a, b, c :: lt(a, b) && lt(b, c) ==> lt(a, c))
    && (forall a, b :: a != b ==> lt(a, b) || lt(b, a))
  }

  ghost predicate Ascending<T>(s: seq<T>, lt: (T, T) -> bool)
  {
    forall i, j :: 0 <= i < j < |s| ==> lt(s[i], s[j])
  }

  /** The order of integer ids (order and customer ids). */
  predicate IntBelow(a: int, b: int)
  {
    a < b
  }

  /** Lexicographic order of strings by code point, as Python compares str values. */
  predicate StringBelow(a: string, b: string)
  {
    if |a| == 0 then |b| > 0
    else if |b| == 0 then false
    else if a[0] == b[0] then StringBelow(a[1..], b[1..])
    else a[0] < b[0]
  }

  lemma IntBelowIsStrictTotalOrder()
    ensures StrictTotalOrder(IntBelow)
  {
  }

  lemma {:induction false} StringBelowIrreflexive(a: string)
    ensures !StringBelow(a, a)
  {
    if |a| > 0 {
      StringBelowIrreflexive(a[1..]);
    }
  }

  lemma {:induction false} StringBelowTransitive(a: string, b: string, c: string)
    requires StringBelow(a, b) && StringBelow(b, c)
    ensures StringBelow(a, c)
  {
    if |a| > 0 && a[0] == b[0] && b[0] == c[0] {
      StringBelowTransitive(a[1..], b[1..], c[1..]);
    }
  }

  lemma {:induction false} StringBelowTotal(a: string, b: string)
    requires a != b
    ensures StringBelow(a, b) || StringBelow(b, a)
  {
    if |a| > 0 && |b| > 0 && a[0] == b[0] {
      assert a == [a[0]] + a[1..] && b == [b[0]] + b[1..];
      StringBelowTotal(a[1..], b[1..]);
    }
  }

  lemma StringBelowIsStrictTotalOrder()
    ensures StrictTotalOrder(StringBelow)
  {
    forall a: string ensures !StringBelow(a, a) {
      StringBelowIrreflexive(a);
    }
    forall a: string, b: string, c: string | StringBelow(a, b) && StringBelow(b, c)
      ensures StringBelow(a, c)
    {
      StringBelowTransitive(a, b, c);
    }
    forall a: string, b: string | a != b
      ensures StringBelow(a, b) || StringBelow(b, a)
    {
      StringBelowTotal(a, b);
    }
  }

  /** s with x added at its place in the order lt, unless x is already there. */
  function AddKey<T(!new, ==)>(x: T, s: seq<T>, lt: (T, T) -> bool): (r: seq<T>)
    ensures forall y :: y in r <==> y == x || y in s
    ensures Distinct(s) ==> Distinct(r)
  {
    if x in s then s
    else if |s| == 0 || lt(x, s[0]) then [x] + s
    else
      assert s == [s[0]] + s[1..];
      var t := AddKey(x, s[1..], lt);
      assert Distinct(s) ==> s[0] !in t && Distinct([s[0]] + t) by {
        if Distinct(s) {
          assert Distinct(s[1..]);
          assert s[0] !in s[1..];
        }
      }
      [s[0]] + t
  }

  lemma {:induction false} AddKeyKeepsOrder<T(!new)>(x: T, s: seq<T>, lt: (T, T) -> bool)
    requires StrictTotalOrder(lt) && Ascending(s, lt)
    ensures Ascending(AddKey(x, s, lt), lt)
  {
    if x !in s && |s| > 0 && !lt(x, s[0]) {
      AddKeyKeepsOrder(x, s[1..], lt);
      var t := AddKey(x, s[1..], lt);
      assert lt(s[0], x);
      forall y | y in t ensures lt(s[0], y) {
        if y != x {
          var j :| 0 <= j < |s[1..]| && s[1..][j] == y;
          assert s[j + 1] == y;
        }
      }
    }
  }

  /** The distinct values of xs, each once. */
  function KeysOf<T(!new, ==)>(xs: seq<T>, lt: (T, T) -> bool): (r: seq<T>)
    ensures forall y :: y in r <==> y in xs
    ensures Distinct(r)
  {
    if |xs| == 0 then []
    else
      assert xs == xs[..|xs| - 1] + [xs[|xs| - 1]];
      AddKey(xs[|xs| - 1], KeysOf(xs[..|xs| - 1], lt), lt)
  }

  /** Under a strict total order the keys come out smallest first. */
  lemma {:induction false} KeysOfAscending<T(!new)>(xs: seq<T>, lt: (T, T) -> bool)
    requires StrictTotalOrder(lt)
    ensures Ascending(KeysOf(xs, lt), lt)
  {
    if |xs| > 0 {
      KeysOfAscending(xs[..|xs| - 1], lt);
      AddKeyKeepsOrder(xs[|xs| - 1], KeysOf(xs[..|xs| - 1], lt), lt);
    }
  }

  /** Number of distinct values in xs. */
  function CountDistinct<T(==)>(xs: seq<T>): nat
  {
    |set y | y in xs|
  }

  /** A sequence without repetitions has as many elements as its set. */
  lemma {:induction false} DistinctCard<T>(s: seq<T>)
    requires Distinct(s)
    ensures |set x | x in s| == |s|
  {
    if |s| > 0 {
      DistinctCard(s[1..]);
      assert s == [s[0]] + s[1..];
      assert (set x | x in s) == {s[0]} + (set x | x in s[1..]);
      assert s[0] !in s[1..];
    }
  }
}
