/** `Array.prototype.sort` with a comparator `(a, b) => key(b) - key(a)`:
    a stable sort into non-increasing key order (the language has required
    stability since ECMAScript 2019), and `slice(0, limit)`. */
module Sorting {

  predicate SortedDesc<T>(xs: seq<T>, key: T -> int) {
    forall i, j :: 0 <= i < j < |xs| ==> key(xs[i]) >= key(xs[j])
  }

  /** The elements with key `k`, in their order in `xs`. */
  function WithKey<T>(xs: seq<T>, key: T -> int, k: int): seq<T> {
    if xs == [] then []
    else (if key(xs[0]) == k then [xs[0]] else []) + WithKey(xs[1..], key, k)
  }

  /** Places `x` in front of the first element whose key is not larger, so
      that `x` precedes the elements of equal key already placed. */
  function Insert<T>(x: T, ys: seq<T>, key: T -> int): seq<T> {
    if ys == [] then [x]
    else if key(ys[0]) <= key(x) then [x] + ys
    else [ys[0]] + Insert(x, ys[1..], key)
  }

  lemma {:induction false} InsertMultiset<T>(x: T, ys: seq<T>, key: T -> int)
    ensures multiset(Insert(x, ys, key)) == multiset{x} + multiset(ys)
  {
    if ys != [] && key(ys[0]) > key(x) {
      InsertMultiset(x, ys[1..], key);
      assert ys == [ys[0]] + ys[1..];
    }
  }

  lemma {:induction false} InsertSorted<T>(x: T, ys: seq<T>, key: T -> int)
    requires SortedDesc(ys, key)
    ensures SortedDesc(Insert(x, ys, key), key)
  {
    if ys != [] && key(ys[0]) > key(x) {
      assert ys == [ys[0]] + ys[1..];
      ConsSorted(ys[0], ys[1..], key);
      InsertSorted(x, ys[1..], key);
      InsertMultiset(x, ys[1..], key);
      var rest := Insert(x, ys[1..], key);
      forall j | 0 <= j < |rest| ensures key(ys[0]) >= key(rest[j]) {
        assert rest[j] in multiset(rest);
        if rest[j] != x {
          assert rest[j] in multiset(ys[1..]);
        }
      }
      ConsSorted(ys[0], rest, key);
    }
  }

  /** A sequence is sorted with a head in front exactly when its tail is
      sorted and the head ranks no lower than any element of the tail. */
  lemma {:induction false} ConsSorted<T>(y: T, zs: seq<T>, key: T -> int)
    ensures SortedDesc([y] + zs, key) <==>
      SortedDesc(zs, key) && forall z :: z in zs ==> key(y) >= key(z)
  {
    var r := [y] + zs;
    assert forall j :: 0 <= j < |zs| ==> r[j + 1] == zs[j];
    if SortedDesc(r, key) {
      forall z | z in zs ensures key(y) >= key(z) {
        var j :| 0 <= j < |zs| && zs[j] == z;
        assert r[0] == y && r[j + 1] == z;
      }
    }
  }

  lemma {:induction false} WithKeyCons<T>(y: T, zs: seq<T>, key: T -> int, k: int)
    ensures WithKey([y] + zs, key, k) == (if key(y) == k then [y] else []) + WithKey(zs, key, k)
  {
    assert ([y] + zs)[1..] == zs;
  }

  lemma {:induction false} InsertWithKey<T>(x: T, ys: seq<T>, key: T -> int, k: int)
    ensures WithKey(Insert(x, ys, key), key, k)
            == (if key(x) == k then [x] else []) + WithKey(ys, key, k)
  {
    if ys == [] {
      WithKeyCons(x, [], key, k);
    } else if key(ys[0]) <= key(x) {
      WithKeyCons(x, ys, key, k);
    } else {
      var rest := Insert(x, ys[1..], key);
      InsertWithKey(x, ys[1..], key, k);
      WithKeyCons(ys[0], rest, key, k);
      WithKeyCons(ys[0], ys[1..], key, k);
      assert ys == [ys[0]] + ys[1..];
      var mine := if key(x) == k then [x] else [];
      var theirs := if key(ys[0]) == k then [ys[0]] else [];
      assert mine == [] || theirs == [];
      assert theirs + (mine + WithKey(ys[1..], key, k)) == mine + (theirs + WithKey(ys[1..], key, k));
    }
  }

  /** The stable descending sort: the result is sorted, is a permutation of
      the input, and keeps the input order among elements of equal key —
      the three together determine a stable sort's output. */
  function SortDesc<T>(xs: seq<T>, key: T -> int): (r: seq<T>)
    ensures SortedDesc(r, key)
    ensures multiset(r) == multiset(xs)
    ensures forall k :: WithKey(r, key, k) == WithKey(xs, key, k)
  {
    if xs == [] then []
    else
      InsertFirst(xs, SortDesc(xs[1..], key), key);
      Insert(xs[0], SortDesc(xs[1..], key), key)
  }

  /** Inserting the first element into the sorted rest sorts the whole. */
  lemma {:induction false} InsertFirst<T>(xs: seq<T>, rest: seq<T>, key: T -> int)
    requires xs != []
    requires SortedDesc(rest, key) && multiset(rest) == multiset(xs[1..])
    requires forall k :: WithKey(rest, key, k) == WithKey(xs[1..], key, k)
    ensures SortedDesc(Insert(xs[0], rest, key), key)
    ensures multiset(Insert(xs[0], rest, key)) == multiset(xs)
    ensures forall k :: WithKey(Insert(xs[0], rest, key), key, k) == WithKey(xs, key, k)
  {
    InsertSorted(xs[0], rest, key);
    InsertMultiset(xs[0], rest, key);
    forall k
      ensures WithKey(Insert(xs[0], rest, key), key, k) == WithKey(xs, key, k)
    {
      InsertWithKey(xs[0], rest, key, k);
    }
    assert xs == [xs[0]] + xs[1..];
  }

  /** Where `slice(0, limit)` ends for a sequence of length `n`: a negative
      limit counts back from the end. */
  function SliceEnd(n: nat, limit: int): (e: nat)
    ensures e <= n
    ensures limit >= 0 ==> e == if limit < n then limit else n
    ensures limit < 0 ==> e == if n + limit > 0 then n + limit else 0
  {
    if limit < 0 then (if n + limit > 0 then n + limit else 0)
    else if limit < n then limit else n
  }

  /** `xs.slice(0, limit)`. */
  function Take<T>(xs: seq<T>, limit: int): (r: seq<T>)
    ensures |r| == SliceEnd(|xs|, limit) && r == xs[..|r|]
  {
    xs[..SliceEnd(|xs|, limit)]
  }

  /** A prefix holds no element more often than the whole. */
  lemma {:induction false} PrefixMultiset<T>(xs: seq<T>, n: nat)
    requires n <= |xs|
    ensures multiset(xs[..n]) <= multiset(xs)
  {
    assert xs == xs[..n] + xs[n..];
  }

  /** A prefix keeps, for each key, a prefix of the elements with that key:
      cutting a stable order keeps it stable. */
  lemma {:induction false} WithKeyPrefix<T>(xs: seq<T>, key: T -> int, n: nat, k: int)
    requires n <= |xs|
    ensures WithKey(xs[..n], key, k) <= WithKey(xs, key, k)
  {
    if n > 0 {
      var head := if key(xs[0]) == k then [xs[0]] else [];
      WithKeyPrefix(xs[1..], key, n - 1, k);
      assert xs[..n][1..] == xs[1..][..n - 1];
      var a := WithKey(xs[1..][..n - 1], key, k);
      var b := WithKey(xs[1..], key, k);
      assert a <= b;
      assert head + a == (head + b)[..|head| + |a|];
    }
  }

  /** A prefix of a sorted sequence is sorted and holds its largest keys:
      nothing after the cut outranks anything before it. */
  lemma {:induction false} PrefixKeepsTop<T>(xs: seq<T>, key: T -> int, n: nat)
    requires SortedDesc(xs, key) && n <= |xs|
    ensures SortedDesc(xs[..n], key)
    ensures forall i, j :: 0 <= i < n <= j < |xs| ==> key(xs[..n][i]) >= key(xs[j])
  {
    assert forall i :: 0 <= i < n ==> xs[..n][i] == xs[i];
  }

  /** Every element that a sorted prefix leaves out, counting copies,
      ranks no higher than any element the prefix keeps. */
  lemma {:induction false} PrefixOutranksRest<T>(xs: seq<T>, key: T -> int, n: nat)
    requires SortedDesc(xs, key) && n <= |xs|
    ensures forall x, i :: 0 <= i < n && multiset(xs[..n])[x] < multiset(xs)[x] ==> key(xs[i]) >= key(x)
  {
    forall x, i | 0 <= i < n && multiset(xs[..n])[x] < multiset(xs)[x]
      ensures key(xs[i]) >= key(x)
    {
      assert xs == xs[..n] + xs[n..];
      assert x in multiset(xs[n..]);
      var j :| n <= j < |xs| && xs[j] == x;
    }
  }

  /** A larger non-negative limit keeps more of the same sequence. */
  lemma {:induction false} TakeLonger<T>(xs: seq<T>, a: int, b: int)
    requires 0 <= a <= b
    ensures Take(xs, a) <= Take(xs, b)
  {
    var s, t := Take(xs, a), Take(xs, b);
    assert s == t[..|s|];
  }
}
