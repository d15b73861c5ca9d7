/** Lists searched by a string key: the shape of every list of the driver's state. */
module KeyedList {
  import opened Common

  /** Position of the first element with key k, or |xs|. */
  function Index<T>(key: T -> string, xs: seq<T>, k: string): (i: nat)
    ensures i <= |xs|
    ensures forall j | 0 <= j < i :: key(xs[j]) != k
    ensures i < |xs| ==> key(xs[i]) == k
  {
    if xs == [] then 0 else if key(xs[0]) == k then 0 else 1 + Index(key, xs[1..], k)
  }

  function Find<T>(key: T -> string, xs: seq<T>, k: string): Option<T> {
    var i := Index(key, xs, k);
    if i < |xs| then Some(xs[i]) else None
  }

  /** Replace the first element that has x's key, or append x. */
  function Put<T>(key: T -> string, xs: seq<T>, x: T): seq<T> {
    var i := Index(key, xs, key(x));
    if i < |xs| then xs[i := x] else xs + [x]
  }

  /** Remove the first element with key k. */
  function Drop<T>(key: T -> string, xs: seq<T>, k: string): seq<T> {
    var i := Index(key, xs, k);
    if i < |xs| then xs[..i] + xs[i + 1..] else xs
  }

  ghost predicate Distinct<T(!new)>(key: T -> string, xs: seq<T>) {
    forall i, j | 0 <= i < j < |xs| :: key(xs[i]) != key(xs[j])
  }

  lemma IndexIs<T>(key: T -> string, xs: seq<T>, k: string, i: nat)
    requires i <= |xs|
    requires forall j | 0 <= j < i :: key(xs[j]) != k
    requires i < |xs| ==> key(xs[i]) == k
    ensures Index(key, xs, k) == i
  {
  }

  /** With distinct keys, looking up is membership. */
  lemma FindIsMember<T(!new)>(key: T -> string, xs: seq<T>, x: T)
    requires Distinct(key, xs)
    ensures x in xs <==> Find(key, xs, key(x)) == Some(x)
  {
    if x in xs {
      var i :| 0 <= i < |xs| && xs[i] == x;
      IndexIs(key, xs, key(x), i);
    }
  }

  lemma FindNone<T(!new)>(key: T -> string, xs: seq<T>, k: string)
    ensures Find(key, xs, k) == None <==> forall x | x in xs :: key(x) != k
  {
  }

  lemma PutMembers<T(!new)>(key: T -> string, xs: seq<T>, x: T)
    requires Distinct(key, xs)
    ensures forall y :: y in Put(key, xs, x) <==> y == x || (y in xs && key(y) != key(x))
    ensures Distinct(key, Put(key, xs, x))
  {
    var i := Index(key, xs, key(x));
    var r := Put(key, xs, x);
    forall y ensures y in r <==> y == x || (y in xs && key(y) != key(x)) {
      if y in xs && key(y) != key(x) {
        var j :| 0 <= j < |xs| && xs[j] == y;
        assert r[j] == y;
      }
      if y == x {
        assert r[i] == y;
      }
    }
  }

  lemma DropMembers<T(!new)>(key: T -> string, xs: seq<T>, k: string)
    requires Distinct(key, xs)
    ensures forall y :: y in Drop(key, xs, k) <==> y in xs && key(y) != k
    ensures Distinct(key, Drop(key, xs, k))
  {
    var i := Index(key, xs, k);
    var r := Drop(key, xs, k);
    forall y ensures y in r <==> y in xs && key(y) != k {
      if y in xs && key(y) != k {
        var j :| 0 <= j < |xs| && xs[j] == y;
        assert r[if j < i then j else j - 1] == y;
      }
      if y in r {
        var j :| 0 <= j < |r| && r[j] == y;
        assert xs[if j < i then j else j + 1] == y;
      }
    }
  }

  /** A second key stays distinct when the replaced or added element brings no clash. */
  lemma PutKeepsOther<T(!new)>(key: T -> string, other: T -> string, xs: seq<T>, x: T)
    requires Distinct(other, xs)
    requires forall y | y in xs && key(y) != key(x) :: other(y) != other(x)
    requires Distinct(key, xs)
    ensures Distinct(other, Put(key, xs, x))
  {
  }

  lemma DropKeepsOther<T(!new)>(key: T -> string, other: T -> string, xs: seq<T>, k: string)
    requires Distinct(other, xs)
    ensures Distinct(other, Drop(key, xs, k))
  {
  }

  lemma PutThenDrop<T(!new)>(key: T -> string, xs: seq<T>, x: T)
    requires forall y | y in xs :: key(y) != key(x)
    ensures Drop(key, Put(key, xs, x), key(x)) == xs
  {
    IndexIs(key, xs, key(x), |xs|);
    IndexIs(key, xs + [x], key(x), |xs|);
  }

  // ---- sums over a list ----

  function Sum<T>(f: T -> int, xs: seq<T>): int {
    if xs == [] then 0 else Sum(f, xs[..|xs| - 1]) + f(xs[|xs| - 1])
  }

  lemma {:induction false} SumConcat<T>(f: T -> int, xs: seq<T>, ys: seq<T>)
    ensures Sum(f, xs + ys) == Sum(f, xs) + Sum(f, ys)
  {
    if ys == [] {
      assert xs + ys == xs;
    } else {
      var n := |ys| - 1;
      assert (xs + ys)[..|xs + ys| - 1] == xs + ys[..n];
      SumConcat(f, xs, ys[..n]);
    }
  }

  lemma SumSplit<T>(f: T -> int, xs: seq<T>, i: nat)
    requires i < |xs|
    ensures Sum(f, xs) == Sum(f, xs[..i]) + f(xs[i]) + Sum(f, xs[i + 1..])
  {
    assert xs == xs[..i] + [xs[i]] + xs[i + 1..];
    SumConcat(f, xs[..i] + [xs[i]], xs[i + 1..]);
    SumConcat(f, xs[..i], [xs[i]]);
  }

  /** What an in-place update does to a sum. */
  lemma SumPut<T(!new)>(key: T -> string, f: T -> int, xs: seq<T>, x: T)
    ensures var before := Find(key, xs, key(x));
            Sum(f, Put(key, xs, x)) == Sum(f, xs) + f(x) - (if before.Some? then f(before.value) else 0)
  {
    var i := Index(key, xs, key(x));
    if i < |xs| {
      var r := xs[i := x];
      SumSplit(f, xs, i);
      SumSplit(f, r, i);
      assert r[..i] == xs[..i] && r[i + 1..] == xs[i + 1..];
    } else {
      SumConcat(f, xs, [x]);
    }
  }

  lemma SumDrop<T(!new)>(key: T -> string, f: T -> int, xs: seq<T>, k: string)
    ensures var before := Find(key, xs, k);
            Sum(f, Drop(key, xs, k)) == Sum(f, xs) - (if before.Some? then f(before.value) else 0)
  {
    var i := Index(key, xs, k);
    if i < |xs| {
      SumSplit(f, xs, i);
      SumConcat(f, xs[..i], xs[i + 1..]);
    }
  }

  lemma {:induction false} SumNonNegative<T(!new)>(f: T -> int, xs: seq<T>)
    requires forall x | x in xs :: 0 <= f(x)
    ensures 0 <= Sum(f, xs)
    ensures forall x | x in xs :: f(x) <= Sum(f, xs)
  {
    if xs != [] {
      SumNonNegative(f, xs[..|xs| - 1]);
      assert xs == xs[..|xs| - 1] + [xs[|xs| - 1]];
    }
  }

  /** Sums do not depend on the order of the list. */
  lemma {:induction false} SumOfPermutation<T(!new)>(f: T -> int, xs: seq<T>, ys: seq<T>)
    requires multiset(xs) == multiset(ys)
    ensures Sum(f, xs) == Sum(f, ys)
    decreases |xs|
  {
    if xs == [] {
      assert |multiset(ys)| == 0;
    } else {
      var n := |xs| - 1;
      var x := xs[n];
      assert xs == xs[..n] + [x];
      assert x in multiset(ys);
      var i :| 0 <= i < |ys| && ys[i] == x;
      assert ys == ys[..i] + [x] + ys[i + 1..];
      var zs := ys[..i] + ys[i + 1..];
      assert multiset(zs) == multiset(ys) - multiset{x};
      SumOfPermutation(f, xs[..n], zs);
      SumSplit(f, ys, i);
      SumConcat(f, ys[..i], ys[i + 1..]);
    }
  }
}
