/** Go's string order, sorting by it, and the in-place comparison of ID lists. */
module Ordering {

  predicate StrLe(a: string, b: string) {
    a == [] || (b != [] && (a[0] < b[0] || (a[0] == b[0] && StrLe(a[1..], b[1..]))))
  }

  lemma StrLeTotal(a: string, b: string)
    ensures StrLe(a, b) || StrLe(b, a)
    ensures StrLe(a, b) && StrLe(b, a) ==> a == b
  {
    if a != [] && b != [] {
      StrLeTotal(a[1..], b[1..]);
      assert a == [a[0]] + a[1..] && b == [b[0]] + b[1..];
    }
  }

  lemma StrLeTransitive(a: string, b: string, c: string)
    requires StrLe(a, b) && StrLe(b, c)
    ensures StrLe(a, c)
  {
  }

  ghost predicate SortedBy<T>(key: T -> string, xs: seq<T>) {
    forall i, j | 0 <= i < j < |xs| :: StrLe(key(xs[i]), key(xs[j]))
  }

  function Insert<T>(key: T -> string, x: T, xs: seq<T>): seq<T> {
    if xs == [] then [x]
    else if StrLe(key(x), key(xs[0])) then [x] + xs
    else [xs[0]] + Insert(key, x, xs[1..])
  }

  function Sort<T>(key: T -> string, xs: seq<T>): seq<T> {
    if xs == [] then [] else Insert(key, xs[0], Sort(key, xs[1..]))
  }

  lemma {:induction false} InsertMembers<T>(key: T -> string, x: T, xs: seq<T>)
    ensures multiset(Insert(key, x, xs)) == multiset(xs) + multiset{x}
    ensures forall y :: y in Insert(key, x, xs) <==> y == x || y in xs
  {
    if xs != [] {
      assert xs == [xs[0]] + xs[1..];
      InsertMembers(key, x, xs[1..]);
    }
  }

  /** x is at most every element. */
  ghost predicate Least<T(!new)>(key: T -> string, x: T, xs: seq<T>) {
    forall y | y in xs :: StrLe(key(x), key(y))
  }

  lemma PrependSorts<T(!new)>(key: T -> string, x: T, xs: seq<T>)
    requires SortedBy(key, xs) && Least(key, x, xs)
    ensures SortedBy(key, [x] + xs)
  {
  }

  lemma LeastBelow<T(!new)>(key: T -> string, x: T, xs: seq<T>)
    requires xs != [] && SortedBy(key, xs) && StrLe(key(x), key(xs[0]))
    ensures Least(key, x, xs)
  {
    forall y | y in xs ensures StrLe(key(x), key(y)) {
      StrLeTotal(key(y), key(y));
      StrLeTransitive(key(x), key(xs[0]), key(y));
    }
  }

  lemma {:induction false} InsertSorts<T(!new)>(key: T -> string, x: T, xs: seq<T>)
    requires SortedBy(key, xs)
    ensures SortedBy(key, Insert(key, x, xs))
    ensures multiset(Insert(key, x, xs)) == multiset(xs) + multiset{x}
  {
    InsertMembers(key, x, xs);
    if xs != [] {
      StrLeTotal(key(x), key(xs[0]));
      if StrLe(key(x), key(xs[0])) {
        LeastBelow(key, x, xs);
        PrependSorts(key, x, xs);
      } else {
        var rest := xs[1..];
        InsertSorts(key, x, rest);
        InsertMembers(key, x, rest);
        assert Least(key, xs[0], rest);
        PrependSorts(key, xs[0], Insert(key, x, rest));
      }
    }
  }

  lemma {:induction false} SortSorts<T(!new)>(key: T -> string, xs: seq<T>)
    ensures SortedBy(key, Sort(key, xs))
    ensures multiset(Sort(key, xs)) == multiset(xs)
    ensures |Sort(key, xs)| == |xs|
  {
    if xs != [] {
      SortSorts(key, xs[1..]);
      InsertSorts(key, xs[0], Sort(key, xs[1..]));
      assert xs == [xs[0]] + xs[1..];
      assert |multiset(Sort(key, xs))| == |multiset(xs)|;
    }
  }

  ghost predicate Separates<T(!new)>(key: T -> string, xs: seq<T>) {
    forall x, y | x in xs && y in xs && key(x) == key(y) :: x == y
  }

  lemma SameHead<T(!new)>(key: T -> string, xs: seq<T>, ys: seq<T>)
    requires SortedBy(key, xs) && SortedBy(key, ys) && multiset(xs) == multiset(ys)
    requires Separates(key, xs) && xs != [] && ys != []
    ensures xs[0] == ys[0]
  {
    assert xs[0] in multiset(ys) && ys[0] in multiset(xs);
    HeadIsLeast(key, xs, ys[0]);
    HeadIsLeast(key, ys, xs[0]);
    StrLeTotal(key(xs[0]), key(ys[0]));
  }

  lemma TailOf<T(!new)>(key: T -> string, xs: seq<T>)
    requires SortedBy(key, xs) && xs != []
    ensures SortedBy(key, xs[1..])
    ensures multiset(xs[1..]) == multiset(xs) - multiset{xs[0]}
    ensures Separates(key, xs) ==> Separates(key, xs[1..])
  {
    assert xs == [xs[0]] + xs[1..];
  }

  /** There is only one sorted arrangement, so any sorting algorithm gives this one. */
  lemma {:induction false} SortedIsUnique<T(!new)>(key: T -> string, xs: seq<T>, ys: seq<T>)
    requires SortedBy(key, xs) && SortedBy(key, ys) && multiset(xs) == multiset(ys)
    requires Separates(key, xs)
    ensures xs == ys
    decreases |xs|
  {
    assert |multiset(xs)| == |xs| && |multiset(ys)| == |ys|;
    if xs != [] {
      SameHead(key, xs, ys);
      TailOf(key, xs);
      TailOf(key, ys);
      SortedIsUnique(key, xs[1..], ys[1..]);
      assert xs == [xs[0]] + xs[1..] && ys == [ys[0]] + ys[1..];
    }
  }

  lemma HeadIsLeast<T(!new)>(key: T -> string, xs: seq<T>, x: T)
    requires SortedBy(key, xs) && x in xs
    ensures StrLe(key(xs[0]), key(x))
  {
    StrLeTotal(key(x), key(x));
  }

  // ---- lists of IDs ----

  function Self(s: string): string { s }

  function Sorted(xs: seq<string>): seq<string> { Sort(Self, xs) }

  lemma SortedFacts(xs: seq<string>)
    ensures multiset(Sorted(xs)) == multiset(xs) && |Sorted(xs)| == |xs|
    ensures Sorted(Sorted(xs)) == Sorted(xs)
  {
    SortSorts(Self, xs);
    SortSorts(Self, Sorted(xs));
    SortedIsUnique(Self, Sorted(Sorted(xs)), Sorted(xs));
  }

  lemma EqualWhenSorted(xs: seq<string>, ys: seq<string>)
    ensures Sorted(xs) == Sorted(ys) <==> multiset(xs) == multiset(ys)
  {
    SortSorts(Self, xs);
    SortSorts(Self, ys);
    if multiset(xs) == multiset(ys) {
      SortedIsUnique(Self, Sorted(xs), Sorted(ys));
    }
  }

  /** sort.Strings: a library call, known only by its result. */
  method SortStrings(a: array<string>)
    modifies a
    ensures a[..] == Sorted(old(a[..]))
  {
    var r := Sorted(a[..]);
    SortedFacts(a[..]);
    for i := 0 to a.Length
      invariant a[..i] == r[..i]
    {
      a[i] := r[i];
    }
    assert a[..] == a[..a.Length] && r == r[..a.Length];
  }

  /**
   * True exactly when the lists are equal as multisets. Lists of equal length are left
   * sorted, whatever the answer; lists of different length are left alone.
   */
  method EqualIDs(a: array<string>, b: array<string>) returns (equal: bool)
    modifies a, b
    ensures equal <==> multiset(old(a[..])) == multiset(old(b[..]))
    ensures a.Length == b.Length ==> a[..] == Sorted(old(a[..])) && b[..] == Sorted(old(b[..]))
    ensures a.Length != b.Length ==> a[..] == old(a[..]) && b[..] == old(b[..])
  {
    ghost var xs, ys := a[..], b[..];
    assert |multiset(xs)| == |xs| && |multiset(ys)| == |ys|;
    if a.Length != b.Length {
      return false;
    }
    SortStrings(a);
    SortStrings(b);
    SortedFacts(xs);
    SortedFacts(ys);
    EqualWhenSorted(xs, ys);
    for i := 0 to a.Length
      invariant a[..i] == b[..i]
    {
      if a[i] != b[i] {
        assert a[..][i] != b[..][i];
        return false;
      }
    }
    assert a[..] == a[..a.Length] && b[..] == b[..b.Length];
    return true;
  }
}
