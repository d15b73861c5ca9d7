/** The periodic ensure loop against outsiders that edit the chains between rounds. */
module EnsureLoop {
  import opened Common
  import opened IpTables
  import opened RuleOrder

  // ---- subsequences and projections ----

  /** a is b with some elements left out. */
  predicate Sub<T(==)>(a: seq<T>, b: seq<T>)
    decreases |b|
  {
    if a == [] then true
    else if b == [] then false
    else
      || (a[|a| - 1] == b[|b| - 1] && Sub(a[..|a| - 1], b[..|b| - 1]))
      || Sub(a, b[..|b| - 1])
  }

  lemma {:induction false} SubRefl<T>(a: seq<T>)
    ensures Sub(a, a)
  {
    if a != [] {
      SubRefl(a[..|a| - 1]);
    }
  }

  lemma {:induction false} SubTrans<T>(a: seq<T>, b: seq<T>, c: seq<T>)
    requires Sub(a, b) && Sub(b, c)
    ensures Sub(a, c)
    decreases |c|
  {
    if a != [] {
      var a1, b1, c1 := a[..|a| - 1], b[..|b| - 1], c[..|c| - 1];
      if b[|b| - 1] == c[|c| - 1] && Sub(b1, c1) {
        if a[|a| - 1] == b[|b| - 1] && Sub(a1, b1) {
          SubTrans(a1, b1, c1);
        } else {
          SubTrans(a, b1, c1);
        }
      } else {
        SubTrans(a, b, c1);
      }
    }
  }

  lemma {:induction false} SubMembers<T>(a: seq<T>, b: seq<T>)
    requires Sub(a, b)
    ensures multiset(a) <= multiset(b)
    decreases |b|
  {
    if a != [] {
      var a1, b1 := a[..|a| - 1], b[..|b| - 1];
      assert a == a1 + [a[|a| - 1]] && b == b1 + [b[|b| - 1]];
      if a[|a| - 1] == b[|b| - 1] && Sub(a1, b1) {
        SubMembers(a1, b1);
      } else {
        SubMembers(a, b1);
      }
    }
  }

  lemma {:induction false} SubDropMiddle<T>(a: seq<T>, b: seq<T>, c: seq<T>)
    ensures Sub(a + c, a + b + c)
    decreases |b| + |c|
  {
    if c != [] {
      var c1 := c[..|c| - 1];
      SubDropMiddle(a, b, c1);
      assert (a + c)[..|a + c| - 1] == a + c1 && (a + b + c)[..|a + b + c| - 1] == a + b + c1;
    } else if b != [] {
      var b1 := b[..|b| - 1];
      SubDropMiddle(a, b1, []);
      assert a + [] == a && a + b + [] == a + b && a + b1 + [] == a + b1;
      assert (a + b)[..|a + b| - 1] == a + b1;
    } else {
      assert a + c == a && a + b + c == a;
      SubRefl(a);
    }
  }

  lemma NotSub<T>(a: seq<T>, b: seq<T>, y: T)
    requires y in a && y !in b
    ensures !Sub(a, b)
  {
    assert y in multiset(a) && y !in multiset(b);
    if Sub(a, b) {
      SubMembers(a, b);
    }
  }

  /** A subsequence that has every element of a list without duplicates is that list. */
  lemma {:induction false} SubOfAll<T>(a: seq<T>, b: seq<T>)
    requires Sub(a, b) && NoDuplicates(b) && forall x | x in b :: x in a
    ensures a == b
    decreases |b|
  {
    if b != [] {
      var b1, y := b[..|b| - 1], b[|b| - 1];
      assert b == b1 + [y] && y !in b1 && y in a;
      NotSub(a, b1, y);
      var a1 := a[..|a| - 1];
      assert a == a1 + [y];
      forall x | x in b1 ensures x in a1 {
        assert x in b && x != y;
      }
      SubOfAll(a1, b1);
    }
  }

  /** The rules of xs in s, in the order of s. */
  function Proj(s: seq<Spec>, xs: seq<Spec>): seq<Spec> {
    if s == [] then []
    else Proj(s[..|s| - 1], xs) + (if s[|s| - 1] in xs then [s[|s| - 1]] else [])
  }

  lemma {:induction false} ProjConcat(s: seq<Spec>, t: seq<Spec>, xs: seq<Spec>)
    ensures Proj(s + t, xs) == Proj(s, xs) + Proj(t, xs)
  {
    if t == [] {
      assert s + t == s;
    } else {
      ProjConcat(s, t[..|t| - 1], xs);
      assert (s + t)[..|s + t| - 1] == s + t[..|t| - 1];
    }
  }

  lemma {:induction false} ProjAll(s: seq<Spec>, xs: seq<Spec>)
    requires forall x | x in s :: x in xs
    ensures Proj(s, xs) == s
  {
    if s != [] {
      ProjAll(s[..|s| - 1], xs);
    }
  }

  lemma {:induction false} ProjNone(s: seq<Spec>, xs: seq<Spec>)
    requires forall x | x in s :: x !in xs
    ensures Proj(s, xs) == []
  {
    if s != [] {
      ProjNone(s[..|s| - 1], xs);
    }
  }

  lemma {:induction false} ProjCount(s: seq<Spec>, xs: seq<Spec>, x: Spec)
    requires x in xs
    ensures multiset(Proj(s, xs))[x] == multiset(s)[x]
  {
    if s != [] {
      assert s == s[..|s| - 1] + [s[|s| - 1]];
      ProjCount(s[..|s| - 1], xs, x);
    }
  }

  // ---- the invariant ----

  /** The managed rules present in each chain are in the prescribed order, each at most once. */
  ghost predicate InOrder(k: Kernel, rules: seq<Rule>) {
    forall key :: Sub(Proj(At(k, key), On(rules, key)), On(rules, key))
  }

  /** Every chain holds exactly its managed rules, in the prescribed order, among any foreign ones. */
  ghost predicate InForce(k: Kernel, rules: seq<Rule>) {
    forall key :: Proj(At(k, key), On(rules, key)) == On(rules, key)
  }

  lemma InOrderAtMostOnce(k: Kernel, rules: seq<Rule>)
    requires Managed(rules) && InOrder(k, rules)
    ensures AtMostOnce(k, rules)
  {
    forall r | r in rules ensures multiset(At(k, (r.table, r.chain)))[r.spec] <= 1 {
      var key := (r.table, r.chain);
      var xs := On(rules, key);
      OnMembers(rules, key, r.spec);
      OnDistinct(rules, key);
      NoDuplicatesCount(xs);
      ProjCount(At(k, key), xs, r.spec);
      SubMembers(Proj(At(k, key), xs), xs);
    }
  }

  lemma RebuiltParts(s: seq<Spec>, xs: seq<Spec>)
    requires NoDuplicates(xs)
    ensures Proj(Rebuilt(s, xs), xs) == Proj(RemoveFirsts(s, xs), xs) + xs
    ensures forall x | x in xs :: x in RemoveFirsts(s, xs) <==> multiset(s)[x] > 1
  {
    ProjConcat(RemoveFirsts(s, xs), xs, xs);
    ProjAll(xs, xs);
    NoDuplicatesCount(xs);
    RemoveFirstsCount(s, xs);
    forall x | x in xs ensures x in RemoveFirsts(s, xs) <==> multiset(s)[x] > 1 {
      assert multiset(xs)[x] == 1 by { assert x in multiset(xs); }
      assert x in RemoveFirsts(s, xs) <==> multiset(RemoveFirsts(s, xs))[x] > 0;
    }
  }

  lemma RebuiltProj(s: seq<Spec>, xs: seq<Spec>)
    requires NoDuplicates(xs)
    ensures Proj(Rebuilt(s, xs), xs) == xs <==> forall x | x in xs :: multiset(s)[x] <= 1
  {
    RebuiltParts(s, xs);
    var a := RemoveFirsts(s, xs);
    if forall x | x in xs :: multiset(s)[x] <= 1 {
      ProjNone(a, xs);
    } else {
      var x :| x in xs && multiset(s)[x] > 1;
      ProjCount(a, xs, x);
      assert x in multiset(Proj(a, xs));
      assert |Proj(a, xs)| > 0;
    }
  }

  /** After a bootstrap all managed rules are in force in order exactly if none of them stood twice before. */
  lemma BootstrapPutsInForce(k: Kernel, rules: seq<Rule>, order: seq<string>)
    requires Managed(rules) && Anchored(k, rules) && IterationOf(order, Tables(rules))
    ensures InForce(BootstrapOf(k, rules, order).kernel, rules) <==> AtMostOnce(k, rules)
  {
    BootstrapEffect(k, rules, order);
    var k1 := BootstrapOf(k, rules, order).kernel;
    forall key ensures Proj(At(k1, key), On(rules, key)) == On(rules, key)
      <==> forall x | x in On(rules, key) :: multiset(At(k, key))[x] <= 1 {
      OnDistinct(rules, key);
      RebuiltProj(At(k, key), On(rules, key));
    }
    OncePerChain(k, rules);
  }

  lemma OncePerChain(k: Kernel, rules: seq<Rule>)
    requires Managed(rules)
    ensures AtMostOnce(k, rules) <==> forall key, x | x in On(rules, key) :: multiset(At(k, key))[x] <= 1
  {
    forall key, x ensures x in On(rules, key) <==> Rule(key.0, "-A", key.1, x) in rules {
      OnMembers(rules, key, x);
    }
    if forall key, x | x in On(rules, key) :: multiset(At(k, key))[x] <= 1 {
      forall r | r in rules ensures multiset(At(k, (r.table, r.chain)))[r.spec] <= 1 {
        assert r.spec in On(rules, (r.table, r.chain));
      }
    }
  }

  // ---- one round ----

  /** Checking existence only is enough: if the rules present are in order and all exist, they are all in force. */
  lemma ExistingIsInForce(k: Kernel, rules: seq<Rule>)
    requires Managed(rules) && InOrder(k, rules) && AllExist(k, rules)
    ensures InForce(k, rules)
  {
    forall key ensures Proj(At(k, key), On(rules, key)) == On(rules, key) {
      var xs := On(rules, key);
      OnDistinct(rules, key);
      forall x | x in xs ensures x in Proj(At(k, key), xs) {
        OnMembers(rules, key, x);
        assert Has(k, Rule(key.0, "-A", key.1, x));
        ProjCount(At(k, key), xs, x);
        assert multiset(At(k, key))[x] > 0;
      }
      SubOfAll(Proj(At(k, key), xs), xs);
    }
  }

  lemma InForceIsInOrder(k: Kernel, rules: seq<Rule>)
    requires InForce(k, rules)
    ensures InOrder(k, rules)
  {
    forall key ensures Sub(Proj(At(k, key), On(rules, key)), On(rules, key)) {
      SubRefl(On(rules, key));
    }
  }

  /** A round of the loop succeeds and leaves all managed rules in force. */
  lemma EnsurePutsInForce(k: Kernel, rules: seq<Rule>, order: seq<string>)
    requires Managed(rules) && Anchored(k, rules) && InOrder(k, rules) && IterationOf(order, Tables(rules))
    ensures var after := EnsureOf(k, rules, order);
            after.ok && InForce(after.kernel, rules) && Anchored(after.kernel, rules) && k.Keys <= after.kernel.Keys
  {
    if AllExist(k, rules) {
      ExistingIsInForce(k, rules);
    } else {
      InOrderAtMostOnce(k, rules);
      BootstrapEffect(k, rules, order);
      BootstrapPutsInForce(k, rules, order);
      PreparedEnough(k, BootstrapOf(k, rules, order).kernel, rules);
      forall key | key in k ensures key in Prepare(k, rules) {
        PrepareKeeps(k, rules, key);
      }
    }
  }

  // ---- outsiders ----

  datatype Edit =
    | Delete(key: Key, at: nat)
    | Insert(key: Key, at: nat, spec: Spec)
    | NewChain(key: Key)
    | DropChain(key: Key)

  /** Outsiders delete any rule, insert rules that are not ours, and leave the built-in chains of our rules. */
  predicate Foreign(k: Kernel, rules: seq<Rule>, e: Edit) {
    match e
    case Delete(key, at) => key in k && at < |k[key]|
    case Insert(key, at, spec) => key in k && at <= |k[key]| && spec !in On(rules, key)
    case NewChain(key) => key !in k
    case DropChain(key) => key in k && (key.1 in {FWD, POSTRTG} || On(rules, key) == [])
  }

  function Edited(k: Kernel, rules: seq<Rule>, e: Edit): Kernel
    requires Foreign(k, rules, e)
  {
    match e
    case Delete(key, at) => k[key := k[key][..at] + k[key][at + 1..]]
    case Insert(key, at, spec) => k[key := k[key][..at] + [spec] + k[key][at..]]
    case NewChain(key) => k[key := []]
    case DropChain(key) => k - {key}
  }

  lemma DeleteKeepsOrder(s: seq<Spec>, xs: seq<Spec>, at: nat)
    requires at < |s| && Sub(Proj(s, xs), xs)
    ensures Sub(Proj(s[..at] + s[at + 1..], xs), xs)
  {
    var a, b, c := s[..at], [s[at]], s[at + 1..];
    assert s == a + b + c;
    ProjConcat(a + b, c, xs);
    ProjConcat(a, b, xs);
    ProjConcat(a, c, xs);
    SubDropMiddle(Proj(a, xs), Proj(b, xs), Proj(c, xs));
    SubTrans(Proj(a + c, xs), Proj(s, xs), xs);
  }

  lemma InsertKeepsOrder(s: seq<Spec>, xs: seq<Spec>, at: nat, x: Spec)
    requires at <= |s| && x !in xs
    ensures Proj(s[..at] + [x] + s[at..], xs) == Proj(s, xs)
  {
    var a, c := s[..at], s[at..];
    assert s == a + c;
    ProjConcat(a, c, xs);
    ProjConcat(a + [x], c, xs);
    ProjConcat(a, [x], xs);
    ProjNone([x], xs);
    assert Proj(a, xs) + [] == Proj(a, xs);
  }

  lemma EditKeepsOrder(k: Kernel, rules: seq<Rule>, e: Edit)
    requires Managed(rules) && Foreign(k, rules, e) && InOrder(k, rules) && Anchored(k, rules)
    ensures InOrder(Edited(k, rules, e), rules) && Anchored(Edited(k, rules, e), rules)
  {
    var k1 := Edited(k, rules, e);
    forall key ensures Sub(Proj(At(k1, key), On(rules, key)), On(rules, key)) {
      assert Sub(Proj(At(k, key), On(rules, key)), On(rules, key));
      if e.Delete? && key == e.key {
        DeleteKeepsOrder(k[key], On(rules, key), e.at);
      } else if e.Insert? && key == e.key {
        InsertKeepsOrder(k[key], On(rules, key), e.at, e.spec);
      }
    }
    forall r | r in rules ensures r.chain in {FWD, POSTRTG} || (r.table, r.chain) in k1 {
      OnMembers(rules, (r.table, r.chain), r.spec);
    }
  }

  ghost predicate AllForeign(k: Kernel, rules: seq<Rule>, edits: seq<Edit>)
    decreases |edits|
  {
    edits == [] || (Foreign(k, rules, edits[0]) && AllForeign(Edited(k, rules, edits[0]), rules, edits[1..]))
  }

  function AllEdited(k: Kernel, rules: seq<Rule>, edits: seq<Edit>): Kernel
    requires AllForeign(k, rules, edits)
    decreases |edits|
  {
    if edits == [] then k else AllEdited(Edited(k, rules, edits[0]), rules, edits[1..])
  }

  lemma {:induction false} EditsKeepOrder(k: Kernel, rules: seq<Rule>, edits: seq<Edit>)
    requires Managed(rules) && AllForeign(k, rules, edits) && InOrder(k, rules) && Anchored(k, rules)
    ensures InOrder(AllEdited(k, rules, edits), rules) && Anchored(AllEdited(k, rules, edits), rules)
    decreases |edits|
  {
    if edits != [] {
      EditKeepsOrder(k, rules, edits[0]);
      EditsKeepOrder(Edited(k, rules, edits[0]), rules, edits[1..]);
    }
  }

  // ---- the loop ----

  /** What happens in one period: the outsiders' edits, then the ensure with some iteration order. */
  datatype Round = Round(edits: seq<Edit>, order: seq<string>)

  ghost predicate Possible(k: Kernel, rules: seq<Rule>, rounds: seq<Round>)
    requires Specified(rules)
    decreases |rounds|
  {
    rounds == [] ||
    (&& AllForeign(k, rules, rounds[0].edits)
     && IterationOf(rounds[0].order, Tables(rules))
     && Possible(EnsureOf(AllEdited(k, rules, rounds[0].edits), rules, rounds[0].order).kernel, rules, rounds[1..]))
  }

  /** The outcome of the last round. */
  function Looped(k: Kernel, rules: seq<Rule>, rounds: seq<Round>): Applied
    requires Specified(rules) && Possible(k, rules, rounds)
    decreases |rounds|
  {
    if rounds == [] then Applied(k, true)
    else
      var after := EnsureOf(AllEdited(k, rules, rounds[0].edits), rules, rounds[0].order);
      if |rounds| == 1 then after else Looped(after.kernel, rules, rounds[1..])
  }

  /**
   * The loop of the manager: a bootstrap of a kernel that holds each rule at most once, then any number of
   * periods. After each period every managed rule is in force and in order; in between, after any edits,
   * those present are in order and at most once.
   */
  lemma LoopKeepsRules(k: Kernel, rules: seq<Rule>, order: seq<string>, rounds: seq<Round>, edits: seq<Edit>)
    requires Managed(rules) && Anchored(k, rules) && AtMostOnce(k, rules) && IterationOf(order, Tables(rules))
    requires Possible(BootstrapOf(k, rules, order).kernel, rules, rounds)
    requires AllForeign(Looped(BootstrapOf(k, rules, order).kernel, rules, rounds).kernel, rules, edits)
    ensures var after := Looped(BootstrapOf(k, rules, order).kernel, rules, rounds);
            after.ok && InForce(after.kernel, rules) && InOrder(AllEdited(after.kernel, rules, edits), rules)
  {
    var k1 := BootstrapOf(k, rules, order).kernel;
    BootstrapEffect(k, rules, order);
    BootstrapPutsInForce(k, rules, order);
    PreparedEnough(k, k1, rules);
    RoundsKeepRules(k1, rules, rounds);
    var after := Looped(k1, rules, rounds);
    InForceIsInOrder(after.kernel, rules);
    EditsKeepOrder(after.kernel, rules, edits);
  }

  lemma {:induction false} RoundsKeepRules(k: Kernel, rules: seq<Rule>, rounds: seq<Round>)
    requires Managed(rules) && Anchored(k, rules) && InForce(k, rules) && Possible(k, rules, rounds)
    ensures var after := Looped(k, rules, rounds);
            after.ok && InForce(after.kernel, rules) && Anchored(after.kernel, rules)
    decreases |rounds|
  {
    if rounds != [] {
      InForceIsInOrder(k, rules);
      EditsKeepOrder(k, rules, rounds[0].edits);
      var k1 := AllEdited(k, rules, rounds[0].edits);
      EnsurePutsInForce(k1, rules, rounds[0].order);
      RoundsKeepRules(EnsureOf(k1, rules, rounds[0].order).kernel, rules, rounds[1..]);
    }
  }

  /** The loops for the masquerade and the forward rules do not disturb each other: they work on different tables. */
  lemma LoopsAreSeparate(k: Kernel, rules: seq<Rule>, order: seq<string>, t: string)
    requires Managed(rules) && Anchored(k, rules) && IterationOf(order, Tables(rules)) && t !in Tables(rules)
    ensures forall key: Key | key.0 == t :: At(EnsureOf(k, rules, order).kernel, key) == At(k, key)
  {
    if !AllExist(k, rules) {
      BootstrapEffect(k, rules, order);
      var k1 := BootstrapOf(k, rules, order).kernel;
      forall key: Key | key.0 == t ensures At(k1, key) == At(k, key) {
        OnElsewhere(rules, key);
        assert Rebuilt(At(k, key), []) == At(k, key);
      }
    }
  }
}
