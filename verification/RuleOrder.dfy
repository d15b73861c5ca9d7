/** What bootstrap, teardown and the ensure loop do to the chains. */
module RuleOrder {
  import opened Common
  import opened IpTables

  // ---- removing first occurrences ----

  lemma RemoveFirstIn<T>(s: seq<T>, t: seq<T>, x: T)
    requires x in s
    ensures RemoveFirst(s + t, x) == RemoveFirst(s, x) + t
  {
    var i := IndexOf(s, x);
    var u := s + t;
    assert u[..i] == s[..i] && u[i + 1..] == s[i + 1..] + t && u[i] == x;
    RemoveFirstIs(s, i, x);
    RemoveFirstIs(u, i, x);
  }

  lemma RemoveFirstAfter<T>(s: seq<T>, t: seq<T>, x: T)
    requires x !in s
    ensures RemoveFirst(s + [x] + t, x) == s + t
  {
    var u := s + [x] + t;
    assert u[..|s|] == s && u[|s| + 1..] == t && u[|s|] == x;
    RemoveFirstIs(u, |s|, x);
  }

  lemma {:induction false} RemoveFirstsOthers(s: seq<Spec>, xs: seq<Spec>, y: Spec)
    requires y !in xs
    ensures y in RemoveFirsts(s, xs) <==> y in s
    ensures multiset(RemoveFirsts(s, xs))[y] == multiset(s)[y]
  {
    if xs != [] {
      RemoveFirstsOthers(s, xs[..|xs| - 1], y);
      var r := RemoveFirsts(s, xs[..|xs| - 1]);
      assert xs[|xs| - 1] in xs;
      assert y in r <==> multiset(r)[y] > 0;
      assert y in RemoveFirsts(s, xs) <==> multiset(RemoveFirsts(s, xs))[y] > 0;
    }
  }

  /** Distinct rules standing together behind a list without them are removed as a whole. */
  lemma {:induction false} RemoveFirstsBlock(s: seq<Spec>, xs: seq<Spec>, t: seq<Spec>)
    requires NoDuplicates(xs) && forall x | x in xs :: x !in s
    ensures RemoveFirsts(s + xs + t, xs) == s + t
  {
    if xs == [] {
      assert s + xs + t == s + t;
    } else {
      var ys, y := xs[..|xs| - 1], xs[|xs| - 1];
      assert s + xs + t == s + ys + ([y] + t);
      RemoveFirstsBlock(s, ys, [y] + t);
      assert s + ([y] + t) == s + [y] + t;
      RemoveFirstAfter(s, t, y);
    }
  }

  /** The number of copies left of each listed rule. */
  lemma {:induction false} RemoveFirstsCount(s: seq<Spec>, xs: seq<Spec>)
    ensures multiset(RemoveFirsts(s, xs)) == multiset(s) - multiset(xs)
  {
    if xs != [] {
      var ys, y := xs[..|xs| - 1], xs[|xs| - 1];
      assert xs == ys + [y];
      RemoveFirstsCount(s, ys);
      var r := RemoveFirsts(s, ys);
      assert y in r <==> multiset(r)[y] > 0;
    }
  }

  // ---- rule lists ----

  ghost predicate Managed(rules: seq<Rule>) {
    Specified(rules) && NoDuplicates(rules) && forall r | r in rules :: r.action == "-A"
  }

  lemma {:induction false} OnMembers(rules: seq<Rule>, key: Key, x: Spec)
    requires forall r | r in rules :: r.action == "-A"
    ensures x in On(rules, key) <==> Rule(key.0, "-A", key.1, x) in rules
  {
    if rules != [] {
      var front, r := rules[..|rules| - 1], rules[|rules| - 1];
      assert rules == front + [r];
      OnMembers(front, key, x);
    }
  }

  lemma {:induction false} OnDistinct(rules: seq<Rule>, key: Key)
    requires Managed(rules)
    ensures NoDuplicates(On(rules, key))
  {
    if rules != [] {
      var front, r := rules[..|rules| - 1], rules[|rules| - 1];
      assert rules == front + [r];
      OnDistinct(front, key);
      OnMembers(front, key, r.spec);
      if (r.table, r.chain) == key {
        assert r == Rule(key.0, "-A", key.1, r.spec);
        assert r !in front;
      }
    }
  }

  lemma OnElsewhere(rules: seq<Rule>, key: Key)
    requires key.0 !in Tables(rules)
    ensures On(rules, key) == []
  {
    if rules != [] {
      assert rules[|rules| - 1] in rules;
      OnElsewhere(rules[..|rules| - 1], key);
    }
  }

  /** Every rule's chain and managed jump target exist. */
  predicate Placed(k: Kernel, rules: seq<Rule>) {
    forall r | r in rules :: (r.table, r.chain) in k && JumpOk(k, r.table, r.spec)
  }

  /** Rules sit in managed chains or in chains the kernel has, and no rule jumps from one managed chain to the other. */
  predicate Anchored(k: Kernel, rules: seq<Rule>) {
    forall r | r in rules ::
      && r.spec != []
      && (r.chain in {FWD, POSTRTG} || (r.table, r.chain) in k)
      && (r.chain == FWD ==> r.spec[|r.spec| - 1] != POSTRTG)
      && (r.chain == POSTRTG ==> r.spec[|r.spec| - 1] != FWD)
  }

  lemma {:induction false} PrepareCreates(k: Kernel, rules: seq<Rule>, r: Rule)
    requires Specified(rules) && r in rules && ManagedChain(r).Some?
    ensures (r.table, ManagedChain(r).value) in Prepare(k, rules)
  {
    var front, q := rules[..|rules| - 1], rules[|rules| - 1];
    if q != r {
      PrepareCreates(k, front, r);
    }
  }

  lemma {:induction false} PrepareAdds(k: Kernel, rules: seq<Rule>, key: Key)
    requires Specified(rules)
    requires key in Prepare(k, rules) && key !in k
    ensures exists r | r in rules :: ManagedChain(r) == Some(key.1) && r.table == key.0
  {
    var front, q := rules[..|rules| - 1], rules[|rules| - 1];
    if key in Prepare(k, front) {
      PrepareAdds(k, front, key);
      var r :| r in front && ManagedChain(r) == Some(key.1) && r.table == key.0;
      assert r in rules;
    } else {
      assert q in rules;
    }
  }

  /** After the preparation every rule's chain and jump target are there. */
  lemma PreparePlaces(k: Kernel, rules: seq<Rule>)
    requires Specified(rules) && Anchored(k, rules)
    ensures Placed(Prepare(k, rules), rules)
  {
    forall r | r in rules
      ensures (r.table, r.chain) in Prepare(k, rules) && JumpOk(Prepare(k, rules), r.table, r.spec)
    {
      PrepareKeeps(k, rules, (r.table, r.chain));
      if ManagedChain(r).Some? {
        PrepareCreates(k, rules, r);
      }
    }
  }

  // ---- one table block of a bootstrap ----

  /** A chain with the first copy of each rule removed and the rules appended. */
  function Rebuilt(s: seq<Spec>, xs: seq<Spec>): seq<Spec> { RemoveFirsts(s, xs) + xs }

  function Expected(k: Kernel, rules: seq<Rule>, tables: set<string>): Kernel {
    map key | key in k :: if key.0 in tables then Rebuilt(k[key], On(rules, key)) else k[key]
  }

  lemma RebuildStep(s: seq<Spec>, xs: seq<Spec>, x: Spec)
    requires x !in xs
    ensures x in s ==> x in Rebuilt(s, xs)
    ensures (if x in s then RemoveFirst(Rebuilt(s, xs), x) else Rebuilt(s, xs)) + [x] == Rebuilt(s, xs + [x])
  {
    RemoveFirstsOthers(s, xs, x);
    assert (xs + [x])[..|xs|] == xs;
    if x in s {
      RemoveFirstIn(RemoveFirsts(s, xs), xs, x);
    }
  }

  lemma OnOneMore(rules: seq<Rule>, r: Rule, key: Key)
    ensures On(rules + [r], key) == if (r.table, r.chain) == key then On(rules, key) + [r.spec] else On(rules, key)
  {
    assert (rules + [r])[..|rules|] == rules;
  }

  lemma ApplyTwo(k: Kernel, t: string, lines: seq<Spec>, k1: Kernel, some: seq<Spec>, line: Spec)
    requires ApplyLines(k, t, lines) == Some(k1) && |some| <= 1
    ensures ApplyLines(k, t, lines + (some + [line]))
            == if some == [] then ApplyLine(k1, t, line)
               else match ApplyLine(k1, t, some[0]) case None => None case Some(k2) => ApplyLine(k2, t, line)
  {
    if some == [] {
      assert (lines + (some + [line]))[..|lines|] == lines;
    } else {
      var l := lines + (some + [line]);
      assert l[..|lines| + 1] == lines + some;
      assert (lines + some)[..|lines|] == lines;
    }
  }

  lemma {:induction false} BlockEffect(k: Kernel, kx: Kernel, rules: seq<Rule>, t: string)
    requires Managed(rules) && Placed(kx, rules) && SameOn(k, kx, {t})
    ensures ApplyLines(kx, t, BuildLines(k, rules, t)) == Some(Expected(kx, rules, {t}))
  {
    if rules == [] {
      NothingExpected(kx, {t});
    } else {
      var front, r := rules[..|rules| - 1], rules[|rules| - 1];
      assert rules == front + [r];
      assert r in rules && r !in front;
      BlockEffect(k, kx, front, t);
      if r.table != t {
        SkippedRule(k, kx, front, r, t);
      } else {
        BuildLinesOneMore(k, front, r, t);
        BlockStep(k, kx, front, r, BuildLines(k, front, t));
      }
    }
  }

  lemma NothingExpected(kx: Kernel, tables: set<string>)
    ensures Expected(kx, [], tables) == kx
  {
    forall key | key in kx ensures Rebuilt(kx[key], On([], key)) == kx[key] {}
  }

  lemma SkippedRule(k: Kernel, kx: Kernel, front: seq<Rule>, r: Rule, t: string)
    requires r.table != t
    ensures Expected(kx, front + [r], {t}) == Expected(kx, front, {t})
    ensures BuildLines(k, front + [r], t) == BuildLines(k, front, t)
  {
    forall key: Key | key.0 == t ensures On(front + [r], key) == On(front, key) {
      OnOneMore(front, r, key);
    }
    BuildLinesOneMore(k, front, r, t);
    assert BuildLines(k, front, t) + [] == BuildLines(k, front, t);
  }

  lemma OneChange(a: Kernel, b: Kernel, key: Key, c: seq<Spec>)
    requires key in a && a.Keys == b.Keys && b[key] == c
    requires forall other | other in a && other != key :: a[other] == b[other]
    ensures b == a[key := c]
  {
  }

  lemma ExpectedStep(kx: Kernel, front: seq<Rule>, r: Rule)
    requires (r.table, r.chain) in kx
    ensures var key := (r.table, r.chain);
            Expected(kx, front + [r], {r.table})
            == Expected(kx, front, {r.table})[key := Rebuilt(kx[key], On(front, key) + [r.spec])]
  {
    var key := (r.table, r.chain);
    OnOneMore(front, r, key);
    forall other: Key | other != key ensures On(front + [r], other) == On(front, other) {
      OnOneMore(front, r, other);
    }
    OneChange(Expected(kx, front, {r.table}), Expected(kx, front + [r], {r.table}), key,
              Rebuilt(kx[key], On(front, key) + [r.spec]));
  }

  /** Delete and append a rule; what the chain holds afterwards is given by c. */
  lemma TwoLines(k1: Kernel, r: Rule, has: bool, c: seq<Spec>)
    requires var key := (r.table, r.chain);
             && r.action == "-A" && key in k1 && JumpOk(k1, r.table, r.spec)
             && (has ==> r.spec in k1[key])
             && c == (if has then RemoveFirst(k1[key], r.spec) else k1[key]) + [r.spec]
    ensures var after := Some(k1[(r.table, r.chain) := c]);
            if has then match ApplyLine(k1, r.table, DeleteLine(r))
                        case None => false
                        case Some(k2) => ApplyLine(k2, r.table, AddLine(r)) == after
            else ApplyLine(k1, r.table, AddLine(r)) == after
  {
    assert AddLine(r)[2..] == r.spec && DeleteLine(r)[2..] == r.spec;
    if has {
      var key := (r.table, r.chain);
      var k2 := k1[key := RemoveFirst(k1[key], r.spec)];
      assert k2[key := c] == k1[key := c];
    }
  }

  /** The lines of one more rule of the table; has tells whether the rule existed when the lines were built. */
  function RuleLines(r: Rule, has: bool): seq<Spec> { (if has then [DeleteLine(r)] else []) + [AddLine(r)] }

  lemma BlockStep(k: Kernel, kx: Kernel, front: seq<Rule>, r: Rule, lines: seq<Spec>)
    requires Managed(front) && r.action == "-A" && r !in front
    requires (r.table, r.chain) in kx && JumpOk(kx, r.table, r.spec)
    requires At(kx, (r.table, r.chain)) == At(k, (r.table, r.chain))
    requires ApplyLines(kx, r.table, lines) == Some(Expected(kx, front, {r.table}))
    ensures ApplyLines(kx, r.table, lines + RuleLines(r, Has(k, r))) == Some(Expected(kx, front + [r], {r.table}))
  {
    var t, key, xs := r.table, (r.table, r.chain), On(front, (r.table, r.chain));
    var k1 := Expected(kx, front, {t});
    ApplyTwo(kx, t, lines, k1, if Has(k, r) then [DeleteLine(r)] else [], AddLine(r));
    OnMembers(front, key, r.spec);
    RebuildStep(kx[key], xs, r.spec);
    TwoLines(k1, r, Has(k, r), Rebuilt(kx[key], xs + [r.spec]));
    ExpectedStep(kx, front, r);
  }

  // ---- a whole bootstrap ----

  lemma ExpectedTwice(kx: Kernel, rules: seq<Rule>, t: string, rest: set<string>)
    requires t !in rest
    ensures Expected(Expected(kx, rules, {t}), rules, rest) == Expected(kx, rules, {t} + rest)
  {
  }

  lemma FirstTable(kx: Kernel, order: seq<string>, tr: map<string, seq<Spec>>, k1: Kernel)
    requires order != [] && forall t | t in order :: t in tr
    requires ApplyLines(kx, order[0], tr[order[0]]) == Some(k1)
    ensures ApplyTables(kx, order, tr) == ApplyTables(k1, order[1..], tr)
  {
  }

  lemma ExpectedFrame(kx: Kernel, rules: seq<Rule>, t: string)
    requires Placed(kx, rules)
    ensures Placed(Expected(kx, rules, {t}), rules)
    ensures forall key: Key | key.0 != t :: At(Expected(kx, rules, {t}), key) == At(kx, key)
  {
  }

  function Elements(order: seq<string>): set<string> { set t | t in order }

  /** The chains of these tables are the same. */
  ghost predicate SameOn(k: Kernel, kx: Kernel, tables: set<string>) {
    forall key: Key | key.0 in tables :: At(kx, key) == At(k, key)
  }

  /** The transaction holds the built lines of these tables. */
  ghost predicate Built(tr: map<string, seq<Spec>>, k: Kernel, rules: seq<Rule>, order: seq<string>) {
    forall t | t in order :: t in tr && tr[t] == BuildLines(k, rules, t)
  }

  lemma RestOfTables(k: Kernel, kx: Kernel, rules: seq<Rule>, order: seq<string>)
    requires order != [] && NoDuplicates(order) && SameOn(k, kx, Elements(order)) && Placed(kx, rules)
    ensures order[0] !in order[1..] && NoDuplicates(order[1..])
    ensures {order[0]} + Elements(order[1..]) == Elements(order)
    ensures SameOn(k, Expected(kx, rules, {order[0]}), Elements(order[1..]))
    ensures SameOn(k, kx, {order[0]}) && SameOn(k, kx, Elements(order[1..]))
  {
    ExpectedFrame(kx, rules, order[0]);
    assert order[0] in Elements(order);
  }

  lemma {:induction false} TablesEffect(k: Kernel, kx: Kernel, rules: seq<Rule>, order: seq<string>,
                                        tr: map<string, seq<Spec>>)
    requires Managed(rules) && Placed(kx, rules) && NoDuplicates(order)
    requires SameOn(k, kx, Elements(order)) && Built(tr, k, rules, order)
    ensures ApplyTables(kx, order, tr) == Applied(Expected(kx, rules, Elements(order)), true)
    decreases |order|
  {
    if order == [] {
      assert Expected(kx, rules, Elements([])) == kx;
    } else {
      var t, rest := order[0], order[1..];
      RestOfTables(k, kx, rules, order);
      BlockEffect(k, kx, rules, t);
      FirstTable(kx, order, tr, Expected(kx, rules, {t}));
      ExpectedFrame(kx, rules, t);
      TablesEffect(k, Expected(kx, rules, {t}), rules, rest, tr);
      ExpectedTwice(kx, rules, t, Elements(rest));
    }
  }

  /** Every chain of k1 is its content in k without the first copy of each rule, then the rules in order. */
  ghost predicate RebuiltFrom(k: Kernel, k1: Kernel, rules: seq<Rule>) {
    forall key :: At(k1, key) == Rebuilt(At(k, key), On(rules, key))
  }

  /** A bootstrap is never refused, creates only the missing managed chains and rebuilds every chain. */
  lemma BootstrapEffect(k: Kernel, rules: seq<Rule>, order: seq<string>)
    requires Managed(rules) && Anchored(k, rules) && IterationOf(order, Tables(rules))
    ensures BootstrapOf(k, rules, order).ok
    ensures BootstrapOf(k, rules, order).kernel.Keys == Prepare(k, rules).Keys
    ensures RebuiltFrom(k, BootstrapOf(k, rules, order).kernel, rules)
  {
    var kx := Prepare(k, rules);
    PreparePlaces(k, rules);
    forall key ensures At(kx, key) == At(k, key) {
      PrepareKeeps(k, rules, key);
    }
    TablesEffect(k, kx, rules, order, BuildAll(k, rules));
    var k1 := BootstrapOf(k, rules, order).kernel;
    forall key: Key ensures At(k1, key) == Rebuilt(At(k, key), On(rules, key)) {
      if key.0 !in order {
        OnElsewhere(rules, key);
      } else if key !in kx {
        NothingOutside(kx, rules, key);
      }
    }
  }

  lemma NothingOutside(kx: Kernel, rules: seq<Rule>, key: Key)
    requires Managed(rules) && Placed(kx, rules) && key !in kx
    ensures On(rules, key) == []
  {
    if On(rules, key) != [] {
      OnMembers(rules, key, On(rules, key)[0]);
      assert false;
    }
  }

  /** No managed rule stands twice in its chain. */
  ghost predicate AtMostOnce(k: Kernel, rules: seq<Rule>) {
    forall r | r in rules :: multiset(At(k, (r.table, r.chain)))[r.spec] <= 1
  }

  lemma OnceInChain(k: Kernel, rules: seq<Rule>, key: Key)
    requires Managed(rules) && AtMostOnce(k, rules)
    ensures NoDuplicates(On(rules, key))
    ensures forall x | x in On(rules, key) :: x !in RemoveFirsts(At(k, key), On(rules, key))
  {
    var xs := On(rules, key);
    OnDistinct(rules, key);
    NoDuplicatesCount(xs);
    RemoveFirstsCount(At(k, key), xs);
    forall x | x in xs ensures x !in RemoveFirsts(At(k, key), xs) {
      OnMembers(rules, key, x);
      var r := Rule(key.0, "-A", key.1, x);
      assert r in rules && multiset(At(k, (r.table, r.chain)))[r.spec] <= 1;
      assert multiset(xs)[x] > 0;
      assert multiset(RemoveFirsts(At(k, key), xs))[x] == 0;
    }
  }

  lemma {:induction false} NothingToPrepare(k: Kernel, rules: seq<Rule>)
    requires Specified(rules) && forall r | r in rules :: !ChainMissing(k, r)
    ensures Prepare(k, rules) == k
  {
    if rules != [] {
      assert rules[|rules| - 1] in rules;
      NothingToPrepare(k, rules[..|rules| - 1]);
    }
  }

  lemma PreparedEnough(k: Kernel, k1: Kernel, rules: seq<Rule>)
    requires Specified(rules) && Prepare(k, rules).Keys <= k1.Keys
    ensures forall r | r in rules :: !ChainMissing(k1, r)
    ensures Prepare(k1, rules) == k1
    ensures Anchored(k, rules) ==> Anchored(k1, rules)
  {
    forall r | r in rules ensures !ChainMissing(k1, r) && ((r.table, r.chain) in k ==> (r.table, r.chain) in k1) {
      if ManagedChain(r).Some? {
        PrepareCreates(k, rules, r);
      }
      PrepareKeeps(k, rules, (r.table, r.chain));
    }
    NothingToPrepare(k1, rules);
  }

  lemma SameKernel(k1: Kernel, k2: Kernel)
    requires k1.Keys == k2.Keys && forall key :: At(k1, key) == At(k2, key)
    ensures k1 == k2
  {
    forall key | key in k1 ensures k1[key] == k2[key] {
      assert At(k1, key) == At(k2, key);
    }
  }

  lemma RebuiltTwice(s: seq<Spec>, xs: seq<Spec>)
    requires NoDuplicates(xs) && forall x | x in xs :: x !in RemoveFirsts(s, xs)
    ensures Rebuilt(Rebuilt(s, xs), xs) == Rebuilt(s, xs)
  {
    var a := RemoveFirsts(s, xs);
    RemoveFirstsBlock(a, xs, []);
    assert a + xs + [] == a + xs && a + [] == a;
  }

  /** A second bootstrap changes nothing if the first found each managed rule at most once. */
  lemma BootstrapIdempotent(k: Kernel, rules: seq<Rule>, order: seq<string>, again: seq<string>)
    requires Managed(rules) && Anchored(k, rules) && AtMostOnce(k, rules)
    requires IterationOf(order, Tables(rules)) && IterationOf(again, Tables(rules))
    ensures var k1 := BootstrapOf(k, rules, order).kernel;
            Specified(rules) && BootstrapOf(k1, rules, again) == Applied(k1, true)
  {
    var k1 := BootstrapOf(k, rules, order).kernel;
    BootstrapEffect(k, rules, order);
    PreparedEnough(k, k1, rules);
    BootstrapEffect(k1, rules, again);
    var k2 := BootstrapOf(k1, rules, again).kernel;
    forall key ensures At(k1, key) == At(k2, key) {
      OnceInChain(k, rules, key);
      RebuiltTwice(At(k, key), On(rules, key));
    }
    SameKernel(k1, k2);
  }

  // ---- a transaction never refers to a rule that is not there ----

  ghost predicate Kept(before: Kernel, k: Kernel) {
    && before.Keys == k.Keys
    && forall key, x: Spec | key in before && x in before[key] :: x in k[key]
  }

  /** The outcome of a block that is carried out, loses no rule and leaves the other tables. */
  ghost predicate Survives(kx: Kernel, t: string, after: Option<Kernel>) {
    && after.Some?
    && Kept(kx, after.value)
    && forall key | key in kx && key.0 != t :: after.value[key] == kx[key]
  }

  lemma SurvivesStep(k: Kernel, kx: Kernel, r: Rule, lines: seq<Spec>)
    requires r.action == "-A" && (r.table, r.chain) in kx && JumpOk(kx, r.table, r.spec)
    requires At(kx, (r.table, r.chain)) == At(k, (r.table, r.chain))
    requires Survives(kx, r.table, ApplyLines(kx, r.table, lines))
    ensures Survives(kx, r.table, ApplyLines(kx, r.table, lines + RuleLines(r, Has(k, r))))
  {
    var t, key := r.table, (r.table, r.chain);
    var k1 := ApplyLines(kx, t, lines).value;
    var c := (if Has(k, r) then RemoveFirst(k1[key], r.spec) else k1[key]) + [r.spec];
    ApplyTwo(kx, t, lines, k1, if Has(k, r) then [DeleteLine(r)] else [], AddLine(r));
    TwoLines(k1, r, Has(k, r), c);
    StaysIn(k1[key], r.spec, Has(k, r));
    SurvivesChange(kx, t, k1, key, c);
  }

  lemma StaysIn(s: seq<Spec>, x: Spec, has: bool)
    ensures forall y | y in s :: y in (if has then RemoveFirst(s, x) else s) + [x]
  {
    OthersStay(s, x);
  }

  lemma SurvivesChange(kx: Kernel, t: string, k1: Kernel, key: Key, c: seq<Spec>)
    requires Survives(kx, t, Some(k1)) && key in kx && key.0 == t && forall y | y in k1[key] :: y in c
    ensures Survives(kx, t, Some(k1[key := c]))
  {
  }

  /** Even with repeated rules, every -D finds its rule. */
  lemma {:induction false} BlockNeverFails(k: Kernel, kx: Kernel, rules: seq<Rule>, t: string)
    requires Placed(kx, rules) && (forall r | r in rules :: r.action == "-A") && SameOn(k, kx, {t})
    ensures Survives(kx, t, ApplyLines(kx, t, BuildLines(k, rules, t)))
  {
    if rules != [] {
      var front, r := rules[..|rules| - 1], rules[|rules| - 1];
      assert rules == front + [r];
      BlockNeverFails(k, kx, front, t);
      if r.table != t {
        SkippedRule(k, kx, front, r, t);
      } else {
        assert r in rules;
        BuildLinesOneMore(k, front, r, t);
        SurvivesStep(k, kx, r, BuildLines(k, front, t));
      }
    }
  }

  lemma OthersStay(s: seq<Spec>, x: Spec)
    ensures forall y | y in s && y != x :: y in RemoveFirst(s, x)
  {
    forall y | y in s && y != x ensures y in RemoveFirst(s, x) {
      assert multiset(RemoveFirst(s, x))[y] > 0;
    }
  }

  lemma {:induction false} TablesNeverFail(k: Kernel, kx: Kernel, rules: seq<Rule>, order: seq<string>,
                                           tr: map<string, seq<Spec>>)
    requires Placed(kx, rules) && NoDuplicates(order) && forall r | r in rules :: r.action == "-A"
    requires SameOn(k, kx, Elements(order)) && Built(tr, k, rules, order)
    ensures ApplyTables(kx, order, tr).ok
    ensures Kept(kx, ApplyTables(kx, order, tr).kernel)
    decreases |order|
  {
    if order != [] {
      var t, rest := order[0], order[1..];
      RestOfTables(k, kx, rules, order);
      BlockNeverFails(k, kx, rules, t);
      var k1 := ApplyLines(kx, t, tr[t]).value;
      FirstTable(kx, order, tr, k1);
      SurvivesFrame(k, kx, k1, t, rest);
      TablesNeverFail(k, k1, rules, rest, tr);
    }
  }

  lemma SurvivesFrame(k: Kernel, kx: Kernel, k1: Kernel, t: string, rest: seq<string>)
    requires Survives(kx, t, Some(k1)) && t !in rest && SameOn(k, kx, Elements(rest))
    ensures SameOn(k, k1, Elements(rest))
  {
    forall key: Key | key.0 in Elements(rest) ensures At(k1, key) == At(k, key) {
      assert At(kx, key) == At(k, key);
    }
  }

  /** No bootstrap is refused, whatever the chains hold and even if a rule is listed twice; no rule disappears. */
  lemma BootstrapNeverFails(k: Kernel, rules: seq<Rule>, order: seq<string>)
    requires Specified(rules) && Anchored(k, rules) && IterationOf(order, Tables(rules))
    requires forall r | r in rules :: r.action == "-A"
    ensures BootstrapOf(k, rules, order).ok
    ensures forall key, x: Spec | x in At(k, key) :: x in At(BootstrapOf(k, rules, order).kernel, key)
  {
    var kx := Prepare(k, rules);
    PreparePlaces(k, rules);
    forall key ensures At(kx, key) == At(k, key) {
      PrepareKeeps(k, rules, key);
    }
    TablesNeverFail(k, kx, rules, order, BuildAll(k, rules));
  }
}
