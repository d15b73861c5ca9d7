/** Teardown: when it is carried out, what it leaves, and what it undoes. */
module RuleTeardown {
  import opened Common
  import opened IpTables
  import opened RuleOrder

  /** The specs that the teardown lists for one chain. */
  function Listed(k: Kernel, rules: seq<Rule>, key: Key): seq<Spec>
    requires Specified(rules)
  {
    if rules == [] then []
    else
      var r := rules[|rules| - 1];
      Listed(k, rules[..|rules| - 1], key) + (if (r.table, r.chain) == key && TornDown(k, r) then [r.spec] else [])
  }

  /** The chain holds each listed rule as often as it is listed. */
  ghost predicate Enough(k: Kernel, rules: seq<Rule>, key: Key)
    requires Specified(rules)
  {
    multiset(Listed(k, rules, key)) <= multiset(At(k, key))
  }

  /** Each chain of the tables without its listed rules. */
  function Without(kx: Kernel, k: Kernel, rules: seq<Rule>, tables: set<string>): Kernel
    requires Specified(rules)
  {
    map key | key in kx :: if key.0 in tables then RemoveFirsts(kx[key], Listed(k, rules, key)) else kx[key]
  }

  lemma ListedOneMore(k: Kernel, front: seq<Rule>, r: Rule, key: Key)
    requires Specified(front + [r])
    ensures Specified(front) && r.spec != []
    ensures Listed(k, front + [r], key)
            == Listed(k, front, key) + if (r.table, r.chain) == key && TornDown(k, r) then [r.spec] else []
  {
    var all := front + [r];
    assert all[..|front|] == front && r in all;
    assert forall q | q in front :: q in all;
  }

  lemma OneMoreCopy(s: seq<Spec>, xs: seq<Spec>, x: Spec)
    ensures multiset(xs + [x]) <= multiset(s) <==> multiset(xs) <= multiset(s) && x in RemoveFirsts(s, xs)
    ensures RemoveFirst(RemoveFirsts(s, xs), x) == RemoveFirsts(s, xs + [x])
  {
    RemoveFirstsCount(s, xs);
    assert x in RemoveFirsts(s, xs) <==> multiset(RemoveFirsts(s, xs))[x] > 0;
    assert (xs + [x])[..|xs|] == xs;
  }

  lemma WithoutOneMore(k: Kernel, kx: Kernel, front: seq<Rule>, r: Rule)
    requires Specified(front + [r]) && Specified(front) && TornDown(k, r) && (r.table, r.chain) in kx
    ensures var k1, key := Without(kx, k, front, {r.table}), (r.table, r.chain);
            Without(kx, k, front + [r], {r.table}) == k1[key := RemoveFirst(k1[key], r.spec)]
  {
    var t, key := r.table, (r.table, r.chain);
    forall other: Key | other != key ensures Listed(k, front + [r], other) == Listed(k, front, other) {
      ListedOneMore(k, front, r, other);
    }
    ListedOneMore(k, front, r, key);
    var s, xs := kx[key], Listed(k, front, key);
    assert RemoveFirsts(s, xs + [r.spec]) == RemoveFirst(RemoveFirsts(s, xs), r.spec) by {
      OneMoreCopy(s, xs, r.spec);
    }
    var rest := RemoveFirst(RemoveFirsts(s, xs), r.spec);
    OneChange(Without(kx, k, front, {t}), Without(kx, k, front + [r], {t}), key, rest);
  }

  lemma TeardownStep(k: Kernel, kx: Kernel, front: seq<Rule>, r: Rule)
    requires Specified(front + [r]) && Specified(front) && TornDown(k, r)
    requires kx.Keys == k.Keys && forall key | key in k && key.0 == r.table :: kx[key] == k[key]
    ensures var k1, key := Without(kx, k, front, {r.table}), (r.table, r.chain);
            && key in k
            && ApplyLine(k1, r.table, DeleteLine(r))
               == if r.spec in RemoveFirsts(k[key], Listed(k, front, key))
                  then Some(Without(kx, k, front + [r], {r.table})) else None
  {
    var key := (r.table, r.chain);
    var k1 := Without(kx, k, front, {r.table});
    assert DeleteLine(r)[2..] == r.spec;
    assert key in k && k1[key] == RemoveFirsts(k[key], Listed(k, front, key));
    WithoutOneMore(k, kx, front, r);
  }

  ghost predicate AllEnough(k: Kernel, rules: seq<Rule>, t: string)
    requires Specified(rules)
  {
    forall key | key in k && key.0 == t :: Enough(k, rules, key)
  }

  lemma EnoughOneMore(k: Kernel, front: seq<Rule>, r: Rule, t: string)
    requires Specified(front + [r]) && Specified(front) && (r.table == t && TornDown(k, r))
    ensures AllEnough(k, front + [r], t)
            <==> AllEnough(k, front, t) && r.spec in RemoveFirsts(At(k, (t, r.chain)), Listed(k, front, (t, r.chain)))
  {
    forall key ensures Enough(k, front + [r], key)
      <==> Enough(k, front, key)
           && (key == (t, r.chain) ==> r.spec in RemoveFirsts(At(k, key), Listed(k, front, key)))
    {
      ListedOneMore(k, front, r, key);
      OneMoreCopy(At(k, key), Listed(k, front, key), r.spec);
    }
    assert (t, r.chain) in k;
  }

  lemma SameListed(k: Kernel, kx: Kernel, front: seq<Rule>, r: Rule, t: string)
    requires Specified(front + [r]) && Specified(front) && !(r.table == t && TornDown(k, r))
    ensures AllEnough(k, front + [r], t) <==> AllEnough(k, front, t)
    ensures Without(kx, k, front + [r], {t}) == Without(kx, k, front, {t})
  {
    forall key: Key | key.0 == t ensures Listed(k, front + [r], key) == Listed(k, front, key) {
      ListedOneMore(k, front, r, key);
    }
  }

  lemma LastLine(k: Kernel, t: string, lines: seq<Spec>, line: Spec)
    ensures ApplyLines(k, t, lines + [line])
            == match ApplyLines(k, t, lines) case None => None case Some(k1) => ApplyLine(k1, t, line)
  {
    assert (lines + [line])[..|lines|] == lines;
  }

  /** A teardown block is carried out exactly if every chain of the table holds enough copies. */
  lemma {:induction false} TeardownBlock(k: Kernel, kx: Kernel, rules: seq<Rule>, t: string)
    requires Specified(rules)
    requires Untouched(k, kx, {t})
    ensures ApplyLines(kx, t, TeardownLines(k, rules, t))
            == if AllEnough(k, rules, t) then Some(Without(kx, k, rules, {t})) else None
  {
    if rules == [] {
      assert Without(kx, k, rules, {t}) == kx;
    } else {
      var front, r := rules[..|rules| - 1], rules[|rules| - 1];
      assert rules == front + [r];
      TeardownBlock(k, kx, front, t);
      TeardownLinesOneMore(k, front, r, t);
      var lines := TeardownLines(k, front, t);
      if r.table == t && TornDown(k, r) {
        LastLine(kx, t, lines, DeleteLine(r));
        TeardownStep(k, kx, front, r);
        EnoughOneMore(k, front, r, t);
      } else {
        assert lines + [] == lines;
        SameListed(k, kx, front, r, t);
      }
    }
  }

  // ---- a whole teardown ----

  lemma WithoutTwice(kx: Kernel, k: Kernel, rules: seq<Rule>, t: string, rest: set<string>)
    requires Specified(rules) && t !in rest
    ensures Without(Without(kx, k, rules, {t}), k, rules, rest) == Without(kx, k, rules, {t} + rest)
  {
  }

  ghost predicate AllTablesEnough(k: Kernel, rules: seq<Rule>, order: seq<string>)
    requires Specified(rules)
  {
    forall t | t in order :: AllEnough(k, rules, t)
  }

  /** The outcome of the blocks in order, starting from kx. */
  ghost predicate TakenDown(k: Kernel, kx: Kernel, rules: seq<Rule>, order: seq<string>, after: Applied)
    requires Specified(rules)
  {
    && after.kernel.Keys == kx.Keys
    && (after.ok <==> AllTablesEnough(k, rules, order))
    && (after.ok ==> after.kernel == Without(kx, k, rules, Elements(order)))
    && (forall key | key in kx && !(key.0 in order && AllEnough(k, rules, key.0)) :: after.kernel[key] == kx[key])
  }

  lemma OneMoreTable(k: Kernel, kx: Kernel, rules: seq<Rule>, t: string, rest: seq<string>)
    requires Specified(rules) && t !in rest && AllEnough(k, rules, t)
    ensures AllTablesEnough(k, rules, [t] + rest) <==> AllTablesEnough(k, rules, rest)
    ensures Without(Without(kx, k, rules, {t}), k, rules, Elements(rest)) == Without(kx, k, rules, Elements([t] + rest))
    ensures forall u :: u in [t] + rest <==> u == t || u in rest
  {
    WithoutTwice(kx, k, rules, t, Elements(rest));
    assert {t} + Elements(rest) == Elements([t] + rest);
  }

  lemma TakenDownStep(k: Kernel, kx: Kernel, rules: seq<Rule>, t: string, rest: seq<string>, after: Applied)
    requires Specified(rules) && t !in rest && AllEnough(k, rules, t)
    requires TakenDown(k, Without(kx, k, rules, {t}), rules, rest, after)
    ensures TakenDown(k, kx, rules, [t] + rest, after)
  {
    var k1, order := Without(kx, k, rules, {t}), [t] + rest;
    OneMoreTable(k, kx, rules, t, rest);
    forall key | key in kx && !(key.0 in order && AllEnough(k, rules, key.0)) ensures after.kernel[key] == kx[key] {
      assert key.0 != t && !(key.0 in rest && AllEnough(k, rules, key.0));
      assert key in k1 && k1[key] == kx[key];
    }
  }

  lemma FirstTakenDown(k: Kernel, kx: Kernel, rules: seq<Rule>, order: seq<string>, after: Applied)
    requires Specified(rules) && order != [] && NoDuplicates(order) && AllEnough(k, rules, order[0])
    requires TakenDown(k, Without(kx, k, rules, {order[0]}), rules, order[1..], after)
    ensures TakenDown(k, kx, rules, order, after)
  {
    assert order == [order[0]] + order[1..];
    TakenDownStep(k, kx, rules, order[0], order[1..], after);
  }

  lemma NoTables(k: Kernel, kx: Kernel, rules: seq<Rule>)
    requires Specified(rules)
    ensures TakenDown(k, kx, rules, [], Applied(kx, true))
  {
    assert Without(kx, k, rules, {}) == kx;
  }

  lemma Refused(k: Kernel, kx: Kernel, rules: seq<Rule>, order: seq<string>)
    requires Specified(rules) && order != [] && !AllEnough(k, rules, order[0])
    ensures TakenDown(k, kx, rules, order, Applied(kx, false))
  {
  }

  /** The transaction holds the teardown lines of these tables. */
  ghost predicate Listing(tr: map<string, seq<Spec>>, k: Kernel, rules: seq<Rule>, order: seq<string>)
    requires Specified(rules)
  {
    forall t | t in order :: t in tr && tr[t] == TeardownLines(k, rules, t)
  }

  /** The chains of these tables are the same, and no chain was added or dropped. */
  ghost predicate Untouched(k: Kernel, kx: Kernel, tables: set<string>) {
    kx.Keys == k.Keys && forall key | key in k && key.0 in tables :: kx[key] == k[key]
  }

  lemma RestUntouched(k: Kernel, kx: Kernel, rules: seq<Rule>, order: seq<string>)
    requires Specified(rules) && order != [] && NoDuplicates(order) && Untouched(k, kx, Elements(order))
    ensures order[0] !in order[1..] && NoDuplicates(order[1..])
    ensures Untouched(k, kx, {order[0]})
    ensures Untouched(k, Without(kx, k, rules, {order[0]}), Elements(order[1..]))
  {
    assert order[0] in Elements(order);
  }

  lemma {:induction false} TeardownTablesEffect(k: Kernel, kx: Kernel, rules: seq<Rule>, order: seq<string>,
                                                tr: map<string, seq<Spec>>)
    requires Specified(rules) && NoDuplicates(order)
    requires Listing(tr, k, rules, order) && Untouched(k, kx, Elements(order))
    ensures TakenDown(k, kx, rules, order, ApplyTables(kx, order, tr))
    decreases |order|
  {
    if order == [] {
      NoTables(k, kx, rules);
    } else {
      var t, rest := order[0], order[1..];
      RestUntouched(k, kx, rules, order);
      TeardownBlock(k, kx, rules, t);
      if AllEnough(k, rules, t) {
        var k1 := Without(kx, k, rules, {t});
        FirstTable(kx, order, tr, k1);
        TeardownTablesEffect(k, k1, rules, rest, tr);
        FirstTakenDown(k, kx, rules, order, ApplyTables(k1, rest, tr));
      } else {
        Refused(k, kx, rules, order);
      }
    }
  }

  lemma {:induction false} ListedIsInTables(k: Kernel, rules: seq<Rule>, key: Key)
    requires Specified(rules) && key.0 !in TeardownTables(k, rules)
    ensures Listed(k, rules, key) == []
  {
    if rules != [] {
      var front, r := rules[..|rules| - 1], rules[|rules| - 1];
      assert rules == front + [r];
      TeardownTablesOneMore(k, front, r);
      ListedIsInTables(k, front, key);
    }
  }

  lemma EveryTable(k: Kernel, rules: seq<Rule>, order: seq<string>)
    requires Specified(rules) && IterationOf(order, TeardownTables(k, rules))
    ensures AllTablesEnough(k, rules, order) <==> forall key | key in k :: Enough(k, rules, key)
  {
    if AllTablesEnough(k, rules, order) {
      forall key | key in k ensures Enough(k, rules, key) {
        if key.0 in order {
          assert AllEnough(k, rules, key.0);
        } else {
          ListedIsInTables(k, rules, key);
        }
      }
    }
  }

  /** A chain left alone by the listing keeps all its rules. */
  lemma WithoutListed(k: Kernel, rules: seq<Rule>, order: seq<string>, key: Key)
    requires Specified(rules) && IterationOf(order, TeardownTables(k, rules)) && key in k
    ensures Without(k, k, rules, Elements(order))[key] == RemoveFirsts(k[key], Listed(k, rules, key))
  {
    if key.0 !in order {
      ListedIsInTables(k, rules, key);
    }
  }

  /** Every chain without the rules listed for it. */
  ghost predicate Stripped(k: Kernel, after: Kernel, rules: seq<Rule>)
    requires Specified(rules)
  {
    after.Keys == k.Keys && forall key | key in k :: after[key] == RemoveFirsts(k[key], Listed(k, rules, key))
  }

  /** A teardown is carried out exactly if no chain holds a rule less often than it is listed; a refused table stays. */
  lemma TeardownExactly(k: Kernel, rules: seq<Rule>, order: seq<string>)
    requires Specified(rules) && IterationOf(order, TeardownTables(k, rules))
    ensures TeardownOf(k, rules, order).ok <==> forall key | key in k :: Enough(k, rules, key)
    ensures TeardownOf(k, rules, order).ok ==> Stripped(k, TeardownOf(k, rules, order).kernel, rules)
    ensures forall key | key in k && !AllEnough(k, rules, key.0) ::
              key in TeardownOf(k, rules, order).kernel && TeardownOf(k, rules, order).kernel[key] == k[key]
  {
    TeardownTablesEffect(k, k, rules, order, TeardownAll(k, rules));
    var after := TeardownOf(k, rules, order);
    assert TakenDown(k, k, rules, order, after);
    EveryTable(k, rules, order);
    if after.ok {
      forall key | key in k ensures after.kernel[key] == RemoveFirsts(k[key], Listed(k, rules, key)) {
        WithoutListed(k, rules, order, key);
      }
    }
  }

  // ---- teardown after a bootstrap ----

  lemma {:induction false} ListedAll(k: Kernel, rules: seq<Rule>, key: Key)
    requires Specified(rules) && forall r | r in rules :: TornDown(k, r)
    ensures Listed(k, rules, key) == On(rules, key)
  {
    if rules != [] {
      assert rules[|rules| - 1] in rules;
      ListedAll(k, rules[..|rules| - 1], key);
    }
  }

  lemma {:induction false} RemoveFirstsAbsent(s: seq<Spec>, xs: seq<Spec>)
    requires forall x | x in xs :: x !in s
    ensures RemoveFirsts(s, xs) == s
  {
    if xs != [] {
      assert xs[|xs| - 1] in xs;
      RemoveFirstsAbsent(s, xs[..|xs| - 1]);
    }
  }

  lemma RebuiltHolds(s: seq<Spec>, xs: seq<Spec>, x: Spec)
    requires x in xs
    ensures x in Rebuilt(s, xs)
  {
    assert Rebuilt(s, xs)[|RemoveFirsts(s, xs)|..] == xs;
  }

  lemma RebuiltAllTornDown(k: Kernel, k1: Kernel, rules: seq<Rule>)
    requires Managed(rules) && RebuiltFrom(k, k1, rules) && forall r | r in rules :: !ChainMissing(k1, r)
    ensures forall r | r in rules :: TornDown(k1, r)
  {
    forall r | r in rules ensures TornDown(k1, r) {
      var key := (r.table, r.chain);
      assert At(k1, key) == Rebuilt(At(k, key), On(rules, key));
      OnMembers(rules, key, r.spec);
      RebuiltHolds(At(k, key), On(rules, key), r.spec);
    }
  }

  lemma AddedThenTaken<T>(a: multiset<T>, b: multiset<T>)
    ensures (a - b) + b - b == a - b
    ensures a - b == a ==> forall x | x in b :: x !in a
  {
    if a - b == a {
      forall x | x in b ensures x !in a {
        assert (a - b)[x] == a[x];
      }
    }
  }

  /** Tearing the rules down again leaves the old chain exactly if it held none of them. */
  lemma RebuiltThenRemoved(s: seq<Spec>, xs: seq<Spec>)
    requires NoDuplicates(xs)
    ensures multiset(xs) <= multiset(Rebuilt(s, xs))
    ensures RemoveFirsts(Rebuilt(s, xs), xs) == s <==> forall x | x in xs :: x !in s
  {
    if forall x | x in xs :: x !in s {
      RemoveFirstsAbsent(s, xs);
      RemoveFirstsBlock(s, xs, []);
      assert s + xs + [] == s + xs && s + [] == s;
    }
    RemoveFirstsCount(s, xs);
    RemoveFirstsCount(Rebuilt(s, xs), xs);
    AddedThenTaken(multiset(s), multiset(xs));
    if RemoveFirsts(Rebuilt(s, xs), xs) == s {
      forall x | x in xs ensures x !in s {
        assert x in multiset(xs);
      }
    }
  }

  /** Nothing of the rules is in any chain. */
  predicate Unmanaged(k: Kernel, rules: seq<Rule>) { forall r | r in rules :: !Has(k, r) }

  lemma UnmanagedChains(k: Kernel, rules: seq<Rule>)
    requires Managed(rules)
    ensures Unmanaged(k, rules) <==> forall key, x | x in On(rules, key) :: x !in At(k, key)
  {
    forall key, x ensures x in On(rules, key) <==> Rule(key.0, "-A", key.1, x) in rules {
      OnMembers(rules, key, x);
    }
    if forall key, x | x in On(rules, key) :: x !in At(k, key) {
      forall r | r in rules ensures !Has(k, r) {
        assert r.spec in On(rules, (r.table, r.chain));
      }
    }
  }

  /**
   * A teardown after a bootstrap is always carried out; every chain is as before the bootstrap,
   * apart from created empty chains, exactly if no managed rule was there.
   */
  lemma TeardownUndoesBootstrap(k: Kernel, rules: seq<Rule>, order: seq<string>, k1: Kernel, order1: seq<string>)
    requires Managed(rules) && Anchored(k, rules) && IterationOf(order, Tables(rules))
    requires k1 == BootstrapOf(k, rules, order).kernel && IterationOf(order1, TeardownTables(k1, rules))
    ensures TeardownOf(k1, rules, order1).ok
    ensures TeardownOf(k1, rules, order1).kernel.Keys == Prepare(k, rules).Keys
    ensures (forall key :: At(TeardownOf(k1, rules, order1).kernel, key) == At(k, key)) <==> Unmanaged(k, rules)
  {
    BootstrapEffect(k, rules, order);
    PreparedEnough(k, k1, rules);
    RebuiltAllTornDown(k, k1, rules);
    var after := TeardownOf(k1, rules, order1);
    forall key ensures Listed(k1, rules, key) == On(rules, key) && Enough(k1, rules, key)
      && (RemoveFirsts(At(k1, key), On(rules, key)) == At(k, key)
          <==> forall x | x in On(rules, key) :: x !in At(k, key))
    {
      ListedAll(k1, rules, key);
      OnDistinct(rules, key);
      RebuiltThenRemoved(At(k, key), On(rules, key));
    }
    TeardownExactly(k1, rules, order1);
    forall key ensures At(after.kernel, key) == RemoveFirsts(At(k1, key), On(rules, key)) {
      StrippedAt(k1, after.kernel, rules, key);
    }
    UnmanagedChains(k, rules);
  }

  lemma {:induction false} RemovedFromNothing(xs: seq<Spec>)
    ensures RemoveFirsts([], xs) == []
  {
    if xs != [] {
      RemovedFromNothing(xs[..|xs| - 1]);
    }
  }

  lemma StrippedAt(k: Kernel, after: Kernel, rules: seq<Rule>, key: Key)
    requires Specified(rules) && Stripped(k, after, rules)
    ensures At(after, key) == RemoveFirsts(At(k, key), Listed(k, rules, key))
  {
    if key !in k {
      RemovedFromNothing(Listed(k, rules, key));
    }
  }

  // ---- rules listed more often than they are in force ----

  lemma {:induction false} ListedCount(k: Kernel, rules: seq<Rule>, r: Rule)
    requires Specified(rules) && r.spec != [] && TornDown(k, r)
    ensures multiset(Listed(k, rules, (r.table, r.chain)))[r.spec] >= multiset(rules)[r]
  {
    if rules != [] {
      var front, q := rules[..|rules| - 1], rules[|rules| - 1];
      assert rules == front + [q];
      ListedCount(k, front, r);
    }
  }

  /** If a rule in force is listed more often than it is there, the teardown is refused and its whole table stays. */
  lemma RepeatedRuleRefused(k: Kernel, rules: seq<Rule>, order: seq<string>, r: Rule)
    requires Specified(rules) && IterationOf(order, TeardownTables(k, rules))
    requires r in rules && TornDown(k, r) && multiset(At(k, (r.table, r.chain)))[r.spec] < multiset(rules)[r]
    ensures !TeardownOf(k, rules, order).ok
    ensures forall key: Key | key.0 == r.table :: At(TeardownOf(k, rules, order).kernel, key) == At(k, key)
  {
    var key := (r.table, r.chain);
    ListedCount(k, rules, r);
    assert !Enough(k, rules, key) && key in k;
    assert !AllEnough(k, rules, r.table);
    TeardownExactly(k, rules, order);
    TeardownKeepsKeys(k, rules, order);
  }

  lemma TeardownKeepsKeys(k: Kernel, rules: seq<Rule>, order: seq<string>)
    requires Specified(rules) && IterationOf(order, TeardownTables(k, rules))
    ensures TeardownOf(k, rules, order).kernel.Keys == k.Keys
  {
    TeardownTablesEffect(k, k, rules, order, TeardownAll(k, rules));
    assert TakenDown(k, k, rules, order, TeardownOf(k, rules, order));
  }
}
