/** Managed iptables rules: the delete/append transaction, its teardown and the ensure loop. */
module IpTables {
  import opened Common

  type Spec = seq<string>
  type Key = (string, string)
  type Kernel = map<Key, seq<Spec>>

  datatype Rule = Rule(table: string, action: string, chain: string, spec: Spec)

  const FWD := "SIMPLECNI-FWD"
  const POSTRTG := "SIMPLECNI-POSTRTG"

  function At(k: Kernel, key: Key): seq<Spec> { if key in k then k[key] else [] }

  predicate Has(k: Kernel, r: Rule) { r.spec in At(k, (r.table, r.chain)) }

  /** The managed chain that a rule lives in or jumps to. */
  function ManagedChain(r: Rule): Option<string>
    requires r.spec != []
  {
    var last := r.spec[|r.spec| - 1];
    if r.chain == FWD || last == FWD then Some(FWD)
    else if r.chain == POSTRTG || last == POSTRTG then Some(POSTRTG)
    else None
  }

  /** The managed chain of the rule, if it has one, does not exist. */
  predicate ChainMissing(k: Kernel, r: Rule)
    requires r.spec != []
  {
    var c := ManagedChain(r);
    c.Some? && (r.table, c.value) !in k
  }

  ghost predicate Specified(rules: seq<Rule>) { forall r | r in rules :: r.spec != [] }

  // ---- iptables-restore --noflush ----

  /** A jump needs its managed target chain. */
  predicate JumpOk(k: Kernel, table: string, spec: Spec) {
    spec != [] && (spec[|spec| - 1] in {FWD, POSTRTG} ==> (table, spec[|spec| - 1]) in k)
  }

  /** One line: -D removes the first occurrence and -A appends; None: the line is refused. */
  function ApplyLine(k: Kernel, table: string, line: Spec): Option<Kernel> {
    if |line| < 2 || (table, line[1]) !in k then None
    else
      var key, spec := (table, line[1]), line[2..];
      if line[0] == "-D" then
        if spec in k[key] then Some(k[key := RemoveFirst(k[key], spec)]) else None
      else if line[0] == "-A" then
        if JumpOk(k, table, spec) then Some(k[key := k[key] + [spec]]) else None
      else None
  }

  function ApplyLines(k: Kernel, table: string, lines: seq<Spec>): Option<Kernel> {
    if lines == [] then Some(k)
    else match ApplyLines(k, table, lines[..|lines| - 1])
      case None => None
      case Some(k1) => ApplyLine(k1, table, lines[|lines| - 1])
  }

  datatype Applied = Applied(kernel: Kernel, ok: bool)

  /** Each table block commits on its own; a refused block ends the run. */
  function ApplyTables(k: Kernel, order: seq<string>, tr: map<string, seq<Spec>>): Applied
    requires forall t | t in order :: t in tr
    decreases |order|
  {
    if order == [] then Applied(k, true)
    else match ApplyLines(k, order[0], tr[order[0]])
      case None => Applied(k, false)
      case Some(k1) => ApplyTables(k1, order[1..], tr)
  }

  // ---- what the transactions contain ----

  /** Missing managed chains are created while the transaction is built. */
  function Prepare(k: Kernel, rules: seq<Rule>): Kernel
    requires Specified(rules)
  {
    if rules == [] then k
    else
      var k1 := Prepare(k, rules[..|rules| - 1]);
      var r := rules[|rules| - 1];
      if ChainMissing(k1, r) then k1[(r.table, ManagedChain(r).value) := []] else k1
  }

  function DeleteLine(r: Rule): Spec { ["-D", r.chain] + r.spec }

  function AddLine(r: Rule): Spec { [r.action, r.chain] + r.spec }

  /** Lines for one table: delete each rule that was there, then append it. */
  function BuildLines(k: Kernel, rules: seq<Rule>, t: string): seq<Spec> {
    if rules == [] then []
    else
      var r := rules[|rules| - 1];
      BuildLines(k, rules[..|rules| - 1], t)
      + (if r.table != t then [] else (if Has(k, r) then [DeleteLine(r)] else []) + [AddLine(r)])
  }

  predicate TornDown(k: Kernel, r: Rule)
    requires r.spec != []
  {
    !ChainMissing(k, r) && Has(k, r)
  }

  /** Lines of the teardown for one table. */
  function TeardownLines(k: Kernel, rules: seq<Rule>, t: string): seq<Spec>
    requires Specified(rules)
  {
    if rules == [] then []
    else
      var r := rules[|rules| - 1];
      TeardownLines(k, rules[..|rules| - 1], t)
      + (if r.table == t && TornDown(k, r) then [DeleteLine(r)] else [])
  }

  /** The specs of the rules of one chain, in order. */
  function On(rules: seq<Rule>, key: Key): seq<Spec> {
    if rules == [] then []
    else
      var r := rules[|rules| - 1];
      On(rules[..|rules| - 1], key) + (if (r.table, r.chain) == key then [r.spec] else [])
  }

  /** s without the first occurrence of each of xs, one after the other. */
  function RemoveFirsts(s: seq<Spec>, xs: seq<Spec>): seq<Spec> {
    if xs == [] then s else RemoveFirst(RemoveFirsts(s, xs[..|xs| - 1]), xs[|xs| - 1])
  }

  function Tables(rules: seq<Rule>): set<string> { set r | r in rules :: r.table }

  function BuildAll(k: Kernel, rules: seq<Rule>): map<string, seq<Spec>> {
    map t | t in Tables(rules) :: BuildLines(k, rules, t)
  }

  /** The tables that the teardown has lines for. */
  function TeardownTables(k: Kernel, rules: seq<Rule>): set<string>
    requires Specified(rules)
  {
    set t | t in Tables(rules) && TeardownLines(k, rules, t) != []
  }

  function TeardownAll(k: Kernel, rules: seq<Rule>): map<string, seq<Spec>>
    requires Specified(rules)
  {
    map t | t in TeardownTables(k, rules) :: TeardownLines(k, rules, t)
  }

  /** The order in which Go happens to iterate a map with these keys. */
  ghost predicate IterationOf(order: seq<string>, tables: set<string>) {
    NoDuplicates(order) && forall t :: t in order <==> t in tables
  }

  // ---- the operations ----

  function BootstrapOf(k: Kernel, rules: seq<Rule>, order: seq<string>): Applied
    requires Specified(rules) && IterationOf(order, Tables(rules))
  {
    ApplyTables(Prepare(k, rules), order, BuildAll(k, rules))
  }

  predicate AllExist(k: Kernel, rules: seq<Rule>)
    requires Specified(rules)
  {
    forall r | r in rules :: !ChainMissing(k, r) && Has(k, r)
  }

  function EnsureOf(k: Kernel, rules: seq<Rule>, order: seq<string>): Applied
    requires Specified(rules) && IterationOf(order, Tables(rules))
  {
    if AllExist(k, rules) then Applied(k, true) else BootstrapOf(k, rules, order)
  }

  function TeardownOf(k: Kernel, rules: seq<Rule>, order: seq<string>): Applied
    requires Specified(rules) && IterationOf(order, TeardownTables(k, rules))
  {
    ApplyTables(k, order, TeardownAll(k, rules))
  }

  /** The kernel's tables, changed in place by the iptables and iptables-restore commands. */
  class Netfilter {
    var chains: Kernel

    constructor (chains: Kernel)
      ensures this.chains == chains
    {
      this.chains := chains;
    }

    method ChainExists(table: string, chain: string) returns (exist: bool)
      ensures exist == ((table, chain) in chains)
    {
      exist := (table, chain) in chains;
    }

    /** Create the chain, or empty it. */
    method ClearChain(table: string, chain: string)
      modifies this
      ensures chains == old(chains)[(table, chain) := []]
    {
      chains := chains[(table, chain) := []];
    }

    method Exists(r: Rule) returns (exist: bool)
      ensures exist == Has(chains, r)
    {
      exist := r.spec in At(chains, (r.table, r.chain));
    }

    method ApplyWithoutFlush(order: seq<string>, tr: map<string, seq<Spec>>) returns (ok: bool)
      requires forall t | t in order :: t in tr
      modifies this
      ensures Applied(chains, ok) == ApplyTables(old(chains), order, tr)
    {
      var i := 0;
      while i < |order|
        invariant i <= |order|
        invariant ApplyTables(old(chains), order, tr) == ApplyTables(chains, order[i..], tr)
      {
        var block := tr[order[i]];
        var scratch := chains;
        assert block[..0] == [];
        for j := 0 to |block|
          invariant ApplyLines(chains, order[i], block[..j]) == Some(scratch)
        {
          assert block[..j + 1][..j] == block[..j];
          var next := ApplyLine(scratch, order[i], block[j]);
          if next.None? {
            RefusedPrefix(chains, order[i], block, j + 1);
            return false;
          }
          scratch := next.value;
        }
        assert block[..|block|] == block;
        chains := scratch;
        i := i + 1;
      }
      return true;
    }
  }

  lemma {:induction false} RefusedPrefix(k: Kernel, table: string, lines: seq<Spec>, n: nat)
    requires n <= |lines| && ApplyLines(k, table, lines[..n]).None?
    ensures ApplyLines(k, table, lines).None?
    decreases |lines| - n
  {
    if n == |lines| {
      assert lines[..n] == lines;
    } else {
      assert lines[..n + 1][..n] == lines[..n];
      RefusedPrefix(k, table, lines, n + 1);
    }
  }

  /** Add a line to a table's list, starting the list if needed. */
  function AddTo(tr: map<string, seq<Spec>>, t: string, line: Spec): map<string, seq<Spec>> {
    tr[t := (if t in tr then tr[t] else []) + [line]]
  }

  method IpTablesRulesExist(ipt: Netfilter, rules: seq<Rule>) returns (exist: bool)
    requires Specified(rules)
    ensures exist == AllExist(ipt.chains, rules)
  {
    for i := 0 to |rules|
      invariant AllExist(ipt.chains, rules[..i])
    {
      var r := rules[i];
      var c := ManagedChain(r);
      if c.Some? {
        var chainExist := ipt.ChainExists(r.table, c.value);
        if !chainExist {
          return false;
        }
      }
      var present := ipt.Exists(r);
      if !present {
        return false;
      }
    }
    assert rules[..|rules|] == rules;
    return true;
  }

  method IpTablesCleanAndBuild(ipt: Netfilter, rules: seq<Rule>) returns (tr: map<string, seq<Spec>>)
    requires Specified(rules)
    modifies ipt
    ensures ipt.chains == Prepare(old(ipt.chains), rules)
    ensures tr == BuildAll(old(ipt.chains), rules)
  {
    ghost var k := ipt.chains;
    tr := map[];
    for i := 0 to |rules|
      invariant ipt.chains == Prepare(k, rules[..i])
      invariant tr == BuildAll(k, rules[..i])
    {
      var r := rules[i];
      assert rules[..i + 1][..i] == rules[..i];
      assert rules[..i + 1] == rules[..i] + [r];
      var c := ManagedChain(r);
      if c.Some? {
        var chainExist := ipt.ChainExists(r.table, c.value);
        if !chainExist {
          ipt.ClearChain(r.table, c.value);
        }
      }
      var present := ipt.Exists(r);
      PrepareKeeps(k, rules[..i + 1], (r.table, r.chain));
      ghost var before := tr;
      if present {
        tr := AddTo(tr, r.table, DeleteLine(r));
      }
      tr := AddTo(tr, r.table, AddLine(r));
      BuildOneMore(k, rules[..i], r);
    }
    assert rules[..|rules|] == rules;
  }

  lemma NoLinesElsewhere(k: Kernel, rules: seq<Rule>, t: string)
    requires t !in Tables(rules)
    ensures BuildLines(k, rules, t) == []
  {
    if rules != [] {
      assert rules[|rules| - 1] in rules;
      NoLinesElsewhere(k, rules[..|rules| - 1], t);
    }
  }

  lemma BuildLinesOneMore(k: Kernel, rules: seq<Rule>, r: Rule, t: string)
    ensures BuildLines(k, rules + [r], t)
            == BuildLines(k, rules, t)
               + (if r.table != t then [] else (if Has(k, r) then [DeleteLine(r)] else []) + [AddLine(r)])
  {
    assert (rules + [r])[..|rules|] == rules;
  }

  lemma TablesOneMore(rules: seq<Rule>, r: Rule)
    ensures Tables(rules + [r]) == Tables(rules) + {r.table}
  {
    assert forall q | q in rules :: q in rules + [r];
    assert r in rules + [r];
  }

  /** Building up table by table is the same as appending each line to its table's list. */
  lemma BuildOneMore(k: Kernel, rules: seq<Rule>, r: Rule)
    ensures var tr := BuildAll(k, rules);
            var tr1 := if Has(k, r) then AddTo(tr, r.table, DeleteLine(r)) else tr;
            BuildAll(k, rules + [r]) == AddTo(tr1, r.table, AddLine(r))
  {
    TablesOneMore(rules, r);
    if r.table !in Tables(rules) {
      NoLinesElsewhere(k, rules, r.table);
    }
    forall t ensures BuildLines(k, rules + [r], t)
            == BuildLines(k, rules, t)
               + (if r.table != t then [] else (if Has(k, r) then [DeleteLine(r)] else []) + [AddLine(r)]) {
      BuildLinesOneMore(k, rules, r, t);
    }
    AddTwo(BuildAll(k, rules), BuildAll(k, rules + [r]), r.table,
           if Has(k, r) then [DeleteLine(r)] else [], AddLine(r));
  }

  lemma AddTwo(tr: map<string, seq<Spec>>, after: map<string, seq<Spec>>, t: string, some: seq<Spec>, line: Spec)
    requires |some| <= 1 && after.Keys == tr.Keys + {t}
    requires forall u | u in tr && u != t :: after[u] == tr[u]
    requires after[t] == (if t in tr then tr[t] else []) + (some + [line])
    ensures after == AddTo(if some == [] then tr else AddTo(tr, t, some[0]), t, line)
  {
    var was := if t in tr then tr[t] else [];
    if some != [] {
      assert some == [some[0]];
      assert was + (some + [line]) == was + [some[0]] + [line];
    } else {
      assert was + (some + [line]) == was + [line];
    }
  }

  method IpTablesBootstrap(ipt: Netfilter, rules: seq<Rule>, order: seq<string>) returns (ok: bool)
    requires Specified(rules) && IterationOf(order, Tables(rules))
    modifies ipt
    ensures Applied(ipt.chains, ok) == BootstrapOf(old(ipt.chains), rules, order)
  {
    var tr := IpTablesCleanAndBuild(ipt, rules);
    ok := ipt.ApplyWithoutFlush(order, tr);
  }

  method EnsureIPTables(ipt: Netfilter, rules: seq<Rule>, order: seq<string>) returns (ok: bool)
    requires Specified(rules) && IterationOf(order, Tables(rules))
    modifies ipt
    ensures Applied(ipt.chains, ok) == EnsureOf(old(ipt.chains), rules, order)
  {
    var exist := IpTablesRulesExist(ipt, rules);
    if exist {
      return true;
    }
    ok := IpTablesBootstrap(ipt, rules, order);
  }

  method TeardownIPTables(ipt: Netfilter, rules: seq<Rule>, order: seq<string>) returns (ok: bool)
    requires Specified(rules) && IterationOf(order, TeardownTables(ipt.chains, rules))
    modifies ipt
    ensures Applied(ipt.chains, ok) == TeardownOf(old(ipt.chains), rules, order)
  {
    ghost var k := ipt.chains;
    var tr: map<string, seq<Spec>> := map[];
    for i := 0 to |rules|
      invariant ipt.chains == k
      invariant tr == TeardownAll(k, rules[..i])
    {
      var r := rules[i];
      assert rules[..i + 1] == rules[..i] + [r];
      TeardownOneMore(k, rules[..i], r);
      var c := ManagedChain(r);
      if c.Some? {
        var chainExist := ipt.ChainExists(r.table, c.value);
        if !chainExist {
          continue;
        }
      }
      var present := ipt.Exists(r);
      if present {
        tr := AddTo(tr, r.table, DeleteLine(r));
      }
    }
    assert rules[..|rules|] == rules;
    ok := ipt.ApplyWithoutFlush(order, tr);
  }

  lemma NoTeardownElsewhere(k: Kernel, rules: seq<Rule>, t: string)
    requires Specified(rules) && t !in Tables(rules)
    ensures TeardownLines(k, rules, t) == []
  {
    if rules != [] {
      assert rules[|rules| - 1] in rules;
      NoTeardownElsewhere(k, rules[..|rules| - 1], t);
    }
  }

  lemma TeardownLinesOneMore(k: Kernel, rules: seq<Rule>, r: Rule, t: string)
    requires Specified(rules + [r])
    ensures Specified(rules) && r.spec != []
    ensures TeardownLines(k, rules + [r], t)
            == TeardownLines(k, rules, t) + (if r.table == t && TornDown(k, r) then [DeleteLine(r)] else [])
  {
    var all := rules + [r];
    assert all[..|rules|] == rules && r in all;
    assert forall q | q in rules :: q in all;
  }

  lemma InTeardown(k: Kernel, rules: seq<Rule>, t: string)
    requires Specified(rules)
    ensures t in TeardownTables(k, rules) <==> TeardownLines(k, rules, t) != []
  {
    if t !in Tables(rules) {
      NoTeardownElsewhere(k, rules, t);
    }
  }

  lemma TeardownTablesOneMore(k: Kernel, rules: seq<Rule>, r: Rule)
    requires Specified(rules + [r])
    ensures Specified(rules) && r.spec != []
    ensures TeardownTables(k, rules + [r]) == TeardownTables(k, rules) + (if TornDown(k, r) then {r.table} else {})
    ensures r.table !in TeardownTables(k, rules) ==> TeardownLines(k, rules, r.table) == []
  {
    TeardownLinesOneMore(k, rules, r, r.table);
    InTeardown(k, rules, r.table);
    var before, after := TeardownTables(k, rules), TeardownTables(k, rules + [r]);
    forall t ensures t in after <==> t in before || (TornDown(k, r) && t == r.table) {
      InTeardown(k, rules, t);
      InTeardown(k, rules + [r], t);
      TeardownLinesOneMore(k, rules, r, t);
    }
  }

  /** A map that differs from another only by more lines in one table. */
  lemma AddOne(tr: map<string, seq<Spec>>, after: map<string, seq<Spec>>, t: string, line: Spec)
    requires after.Keys == tr.Keys + {t}
    requires forall u | u in tr && u != t :: after[u] == tr[u]
    requires after[t] == (if t in tr then tr[t] else []) + [line]
    ensures after == AddTo(tr, t, line)
  {
  }

  lemma SameMap(tr: map<string, seq<Spec>>, after: map<string, seq<Spec>>)
    requires after.Keys == tr.Keys && forall u | u in tr :: after[u] == tr[u]
    ensures after == tr
  {
  }

  lemma TeardownOneMore(k: Kernel, rules: seq<Rule>, r: Rule)
    requires Specified(rules + [r])
    ensures Specified(rules) && r.spec != []
    ensures TeardownAll(k, rules + [r])
            == if TornDown(k, r) then AddTo(TeardownAll(k, rules), r.table, DeleteLine(r)) else TeardownAll(k, rules)
  {
    TeardownTablesOneMore(k, rules, r);
    var before, after := TeardownAll(k, rules), TeardownAll(k, rules + [r]);
    TeardownLinesOneMore(k, rules, r, r.table);
    forall t | t in before && (t != r.table || !TornDown(k, r)) ensures after[t] == before[t] {
      TeardownLinesOneMore(k, rules, r, t);
    }
    if TornDown(k, r) {
      AddOne(before, after, r.table, DeleteLine(r));
    } else {
      SameMap(before, after);
    }
  }

  lemma {:induction false} PrepareKeeps(k: Kernel, rules: seq<Rule>, key: Key)
    requires Specified(rules)
    ensures At(Prepare(k, rules), key) == At(k, key)
    ensures key in k ==> key in Prepare(k, rules)
  {
    if rules != [] {
      PrepareKeeps(k, rules[..|rules| - 1], key);
    }
  }
}
