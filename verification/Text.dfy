/** Splitting text at a separator. */
module Text {
  import opened Common

  /** The pieces of s between occurrences of c, as strings.Split gives them. */
  function Split(s: string, c: char): (parts: seq<string>)
    ensures parts != []
    ensures forall i | 0 <= i < |parts| :: c !in parts[i]
  {
    var i := IndexOf(s, c);
    if i == |s| then [s] else [s[..i]] + Split(s[i + 1..], c)
  }

  lemma SplitWhole(s: string, c: char)
    requires c !in s
    ensures Split(s, c) == [s]
  {
  }

  lemma SplitFirst(a: string, c: char, b: string)
    requires c !in a
    ensures Split(a + [c] + b, c) == [a] + Split(b, c)
  {
    var s := a + [c] + b;
    assert s[..|a|] == a && s[|a|] == c && s[|a| + 1..] == b;
    FirstIndex(s, |a|, c);
  }

  /** The pieces joined with c between them. */
  function Join(parts: seq<string>, c: char): string
    requires parts != []
  {
    if |parts| == 1 then parts[0] else parts[0] + [c] + Join(parts[1..], c)
  }

  lemma {:induction false} SplitJoin(parts: seq<string>, c: char)
    requires parts != [] && forall i | 0 <= i < |parts| :: c !in parts[i]
    ensures Split(Join(parts, c), c) == parts
  {
    if |parts| == 1 {
      SplitWhole(parts[0], c);
    } else {
      SplitFirst(parts[0], c, Join(parts[1..], c));
      SplitJoin(parts[1..], c);
    }
  }

  /** The text before and after the first c; None if there is none. */
  function Cut(s: string, c: char): Option<(string, string)> {
    var i := IndexOf(s, c);
    if i == |s| then None else Some((s[..i], s[i + 1..]))
  }

  lemma CutAt(a: string, c: char, b: string)
    requires c !in a
    ensures Cut(a + [c] + b, c) == Some((a, b))
  {
    var s := a + [c] + b;
    assert s[..|a|] == a && s[|a|] == c && s[|a| + 1..] == b;
    FirstIndex(s, |a|, c);
  }

  /** All texts, one after the other. */
  function Concat(texts: seq<string>): string {
    if texts == [] then "" else Concat(texts[..|texts| - 1]) + texts[|texts| - 1]
  }

  lemma {:induction false} ConcatSplit(a: seq<string>, b: seq<string>)
    ensures Concat(a + b) == Concat(a) + Concat(b)
  {
    if b == [] {
      assert a + b == a;
    } else {
      ConcatSplit(a, b[..|b| - 1]);
      assert (a + b)[..|a + b| - 1] == a + b[..|b| - 1];
    }
  }

  /** Each text ended by c. */
  function Ended(texts: seq<string>, c: char): seq<string> {
    seq(|texts|, i requires 0 <= i < |texts| => texts[i] + [c])
  }

  lemma EndedFirst(texts: seq<string>, c: char)
    requires texts != []
    ensures Concat(Ended(texts, c)) == texts[0] + [c] + Concat(Ended(texts[1..], c))
  {
    var first := [texts[0] + [c]];
    assert Ended(texts, c) == first + Ended(texts[1..], c);
    ConcatSplit(first, Ended(texts[1..], c));
    assert first[..0] == [];
    assert Concat(first) == texts[0] + [c];
  }

  lemma HeadAndTail<T>(s: seq<T>, more: seq<T>)
    requires s != []
    ensures [s[0]] + (s[1..] + more) == s + more
  {
  }

  lemma SplitStep(texts: seq<string>, c: char, text: string)
    requires texts != [] && c !in texts[0] && Split(text, c) == texts[1..] + [""]
    ensures Split(texts[0] + [c] + text, c) == texts + [""]
  {
    SplitFirst(texts[0], c, text);
    HeadAndTail(texts, [""]);
  }

  /** Splitting ended texts gives them back, and an empty rest. */
  lemma {:induction false} SplitEnded(texts: seq<string>, c: char)
    requires forall i | 0 <= i < |texts| :: c !in texts[i]
    ensures Split(Concat(Ended(texts, c)), c) == texts + [""]
  {
    if texts == [] {
      SplitWhole("", c);
      assert Concat(Ended(texts, c)) == "";
    } else {
      SplitEnded(texts[1..], c);
      EndedFirst(texts, c);
      SplitStep(texts, c, Concat(Ended(texts[1..], c)));
    }
  }
}
