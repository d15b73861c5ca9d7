/** ListSnapshots: lookup by ID, by source volume, and page by page. */
module Paging {
  import opened Common
  import opened KeyedList
  import opened Store
  import opened Ordering
  import opened Decimal
  import opened Driver

  datatype Listing =
    | Page(entries: seq<Snapshot>, next: string)
    | Rejected(code: Code)
      // an index or length out of range: the handler panics
    | Crash

  /** The offset a token stands for, as int32; None if it is not an unsigned 32-bit number. */
  function Offset(token: string): Option<int> {
    if token == "" then Some(0)
    else match ParseUint(token, TWO32)
      case None => None
      case Some(i) => Some(Wrap32(i))
  }

  /** How many entries the page gets from the rem that are left. */
  function PageSize(maxEntries: int, rem: int): int {
    if maxEntries == 0 || maxEntries > rem then rem else maxEntries
  }

  /** The page that begins at an offset, in int32 arithmetic. */
  function PageFrom(snaps: seq<Snapshot>, maxEntries: int, start: int): Listing {
    var total := Wrap32(|snaps|);
    var count := PageSize(maxEntries, Wrap32(total - start));
    if count < 0 || (count > 0 && (start < 0 || start + count > |snaps|)) then Crash
    else
      var end := Wrap32(start + count);
      Page(if count == 0 then [] else snaps[start..start + count], if end < total then Print(Abs(end)) else "")
  }

  /** One page of a sorted list. */
  function PageOf(snaps: seq<Snapshot>, maxEntries: int, token: string): Listing {
    match Offset(token)
    case None => Rejected(Aborted)
    case Some(start) =>
      if start > Wrap32(|snaps|) then Rejected(Aborted) else PageFrom(snaps, maxEntries, start)
  }

  function Abs(x: int): nat { if x < 0 then -x else x }

  method ListPage(snaps: seq<Snapshot>, maxEntries: int, token: string) returns (r: Listing)
    ensures r == PageOf(snaps, maxEntries, token)
  {
    var start := 0;
    if token != "" {
      var parsed := ParseUint(token, TWO32);
      if parsed.None? {
        return Rejected(Aborted);
      }
      start := Wrap32(parsed.value);
    }
    if start > Wrap32(|snaps|) {
      return Rejected(Aborted);
    }
    r := FillPage(snaps, maxEntries, start);
  }

  /** The next token's position needs no wrap-around when the page was filled. */
  lemma FinishedPage(snaps: seq<Snapshot>, maxEntries: int, start: int)
    requires -TWO31 <= start <= Wrap32(|snaps|)
    ensures var total := Wrap32(|snaps|);
            var count := PageSize(maxEntries, Wrap32(total - start));
            count >= 0 && (count == 0 || (0 <= start && start + count <= |snaps|)) ==>
              Wrap32(start + count) == start + count
  {
  }

  method FillPage(snaps: seq<Snapshot>, maxEntries: int, start: int) returns (r: Listing)
    requires -TWO31 <= start <= Wrap32(|snaps|)
    ensures r == PageFrom(snaps, maxEntries, start)
  {
    FinishedPage(snaps, maxEntries, start);
    var total := Wrap32(|snaps|);
    var rem := Wrap32(total - start);
    var count := maxEntries;
    if count == 0 || count > rem {
      count := rem;
    }
    if count < 0 {
      return Crash;
    }
    var entries := CopyEntries(snaps, start, count);
    if entries.None? {
      return Crash;
    }
    var j := start + count;
    return Page(entries.value, if j < total then Print(Abs(j)) else "");
  }

  /** The loop that fills the page; None when it indexes out of range. */
  method CopyEntries(snaps: seq<Snapshot>, start: int, count: nat) returns (r: Option<seq<Snapshot>>)
    ensures r == if count > 0 && (start < 0 || start + count > |snaps|) then None
                 else Some(if count == 0 then [] else snaps[start..start + count])
  {
    var entries := new Snapshot[count];
    var j := start;
    for i := 0 to count
      invariant j == start + i
      invariant i > 0 ==> 0 <= start && start + i <= |snaps| && entries[..i] == snaps[start..start + i]
    {
      if j < 0 || j >= |snaps| {
        return None;
      }
      entries[i] := snaps[j];
      assert entries[..i + 1] == entries[..i] + [snaps[j]];
      j := j + 1;
    }
    assert entries[..count] == entries[..];
    return Some(entries[..]);
  }

  lemma InRange(x: int)
    ensures -TWO31 <= x < TWO31 ==> Wrap32(x) == x
  {
  }

  /** The whole RPC on the remembered snapshots. */
  method ListSnapshots(cfg: Config, state: State, id: string, volID: string, maxEntries: int, token: string)
    returns (r: Listing)
    ensures r == Listed(cfg, state.snapshots, id, volID, maxEntries, token)
  {
    if cfg.ephemeral {
      return Rejected(InvalidArgument);
    }
    if id != "" {
      var s := state.GetSnapshotByID(id);
      return Page(if s.Some? then [s.value] else [], "");
    }
    if volID != "" {
      for i := 0 to |state.snapshots|
        invariant forall j | 0 <= j < i :: state.snapshots[j].volID != volID
      {
        if state.snapshots[i].volID == volID {
          IndexIs(SourceVolume, state.snapshots, volID, i);
          return Page([state.snapshots[i]], "");
        }
      }
      IndexIs(SourceVolume, state.snapshots, volID, |state.snapshots|);
      return Page([], "");
    }
    var sorted := Sort(SnapshotID, state.snapshots);
    SortSorts(SnapshotID, state.snapshots);
    r := ListPage(sorted, maxEntries, token);
  }

  function SourceVolume(s: Snapshot): string { s.volID }

  function AtMostOne(s: Option<Snapshot>): seq<Snapshot> {
    match s case None => [] case Some(x) => [x]
  }

  function Listed(cfg: Config, snaps: seq<Snapshot>, id: string, volID: string,
                  maxEntries: int, token: string): Listing {
    if cfg.ephemeral then Rejected(InvalidArgument)
    else if id != "" then Page(AtMostOne(Find(SnapshotID, snaps, id)), "")
    else if volID != "" then Page(AtMostOne(Find(SourceVolume, snaps, volID)), "")
    else PageOf(Sort(SnapshotID, snaps), maxEntries, token)
  }

  /** Listing by ID gives exactly the snapshot with that ID, on one page. */
  lemma ByID(cfg: Config, snaps: seq<Snapshot>, id: string, volID: string, maxEntries: int, token: string)
    requires !cfg.ephemeral && id != "" && Distinct(SnapshotID, snaps)
    ensures var r := Listed(cfg, snaps, id, volID, maxEntries, token);
            && r.Page? && r.next == "" && |r.entries| <= 1
            && forall s :: s in r.entries <==> s in snaps && s.id == id
  {
    var found := Find(SnapshotID, snaps, id);
    FindNone(SnapshotID, snaps, id);
    forall s | s in snaps && s.id == id ensures found == Some(s) {
      FindIsMember(SnapshotID, snaps, s);
    }
  }

  /** A request is rejected for its token exactly if that is no number of 32 bits or points beyond the end. */
  lemma RejectedExactly(cfg: Config, snaps: seq<Snapshot>, maxEntries: int, token: string)
    requires |snaps| < TWO31 && !cfg.ephemeral
    ensures Listed(cfg, snaps, "", "", maxEntries, token) == Rejected(Aborted)
            <==> token != "" && !(Numeral(token) && (Value(token) <= |snaps| || TWO31 <= Value(token) < TWO32))
    ensures Listed(cfg, snaps, "", "", maxEntries, token).Rejected?
            ==> Listed(cfg, snaps, "", "", maxEntries, token) == Rejected(Aborted)
  {
    var sorted := Sort(SnapshotID, snaps);
    SortSorts(SnapshotID, snaps);
    assert |sorted| == |snaps| by { assert |multiset(sorted)| == |multiset(snaps)|; }
    InRange(|snaps|);
    if Numeral(token) && Value(token) < TWO32 {
      OffsetOfText(token, Value(token));
      WrapUnsigned(Value(token));
    }
  }

  predicate FirstOf(snaps: seq<Snapshot>, volID: string, i: nat)
    requires i < |snaps|
  {
    snaps[i].volID == volID && forall j | 0 <= j < i :: snaps[j].volID != volID
  }

  /** Listing by source volume gives the first one, so it is complete exactly if the volume has at most one. */
  lemma BySourceCompleteness(cfg: Config, snaps: seq<Snapshot>, volID: string, maxEntries: int, token: string)
    requires !cfg.ephemeral && volID != ""
    ensures var r := Listed(cfg, snaps, "", volID, maxEntries, token);
            && r.Page? && r.next == ""
            && (forall i | 0 <= i < |snaps| && FirstOf(snaps, volID, i) :: r.entries == [snaps[i]])
            && ((forall s | s in snaps && s.volID == volID :: s in r.entries)
                <==> forall s, t | s in snaps && t in snaps && s.volID == volID == t.volID :: s == t)
  {
    var found := Find(SourceVolume, snaps, volID);
    FindNone(SourceVolume, snaps, volID);
    forall i | 0 <= i < |snaps| && FirstOf(snaps, volID, i)
      ensures found == Some(snaps[i])
    {
      IndexIs(SourceVolume, snaps, volID, i);
    }
    if found.Some? {
      assert found.value in snaps && found.value.volID == volID;
      assert forall s :: s in [found.value] <==> s == found.value;
    }
  }

  // ---- following the tokens ----

  /** A token that some page of the list hands out, or the empty one. */
  predicate ValidToken(snaps: seq<Snapshot>, token: string) {
    var o := Offset(token);
    o.Some? && 0 <= o.value <= |snaps|
  }

  lemma OffsetOfText(token: string, n: nat)
    requires token != "" && ParseUint(token, TWO32) == Some(n)
    ensures Offset(token) == Some(Wrap32(n))
  {
  }

  lemma WrapUnsigned(n: nat)
    requires n < TWO32
    ensures Wrap32(n) == if n < TWO31 then n else n - TWO32
  {
  }

  /** The token that a number prints, read as int32. */
  lemma OffsetOfNumber(n: nat)
    ensures Offset(Print(n)) == if n < TWO31 then Some(n) else if n < TWO32 then Some(n - TWO32) else None
  {
    ParsePrint(n, TWO32);
    if n < TWO32 {
      OffsetOfText(Print(n), n);
      WrapUnsigned(n);
    }
  }

  /** Within the range of int32 no arithmetic wraps around. */
  lemma PlainPage(snaps: seq<Snapshot>, maxEntries: int, start: nat)
    requires |snaps| < TWO31 && 0 < maxEntries && start <= |snaps|
    ensures var end := if start + maxEntries > |snaps| then |snaps| else start + maxEntries;
            PageFrom(snaps, maxEntries, start) == Page(snaps[start..end], if end < |snaps| then Print(end) else "")
  {
    InRange(|snaps|);
    InRange(|snaps| - start);
    var end := if start + maxEntries > |snaps| then |snaps| else start + maxEntries;
    InRange(end);
    assert snaps[start..start] == [];
  }

  lemma PageFacts(snaps: seq<Snapshot>, maxEntries: int, token: string)
    requires |snaps| < TWO31 && 0 < maxEntries && ValidToken(snaps, token)
    ensures var start := Offset(token).value;
            var end := if start + maxEntries > |snaps| then |snaps| else start + maxEntries;
            var r := PageOf(snaps, maxEntries, token);
            && r.Page? && r.entries == snaps[start..end]
            && (r.next == "" <==> end == |snaps|)
            && (r.next != "" ==> Offset(r.next) == Some(end) && end > start)
  {
    var start := Offset(token).value;
    InRange(|snaps|);
    PlainPage(snaps, maxEntries, start);
    OffsetOfNumber(if start + maxEntries > |snaps| then |snaps| else start + maxEntries);
  }

  /** The concatenation of all pages from a token on, following NextToken. */
  ghost function Walk(snaps: seq<Snapshot>, maxEntries: int, token: string): seq<Snapshot>
    requires |snaps| < TWO31 && 0 < maxEntries && ValidToken(snaps, token)
    decreases |snaps| - Offset(token).value
  {
    PageFacts(snaps, maxEntries, token);
    var r := PageOf(snaps, maxEntries, token);
    if r.next == "" then r.entries else r.entries + Walk(snaps, maxEntries, r.next)
  }

  lemma {:induction false} WalkIsSuffix(snaps: seq<Snapshot>, maxEntries: int, token: string)
    requires |snaps| < TWO31 && 0 < maxEntries && ValidToken(snaps, token)
    ensures Walk(snaps, maxEntries, token) == snaps[Offset(token).value..]
    decreases |snaps| - Offset(token).value
  {
    PageFacts(snaps, maxEntries, token);
    var r := PageOf(snaps, maxEntries, token);
    if r.next != "" {
      WalkIsSuffix(snaps, maxEntries, r.next);
    }
  }

  /**
   * Following NextToken from the empty token, with any positive page size, ends and gives
   * every snapshot once, in the order of the IDs; any other sort by ID gives the same list.
   */
  lemma PagesAreAllSnapshots(stored: seq<Snapshot>, maxEntries: int, other: seq<Snapshot>)
    requires |stored| < TWO31 && 0 < maxEntries && Distinct(SnapshotID, stored)
    requires SortedBy(SnapshotID, other) && multiset(other) == multiset(stored)
    ensures |Sort(SnapshotID, stored)| < TWO31
    ensures var pages := Walk(Sort(SnapshotID, stored), maxEntries, "");
            SortedBy(SnapshotID, pages) && multiset(pages) == multiset(stored) && pages == other
  {
    SortSorts(SnapshotID, stored);
    var sorted := Sort(SnapshotID, stored);
    WalkIsSuffix(sorted, maxEntries, "");
    forall x, y | x in other && y in other && SnapshotID(x) == SnapshotID(y) ensures x == y {
      assert x in multiset(stored) && y in multiset(stored);
      FindIsMember(SnapshotID, stored, x);
      FindIsMember(SnapshotID, stored, y);
    }
    SortedIsUnique(SnapshotID, other, sorted);
  }

  lemma FromCrash(snaps: seq<Snapshot>, maxEntries: int, start: int)
    requires -TWO31 <= maxEntries < TWO31 && -TWO31 <= start <= Wrap32(|snaps|)
    ensures PageFrom(snaps, maxEntries, start).Crash? <==> maxEntries < 0 || (start < 0 && start != Wrap32(|snaps|))
  {
  }

  /**
   * The handler panics, on a list of any length and for any token, exactly if the token is read as a position not
   * beyond the end and the page size is negative or that position is.
   */
  lemma PageCrashes(snaps: seq<Snapshot>, maxEntries: int, token: string)
    requires -TWO31 <= maxEntries < TWO31
    ensures var total := Wrap32(|snaps|);
            PageOf(snaps, maxEntries, token).Crash?
            <==> match Offset(token)
                 case None => false
                 case Some(start) => start <= total && (maxEntries < 0 || (start < 0 && start != total))
  {
    var start := Offset(token);
    if start.Some? && start.value <= Wrap32(|snaps|) {
      FromCrash(snaps, maxEntries, start.value);
    }
  }

  /** A decimal numeral, with or without leading zeros. */
  predicate Numeral(token: string) { token != "" && AllDigits(token) }

  /**
   * The whole RPC panics exactly if it lists everything, and either the token is a numeral from 2^31 up to 2^32, or
   * the page size is negative and the token is empty or a numeral within the list.
   */
  lemma CrashExactly(cfg: Config, snaps: seq<Snapshot>, id: string, volID: string, maxEntries: int, token: string)
    requires |snaps| < TWO31 && -TWO31 <= maxEntries < TWO31
    ensures Listed(cfg, snaps, id, volID, maxEntries, token).Crash?
            <==> && !cfg.ephemeral && id == "" && volID == ""
                 && (|| (Numeral(token) && TWO31 <= Value(token) < TWO32)
                     || (maxEntries < 0 && (token == "" || (Numeral(token) && Value(token) <= |snaps|))))
  {
    var sorted := Sort(SnapshotID, snaps);
    SortSorts(SnapshotID, snaps);
    assert |sorted| == |snaps| by { assert |multiset(sorted)| == |multiset(snaps)|; }
    InRange(|snaps|);
    PageCrashes(sorted, maxEntries, token);
    if Numeral(token) && Value(token) < TWO32 {
      OffsetOfText(token, Value(token));
      WrapUnsigned(Value(token));
    }
  }

  /** A request for everything gets the whole list exactly if its length fits into an int32. */
  lemma WholeListExactly(snaps: seq<Snapshot>)
    ensures PageOf(snaps, 0, "") == Page(snaps, "") <==> |snaps| < TWO31
  {
    InRange(|snaps|);
  }
}
