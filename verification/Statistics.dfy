/**
 Reading every instance of a time window once (`service/form_statistics_impl.go`): the window is cut into chunks
 of bounded size, each chunk is read page by page, and repeated ids are dropped.
 */
module Statistics {
  import opened Text
  import Definitions
  import opened Walks

  /** The rows that pass the filter, with their creation times. */
  type Rows = map<Id, int>

  /** A closed time interval. */
  datatype Chunk = Chunk(lo: int, hi: int)

  const TARGET := 2500
  const BATCH := 1000

  function InWindow(rows: Rows, lo: int, hi: int): set<Id> {
    set id | id in rows && lo <= rows[id] <= hi
  }

  /** `CountInRange`. */
  function Count(rows: Rows, lo: int, hi: int): nat {
    |InWindow(rows, lo, hi)|
  }

  /** Division of durations truncates towards zero. */
  function Half(d: int): int {
    if d >= 0 then d / 2 else -(-d / 2)
  }

  function Mid(lo: int, hi: int): int {
    lo + Half(hi - lo)
  }

  /** The window is wide enough to be cut. */
  predicate CanSplit(lo: int, hi: int) {
    lo < Mid(lo, hi) < hi
  }

  /** Every window of two units of time or more is cut. */
  lemma SplitsWide(lo: int, hi: int)
    ensures CanSplit(lo, hi) <==> hi - lo >= 2
  {
  }

  function Width(lo: int, hi: int): nat {
    if lo < hi then hi - lo else 0
  }

  // ---- Planning ----

  function Plan(rows: Rows, lo: int, hi: int, hint: int): seq<Chunk>
    decreases Width(lo, hi)
  {
    if hint <= 0 then []
    else if hint <= TARGET || !CanSplit(lo, hi) then [Chunk(lo, hi)]
    else
      var mid, left := Mid(lo, hi), Count(rows, lo, Mid(lo, hi));
      Plan(rows, lo, mid, left) + Plan(rows, mid, hi, hint - left)
  }

  /** The windows the plan drops because their hint leaves nothing to be read. */
  function Pruned(rows: Rows, lo: int, hi: int, hint: int): seq<Chunk>
    decreases Width(lo, hi)
  {
    if hint <= 0 then [Chunk(lo, hi)]
    else if hint <= TARGET || !CanSplit(lo, hi) then []
    else
      var mid, left := Mid(lo, hi), Count(rows, lo, Mid(lo, hi));
      Pruned(rows, lo, mid, left) + Pruned(rows, mid, hi, hint - left)
  }

  /** The plan cuts a window at time t. */
  predicate IsCut(rows: Rows, lo: int, hi: int, hint: int, t: int)
    decreases Width(lo, hi)
  {
    hint > TARGET && CanSplit(lo, hi) &&
    var mid, left := Mid(lo, hi), Count(rows, lo, Mid(lo, hi));
    t == mid || IsCut(rows, lo, mid, left, t) || IsCut(rows, mid, hi, hint - left, t)
  }

  /** How many chunks hold the time. */
  function Hits(chunks: seq<Chunk>, t: int): nat {
    if chunks == [] then 0 else (if chunks[0].lo <= t <= chunks[0].hi then 1 else 0) + Hits(chunks[1..], t)
  }

  lemma {:induction false} HitsJoin(a: seq<Chunk>, b: seq<Chunk>, t: int)
    ensures Hits(a + b, t) == Hits(a, t) + Hits(b, t)
  {
    if a == [] { assert a + b == b; } else {
      assert (a + b)[1..] == a[1..] + b;
      HitsJoin(a[1..], b, t);
    }
  }

  lemma {:induction false} HitsNone(chunks: seq<Chunk>, t: int)
    ensures Hits(chunks, t) == 0 <==> forall c | c in chunks :: !(c.lo <= t <= c.hi)
  {
    if chunks != [] {
      HitsNone(chunks[1..], t);
      assert forall c :: c in chunks <==> c == chunks[0] || c in chunks[1..];
    }
  }

  lemma {:induction false} CutsInside(rows: Rows, lo: int, hi: int, hint: int, t: int)
    requires IsCut(rows, lo, hi, hint, t)
    ensures lo < t < hi
    decreases Width(lo, hi)
  {
    var mid, left := Mid(lo, hi), Count(rows, lo, Mid(lo, hi));
    if IsCut(rows, lo, mid, left, t) { CutsInside(rows, lo, mid, left, t); }
    if IsCut(rows, mid, hi, hint - left, t) { CutsInside(rows, mid, hi, hint - left, t); }
  }

  /** How many windows the time lies in when nothing is pruned. */
  function Windows(rows: Rows, lo: int, hi: int, hint: int, t: int): nat {
    if !(lo <= t <= hi) then 0 else if IsCut(rows, lo, hi, hint, t) then 2 else 1
  }

  lemma WindowsSplit(rows: Rows, lo: int, hi: int, hint: int, t: int)
    requires hint > TARGET && CanSplit(lo, hi)
    ensures var mid, left := Mid(lo, hi), Count(rows, lo, Mid(lo, hi));
            Windows(rows, lo, hi, hint, t) == Windows(rows, lo, mid, left, t) + Windows(rows, mid, hi, hint - left, t)
  {
    var mid, left := Mid(lo, hi), Count(rows, lo, Mid(lo, hi));
    if IsCut(rows, lo, mid, left, t) { CutsInside(rows, lo, mid, left, t); }
    if IsCut(rows, mid, hi, hint - left, t) { CutsInside(rows, mid, hi, hint - left, t); }
  }

  lemma HitsSplit(rows: Rows, lo: int, hi: int, hint: int, t: int)
    requires hint > TARGET && CanSplit(lo, hi)
    ensures var mid, left := Mid(lo, hi), Count(rows, lo, Mid(lo, hi));
            && Hits(Plan(rows, lo, hi, hint), t) == Hits(Plan(rows, lo, mid, left), t) + Hits(Plan(rows, mid, hi, hint - left), t)
            && Hits(Pruned(rows, lo, hi, hint), t) == Hits(Pruned(rows, lo, mid, left), t) + Hits(Pruned(rows, mid, hi, hint - left), t)
  {
    var mid, left := Mid(lo, hi), Count(rows, lo, Mid(lo, hi));
    HitsJoin(Plan(rows, lo, mid, left), Plan(rows, mid, hi, hint - left), t);
    HitsJoin(Pruned(rows, lo, mid, left), Pruned(rows, mid, hi, hint - left), t);
  }

  /** By how much chunks and pruned windows cover the time too often. */
  function Excess(rows: Rows, lo: int, hi: int, hint: int, t: int): int {
    Hits(Plan(rows, lo, hi, hint), t) + Hits(Pruned(rows, lo, hi, hint), t) - Windows(rows, lo, hi, hint, t)
  }

  lemma ExcessUncut(rows: Rows, lo: int, hi: int, hint: int, t: int)
    requires !(hint > TARGET && CanSplit(lo, hi))
    ensures Excess(rows, lo, hi, hint, t) == 0
  {
    var one := [Chunk(lo, hi)];
    assert one[1..] == [] && Hits(one, t) == if lo <= t <= hi then 1 else 0;
  }

  lemma ExcessSplit(rows: Rows, lo: int, hi: int, hint: int, t: int)
    requires hint > TARGET && CanSplit(lo, hi)
    ensures var mid, left := Mid(lo, hi), Count(rows, lo, Mid(lo, hi));
            Excess(rows, lo, hi, hint, t) == Excess(rows, lo, mid, left, t) + Excess(rows, mid, hi, hint - left, t)
  {
    HitsSplit(rows, lo, hi, hint, t);
    WindowsSplit(rows, lo, hi, hint, t);
  }

  lemma {:induction false} NoExcess(rows: Rows, lo: int, hi: int, hint: int, t: int)
    ensures Excess(rows, lo, hi, hint, t) == 0
    decreases Width(lo, hi)
  {
    if hint > TARGET && CanSplit(lo, hi) {
      var mid, left := Mid(lo, hi), Count(rows, lo, Mid(lo, hi));
      NoExcess(rows, lo, mid, left, t);
      NoExcess(rows, mid, hi, hint - left, t);
      ExcessSplit(rows, lo, hi, hint, t);
    } else {
      ExcessUncut(rows, lo, hi, hint, t);
    }
  }

  /** Chunks and pruned windows together cover the window: every time once, and the times of cuts twice. */
  lemma PlanPartitions(rows: Rows, lo: int, hi: int, hint: int, t: int)
    ensures Hits(Plan(rows, lo, hi, hint), t) + Hits(Pruned(rows, lo, hi, hint), t) == Windows(rows, lo, hi, hint, t)
  {
    NoExcess(rows, lo, hi, hint, t);
  }

  /** `planChunks`: the left half is counted, the right half gets what is left of the hint. */
  method PlanChunks(rows: Rows, lo: int, hi: int, hint: int) returns (chunks: seq<Chunk>)
    ensures chunks == Plan(rows, lo, hi, hint)
    ensures forall c | c in chunks :: lo <= c.lo && c.hi <= hi
    ensures forall t :: Hits(chunks, t) + Hits(Pruned(rows, lo, hi, hint), t) == Windows(rows, lo, hi, hint, t)
    ensures hint == Count(rows, lo, hi) ==>
              forall c | c in chunks :: FitsUpTo(rows, c, TARGET + |AtCuts(rows, lo, hi, hint)|)
    decreases Width(lo, hi)
  {
    forall t ensures Hits(Plan(rows, lo, hi, hint), t) + Hits(Pruned(rows, lo, hi, hint), t) == Windows(rows, lo, hi, hint, t) {
      PlanPartitions(rows, lo, hi, hint, t);
    }
    if hint == Count(rows, lo, hi) { PlanExact(rows, lo, hi); }
    if hint <= 0 { return []; }
    if hint <= TARGET { return [Chunk(lo, hi)]; }
    var mid := Mid(lo, hi);
    if !(lo < mid) || !(mid < hi) { return [Chunk(lo, hi)]; }
    var leftHint := Count(rows, lo, mid);
    var left := PlanChunks(rows, lo, mid, leftHint);
    var right := PlanChunks(rows, mid, hi, hint - leftHint);
    return left + right;
  }

  /** Every window that holds the time was pruned. */
  predicate Misses(rows: Rows, lo: int, hi: int, hint: int, t: int) {
    Hits(Pruned(rows, lo, hi, hint), t) == Windows(rows, lo, hi, hint, t)
  }

  /** No pruned window holds a row. */
  predicate PrunesNothing(rows: Rows, lo: int, hi: int, hint: int) {
    forall c | c in Pruned(rows, lo, hi, hint) :: Count(rows, c.lo, c.hi) == 0
  }

  /**
   When a row of the window is in no chunk: exactly when all windows that hold it were pruned. So nothing is lost
   if no pruned window holds a row, and a row inside a pruned window and not at a cut is lost.
   */
  lemma LostExactly(rows: Rows, lo: int, hi: int, hint: int, id: Id)
    requires id in InWindow(rows, lo, hi)
    ensures var hits := Hits(Plan(rows, lo, hi, hint), rows[id]);
            && (hits == 0 <==> Misses(rows, lo, hi, hint, rows[id]))
            && (PrunesNothing(rows, lo, hi, hint) ==> hits > 0)
            && (forall c | c in Pruned(rows, lo, hi, hint) && c.lo <= rows[id] <= c.hi ::
                  hits == 0 || IsCut(rows, lo, hi, hint, rows[id]))
  {
    PlanPartitions(rows, lo, hi, hint, rows[id]);
    HitsNone(Pruned(rows, lo, hi, hint), rows[id]);
    if PrunesNothing(rows, lo, hi, hint) {
      forall c | c in Pruned(rows, lo, hi, hint) ensures !(c.lo <= rows[id] <= c.hi) {
        assert id !in InWindow(rows, c.lo, c.hi);
      }
    }
  }

  /** The rows created exactly at a time the plan cuts at. */
  function AtCuts(rows: Rows, lo: int, hi: int, hint: int): set<Id> {
    set id | id in rows && IsCut(rows, lo, hi, hint, rows[id])
  }

  /** A row at the cut is counted on both sides. */
  lemma CountSplits(rows: Rows, lo: int, mid: int, hi: int)
    requires lo <= mid <= hi
    ensures Count(rows, lo, mid) + Count(rows, mid, hi) == Count(rows, lo, hi) + Count(rows, mid, mid)
  {
    assert InWindow(rows, lo, hi) == InWindow(rows, lo, mid) + InWindow(rows, mid, hi);
    assert InWindow(rows, mid, mid) == InWindow(rows, lo, mid) * InWindow(rows, mid, hi);
  }

  lemma Subset<T>(a: set<T>, b: set<T>)
    requires a <= b
    ensures |a| <= |b|
  {
    assert |b| == |a| + |b - a| by { assert b == a + (b - a); }
  }

  /** The rows at the cut and at later cuts are different ones. */
  lemma AtCutsSplit(rows: Rows, lo: int, hi: int, hint: int)
    requires hint > TARGET && CanSplit(lo, hi)
    ensures var mid, left, all := Mid(lo, hi), Count(rows, lo, Mid(lo, hi)), |AtCuts(rows, lo, hi, hint)|;
            |AtCuts(rows, lo, mid, left)| <= all && Count(rows, mid, mid) + |AtCuts(rows, mid, hi, hint - left)| <= all
  {
    var mid, left := Mid(lo, hi), Count(rows, lo, Mid(lo, hi));
    var cuts, right := AtCuts(rows, lo, hi, hint), AtCuts(rows, mid, hi, hint - left);
    forall id | id in right ensures id !in InWindow(rows, mid, mid) { CutsInside(rows, mid, hi, hint - left, rows[id]); }
    assert |InWindow(rows, mid, mid) + right| == Count(rows, mid, mid) + |right|;
    assert InWindow(rows, mid, mid) + right <= cuts && AtCuts(rows, lo, mid, left) <= cuts;
    Subset(InWindow(rows, mid, mid) + right, cuts);
    Subset(AtCuts(rows, lo, mid, left), cuts);
  }

  /** The chunk holds at most n rows, or is one unit of time wide at most. */
  predicate FitsUpTo(rows: Rows, c: Chunk, n: int) {
    Count(rows, c.lo, c.hi) <= n || c.hi - c.lo <= 1
  }

  /** How far hints can be off: by what the first hint missed and by the rows at cuts. */
  lemma {:induction false} HintsOffBy(rows: Rows, lo: int, hi: int, hint: int, off: int)
    requires hint <= Count(rows, lo, hi) && off >= Count(rows, lo, hi) - hint + |AtCuts(rows, lo, hi, hint)|
    ensures forall c | c in Plan(rows, lo, hi, hint) :: FitsUpTo(rows, c, TARGET + off) && lo <= c.lo && c.hi <= hi
    ensures forall c | c in Pruned(rows, lo, hi, hint) :: Count(rows, c.lo, c.hi) <= off
    decreases Width(lo, hi)
  {
    SplitsWide(lo, hi);
    if hint > TARGET && CanSplit(lo, hi) {
      var mid, left := Mid(lo, hi), Count(rows, lo, Mid(lo, hi));
      CountSplits(rows, lo, mid, hi);
      AtCutsSplit(rows, lo, hi, hint);
      HintsOffBy(rows, lo, mid, left, off);
      HintsOffBy(rows, mid, hi, hint - left, off);
    }
  }

  /**
   With the exact count as hint, a chunk is larger than the target by at most the number of rows at cuts, unless
   it cannot be cut, and a pruned window holds at most that many rows. With no row at a cut nothing is lost, and
   every row of the window lies in exactly one chunk.
   */
  lemma PlanExact(rows: Rows, lo: int, hi: int)
    ensures var hint := Count(rows, lo, hi);
            var chunks, cuts := Plan(rows, lo, hi, hint), AtCuts(rows, lo, hi, hint);
            && (forall c | c in chunks :: FitsUpTo(rows, c, TARGET + |cuts|))
            && (forall c | c in Pruned(rows, lo, hi, hint) :: Count(rows, c.lo, c.hi) <= |cuts|)
            && (cuts == {} ==> PrunesNothing(rows, lo, hi, hint)
                               && forall id | id in rows :: Hits(chunks, rows[id]) == if lo <= rows[id] <= hi then 1 else 0)
  {
    var hint := Count(rows, lo, hi);
    var chunks, cuts := Plan(rows, lo, hi, hint), AtCuts(rows, lo, hi, hint);
    HintsOffBy(rows, lo, hi, hint, |cuts|);
    if cuts == {} {
      forall id | id in rows ensures Hits(chunks, rows[id]) == if lo <= rows[id] <= hi then 1 else 0 {
        assert id !in cuts;
        PlanPartitions(rows, lo, hi, hint, rows[id]);
        if id in InWindow(rows, lo, hi) { LostExactly(rows, lo, hi, hint, id); }
      }
    }
  }

  // ---- Paging ----

  function Above(rows: Rows, c: Chunk, afterId: Id): set<Id> {
    set id | id in InWindow(rows, c.lo, c.hi) && (afterId == NO_ID || Before(afterId, id))
  }

  /** The first n of a list, or all of it. */
  function Take(s: seq<Id>, n: nat): seq<Id> {
    if |s| <= n then s else s[..n]
  }

  /** `ListAfterID`: the next rows of the window in id order. */
  method ListAfterId(rows: Rows, c: Chunk, afterId: Id, limit: nat) returns (list: seq<Id>)
    ensures list == Take(SortedKeys(Above(rows, c, afterId)), limit)
  {
    var keys := SortKeys(Above(rows, c, afterId));
    list := if |keys| <= limit then keys else keys[..limit];
  }

  /** Ids above the last one of a page are the rest of the list. */
  lemma RestAbove(rows: Rows, c: Chunk, afterId: Id, n: nat)
    requires NO_ID !in rows && 0 < n <= |SortedKeys(Above(rows, c, afterId))|
    ensures var keys := SortedKeys(Above(rows, c, afterId));
            SortedKeys(Above(rows, c, keys[n - 1])) == keys[n..] && keys[n - 1] != NO_ID
  {
    var keys := SortedKeys(Above(rows, c, afterId));
    var last, rest := keys[n - 1], keys[n..];
    assert last in keys;
    forall i, j | 0 <= i < j < |rest| ensures Before(rest[i], rest[j]) { assert rest[i] == keys[n + i] && rest[j] == keys[n + j]; }
    forall x ensures x in rest <==> x in Above(rows, c, last) {
      if x in rest {
        var i :| 0 <= i < |rest| && rest[i] == x;
        assert keys[n + i] == x && x in keys;
        assert Before(last, x);
      }
      if x in Above(rows, c, last) {
        if afterId != NO_ID { BeforeTransitive(afterId, last, x); }
        assert x in keys;
        var k :| 0 <= k < |keys| && keys[k] == x;
        if k < n - 1 { BeforeAsymmetric(keys[k], keys[n - 1]); }
        if k == n - 1 { BeforeAsymmetric(last, x); }
        assert rest[k - n] == x;
      }
    }
    SortedUnique(SortedKeys(Above(rows, c, last)), rest);
  }

  // ---- Feeding ----

  /** What the accumulator has been fed after `ids`, each id only the first time it comes. */
  function Dedup(fed: seq<Id>, ids: seq<Id>): seq<Id>
    decreases |ids|
  {
    if ids == [] then fed else Dedup(if ids[0] in fed then fed else fed + [ids[0]], ids[1..])
  }

  lemma {:induction false} DedupJoin(fed: seq<Id>, a: seq<Id>, b: seq<Id>)
    ensures Dedup(fed, a + b) == Dedup(Dedup(fed, a), b)
    decreases |a|
  {
    if a == [] { assert a + b == b; } else {
      assert (a + b)[1..] == a[1..] + b;
      DedupJoin(if a[0] in fed then fed else fed + [a[0]], a[1..], b);
    }
  }

  /** Whatever is read, nothing is fed twice and nothing read is missed. */
  lemma {:induction false} DedupOnce(fed: seq<Id>, ids: seq<Id>)
    requires NoDup(fed)
    ensures NoDup(Dedup(fed, ids)) && fed <= Dedup(fed, ids)
    ensures forall x :: x in Dedup(fed, ids) <==> x in fed || x in ids
    decreases |ids|
  {
    if ids != [] {
      var next := if ids[0] in fed then fed else fed + [ids[0]];
      assert NoDup(next) by { assert forall i | 0 <= i < |fed| :: fed[i] in fed; }
      DedupOnce(next, ids[1..]);
      assert forall x :: x in ids <==> x == ids[0] || x in ids[1..];
    }
  }

  /** The accumulator behind the filter for repeated ids. */
  class Feeder {
    var seen: set<Id>
    var fed: seq<Id>

    ghost predicate Valid()
      reads this
    {
      NoDup(fed) && Elems(fed) == seen
    }

    constructor ()
      ensures Valid() && fed == []
    {
      seen, fed := {}, [];
    }

    /** `feedInstanceDedup`. */
    method Feed(id: Id)
      requires Valid()
      modifies this
      ensures Valid() && fed == Dedup(old(fed), [id])
    {
      assert [id][1..] == [];
      assert id in fed <==> id in Elems(fed);
      if id in seen { return; }
      DedupOnce(fed, [id]);
      seen := seen + {id};
      fed := fed + [id];
      assert Elems(fed) == seen;
    }

    method FeedAll(ids: seq<Id>)
      requires Valid()
      modifies this
      ensures Valid() && fed == Dedup(old(fed), ids)
    {
      for i := 0 to |ids|
        invariant Valid() && fed == Dedup(old(fed), ids[..i])
      {
        assert ids[..i + 1] == ids[..i] + [ids[i]];
        DedupJoin(old(fed), ids[..i], [ids[i]]);
        Feed(ids[i]);
      }
      assert ids[..|ids|] == ids;
    }

    /** One chunk, page by page: a short page is the last one. */
    method ReadChunk(rows: Rows, c: Chunk)
      requires Valid() && NO_ID !in rows
      modifies this
      ensures Valid() && fed == Dedup(old(fed), SortedKeys(InWindow(rows, c.lo, c.hi)))
    {
      var afterId := NO_ID;
      assert Above(rows, c, NO_ID) == InWindow(rows, c.lo, c.hi);
      while true
        invariant Valid()
        invariant Dedup(fed, SortedKeys(Above(rows, c, afterId))) == Dedup(old(fed), SortedKeys(InWindow(rows, c.lo, c.hi)))
        decreases |SortedKeys(Above(rows, c, afterId))|
      {
        ghost var keys := SortedKeys(Above(rows, c, afterId));
        var list := ListAfterId(rows, c, afterId, BATCH);
        assert keys == list + keys[|list|..];
        DedupJoin(fed, list, keys[|list|..]);
        FeedAll(list);
        if |list| < BATCH {
          assert keys[|list|..] == [];
          return;
        }
        RestAbove(rows, c, afterId, |list|);
        afterId := list[|list| - 1];
      }
    }

    /** `iterate` over a table that does not change meanwhile. */
    method Iterate(rows: Rows, start: int, end: int, hint: int)
      requires Valid() && NO_ID !in rows
      modifies this
      ensures Valid() && fed == Dedup(old(fed), Visits(rows, Plan(rows, start, end, hint)))
    {
      var chunks := PlanChunks(rows, start, end, hint);
      for i := 0 to |chunks|
        invariant Valid() && fed == Dedup(old(fed), Visits(rows, chunks[..i]))
      {
        assert chunks[..i + 1][..i] == chunks[..i];
        DedupJoin(old(fed), Visits(rows, chunks[..i]), SortedKeys(InWindow(rows, chunks[i].lo, chunks[i].hi)));
        ReadChunk(rows, chunks[i]);
      }
      assert chunks[..|chunks|] == chunks;
    }
  }

  /** Everything that is read from the chunks, in order. */
  ghost function Visits(rows: Rows, chunks: seq<Chunk>): seq<Id> {
    if chunks == [] then [] else
      var c := chunks[|chunks| - 1];
      Visits(rows, chunks[..|chunks| - 1]) + SortedKeys(InWindow(rows, c.lo, c.hi))
  }

  lemma {:induction false} VisitsAre(rows: Rows, chunks: seq<Chunk>)
    ensures forall id :: id in Visits(rows, chunks) <==> id in rows && Hits(chunks, rows[id]) > 0
  {
    if chunks != [] {
      var front, c := chunks[..|chunks| - 1], chunks[|chunks| - 1];
      VisitsAre(rows, front);
      assert chunks == front + [c];
      forall t ensures Hits(chunks, t) == Hits(front, t) + if c.lo <= t <= c.hi then 1 else 0 {
        HitsJoin(front, [c], t);
      }
    }
  }

  // ---- The whole traversal ----

  /** The row is in the window, and not all windows that hold it are pruned. */
  predicate IsRead(rows: Rows, start: int, end: int, id: Id) {
    id in InWindow(rows, start, end) && !Misses(rows, start, end, Count(rows, start, end), rows[id])
  }

  lemma ReadExactly(rows: Rows, start: int, end: int)
    ensures var hint := Count(rows, start, end);
            && (forall id :: id in Visits(rows, Plan(rows, start, end, hint)) <==> IsRead(rows, start, end, id))
            && (PrunesNothing(rows, start, end, hint) ==> forall id :: IsRead(rows, start, end, id) <==> id in InWindow(rows, start, end))
  {
    var hint := Count(rows, start, end);
    VisitsAre(rows, Plan(rows, start, end, hint));
    forall id ensures id in rows && Hits(Plan(rows, start, end, hint), rows[id]) > 0 <==> IsRead(rows, start, end, id) {
      if id in InWindow(rows, start, end) { LostExactly(rows, start, end, hint, id); }
      else if id in rows { PlanPartitions(rows, start, end, hint, rows[id]); }
    }
    if PrunesNothing(rows, start, end, hint) {
      forall id | id in InWindow(rows, start, end) ensures IsRead(rows, start, end, id) { LostExactly(rows, start, end, hint, id); }
    }
  }

  /**
   The limit check, the two passes over the live and the history table, and what has been fed in the end: no row
   twice, and exactly the rows that are not lost to pruning.
   */
  method Aggregate(live: Rows, history: Rows, start: int, end: int, limit: int) returns (fed: Definitions.Option<seq<Id>>)
    requires NO_ID !in live && NO_ID !in history
    ensures fed.None? <==> Count(history, start, end) + Count(live, start, end) > limit
    ensures fed.Some? ==> NoDup(fed.value)
    ensures fed.Some? ==> forall id :: id in fed.value <==> IsRead(live, start, end, id) || IsRead(history, start, end, id)
    ensures fed.Some? && PrunesNothing(live, start, end, Count(live, start, end))
            && PrunesNothing(history, start, end, Count(history, start, end)) ==>
              forall id :: id in fed.value <==> id in InWindow(live, start, end) || id in InWindow(history, start, end)
  {
    var hiTotal, rtTotal := Count(history, start, end), Count(live, start, end);
    if hiTotal + rtTotal > limit { return Definitions.None; }
    var feeder := new Feeder();
    feeder.Iterate(live, start, end, rtTotal);
    ghost var first := feeder.fed;
    feeder.Iterate(history, start, end, hiTotal);
    DedupOnce([], Visits(live, Plan(live, start, end, rtTotal)));
    DedupOnce(first, Visits(history, Plan(history, start, end, hiTotal)));
    ReadExactly(live, start, end);
    ReadExactly(history, start, end);
    return Definitions.Some(feeder.fed);
  }

  // ---- A row at a cut ----

  /** One row at time 4, one at time 7 and all the others at time 5. */
  function Crowded(crowd: set<Id>, a: Id, b: Id): Rows {
    map id | id in crowd + {a, b} :: if id == a then 4 else if id == b then 7 else 5
  }

  lemma CrowdedCounts(crowd: set<Id>, a: Id, b: Id)
    requires |crowd| == 2501 && a !in crowd && b !in crowd && a != b
    ensures var rows := Crowded(crowd, a, b);
            Count(rows, 0, 8) == 2503 && Count(rows, 0, 4) == 1 && Count(rows, 4, 6) == 2502 && Count(rows, 4, 5) == 2502
  {
    var rows := Crowded(crowd, a, b);
    CrowdedWindows(crowd, a, b);
    assert |crowd + {a}| == 2502;
    assert |crowd + {a} + {b}| == 2503;
  }

  lemma CrowdedWindows(crowd: set<Id>, a: Id, b: Id)
    requires a !in crowd && b !in crowd && a != b
    ensures var rows := Crowded(crowd, a, b);
            && InWindow(rows, 0, 8) == crowd + {a} + {b} && InWindow(rows, 0, 4) == {a}
            && InWindow(rows, 4, 6) == crowd + {a} && InWindow(rows, 4, 5) == crowd + {a}
  {
  }

  /**
   A row exactly at a cut is counted on both sides of it, so a later hint comes out too small and a window that
   still holds a row is pruned: the row b of the window is in no chunk.
   */
  lemma RowAtCutHidesRow(crowd: set<Id>, a: Id, b: Id)
    requires |crowd| == 2501 && a !in crowd && b !in crowd && a != b
    ensures var rows := Crowded(crowd, a, b);
            && b in InWindow(rows, 0, 8) && a in AtCuts(rows, 0, 8, Count(rows, 0, 8))
            && Plan(rows, 0, 8, Count(rows, 0, 8)) == [Chunk(0, 4), Chunk(4, 5)]
            && Hits(Plan(rows, 0, 8, Count(rows, 0, 8)), rows[b]) == 0
  {
    var rows := Crowded(crowd, a, b);
    CrowdedCounts(crowd, a, b);
    assert Plan(rows, 0, 4, 1) == [Chunk(0, 4)];
    assert Plan(rows, 4, 5, 2502) == [Chunk(4, 5)];
    assert Plan(rows, 4, 6, 2502) == [Chunk(4, 5)] + Plan(rows, 5, 6, 0);
    assert Plan(rows, 4, 8, 2502) == Plan(rows, 4, 6, 2502) + Plan(rows, 6, 8, 0);
    assert Plan(rows, 0, 8, 2503) == Plan(rows, 0, 4, 1) + Plan(rows, 4, 8, 2502);
    assert rows[a] == Mid(0, 8) && IsCut(rows, 0, 8, 2503, rows[a]);
    HitsJoin([Chunk(0, 4)], [Chunk(4, 5)], 7);
  }

  function Numbered(n: nat): set<Id> {
    set k | 0 <= k < n :: Id(Decimal(k))
  }

  /** There are such tables: as many ids as one likes. */
  lemma {:induction false} NumberedSize(n: nat)
    ensures |Numbered(n)| == n
  {
    if n > 0 {
      NumberedSize(n - 1);
      NumberedNext(n - 1);
    }
  }

  lemma NumberedNext(n: nat)
    ensures Numbered(n + 1) == Numbered(n) + {Id(Decimal(n))} && |Numbered(n + 1)| == |Numbered(n)| + 1
  {
    forall k | 0 <= k < n ensures Id(Decimal(k)) != Id(Decimal(n)) {
      if Decimal(k) == Decimal(n) { DecimalInjective(k, n); }
    }
  }

  /** Such a table exists: ids 0 to 2502, of which 2501 and 2502 are the two outside the crowd. */
  lemma HiddenRowExists() returns (rows: Rows, b: Id)
    ensures b in InWindow(rows, 0, 8) && !IsRead(rows, 0, 8, b)
  {
    var crowd, a := Numbered(2501), Id(Decimal(2501));
    b := Id(Decimal(2502));
    rows := Crowded(crowd, a, b);
    NumberedSize(2501);
    forall m: nat, n: nat | m < n ensures Decimal(m) != Decimal(n) { if Decimal(m) == Decimal(n) { DecimalInjective(m, n); } }
    RowAtCutHidesRow(crowd, a, b);
    LostExactly(rows, 0, 8, Count(rows, 0, 8), b);
  }
}
