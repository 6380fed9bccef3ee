/**
 Filling the gaps below the highest known character id: finding the oldest
 missing ranges after the cursor, publishing them, and moving the cursor over
 what was published.
 */
module GapFill {
  import opened IdSweep

  /** An id that is not stored, above the cursor and not above the highest id. */
  predicate Missing(stored: set<nat>, after: nat, maxId: nat, id: nat) {
    after < id <= maxId && id !in stored
  }

  predicate Inside(g: Range, id: nat) {
    g.lo <= id <= g.hi
  }

  /** `g` is a maximal run of missing ids. */
  ghost predicate IsGap(stored: set<nat>, after: nat, maxId: nat, g: Range) {
    && after < g.lo <= g.hi <= maxId
    && (forall id :: Inside(g, id) ==> id !in stored)
    && (g.lo == after + 1 || g.lo - 1 in stored)
    && (g.hi == maxId || g.hi + 1 in stored)
  }

  ghost predicate Ascending(gaps: seq<Range>) {
    && (forall k :: 0 <= k < |gaps| ==> gaps[k].lo <= gaps[k].hi)
    && (forall j, k :: 0 <= j < k < |gaps| ==> gaps[j].hi < gaps[k].lo)
  }

  ghost predicate Covers(gaps: seq<Range>, id: nat) {
    exists k :: 0 <= k < |gaps| && Inside(gaps[k], id)
  }

  /**
   The first `limit` gaps: maximal, ascending, disjoint, and complete up to the
   end of the last of them, or altogether if there are fewer.
   */
  ghost predicate FirstGaps(stored: set<nat>, after: nat, maxId: nat, limit: nat, gaps: seq<Range>) {
    && |gaps| <= limit
    && (forall k :: 0 <= k < |gaps| ==> IsGap(stored, after, maxId, gaps[k]))
    && Ascending(gaps)
    && (forall id: nat :: Missing(stored, after, maxId, id) && !Covers(gaps, id) ==>
                       |gaps| == limit && (gaps != [] ==> gaps[|gaps| - 1].hi < id))
  }

  /** The stored ids up to `maxId` in ascending order, with 0 in front: what the query delivers. */
  ghost predicate IsAnchored(anchored: seq<nat>, stored: set<nat>, maxId: nat) {
    && anchored != [] && anchored[0] == 0
    && (forall j, k :: 0 <= j < k < |anchored| ==> anchored[j] < anchored[k])
    && (forall id :: id in anchored <==> id == 0 || (id in stored && id <= maxId))
  }

  function GapLimit(limit: int): nat {
    if limit <= 0 then 100 else limit
  }

  /** What the scan knows after the first `i` anchors: the gaps below anchor `i` (or all, at the end). */
  ghost predicate ScannedTo(stored: set<nat>, after: nat, maxId: nat, gaps: seq<Range>, bound: nat) {
    && (forall k :: 0 <= k < |gaps| ==> IsGap(stored, after, maxId, gaps[k]) && gaps[k].hi < bound)
    && Ascending(gaps)
    && (forall id: nat :: Missing(stored, after, maxId, id) && id < bound ==> Covers(gaps, id))
  }

  lemma CoversAppend(gaps: seq<Range>, g: Range, id: nat)
    ensures Covers(gaps + [g], id) <==> Covers(gaps, id) || Inside(g, id)
  {
    var all := gaps + [g];
    assert all[|gaps|] == g;
    if Covers(gaps, id) {
      var k :| 0 <= k < |gaps| && Inside(gaps[k], id);
      assert all[k] == gaps[k];
    }
  }

  /** Between anchor `i` and the next one nothing is stored. */
  lemma NothingBetween(anchored: seq<nat>, stored: set<nat>, maxId: nat, i: nat, id: nat)
    requires IsAnchored(anchored, stored, maxId) && i < |anchored|
    requires anchored[i] < id && (if i + 1 < |anchored| then id < anchored[i + 1] else id <= maxId)
    ensures id <= maxId && id !in stored
  {
    if i + 1 < |anchored| {
      assert anchored[i + 1] in anchored;
    }
    assert forall k :: 0 <= k < |anchored| ==> anchored[k] != id by {
      assert forall k :: 0 <= k < i ==> anchored[k] < anchored[i];
      assert forall k :: i + 1 < k < |anchored| ==> anchored[i + 1] < anchored[k];
    }
  }

  /** One more anchor: its gap, trimmed to the part above the cursor, extends the scan. */
  lemma ScanStep(anchored: seq<nat>, stored: set<nat>, after: nat, maxId: nat, gaps: seq<Range>, i: nat, g: Range)
    requires IsAnchored(anchored, stored, maxId) && i < |anchored|
    requires ScannedTo(stored, after, maxId, gaps, anchored[i])
    requires g.hi + 1 == if i + 1 < |anchored| then anchored[i + 1] else maxId + 1
    requires g.lo == if anchored[i] < after then after + 1 else anchored[i] + 1
    ensures g.lo > g.hi ==> ScannedTo(stored, after, maxId, gaps, g.hi + 1)
    ensures g.lo <= g.hi ==> ScannedTo(stored, after, maxId, gaps + [g], g.hi + 1)
  {
    if i + 1 < |anchored| {
      assert anchored[i + 1] in anchored;
      assert anchored[i] < anchored[i + 1];
    }
    assert anchored[i] in anchored;
    forall id | anchored[i] < id <= g.hi ensures id !in stored && id <= maxId {
      NothingBetween(anchored, stored, maxId, i, id);
    }
    if g.lo <= g.hi {
      assert IsGap(stored, after, maxId, g);
      forall id: nat | Missing(stored, after, maxId, id) && id < g.hi + 1 ensures Covers(gaps + [g], id) {
        CoversAppend(gaps, g, id);
        assert id != anchored[i];
      }
    }
  }

  /** Once `limit` gaps are found the scan may stop. */
  lemma ScanEnds(stored: set<nat>, after: nat, maxId: nat, limit: nat, gaps: seq<Range>, bound: nat)
    requires ScannedTo(stored, after, maxId, gaps, bound) && |gaps| <= limit
    requires |gaps| == limit || bound > maxId
    ensures FirstGaps(stored, after, maxId, limit, gaps)
  {
    if gaps != [] {
      assert IsGap(stored, after, maxId, gaps[|gaps| - 1]) && gaps[|gaps| - 1].hi < bound;
    }
  }

  method FindIdGapsAfter(anchored: seq<nat>, ghost stored: set<nat>, after: nat, maxId: nat, limit: int) returns (gaps: seq<Range>)
    requires after <= MAX_ID && maxId <= MAX_ID && IsAnchored(anchored, stored, maxId)
    ensures FirstGaps(stored, after, maxId, if limit <= 0 then 100 else limit, gaps)
  {
    gaps := [];
    if maxId == 0 {
      return;
    }
    var most := GapLimit(limit);
    for i := 0 to |anchored|
      invariant |gaps| < most
      invariant ScannedTo(stored, after, maxId, gaps, if i < |anchored| then anchored[i] else maxId + 1)
    {
      var end := if i + 1 < |anchored| then anchored[i + 1] - 1 else maxId;
      var start := anchored[i] + 1;
      if start < after + 1 {
        start := after + 1;
      }
      ScanStep(anchored, stored, after, maxId, gaps, i, Range(start, end));
      if start <= end {
        gaps := gaps + [Range(start, end)];
        if |gaps| >= most {
          ScanEnds(stored, after, maxId, most, gaps, end + 1);
          return;
        }
      }
    }
    ScanEnds(stored, after, maxId, most, gaps, maxId + 1);
  }

  // ----- publishing the gaps

  /** The jobs ask for exactly the ids of the gaps, in ascending disjoint ranges. */
  ghost predicate JobsFor(jobs: seq<Range>, gaps: seq<Range>) {
    Ascending(jobs) && forall id :: Covers(jobs, id) <==> Covers(gaps, id)
  }

  lemma CoversConcat(a: seq<Range>, b: seq<Range>, id: nat)
    ensures Covers(a + b, id) <==> Covers(a, id) || Covers(b, id)
  {
    var all := a + b;
    if Covers(a, id) {
      var k :| 0 <= k < |a| && Inside(a[k], id);
      assert all[k] == a[k];
    }
    if Covers(b, id) {
      var k :| 0 <= k < |b| && Inside(b[k], id);
      assert all[|a| + k] == b[k];
    }
  }

  lemma JobsStep(jobs: seq<Range>, gaps: seq<Range>, g: Range, more: seq<Range>, size: nat)
    requires JobsFor(jobs, gaps) && Ascending(gaps + [g]) && Cuts(more, g.lo, g.hi, size)
    ensures JobsFor(jobs + more, gaps + [g])
  {
    assert (gaps + [g])[|gaps|] == g;
    forall id ensures Covers(jobs + more, id) <==> Covers(gaps + [g], id) {
      CoversConcat(jobs, more, id);
      CoversAppend(gaps, g, id);
      CutsCoverOnce(more, g.lo, g.hi, size, id);
      assert Covers(more, id) <==> Inside(g, id);
    }
    CutsAscend(more, g.lo, g.hi, size);
    forall k | 0 <= k < |jobs| ensures jobs[k].hi < g.lo {
      assert Inside(jobs[k], jobs[k].hi);
      assert Covers(jobs, jobs[k].hi);
      var m :| 0 <= m < |gaps| && Inside(gaps[m], jobs[k].hi);
      assert (gaps + [g])[m] == gaps[m];
    }
  }

  /** The job lies inside the gap and has the chunk's length, or ends the gap with what is left. */
  predicate CutFrom(job: Range, g: Range, size: nat) {
    && g.lo <= job.lo && job.hi <= g.hi && job.hi - job.lo + 1 <= size
    && (job.hi - job.lo + 1 == size || job.hi == g.hi)
  }

  ghost predicate Chunked(jobs: seq<Range>, gaps: seq<Range>, size: nat) {
    forall k :: 0 <= k < |jobs| ==> exists m :: 0 <= m < |gaps| && CutFrom(jobs[k], gaps[m], size)
  }

  lemma ChunkedStep(jobs: seq<Range>, gaps: seq<Range>, g: Range, more: seq<Range>, size: nat)
    requires Chunked(jobs, gaps, size) && Cuts(more, g.lo, g.hi, size)
    ensures Chunked(jobs + more, gaps + [g], size)
  {
    CutsAscend(more, g.lo, g.hi, size);
    forall k | 0 <= k < |jobs + more| ensures exists m :: 0 <= m < |gaps + [g]| && CutFrom((jobs + more)[k], (gaps + [g])[m], size) {
      if k < |jobs| {
        var m :| 0 <= m < |gaps| && CutFrom(jobs[k], gaps[m], size);
        assert CutFrom((jobs + more)[k], (gaps + [g])[m], size);
      } else {
        assert CutFrom((jobs + more)[k], (gaps + [g])[|gaps|], size);
      }
    }
  }

  method BuildGapSweepJobs(gaps: seq<Range>, chunk: nat) returns (jobs: seq<Range>)
    requires chunk <= MAX_ID && Ascending(gaps) && forall k :: 0 <= k < |gaps| ==> gaps[k].hi <= MAX_ID
    ensures JobsFor(jobs, gaps) && |gaps| <= |jobs|
    ensures Chunked(jobs, gaps, if chunk == 0 then 100 else chunk)
  {
    jobs := [];
    for i := 0 to |gaps|
      invariant JobsFor(jobs, gaps[..i]) && i <= |jobs|
      invariant Chunked(jobs, gaps[..i], ChunkSize(chunk))
    {
      var more := BuildIdSweepJobs(gaps[i].lo, gaps[i].hi, chunk);
      assert gaps[..i] + [gaps[i]] == gaps[..i + 1];
      JobsStep(jobs, gaps[..i], gaps[i], more, ChunkSize(chunk));
      ChunkedStep(jobs, gaps[..i], gaps[i], more, ChunkSize(chunk));
      jobs := jobs + more;
    }
    assert gaps[..|gaps|] == gaps;
  }

  /** Ascending disjoint jobs above 0 are no more than the ids they can hold. */
  lemma {:induction false} JobsAreFew(jobs: seq<Range>, k: nat)
    requires Ascending(jobs) && k < |jobs| && jobs[0].lo > 0
    ensures jobs[k].lo > k
  {
    if k > 0 {
      JobsAreFew(jobs, k - 1);
    }
  }

  /**
   Moving the cursor to the end of the last published job skips nothing: every
   id that was missing between the old cursor and the new one is in a published
   job.
   */
  lemma CursorSkipsNothing(stored: set<nat>, after: nat, maxId: nat, limit: nat, gaps: seq<Range>, jobs: seq<Range>, published: nat, id: nat)
    requires FirstGaps(stored, after, maxId, limit, gaps) && JobsFor(jobs, gaps)
    requires 0 < published <= |jobs|
    requires Missing(stored, after, maxId, id) && id <= jobs[published - 1].hi
    ensures Covers(jobs[..published], id)
  {
    var last := jobs[published - 1].hi;
    assert Inside(jobs[published - 1], last);
    assert Covers(jobs, last);
    var m :| 0 <= m < |gaps| && Inside(gaps[m], last);
    assert last <= gaps[|gaps| - 1].hi;
    assert Covers(gaps, id);
    var k :| 0 <= k < |jobs| && Inside(jobs[k], id);
    assert k < published;
    assert jobs[..published][k] == jobs[k];
  }

  datatype Report = BadCount | NothingToDo | CursorConflict | PublishFailed | Published

  /** The gap-fill cursor: the last id queued. */
  class GapCursor {
    var last: nat

    constructor (last: nat)
      ensures this.last == last
    {
      this.last := last;
    }

    /** Compare-and-set; a stale advance never rewinds. */
    method Advance(expected: nat, target: nat) returns (ok: bool)
      modifies this
      ensures last == if old(last) == expected then target else old(last)
      ensures ok <==> old(last) == expected || old(last) >= target
    {
      if last == expected {
        last := target;
        return true;
      }
      return last >= target;
    }
  }

  /**
   One run of gap filling.  `sent` is how many publishes succeed before one fails,
   `moved` where other runs have put the cursor by the time this one advances it.
   Whatever happens, if this run moves the cursor, every id that was missing
   between its old and its new position is in a job that was published.  The report
   says what happened: a full success left nothing missing unpublished or used up
   its count.
   */
  method PublishFillGaps(cursor: GapCursor, anchored: seq<nat>, ghost stored: set<nat>, maxId: nat,
                         count: nat, chunk: nat, minId: nat, sent: nat, moved: nat)
    returns (r: Report, published: seq<Range>, ghost base: nat)
    requires maxId <= MAX_ID && count <= MAX_ID && chunk <= MAX_ID && minId <= MAX_ID && cursor.last <= MAX_ID
    requires IsAnchored(anchored, stored, maxId)
    modifies cursor
    ensures |published| <= count && Ascending(published)
    ensures forall id :: Covers(published, id) ==> Missing(stored, base, maxId, id)
    ensures minId > 0 ==> cursor.last == old(cursor.last) && base == minId
    ensures published == [] ==> cursor.last == old(cursor.last) || (minId == 0 && old(cursor.last) >= maxId && cursor.last == 0)
    ensures minId == 0 && published != [] ==>
              && base == (if old(cursor.last) >= maxId then 0 else old(cursor.last))
              && cursor.last == (if moved == base then published[|published| - 1].hi else moved)
              && (forall id: nat :: Missing(stored, base, maxId, id) && id <= published[|published| - 1].hi ==> Covers(published, id))
    ensures r.BadCount? <==> count == 0
    ensures r.NothingToDo? <==> count > 0 && forall id: nat :: !Missing(stored, base, maxId, id)
    ensures r.CursorConflict? <==> minId == 0 && published != [] && moved != base && moved < published[|published| - 1].hi
    ensures r.PublishFailed? ==> |published| == sent < count
    ensures r.Published? ==>
              published != [] && (|published| == count || forall id: nat :: Missing(stored, base, maxId, id) ==> Covers(published, id))
  {
    published, base := [], minId;
    if count == 0 {
      return Report.BadCount, published, base;
    }
    if maxId == 0 {
      return NothingToDo, published, base;
    }
    var after := minId;
    if minId == 0 {
      after := cursor.last;
      if after >= maxId {
        var _ := cursor.Advance(after, 0);
        after := 0;
      }
    }
    base := after;
    var complete;
    published, complete := PublishGaps(anchored, stored, after, maxId, count, chunk, sent);
    if minId == 0 && published != [] {
      cursor.last := moved;
      var ok := cursor.Advance(after, published[|published| - 1].hi);
      if !ok {
        return CursorConflict, published, base;
      }
    }
    r := if !complete then Report.PublishFailed else if published == [] then NothingToDo else Published;
  }

  /**
   What publishing the gaps above `after` achieves: only missing ids are published
   and none up to the last one is skipped; it ends without a job exactly if nothing
   is missing, and it ends early only by a failed publish.
   */
  ghost predicate Achieved(stored: set<nat>, after: nat, maxId: nat, count: nat, sent: nat, published: seq<Range>, complete: bool) {
    && |published| <= count && Ascending(published)
    && (forall id: nat :: Covers(published, id) ==> Missing(stored, after, maxId, id))
    && (published != [] ==>
          forall id: nat :: Missing(stored, after, maxId, id) && id <= published[|published| - 1].hi ==> Covers(published, id))
    && (published == [] && complete <==> forall id: nat :: !Missing(stored, after, maxId, id))
    && (complete ==> |published| == count || forall id: nat :: Missing(stored, after, maxId, id) ==> Covers(published, id))
    && (!complete ==> |published| == sent < count)
  }

  /** Finds the gaps after `after`, builds at most `count` jobs for them and publishes until a publish fails. */
  method PublishGaps(anchored: seq<nat>, ghost stored: set<nat>, after: nat, maxId: nat, count: nat, chunk: nat, sent: nat)
    returns (published: seq<Range>, complete: bool)
    requires after <= MAX_ID && maxId <= MAX_ID && 0 < count <= MAX_ID && chunk <= MAX_ID
    requires IsAnchored(anchored, stored, maxId)
    ensures Achieved(stored, after, maxId, count, sent, published, complete)
  {
    var gaps := FindIdGapsAfter(anchored, stored, after, maxId, count);
    if gaps == [] {
      NothingMissing(stored, after, maxId, count, sent);
      return [], true;
    }
    assert forall k :: 0 <= k < |gaps| ==> IsGap(stored, after, maxId, gaps[k]);
    var jobs := BuildGapSweepJobs(gaps, chunk);
    FewerThanIds(stored, after, maxId, gaps, jobs);
    ghost var all := jobs;
    if Wrap(|jobs|) > count {
      jobs := jobs[..count];
    }
    published, complete := PublishAll(jobs, sent);
    PublishedAchieve(stored, after, maxId, count, sent, gaps, all, published, complete);
  }

  lemma NothingMissing(stored: set<nat>, after: nat, maxId: nat, count: nat, sent: nat)
    requires FirstGaps(stored, after, maxId, count, []) && count > 0
    ensures Achieved(stored, after, maxId, count, sent, [], true)
  {
    assert forall id: nat :: !Covers([], id);
  }

  lemma PublishedAchieve(stored: set<nat>, after: nat, maxId: nat, count: nat, sent: nat,
                         gaps: seq<Range>, all: seq<Range>, published: seq<Range>, complete: bool)
    requires maxId <= MAX_ID && FirstGaps(stored, after, maxId, count, gaps) && JobsFor(all, gaps) && 0 < |gaps| <= |all|
    requires var jobs := if |all| > count then all[..count] else all;
             published == (if sent < |jobs| then jobs[..sent] else jobs) && (complete <==> |jobs| <= sent)
    ensures Achieved(stored, after, maxId, count, sent, published, complete)
  {
    var n := |published|;
    assert published == all[..n];
    assert IsGap(stored, after, maxId, gaps[0]) && Missing(stored, after, maxId, gaps[0].lo);
    PublishedAreMissing(stored, after, maxId, gaps, all, n);
    PublishedSkipNothing(stored, after, maxId, count, gaps, all, n);
    if complete && n < count {
      assert published == all;
      FewGapsAreAll(stored, after, maxId, count, gaps, all);
    }
  }

  /** Fewer gaps than asked for are all there are. */
  lemma FewGapsAreAll(stored: set<nat>, after: nat, maxId: nat, limit: nat, gaps: seq<Range>, jobs: seq<Range>)
    requires FirstGaps(stored, after, maxId, limit, gaps) && JobsFor(jobs, gaps) && |gaps| < limit
    ensures forall id: nat :: Missing(stored, after, maxId, id) ==> Covers(jobs, id)
  {
  }

  lemma PublishedSkipNothing(stored: set<nat>, after: nat, maxId: nat, limit: nat, gaps: seq<Range>, jobs: seq<Range>, n: nat)
    requires FirstGaps(stored, after, maxId, limit, gaps) && JobsFor(jobs, gaps) && n <= |jobs|
    ensures n > 0 ==> forall id: nat :: Missing(stored, after, maxId, id) && id <= jobs[n - 1].hi ==> Covers(jobs[..n], id)
  {
    if n > 0 {
      forall id: nat | Missing(stored, after, maxId, id) && id <= jobs[n - 1].hi ensures Covers(jobs[..n], id) {
        CursorSkipsNothing(stored, after, maxId, limit, gaps, jobs, n, id);
      }
    }
  }

  /** There are never 2^32 jobs, so the 32-bit count of them does not wrap. */
  lemma FewerThanIds(stored: set<nat>, after: nat, maxId: nat, gaps: seq<Range>, jobs: seq<Range>)
    requires maxId <= MAX_ID && JobsFor(jobs, gaps) && forall k :: 0 <= k < |gaps| ==> IsGap(stored, after, maxId, gaps[k])
    ensures Wrap(|jobs|) == |jobs| <= maxId
    ensures forall id :: Covers(jobs, id) ==> Missing(stored, after, maxId, id)
  {
    forall id | Covers(jobs, id) ensures Missing(stored, after, maxId, id) {
      var m :| 0 <= m < |gaps| && Inside(gaps[m], id);
      assert IsGap(stored, after, maxId, gaps[m]);
    }
    if jobs != [] {
      assert Inside(jobs[0], jobs[0].lo);
      assert Covers(jobs, jobs[0].lo);
      var k := |jobs| - 1;
      JobsAreFew(jobs, k);
      assert Inside(jobs[k], jobs[k].lo);
      assert Covers(jobs, jobs[k].lo);
    }
  }

  lemma PublishedAreMissing(stored: set<nat>, after: nat, maxId: nat, gaps: seq<Range>, jobs: seq<Range>, n: nat)
    requires maxId <= MAX_ID && JobsFor(jobs, gaps) && forall k :: 0 <= k < |gaps| ==> IsGap(stored, after, maxId, gaps[k])
    requires n <= |jobs|
    ensures Ascending(jobs[..n]) && forall id :: Covers(jobs[..n], id) ==> Missing(stored, after, maxId, id)
  {
    FewerThanIds(stored, after, maxId, gaps, jobs);
    forall id | Covers(jobs[..n], id) ensures Missing(stored, after, maxId, id) {
      var k :| 0 <= k < n && Inside(jobs[..n][k], id);
      assert Inside(jobs[k], id);
      assert Covers(jobs, id);
    }
  }
}
