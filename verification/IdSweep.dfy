/**
 Publishing and probing ranges of character ids.  Ids are 32-bit and every
 arithmetic step of the program wraps, so `Wrap` is written out.
 */
module IdSweep {

  const ID_COUNT := 0x1_0000_0000
  const MAX_ID := ID_COUNT - 1

  function Wrap(x: int): (w: nat)
    ensures w < ID_COUNT
  {
    x % ID_COUNT
  }

  lemma WrapSmall(x: nat)
    requires x <= MAX_ID
    ensures Wrap(x) == x
  {
  }

  /** The wrapping end of a chunk is its true end, or falls below its start. */
  lemma ChunkEnd(start: nat, size: nat)
    requires start <= MAX_ID && 1 <= size <= MAX_ID
    ensures var end := Wrap(Wrap(start + size) - 1);
            if start + size - 1 <= MAX_ID then end == start + size - 1 else end < start
  {
    if start + size <= MAX_ID {
      WrapSmall(start + size);
    } else {
      assert Wrap(start + size) == start + size - ID_COUNT;
    }
  }

  /** One queued job: probe the ids `lo` to `hi`. */
  datatype Range = Range(lo: nat, hi: nat)

  /** The `n` ids from `lo` on, in order. */
  function Span(lo: nat, n: nat): (s: seq<nat>)
    ensures |s| == n
  {
    if n == 0 then [] else Span(lo, n - 1) + [lo + n - 1]
  }

  lemma SpanNext(lo: nat, n: nat)
    ensures Span(lo, n + 1) == Span(lo, n) + [lo + n]
  {
  }

  /** The ids from `lo` to `hi`, in order. */
  function Ids(lo: nat, hi: nat): seq<nat> {
    Span(lo, if lo <= hi then hi - lo + 1 else 0)
  }

  lemma {:induction false} SpanAt(lo: nat, n: nat, k: nat)
    requires k < n
    ensures Span(lo, n)[k] == lo + k
  {
    if k < n - 1 {
      SpanAt(lo, n - 1, k);
    }
  }

  lemma {:induction false} SpanConcat(lo: nat, m: nat, n: nat)
    ensures Span(lo, m) + Span(lo + m, n) == Span(lo, m + n)
  {
    if n > 0 {
      SpanConcat(lo, m, n - 1);
    }
  }

  /** `Ids` lists exactly the ids of the range, each once. */
  lemma InIds(lo: nat, hi: nat, id: nat)
    ensures id in Ids(lo, hi) <==> lo <= id <= hi
    ensures forall j, k :: 0 <= j < k < |Ids(lo, hi)| ==> Ids(lo, hi)[j] < Ids(lo, hi)[k]
  {
    var s := Ids(lo, hi);
    forall k | 0 <= k < |s| ensures s[k] == lo + k {
      SpanAt(lo, |s|, k);
    }
    if lo <= id <= hi {
      assert s[id - lo] == id;
    }
  }

  /** Everything the jobs ask to probe, job by job. */
  function AllIds(jobs: seq<Range>): seq<nat> {
    if jobs == [] then [] else AllIds(jobs[..|jobs| - 1]) + Ids(jobs[|jobs| - 1].lo, jobs[|jobs| - 1].hi)
  }

  // ----- chunking

  /** The jobs cut `lo..hi` into consecutive ranges of `size` ids, the last of them possibly shorter. */
  ghost predicate Cuts(jobs: seq<Range>, lo: nat, hi: nat, size: nat) {
    && jobs != []
    && jobs[0].lo == lo
    && jobs[|jobs| - 1].hi == hi
    && (forall k :: 0 <= k < |jobs| ==> jobs[k].lo <= jobs[k].hi && jobs[k].hi - jobs[k].lo + 1 <= size)
    && (forall k :: 0 <= k < |jobs| - 1 ==> jobs[k].hi - jobs[k].lo + 1 == size)
    && (forall k, m :: 0 <= k < |jobs| && m == k + 1 < |jobs| ==> jobs[m].lo == jobs[k].hi + 1)
  }

  function ChunkSize(chunk: nat): nat {
    if chunk == 0 then 100 else chunk
  }

  /**
   Cuts a range into jobs.  The end of a chunk is computed with wrapping
   arithmetic and corrected when it wrapped.
   */
  method BuildIdSweepJobs(lo: nat, hi: nat, chunk: nat) returns (jobs: seq<Range>)
    requires lo <= MAX_ID && hi <= MAX_ID && chunk <= MAX_ID
    ensures lo > hi ==> jobs == []
    ensures lo <= hi ==> Cuts(jobs, lo, hi, if chunk == 0 then 100 else chunk)
  {
    var size := ChunkSize(chunk);
    jobs := [];
    var start := lo;
    while start <= hi
      invariant lo <= start <= MAX_ID && (jobs != [] ==> 0 < start)
      invariant jobs == [] ==> start == lo
      invariant jobs != [] ==> Cuts(jobs, lo, start - 1, size) && jobs[|jobs| - 1].hi - jobs[|jobs| - 1].lo + 1 == size
      invariant jobs != [] ==> start <= hi
      decreases hi - start
    {
      ChunkEnd(start, size);
      var end := Wrap(Wrap(start + size) - 1);
      if end > hi || end < start {
        end := hi;
      }
      if jobs != [] {
        CutsAppend(jobs, lo, size, Range(start, end));
      }
      jobs := jobs + [Range(start, end)];
      if end == hi {
        break;
      }
      WrapSmall(end + 1);
      start := Wrap(end + 1);
    }
  }

  lemma CutsAppend(jobs: seq<Range>, lo: nat, size: nat, next: Range)
    requires 0 < next.lo <= next.hi && next.hi - next.lo + 1 <= size
    requires Cuts(jobs, lo, next.lo - 1, size) && jobs[|jobs| - 1].hi - jobs[|jobs| - 1].lo + 1 == size
    ensures Cuts(jobs + [next], lo, next.hi, size)
  {
  }

  /** Without its last job a cut is a cut of a shorter range. */
  lemma CutsPrefix(jobs: seq<Range>, lo: nat, hi: nat, size: nat)
    requires Cuts(jobs, lo, hi, size) && |jobs| > 1
    ensures jobs[|jobs| - 2].hi == jobs[|jobs| - 1].lo - 1
    ensures Cuts(jobs[..|jobs| - 1], lo, jobs[|jobs| - 2].hi, size)
  {
    assert forall k :: 0 <= k < |jobs| - 1 ==> jobs[..|jobs| - 1][k] == jobs[k];
  }

  lemma {:induction false} CutsInOrder(jobs: seq<Range>, lo: nat, hi: nat, size: nat)
    requires Cuts(jobs, lo, hi, size)
    ensures lo <= hi && AllIds(jobs) == Ids(lo, hi)
    decreases |jobs|
  {
    var last, before := jobs[|jobs| - 1], jobs[..|jobs| - 1];
    if |jobs| == 1 {
      assert AllIds(before) == [];
    } else {
      CutsPrefix(jobs, lo, hi, size);
      CutsInOrder(before, lo, jobs[|jobs| - 2].hi, size);
      IdsConcat(lo, last.lo, hi);
    }
  }

  lemma IdsConcat(lo: nat, mid: nat, hi: nat)
    requires lo < mid <= hi
    ensures Ids(lo, mid - 1) + Ids(mid, hi) == Ids(lo, hi)
  {
    SpanConcat(lo, mid - lo, hi - mid + 1);
  }

  /** An id is in the range exactly if it is in a job, and it is in at most one job. */
  lemma CutsCoverOnce(jobs: seq<Range>, lo: nat, hi: nat, size: nat, id: nat)
    requires Cuts(jobs, lo, hi, size)
    ensures lo <= id <= hi <==> exists k :: 0 <= k < |jobs| && jobs[k].lo <= id <= jobs[k].hi
    ensures forall k, m :: 0 <= k < m < |jobs| ==> jobs[k].hi < jobs[m].lo
  {
    CutsAscend(jobs, lo, hi, size);
    if lo <= id <= hi {
      JobOf(jobs, lo, hi, size, id);
    }
  }

  lemma {:induction false} CutsAscend(jobs: seq<Range>, lo: nat, hi: nat, size: nat)
    requires Cuts(jobs, lo, hi, size)
    ensures forall k :: 0 <= k < |jobs| ==> lo <= jobs[k].lo && jobs[k].hi <= hi
    ensures forall k, m :: 0 <= k < m < |jobs| ==> jobs[k].hi < jobs[m].lo
    decreases |jobs|
  {
    if |jobs| > 1 {
      var before := jobs[..|jobs| - 1];
      CutsPrefix(jobs, lo, hi, size);
      CutsAscend(before, lo, jobs[|jobs| - 2].hi, size);
      assert forall k :: 0 <= k < |before| ==> jobs[k] == before[k];
    }
  }

  lemma {:induction false} JobOf(jobs: seq<Range>, lo: nat, hi: nat, size: nat, id: nat)
    requires Cuts(jobs, lo, hi, size) && lo <= id <= hi
    ensures exists k :: 0 <= k < |jobs| && jobs[k].lo <= id <= jobs[k].hi
    decreases |jobs|
  {
    var last := |jobs| - 1;
    if id < jobs[last].lo {
      var before := jobs[..last];
      CutsPrefix(jobs, lo, hi, size);
      JobOf(before, lo, jobs[last - 1].hi, size, id);
      var k :| 0 <= k < |before| && before[k].lo <= id <= before[k].hi;
      assert jobs[k] == before[k];
    } else {
      assert jobs[last].lo <= id <= jobs[last].hi;
    }
  }

  // ----- probing

  datatype Stored = Saved | Hidden | SaveError
  datatype Probe = Found(stored: Stored) | NotFound | FetchError
  datatype Outcome = Poison | Retry(at: nat) | Done(chained: seq<nat>)

  /** Each id from `lo` up to, but not including, `end` does not exist, is hidden or was saved. */
  ghost predicate Clear(lo: nat, end: nat, world: nat -> Probe) {
    forall id :: lo <= id < end ==> world(id).NotFound? || world(id) == Found(Hidden) || world(id) == Found(Saved)
  }

  lemma ClearNext(lo: nat, id: nat, world: nat -> Probe)
    requires Clear(lo, id, world) && !world(id).FetchError? && world(id) != Found(SaveError)
    ensures Clear(lo, id + 1, world)
  {
    match world(id)
    case NotFound =>
    case Found(Saved) =>
    case Found(Hidden) =>
  }

  /** Those of the `n` ids from `lo` on that were found and saved, in order: each chains one follow-up job. */
  function SavedIn(lo: nat, n: nat, world: nat -> Probe): seq<nat> {
    if n == 0 then []
    else SavedIn(lo, n - 1, world) + (if world(lo + n - 1) == Found(Saved) then [lo + n - 1] else [])
  }

  /** `ids` are exactly the ids of the job that were found and saved, in ascending order. */
  ghost predicate Chained(ids: seq<nat>, job: Range, world: nat -> Probe) {
    && (forall id: nat :: id in ids <==> job.lo <= id <= job.hi && world(id) == Found(Saved))
    && (forall i, j :: 0 <= i < j < |ids| ==> ids[i] < ids[j])
  }

  lemma {:induction false} SavedInIsExact(lo: nat, n: nat, world: nat -> Probe)
    ensures forall id: nat :: id in SavedIn(lo, n, world) <==> lo <= id < lo + n && world(id) == Found(Saved)
    ensures forall i, j :: 0 <= i < j < |SavedIn(lo, n, world)| ==> SavedIn(lo, n, world)[i] < SavedIn(lo, n, world)[j]
  {
    if n > 0 {
      SavedInIsExact(lo, n - 1, world);
      var before := SavedIn(lo, n - 1, world);
      assert forall i :: 0 <= i < |before| ==> before[i] in before;
    }
  }

  /** The state of the loop before id `id`: what was probed, what is chained, and no trouble so far. */
  ghost predicate ProbedTo(lo: nat, id: nat, world: nat -> Probe, probed: seq<nat>, next: seq<nat>) {
    lo <= id && probed == Span(lo, id - lo) && next == SavedIn(lo, id - lo, world) && Clear(lo, id, world)
  }

  lemma ProbeStep(lo: nat, id: nat, world: nat -> Probe, probed: seq<nat>, next: seq<nat>)
    requires ProbedTo(lo, id, world, probed, next)
    ensures probed + [id] == Ids(lo, id) && Clear(lo, id, world)
    ensures !world(id).FetchError? && world(id) != Found(SaveError) ==>
              ProbedTo(lo, id + 1, world, probed + [id], next + (if world(id) == Found(Saved) then [id] else []))
  {
    SpanNext(lo, id - lo);
    if !world(id).FetchError? && world(id) != Found(SaveError) {
      ClearNext(lo, id, world);
    }
  }

  lemma ProbedAll(job: Range, world: nat -> Probe, probed: seq<nat>, next: seq<nat>)
    requires job.lo <= job.hi && ProbedTo(job.lo, job.hi + 1, world, probed, next)
    ensures Chained(next, job, world)
  {
    SavedInIsExact(job.lo, job.hi - job.lo + 1, world);
  }

  /**
   Probes a range, id by id, with a counter that may wrap after the last id.  An
   id is skipped only when it does not exist or is hidden; any other trouble
   fails the delivery at that id.
   */
  method HandleIdSweep(job: Range, world: nat -> Probe) returns (r: Outcome, probed: seq<nat>)
    requires job.lo <= MAX_ID && job.hi <= MAX_ID
    ensures job.lo > job.hi ==> r.Poison? && probed == []
    ensures job.lo <= job.hi ==>
              && !r.Poison?
              && (r.Retry? ==>
                    && job.lo <= r.at <= job.hi && probed == Ids(job.lo, r.at)
                    && (world(r.at).FetchError? || world(r.at) == Found(SaveError)) && Clear(job.lo, r.at, world))
              && (r.Done? ==> probed == Ids(job.lo, job.hi) && Clear(job.lo, job.hi + 1, world) && Chained(r.chained, job, world))
  {
    probed := [];
    if job.lo > job.hi {
      return Poison, probed;
    }
    var next: seq<nat> := [];
    var id := job.lo;
    while true
      invariant job.lo <= id <= job.hi <= MAX_ID
      invariant ProbedTo(job.lo, id, world, probed, next)
      decreases job.hi - id
    {
      var p := world(id);
      ProbeStep(job.lo, id, world, probed, next);
      probed := probed + [id];
      if p.FetchError? || p == Found(SaveError) {
        return Retry(id), probed;
      }
      next := next + (if p == Found(Saved) then [id] else []);
      if id == job.hi {
        ProbedAll(job, world, probed, next);
        return Done(next), probed;
      }
      WrapSmall(id + 1);
      id := Wrap(id + 1);
    }
  }

  /**
   A sweep whose jobs all succeed probes every id of the range exactly once and
   in order.  `probes[k]` is what the handler of job `k` probed.
   */
  lemma SweepProbesEveryIdOnce(jobs: seq<Range>, lo: nat, hi: nat, size: nat, probes: seq<seq<nat>>)
    requires Cuts(jobs, lo, hi, size) && |probes| == |jobs|
    requires forall k :: 0 <= k < |jobs| ==> probes[k] == Ids(jobs[k].lo, jobs[k].hi)
    ensures Flattened(probes) == Ids(lo, hi)
  {
    FlattenedJobs(jobs, probes);
    CutsInOrder(jobs, lo, hi, size);
  }

  function Flattened(s: seq<seq<nat>>): seq<nat> {
    if s == [] then [] else Flattened(s[..|s| - 1]) + s[|s| - 1]
  }

  lemma {:induction false} FlattenedJobs(jobs: seq<Range>, probes: seq<seq<nat>>)
    requires |probes| == |jobs| && forall k :: 0 <= k < |jobs| ==> probes[k] == Ids(jobs[k].lo, jobs[k].hi)
    ensures Flattened(probes) == AllIds(jobs)
  {
    if jobs != [] {
      FlattenedJobs(jobs[..|jobs| - 1], probes[..|jobs| - 1]);
    }
  }

  // ----- the auto-sweep cursor

  datatype CursorResult = Moved | AlreadyBeyond | Conflict | Invalid

  /** The cursor row: the next id to publish. */
  class Cursor {
    var next: nat

    constructor (next: nat)
      ensures this.next == next
    {
      this.next := next;
    }

    method Advance(expected: nat, target: nat) returns (r: CursorResult)
      modifies this
      ensures next == (if r.Moved? then target else old(next)) && next >= old(next)
      ensures r.Moved? <==> 0 < expected < target && old(next) == expected
      ensures r.Invalid? <==> expected == 0 || target <= expected
      ensures r.AlreadyBeyond? ==> old(next) >= target
      ensures r.Conflict? ==> old(next) < target
    {
      if expected == 0 || target <= expected {
        return Invalid;
      }
      if next == expected {
        next := target;
        return Moved;
      }
      if next >= target {
        return AlreadyBeyond;
      }
      return Conflict;
    }
  }

  /** Publishes the jobs in order until one publish fails; `sent` is how many succeed before that. */
  method PublishAll(jobs: seq<Range>, sent: nat) returns (published: seq<Range>, complete: bool)
    ensures published == if sent < |jobs| then jobs[..sent] else jobs
    ensures complete <==> |jobs| <= sent
  {
    published := [];
    for i := 0 to |jobs|
      invariant published == jobs[..i] && i <= sent
    {
      if i == sent {
        return published, false;
      }
      published := published + [jobs[i]];
    }
    return published, true;
  }

  datatype AutoReport = BadCount | RangeOverflow | PublishFailed | CursorFailed | Swept

  /**
   One run of the auto sweep.  `moved` is where other runs have put the cursor by
   the time this one advances it.  The cursor moves to the end of the range only
   after every id of the range was published, in order and once; a run that fails
   before that leaves it where it is.
   */
  method PublishAutoIdSweep(cursor: Cursor, count: nat, chunk: nat, sent: nat, moved: nat)
    returns (r: AutoReport, published: seq<Range>)
    requires cursor.next <= MAX_ID && count <= MAX_ID && chunk <= MAX_ID
    modifies cursor
    ensures r.BadCount? <==> count == 0
    ensures r.RangeOverflow? <==> count > 0 && (old(cursor.next) == 0 || old(cursor.next) + count > MAX_ID)
    ensures r.BadCount? || r.RangeOverflow? ==> published == [] && cursor.next == old(cursor.next)
    ensures r.PublishFailed? ==> |published| == sent && cursor.next == old(cursor.next)
    ensures r.CursorFailed? || r.Swept? ==>
              var from := old(cursor.next);
              && AllIds(published) == Ids(from, from + count - 1)
              && cursor.next == (if moved == from then from + count else moved)
              && (r.Swept? <==> moved == from || moved >= from + count)
  {
    published := [];
    if count == 0 {
      return BadCount, published;
    }
    var from := cursor.next;
    if from == 0 || count > MAX_ID - from {
      return RangeOverflow, published;
    }
    WrapSmall(from + count);
    var last := Wrap(Wrap(from + count) - 1);
    WrapSmall(from + count - 1);
    var jobs := BuildIdSweepJobs(from, last, chunk);
    CutsInOrder(jobs, from, last, ChunkSize(chunk));
    var complete;
    published, complete := PublishAll(jobs, sent);
    if !complete {
      return PublishFailed, published;
    }
    cursor.next := moved;
    var done := cursor.Advance(from, Wrap(last + 1));
    r := if done.Moved? || done.AlreadyBeyond? then Swept else CursorFailed;
  }

  /** A publisher between reading the cursor and moving it: the jobs it built and how many it has published. */
  datatype Publisher = Publisher(start: nat, end: nat, jobs: seq<Range>, done: nat)

  datatype Sweep = Sweep(cursor: nat, publishers: map<nat, Publisher>, published: set<nat>)

  datatype SweepStep =
    | Begin(pid: nat, count: nat, chunk: nat, jobs: seq<Range>)
    | PublishNext(pid: nat)
    | Crash(pid: nat)
    | MoveCursor(pid: nat)

  /** The range a publisher may start from cursor `c`: the check that keeps `c + count` inside 32 bits. */
  predicate MayPublish(c: nat, count: nat) {
    0 < count && 0 < c && count <= MAX_ID - c
  }

  function IdSet(r: Range): set<nat> {
    set id | id in Ids(r.lo, r.hi)
  }

  ghost predicate CanStep(s: Sweep, e: SweepStep) {
    match e
    case Begin(pid, count, chunk, jobs) =>
      && pid !in s.publishers && count <= MAX_ID && chunk <= MAX_ID && s.cursor <= MAX_ID
      && MayPublish(s.cursor, count)
      && Cuts(jobs, s.cursor, Wrap(s.cursor + count - 1), ChunkSize(chunk))
    case PublishNext(pid) => pid in s.publishers && s.publishers[pid].done < |s.publishers[pid].jobs|
    case Crash(pid) => pid in s.publishers
    case MoveCursor(pid) => pid in s.publishers && s.publishers[pid].done == |s.publishers[pid].jobs|
  }

  function Stepped(s: Sweep, e: SweepStep): Sweep
    requires e.PublishNext? ==> e.pid in s.publishers && s.publishers[e.pid].done < |s.publishers[e.pid].jobs|
    requires e.MoveCursor? ==> e.pid in s.publishers
  {
    match e
    case Begin(pid, count, _, jobs) =>
      s.(publishers := s.publishers[pid := Publisher(s.cursor, Wrap(s.cursor + count - 1), jobs, 0)])
    case PublishNext(pid) =>
      var p := s.publishers[pid];
      s.(publishers := s.publishers[pid := p.(done := p.done + 1)], published := s.published + IdSet(p.jobs[p.done]))
    case Crash(pid) => s.(publishers := s.publishers - {pid})
    case MoveCursor(pid) =>
      var p := s.publishers[pid];
      s.(publishers := s.publishers - {pid}, cursor := if s.cursor == p.start then Wrap(p.end + 1) else s.cursor)
  }

  ghost predicate IsSweep(states: seq<Sweep>, steps: seq<SweepStep>, initial: nat) {
    && |states| == |steps| + 1
    && states[0] == Sweep(initial, map[], {})
    && forall k :: 0 <= k < |steps| ==> CanStep(states[k], steps[k]) && states[k + 1] == Stepped(states[k], steps[k])
  }

  ghost predicate PublisherInv(p: Publisher, published: set<nat>) {
    && p.start <= p.end < MAX_ID
    && p.done <= |p.jobs|
    && (exists size: nat :: Cuts(p.jobs, p.start, p.end, size))
    && (forall k, id :: 0 <= k < p.done && p.jobs[k].lo <= id <= p.jobs[k].hi ==> id in published)
  }

  ghost predicate SweepInv(s: Sweep, initial: nat) {
    && initial <= s.cursor <= MAX_ID
    && (forall id :: initial <= id < s.cursor ==> id in s.published)
    && (forall pid :: pid in s.publishers ==> PublisherInv(s.publishers[pid], s.published))
  }

  /** A publisher that finished its jobs has published its whole range. */
  lemma FinishedPublisher(p: Publisher, published: set<nat>, id: nat)
    requires PublisherInv(p, published) && p.done == |p.jobs| && p.start <= id <= p.end
    ensures id in published
  {
    var size: nat :| Cuts(p.jobs, p.start, p.end, size);
    CutsCoverOnce(p.jobs, p.start, p.end, size, id);
  }

  lemma SweepStepKeepsInv(s: Sweep, e: SweepStep, initial: nat)
    requires SweepInv(s, initial) && CanStep(s, e)
    ensures SweepInv(Stepped(s, e), initial) && s.cursor <= Stepped(s, e).cursor && s.published <= Stepped(s, e).published
  {
    var s' := Stepped(s, e);
    forall pid | pid in s'.publishers ensures PublisherInv(s'.publishers[pid], s'.published) {
      PublisherStep(s, e, initial, pid);
    }
    if e.MoveCursor? {
      var p := s.publishers[e.pid];
      assert PublisherInv(p, s.published);
      WrapSmall(p.end + 1);
      forall id | initial <= id < s'.cursor ensures id in s'.published {
        if s.cursor <= id {
          FinishedPublisher(p, s.published, id);
        }
      }
    }
  }

  lemma JobPublished(p: Publisher, published: set<nat>)
    requires PublisherInv(p, published) && p.done < |p.jobs|
    ensures PublisherInv(p.(done := p.done + 1), published + IdSet(p.jobs[p.done]))
  {
    forall k, id | 0 <= k < p.done + 1 && p.jobs[k].lo <= id <= p.jobs[k].hi ensures id in published + IdSet(p.jobs[p.done]) {
      InIds(p.jobs[k].lo, p.jobs[k].hi, id);
    }
  }

  lemma PublisherStep(s: Sweep, e: SweepStep, initial: nat, pid: nat)
    requires SweepInv(s, initial) && CanStep(s, e) && pid in Stepped(s, e).publishers
    ensures PublisherInv(Stepped(s, e).publishers[pid], Stepped(s, e).published)
  {
    if pid in s.publishers && (e.Begin? ==> e.pid != pid) {
      assert PublisherInv(s.publishers[pid], s.published);
      if e.PublishNext? && pid == e.pid {
        JobPublished(s.publishers[pid], s.published);
      }
    } else {
      WrapSmall(s.cursor + e.count - 1);
    }
  }

  /**
   With any number of concurrent, failing and crashing publishers the cursor never
   moves backwards and every id between its first value and its present one has
   been published.
   */
  lemma {:induction false} CursorFollowsPublishing(states: seq<Sweep>, steps: seq<SweepStep>, initial: nat, i: nat, j: nat)
    requires IsSweep(states, steps, initial) && initial <= MAX_ID && i <= j < |states|
    ensures SweepInv(states[j], initial)
    ensures initial <= states[i].cursor <= states[j].cursor <= MAX_ID
    ensures forall id :: initial <= id < states[j].cursor ==> id in states[j].published
    decreases j
  {
    if j > 0 {
      CursorFollowsPublishing(states, steps, initial, if i < j then i else i - 1, j - 1);
      SweepStepKeepsInv(states[j - 1], steps[j - 1], initial);
    }
  }
}
