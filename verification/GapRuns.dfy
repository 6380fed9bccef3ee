/**
 Gap filling over whole runs: any number of publishers that read the cursor, rewind
 it, scan, publish and move it, each at its own pace, while characters are stored.
 */
module GapRuns {
  import opened IdSweep
  import opened GapFill

  /** How far one publisher is: it read a cursor beyond the highest id; it knows where to scan; it has jobs to publish. */
  datatype Worker =
    | Beyond(at: nat, maxId: nat)
    | Scanning(base: nat, maxId: nat)
    | Publishing(base: nat, jobs: seq<Range>, done: nat)

  /** `lap` is where the cursor started its present lap: its first value, or 0 once it was rewound. */
  datatype Fill = Fill(cursor: nat, lap: nat, stored: set<nat>, workers: map<nat, Worker>, published: set<nat>)

  datatype FillStep =
    | Store(id: nat)
    | Begin(pid: nat, maxId: nat)
    | Rewind(pid: nat)
    | Scan(pid: nat, count: nat, gaps: seq<Range>, jobs: seq<Range>)
    | PublishNext(pid: nat)
    | MoveCursor(pid: nat)
    | Quit(pid: nat)

  function Truncated(jobs: seq<Range>, count: nat): seq<Range> {
    if |jobs| > count then jobs[..count] else jobs
  }

  ghost predicate CanStep(s: Fill, e: FillStep) {
    match e
    case Store(_) => true
    case Begin(pid, maxId) => pid !in s.workers && 0 < maxId <= MAX_ID
    case Rewind(pid) => pid in s.workers && s.workers[pid].Beyond?
    case Scan(pid, count, gaps, jobs) =>
      && pid in s.workers && s.workers[pid].Scanning? && 0 < count
      && FirstGaps(s.stored, s.workers[pid].base, s.workers[pid].maxId, count, gaps) && JobsFor(jobs, gaps)
    case PublishNext(pid) =>
      pid in s.workers && s.workers[pid].Publishing? && s.workers[pid].done < |s.workers[pid].jobs|
    case MoveCursor(pid) =>
      pid in s.workers && s.workers[pid].Publishing? && 0 < s.workers[pid].done <= |s.workers[pid].jobs|
    case Quit(pid) => pid in s.workers
  }

  function Stepped(s: Fill, e: FillStep): Fill
    requires !e.Store? && !e.Begin? ==> e.pid in s.workers
    requires e.Rewind? ==> s.workers[e.pid].Beyond?
    requires e.Scan? ==> s.workers[e.pid].Scanning?
    requires e.PublishNext? ==> s.workers[e.pid].Publishing? && s.workers[e.pid].done < |s.workers[e.pid].jobs|
    requires e.MoveCursor? ==> s.workers[e.pid].Publishing? && 0 < s.workers[e.pid].done <= |s.workers[e.pid].jobs|
  {
    match e
    case Store(id) => s.(stored := s.stored + {id})
    case Begin(pid, maxId) =>
      s.(workers := s.workers[pid := if s.cursor >= maxId then Beyond(s.cursor, maxId) else Scanning(s.cursor, maxId)])
    case Rewind(pid) =>
      var w := s.workers[pid];
      s.(workers := s.workers[pid := Scanning(0, w.maxId)],
      cursor := if s.cursor == w.at then 0 else s.cursor,
      lap := if s.cursor == w.at then 0 else s.lap)
    case Scan(pid, count, _, jobs) =>
      s.(workers := s.workers[pid := Publishing(s.workers[pid].base, Truncated(jobs, count), 0)])
    case PublishNext(pid) =>
      var w := s.workers[pid];
      s.(workers := s.workers[pid := w.(done := w.done + 1)], published := s.published + IdSet(w.jobs[w.done]))
    case MoveCursor(pid) =>
      var w := s.workers[pid];
      s.(workers := s.workers - {pid}, cursor := if s.cursor == w.base then w.jobs[w.done - 1].hi else s.cursor)
    case Quit(pid) => s.(workers := s.workers - {pid})
  }

  ghost predicate IsRun(states: seq<Fill>, steps: seq<FillStep>, initial: nat) {
    && |states| == |steps| + 1
    && states[0].cursor == initial && states[0].lap == initial && states[0].workers == map[] && states[0].published == {}
    && forall k :: 0 <= k < |steps| ==> CanStep(states[k], steps[k]) && states[k + 1] == Stepped(states[k], steps[k])
  }

  // ----- the invariant

  /** Up to the end of each of its jobs, a publisher's jobs ask for all that is not stored above its base. */
  ghost predicate Complete(base: nat, jobs: seq<Range>, stored: set<nat>) {
    forall n: nat, id: nat :: 0 < n <= |jobs| && base < id <= jobs[n - 1].hi ==> id in stored || Covers(jobs[..n], id)
  }

  ghost predicate WorkerInv(w: Worker, stored: set<nat>, published: set<nat>) {
    w.Publishing? ==>
      && w.done <= |w.jobs| && Complete(w.base, w.jobs, stored)
      && (forall k :: 0 <= k < |w.jobs| ==> w.base < w.jobs[k].hi)
      && (forall id: nat :: Covers(w.jobs[..w.done], id) ==> id in published)
  }

  ghost predicate Inv(s: Fill) {
    && s.lap <= s.cursor
    && (forall id :: s.lap < id <= s.cursor ==> id in s.stored || id in s.published)
    && (forall pid :: pid in s.workers ==> WorkerInv(s.workers[pid], s.stored, s.published))
  }

  lemma ScannedIsComplete(stored: set<nat>, base: nat, maxId: nat, count: nat, gaps: seq<Range>, jobs: seq<Range>)
    requires 0 < count && FirstGaps(stored, base, maxId, count, gaps) && JobsFor(jobs, gaps)
    ensures Complete(base, Truncated(jobs, count), stored)
    ensures forall k :: 0 <= k < |Truncated(jobs, count)| ==> base < Truncated(jobs, count)[k].hi
  {
    var cut := Truncated(jobs, count);
    forall k | 0 <= k < |jobs| ensures base < jobs[k].hi <= maxId {
      JobInGap(stored, base, maxId, gaps, jobs, k);
    }
    forall n: nat, id: nat | 0 < n <= |cut| && base < id <= cut[n - 1].hi ensures id in stored || Covers(cut[..n], id) {
      assert cut[..n] == jobs[..n] && cut[n - 1] == jobs[n - 1];
      if id !in stored {
        CursorSkipsNothing(stored, base, maxId, count, gaps, jobs, n, id);
      }
    }
  }

  lemma JobInGap(stored: set<nat>, base: nat, maxId: nat, gaps: seq<Range>, jobs: seq<Range>, k: nat)
    requires k < |jobs| && JobsFor(jobs, gaps) && forall m :: 0 <= m < |gaps| ==> IsGap(stored, base, maxId, gaps[m])
    ensures base < jobs[k].hi <= maxId
  {
    assert Inside(jobs[k], jobs[k].hi);
    assert Covers(jobs, jobs[k].hi);
    var m :| 0 <= m < |gaps| && Inside(gaps[m], jobs[k].hi);
    assert IsGap(stored, base, maxId, gaps[m]);
  }

  lemma PublishedOneMore(w: Worker, published: set<nat>, id: nat)
    requires w.Publishing? && w.done < |w.jobs| && forall x: nat :: Covers(w.jobs[..w.done], x) ==> x in published
    requires Covers(w.jobs[..w.done + 1], id)
    ensures id in published + IdSet(w.jobs[w.done])
  {
    assert w.jobs[..w.done + 1] == w.jobs[..w.done] + [w.jobs[w.done]];
    CoversAppend(w.jobs[..w.done], w.jobs[w.done], id);
    if Inside(w.jobs[w.done], id) {
      InIds(w.jobs[w.done].lo, w.jobs[w.done].hi, id);
    }
  }

  lemma WorkerStep(s: Fill, e: FillStep, pid: nat)
    requires Inv(s) && CanStep(s, e) && pid in Stepped(s, e).workers
    ensures WorkerInv(Stepped(s, e).workers[pid], Stepped(s, e).stored, Stepped(s, e).published)
  {
    if e.Scan? && e.pid == pid {
      var w := s.workers[pid];
      ScannedIsComplete(s.stored, w.base, w.maxId, e.count, e.gaps, e.jobs);
    } else if e.PublishNext? && e.pid == pid {
      var w := s.workers[pid];
      forall id: nat | Covers(w.jobs[..w.done + 1], id) ensures id in Stepped(s, e).published {
        PublishedOneMore(w, s.published, id);
      }
    } else if pid in s.workers {
      assert WorkerInv(s.workers[pid], s.stored, s.published);
    }
  }

  lemma CursorStep(s: Fill, e: FillStep, id: nat)
    requires Inv(s) && CanStep(s, e) && Stepped(s, e).lap < id <= Stepped(s, e).cursor
    ensures id in Stepped(s, e).stored || id in Stepped(s, e).published
  {
    if e.MoveCursor? && s.cursor < id {
      var w := s.workers[e.pid];
      assert WorkerInv(w, s.stored, s.published);
      assert id in s.stored || Covers(w.jobs[..w.done], id);
    }
  }

  lemma StepKeepsInv(s: Fill, e: FillStep)
    requires Inv(s) && CanStep(s, e)
    ensures Inv(Stepped(s, e))
  {
    var s' := Stepped(s, e);
    forall pid | pid in s'.workers ensures WorkerInv(s'.workers[pid], s'.stored, s'.published) {
      WorkerStep(s, e, pid);
    }
    forall id | s'.lap < id <= s'.cursor ensures id in s'.stored || id in s'.published {
      CursorStep(s, e, id);
    }
    if e.MoveCursor? {
      assert WorkerInv(s.workers[e.pid], s.stored, s.published);
    }
  }

  /**
   With any number of concurrent, failing and crashing publishers, every id between
   the start of the cursor's lap and the cursor is stored or has been published.
   */
  lemma {:induction false} GapCursorFollowsPublishing(states: seq<Fill>, steps: seq<FillStep>, initial: nat, k: nat)
    requires IsRun(states, steps, initial) && k < |states|
    ensures Inv(states[k])
    ensures forall id :: states[k].lap < id <= states[k].cursor ==> id in states[k].stored || id in states[k].published
  {
    if k > 0 {
      GapCursorFollowsPublishing(states, steps, initial, k - 1);
      StepKeepsInv(states[k - 1], steps[k - 1]);
    }
  }

  /**
   The cursor falls only by a rewind, to zero, and only from a value at or beyond
   the highest id that the rewinding publisher saw; the lap that ends there left
   nothing out.
   */
  lemma CursorFallsOnlyByRewind(states: seq<Fill>, steps: seq<FillStep>, initial: nat, k: nat)
    requires IsRun(states, steps, initial) && k < |steps| && states[k + 1].cursor < states[k].cursor
    ensures steps[k].Rewind? && states[k + 1].cursor == 0 && states[k + 1].lap == 0
    ensures states[k].workers[steps[k].pid].maxId <= states[k].cursor
    ensures forall id :: states[k].lap < id <= states[k].workers[steps[k].pid].maxId ==> id in states[k].stored || id in states[k].published
  {
    GapCursorFollowsPublishing(states, steps, initial, k);
    OnlyRewindFalls(states[k], steps[k]);
    BeyondStaysBeyond(states, steps, initial, k, steps[k].pid);
  }

  lemma OnlyRewindFalls(s: Fill, e: FillStep)
    requires Inv(s) && CanStep(s, e)
    ensures Stepped(s, e).cursor < s.cursor ==>
              e.Rewind? && s.workers[e.pid].at == s.cursor && Stepped(s, e).cursor == 0 && Stepped(s, e).lap == 0
  {
    if e.MoveCursor? {
      assert WorkerInv(s.workers[e.pid], s.stored, s.published);
    }
  }

  lemma {:induction false} BeyondStaysBeyond(states: seq<Fill>, steps: seq<FillStep>, initial: nat, k: nat, pid: nat)
    requires IsRun(states, steps, initial) && k < |states| && pid in states[k].workers && states[k].workers[pid].Beyond?
    ensures states[k].workers[pid].maxId <= states[k].workers[pid].at
  {
    if k > 0 && pid in states[k - 1].workers {
      BeyondStaysBeyond(states, steps, initial, k - 1, pid);
    }
  }

  // ----- what is published was missing

  /** The scan behind a publisher's jobs. */
  lemma {:induction false} ScanOf(states: seq<Fill>, steps: seq<FillStep>, initial: nat, k: nat, pid: nat) returns (m: nat)
    requires IsRun(states, steps, initial) && k < |states| && pid in states[k].workers && states[k].workers[pid].Publishing?
    ensures m < k && steps[m].Scan? && steps[m].pid == pid
    ensures states[k].workers[pid].jobs == Truncated(steps[m].jobs, steps[m].count)
  {
    m := k - 1;
    if !(steps[k - 1].Scan? && steps[k - 1].pid == pid) {
      m := ScanOf(states, steps, initial, k - 1, pid);
    }
  }

  /** Every id that was ever published was found missing by the scan of the publisher that published it. */
  lemma {:induction false} PublishedWasMissing(states: seq<Fill>, steps: seq<FillStep>, initial: nat, k: nat, id: nat) returns (m: nat)
    requires IsRun(states, steps, initial) && k < |states| && id in states[k].published
    ensures m < k && steps[m].Scan? && id !in states[m].stored
  {
    var s, e := states[k - 1], steps[k - 1];
    if id in s.published {
      m := PublishedWasMissing(states, steps, initial, k - 1, id);
    } else {
      m := ScanOf(states, steps, initial, k - 1, e.pid);
      var w := s.workers[e.pid];
      InIds(w.jobs[w.done].lo, w.jobs[w.done].hi, id);
      ScannedIsMissing(states[m], steps[m], w.done, id);
    }
  }

  lemma ScannedIsMissing(s: Fill, e: FillStep, n: nat, id: nat)
    requires CanStep(s, e) && e.Scan? && n < |Truncated(e.jobs, e.count)| && Inside(Truncated(e.jobs, e.count)[n], id)
    ensures id !in s.stored
  {
    assert Inside(e.jobs[n], id);
    assert Covers(e.jobs, id);
    var m :| 0 <= m < |e.gaps| && Inside(e.gaps[m], id);
    assert IsGap(s.stored, s.workers[e.pid].base, s.workers[e.pid].maxId, e.gaps[m]);
  }
}
