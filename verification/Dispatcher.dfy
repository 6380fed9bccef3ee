/**
 The scan dispatcher: one admission pass over the three queues and the return of
 finished checks.  The store is a script of arbitrary answers, so every claim may
 fail, come back empty or come back short.
 */
module Dispatcher {
  import opened Scheduling
  import opened ProxyRows
  import opened Admission
  import opened Custody

  datatype Answer = Failed | Rows(leases: seq<Lease>)

  /** The store as the dispatcher sees it: what it will answer, claim by claim. */
  class ClaimSource {
    var script: seq<Answer>

    constructor (script: seq<Answer>)
      ensures this.script == script
    {
      this.script := script;
    }

    /** Answers one claim, never with more rows than asked for. */
    method Claim(limit: int) returns (a: Answer)
      requires limit > 0
      modifies this
      ensures a.Rows? ==> |a.leases| <= limit
    {
      if script == [] {
        return Rows([]);
      }
      a := script[0];
      script := script[1..];
      if a.Rows? && |a.leases| > limit {
        a := Rows(a.leases[..limit]);
      }
    }
  }

  /** One claim of a pass, with the counters as they were before it. */
  datatype Call = Call(queue: int, limit: int, answer: Answer, free: int, inFlight: seq<int>)
  {
    function Granted(): int {
      if answer.Rows? then |answer.leases| else 0
    }
    predicate Valid() {
      && 0 <= queue < 3 && |inFlight| == 3
      && 1 <= limit <= free
      && Granted() <= limit
    }
  }

  // ----- what a pass promises

  /** The free slots and the work in flight per queue. */
  datatype Counters = Counters(free: int, inFlight: seq<int>)

  function At(c: Call): Counters {
    Counters(c.free, c.inFlight)
  }

  function After(c: Call): Counters
    requires c.Valid()
  {
    Counters(c.free - c.Granted(), c.inFlight[c.queue := c.inFlight[c.queue] + c.Granted()])
  }

  ghost predicate AllValid(pass: seq<Call>) {
    forall k :: 0 <= k < |pass| ==> pass[k].Valid()
  }

  predicate Linked(c: Call, d: Call)
    requires c.Valid()
  {
    After(c) == At(d)
  }

  /** The calls of a pass lead from the counters `start` to the counters `now`. */
  ghost predicate Chained(pass: seq<Call>, start: Counters, now: Counters) {
    && AllValid(pass)
    && (pass == [] ==> now == start)
    && (pass != [] ==> At(pass[0]) == start && After(pass[|pass| - 1]) == now)
    && (forall k, m :: 0 <= k < |pass| && m == k + 1 < |pass| ==> Linked(pass[k], pass[m]))
  }

  /** Queue `q` has answered with fewer rows than it was asked for: nothing more is due there. */
  ghost predicate Exhausted(pass: seq<Call>, q: int) {
    exists m :: 0 <= m < |pass| && pass[m].queue == q && pass[m].answer.Rows? && pass[m].Granted() < pass[m].limit
  }

  ghost predicate ReportedEmpty(pass: seq<Call>, q: int) {
    exists m :: 0 <= m < |pass| && pass[m].queue == q && pass[m].answer == Rows([])
  }

  /** Before call `k` queue `q` is below its reservation and may still have due rows. */
  ghost predicate Waits(pass: seq<Call>, k: nat, targets: seq<int>, q: int)
    requires k < |pass| && pass[k].Valid() && |targets| == 3 && 0 <= q < 3
  {
    pass[k].inFlight[q] < targets[q] && !Exhausted(pass[..k], q)
  }

  /** Call `k` goes to the lowest queue that waits and asks for its deficit, or no queue waits. */
  ghost predicate InTurn(pass: seq<Call>, k: nat, targets: seq<int>)
    requires k < |pass| && |targets| == 3 && AllValid(pass)
  {
    forall q :: 0 <= q < 3 && Waits(pass, k, targets, q) ==>
                  && pass[k].queue <= q
                  && Waits(pass, k, targets, pass[k].queue)
                  && pass[k].limit == Min(targets[pass[k].queue] - pass[k].inFlight[pass[k].queue], pass[k].free)
  }

  ghost predicate Prioritized(pass: seq<Call>, targets: seq<int>)
    requires |targets| == 3 && AllValid(pass)
  {
    forall k :: 0 <= k < |pass| ==> InTurn(pass, k, targets)
  }

  ghost predicate NoFailure(pass: seq<Call>) {
    forall k :: 0 <= k < |pass| ==> pass[k].answer.Rows?
  }

  ghost predicate OnlyLastFails(pass: seq<Call>) {
    pass != [] ==> NoFailure(pass[..|pass| - 1])
  }

  /** The reservation claims of a pass: each for a queue that waits, for its whole deficit, in order of the queues. */
  ghost predicate Reserved(fill: seq<Call>, targets: seq<int>) {
    && |targets| == 3 && AllValid(fill)
    && (forall k :: 0 <= k < |fill| ==>
                      && Waits(fill, k, targets, fill[k].queue)
                      && fill[k].limit == Min(targets[fill[k].queue] - fill[k].inFlight[fill[k].queue], fill[k].free))
    && (forall i, j :: 0 <= i < j < |fill| ==> fill[i].queue < fill[j].queue)
  }

  /** The reservation claims so far: they lead to the present counters, in order of priority, and only the last can have failed. */
  ghost predicate Orderly(fill: seq<Call>, start: Counters, now: Counters, targets: seq<int>) {
    && Chained(fill, start, now)
    && Reserved(fill, targets) && Prioritized(fill, targets)
    && OnlyLastFails(fill)
  }

  /** No queue waits any more, or there is nothing to give. */
  ghost predicate Settled(pass: seq<Call>, now: Counters, targets: seq<int>, queues: int)
    requires |now.inFlight| == 3 && |targets| == 3 && 0 <= queues <= 3
  {
    now.free == 0 || forall q :: 0 <= q < queues ==> now.inFlight[q] >= targets[q] || Exhausted(pass, q)
  }

  ghost predicate Marks(empty: seq<bool>, pass: seq<Call>) {
    |empty| == 3 && forall q :: 0 <= q < 3 ==> (empty[q] <==> ReportedEmpty(pass, q))
  }

  /** What the calls of a pass put on the desk. */
  function Replay(d: Desk, pass: seq<Call>): (r: Desk)
    requires |d.inFlight| == 3 && forall k :: 0 <= k < |pass| ==> 0 <= pass[k].queue < 3
    ensures |r.inFlight| == 3
  {
    if pass == [] then d
    else
      var before, c := Replay(d, pass[..|pass| - 1]), pass[|pass| - 1];
      if c.answer.Rows? then TakeAll(before, c.queue, c.answer.leases) else before
  }

  /** Without its last call a chain leads to the counters before that call. */
  lemma ChainPrefix(pass: seq<Call>, c: Call, start: Counters, now: Counters)
    requires Chained(pass + [c], start, now)
    ensures c.Valid() && After(c) == now && Chained(pass, start, At(c))
  {
    var p := pass + [c];
    assert p[|pass|] == c && p[|p| - 1] == c;
    forall k | 0 <= k < |pass| ensures pass[k].Valid() {
      assert p[k] == pass[k];
    }
    if pass != [] {
      assert Linked(p[|pass| - 1], p[|pass|]);
      assert p[0] == pass[0];
    }
    forall k, m | 0 <= k < |pass| && m == k + 1 < |pass| ensures Linked(pass[k], pass[m]) {
      assert Linked(p[k], p[m]);
    }
  }

  lemma Unlast<T>(s: seq<T>)
    requires s != []
    ensures s == s[..|s| - 1] + [s[|s| - 1]]
  {
  }

  /** The claims of a pass, failed ones included, keep capacity and leases conserved. */
  lemma {:induction false} ReplayKeepsBalance(d: Desk, pass: seq<Call>, concurrency: int, now: Counters)
    requires Balanced(d, concurrency) && Chained(pass, Counters(d.free, d.inFlight), now)
    ensures Balanced(Replay(d, pass), concurrency) && Replay(d, pass).free == now.free && Replay(d, pass).inFlight == now.inFlight
  {
    if pass != [] {
      var before, c := pass[..|pass| - 1], pass[|pass| - 1];
      Unlast(pass);
      ChainPrefix(before, c, Counters(d.free, d.inFlight), now);
      ReplayKeepsBalance(d, before, concurrency, At(c));
      CallKeepsBalance(Replay(d, before), c, concurrency);
    }
  }

  lemma CallKeepsBalance(d: Desk, c: Call, concurrency: int)
    requires Balanced(d, concurrency) && c.Valid() && At(c) == Counters(d.free, d.inFlight)
    ensures var r := if c.answer.Rows? then TakeAll(d, c.queue, c.answer.leases) else d;
            Balanced(r, concurrency) && After(c) == Counters(r.free, r.inFlight)
  {
    if c.answer.Rows? {
      TakeAllKeepsBalance(d, concurrency, c.queue, c.answer.leases);
    } else {
      assert c.inFlight[c.queue := c.inFlight[c.queue] + 0] == c.inFlight;
    }
  }

  // ----- one more call

  lemma ExtendChain(pass: seq<Call>, c: Call, start: Counters)
    requires Chained(pass, start, At(c)) && c.Valid()
    ensures Chained(pass + [c], start, After(c))
  {
    var p := pass + [c];
    forall k, m | 0 <= k < |p| && m == k + 1 < |p| ensures p[k].Valid() && Linked(p[k], p[m]) {
      if m < |pass| {
        assert Linked(pass[k], pass[m]);
      }
    }
  }

  lemma ExtendExhausted(pass: seq<Call>, c: Call, q: int)
    ensures Exhausted(pass + [c], q) <==>
            Exhausted(pass, q) || (c.queue == q && c.answer.Rows? && c.Granted() < c.limit)
  {
    var p := pass + [c];
    assert p[|pass|] == c;
    if Exhausted(pass, q) {
      var m :| 0 <= m < |pass| && pass[m].queue == q && pass[m].answer.Rows? && pass[m].Granted() < pass[m].limit;
      assert p[m] == pass[m];
    }
  }

  lemma ExtendMarks(pass: seq<Call>, c: Call, empty: seq<bool>)
    requires Marks(empty, pass) && 0 <= c.queue < 3
    ensures Marks(if c.answer == Rows([]) then empty[c.queue := true] else empty, pass + [c])
  {
    var p := pass + [c];
    assert p[|pass|] == c;
    forall q | 0 <= q < 3 && ReportedEmpty(pass, q) ensures ReportedEmpty(p, q) {
      var m :| 0 <= m < |pass| && pass[m].queue == q && pass[m].answer == Rows([]);
      assert p[m] == pass[m];
    }
  }

  /** A call is judged by what came before it, so that a longer pass judges it alike. */
  lemma TurnOfPrefix(pass: seq<Call>, more: seq<Call>, k: nat, targets: seq<int>)
    requires |targets| == 3 && AllValid(pass) && AllValid(pass + more) && k < |pass|
    ensures InTurn(pass + more, k, targets) <==> InTurn(pass, k, targets)
  {
    assert (pass + more)[..k] == pass[..k] && (pass + more)[k] == pass[k];
    assert forall q :: 0 <= q < 3 ==> (Waits(pass + more, k, targets, q) <==> Waits(pass, k, targets, q));
  }

  lemma PriorityOfPrefix(pass: seq<Call>, more: seq<Call>, targets: seq<int>)
    requires |targets| == 3 && AllValid(pass) && AllValid(pass + more) && Prioritized(pass + more, targets)
    ensures Prioritized(pass, targets)
  {
    forall k | 0 <= k < |pass| ensures InTurn(pass, k, targets) {
      assert InTurn(pass + more, k, targets);
      TurnOfPrefix(pass, more, k, targets);
    }
  }

  lemma PriorityOfSlice(pass: seq<Call>, n: nat, targets: seq<int>)
    requires |targets| == 3 && AllValid(pass) && Prioritized(pass, targets) && n <= |pass|
    ensures AllValid(pass[..n]) && Prioritized(pass[..n], targets)
  {
    assert pass == pass[..n] + pass[n..];
    PriorityOfPrefix(pass[..n], pass[n..], targets);
  }

  /** A pass stays prioritized by a call to a queue that waits while no lower queue does, or by any call when none waits. */
  lemma ExtendPriority(pass: seq<Call>, c: Call, targets: seq<int>)
    requires |targets| == 3 && c.Valid() && AllValid(pass)
    requires Prioritized(pass, targets)
    requires || Settled(pass, At(c), targets, 3)
             || (&& c.inFlight[c.queue] < targets[c.queue] && !Exhausted(pass, c.queue)
                 && Settled(pass, At(c), targets, c.queue)
                 && c.limit == Min(targets[c.queue] - c.inFlight[c.queue], c.free))
    ensures AllValid(pass + [c]) && Prioritized(pass + [c], targets)
  {
    var p := pass + [c];
    forall k | 0 <= k < |p| ensures InTurn(p, k, targets) {
      if k < |pass| {
        TurnOfPrefix(pass, [c], k, targets);
      } else {
        assert p[..k] == pass;
      }
    }
  }

  lemma ExtendReserved(fill: seq<Call>, c: Call, targets: seq<int>)
    requires Reserved(fill, targets) && c.Valid() && forall m :: 0 <= m < |fill| ==> fill[m].queue < c.queue
    requires c.inFlight[c.queue] < targets[c.queue] && c.limit == Min(targets[c.queue] - c.inFlight[c.queue], c.free)
    ensures Reserved(fill + [c], targets)
  {
    var p := fill + [c];
    forall k | 0 <= k < |p|
      ensures Waits(p, k, targets, p[k].queue) && p[k].limit == Min(targets[p[k].queue] - p[k].inFlight[p[k].queue], p[k].free)
    {
      if k < |fill| {
        assert p[..k] == fill[..k];
        assert Waits(fill, k, targets, fill[k].queue);
      } else {
        assert p[..k] == fill;
      }
    }
  }

  /** After filling queue `c.queue`, that queue and all before it are settled. */
  lemma FillSettles(pass: seq<Call>, c: Call, targets: seq<int>)
    requires |targets| == 3 && c.Valid() && c.answer.Rows?
    requires Settled(pass, At(c), targets, c.queue)
    requires c.limit == Min(targets[c.queue] - c.inFlight[c.queue], c.free)
    ensures Settled(pass + [c], After(c), targets, c.queue + 1)
  {
    forall q | 0 <= q <= c.queue {
      ExtendExhausted(pass, c, q);
    }
  }

  lemma StaysFilled(pass: seq<Call>, now: Counters, targets: seq<int>, queue: int)
    requires |now.inFlight| == 3 && |targets| == 3 && 0 <= queue < 3 && Settled(pass, now, targets, queue)
    requires now.free == 0 || now.inFlight[queue] >= targets[queue]
    ensures Settled(pass, now, targets, queue + 1)
  {
  }

  /** Once settled, a pass stays settled. */
  lemma StaysSettled(pass: seq<Call>, c: Call, targets: seq<int>)
    requires |targets| == 3 && c.Valid()
    requires Settled(pass, At(c), targets, 3)
    ensures Settled(pass + [c], After(c), targets, 3)
  {
    forall q | 0 <= q < 3 {
      ExtendExhausted(pass, c, q);
    }
  }

  lemma ExtendOrderly(fill: seq<Call>, c: Call, start: Counters, targets: seq<int>)
    requires c.Valid() && Orderly(fill, start, At(c), targets) && NoFailure(fill)
    requires c.inFlight[c.queue] < targets[c.queue] && forall m :: 0 <= m < |fill| ==> fill[m].queue < c.queue
    requires Settled(fill, At(c), targets, c.queue)
    requires c.limit == Min(targets[c.queue] - c.inFlight[c.queue], c.free)
    ensures Orderly(fill + [c], start, After(c), targets)
  {
    ExtendChain(fill, c, start);
    ExtendPriority(fill, c, targets);
    ExtendReserved(fill, c, targets);
    ExtendFailures(fill, c);
  }

  lemma ExtendFailures(pass: seq<Call>, c: Call)
    requires NoFailure(pass)
    ensures OnlyLastFails(pass + [c]) && (c.answer.Rows? <==> NoFailure(pass + [c]))
  {
    assert (pass + [c])[..|pass + [c]| - 1] == pass;
    assert (pass + [c])[|pass|] == c;
  }

  /** The reservation claims of the first `queues` queues, with those marked that reported empty; unless one failed, these queues are settled. */
  ghost predicate Filled(fill: seq<Call>, start: Counters, now: Counters, targets: seq<int>, empty: seq<bool>, queues: int) {
    && Orderly(fill, start, now, targets) && Marks(empty, fill)
    && |now.inFlight| == 3 && 0 <= queues <= 3
    && (forall m :: 0 <= m < |fill| ==> fill[m].queue < queues)
    && (NoFailure(fill) ==> Settled(fill, now, targets, queues))
  }

  lemma FillStep(fill: seq<Call>, c: Call, start: Counters, targets: seq<int>, empty: seq<bool>)
    requires c.Valid() && Filled(fill, start, At(c), targets, empty, c.queue) && NoFailure(fill)
    requires c.inFlight[c.queue] < targets[c.queue]
    requires c.limit == Min(targets[c.queue] - c.inFlight[c.queue], c.free)
    ensures Filled(fill + [c], start, After(c), targets, if c.answer == Rows([]) then empty[c.queue := true] else empty, c.queue + 1)
    ensures c.answer.Rows? <==> NoFailure(fill + [c])
  {
    ExtendOrderly(fill, c, start, targets);
    ExtendFailures(fill, c);
    ExtendMarks(fill, c, empty);
    if c.answer.Rows? {
      FillSettles(fill, c, targets);
    }
  }

  // ----- lending

  /** The queue after queue `q`, going round. */
  function Round(q: int): (next: int)
    requires 0 <= q < 3
    ensures 0 <= next < 3
  {
    if q == 2 then 0 else q + 1
  }

  /** Position `step` of the lending rotation after queue `last`. */
  function Rotation(last: int, step: int): (q: int)
    requires 0 <= last < 3 && 0 <= step < 3
    ensures 0 <= q < 3
  {
    var q := last + 1 + step;
    if q < 3 then q else q - 3
  }

  /** It is the remainder by three, and three steps go once round. */
  lemma RotationIsModulo(last: int, step: int)
    requires 0 <= last < 3 && 0 <= step < 3
    ensures Rotation(last, step) == (last + 1 + step) % 3
    ensures Rotation(last, 0) == Round(last) && Rotation(last, 1) == Round(Round(last)) && Rotation(last, 2) == last
  {
  }

  /** The queue the lending rotation turns to after queue `last`, skipping those that reported empty; -1 if all did. */
  function Lender(last: int, empty: seq<bool>): (queue: int)
    requires 0 <= last < 3 && |empty| == 3
    ensures -1 <= queue < 3
    ensures queue == -1 <==> empty == [true, true, true]
    ensures queue >= 0 ==> !empty[queue]
  {
    if !empty[Rotation(last, 0)] then Rotation(last, 0)
    else if !empty[Rotation(last, 1)] then Rotation(last, 1)
    else if !empty[Rotation(last, 2)] then Rotation(last, 2)
    else -1
  }

  /** The last queue that the rotation served, starting from `last`. */
  function BorrowerAfter(last: int, lent: seq<Call>): (b: int) {
    if lent == [] then last
    else if lent[|lent| - 1].answer.Rows? then lent[|lent| - 1].queue
    else BorrowerAfter(last, lent[..|lent| - 1])
  }

  ghost function Emptied(pass: seq<Call>): (e: seq<bool>)
    ensures Marks(e, pass)
  {
    [ReportedEmpty(pass, 0), ReportedEmpty(pass, 1), ReportedEmpty(pass, 2)]
  }

  /** Lending claim `k` asks for one row of a queue that has not reported empty, and in a large worker of the next one in rotation. */
  ghost predicate TakesTurn(fill: seq<Call>, lent: seq<Call>, k: nat, last: int, small: bool)
    requires k < |lent|
  {
    && lent[k].limit == 1 && 0 <= lent[k].queue < 3
    && !ReportedEmpty(fill + lent[..k], lent[k].queue)
    && (!small ==>
          && 0 <= BorrowerAfter(last, lent[..k]) < 3
          && lent[k].queue == Lender(BorrowerAfter(last, lent[..k]), Emptied(fill + lent[..k])))
  }

  ghost predicate Lends(fill: seq<Call>, lent: seq<Call>, last: int, small: bool) {
    OnlyLastFails(lent) && forall k :: 0 <= k < |lent| ==> TakesTurn(fill, lent, k, last, small)
  }

  /** The queues that have not reported empty, as the round robin of a small worker sees them. */
  ghost function OpenTo(pass: seq<Call>): (a: seq<bool>)
    ensures |a| == 3
  {
    [!ReportedEmpty(pass, 0), !ReportedEmpty(pass, 1), !ReportedEmpty(pass, 2)]
  }

  /** What the round robin saw on each of the lending claims. */
  ghost function Seen(fill: seq<Call>, lent: seq<Call>): (h: seq<seq<bool>>)
    ensures |h| == |lent| && forall k :: 0 <= k < |h| ==> |h[k]| == 3
  {
    if lent == [] then [] else Seen(fill, lent[..|lent| - 1]) + [OpenTo(fill + lent[..|lent| - 1])]
  }

  /** Each lending claim of a small worker goes to the winner of the round robin that started with `credits`. */
  ghost predicate Chooses(fill: seq<Call>, lent: seq<Call>, credits: seq<int>, w: seq<int>) {
    && |credits| == 3 && |w| == 3
    && forall k :: 0 <= k < |lent| ==>
                     lent[k].queue == Winner(CreditsAfter(credits, Seen(fill, lent[..k]), w), OpenTo(fill + lent[..k]), w)
  }

  lemma ExtendChooses(fill: seq<Call>, lent: seq<Call>, c: Call, credits: seq<int>, w: seq<int>)
    requires Chooses(fill, lent, credits, w)
    requires c.queue == Winner(CreditsAfter(credits, Seen(fill, lent), w), OpenTo(fill + lent), w)
    ensures Chooses(fill, lent + [c], credits, w)
    ensures CreditsAfter(credits, Seen(fill, lent + [c]), w) == NextCredits(CreditsAfter(credits, Seen(fill, lent), w), OpenTo(fill + lent), w)
  {
    var l := lent + [c];
    assert l[..|l| - 1] == lent;
    var h := Seen(fill, lent);
    assert Seen(fill, l) == h + [OpenTo(fill + lent)];
    assert Seen(fill, l)[..|h|] == h;
    forall k | 0 <= k < |l| ensures l[k].queue == Winner(CreditsAfter(credits, Seen(fill, l[..k]), w), OpenTo(fill + l[..k]), w) {
      if k < |lent| {
        assert l[..k] == lent[..k];
      } else {
        assert l[..k] == lent;
      }
    }
  }

  /** `borrower` and `now` are the admission state that the lending claims of a pass lead to from `last` and `credits`. */
  ghost predicate Tracks(small: bool, borrower: int, now: seq<int>, fill: seq<Call>, lent: seq<Call>, last: int, credits: seq<int>, w: seq<int>) {
    && |credits| == 3 && |w| == 3
    && (!small ==> borrower == BorrowerAfter(last, lent) && now == credits)
    && (small ==> borrower == last && Chooses(fill, lent, credits, w) && now == CreditsAfter(credits, Seen(fill, lent), w))
  }

  lemma TrackStep(small: bool, borrower: int, now: seq<int>, fill: seq<Call>, lent: seq<Call>, last: int, credits: seq<int>, w: seq<int>,
                  c: Call, next: seq<int>)
    requires Tracks(small, borrower, now, fill, lent, last, credits, w) && |now| == 3
    requires !small ==> next == now
    requires small ==> c.queue == Winner(now, OpenTo(fill + lent), w) && next == NextCredits(now, OpenTo(fill + lent), w)
    ensures Tracks(small, if c.answer.Rows? && !small then c.queue else borrower, next, fill, lent + [c], last, credits, w)
  {
    assert (lent + [c])[..|lent + [c]| - 1] == lent;
    if small {
      ExtendChooses(fill, lent, c, credits, w);
    }
  }

  // ----- the rotation goes round

  lemma ReportsStay(pass: seq<Call>, c: Call, q: int)
    requires ReportedEmpty(pass, q)
    ensures ReportedEmpty(pass + [c], q)
  {
    var m :| 0 <= m < |pass| && pass[m].queue == q && pass[m].answer == Rows([]);
    assert (pass + [c])[m] == pass[m];
  }

  /** The queue served after queue `q`: the next one round that is not in `empty`, `q` itself last. */
  predicate Succeeds(q: int, next: int, empty: seq<bool>)
    requires 0 <= q < 3 && |empty| == 3
  {
    && (!empty[Round(q)] ==> next == Round(q))
    && (empty[Round(q)] && !empty[Round(Round(q))] ==> next == Round(Round(q)))
    && (empty[Round(q)] && empty[Round(Round(q))] ==> next == q)
  }

  lemma LenderAt(last: int, empty: seq<bool>, step: int)
    requires 0 <= last < 3 && |empty| == 3 && 0 <= step < 3 && !empty[Rotation(last, step)]
    requires (step > 0 ==> empty[Rotation(last, 0)]) && (step > 1 ==> empty[Rotation(last, 1)])
    ensures Lender(last, empty) == Rotation(last, step) && Succeeds(last, Rotation(last, step), empty)
  {
    LenderSucceeds(last, empty);
  }

  lemma LenderSucceeds(last: int, empty: seq<bool>)
    requires 0 <= last < 3 && |empty| == 3 && Lender(last, empty) >= 0
    ensures Succeeds(last, Lender(last, empty), empty)
  {
  }

  lemma ThreeGoRound(a: int, b: int, c: int, q: int, empty: seq<bool>, later: seq<bool>)
    requires 0 <= a < 3 && 0 <= b < 3 && 0 <= q < 3 && |empty| == 3 && |later| == 3
    requires Succeeds(a, b, empty) && Succeeds(b, c, later) && !empty[q] && !later[q]
    ensures q == a || q == b || q == c
  {
  }

  /**
   In a large worker each lending claim goes to the next queue round after the one
   served before it, skipping those that reported empty; the first follows the last
   queue served in the pass before.
   */
  lemma RotationGoesRound(fill: seq<Call>, lent: seq<Call>, last: int, k: nat)
    requires Lends(fill, lent, last, false) && 0 <= last < 3 && k < |lent|
    ensures k > 0 ==> 0 <= lent[k - 1].queue < 3
    ensures Succeeds(if k == 0 then last else lent[k - 1].queue, lent[k].queue, Emptied(fill + lent[..k]))
  {
    assert TakesTurn(fill, lent, k, last, false);
    if k > 0 {
      assert TakesTurn(fill, lent, k - 1, last, false);
      assert lent[..|lent| - 1][k - 1].answer.Rows?;
      assert lent[..k][..|lent[..k]| - 1] == lent[..k - 1] && lent[..k][k - 1] == lent[k - 1];
    }
    LenderSucceeds(BorrowerAfter(last, lent[..k]), Emptied(fill + lent[..k]));
  }

  /** Hence every queue that has not reported empty is asked within any three consecutive lending claims. */
  lemma AskedWithinThree(fill: seq<Call>, lent: seq<Call>, last: int, k: nat, q: int)
    requires Lends(fill, lent, last, false) && 0 <= last < 3 && k + 2 < |lent| && 0 <= q < 3
    requires !ReportedEmpty(fill + lent[..k + 2], q)
    ensures lent[k].queue == q || lent[k + 1].queue == q || lent[k + 2].queue == q
  {
    RotationGoesRound(fill, lent, last, k + 1);
    RotationGoesRound(fill, lent, last, k + 2);
    var one, two := fill + lent[..k + 1], fill + lent[..k + 2];
    assert two == one + [lent[k + 1]];
    if ReportedEmpty(one, q) {
      ReportsStay(one, lent[k + 1], q);
    }
    ThreeGoRound(lent[k].queue, lent[k + 1].queue, lent[k + 2].queue, q, Emptied(one), Emptied(two));
  }

  ghost predicate AllEmpty(pass: seq<Call>) {
    forall q :: 0 <= q < 3 ==> ReportedEmpty(pass, q)
  }

  predicate EndsInFailure(pass: seq<Call>) {
    pass != [] && pass[|pass| - 1].answer.Failed?
  }

  lemma ExtendLends(fill: seq<Call>, lent: seq<Call>, c: Call, last: int, small: bool, empty: seq<bool>)
    requires Lends(fill, lent, last, small) && NoFailure(lent) && Marks(empty, fill + lent)
    requires c.limit == 1 && 0 <= c.queue < 3 && !empty[c.queue]
    requires !small ==> 0 <= BorrowerAfter(last, lent) < 3 && c.queue == Lender(BorrowerAfter(last, lent), empty)
    ensures Lends(fill, lent + [c], last, small)
    ensures c.answer.Rows? <==> NoFailure(lent + [c])
    ensures c.answer.Rows? ==> BorrowerAfter(last, lent + [c]) == c.queue
    ensures c.answer.Failed? ==> EndsInFailure(lent + [c])
  {
    var l := lent + [c];
    assert l[..|l| - 1] == lent && l[|lent|] == c;
    forall k | 0 <= k < |l| ensures TakesTurn(fill, l, k, last, small) {
      if k < |lent| {
        assert l[..k] == lent[..k];
        assert TakesTurn(fill, lent, k, last, small);
      } else {
        assert l[..k] == lent;
        assert empty == Emptied(fill + lent);
      }
    }
  }

  /** The queues that have not reported empty. */
  function Open(empty: seq<bool>): (n: nat)
    requires |empty| == 3
  {
    (if empty[0] then 0 else 1) + (if empty[1] then 0 else 1) + (if empty[2] then 0 else 1)
  }

  lemma LendStep(fill: seq<Call>, lent: seq<Call>, c: Call, start: Counters, last: int, small: bool, empty: seq<bool>)
    requires Chained(fill + lent, start, At(c)) && c.Valid()
    requires Lends(fill, lent, last, small) && NoFailure(lent) && Marks(empty, fill + lent)
    requires c.limit == 1 && !empty[c.queue]
    requires !small ==> 0 <= BorrowerAfter(last, lent) < 3 && c.queue == Lender(BorrowerAfter(last, lent), empty)
    ensures fill + (lent + [c]) == fill + lent + [c]
    ensures Chained(fill + (lent + [c]), start, After(c))
    ensures Lends(fill, lent + [c], last, small)
    ensures c.answer.Rows? <==> NoFailure(lent + [c])
    ensures c.answer.Rows? ==> BorrowerAfter(last, lent + [c]) == c.queue
    ensures c.answer.Failed? ==> EndsInFailure(lent + [c])
    ensures Marks(if c.answer == Rows([]) then empty[c.queue := true] else empty, fill + (lent + [c]))
  {
    assert fill + (lent + [c]) == fill + lent + [c];
    ExtendChain(fill + lent, c, start);
    ExtendLends(fill, lent, c, last, small, empty);
    ExtendMarks(fill + lent, c, empty);
  }

  /** An answered claim of one row either uses up a slot or closes a queue. */
  lemma LendMeasure(c: Call, empty: seq<bool>)
    requires c.Valid() && c.limit == 1 && c.answer.Rows? && |empty| == 3 && !empty[c.queue]
    ensures After(c).free + Open(if c.answer == Rows([]) then empty[c.queue := true] else empty) < c.free + Open(empty)
  {
  }

  lemma ReplayCall(d: Desk, pass: seq<Call>, c: Call)
    requires |d.inFlight| == 3 && AllValid(pass) && c.Valid()
    ensures AllValid(pass + [c])
    ensures Replay(d, pass + [c]) == if c.answer.Rows? then TakeAll(Replay(d, pass), c.queue, c.answer.leases) else Replay(d, pass)
  {
    assert (pass + [c])[..|pass + [c]| - 1] == pass;
  }

  // ----- whole passes

  /**
   One admission pass: its reservation claims, its lending claims, the counters
   before, between and after them, and what the worker is set up with.
   */
  datatype Pass = Pass(
    fill: seq<Call>, lent: seq<Call>, start: Counters, middle: Counters, end: Counters,
    targets: seq<int>, weights: seq<int>, small: bool, borrower: int, credits: seq<int>)
  {
    function Calls(): seq<Call> {
      fill + lent
    }

    /**
     The pass is one that the dispatcher makes.  Lending follows the reservation
     claims whether or not the last of them failed, and goes on until no slot is
     free, all queues reported empty, or a lending claim fails.
     */
    ghost predicate Admitted() {
      && Orderly(fill, start, middle, targets)
      && |middle.inFlight| == 3 && (NoFailure(fill) ==> Settled(fill, middle, targets, 3))
      && Chained(fill + lent, start, end)
      && Lends(fill, lent, borrower, small)
      && 0 <= borrower < 3 && (small ==> fill == [] && Chooses(fill, lent, credits, weights))
      && (end.free == 0 || AllEmpty(fill + lent) || EndsInFailure(lent))
    }
  }

  /** When no reservation claim failed, the lending claims keep to the priorities too: nobody waits any more. */
  lemma {:induction false} LendingKeepsPriority(fill: seq<Call>, lent: seq<Call>, start: Counters, middle: Counters, end: Counters, targets: seq<int>)
    requires |targets| == 3 && Chained(fill, start, middle) && Chained(fill + lent, start, end)
    requires Prioritized(fill, targets) && |middle.inFlight| == 3 && Settled(fill, middle, targets, 3)
    ensures Prioritized(fill + lent, targets) && |end.inFlight| == 3 && Settled(fill + lent, end, targets, 3)
    decreases |lent|
  {
    if lent == [] {
      assert fill + lent == fill;
    } else {
      var before, c := lent[..|lent| - 1], lent[|lent| - 1];
      assert fill + lent == (fill + before) + [c];
      ChainPrefix(fill + before, c, start, end);
      LendingKeepsPriority(fill, before, start, middle, At(c), targets);
      ExtendPriority(fill + before, c, targets);
      StaysSettled(fill + before, c, targets);
    }
  }

  lemma UnfailedPassIsPrioritized(p: Pass)
    requires p.Admitted() && NoFailure(p.fill)
    ensures Prioritized(p.Calls(), p.targets)
  {
    LendingKeepsPriority(p.fill, p.lent, p.start, p.middle, p.end, p.targets);
  }

  /** The failed reservation claim, if there is one, is the last of them, leaves a slot free and its queue open, so that lending goes on. */
  lemma FailedReservationGoesOn(p: Pass)
    requires p.Admitted() && !NoFailure(p.fill)
    ensures EndsInFailure(p.fill) && p.lent != []
    ensures !ReportedEmpty(p.fill, p.fill[|p.fill| - 1].queue)
    ensures p.middle == At(p.fill[|p.fill| - 1]) && p.middle.free > 0
  {
    OnlyLastOneFails(p.fill);
    var c := p.fill[|p.fill| - 1];
    assert c.inFlight[c.queue := c.inFlight[c.queue] + 0] == c.inFlight;
    FailedIsNotEmpty(p.fill, p.targets);
    assert p.fill + [] == p.fill;
  }

  lemma OnlyLastOneFails(pass: seq<Call>)
    requires OnlyLastFails(pass) && !NoFailure(pass)
    ensures EndsInFailure(pass)
  {
    var k :| 0 <= k < |pass| && !pass[k].answer.Rows?;
    var before := pass[..|pass| - 1];
    assert forall i :: 0 <= i < |before| ==> before[i] == pass[i];
  }

  lemma FailedIsNotEmpty(fill: seq<Call>, targets: seq<int>)
    requires Reserved(fill, targets) && EndsInFailure(fill)
    ensures !ReportedEmpty(fill, fill[|fill| - 1].queue)
  {
    assert forall m :: 0 <= m < |fill| - 1 ==> fill[m].queue < fill[|fill| - 1].queue;
  }

  /** A claim of a pass can fail and be followed by another claim exactly if it is a reservation claim. */
  lemma FailureBeforeLast(p: Pass)
    requires p.Admitted()
    ensures OnlyLastFails(p.Calls()) <==> NoFailure(p.fill)
  {
    var all := p.Calls();
    if NoFailure(p.fill) {
      if p.lent == [] {
        assert all == p.fill;
      } else {
        assert all[..|all| - 1] == p.fill + p.lent[..|p.lent| - 1];
      }
    } else {
      FailedReservationGoesOn(p);
      assert all[..|all| - 1][|p.fill| - 1] == p.fill[|p.fill| - 1];
    }
  }

  lemma FailureInPrefix(pass: seq<Call>, i: nat, n: nat)
    requires i < n <= |pass| && pass[i].answer.Failed?
    ensures !NoFailure(pass[..n])
  {
    assert pass[..n][i] == pass[i];
  }

  /** Up to and including its first failed claim every pass keeps to the priorities. */
  lemma PrioritizedUpToFailure(p: Pass, k: nat)
    requires p.Admitted() && k < |p.Calls()|
    ensures AllValid(p.Calls()[..k + 1])
    ensures NoFailure(p.Calls()[..k]) ==> Prioritized(p.Calls()[..k + 1], p.targets)
  {
    var all := p.Calls();
    if NoFailure(p.fill) {
      UnfailedPassIsPrioritized(p);
      PriorityOfSlice(all, k + 1, p.targets);
    } else {
      FailedReservationGoesOn(p);
      if k < |p.fill| {
        assert all[..k + 1] == p.fill[..k + 1];
        PriorityOfSlice(p.fill, k + 1, p.targets);
      } else {
        FailureInPrefix(all, |p.fill| - 1, k);
      }
    }
  }

  /** A failed claim changes neither counters nor what is known of the queues, so that the same queues wait after it. */
  lemma FailedClaimChangesNothing(pass: seq<Call>, c: Call, d: Call, targets: seq<int>, q: int)
    requires |targets| == 3 && AllValid(pass) && c.Valid() && d.Valid() && c.answer.Failed? && After(c) == At(d) && 0 <= q < 3
    ensures AllValid(pass + [c] + [d])
    ensures Waits(pass + [c] + [d], |pass| + 1, targets, q) <==> c.inFlight[q] < targets[q] && !Exhausted(pass, q)
  {
    assert (pass + [c] + [d])[..|pass| + 1] == pass + [c];
    ExtendExhausted(pass, c, q);
  }

  lemma TurnAfterFailure(pass: seq<Call>, c: Call, d: Call, targets: seq<int>)
    requires |targets| == 3 && AllValid(pass) && c.Valid() && d.Valid() && c.answer.Failed? && After(c) == At(d) && d.limit == 1
    requires AllValid(pass + [c]) && InTurn(pass + [c], |pass|, targets) && Waits(pass + [c], |pass|, targets, c.queue)
    ensures AllValid(pass + [c] + [d])
    ensures InTurn(pass + [c] + [d], |pass| + 1, targets) <==>
            d.queue == c.queue && Min(targets[c.queue] - c.inFlight[c.queue], c.free) == 1
  {
    assert (pass + [c])[..|pass|] == pass && (pass + [c])[|pass|] == c;
    assert c.inFlight[c.queue := c.inFlight[c.queue] + 0] == c.inFlight;
    var all, n, m := pass + [c] + [d], |pass|, |pass| + 1;
    forall q | 0 <= q < 3 ensures AllValid(all) && (Waits(all, m, targets, q) <==> Waits(pass + [c], n, targets, q)) {
      FailedClaimChangesNothing(pass, c, d, targets, q);
    }
    assert all[m] == d && d.inFlight == c.inFlight && d.free == c.free;
    assert Waits(all, m, targets, c.queue);
    if InTurn(all, m, targets) {
      assert d.queue <= c.queue && Waits(all, m, targets, d.queue);
      assert Waits(pass + [c], n, targets, d.queue);
    }
    if d.queue == c.queue && Min(targets[c.queue] - c.inFlight[c.queue], c.free) == 1 {
      forall q | 0 <= q < 3 && Waits(all, m, targets, q) ensures d.queue <= q {
        assert Waits(pass + [c], n, targets, q);
      }
    }
  }

  lemma TurnInPass(all: seq<Call>, pass: seq<Call>, c: Call, d: Call, rest: seq<Call>, targets: seq<int>)
    requires all == pass + [c] + [d] + rest && AllValid(all)
    requires |targets| == 3 && AllValid(pass) && c.Valid() && d.Valid() && c.answer.Failed? && After(c) == At(d) && d.limit == 1
    requires AllValid(pass + [c]) && InTurn(pass + [c], |pass|, targets) && Waits(pass + [c], |pass|, targets, c.queue)
    ensures InTurn(all, |pass| + 1, targets) <==>
            d.queue == c.queue && Min(targets[c.queue] - c.inFlight[c.queue], c.free) == 1
  {
    TurnAfterFailure(pass, c, d, targets);
    TurnOfPrefix(pass + [c] + [d], rest, |pass| + 1, targets);
  }

  /**
   The claim after a failed reservation claim of queue q is in turn exactly if the
   rotation happens to come to q and q asks for a single row.
   */
  lemma ClaimAfterFailedReservation(p: Pass)
    requires p.Admitted() && !NoFailure(p.fill)
    ensures EndsInFailure(p.fill) && |p.fill| < |p.Calls()|
    ensures var c := p.fill[|p.fill| - 1];
            InTurn(p.Calls(), |p.fill|, p.targets) <==>
              Lender(p.borrower, Emptied(p.fill)) == c.queue && Min(p.targets[c.queue] - c.inFlight[c.queue], c.free) == 1
  {
    FailedReservationGoesOn(p);
    FirstLender(p);
    TurnAfterReservations(p.fill, p.lent, p.start, p.end, p.targets);
  }

  lemma TurnAfterReservations(fill: seq<Call>, lent: seq<Call>, start: Counters, end: Counters, targets: seq<int>)
    requires Reserved(fill, targets) && Prioritized(fill, targets) && EndsInFailure(fill)
    requires Chained(fill + lent, start, end) && lent != [] && lent[0].limit == 1
    ensures var c := fill[|fill| - 1];
            InTurn(fill + lent, |fill|, targets) <==>
              lent[0].queue == c.queue && Min(targets[c.queue] - c.inFlight[c.queue], c.free) == 1
  {
    var all, n := fill + lent, |fill| - 1;
    var before, c, d, rest := fill[..n], fill[n], lent[0], lent[1..];
    LastReservation(fill, targets);
    ChainLink(all, start, end, n, c, d);
    assert all == before + [c] + [d] + rest;
    TurnInPass(all, before, c, d, rest, targets);
  }

  lemma LastReservation(fill: seq<Call>, targets: seq<int>)
    requires Reserved(fill, targets) && Prioritized(fill, targets) && fill != []
    ensures var before, c := fill[..|fill| - 1], fill[|fill| - 1];
            && fill == before + [c] && AllValid(before) && AllValid(before + [c])
            && InTurn(before + [c], |before|, targets) && Waits(before + [c], |before|, targets, c.queue)
  {
    Unlast(fill);
  }

  lemma FirstLender(p: Pass)
    requires p.Admitted() && p.lent != [] && !p.small
    ensures p.lent[0].limit == 1 && p.lent[0].queue == Lender(p.borrower, Emptied(p.fill))
  {
    assert TakesTurn(p.fill, p.lent, 0, p.borrower, p.small);
    assert p.lent[..0] == [] && p.fill + [] == p.fill;
  }

  lemma ChainLink(pass: seq<Call>, start: Counters, now: Counters, k: nat, c: Call, d: Call)
    requires Chained(pass, start, now) && k + 1 < |pass| && pass[k] == c && pass[k + 1] == d
    ensures c.Valid() && d.Valid() && After(c) == At(d)
  {
    assert Linked(pass[k], pass[k + 1]);
  }

  /** A pass of a worker with three slots in which a failed reservation claim is overtaken by lending. */
  lemma ReservationCanBeOvertaken(l: Lease) returns (p: Pass)
    ensures p.Admitted() && !Prioritized(p.Calls(), p.targets) && !OnlyLastFails(p.Calls())
    ensures p.targets == [1, 1, 1] && p.start == Counters(3, [0, 0, 0]) && p.end == Counters(2, [0, 1, 0])
  {
    var c0 := Call(0, 1, Answer.Failed, 3, [0, 0, 0]);
    var c1 := Call(1, 1, Rows([l]), 3, [0, 0, 0]);
    var c2 := Call(2, 1, Answer.Failed, 2, [0, 1, 0]);
    var start, middle, end := Counters(3, [0, 0, 0]), Counters(3, [0, 0, 0]), Counters(2, [0, 1, 0]);
    p := Pass([c0], [c1, c2], start, middle, end, [1, 1, 1], [10, 45, 45], false, 0, [0, 0, 0]);
    OvertakenChain(c0, c1, c2, start, end);
    OvertakenFill(c0, [1, 1, 1]);
    OvertakenLent(c0, c1, c2);
    assert p.Calls() == [c0, c1, c2];
    assert EndsInFailure(p.lent) && !p.fill[0].answer.Rows?;
    FailureBeforeLast(p);
    ClaimAfterFailedReservation(p);
  }

  lemma OvertakenChain(c0: Call, c1: Call, c2: Call, start: Counters, end: Counters)
    requires c0.Valid() && c1.Valid() && c2.Valid()
    requires At(c0) == start && After(c0) == At(c1) && After(c1) == At(c2) && After(c2) == end
    ensures Chained([c0] + [c1, c2], start, end)
  {
    ExtendChain([], c0, start);
    ExtendChain([c0], c1, start);
    ExtendChain([c0, c1], c2, start);
    assert [] + [c0] == [c0] && [c0] + [c1] == [c0, c1] && [c0, c1] + [c2] == [c0] + [c1, c2];
  }

  /** A pass that starts with a failed claim for queue 0. */
  lemma OvertakenFill(c: Call, targets: seq<int>)
    requires c.Valid() && c.queue == 0 && c.answer.Failed? && |targets| == 3 && c.inFlight[0] < targets[0]
    requires c.limit == Min(targets[0] - c.inFlight[0], c.free)
    ensures Orderly([c], At(c), After(c), targets) && After(c) == At(c)
  {
    var none: seq<Call> := [];
    ExtendOrderly(none, c, At(c), targets);
    assert none + [c] == [c];
    assert c.inFlight[0 := c.inFlight[0] + 0] == c.inFlight;
  }

  lemma OvertakenLent(c0: Call, c1: Call, c2: Call)
    requires c0.queue == 0 && c0.answer.Failed?
    requires c1.queue == 1 && c1.limit == 1 && c1.answer.Rows? && c1.answer.leases != []
    requires c2.queue == 2 && c2.limit == 1 && c2.answer.Failed?
    ensures Lends([c0], [c1, c2], 0, false)
  {
    var open, none: seq<Call> := [false, false, false], [];
    ExtendLends([c0], none, c1, 0, false, open);
    assert none + [c1] == [c1] && BorrowerAfter(0, [c1]) == 1;
    ExtendLends([c0], [c1], c2, 0, false, open);
    assert [c1] + [c2] == [c1, c2];
  }

  class ScanDispatcher {
    const concurrency: nat
    const weights: seq<int>
    const targets: seq<int>
    const small: bool
    const adm: RoundRobin
    const source: ClaimSource

    var free: int
    var inFlight: seq<int>
    var owned: map<Id, Lease>
    var jobs: seq<Job>
    var running: seq<Job>
    var results: seq<Job>
    ghost var taken: multiset<Lease>
    ghost var back: multiset<Lease>

    ghost function View(): Desk
      reads this
    {
      Desk(free, inFlight, owned, jobs, running, results, taken, back)
    }

    ghost function Now(): Counters
      reads this
    {
      Counters(free, inFlight)
    }

    /** What the steps of a pass rely on. */
    ghost predicate Ready()
      reads this, adm
    {
      && adm.Valid()
      && ValidWeights(weights) && |targets| == 3
      && (small <==> concurrency < 3) && (small ==> targets == [0, 0, 0])
      && |inFlight| == 3 && 0 <= free && forall q :: 0 <= q < 3 ==> 0 <= inFlight[q]
    }

    /** Between passes slots and leases balance, so that neither channel can overflow. */
    ghost predicate Valid()
      reads this, adm
    {
      Ready() && Balanced(View(), concurrency)
    }

    constructor (concurrency: nat, weights: seq<int>, source: ClaimSource)
      requires ValidWeights(weights) && Sum(weights) == 100
      ensures Valid() && View() == Opened(concurrency)
      ensures this.concurrency == concurrency && this.weights == weights && this.source == source
      ensures concurrency >= 3 ==> Apportions(concurrency, weights, targets)
      ensures fresh(adm) && fresh(adm.credits)
    {
      var t := ReservationTargets(concurrency, weights);
      var a := new RoundRobin();
      this.concurrency, this.weights, this.targets, this.small := concurrency, weights, t, concurrency < 3;
      this.adm, this.source := a, source;
      free, inFlight, owned := concurrency, [0, 0, 0], map[];
      jobs, running, results := [], [], [];
      taken, back := multiset{}, multiset{};
      new;
      assert Balanced(Opened(concurrency), concurrency);
    }

    /** Counts one claimed lease against the free capacity and queues it for the executors. */
    method AcceptOne(queue: int, lease: Lease)
      requires |inFlight| == 3 && 0 <= queue < 3
      modifies this
      ensures |inFlight| == 3 && View() == Take(old(View()), queue, lease)
    {
      inFlight := inFlight[queue := inFlight[queue] + 1];
      free := free - 1;
      owned := owned[lease.record.id := lease];
      jobs := jobs + [Job(lease, queue)];
      taken := taken + multiset{lease};
    }

    method AcceptAll(queue: int, leases: seq<Lease>)
      requires |inFlight| == 3 && 0 <= queue < 3
      modifies this
      ensures View() == TakeAll(old(View()), queue, leases)
      ensures free == old(free) - |leases| && inFlight == old(inFlight)[queue := old(inFlight)[queue] + |leases|]
    {
      for i := 0 to |leases|
        invariant |inFlight| == 3
        invariant View() == TakeAll(old(View()), queue, leases[..i])
        invariant free == old(free) - i && inFlight == old(inFlight)[queue := old(inFlight)[queue] + i]
      {
        assert leases[..i + 1][..i] == leases[..i];
        AcceptOne(queue, leases[i]);
      }
      assert leases[..|leases|] == leases;
    }

    /** Claims up to `limit` rows of one queue and starts them. */
    method ClaimDue(queue: int, limit: int, empty: seq<bool>) returns (ok: bool, empty': seq<bool>, ghost call: Call)
      requires Ready() && 0 <= queue < 3 && 1 <= limit <= free && |empty| == 3
      modifies this, source
      ensures Ready()
      ensures call.Valid() && call.queue == queue && call.limit == limit
      ensures At(call) == old(Now()) && After(call) == Now()
      ensures ok == call.answer.Rows?
      ensures View() == if ok then TakeAll(old(View()), queue, call.answer.leases) else old(View())
      ensures empty' == if call.answer == Rows([]) then empty[queue := true] else empty
    {
      var a := source.Claim(limit);
      call := Call(queue, limit, a, free, inFlight);
      empty' := empty;
      if a.Failed? {
        assert inFlight[queue := inFlight[queue] + 0] == inFlight;
        return false, empty', call;
      }
      if a.leases == [] {
        empty' := empty[queue := true];
      }
      AcceptAll(queue, a.leases);
      return true, empty', call;
    }

    /** Tops up one queue to its reservation. */
    method FillQueue(queue: int, empty0: seq<bool>, ghost fill0: seq<Call>, ghost before: Desk)
      returns (ok: bool, empty: seq<bool>, ghost fill: seq<Call>)
      requires Ready() && 0 <= queue < 3 && |before.inFlight| == 3
      requires Filled(fill0, Counters(before.free, before.inFlight), Now(), targets, empty0, queue) && NoFailure(fill0)
      requires View() == Replay(before, fill0) && (small ==> fill0 == [])
      modifies this, source
      ensures Ready() && (small ==> fill == [])
      ensures Filled(fill, Counters(before.free, before.inFlight), Now(), targets, empty, queue + 1)
      ensures View() == Replay(before, fill) && (ok <==> NoFailure(fill))
    {
      empty, fill := empty0, fill0;
      var deficit := targets[queue] - inFlight[queue];
      if deficit <= 0 || free <= 0 {
        StaysFilled(fill0, Now(), targets, queue);
        return true, empty, fill;
      }
      assert !small;
      ghost var call;
      ok, empty, call := ClaimDue(queue, Min(deficit, free), empty0);
      FillStep(fill0, call, Counters(before.free, before.inFlight), targets, empty0);
      ReplayCall(before, fill0, call);
      fill := fill0 + [call];
    }

    /** Tops up the queues below their reservation, in order, until a claim fails. */
    method FillReservations() returns (empty: seq<bool>, ghost fill: seq<Call>)
      requires Ready() && free > 0
      modifies this, source
      ensures Ready() && (small ==> fill == [])
      ensures Orderly(fill, old(Now()), Now(), targets) && View() == Replay(old(View()), fill)
      ensures Marks(empty, fill)
      ensures NoFailure(fill) ==> Settled(fill, Now(), targets, 3)
    {
      fill := [];
      empty := [false, false, false];
      for queue := 0 to 3
        invariant Ready() && (small ==> fill == [])
        invariant Filled(fill, old(Now()), Now(), targets, empty, queue) && NoFailure(fill)
        invariant View() == Replay(old(View()), fill)
      {
        var ok;
        ok, empty, fill := FillQueue(queue, empty, fill, old(View()));
        if !ok {
          return;
        }
      }
    }

    /** The next queue the lending rotation turns to, skipping those that reported empty; -1 if all did. */
    static method NextLender(last: int, empty: seq<bool>) returns (queue: int)
      requires 0 <= last < 3 && |empty| == 3
      ensures queue == Lender(last, empty)
      ensures queue >= 0 ==> Succeeds(last, queue, empty)
    {
      for step := 0 to 3
        invariant step > 0 ==> empty[Rotation(last, 0)]
        invariant step > 1 ==> empty[Rotation(last, 1)]
        invariant step > 2 ==> empty[Rotation(last, 2)]
      {
        queue := Rotation(last, step);
        if !empty[queue] {
          LenderAt(last, empty, step);
          return;
        }
      }
      return -1;
    }

    /** The queue that gets the next free slot, or -1 if every queue reported empty. */
    method NextQueue(empty: seq<bool>) returns (queue: int)
      requires Ready() && |empty| == 3
      modifies adm.credits
      ensures Ready()
      ensures -1 <= queue < 3
      ensures queue == -1 <==> empty == [true, true, true]
      ensures queue >= 0 ==> !empty[queue]
      ensures !small ==> queue == Lender(adm.borrower, empty) && adm.credits[..] == old(adm.credits[..])
      ensures small ==> queue == Winner(old(adm.credits[..]), [!empty[0], !empty[1], !empty[2]], weights)
      ensures small ==> adm.credits[..] == NextCredits(old(adm.credits[..]), [!empty[0], !empty[1], !empty[2]], weights)
    {
      if small {
        var found;
        queue, found := adm.ChooseSmall([!empty[0], !empty[1], !empty[2]], weights);
        if !found {
          queue := -1;
        }
      } else {
        queue := NextLender(adm.borrower, empty);
      }
    }

    /** Claims one row for the queue whose turn it is, and moves the rotation on if the store answered. */
    method ClaimTurn(queue: int, empty: seq<bool>) returns (ok: bool, empty': seq<bool>, ghost call: Call)
      requires Ready() && 0 <= queue < 3 && 1 <= free && |empty| == 3
      modifies this, source, adm
      ensures Ready()
      ensures call.Valid() && call.queue == queue && call.limit == 1
      ensures At(call) == old(Now()) && After(call) == Now()
      ensures ok == call.answer.Rows?
      ensures View() == if ok then TakeAll(old(View()), queue, call.answer.leases) else old(View())
      ensures empty' == if call.answer == Rows([]) then empty[queue := true] else empty
      ensures adm.borrower == if ok && !small then queue else old(adm.borrower)
    {
      ok, empty', call := ClaimDue(queue, 1, empty);
      if ok && !small {
        adm.borrower := queue;
      }
    }

    /** Finds the queue whose turn it is and claims one row of it; `found` is false if every queue reported empty. */
    method Turn(empty: seq<bool>) returns (found: bool, ok: bool, empty': seq<bool>, ghost call: Call)
      requires Ready() && 1 <= free && |empty| == 3
      modifies this, source, adm, adm.credits
      ensures Ready()
      ensures !found ==> empty == [true, true, true] && View() == old(View()) && adm.borrower == old(adm.borrower)
      ensures !found ==> adm.credits[..] == if small then [0, 0, 0] else old(adm.credits[..])
      ensures found ==>
                && call.Valid() && call.limit == 1 && !empty[call.queue] && At(call) == old(Now()) && After(call) == Now()
                && ok == call.answer.Rows?
                && View() == (if ok then TakeAll(old(View()), call.queue, call.answer.leases) else old(View()))
                && empty' == (if call.answer == Rows([]) then empty[call.queue := true] else empty)
                && adm.borrower == (if ok && !small then call.queue else old(adm.borrower))
      ensures found && !small ==> call.queue == Lender(old(adm.borrower), empty) && adm.credits[..] == old(adm.credits[..])
      ensures found && small ==>
                var open := [!empty[0], !empty[1], !empty[2]];
                call.queue == Winner(old(adm.credits[..]), open, weights) && adm.credits[..] == NextCredits(old(adm.credits[..]), open, weights)
    {
      var queue := NextQueue(empty);
      found, ok, empty' := queue >= 0, false, empty;
      if found {
        ok, empty', call := ClaimTurn(queue, empty);
      } else {
        call := Call(0, 1, Rows([]), free, inFlight);
      }
    }

    /** The admission state follows the lending claims from `last` and `credits` on. */
    ghost predicate Follows(fill: seq<Call>, lent: seq<Call>, last: int, credits: seq<int>)
      reads this, adm, adm.credits
    {
      Tracks(small, adm.borrower, adm.credits[..], fill, lent, last, credits, weights)
    }

    /** A pass that is lending, with no failed lending claim so far. */
    ghost predicate Lending(fill: seq<Call>, lent: seq<Call>, before: Desk, last: int, empty: seq<bool>)
      reads this
    {
      && Chained(fill + lent, Counters(before.free, before.inFlight), Now())
      && Lends(fill, lent, last, small) && NoFailure(lent)
      && Marks(empty, fill + lent)
    }

    /** Lends one free slot to the next queue in turn; `more` says whether the pass goes on. */
    method LendOne(empty0: seq<bool>, ghost fill: seq<Call>, ghost lent0: seq<Call>, ghost before: Desk, ghost last: int, ghost credits: seq<int>)
      returns (more: bool, empty: seq<bool>, ghost lent: seq<Call>)
      requires Ready() && free > 0 && |before.inFlight| == 3
      requires Lending(fill, lent0, before, last, empty0) && View() == Replay(before, fill + lent0)
      requires Follows(fill, lent0, last, credits)
      modifies this, source, adm, adm.credits
      ensures Ready()
      ensures Chained(fill + lent, Counters(before.free, before.inFlight), Now()) && View() == Replay(before, fill + lent)
      ensures Lends(fill, lent, last, small)
      ensures Follows(fill, lent, last, credits) || (small && lent == lent0 && adm.credits[..] == [0, 0, 0])
      ensures more ==> Follows(fill, lent, last, credits)
      ensures more ==> Lending(fill, lent, before, last, empty) && free + Open(empty) < old(free) + Open(empty0)
      ensures !more ==> AllEmpty(fill + lent) || EndsInFailure(lent)
    {
      ghost var borrower, credits0 := adm.borrower, adm.credits[..];
      ghost var call;
      var found;
      found, more, empty, call := Turn(empty0);
      lent := lent0;
      if !found {
        return false, empty0, lent;
      }
      assert OpenTo(fill + lent0) == [!empty0[0], !empty0[1], !empty0[2]];
      LendStep(fill, lent0, call, Counters(before.free, before.inFlight), last, small, empty0);
      ReplayCall(before, fill + lent0, call);
      TrackStep(small, borrower, credits0, fill, lent0, last, credits, weights, call, adm.credits[..]);
      if more {
        LendMeasure(call, empty0);
      }
      lent := lent0 + [call];
    }

    /** Lends what is free, one row at a time, whatever became of the reservation claims. */
    method Borrow(empty0: seq<bool>, ghost fill: seq<Call>, ghost before: Desk) returns (ghost lent: seq<Call>)
      requires Ready() && |before.inFlight| == 3
      requires Chained(fill, Counters(before.free, before.inFlight), Now()) && Marks(empty0, fill) && View() == Replay(before, fill)
      modifies this, source, adm, adm.credits
      ensures Ready()
      ensures Chained(fill + lent, Counters(before.free, before.inFlight), Now()) && View() == Replay(before, fill + lent)
      ensures Lends(fill, lent, old(adm.borrower), small)
      ensures small ==> Chooses(fill, lent, old(adm.credits[..]), weights)
      ensures !small ==> adm.borrower == BorrowerAfter(old(adm.borrower), lent)
      ensures free == 0 || AllEmpty(fill + lent) || EndsInFailure(lent)
    {
      var empty, more := empty0, true;
      ghost var last, credits := adm.borrower, adm.credits[..];
      lent := [];
      assert fill + lent == fill;
      while free > 0
        invariant Ready() && Lending(fill, lent, before, last, empty)
        invariant View() == Replay(before, fill + lent)
        invariant Follows(fill, lent, last, credits)
        decreases free + Open(empty)
      {
        more, empty, lent := LendOne(empty, fill, lent, before, last, credits);
        if !more {
          return;
        }
      }
    }

    /**
     One admission pass: the reservation claims, then lending, also when a
     reservation claim failed.  It never claims past the free capacity and stops
     with a slot free only if all three queues reported empty or a lending claim
     failed.
     */
    method Admit(guardHealthy: bool, paused: bool) returns (ghost pass: Pass)
      requires Valid()
      modifies this, source, adm, adm.credits
      ensures Valid()
      ensures pass.start == old(Now()) && pass.end == Now() && Chained(pass.Calls(), pass.start, pass.end)
      ensures View() == Replay(old(View()), pass.Calls())
      ensures pass.targets == targets && pass.weights == weights && pass.small == small
      ensures pass.borrower == old(adm.borrower) && pass.credits == old(adm.credits[..])
      ensures !small ==> adm.borrower == BorrowerAfter(pass.borrower, pass.lent)
      ensures !guardHealthy || paused ==> pass.Calls() == [] && View() == old(View())
      ensures guardHealthy && !paused ==> pass.Admitted()
    {
      ghost var fill, lent: seq<Call> := [], [];
      ghost var start, before, last, credits := Now(), View(), adm.borrower, adm.credits[..];
      pass := Pass(fill, lent, start, start, start, targets, weights, small, last, credits);
      if free <= 0 || paused {
        return;
      }
      if !guardHealthy {
        return;
      }
      var empty;
      empty, fill := FillReservations();
      ghost var middle := Now();
      lent := Borrow(empty, fill, before);
      pass := Pass(fill, lent, start, middle, Now(), targets, weights, small, last, credits);
      ReplayKeepsBalance(before, fill + lent, concurrency, Now());
    }

    /** An executor takes the oldest job. */
    method Start()
      requires Valid() && CanMove(View(), StartMove)
      modifies this
      ensures Valid() && View() == Moving(old(View()), StartMove)
    {
      StartKeepsOrder(View());
      running := running + [jobs[0]];
      jobs := jobs[1..];
    }

    /** The executor of job `k` delivers its result. */
    method Finish(k: nat)
      requires Valid() && CanMove(View(), FinishMove(k))
      modifies this
      ensures Valid() && View() == Moving(old(View()), FinishMove(k))
    {
      FinishKeepsBalance(View(), concurrency, k);
      results := results + [running[k]];
      running := running[..k] + running[k + 1..];
    }

    /** Receives one result: the slot is free again and the lease leaves the dispatcher's hands. */
    method Handle() returns (done: Job)
      requires Valid() && CanMove(View(), HandleMove)
      modifies this
      ensures Valid() && View() == Moving(old(View()), HandleMove) && done == old(results)[0]
    {
      HandleLeavesCounters(View(), concurrency);
      done := results[0];
      inFlight := inFlight[done.queue := inFlight[done.queue] - 1];
      free := free + 1;
      owned := owned - {done.lease.record.id};
      results := results[1..];
      back := back + multiset{done.lease};
      assert View() == Custody.Handle(old(View()));
    }

    /** Releases every lease still owned, row by row. */
    method ReleaseOutstanding()
      requires Valid()
      requires forall id :: id in owned ==> owned[id].record.id == id
      modifies this`back
      ensures Ready() && View() == Closed(old(View()))
    {
      var todo := owned.Keys;
      ghost var released: multiset<Lease> := multiset{};
      assert owned.Values == set id | id in owned && id !in {} :: owned[id];
      while todo != {}
        invariant todo <= owned.Keys
        invariant back == old(back) + released
        invariant released == multiset(set id | id in owned && id !in todo :: owned[id])
        decreases todo
      {
        var id :| id in todo;
        ghost var l, before := owned[id], set i | i in owned && i !in todo :: owned[i];
        assert (set i | i in owned && i !in todo - {id} :: owned[i]) == before + {l};
        assert l !in before;
        back := back + multiset{l};
        released := released + multiset{l};
        todo := todo - {id};
      }
      assert owned.Values == set id | id in owned && id !in todo :: owned[id];
    }
  }
}
