/**
 Custody of scan leases inside one worker: the capacity counters of the
 dispatcher, the job and result channels, the running executors and the map of
 owned leases, as a step system.
 */
module Custody {
  import opened ProxyRows

  datatype Job = Job(lease: Lease, queue: int)

  datatype Desk = Desk(
    free: int, inFlight: seq<int>, owned: map<Id, Lease>,
    jobs: seq<Job>, running: seq<Job>, results: seq<Job>,
    taken: multiset<Lease>, back: multiset<Lease>)

  function Opened(concurrency: nat): Desk {
    Desk(concurrency, [0, 0, 0], map[], [], [], [], multiset{}, multiset{})
  }

  // ----- steps

  /** The dispatcher takes over one claimed lease and hands it to the executors. */
  function Take(d: Desk, queue: int, l: Lease): Desk
    requires |d.inFlight| == 3 && 0 <= queue < 3
  {
    d.(free := d.free - 1, inFlight := d.inFlight[queue := d.inFlight[queue] + 1],
    owned := d.owned[l.record.id := l], jobs := d.jobs + [Job(l, queue)], taken := d.taken + multiset{l})
  }

  function TakeAll(d: Desk, queue: int, ls: seq<Lease>): (r: Desk)
    requires |d.inFlight| == 3 && 0 <= queue < 3
    ensures |r.inFlight| == 3
  {
    if ls == [] then d else Take(TakeAll(d, queue, ls[..|ls| - 1]), queue, ls[|ls| - 1])
  }

  /** An executor picks up the oldest job. */
  function Start(d: Desk): Desk
    requires d.jobs != []
  {
    d.(jobs := d.jobs[1..], running := d.running + [d.jobs[0]])
  }

  /** The executor running job `k` delivers its result. */
  function Finish(d: Desk, k: nat): Desk
    requires k < |d.running|
  {
    d.(running := d.running[..k] + d.running[k + 1..], results := d.results + [d.running[k]])
  }

  /** The dispatcher receives the oldest result, frees the slot and hands the lease back. */
  function Handle(d: Desk): Desk
    requires d.results != [] && |d.inFlight| == 3 && 0 <= d.results[0].queue < 3
  {
    var j := d.results[0];
    d.(free := d.free + 1, inFlight := d.inFlight[j.queue := d.inFlight[j.queue] - 1],
    owned := d.owned - {j.lease.record.id}, results := d.results[1..], back := d.back + multiset{j.lease})
  }

  /** At shutdown every lease still owned is released. */
  function Closed(d: Desk): Desk {
    d.(back := d.back + multiset(d.owned.Values))
  }

  // ----- bookkeeping over sequences of jobs

  function Leases(s: seq<Job>): (r: seq<Lease>)
    ensures |r| == |s| && forall i :: 0 <= i < |s| ==> r[i] == s[i].lease
  {
    seq(|s|, i requires 0 <= i < |s| => s[i].lease)
  }

  function Held(s: seq<Job>): multiset<Lease> {
    multiset(Leases(s))
  }

  lemma HeldConcat(a: seq<Job>, b: seq<Job>)
    ensures Held(a + b) == Held(a) + Held(b)
  {
    assert Leases(a + b) == Leases(a) + Leases(b);
  }

  function Count(s: seq<Job>, queue: int): (n: nat)
    ensures n <= |s|
  {
    if s == [] then 0 else Count(s[..|s| - 1], queue) + (if s[|s| - 1].queue == queue then 1 else 0)
  }

  lemma {:induction false} CountConcat(a: seq<Job>, b: seq<Job>, queue: int)
    ensures Count(a + b, queue) == Count(a, queue) + Count(b, queue)
  {
    if b == [] {
      assert a + b == a;
    } else {
      CountConcat(a, b[..|b| - 1], queue);
      assert (a + b)[..|a + b| - 1] == a + b[..|b| - 1];
    }
  }

  /** All work on the desk, oldest stage first. */
  function Outstanding(d: Desk): seq<Job> {
    d.results + d.running + d.jobs
  }

  /** `n` counts the jobs of each queue in `s`. */
  ghost predicate Tally(s: seq<Job>, n: seq<int>) {
    && |n| == 3
    && (forall i :: 0 <= i < |s| ==> 0 <= s[i].queue < 3)
    && n[0] == Count(s, 0) && n[1] == Count(s, 1) && n[2] == Count(s, 2)
  }

  lemma TallyAppend(s: seq<Job>, x: Job, n: seq<int>)
    requires Tally(s, n) && 0 <= x.queue < 3
    ensures Tally(s + [x], n[x.queue := n[x.queue] + 1])
    ensures Held(s + [x]) == Held(s) + multiset{x.lease}
  {
    assert (s + [x])[..|s + [x]| - 1] == s;
    HeldConcat(s, [x]);
    assert Leases([x]) == [x.lease];
  }

  lemma TallyDropHead(x: Job, s: seq<Job>, n: seq<int>)
    requires Tally([x] + s, n)
    ensures 0 <= x.queue < 3 && Tally(s, n[x.queue := n[x.queue] - 1])
    ensures Held([x] + s) == multiset{x.lease} + Held(s)
  {
    var t := [x] + s;
    assert t[0] == x;
    forall i | 0 <= i < |s| ensures 0 <= s[i].queue < 3 {
      assert s[i] == t[i + 1];
    }
    CountHead(x, s, 0);
    CountHead(x, s, 1);
    CountHead(x, s, 2);
    HeldConcat([x], s);
    assert Leases([x]) == [x.lease];
  }

  lemma CountHead(x: Job, s: seq<Job>, queue: int)
    ensures Count([x] + s, queue) == (if x.queue == queue then 1 else 0) + Count(s, queue)
  {
    CountConcat([x], s, queue);
    assert [x][..0] == [];
  }

  /** Moving one job forward changes no count. */
  lemma TallyMove(a: seq<Job>, b: seq<Job>, x: Job, c: seq<Job>, n: seq<int>)
    requires Tally(a + b + [x] + c, n)
    ensures Tally(a + [x] + b + c, n)
    ensures Held(a + b + [x] + c) == Held(a + [x] + b + c)
  {
    CountMove(a, b, x, c, 0);
    CountMove(a, b, x, c, 1);
    CountMove(a, b, x, c, 2);
    HeldMove(a, b, x, c);
    var s, t := a + b + [x] + c, a + [x] + b + c;
    forall i | 0 <= i < |t| ensures 0 <= t[i].queue < 3 {
      assert t[i] == s[if i < |a| then i else if i == |a| then |a| + |b| else if i <= |a| + |b| then i - 1 else i];
    }
  }

  lemma HeldMove(a: seq<Job>, b: seq<Job>, x: Job, c: seq<Job>)
    ensures Held(a + b + [x] + c) == Held(a + [x] + b + c)
  {
    HeldConcat(a + b + [x], c); HeldConcat(a + b, [x]); HeldConcat(a, b);
    HeldConcat(a + [x] + b, c); HeldConcat(a + [x], b); HeldConcat(a, [x]);
  }

  lemma CountMove(a: seq<Job>, b: seq<Job>, x: Job, c: seq<Job>, queue: int)
    ensures Count(a + b + [x] + c, queue) == Count(a + [x] + b + c, queue)
  {
    CountConcat(a + b + [x], c, queue); CountConcat(a + b, [x], queue); CountConcat(a, b, queue);
    CountConcat(a + [x] + b, c, queue); CountConcat(a + [x], b, queue); CountConcat(a, [x], queue);
  }

  // ----- conservation

  /**
   Capacity and leases are conserved: free slots and work in flight add up to
   the concurrency, the counters are the jobs on the desk, and every lease ever
   taken is on the desk or was handed back.
   */
  ghost predicate Balanced(d: Desk, concurrency: int) {
    && 0 <= d.free
    && Tally(Outstanding(d), d.inFlight)
    && d.free + |Outstanding(d)| == concurrency
    && d.taken == d.back + Held(Outstanding(d))
  }

  lemma {:induction false} CountsAddUp(s: seq<Job>, n: seq<int>)
    requires Tally(s, n)
    ensures n[0] + n[1] + n[2] == |s|
  {
    if s != [] {
      var x := s[|s| - 1];
      CountsAddUp(s[..|s| - 1], n[x.queue := n[x.queue] - 1]);
    }
  }

  /** Free slots and the three counters add up to the concurrency; neither channel can overflow. */
  lemma CapacityIsConserved(d: Desk, concurrency: int)
    requires Balanced(d, concurrency)
    ensures d.free + d.inFlight[0] + d.inFlight[1] + d.inFlight[2] == concurrency
    ensures forall q :: 0 <= q < 3 ==> 0 <= d.inFlight[q] <= concurrency
    ensures |d.jobs| <= concurrency && |d.results| <= concurrency
  {
    CountsAddUp(Outstanding(d), d.inFlight);
  }

  lemma TakeKeepsBalance(d: Desk, concurrency: int, queue: int, l: Lease)
    requires Balanced(d, concurrency) && d.free > 0 && 0 <= queue < 3
    ensures Balanced(Take(d, queue, l), concurrency)
  {
    TakeAppends(d, queue, l);
    TallyAppend(Outstanding(d), Job(l, queue), d.inFlight);
  }

  lemma TakeAppends(d: Desk, queue: int, l: Lease)
    requires |d.inFlight| == 3 && 0 <= queue < 3
    ensures Outstanding(Take(d, queue, l)) == Outstanding(d) + [Job(l, queue)]
  {
  }

  lemma {:induction false} TakeAllKeepsBalance(d: Desk, concurrency: int, queue: int, ls: seq<Lease>)
    requires Balanced(d, concurrency) && |ls| <= d.free && 0 <= queue < 3
    ensures Balanced(TakeAll(d, queue, ls), concurrency)
    ensures TakeAll(d, queue, ls).free == d.free - |ls|
    ensures TakeAll(d, queue, ls).inFlight == d.inFlight[queue := d.inFlight[queue] + |ls|]
  {
    if ls != [] {
      TakeAllKeepsBalance(d, concurrency, queue, ls[..|ls| - 1]);
      TakeKeepsBalance(TakeAll(d, queue, ls[..|ls| - 1]), concurrency, queue, ls[|ls| - 1]);
    }
  }

  /** Starting a job does not reorder the work on the desk. */
  lemma StartKeepsOrder(d: Desk)
    requires d.jobs != []
    ensures Outstanding(Start(d)) == Outstanding(d)
  {
  }

  lemma FinishMoves(d: Desk, k: nat)
    requires k < |d.running|
    ensures Outstanding(d) == d.results + d.running[..k] + [d.running[k]] + (d.running[k + 1..] + d.jobs)
    ensures Outstanding(Finish(d, k)) == d.results + [d.running[k]] + d.running[..k] + (d.running[k + 1..] + d.jobs)
  {
  }

  lemma FinishKeepsBalance(d: Desk, concurrency: int, k: nat)
    requires Balanced(d, concurrency) && k < |d.running|
    ensures Balanced(Finish(d, k), concurrency)
  {
    FinishMoves(d, k);
    TallyMove(d.results, d.running[..k], d.running[k], d.running[k + 1..] + d.jobs, d.inFlight);
  }

  lemma HandleDropsHead(d: Desk)
    requires CanMove(d, HandleMove)
    ensures Outstanding(d) == [d.results[0]] + Outstanding(Handle(d))
  {
  }

  lemma HandleKeepsBalance(d: Desk, concurrency: int)
    requires Balanced(d, concurrency) && CanMove(d, HandleMove)
    ensures Balanced(Handle(d), concurrency)
  {
    HandleDropsHead(d);
    TallyDropHead(d.results[0], Outstanding(Handle(d)), d.inFlight);
  }

  /** A balanced desk has no negative counter, also after a result was received. */
  lemma HandleLeavesCounters(d: Desk, concurrency: int)
    requires Balanced(d, concurrency) && CanMove(d, HandleMove)
    ensures Balanced(Handle(d), concurrency) && |Handle(d).inFlight| == 3 && 0 <= Handle(d).free
    ensures forall q :: 0 <= q < 3 ==> 0 <= Handle(d).inFlight[q]
  {
    HandleKeepsBalance(d, concurrency);
    CapacityIsConserved(Handle(d), concurrency);
  }

  // ----- ownership

  /** The owned map is exactly the outstanding work, one lease per row. */
  ghost predicate InCustody(d: Desk) {
    && (forall id :: id in d.owned ==> d.owned[id].record.id == id)
    && multiset(d.owned.Values) == Held(Outstanding(d))
  }

  /** A map from rows to leases of those rows has as many leases as rows. */
  lemma {:induction false} ValuesCount(owned: map<Id, Lease>)
    requires forall id :: id in owned ==> owned[id].record.id == id
    ensures |owned.Values| == |owned|
  {
    if owned != map[] {
      var id :| id in owned;
      var rest := owned - {id};
      ValuesCount(rest);
      assert owned.Values == rest.Values + {owned[id]} by {
        forall l | l in owned.Values ensures l in rest.Values + {owned[id]} {
          var i :| i in owned && owned[i] == l;
          assert i != id ==> i in rest && rest[i] == l;
        }
      }
      assert owned[id] !in rest.Values;
      assert owned.Keys == rest.Keys + {id};
    }
  }

  lemma AddedValue(owned: map<Id, Lease>, l: Lease)
    requires forall id :: id in owned ==> owned[id].record.id == id
    requires l.record.id !in owned
    ensures multiset(owned[l.record.id := l].Values) == multiset(owned.Values) + multiset{l}
  {
    var owned' := owned[l.record.id := l];
    assert owned'.Values == owned.Values + {l} by {
      assert owned'[l.record.id] == l;
      forall x | x in owned.Values ensures x in owned'.Values {
        var i :| i in owned && owned[i] == x;
        assert owned'[i] == x;
      }
    }
    assert l !in owned.Values;
  }

  /**
   Taking a lease keeps custody exactly if the worker does not hold the row
   already: the map has one place per row.
   */
  lemma TakeKeepsCustody(d: Desk, queue: int, l: Lease)
    requires |d.inFlight| == 3 && 0 <= queue < 3 && InCustody(d)
    ensures InCustody(Take(d, queue, l)) <==> l.record.id !in d.owned
  {
    var d' := Take(d, queue, l);
    TakeAppends(d, queue, l);
    HeldConcat(Outstanding(d), [Job(l, queue)]);
    assert Leases([Job(l, queue)]) == [l];
    if l.record.id !in d.owned {
      AddedValue(d.owned, l);
    } else {
      ValuesCount(d.owned);
      ValuesCount(d'.owned);
      assert d'.owned.Keys == d.owned.Keys;
      assert |multiset(d'.owned.Values)| == |multiset(d.owned.Values)|;
    }
  }

  lemma FinishKeepsCustody(d: Desk, k: nat)
    requires k < |d.running| && InCustody(d)
    ensures InCustody(Finish(d, k))
  {
    FinishMoves(d, k);
    HeldMove(d.results, d.running[..k], d.running[k], d.running[k + 1..] + d.jobs);
  }

  lemma HandleKeepsCustody(d: Desk)
    requires CanMove(d, HandleMove) && InCustody(d)
    ensures InCustody(Handle(d))
  {
    var l, d' := d.results[0].lease, Handle(d);
    HandleDropsHead(d);
    HeldConcat([d.results[0]], Outstanding(d'));
    assert Leases([d.results[0]]) == [l];
    assert l in multiset(d.owned.Values);
    var id :| id in d.owned && d.owned[id] == l;
    assert d.owned == d'.owned[l.record.id := l];
    AddedValue(d'.owned, l);
    assert multiset(d'.owned.Values) == multiset(d.owned.Values) - multiset{l};
    assert Held(Outstanding(d')) == Held(Outstanding(d)) - multiset{l};
  }

  // ----- whole runs

  datatype Move = TakeMove(queue: int, lease: Lease) | StartMove | FinishMove(k: nat) | HandleMove

  predicate CanMove(d: Desk, m: Move) {
    match m
    case TakeMove(queue, _) => |d.inFlight| == 3 && 0 <= queue < 3 && d.free > 0
    case StartMove => d.jobs != []
    case FinishMove(k) => k < |d.running|
    case HandleMove => d.results != [] && |d.inFlight| == 3 && 0 <= d.results[0].queue < 3
  }

  function Moving(d: Desk, m: Move): Desk
    requires CanMove(d, m)
  {
    match m
    case TakeMove(queue, l) => Take(d, queue, l)
    case StartMove => Start(d)
    case FinishMove(k) => Finish(d, k)
    case HandleMove => Handle(d)
  }

  ghost predicate IsShift(desks: seq<Desk>, moves: seq<Move>, concurrency: nat) {
    && |desks| == |moves| + 1
    && desks[0] == Opened(concurrency)
    && forall k :: 0 <= k < |moves| ==> CanMove(desks[k], moves[k]) && desks[k + 1] == Moving(desks[k], moves[k])
  }

  /** No row is leased to the worker while the worker still holds an earlier lease of it. */
  ghost predicate NeverLeasedTwice(desks: seq<Desk>, moves: seq<Move>)
    requires |desks| == |moves| + 1
  {
    forall k :: 0 <= k < |moves| && moves[k].TakeMove? ==> moves[k].lease.record.id !in desks[k].owned
  }

  /** Conservation holds in every state of every run. */
  lemma {:induction false} EveryShiftBalances(desks: seq<Desk>, moves: seq<Move>, concurrency: nat, k: nat)
    requires IsShift(desks, moves, concurrency) && k < |desks|
    ensures Balanced(desks[k], concurrency)
  {
    if k > 0 {
      EveryShiftBalances(desks, moves, concurrency, k - 1);
      var d := desks[k - 1];
      match moves[k - 1]
      case TakeMove(queue, l) => TakeKeepsBalance(d, concurrency, queue, l);
      case StartMove => StartKeepsOrder(d);
      case FinishMove(i) => FinishKeepsBalance(d, concurrency, i);
      case HandleMove => HandleKeepsBalance(d, concurrency);
    }
  }

  lemma {:induction false} OwnedByRow(desks: seq<Desk>, moves: seq<Move>, concurrency: nat, k: nat, id: Id)
    requires IsShift(desks, moves, concurrency) && k < |desks| && id in desks[k].owned
    ensures desks[k].owned[id].record.id == id
  {
    if k > 0 && id in desks[k - 1].owned {
      OwnedByRow(desks, moves, concurrency, k - 1, id);
    }
  }

  lemma {:induction false} EveryShiftKeepsCustody(desks: seq<Desk>, moves: seq<Move>, concurrency: nat, k: nat)
    requires IsShift(desks, moves, concurrency) && NeverLeasedTwice(desks, moves) && k < |desks|
    ensures InCustody(desks[k])
  {
    if k > 0 {
      EveryShiftKeepsCustody(desks, moves, concurrency, k - 1);
      var d := desks[k - 1];
      match moves[k - 1]
      case TakeMove(queue, l) => TakeKeepsCustody(d, queue, l);
      case StartMove => StartKeepsOrder(d);
      case FinishMove(i) => FinishKeepsCustody(d, i);
      case HandleMove => HandleKeepsCustody(d);
    }
  }

  /** Stopping here and releasing what is still owned, the leases handed back are the leases taken, each once. */
  predicate HandsBackAll(d: Desk) {
    Closed(d).back == d.taken
  }

  lemma CustodyHandsBackAll(desks: seq<Desk>, moves: seq<Move>, concurrency: nat, k: nat)
    requires IsShift(desks, moves, concurrency) && k < |desks|
    ensures HandsBackAll(desks[k]) <==> InCustody(desks[k])
  {
    EveryShiftBalances(desks, moves, concurrency, k);
    forall id | id in desks[k].owned ensures desks[k].owned[id].record.id == id {
      OwnedByRow(desks, moves, concurrency, k, id);
    }
    var d := desks[k];
    assert Closed(d).back - d.back == multiset(d.owned.Values);
    assert d.taken - d.back == Held(Outstanding(d));
  }

  /**
   Exactly-once hand-back.  Wherever a run is stopped, every lease taken has been
   handed back exactly once, if and only if no row is leased to the worker while
   it still holds an earlier lease of that row.
   */
  lemma HandedBackExactlyOnce(desks: seq<Desk>, moves: seq<Move>, concurrency: nat)
    requires IsShift(desks, moves, concurrency)
    ensures (forall k :: 0 <= k < |desks| ==> HandsBackAll(desks[k])) <==> NeverLeasedTwice(desks, moves)
  {
    if NeverLeasedTwice(desks, moves) {
      forall k | 0 <= k < |desks| ensures HandsBackAll(desks[k]) {
        EveryShiftKeepsCustody(desks, moves, concurrency, k);
        CustodyHandsBackAll(desks, moves, concurrency, k);
      }
    } else {
      var k :| 0 <= k < |moves| && moves[k].TakeMove? && moves[k].lease.record.id in desks[k].owned;
      CustodyHandsBackAll(desks, moves, concurrency, k);
      CustodyHandsBackAll(desks, moves, concurrency, k + 1);
      if HandsBackAll(desks[k]) {
        TakeKeepsCustody(desks[k], moves[k].queue, moves[k].lease);
      }
    }
  }

  /** For example: leased one row twice, the worker releases only the newer lease. */
  lemma SecondLeaseLosesFirst(a: Lease, b: Lease)
    requires a.record.id == b.record.id && a != b
    ensures var d := Take(Take(Opened(2), 0, a), 0, b);
            && IsShift([Opened(2), Take(Opened(2), 0, a), d], [TakeMove(0, a), TakeMove(0, b)], 2)
            && Closed(d).back == multiset{b} && d.taken == multiset{a, b}
  {
    var d := Take(Take(Opened(2), 0, a), 0, b);
    assert d.owned == map[a.record.id := b];
    assert d.owned[a.record.id] == b;
    assert d.owned.Values == {b};
  }
}
