/**
 The proxy table as the store that scanners and consumers share.  `State` and
 `Next` describe each statement as one atomic step; the class `Store` is the
 in-memory store, whose methods are proved to take exactly those steps.
 */
module ProxyStore {
  import opened Scheduling
  import opened ProxyRows

  datatype State = State(rows: map<Id, Record>, now: Time, nextToken: nat)

  datatype Event =
    | Tick(to: Time)
    | Insert(id: Id, endpoint: Endpoint, uptime: Option<int>, latency: Option<int>)
    | ClaimScans(queue: Queue, chosen: seq<Id>)
    | CompleteScan(lease: Lease, update: Update)
    | ReleaseScan(lease: Lease)
    | ClaimProxy(owner: Owner, claimed: Option<Id>, ttl: int)
    | RefreshLock(id: Id, owner: Owner, ttl: int)
    | ConsumerFailure(rec: Record, owner: Owner, ttl: int, update: Update)
    | Cooldown(id: Id, owner: Owner, delay: int)
    | ReleaseProxy(id: Id, owner: Owner)

  // ----- what a claim selects

  ghost predicate Sorted(rows: map<Id, Record>, queue: Queue, ids: seq<Id>) {
    && (forall i :: 0 <= i < |ids| ==> ids[i] in rows)
    && (forall i, j :: 0 <= i < j < |ids| ==> Before(rows[ids[i]], rows[ids[j]], queue))
  }

  predicate Candidate(rows: map<Id, Record>, queue: Queue, p: Policy, now: Time, skipped: set<Id>, id: Id) {
    id in rows && id !in skipped && Claimable(rows[id], queue, p, now)
  }

  /**
   `chosen` is the answer to a claim of `limit` rows when the rows `skipped`
   are locked by other transactions: due rows only, in claim order, as many as
   there are up to the limit, and none of them behind a due row left out.
   */
  ghost predicate Selects(rows: map<Id, Record>, queue: Queue, p: Policy, now: Time,
                          skipped: set<Id>, limit: nat, chosen: seq<Id>)
  {
    && Sorted(rows, queue, chosen)
    && |chosen| <= limit
    && (forall i :: 0 <= i < |chosen| ==> Candidate(rows, queue, p, now, skipped, chosen[i]))
    && (forall id :: Candidate(rows, queue, p, now, skipped, id) && id !in chosen ==>
                       && |chosen| == limit
                       && forall i :: 0 <= i < |chosen| ==> Before(rows[chosen[i]], rows[id], queue))
  }

  /** Rows are stored under their own id. */
  ghost predicate Keyed(rows: map<Id, Record>) {
    forall id :: id in rows ==> rows[id].id == id
  }

  /** The answer to a claim is determined: two selections agree row by row. */
  lemma SelectionIsUnique(rows: map<Id, Record>, queue: Queue, p: Policy, now: Time,
                          skipped: set<Id>, limit: nat, a: seq<Id>, b: seq<Id>)
    requires Keyed(rows)
    requires Selects(rows, queue, p, now, skipped, limit, a)
    requires Selects(rows, queue, p, now, skipped, limit, b)
    ensures a == b
  {
    SelectionPrefix(rows, queue, p, now, skipped, limit, a, b, |a|);
    SelectionPrefix(rows, queue, p, now, skipped, limit, b, a, |b|);
  }

  lemma {:induction false} SelectionPrefix(rows: map<Id, Record>, queue: Queue, p: Policy, now: Time,
                          skipped: set<Id>, limit: nat, a: seq<Id>, b: seq<Id>, k: nat)
    requires Keyed(rows) && k <= |a|
    requires Selects(rows, queue, p, now, skipped, limit, a)
    requires Selects(rows, queue, p, now, skipped, limit, b)
    ensures k <= |b| && a[..k] == b[..k]
  {
    if k > 0 {
      SelectionPrefix(rows, queue, p, now, skipped, limit, a, b, k - 1);
      assert forall i :: 0 <= i < k - 1 ==> a[i] == a[..k - 1][i] == b[..k - 1][i] == b[i];
      assert k - 1 < |b| by {
        assert Candidate(rows, queue, p, now, skipped, a[k - 1]);
      }
      NotAhead(rows, queue, p, now, skipped, limit, a, b, k - 1);
      NotAhead(rows, queue, p, now, skipped, limit, b, a, k - 1);
      assert rows[a[k - 1]].id == rows[b[k - 1]].id;
    }
  }

  /** Where two selections first differ, neither can be ahead of the other. */
  lemma NotAhead(rows: map<Id, Record>, queue: Queue, p: Policy, now: Time,
                 skipped: set<Id>, limit: nat, a: seq<Id>, b: seq<Id>, k: nat)
    requires Keyed(rows) && k < |a| && k < |b|
    requires forall i :: 0 <= i < k ==> a[i] == b[i]
    requires Selects(rows, queue, p, now, skipped, limit, a)
    requires Selects(rows, queue, p, now, skipped, limit, b)
    ensures !Before(rows[a[k]], rows[b[k]], queue)
  {
    assert Candidate(rows, queue, p, now, skipped, a[k]);
    forall i | 0 <= i < |b| && Before(rows[a[k]], rows[b[k]], queue)
      ensures b[i] != a[k]
    {
      assert i < k ==> Before(rows[a[i]], rows[a[k]], queue);
      assert k < i ==> Before(rows[b[k]], rows[b[i]], queue);
    }
  }

  /** `claimed` is an available row that no other available row is preferred to. */
  ghost predicate SelectsProxy(rows: map<Id, Record>, p: Policy, ttl: int, now: Time,
                               skipped: set<Id>, claimed: Option<Id>)
  {
    match claimed
    case Some(c) =>
      && c in rows && c !in skipped && Available(rows[c], p, ttl, now)
      && forall id :: id in rows && id !in skipped && Available(rows[id], p, ttl, now) ==> !Preferred(rows[id], rows[c])
    case None => forall id :: id in rows && id !in skipped ==> !Available(rows[id], p, ttl, now)
  }

  // ----- one step of the store

  function StampAll(rows: map<Id, Record>, chosen: seq<Id>, token: nat, until: Time): map<Id, Record> {
    map id | id in rows :: if id in chosen then Stamped(rows[id], token, until) else rows[id]
  }

  function LeasesOf(rows: map<Id, Record>, chosen: seq<Id>, token: nat, until: Time): seq<Lease>
    requires forall i :: 0 <= i < |chosen| ==> chosen[i] in rows
  {
    seq(|chosen|, i requires 0 <= i < |chosen| =>
      Lease(Stamped(rows[chosen[i]], token, until), token, rows[chosen[i]].version))
  }

  /** The row that step `e` writes when it takes effect, for the steps that touch one row. */
  function RowAfter(r: Record, e: Event, p: Policy, now: Time): Record {
    match e
    case CompleteScan(l, u) => if Fenced(r, l, now) then AfterScan(r, u, now) else r
    case ReleaseScan(l) => if Releasable(r, l) then Unleased(r) else r
    case ClaimProxy(owner, _, _) => Locked(r, owner, now)
    case RefreshLock(_, owner, ttl) => if Refreshable(r, owner, ttl, p, now) then Locked(r, owner, now) else r
    case ConsumerFailure(rec, owner, ttl, u) =>
      if !LockValid(r, owner, ttl, now) then r
      else if r.version != rec.version then Unlocked(r)
      else AfterFailure(r, u, now)
    case Cooldown(_, owner, delay) => if r.lockedBy == Some(owner) then CooledDown(r, now + delay) else r
    case ReleaseProxy(_, owner) => if r.lockedBy == Some(owner) then Unlocked(r) else r
    case _ => r
  }

  /** The row that a step addresses, if it addresses one. */
  function Target(e: Event): Option<Id> {
    match e
    case CompleteScan(l, _) => Some(l.record.id)
    case ReleaseScan(l) => Some(l.record.id)
    case ClaimProxy(_, claimed, _) => claimed
    case RefreshLock(id, _, _) => Some(id)
    case ConsumerFailure(rec, _, _, _) => Some(rec.id)
    case Cooldown(id, _, _) => Some(id)
    case ReleaseProxy(id, _) => Some(id)
    case _ => None
  }

  function Next(s: State, e: Event, p: Policy): State {
    match e
    case Tick(to) => s.(now := to)
    case Insert(id, endpoint, uptime, latency) =>
      s.(rows := s.rows[id := NewRow(id, endpoint, uptime, latency, s.now)])
    case ClaimScans(_, chosen) =>
      s.(rows := StampAll(s.rows, chosen, s.nextToken, s.now + p.leaseDuration), nextToken := s.nextToken + 1)
    case _ =>
      if Target(e).Some? && Target(e).value in s.rows
      then s.(rows := s.rows[Target(e).value := RowAfter(s.rows[Target(e).value], e, p, s.now)])
      else s
  }

  ghost predicate Listed(rows: map<Id, Record>, endpoint: Endpoint) {
    exists id :: id in rows && rows[id].endpoint == endpoint
  }

  /** Whether the store can take the step `e`: time moves forward, ids are new, claims take what they may. */
  ghost predicate Enabled(s: State, e: Event, p: Policy) {
    match e
    case Tick(to) => s.now <= to
    case Insert(id, endpoint, _, _) => id !in s.rows && !Listed(s.rows, endpoint)
    case ClaimScans(queue, chosen) =>
      exists skipped: set<Id>, limit: nat :: Selects(s.rows, queue, p, s.now, skipped, limit, chosen)
    case ClaimProxy(_, claimed, ttl) =>
      exists skipped: set<Id> :: SelectsProxy(s.rows, p, ttl, s.now, skipped, claimed)
    case _ => true
  }

  /** Whether a completion or a consumer failure is accepted in state `s`. */
  predicate Accepted(s: State, e: Event) {
    match e
    case CompleteScan(l, _) => l.record.id in s.rows && Fenced(s.rows[l.record.id], l, s.now)
    case ConsumerFailure(rec, owner, ttl, _) =>
      && rec.id in s.rows
      && LockValid(s.rows[rec.id], owner, ttl, s.now)
      && s.rows[rec.id].version == rec.version
    case _ => false
  }

  datatype ClaimResult = ClaimError | Claimed(leases: seq<Lease>)

  // ----- the in-memory store

  /** Inserts `id` into ids that are already in claim order. */
  function Inserted(rows: map<Id, Record>, queue: Queue, ids: seq<Id>, id: Id): (r: seq<Id>)
    requires Keyed(rows) && Sorted(rows, queue, ids) && id in rows && id !in ids
    ensures Sorted(rows, queue, r)
    ensures forall x :: x in r <==> x == id || x in ids
  {
    if ids == [] then [id]
    else if Before(rows[id], rows[ids[0]], queue) then [id] + ids
    else
      assert forall x :: x in ids <==> x == ids[0] || x in ids[1..];
      var rest := Inserted(rows, queue, ids[1..], id);
      assert forall i :: 0 <= i < |rest| ==> rest[i] in rest;
      [ids[0]] + rest
  }

  /** Keeping the first `limit` of all candidates is what a claim selects. */
  lemma Truncated(rows: map<Id, Record>, queue: Queue, p: Policy, now: Time, skipped: set<Id>,
                  limit: nat, all: seq<Id>, ids: seq<Id>)
    requires Keyed(rows) && Sorted(rows, queue, all)
    requires forall id :: id in all <==> Candidate(rows, queue, p, now, skipped, id)
    requires ids == if |all| > limit then all[..limit] else all
    ensures Selects(rows, queue, p, now, skipped, limit, ids)
    ensures forall i, j :: 0 <= i < j < |ids| ==> ids[i] != ids[j]
  {
    forall i | 0 <= i < |ids| ensures Candidate(rows, queue, p, now, skipped, ids[i]) {
      assert all[i] in all;
    }
    forall id | Candidate(rows, queue, p, now, skipped, id) && id !in ids
      ensures |ids| == limit && forall i :: 0 <= i < |ids| ==> Before(rows[ids[i]], rows[id], queue)
    {
      var k :| 0 <= k < |all| && all[k] == id;
    }
    forall i, j | 0 <= i < j < |ids| ensures ids[i] != ids[j] {
      assert Before(rows[ids[i]], rows[ids[j]], queue);
    }
  }

  class Store {
    const policy: Policy
    var rows: map<Id, Record>
    var now: Time
    var nextToken: nat
    var nextId: nat

    ghost predicate Valid()
      reads this
    {
      Keyed(rows) && forall id :: id in rows ==> id < nextId
    }

    ghost function View(): State
      reads this
    {
      State(rows, now, nextToken)
    }

    constructor (policy: Policy)
      ensures Valid() && this.policy == policy && View() == State(map[], 0, 0)
    {
      this.policy := policy;
      rows, now, nextToken, nextId := map[], 0, 0, 1;
    }

    method Tick(d: nat)
      requires Valid()
      modifies this
      ensures Valid() && View() == Next(old(View()), Event.Tick(old(now) + d), policy)
    {
      now := now + d;
    }

    /** Inserts a row under an id never used before, unless the endpoint has a row already. */
    method InsertIfAbsent(endpoint: Endpoint, uptime: Option<int>, latency: Option<int>) returns (id: Option<Id>)
      requires Valid()
      modifies this
      ensures Valid() && (id.None? <==> Listed(old(rows), endpoint))
      ensures id.None? ==> View() == old(View())
      ensures id.Some? ==>
                && Enabled(old(View()), Insert(id.value, endpoint, uptime, latency), policy)
                && View() == Next(old(View()), Insert(id.value, endpoint, uptime, latency), policy)
      ensures id.Some? ==>
                && id.value !in old(rows) && rows.Keys == old(rows).Keys + {id.value}
                && var r := rows[id.value];
                && r.id == id.value && r.endpoint == endpoint && r.uptime == uptime && r.latency == latency && r.firstSeen == now
                && r.status == Inactive && !r.healthy && r.failCount == 0 && r.version == 0
                && r.token.None? && r.lockedBy.None? && r.lastAlive.None? && r.cooldownUntil.None?
    {
      var todo := rows.Keys;
      while todo != {}
        invariant todo <= rows.Keys
        invariant forall other :: other in rows && other !in todo ==> rows[other].endpoint != endpoint
        decreases todo
      {
        var other :| other in todo;
        if rows[other].endpoint == endpoint {
          return None;
        }
        todo := todo - {other};
      }
      rows := rows[nextId := NewRow(nextId, endpoint, uptime, latency, now)];
      nextId := nextId + 1;
      return Some(nextId - 1);
    }

    /** Collects the due rows of a queue in claim order. */
    method Candidates(queue: Queue, skipped: set<Id>) returns (ids: seq<Id>)
      requires Valid()
      ensures Sorted(rows, queue, ids)
      ensures forall id :: id in ids <==> Candidate(rows, queue, policy, now, skipped, id)
    {
      ids := [];
      var todo := rows.Keys;
      while todo != {}
        invariant todo <= rows.Keys
        invariant Sorted(rows, queue, ids)
        invariant forall id :: id in ids <==> Candidate(rows, queue, policy, now, skipped, id) && id !in todo
        decreases todo
      {
        var id :| id in todo;
        if Candidate(rows, queue, policy, now, skipped, id) {
          ids := Inserted(rows, queue, ids, id);
        }
        todo := todo - {id};
      }
    }

    /** Stamps the chosen rows with one batch token and hands out their leases. */
    method Stamp(ids: seq<Id>, token: nat, until: Time) returns (leases: seq<Lease>)
      requires Valid()
      requires forall i :: 0 <= i < |ids| ==> ids[i] in rows
      requires forall i, j :: 0 <= i < j < |ids| ==> ids[i] != ids[j]
      modifies this`rows
      ensures Valid()
      ensures rows == StampAll(old(rows), ids, token, until)
      ensures leases == LeasesOf(old(rows), ids, token, until)
    {
      leases := [];
      ghost var before := rows;
      assert StampAll(before, ids[..0], token, until) == before;
      for i := 0 to |ids|
        invariant rows == StampAll(before, ids[..i], token, until)
        invariant leases == LeasesOf(before, ids[..i], token, until)
      {
        assert ids[..i + 1] == ids[..i] + [ids[i]];
        assert ids[i] !in ids[..i];
        var stamped := Stamped(rows[ids[i]], token, until);
        leases := leases + [Lease(stamped, token, rows[ids[i]].version)];
        rows := rows[ids[i] := stamped];
      }
      assert ids[..|ids|] == ids;
    }

    method ClaimScans(queue: Queue, limit: int, skipped: set<Id>) returns (r: ClaimResult, ghost chosen: seq<Id>)
      requires Valid()
      modifies this
      ensures Valid()
      ensures limit <= 0 ==> r.ClaimError? && View() == old(View())
      ensures limit > 0 ==>
                && r.Claimed?
                && Selects(old(rows), queue, policy, now, skipped, limit, chosen)
                && View() == (if chosen == [] then old(View())
                              else Next(old(View()), Event.ClaimScans(queue, chosen), policy))
                && r.leases == LeasesOf(old(rows), chosen, old(nextToken), now + policy.leaseDuration)
    {
      if limit <= 0 {
        return ClaimError, [];
      }
      var ids := Candidates(queue, skipped);
      ghost var all := ids;
      if |ids| > limit {
        ids := ids[..limit];
      }
      chosen := ids;
      Truncated(rows, queue, policy, now, skipped, limit, all, ids);
      if ids == [] {
        return Claimed([]), chosen;
      }
      var leases := Stamp(ids, nextToken, now + policy.leaseDuration);
      nextToken := nextToken + 1;
      return Claimed(leases), chosen;
    }

    method CompleteScan(lease: Lease, update: Update) returns (accepted: bool)
      requires Valid()
      modifies this
      ensures Valid()
      ensures accepted == Accepted(old(View()), Event.CompleteScan(lease, update))
      ensures View() == Next(old(View()), Event.CompleteScan(lease, update), policy)
      ensures !accepted ==> View() == old(View())
    {
      var id := lease.record.id;
      if id !in rows || !Fenced(rows[id], lease, now) {
        assert id in rows ==> rows[id := rows[id]] == rows;
        return false;
      }
      rows := rows[id := AfterScan(rows[id], update, now)];
      return true;
    }

    method ReleaseScan(lease: Lease)
      requires Valid()
      modifies this
      ensures Valid() && View() == Next(old(View()), Event.ReleaseScan(lease), policy)
    {
      var id := lease.record.id;
      if id in rows {
        assert rows[id := rows[id]] == rows;
        if Releasable(rows[id], lease) {
          rows := rows[id := Unleased(rows[id])];
        }
      }
    }

    method ClaimProxy(owner: Owner, ttl: int, skipped: set<Id>) returns (claimed: Option<Record>)
      requires Valid()
      modifies this
      ensures Valid()
      ensures var id := if claimed.Some? then Some(claimed.value.id) else None;
              && SelectsProxy(old(rows), policy, ttl, now, skipped, id)
              && View() == Next(old(View()), Event.ClaimProxy(owner, id, ttl), policy)
              && (claimed.Some? ==> claimed.value == Locked(old(rows)[id.value], owner, now))
    {
      var best: Option<Id> := None;
      var todo := rows.Keys;
      while todo != {}
        invariant todo <= rows.Keys
        invariant best.Some? ==> best.value in rows && best.value !in skipped && Available(rows[best.value], policy, ttl, now)
        invariant forall id :: id in rows && id !in todo && id !in skipped && Available(rows[id], policy, ttl, now) ==>
                                 best.Some? && !Preferred(rows[id], rows[best.value])
        decreases todo
      {
        var id :| id in todo;
        if id !in skipped && Available(rows[id], policy, ttl, now) {
          if best.None? || Preferred(rows[id], rows[best.value]) {
            best := Some(id);
          }
        }
        todo := todo - {id};
      }
      if best.None? {
        return None;
      }
      var id := best.value;
      var locked := Locked(rows[id], owner, now);
      assert locked.id == id;
      rows := rows[id := locked];
      return Some(locked);
    }

    method RefreshConsumerLock(id: Id, owner: Owner, ttl: int) returns (current: Option<Record>)
      requires Valid()
      modifies this
      ensures Valid() && View() == Next(old(View()), RefreshLock(id, owner, ttl), policy)
      ensures current.Some? <==> id in old(rows) && Refreshable(old(rows)[id], owner, ttl, policy, now)
      ensures current.Some? ==> id in rows && current.value == rows[id] == Locked(old(rows)[id], owner, now)
      ensures current.None? ==> View() == old(View())
    {
      if id !in rows {
        return None;
      }
      assert rows[id := rows[id]] == rows;
      if !Refreshable(rows[id], owner, ttl, policy, now) {
        return None;
      }
      rows := rows[id := Locked(rows[id], owner, now)];
      return Some(rows[id]);
    }

    method RecordConsumerFailure(rec: Record, owner: Owner, ttl: int, update: Update) returns (accepted: bool)
      requires Valid()
      modifies this
      ensures Valid()
      ensures accepted == Accepted(old(View()), ConsumerFailure(rec, owner, ttl, update))
      ensures View() == Next(old(View()), ConsumerFailure(rec, owner, ttl, update), policy)
    {
      if rec.id !in rows {
        return false;
      }
      var r := rows[rec.id];
      assert rows[rec.id := r] == rows;
      if !LockValid(r, owner, ttl, now) || r.version != rec.version {
        if LockValid(r, owner, ttl, now) {
          rows := rows[rec.id := Unlocked(r)];
        }
        return false;
      }
      rows := rows[rec.id := AfterFailure(r, update, now)];
      return true;
    }

    method CooldownDestination(id: Id, owner: Owner, delay: int)
      requires Valid()
      modifies this
      ensures Valid() && View() == Next(old(View()), Cooldown(id, owner, delay), policy)
    {
      if id in rows {
        assert rows[id := rows[id]] == rows;
        if rows[id].lockedBy == Some(owner) {
          rows := rows[id := CooledDown(rows[id], now + delay)];
        }
      }
    }

    method ReleaseProxy(id: Id, owner: Owner)
      requires Valid()
      modifies this
      ensures Valid() && View() == Next(old(View()), Event.ReleaseProxy(id, owner), policy)
    {
      if id in rows {
        assert rows[id := rows[id]] == rows;
        if rows[id].lockedBy == Some(owner) {
          rows := rows[id := Unlocked(rows[id])];
        }
      }
    }
  }
}
