/**
 Handing a proxy to a worker: claim a row, check it against the destination,
 then revalidate or reject it.  Other scanners and consumers keep changing the
 table while the check runs and between the store calls.
 */
module Hub {
  import opened Scheduling
  import opened ProxyRows
  import opened ProxyStore

  /** A store call answers, or fails and changes nothing. */
  datatype Reply<+T> = Broken | Ok(value: T)

  ghost function Held(s: State, owner: Owner): set<Id> {
    set id | id in s.rows && s.rows[id].lockedBy == Some(owner)
  }

  /** A step that is not taken in the name of `owner`. */
  predicate Foreign(e: Event, owner: Owner) {
    match e
    case ClaimProxy(other, _, _) => other != owner
    case RefreshLock(_, other, _) => other != owner
    case ConsumerFailure(_, other, _, _) => other != owner
    case Cooldown(_, other, _) => other != owner
    case ReleaseProxy(_, other) => other != owner
    case _ => true
  }

  predicate AllForeign(events: seq<Event>, owner: Owner) {
    forall e :: e in events ==> Foreign(e, owner)
  }

  function Play(s: State, events: seq<Event>, p: Policy): State {
    if events == [] then s
    else Next(Play(s, events[..|events| - 1], p), events[|events| - 1], p)
  }

  // ----- one handout

  /** One call of the hub: what it is configured with, what the check says, what others do meanwhile, which calls fail. */
  datatype Job = Job(
    owner: Owner, ttl: int, floor: int, policy: Policy, checked: bool, answer: CheckResult,
    during: seq<Event>, between: seq<Event>, actFails: bool, releaseFails: bool)

  datatype Handout = Handout(state: State, reply: Reply<Option<Record>>)

  /** The store call that the answer of the check leads to; without one the claim is just given up. */
  function Act(rec: Record, j: Job): Option<Event> {
    if j.answer.Passed? then Some(RefreshLock(rec.id, j.owner, j.ttl))
    else if j.answer.typed.None? then None
    else match j.answer.typed.value.kind
      case CheckProxy => Some(ConsumerFailure(rec, j.owner, j.ttl, FailureUpdate(j.policy, rec.recoveryStep)))
      case CheckTarget =>
        var hint := j.answer.typed.value.retryAfter;
        Some(Cooldown(rec.id, j.owner, if hint > j.floor then hint else j.floor))
      case _ => None
  }

  function GivenUp(s: State, rec: Record, j: Job, p: Policy): State {
    if j.releaseFails then s else Next(s, Event.ReleaseProxy(rec.id, j.owner), p)
  }

  /** The handout of the claimed row `rec`, from the state `s` right after the claim. */
  function Resolve(s: State, rec: Record, j: Job, p: Policy): Handout {
    if !j.checked then Handout(s, Ok(Some(rec)))
    else
      var after := Play(s, j.during, p);
      match Act(rec, j)
      case None => Handout(GivenUp(after, rec, j, p), Ok(None))
      case Some(e) => if j.actFails then Handout(after, Broken) else Answered(after, e, rec, j, p)
  }

  function Answered(s: State, e: Event, rec: Record, j: Job, p: Policy): Handout {
    var next := Next(s, e, p);
    if e.RefreshLock? && rec.id in s.rows && Refreshable(s.rows[rec.id], j.owner, j.ttl, p, s.now)
    then Handout(next, Ok(Some(Locked(s.rows[rec.id], j.owner, s.now))))
    else if e.Cooldown? then Handout(next, Ok(None))
    else Handout(GivenUp(Play(next, j.between, p), rec, j, p), Ok(None))
  }

  // ----- lock accounting

  lemma ForeignNeverLocks(s: State, e: Event, owner: Owner, p: Policy)
    requires Foreign(e, owner)
    ensures Held(Next(s, e, p), owner) <= Held(s, owner)
  {
  }

  lemma {:induction false} OthersNeverLock(s: State, events: seq<Event>, owner: Owner, p: Policy, k: nat)
    requires AllForeign(events, owner) && k <= |events|
    ensures Held(Play(s, events, p), owner) <= Held(Play(s, events[..k], p), owner)
    decreases |events|
  {
    if k < |events| {
      var prefix, last := events[..|events| - 1], events[|events| - 1];
      assert prefix[..k] == events[..k];
      OthersNeverLock(s, prefix, owner, p, k);
      ForeignNeverLocks(Play(s, prefix, p), last, owner, p);
    } else {
      assert events[..k] == events;
    }
  }

  lemma OthersOnlyTake(s: State, events: seq<Event>, owner: Owner, p: Policy)
    requires AllForeign(events, owner)
    ensures Held(Play(s, events, p), owner) <= Held(s, owner)
  {
    OthersNeverLock(s, events, owner, p, 0);
    assert events[..0] == [];
  }

  /** Giving up releases the row, unless the release itself fails. */
  lemma GivingUp(s: State, rec: Record, j: Job, p: Policy)
    ensures var after := Held(GivenUp(s, rec, j, p), j.owner);
            after == if j.releaseFails then Held(s, j.owner) else Held(s, j.owner) - {rec.id}
  {
  }

  /** What the hub's own call does to the locks of its owner. */
  lemma ActingLocksNothing(s: State, rec: Record, j: Job, p: Policy)
    requires Act(rec, j).Some?
    ensures var e := Act(rec, j).value;
            var held := Held(Next(s, e, p), j.owner);
            && held <= Held(s, j.owner)
            && (e.Cooldown? ==> rec.id !in held)
            && (e.RefreshLock? ==> held == Held(s, j.owner))
  {
  }

  /** The locks after the answer was acted upon. */
  lemma AnsweredAccounting(s: State, rec: Record, j: Job, p: Policy)
    requires Act(rec, j).Some? && AllForeign(j.between, j.owner)
    ensures var h := Answered(s, Act(rec, j).value, rec, j, p);
            var held := Held(h.state, j.owner);
            && held <= Held(s, j.owner)
            && h.reply.Ok?
            && (h.reply.value.Some? ==> rec.id in held && h.state.rows[rec.id] == h.reply.value.value)
            && (h.reply.value.None? && !j.releaseFails ==> rec.id !in held)
  {
    var e := Act(rec, j).value;
    ActingLocksNothing(s, rec, j, p);
    var next := Next(s, e, p);
    OthersOnlyTake(next, j.between, j.owner, p);
    GivingUp(Play(next, j.between, p), rec, j, p);
  }

  /**
   Lock accounting of a handout, whatever the others do meanwhile.  A returned
   proxy is locked by the owner, as it stands in the table; when nothing is
   returned the claimed row is not locked by the owner; and no other row becomes
   locked.  A failed release, or a failed call after the claim, leaves at most
   the claimed row locked.
   */
  lemma HandoutAccounting(s: State, id: Id, j: Job, p: Policy)
    requires id in s.rows && s.rows[id].id == id
    requires AllForeign(j.during, j.owner) && AllForeign(j.between, j.owner)
    ensures var rec := Locked(s.rows[id], j.owner, s.now);
            var h := Resolve(Next(s, Event.ClaimProxy(j.owner, Some(id), j.ttl), p), rec, j, p);
            var held := Held(h.state, j.owner);
            && held <= Held(s, j.owner) + {id}
            && (h.reply.Ok? && h.reply.value.Some? ==> id in held && h.state.rows[id] == h.reply.value.value)
            && (h.reply.Ok? && h.reply.value.None? && !j.releaseFails ==> id !in held)
  {
    var rec := Locked(s.rows[id], j.owner, s.now);
    var claimed := Next(s, Event.ClaimProxy(j.owner, Some(id), j.ttl), p);
    assert Held(claimed, j.owner) == Held(s, j.owner) + {id};
    if j.checked {
      OthersOnlyTake(claimed, j.during, j.owner, p);
      var after := Play(claimed, j.during, p);
      if Act(rec, j).Some? {
        AnsweredAccounting(after, rec, j, p);
      } else {
        GivingUp(after, rec, j, p);
      }
    }
  }

  /** An owner that starts without a lock ends with exactly the lock of the proxy it was handed, or with none. */
  lemma HoldsExactlyWhatItGot(s: State, id: Id, j: Job, p: Policy)
    requires id in s.rows && s.rows[id].id == id && Held(s, j.owner) == {}
    requires AllForeign(j.during, j.owner) && AllForeign(j.between, j.owner) && !j.releaseFails
    ensures var rec := Locked(s.rows[id], j.owner, s.now);
            var h := Resolve(Next(s, Event.ClaimProxy(j.owner, Some(id), j.ttl), p), rec, j, p);
            && (h.reply.Ok? ==> Held(h.state, j.owner) == if h.reply.value.Some? then {h.reply.value.value.id} else {})
            && (h.reply.Broken? ==> Held(h.state, j.owner) <= {id})
  {
    HandoutAccounting(s, id, j, p);
    var rec := Locked(s.rows[id], j.owner, s.now);
    var h := Resolve(Next(s, Event.ClaimProxy(j.owner, Some(id), j.ttl), p), rec, j, p);
    if h.reply.Ok? && h.reply.value.Some? && j.checked {
      HandedIsFit(Next(s, Event.ClaimProxy(j.owner, Some(id), j.ttl), p), rec, j, p);
    }
  }

  // ----- what a returned proxy is worth

  ghost predicate IdsKept(s: State, id: Id) {
    id in s.rows ==> s.rows[id].id == id
  }

  lemma {:induction false} PlayKeepsIds(s: State, events: seq<Event>, p: Policy, id: Id)
    requires IdsKept(s, id)
    ensures IdsKept(Play(s, events, p), id)
    decreases |events|
  {
    if events != [] {
      PlayKeepsIds(s, events[..|events| - 1], p, id);
    }
  }

  /**
   A proxy that a check precedes is, at the instant it is handed out, freshly
   verified, out of its cooldown and locked as of now; and its owner held it at
   every instant since the claim, so that no other consumer can have used it.
   */
  lemma HandedIsFit(s: State, rec: Record, j: Job, p: Policy)
    requires j.checked && AllForeign(j.during, j.owner) && IdsKept(s, rec.id)
    ensures var h := Resolve(s, rec, j, p);
            h.reply.Ok? && h.reply.value.Some? ==>
              var q := h.reply.value.value;
              && j.answer.Passed? && q.id == rec.id
              && Fresh(q, p, h.state.now) && Due(q.cooldownUntil, h.state.now)
              && q.lockedBy == Some(j.owner) && q.lockedAt == Some(h.state.now)
              && forall k :: 0 <= k <= |j.during| ==> rec.id in Held(Play(s, j.during[..k], p), j.owner)
  {
    PlayKeepsIds(s, j.during, p, rec.id);
    var after := Play(s, j.during, p);
    if rec.id in Held(after, j.owner) {
      forall k | 0 <= k <= |j.during| ensures rec.id in Held(Play(s, j.during[..k], p), j.owner) {
        OthersNeverLock(s, j.during, j.owner, p, k);
      }
    }
  }

  /**
   The hub's own call changes what is known about a row only when the check
   blamed the proxy, and then exactly when the claim still holds and nothing was
   observed since it; no answer of a destination renews freshness.
   */
  lemma OnlyProxyDeathIsRecorded(s: State, rec: Record, j: Job, p: Policy, id: Id)
    requires id in s.rows
    ensures var s' := if Act(rec, j).Some? then Next(s, Act(rec, j).value, p) else s;
            var r := s.rows[id];
            id in s'.rows &&
            var r' := s'.rows[id];
            var dies := Blamed(j.answer) && id == rec.id && Holds(r, j.owner, j.ttl, s.now) && r.version == rec.version;
            && (EvidenceOf(r') != EvidenceOf(r) <==> dies)
            && (dies ==> !r'.healthy && r'.failCount == r.failCount + 1 && r'.version == r.version + 1
                         && r'.lastVerified == r.lastVerified && r'.token.None?)
            && (!dies ==> r'.version == r.version)
  {
    if Blamed(j.answer) && id == rec.id {
      BlamedRow(s, rec, j, p);
    } else if Act(rec, j).Some? {
      OtherRow(s, rec, j, p, id);
    }
  }

  lemma BlamedRow(s: State, rec: Record, j: Job, p: Policy)
    requires rec.id in s.rows && Blamed(j.answer)
    ensures Act(rec, j).Some? && rec.id in Next(s, Act(rec, j).value, p).rows
    ensures var r, r' := s.rows[rec.id], Next(s, Act(rec, j).value, p).rows[rec.id];
            var dies := Holds(r, j.owner, j.ttl, s.now) && r.version == rec.version;
            && (dies ==> !r'.healthy && r'.failCount == r.failCount + 1 && r'.version == r.version + 1
                         && r'.lastVerified == r.lastVerified && r'.token.None?)
            && (!dies ==> EvidenceOf(r') == EvidenceOf(r) && r'.version == r.version)
  {
  }

  lemma OtherRow(s: State, rec: Record, j: Job, p: Policy, id: Id)
    requires id in s.rows && (id != rec.id || !Blamed(j.answer)) && Act(rec, j).Some?
    ensures id in Next(s, Act(rec, j).value, p).rows
    ensures var r, r' := s.rows[id], Next(s, Act(rec, j).value, p).rows[id];
            EvidenceOf(r') == EvidenceOf(r) && r'.version == r.version
  {
  }

  /** A destination's rejection keeps the row from every consumer for the longer of its hint and the configured floor. */
  lemma RejectionCoolsDown(s: State, rec: Record, j: Job, p: Policy, at: Time, ttl: int)
    requires j.answer.Failed? && j.answer.typed.Some? && j.answer.typed.value.kind.CheckTarget?
    requires rec.id in Held(s, j.owner)
    ensures var r := Next(s, Act(rec, j).value, p).rows[rec.id];
            && r.lockedBy.None?
            && (at < s.now + j.floor || at < s.now + j.answer.typed.value.retryAfter ==> !Available(r, p, ttl, at))
            && (Available(r, p, ttl, at) <==>
                  && Fresh(r, p, at) && !r.endpoint.protocol.Unsupported?
                  && s.now + j.floor <= at && s.now + j.answer.typed.value.retryAfter <= at
                  && Due(s.rows[rec.id].cooldownUntil, at))
  {
  }

  // ----- what each answer of the check leads to

  lemma {:induction false} PlayKeepsRows(s: State, events: seq<Event>, p: Policy, id: Id)
    requires id in s.rows
    ensures id in Play(s, events, p).rows
    decreases |events|
  {
    if events != [] {
      PlayKeepsRows(s, events[..|events| - 1], p, id);
    }
  }

  predicate Blamed(answer: CheckResult) {
    answer.Failed? && answer.typed.Some? && answer.typed.value.kind.CheckProxy?
  }

  predicate Rejected(answer: CheckResult) {
    answer.Failed? && answer.typed.Some? && answer.typed.value.kind.CheckTarget?
  }

  /** `r'` is row `r` after a recorded failure, unlocked. */
  predicate FellOut(r: Record, r': Record) {
    r'.version == r.version + 1 && r'.failCount == r.failCount + 1 && !r'.healthy && r'.lockedBy.None? && r'.lockedAt.None?
  }

  /** At the end of the check the row is still worth handing out. */
  predicate StillFit(r: Record, j: Job, p: Policy, now: Time) {
    && Holds(r, j.owner, j.ttl, now)
    && r.healthy && r.lastVerified.Some? && now < r.lastVerified.value + p.freshnessTTL
    && (r.cooldownUntil.Some? ==> r.cooldownUntil.value <= now)
  }

  /**
   A dead proxy is recorded: unless a store call fails, the row ends unhealthy with
   one failure and one version more, unlocked and handed to nobody, exactly if the
   check blamed the proxy and, at the end of the check, the lock was alive and
   nothing had been observed since the claim.
   */
  lemma BlamedProxyIsRecorded(s: State, rec: Record, j: Job, p: Policy)
    requires j.checked && !j.actFails && !j.releaseFails && j.between == [] && rec.id in s.rows
    ensures var end := Play(s, j.during, p);
            var h := Resolve(s, rec, j, p);
            && rec.id in end.rows && rec.id in h.state.rows
            && (FellOut(end.rows[rec.id], h.state.rows[rec.id]) && h.reply == Ok(None) <==>
                  Blamed(j.answer) && Holds(end.rows[rec.id], j.owner, j.ttl, end.now) && end.rows[rec.id].version == rec.version)
  {
    PlayKeepsRows(s, j.during, p, rec.id);
  }

  /** A passed check returns the row, relocked as of now, exactly if it is still fit at the end of the check; nothing else is ever returned. */
  lemma PassedCheckReturnsRow(s: State, rec: Record, j: Job, p: Policy)
    requires j.checked && !j.actFails && rec.id in s.rows
    ensures var end := Play(s, j.during, p);
            var h := Resolve(s, rec, j, p);
            && rec.id in end.rows && h.reply.Ok?
            && (h.reply.value.Some? <==> j.answer.Passed? && StillFit(end.rows[rec.id], j, p, end.now))
            && (h.reply.value.Some? ==> h.reply.value.value == end.rows[rec.id].(lockedAt := Some(end.now)))
  {
    PlayKeepsRows(s, j.during, p, rec.id);
  }

  /** A rejected check returns nothing, frees the lock if it is still the owner's, and puts off the row for the longer of floor and hint. */
  lemma RejectedCheckCoolsDown(s: State, rec: Record, j: Job, p: Policy)
    requires j.checked && !j.actFails && rec.id in s.rows && Rejected(j.answer)
    ensures var end := Play(s, j.during, p);
            var h := Resolve(s, rec, j, p);
            && rec.id in end.rows && rec.id in h.state.rows && h.reply == Ok(None)
            && var r, r' := end.rows[rec.id], h.state.rows[rec.id];
            if r.lockedBy != Some(j.owner) then h.state == end
            else
              && r'.lockedBy.None? && r'.lockedAt.None? && r'.cooldownUntil.Some?
              && EvidenceOf(r') == EvidenceOf(r) && r'.version == r.version
              && r'.cooldownUntil.value >= end.now + j.floor
              && r'.cooldownUntil.value >= end.now + j.answer.typed.value.retryAfter
              && (r.cooldownUntil.Some? ==> r'.cooldownUntil.value >= r.cooldownUntil.value)
              && (|| r'.cooldownUntil == r.cooldownUntil || r'.cooldownUntil.value == end.now + j.floor
                  || r'.cooldownUntil.value == end.now + j.answer.typed.value.retryAfter)
  {
    PlayKeepsRows(s, j.during, p, rec.id);
    var end := Play(s, j.during, p);
    assert end.rows[rec.id := end.rows[rec.id]] == end.rows;
  }

  /** Any other failure of the check gives the row back as it is; without a checker the claimed row is returned at once. */
  lemma OtherwiseNothingHappens(s: State, rec: Record, j: Job, p: Policy)
    requires !j.releaseFails && rec.id in s.rows
    ensures !j.checked ==> Resolve(s, rec, j, p) == Handout(s, Ok(Some(rec)))
    ensures j.checked && j.answer.Failed? && !Blamed(j.answer) && !Rejected(j.answer) ==>
              var end := Play(s, j.during, p);
              && rec.id in end.rows
              && var r := end.rows[rec.id];
              Resolve(s, rec, j, p) ==
              Handout(if r.lockedBy == Some(j.owner) then end.(rows := end.rows[rec.id := r.(lockedBy := None, lockedAt := None)]) else end, Ok(None))
  {
    PlayKeepsRows(s, j.during, p, rec.id);
    var end := Play(s, j.during, p);
    assert end.rows[rec.id := end.rows[rec.id]] == end.rows;
  }

  // ----- the objects

  /** What the other scanners and consumers do to the table. */
  method OtherActors(store: Store, events: seq<Event>)
    requires store.Valid()
    modifies store
    ensures store.Valid() && store.View() == Play(old(store.View()), events, store.policy)
  {
    ghost var start := store.View();
    assert events[..0] == [];
    for i := 0 to |events|
      invariant store.Valid() && store.View() == Play(start, events[..i], store.policy)
    {
      var next := Next(State(store.rows, store.now, store.nextToken), events[i], store.policy);
      assert events[..i + 1][..i] == events[..i];
      store.rows, store.now, store.nextToken := next.rows, next.now, next.nextToken;
      if events[i].Insert? && events[i].id >= store.nextId {
        store.nextId := events[i].id + 1;
      }
    }
    assert events[..|events|] == events;
  }

  /** A claimed proxy: the record as captured by the last call that returned it. */
  class Proxy {
    const store: Store
    const policy: Policy
    var record: Record

    constructor (record: Record, store: Store, policy: Policy)
      ensures this.record == record && this.store == store && this.policy == policy
    {
      this.record, this.store, this.policy := record, store, policy;
    }

    /** Revalidates the claim; on success the captured record is the current row, on failure it stays as it was. */
    method CanUse(owner: Owner, ttl: int, fails: bool) returns (r: Reply<bool>)
      requires store.Valid()
      modifies this`record, store
      ensures store.Valid()
      ensures r.Broken? <==> fails
      ensures store.View() == if fails then old(store.View()) else Next(old(store.View()), RefreshLock(old(record.id), owner, ttl), store.policy)
      ensures r == Ok(true) ==>
                && record.id == old(record.id) && record.id in store.rows && record == store.rows[record.id]
                && Fresh(record, store.policy, store.now) && Due(record.cooldownUntil, store.now)
                && record.lockedBy == Some(owner) && record.lockedAt == Some(store.now)
      ensures r != Ok(true) ==> record == old(record) && store.View() == old(store.View())
    {
      if fails {
        return Broken;
      }
      var current := store.RefreshConsumerLock(record.id, owner, ttl);
      if current.None? {
        return Ok(false);
      }
      record := current.value;
      return Ok(true);
    }

    method MarkFailed(owner: Owner, ttl: int, fails: bool) returns (r: Reply<bool>)
      requires store.Valid() && policy.Valid()
      modifies store
      ensures store.Valid()
      ensures var e := ConsumerFailure(record, owner, ttl, FailureUpdate(policy, record.recoveryStep));
              && r == (if fails then Broken else Ok(Accepted(old(store.View()), e)))
              && store.View() == if fails then old(store.View()) else Next(old(store.View()), e, store.policy)
    {
      if fails {
        return Broken;
      }
      var update := MakeConsumerFailureUpdate(policy, record.recoveryStep);
      var accepted := store.RecordConsumerFailure(record, owner, ttl, update);
      return Ok(accepted);
    }

    method CooldownDestination(owner: Owner, delay: int, fails: bool) returns (r: Reply<bool>)
      requires store.Valid()
      modifies store
      ensures store.Valid() && (r.Broken? <==> fails)
      ensures store.View() == if fails then old(store.View()) else Next(old(store.View()), Cooldown(record.id, owner, delay), store.policy)
    {
      if fails {
        return Broken;
      }
      store.CooldownDestination(record.id, owner, delay);
      return Ok(true);
    }

    method Release(owner: Owner, fails: bool) returns (r: Reply<bool>)
      requires store.Valid()
      modifies this`record, store
      ensures store.Valid() && (r.Broken? <==> fails)
      ensures store.View() == if fails then old(store.View()) else Next(old(store.View()), Event.ReleaseProxy(old(record.id), owner), store.policy)
      ensures record == if fails then old(record) else Unlocked(old(record))
    {
      if fails {
        return Broken;
      }
      store.ReleaseProxy(record.id, owner);
      record := Unlocked(record);
      return Ok(true);
    }
  }

  class ProxyHub {
    const store: Store
    const lockTTL: int
    const hasChecker: bool
    const destCooldown: int
    const policy: Policy

    constructor (store: Store, lockTTL: int, hasChecker: bool, destCooldown: int, policy: Policy)
      requires policy.Valid()
      ensures this.store == store && this.policy == policy
      ensures this.lockTTL == lockTTL && this.hasChecker == hasChecker && this.destCooldown == destCooldown
    {
      this.store, this.lockTTL, this.hasChecker, this.destCooldown, this.policy :=
        store, lockTTL, hasChecker, destCooldown, policy;
    }

    /** The job this hub takes on, given what it is configured with. */
    predicate Takes(j: Job) {
      j.ttl == lockTTL && j.floor == destCooldown && j.policy == policy && j.checked == hasChecker
    }

    /** Gives up a claim; an error is ignored. */
    method ReleaseClaim(p: Proxy, owner: Owner, fails: bool)
      requires p.store == store && store.Valid()
      modifies p, store
      ensures store.Valid()
      ensures store.View() == if fails then old(store.View()) else Next(old(store.View()), Event.ReleaseProxy(old(p.record.id), owner), store.policy)
    {
      var ignored := p.Release(owner, fails);
    }

    method NewProxy(j: Job, skipped: set<Id>, claimFails: bool) returns (r: Reply<Proxy?>, ghost claimed: Option<Id>)
      requires Takes(j) && store.Valid() && policy.Valid()
      modifies store
      ensures store.Valid()
      ensures claimFails ==> r.Broken? && store.View() == old(store.View())
      ensures !claimFails ==> SelectsProxy(old(store.rows), store.policy, lockTTL, old(store.now), skipped, claimed)
      ensures !claimFails && claimed.None? ==> r == Ok(null) && store.View() == old(store.View())
      ensures !claimFails && claimed.Some? ==>
                var start := old(store.View());
                var h := Resolve(Next(start, Event.ClaimProxy(j.owner, claimed, j.ttl), store.policy),
                                 Locked(start.rows[claimed.value], j.owner, start.now), j, store.policy);
                && store.View() == h.state
                && r.Broken? == h.reply.Broken?
                && (r.Ok? ==> (r.value != null) == h.reply.value.Some?)
                && (r.Ok? && r.value != null ==>
                      fresh(r.value) && r.value.store == store && r.value.policy == policy && r.value.record == h.reply.value.value)
      ensures r.Ok? && Held(old(store.View()), j.owner) == {} && AllForeign(j.during, j.owner) && AllForeign(j.between, j.owner) && !j.releaseFails ==>
                Held(store.View(), j.owner) == if r.value == null then {} else {r.value.record.id}
      ensures !claimFails && claimed.Some? && hasChecker && !j.actFails && !j.releaseFails && j.between == [] ==>
                var start := old(store.View());
                var end := Play(Next(start, Event.ClaimProxy(j.owner, claimed, j.ttl), store.policy), j.during, store.policy);
                && claimed.value in start.rows && claimed.value in end.rows && claimed.value in store.rows
                && (r == Ok(null) && FellOut(end.rows[claimed.value], store.rows[claimed.value]) <==>
                      && Blamed(j.answer) && Holds(end.rows[claimed.value], j.owner, lockTTL, end.now)
                      && end.rows[claimed.value].version == start.rows[claimed.value].version)
                && (r.Ok? && r.value != null <==> j.answer.Passed? && StillFit(end.rows[claimed.value], j, store.policy, end.now))
    {
      ghost var start := store.View();
      if claimFails {
        return Broken, None;
      }
      var rec := store.ClaimProxy(j.owner, lockTTL, skipped);
      if rec.None? {
        return Ok(null), None;
      }
      claimed := Some(rec.value.id);
      if Held(start, j.owner) == {} && AllForeign(j.during, j.owner) && AllForeign(j.between, j.owner) && !j.releaseFails {
        HoldsExactlyWhatItGot(start, claimed.value, j, store.policy);
      }
      var p := new Proxy(rec.value, store, policy);
      if !hasChecker {
        return Ok(p), claimed;
      }
      if !j.actFails && !j.releaseFails && j.between == [] {
        BlamedProxyIsRecorded(store.View(), rec.value, j, store.policy);
        PassedCheckReturnsRow(store.View(), rec.value, j, store.policy);
      }
      OtherActors(store, j.during);
      r := Answer(p, j);
    }

    /** The second half: revalidate or reject after the check. */
    method Answer(p: Proxy, j: Job) returns (r: Reply<Proxy?>)
      requires Takes(j) && store.Valid() && policy.Valid() && p.store == store && p.policy == policy
      modifies p, store
      ensures store.Valid()
      ensures var rec := old(p.record);
              var act := Act(rec, j);
              if act.None? then r == Ok(null) && store.View() == GivenUp(old(store.View()), rec, j, store.policy)
              else if j.actFails then r.Broken? && store.View() == old(store.View())
              else
                var h := Answered(old(store.View()), act.value, rec, j, store.policy);
                && store.View() == h.state && r.Ok?
                && (r.value != null) == h.reply.value.Some?
                && (r.value != null ==>
                      fresh(r.value) && r.value.store == store && r.value.policy == policy && r.value.record == h.reply.value.value)
    {
      var id := p.record.id;
      if j.answer.Passed? {
        if j.actFails {
          return Broken;
        }
        var current := store.RefreshConsumerLock(id, j.owner, lockTTL);
        if current.None? {
          OtherActors(store, j.between);
          ReleaseClaim(p, j.owner, j.releaseFails);
          return Ok(null);
        }
        var fit := new Proxy(current.value, store, policy);
        return Ok(fit);
      }
      if j.answer.typed.None? {
        ReleaseClaim(p, j.owner, j.releaseFails);
        return Ok(null);
      }
      match j.answer.typed.value.kind
      case CheckProxy =>
        var marked := p.MarkFailed(j.owner, lockTTL, j.actFails);
        if marked.Broken? {
          return Broken;
        }
        OtherActors(store, j.between);
        ReleaseClaim(p, j.owner, j.releaseFails);
        return Ok(null);
      case CheckTarget =>
        var hint := j.answer.typed.value.retryAfter;
        var cooled := p.CooldownDestination(j.owner, if hint > destCooldown then hint else destCooldown, j.actFails);
        return if cooled.Broken? then Broken else Ok(null);
      case _ =>
        ReleaseClaim(p, j.owner, j.releaseFails);
        return Ok(null);
    }
  }
}
