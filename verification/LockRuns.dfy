/**
 Consumer locks over whole runs: when a row that one owner locked can come into
 the hands of another.
 */
module LockRuns {
  import opened Scheduling
  import opened ProxyRows
  import opened ProxyStore
  import opened ScanRuns

  /** The step locks row `id`, or renews its lock, as of now. */
  ghost predicate Locks(s: State, e: Event, p: Policy, id: Id) {
    || (e.ClaimProxy? && e.claimed == Some(id))
    || (e.RefreshLock? && e.id == id && id in s.rows && Refreshable(s.rows[id], e.owner, e.ttl, p, s.now))
  }

  /** The step gives up the lock of row `id`: a release or a cooldown by its owner, or a stale failure of its owner. */
  ghost predicate Frees(s: State, e: Event, id: Id) {
    && id in s.rows
    && match e
       case ReleaseProxy(row, owner) => row == id && s.rows[id].lockedBy == Some(owner)
       case Cooldown(row, owner, _) => row == id && s.rows[id].lockedBy == Some(owner)
       case ConsumerFailure(rec, owner, ttl, _) =>
         rec.id == id && LockValid(s.rows[id], owner, ttl, s.now) && s.rows[id].version != rec.version
       case _ => false
  }

  /** These are the only steps that change a lock. */
  lemma LockStep(s: State, e: Event, p: Policy, id: Id)
    requires Enabled(s, e, p) && id in s.rows
    ensures id in Next(s, e, p).rows
    ensures var r, r' := s.rows[id], Next(s, e, p).rows[id];
            && (Locks(s, e, p, id) ==> r'.lockedBy == Some(e.owner) && r'.lockedAt == Some(s.now))
            && (Frees(s, e, id) ==> r'.lockedBy.None? && r'.lockedAt.None?)
            && (!Locks(s, e, p, id) && !Frees(s, e, id) ==> r'.lockedBy == r.lockedBy && r'.lockedAt == r.lockedAt)
  {
  }

  lemma LockedIsListed(s: State, e: Event, p: Policy, id: Id)
    requires Enabled(s, e, p) && Locks(s, e, p, id)
    ensures id in s.rows
    ensures e.ClaimProxy? ==> Available(s.rows[id], p, e.ttl, s.now)
  {
  }

  /** Until a lock is given up, the row shows who locked it last and when. */
  lemma {:induction false} LastLock(states: seq<System>, actions: seq<Action>, p: Policy, i: nat, j: nat, id: Id) returns (m: nat)
    requires IsRun(states, actions, p) && i < j < |states| && Locks(states[i].store, EventOf(actions[i], p), p, id)
    requires forall k :: i < k < j ==> !Frees(states[k].store, EventOf(actions[k], p), id)
    ensures i <= m < j && Locks(states[m].store, EventOf(actions[m], p), p, id)
    ensures forall k :: m < k < j ==> !Locks(states[k].store, EventOf(actions[k], p), p, id)
    ensures id in states[j].store.rows
    ensures states[j].store.rows[id].lockedBy == Some(EventOf(actions[m], p).owner)
    ensures states[j].store.rows[id].lockedAt == Some(states[m].store.now)
    decreases j
  {
    var s, e := states[j - 1].store, EventOf(actions[j - 1], p);
    m := j - 1;
    if Locks(s, e, p, id) {
      LockedIsListed(s, e, p, id);
      LockStep(s, e, p, id);
    } else {
      m := LastLock(states, actions, p, i, j - 1, id);
      LockStep(s, e, p, id);
    }
  }

  /**
   Lock exclusivity.  After an owner locked a row, a claim by anyone gets the row
   only once the lock was given up, or when the last claim or refresh of the row is
   longer ago than the lock lifetime that the claim allows.
   */
  lemma LockIsExclusive(states: seq<System>, actions: seq<Action>, p: Policy, i: nat, j: nat, id: Id) returns (m: nat)
    requires IsRun(states, actions, p) && i < j < |actions| && Locks(states[i].store, EventOf(actions[i], p), p, id)
    requires EventOf(actions[j], p).ClaimProxy? && EventOf(actions[j], p).claimed == Some(id)
    requires forall k :: i < k < j ==> !Frees(states[k].store, EventOf(actions[k], p), id)
    ensures i <= m < j && Locks(states[m].store, EventOf(actions[m], p), p, id)
    ensures forall k :: m < k < j ==> !Locks(states[k].store, EventOf(actions[k], p), p, id)
    ensures states[j].store.now > states[m].store.now + EventOf(actions[j], p).ttl
  {
    m := LastLock(states, actions, p, i, j, id);
    LockedIsListed(states[j].store, EventOf(actions[j], p), p, id);
  }

  /** Only a claim can bring a locked row to another owner, and only one that finds the lock expired. */
  lemma TakeoverNeedsExpiry(states: seq<System>, actions: seq<Action>, p: Policy, k: nat, id: Id, owner: Owner)
    requires IsRun(states, actions, p) && k < |actions|
    requires id in states[k].store.rows && states[k].store.rows[id].lockedBy == Some(owner)
    ensures id in states[k + 1].store.rows
    ensures var r, r', e := states[k].store.rows[id], states[k + 1].store.rows[id], EventOf(actions[k], p);
            r'.lockedBy.Some? && r'.lockedBy != Some(owner) ==>
              e.ClaimProxy? && e.claimed == Some(id) && r'.lockedBy == Some(e.owner) && r'.lockedAt == Some(states[k].store.now)
              && (r.lockedAt.Some? ==> r.lockedAt.value + e.ttl < states[k].store.now)
  {
    var s, e := states[k].store, EventOf(actions[k], p);
    LockStep(s, e, p, id);
    if Locks(s, e, p, id) {
      LockedIsListed(s, e, p, id);
    }
  }
}
