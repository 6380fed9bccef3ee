/**
 When the store says yes.  Completions, releases, claims, refreshes and failures,
 each characterised in both directions by who leased, locked or attempted the row
 and when.
 */
module ScanAnswers {
  import opened Scheduling
  import opened ProxyRows
  import opened ProxyStore
  import opened ScanRuns
  import opened ScanSchedule

  // ----- completions and releases

  /** A lease that its row still carries has its own version and the expiry of its claim. */
  lemma CarriedLease(states: seq<System>, actions: seq<Action>, p: Policy, i: nat, k: nat, l: Lease)
    requires p.Valid() && IsRun(states, actions, p) && IssuedAt(states, i, l) && i < k < |states|
    ensures l.record.id in states[k].store.rows
    ensures var r := states[k].store.rows[l.record.id];
            r.token == Some(l.token) ==>
              && r.claimedVersion == Some(l.version) && r.version == l.version
              && r.leaseUntil == Some(states[i].store.now + p.leaseDuration)
  {
    IssuedFacts(states, actions, p, i, l);
    RunMovesForward(states, actions, p, i + 1, k);
    RunKeepsInv(states, actions, p, k);
    if states[k].store.rows[l.record.id].token == Some(l.token) {
      TokenCarriedBetween(states, actions, p, i, k, k, l);
    }
  }

  /** What a completion does to a row that still carries the lease. */
  lemma LiveCompletion(s: State, a: Action, p: Policy, i: Time)
    requires a.FinishScan? && a.lease.record.id in s.rows
    requires var r, l := s.rows[a.lease.record.id], a.lease;
             && r.token == Some(l.token) && r.claimedVersion == Some(l.version) && r.version == l.version
             && r.leaseUntil == Some(i + p.leaseDuration) && s.now < i + p.leaseDuration
    ensures var r, s' := s.rows[a.lease.record.id], Next(s, EventOf(a, p), p);
            a.lease.record.id in s'.rows &&
            var r' := s'.rows[a.lease.record.id];
            && r'.token.None? && r'.leaseUntil.None? && r'.claimedVersion.None? && r'.lastCompleted == Some(s.now)
            && match ClassifyCheck(a.res, a.start, a.finish)
               case Success => r'.version == r.version + 1 && r'.healthy && r'.failCount == 0 && r'.latency == Some(a.latency)
               case Failure => r'.version == r.version + 1 && !r'.healthy && r'.failCount == r.failCount + 1
                               && r'.latency == r.latency && r'.lastAlive == r.lastAlive && r'.lastVerified == r.lastVerified
               case Inconclusive => r'.version == r.version && EvidenceOf(r') == EvidenceOf(r)
  {
  }

  lemma DeadCompletion(s: State, a: Action, p: Policy)
    requires a.FinishScan? && a.lease.record.id in s.rows
    requires var r, l := s.rows[a.lease.record.id], a.lease;
             r.token != Some(l.token) || r.leaseUntil.None? || r.leaseUntil.value <= s.now
    ensures Next(s, EventOf(a, p), p) == s
  {
    assert s.rows[a.lease.record.id := s.rows[a.lease.record.id]] == s.rows;
  }

  /** The completion at step `k` is in time: its row still carries the lease claimed at step `i`, and the lease has not run out. */
  ghost predicate InTime(states: seq<System>, p: Policy, i: nat, k: nat, l: Lease)
    requires i < |states| && k < |states| && l.record.id in states[k].store.rows
  {
    && states[k].store.rows[l.record.id].token == Some(l.token)
    && states[k].store.now < states[i].store.now + p.leaseDuration
  }

  /**
   A completion takes effect exactly if its row still carries the lease and the lease
   duration has not passed since the claim.  Then it ends the lease, stamps the
   attempt, and by its outcome verifies the row, fails it, or leaves what is known;
   otherwise it changes nothing at all.
   */
  lemma CompletionTakesEffectExactlyWhen(states: seq<System>, actions: seq<Action>, p: Policy, i: nat, k: nat, l: Lease)
    requires p.Valid() && IsRun(states, actions, p) && IssuedAt(states, i, l) && i < k < |actions|
    requires actions[k].FinishScan? && actions[k].lease == l
    ensures l.record.id in states[k].store.rows && l.record.id in states[k + 1].store.rows
    ensures var r, r' := states[k].store.rows[l.record.id], states[k + 1].store.rows[l.record.id];
            var outcome := ClassifyCheck(actions[k].res, actions[k].start, actions[k].finish);
            && (r'.token != r.token <==> InTime(states, p, i, k, l))
            && (InTime(states, p, i, k, l) ==> r'.token.None? && r'.lastCompleted == Some(states[k].store.now))
            && (InTime(states, p, i, k, l) && outcome.Success? ==>
                  r'.version == r.version + 1 && r'.healthy && r'.failCount == 0 && r'.latency == Some(actions[k].latency))
            && (InTime(states, p, i, k, l) && outcome.Failure? ==>
                  && r'.version == r.version + 1 && !r'.healthy && r'.failCount == r.failCount + 1
                  && r'.latency == r.latency && r'.lastAlive == r.lastAlive && r'.lastVerified == r.lastVerified)
            && (InTime(states, p, i, k, l) && outcome.Inconclusive? ==> r'.version == r.version && EvidenceOf(r') == EvidenceOf(r))
            && (!InTime(states, p, i, k, l) ==> states[k + 1].store == states[k].store)
  {
    CarriedLease(states, actions, p, i, k, l);
    if InTime(states, p, i, k, l) {
      LiveCompletion(states[k].store, actions[k], p, states[i].store.now);
    } else {
      DeadCompletion(states[k].store, actions[k], p);
    }
  }

  /** A release ends the lease exactly if its row still carries it, expired or not, and touches nothing else. */
  lemma ReleaseTakesEffectExactlyWhen(states: seq<System>, actions: seq<Action>, p: Policy, i: nat, k: nat, l: Lease)
    requires p.Valid() && IsRun(states, actions, p) && IssuedAt(states, i, l) && i < k < |actions|
    requires actions[k] == Plain(ReleaseScan(l))
    ensures l.record.id in states[k].store.rows && l.record.id in states[k + 1].store.rows
    ensures var r, r' := states[k].store.rows[l.record.id], states[k + 1].store.rows[l.record.id];
            if r.token == Some(l.token) then r' == r.(token := None, leaseUntil := None, claimedVersion := None)
            else states[k + 1].store == states[k].store
  {
    CarriedLease(states, actions, p, i, k, l);
    var s := states[k].store;
    assert s.rows[l.record.id := s.rows[l.record.id]] == s.rows;
  }

  // ----- what a row remembers of its last attempt

  /** Step `k` is the last accepted attempt on row `id` before state `j`. */
  ghost predicate LastAttempt(states: seq<System>, actions: seq<Action>, p: Policy, k: nat, j: nat, id: Id)
    requires |states| == |actions| + 1
  {
    && k < j < |states| && Attempts(states[k], actions[k], p, id)
    && forall m :: k < m < j ==> !Attempts(states[m], actions[m], p, id)
  }

  predicate Remembers(r: Record, r': Record) {
    && EvidenceOf(r) == EvidenceOf(r') && r.version == r'.version
    && r.nextAttempt == r'.nextAttempt && r.notBefore == r'.notBefore && r.lastCompleted == r'.lastCompleted
  }

  lemma OthersLeaveSchedule(s: State, e: Event, p: Policy, id: Id)
    requires id in s.rows && Enabled(s, e, p) && !(Accepted(s, e) && Target(e) == Some(id))
    ensures id in Next(s, e, p).rows && Remembers(s.rows[id], Next(s, e, p).rows[id])
  {
  }

  /** Between attempts nothing changes what is known of a row or when it is due. */
  lemma {:induction false} RemembersSince(states: seq<System>, actions: seq<Action>, p: Policy, k: nat, j: nat, id: Id)
    requires IsRun(states, actions, p) && k <= j < |states| && id in states[k].store.rows
    requires forall m :: k <= m < j ==> !Attempts(states[m], actions[m], p, id)
    ensures id in states[j].store.rows && Remembers(states[k].store.rows[id], states[j].store.rows[id])
    decreases j
  {
    if k < j {
      RemembersSince(states, actions, p, k, j - 1, id);
      OthersLeaveSchedule(states[j - 1].store, EventOf(actions[j - 1], p), p, id);
    }
  }

  // ----- claims

  /** With capacity left, a claim takes exactly the due rows it does not skip. */
  lemma SelectedExactlyWhenDue(rows: map<Id, Record>, queue: Queue, p: Policy, now: Time, skipped: set<Id>,
                               limit: nat, chosen: seq<Id>, id: Id)
    requires Selects(rows, queue, p, now, skipped, limit, chosen) && id in rows && id !in skipped
    ensures id in chosen ==> Claimable(rows[id], queue, p, now)
    ensures Claimable(rows[id], queue, p, now) && |chosen| < limit ==> id in chosen
  {
    if id in chosen {
      var n :| 0 <= n < |chosen| && chosen[n] == id;
      assert Candidate(rows, queue, p, now, skipped, chosen[n]);
    }
    if Claimable(rows[id], queue, p, now) {
      assert Candidate(rows, queue, p, now, skipped, id);
    }
  }

  predicate NotLeased(r: Record, now: Time) {
    r.leaseUntil.None? || r.leaseUntil.value <= now
  }

  predicate WithinHorizon(r: Record, p: Policy, now: Time) {
    r.lastVerified.Some? && now < r.lastVerified.value + p.recoveryHorizon
  }

  /**
   Claims after a failure.  The n-th consecutive failure at instant t keeps the row
   out of the verification queue, in the recovery queue until t plus
   min(base * 2^(n-1), cap) and as long as its last success is within the horizon,
   and in the background queue from the repeat floor on.  A claim with capacity left
   takes it exactly then.
   */
  lemma ClaimAfterFailure(states: seq<System>, actions: seq<Action>, p: Policy, k: nat, j: nat, id: Id,
                          queue: Queue, skipped: set<Id>, limit: nat, chosen: seq<Id>)
    requires p.Valid() && IsRun(states, actions, p) && LastAttempt(states, actions, p, k, j, id)
    requires FailsRow(states[k], actions[k], p, id) && id !in skipped
    requires Selects(states[j].store.rows, queue, p, states[j].store.now, skipped, limit, chosen)
    ensures id in states[j].store.rows
    ensures var r, now, t, n := states[j].store.rows[id], states[j].store.now, states[k].store.now, Trailing(states[k + 1].log, id);
            n > 0 &&
            var ripe := RipeAfterFailure(r, queue, p, now, t, LadderDelay(n - 1, p.recoveryBase, p.recoveryCap));
            (id in chosen ==> ripe) && (ripe && |chosen| < limit ==> id in chosen)
  {
    FailedRow(states, actions, p, k, j, id);
    var n := Trailing(states[k + 1].log, id);
    TakenAfterFailure(states[j].store.rows, queue, p, states[j].store.now, skipped, limit, chosen, id,
                      states[k].store.now, LadderDelay(n - 1, p.recoveryBase, p.recoveryCap));
  }

  /** A row that failed at `t` and waits for `wait` is due: not for verification, for recovery after the wait and within the horizon. */
  predicate RipeAfterFailure(r: Record, queue: Queue, p: Policy, now: Time, t: Time, wait: int) {
    && NotLeased(r, now) && now >= t + p.minRepeat && queue != Verification
    && (queue == Recovery ==> now >= t + wait && WithinHorizon(r, p, now))
  }

  lemma TakenAfterFailure(rows: map<Id, Record>, queue: Queue, p: Policy, now: Time, skipped: set<Id>,
                          limit: nat, chosen: seq<Id>, id: Id, t: Time, wait: int)
    requires Selects(rows, queue, p, now, skipped, limit, chosen) && id in rows && id !in skipped
    requires !rows[id].healthy && rows[id].nextAttempt == Some(t + wait) && rows[id].notBefore == Some(t + p.minRepeat)
    ensures id in chosen ==> RipeAfterFailure(rows[id], queue, p, now, t, wait)
    ensures RipeAfterFailure(rows[id], queue, p, now, t, wait) && |chosen| < limit ==> id in chosen
  {
    assert Claimable(rows[id], queue, p, now) <==> RipeAfterFailure(rows[id], queue, p, now, t, wait);
    SelectedExactlyWhenDue(rows, queue, p, now, skipped, limit, chosen, id);
  }

  /** What a row shows after a failure until the next attempt. */
  lemma FailedRow(states: seq<System>, actions: seq<Action>, p: Policy, k: nat, j: nat, id: Id)
    requires p.Valid() && IsRun(states, actions, p) && LastAttempt(states, actions, p, k, j, id) && FailsRow(states[k], actions[k], p, id)
    ensures id in states[j].store.rows && Trailing(states[k + 1].log, id) > 0
    ensures var r, t, n := states[j].store.rows[id], states[k].store.now, Trailing(states[k + 1].log, id);
            && !r.healthy && r.notBefore == Some(t + p.minRepeat)
            && r.nextAttempt == Some(t + LadderDelay(n - 1, p.recoveryBase, p.recoveryCap))
  {
    LadderSchedule(states, actions, p, k, id);
    RemembersSince(states, actions, p, k + 1, j, id);
  }

  /** Claims after a success: only by the verification queue, exactly from the verification interval (and the repeat floor) on. */
  lemma ClaimAfterSuccess(states: seq<System>, actions: seq<Action>, p: Policy, k: nat, j: nat, id: Id,
                          queue: Queue, skipped: set<Id>, limit: nat, chosen: seq<Id>)
    requires p.Valid() && IsRun(states, actions, p) && LastAttempt(states, actions, p, k, j, id)
    requires Verifies(states[k], actions[k], p, id) && id !in skipped
    requires Selects(states[j].store.rows, queue, p, states[j].store.now, skipped, limit, chosen)
    ensures id in states[j].store.rows
    ensures var r, now, t := states[j].store.rows[id], states[j].store.now, states[k].store.now;
            var ripe := NotLeased(r, now) && now >= t + p.minRepeat && queue == Verification && now >= t + p.verifyInterval;
            (id in chosen ==> ripe) && (ripe && |chosen| < limit ==> id in chosen)
  {
    SuccessSchedule(states, actions, p, k, id);
    RemembersSince(states, actions, p, k + 1, j, id);
    SelectedExactlyWhenDue(states[j].store.rows, queue, p, states[j].store.now, skipped, limit, chosen, id);
  }

  /** The wait after an inconclusive check: the retry floor, or the destination's hint if that is longer. */
  function RetryWait(res: CheckResult, p: Policy): int {
    if res.Failed? && res.typed.Some? && res.typed.value.retryAfter > p.inconclusiveRetry
    then res.typed.value.retryAfter else p.inconclusiveRetry
  }

  /** The accepted attempt at step `k` settled nothing. */
  ghost predicate Undecided(states: seq<System>, actions: seq<Action>, p: Policy, k: nat, id: Id)
    requires k < |actions| && k < |states|
  {
    && Attempts(states[k], actions[k], p, id) && actions[k].FinishScan?
    && ClassifyCheck(actions[k].res, actions[k].start, actions[k].finish).Inconclusive?
  }

  /** Claims after an inconclusive attempt: every queue waits for the longer of the retry floor and the hint; health decides which queue. */
  lemma ClaimAfterInconclusive(states: seq<System>, actions: seq<Action>, p: Policy, k: nat, j: nat, id: Id,
                               queue: Queue, skipped: set<Id>, limit: nat, chosen: seq<Id>)
    requires p.Valid() && IsRun(states, actions, p) && LastAttempt(states, actions, p, k, j, id)
    requires Undecided(states, actions, p, k, id) && id !in skipped
    requires Selects(states[j].store.rows, queue, p, states[j].store.now, skipped, limit, chosen)
    ensures id in states[k].store.rows && id in states[j].store.rows
    ensures var r, now, t := states[j].store.rows[id], states[j].store.now, states[k].store.now;
            var ripe := && NotLeased(r, now) && now >= t + RetryWait(actions[k].res, p)
                        && (queue == Verification <==> states[k].store.rows[id].healthy)
                        && (queue == Recovery ==> WithinHorizon(r, p, now));
            (id in chosen ==> ripe) && (ripe && |chosen| < limit ==> id in chosen)
  {
    InconclusiveOnlyReschedules(states[k], actions[k], p);
    RemembersSince(states, actions, p, k + 1, j, id);
    SelectedExactlyWhenDue(states[j].store.rows, queue, p, states[j].store.now, skipped, limit, chosen, id);
  }

  /** As long as nothing was attempted on a row it looks as it was inserted. */
  lemma {:induction false} NeverAttempted(states: seq<System>, actions: seq<Action>, p: Policy, j: nat, id: Id)
    requires p.Valid() && IsRun(states, actions, p) && j < |states| && id in states[j].store.rows
    requires forall m :: 0 <= m < j ==> !Attempts(states[m], actions[m], p, id)
    ensures var r := states[j].store.rows[id];
            !r.healthy && r.lastVerified.None? && r.nextAttempt.None? && r.notBefore.None? && r.lastCompleted.None?
  {
    if j > 0 {
      var s, e := states[j - 1].store, EventOf(actions[j - 1], p);
      if id in s.rows {
        NeverAttempted(states, actions, p, j - 1, id);
        OthersLeaveSchedule(s, e, p, id);
      } else {
        EndpointStep(s, e, p, id);
      }
    }
  }

  /** A row that was never attempted is for the background queue alone, at once. */
  lemma ClaimOfNewRow(states: seq<System>, actions: seq<Action>, p: Policy, j: nat, id: Id,
                      queue: Queue, skipped: set<Id>, limit: nat, chosen: seq<Id>)
    requires p.Valid() && IsRun(states, actions, p) && j < |states| && id in states[j].store.rows && id !in skipped
    requires forall m :: 0 <= m < j ==> !Attempts(states[m], actions[m], p, id)
    requires Selects(states[j].store.rows, queue, p, states[j].store.now, skipped, limit, chosen)
    ensures var ripe := NotLeased(states[j].store.rows[id], states[j].store.now) && queue == Background;
            (id in chosen ==> ripe) && (ripe && |chosen| < limit ==> id in chosen)
  {
    NeverAttempted(states, actions, p, j, id);
    SelectedExactlyWhenDue(states[j].store.rows, queue, p, states[j].store.now, skipped, limit, chosen, id);
  }

  lemma {:induction false} FindLastAttempt(states: seq<System>, actions: seq<Action>, p: Policy, j: nat, id: Id, i: nat) returns (k: nat)
    requires |states| == |actions| + 1 && i < j < |states| && Attempts(states[i], actions[i], p, id)
    ensures LastAttempt(states, actions, p, k, j, id)
    decreases j
  {
    k := j - 1;
    if !Attempts(states[k], actions[k], p, id) {
      k := FindLastAttempt(states, actions, p, j - 1, id, i);
    }
  }

  /** The four cases are all there are: the last attempt on a row failed, succeeded or settled nothing, or there was none. */
  lemma EveryRowIsCovered(states: seq<System>, actions: seq<Action>, p: Policy, j: nat, id: Id, i: nat) returns (k: nat)
    requires IsRun(states, actions, p) && i < j < |states| && Attempts(states[i], actions[i], p, id)
    ensures LastAttempt(states, actions, p, k, j, id)
    ensures FailsRow(states[k], actions[k], p, id) || Verifies(states[k], actions[k], p, id) || Undecided(states, actions, p, k, id)
  {
    k := FindLastAttempt(states, actions, p, j, id, i);
    AttemptKinds(states[k], actions[k], p, id);
  }

  lemma AttemptKinds(sys: System, a: Action, p: Policy, id: Id)
    requires Allowed(sys, a, p) && Attempts(sys, a, p, id)
    ensures || FailsRow(sys, a, p, id) || Verifies(sys, a, p, id)
            || (a.FinishScan? && ClassifyCheck(a.res, a.start, a.finish).Inconclusive?)
  {
  }

  /**
   Every claim in every run honours the schedule: after the n-th consecutive failure
   a recovery claim waits for the ladder, after a success a verification claim waits
   for the interval, after an inconclusive attempt every claim waits for the longer
   of floor and hint; failed rows are never claimed for verification, verified ones
   for nothing else.
   */
  lemma ClaimsHonourSchedule(states: seq<System>, actions: seq<Action>, p: Policy, k: nat, j: nat, id: Id)
    requires p.Valid() && IsRun(states, actions, p) && j < |actions| && LastAttempt(states, actions, p, k, j, id)
    requires Claims(actions[j], p, id)
    ensures var queue, now, t := EventOf(actions[j], p).queue, states[j].store.now, states[k].store.now;
            && (FailsRow(states[k], actions[k], p, id) ==>
                  && queue != Verification && Trailing(states[k + 1].log, id) > 0
                  && (queue == Recovery ==>
                        now >= t + Min(p.recoveryBase * Pow2(Trailing(states[k + 1].log, id) - 1), p.recoveryCap)))
            && (Verifies(states[k], actions[k], p, id) ==> queue == Verification && now >= t + p.verifyInterval)
            && (Undecided(states, actions, p, k, id) ==> now >= t + RetryWait(actions[k].res, p))
  {
    var e, s := EventOf(actions[j], p), states[j].store;
    var skipped: set<Id>, limit: nat :| Selects(s.rows, e.queue, p, s.now, skipped, limit, e.chosen);
    assert id !in skipped by {
      var n :| 0 <= n < |e.chosen| && e.chosen[n] == id;
      assert Candidate(s.rows, e.queue, p, s.now, skipped, e.chosen[n]);
    }
    if FailsRow(states[k], actions[k], p, id) {
      ClaimAfterFailure(states, actions, p, k, j, id, e.queue, skipped, limit, e.chosen);
    } else if Verifies(states[k], actions[k], p, id) {
      ClaimAfterSuccess(states, actions, p, k, j, id, e.queue, skipped, limit, e.chosen);
    } else if Undecided(states, actions, p, k, id) {
      ClaimAfterInconclusive(states, actions, p, k, j, id, e.queue, skipped, limit, e.chosen);
    }
  }

  /** A date that is not there comes first, then the earlier one. */
  predicate NotLater(a: Option<Time>, b: Option<Time>) {
    a.None? || (b.Some? && a.value <= b.value)
  }

  /**
   Oldest first.  A row that a claim takes is due no later than any due row that it
   takes after it or leaves out: by deadline, in the background queue by the last
   completed attempt, and among equals by id.
   */
  lemma OldestFirst(rows: map<Id, Record>, queue: Queue, p: Policy, now: Time, skipped: set<Id>,
                    limit: nat, chosen: seq<Id>, i: nat, id: Id)
    requires Keyed(rows) && Selects(rows, queue, p, now, skipped, limit, chosen) && i < |chosen|
    requires (id in rows && id !in skipped && Claimable(rows[id], queue, p, now) && id !in chosen) || id in chosen[i + 1..]
    ensures chosen[i] in rows && id in rows
    ensures var a, b := rows[chosen[i]], rows[id];
            && (queue == Background ==> NotLater(a.lastCompleted, b.lastCompleted) && (a.lastCompleted == b.lastCompleted ==> a.id < b.id))
            && (queue != Background ==> NotLater(a.nextAttempt, b.nextAttempt) && (a.nextAttempt == b.nextAttempt ==> a.id < b.id))
  {
    if id in chosen[i + 1..] {
      var n :| 0 <= n < |chosen[i + 1..]| && chosen[i + 1..][n] == id;
      assert chosen[i + 1 + n] == id;
      assert Before(rows[chosen[i]], rows[chosen[i + 1 + n]], queue);
    } else {
      assert Candidate(rows, queue, p, now, skipped, id);
      assert Before(rows[chosen[i]], rows[id], queue);
    }
  }

  // ----- the last success

  /** The verification stamp of a row is the instant of its last accepted success. */
  lemma {:induction false} LastVerifiedIsLastSuccess(states: seq<System>, actions: seq<Action>, p: Policy, m: nat, j: nat, id: Id)
    requires p.Valid() && IsRun(states, actions, p) && m < j < |states| && Verifies(states[m], actions[m], p, id)
    requires forall i :: m < i < j ==> !Verifies(states[i], actions[i], p, id)
    ensures id in states[j].store.rows && states[j].store.rows[id].lastVerified == Some(states[m].store.now)
    decreases j
  {
    if j == m + 1 {
      SuccessSchedule(states, actions, p, m, id);
    } else {
      LastVerifiedIsLastSuccess(states, actions, p, m, j - 1, id);
      OnlySuccessVerifies(states[j - 1].store, EventOf(actions[j - 1], p), p, id);
    }
  }

  lemma OnlySuccessVerifies(s: State, e: Event, p: Policy, id: Id)
    requires id in s.rows && Enabled(s, e, p) && Observed(s, e) != [Observation(id, false)]
    ensures id in Next(s, e, p).rows && Next(s, e, p).rows[id].lastVerified == s.rows[id].lastVerified
  {
  }

  /** Behind a verification stamp stands an accepted success, the last one. */
  lemma {:induction false} LastSuccessOf(states: seq<System>, actions: seq<Action>, p: Policy, j: nat, id: Id) returns (m: nat)
    requires p.Valid() && IsRun(states, actions, p) && j < |states|
    requires id in states[j].store.rows && states[j].store.rows[id].lastVerified.Some?
    ensures m < j && Verifies(states[m], actions[m], p, id)
    ensures forall i :: m < i < j ==> !Verifies(states[i], actions[i], p, id)
    ensures states[j].store.rows[id].lastVerified == Some(states[m].store.now)
  {
    var s, e := states[j - 1].store, EventOf(actions[j - 1], p);
    m := j - 1;
    if Verifies(states[m], actions[m], p, id) {
      SuccessSchedule(states, actions, p, m, id);
    } else {
      EndpointStep(s, e, p, id);
      OnlySuccessStamps(s, e, p, id);
      m := LastSuccessOf(states, actions, p, j - 1, id);
    }
  }

  lemma OnlySuccessStamps(s: State, e: Event, p: Policy, id: Id)
    requires id in Next(s, e, p).rows && Next(s, e, p).rows[id].lastVerified.Some?
    requires Enabled(s, e, p) && Observed(s, e) != [Observation(id, false)]
    ensures id in s.rows && s.rows[id].lastVerified == Next(s, e, p).rows[id].lastVerified
  {
    if id in s.rows {
      OnlySuccessVerifies(s, e, p, id);
    }
  }

  /** The recovery queue takes only rows whose last success is less than the horizon ago. */
  lemma RecoveryNeedsRecentSuccess(states: seq<System>, actions: seq<Action>, p: Policy, j: nat, id: Id) returns (m: nat)
    requires p.Valid() && IsRun(states, actions, p) && j < |actions|
    requires Claims(actions[j], p, id) && EventOf(actions[j], p).queue == Recovery
    ensures m < j && Verifies(states[m], actions[m], p, id)
    ensures forall i :: m < i < j ==> !Verifies(states[i], actions[i], p, id)
    ensures states[j].store.now < states[m].store.now + p.recoveryHorizon
  {
    ClaimedIsDue(states[j], actions[j], p, id);
    m := LastSuccessOf(states, actions, p, j, id);
  }

  /** A row is healthy exactly if it has been verified and has not failed since. */
  lemma {:induction false} VerifiedStaysHealthy(states: seq<System>, actions: seq<Action>, p: Policy, m: nat, j: nat, id: Id)
    requires p.Valid() && IsRun(states, actions, p) && m < j < |states| && Verifies(states[m], actions[m], p, id)
    requires forall i :: m < i < j ==> !FailsRow(states[i], actions[i], p, id)
    ensures id in states[j].store.rows && states[j].store.rows[id].healthy
    decreases j
  {
    if j == m + 1 || Verifies(states[j - 1], actions[j - 1], p, id) {
      SuccessSchedule(states, actions, p, j - 1, id);
    } else {
      VerifiedStaysHealthy(states, actions, p, m, j - 1, id);
      OnlyObservationsChangeHealth(states[j - 1].store, EventOf(actions[j - 1], p), p, id);
    }
  }

  lemma OnlyObservationsChangeHealth(s: State, e: Event, p: Policy, id: Id)
    requires id in s.rows && Enabled(s, e, p)
    requires Observed(s, e) != [Observation(id, false)] && Observed(s, e) != [Observation(id, true)]
    ensures id in Next(s, e, p).rows && Next(s, e, p).rows[id].healthy == s.rows[id].healthy
  {
  }

  // ----- consumers

  /** In the words of the columns: verified within the freshness interval, of a known protocol, unlocked or expired, cooled down. */
  predicate ForTheTaking(r: Record, p: Policy, ttl: int, now: Time) {
    && r.healthy && r.lastVerified.Some? && now < r.lastVerified.value + p.freshnessTTL
    && r.endpoint.protocol in {Http, Https, Socks4, Socks5}
    && (r.lockedAt.Some? ==> r.lockedAt.value + ttl < now)
    && (r.cooldownUntil.Some? ==> r.cooldownUntil.value <= now)
  }

  /** A claim finds a proxy exactly if there is one for the taking, and takes only such a one. */
  lemma ClaimFindsProxy(rows: map<Id, Record>, p: Policy, ttl: int, now: Time, skipped: set<Id>, claimed: Option<Id>)
    requires SelectsProxy(rows, p, ttl, now, skipped, claimed)
    ensures claimed.Some? <==> exists id :: id in rows && id !in skipped && ForTheTaking(rows[id], p, ttl, now)
    ensures claimed.Some? ==> claimed.value in rows && ForTheTaking(rows[claimed.value], p, ttl, now)
  {
    forall id | id in rows ensures ForTheTaking(rows[id], p, ttl, now) <==> Available(rows[id], p, ttl, now) {
    }
  }

  /** Highest known uptime first, then lowest known latency, then fewest failures. */
  lemma BestProxyFirst(rows: map<Id, Record>, p: Policy, ttl: int, now: Time, skipped: set<Id>, c: Id, id: Id)
    requires SelectsProxy(rows, p, ttl, now, skipped, Some(c))
    requires id in rows && id !in skipped && ForTheTaking(rows[id], p, ttl, now)
    ensures c in rows
    ensures var a, b := rows[c], rows[id];
            && (b.uptime.Some? ==> a.uptime.Some? && a.uptime.value >= b.uptime.value)
            && (a.uptime == b.uptime && b.latency.Some? ==> a.latency.Some? && a.latency.value <= b.latency.value)
            && (a.uptime == b.uptime && a.latency == b.latency ==> a.failCount <= b.failCount)
  {
    assert Available(rows[id], p, ttl, now);
    assert !Preferred(rows[id], rows[c]);
  }

  /** A refresh succeeds exactly for the owner of a live lock on a fresh row out of its cooldown; otherwise it changes nothing. */
  lemma RefreshTakesEffectExactlyWhen(s: State, p: Policy, id: Id, owner: Owner, ttl: int)
    requires id in s.rows
    ensures var e, r := RefreshLock(id, owner, ttl), s.rows[id];
            var fit := && Holds(r, owner, ttl, s.now)
                       && r.healthy && r.lastVerified.Some? && s.now < r.lastVerified.value + p.freshnessTTL
                       && (r.cooldownUntil.Some? ==> r.cooldownUntil.value <= s.now);
            && Returned(s, e, p) == (if fit then {r.(lockedAt := Some(s.now))} else {})
            && Next(s, e, p) == if fit then s.(rows := s.rows[id := r.(lockedAt := Some(s.now))]) else s
  {
    assert s.rows[id := s.rows[id]] == s.rows;
  }

  /**
   A consumer failure counts exactly under a live lock and the captured version; under
   a live lock and another version it costs the lock; without a live lock it is nothing.
   */
  lemma FailureTakesEffectExactlyWhen(s: State, p: Policy, rec: Record, owner: Owner, ttl: int)
    requires rec.id in s.rows
    ensures var r, s' := s.rows[rec.id], Next(s, EventOf(MarkFailed(rec, owner, ttl), p), p);
            rec.id in s'.rows &&
            var r' := s'.rows[rec.id];
            if Holds(r, owner, ttl, s.now) && r.version == rec.version then
              && r'.version == r.version + 1 && !r'.healthy && r'.failCount == r.failCount + 1
              && r'.token.None? && r'.lastCompleted == Some(s.now) && r'.notBefore == Some(s.now + p.minRepeat)
              && r'.lastAlive == r.lastAlive && r'.lastVerified == r.lastVerified && r'.latency == r.latency
              && r'.lockedBy == r.lockedBy && r'.lockedAt == r.lockedAt && r'.cooldownUntil == r.cooldownUntil
            else if Holds(r, owner, ttl, s.now) then r' == r.(lockedBy := None, lockedAt := None)
            else s' == s
  {
    assert s.rows[rec.id := s.rows[rec.id]] == s.rows;
  }
}
