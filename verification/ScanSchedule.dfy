/**
 What the schedule promises over whole runs: how soon a row can be scanned
 again, what each kind of outcome writes, and what observation stands behind a
 proxy that a consumer gets.
 */
module ScanSchedule {
  import opened Scheduling
  import opened ProxyRows
  import opened ProxyStore
  import opened ScanRuns

  // ----- the repeat floor

  /** The action is an accepted attempt on row `id`: a scan of any outcome, or a consumer failure. */
  ghost predicate Attempts(sys: System, a: Action, p: Policy, id: Id) {
    Accepted(sys.store, EventOf(a, p)) && Target(EventOf(a, p)) == Some(id)
  }

  ghost predicate Claims(a: Action, p: Policy, id: Id) {
    EventOf(a, p).ClaimScans? && id in EventOf(a, p).chosen
  }

  predicate RestsUntil(r: Record, t: Time) {
    r.notBefore.Some? && t <= r.notBefore.value
  }

  /** Every attempt, whatever its outcome, asks for at least the repeat floor. */
  lemma AttemptsAskForFloor(sys: System, a: Action, p: Policy, id: Id)
    requires p.Valid() && Allowed(sys, a, p) && Attempts(sys, a, p, id)
    ensures var e := EventOf(a, p); (e.CompleteScan? || e.ConsumerFailure?) && e.update.repeatDelay >= p.minRepeat
  {
  }

  lemma StepKeepsRest(sys: System, a: Action, p: Policy, id: Id, t: Time)
    requires p.Valid() && Allowed(sys, a, p) && id in sys.store.rows && t <= sys.store.now
    requires RestsUntil(sys.store.rows[id], t + p.minRepeat) || Attempts(sys, a, p, id)
    ensures var s' := Advance(sys, a, p).store;
            id in s'.rows && t <= s'.now && RestsUntil(s'.rows[id], t + p.minRepeat)
  {
    if Attempts(sys, a, p, id) {
      AttemptsAskForFloor(sys, a, p, id);
    } else {
      OthersKeepRest(sys.store, EventOf(a, p), p, id);
    }
  }

  /** Only an accepted attempt on a row changes when it may be scanned again. */
  lemma OthersKeepRest(s: State, e: Event, p: Policy, id: Id)
    requires id in s.rows && Enabled(s, e, p) && !(Accepted(s, e) && Target(e) == Some(id))
    ensures id in Next(s, e, p).rows && Next(s, e, p).rows[id].notBefore == s.rows[id].notBefore && s.now <= Next(s, e, p).now
  {
  }

  lemma {:induction false} RestsAfterAttempt(states: seq<System>, actions: seq<Action>, p: Policy, k: nat, j: nat, id: Id)
    requires p.Valid() && IsRun(states, actions, p) && k < j < |states| && Attempts(states[k], actions[k], p, id)
    ensures var s := states[j].store;
            id in s.rows && states[k].store.now <= s.now && RestsUntil(s.rows[id], states[k].store.now + p.minRepeat)
    decreases j
  {
    if k + 1 < j {
      RestsAfterAttempt(states, actions, p, k, j - 1, id);
    }
    StepKeepsRest(states[j - 1], actions[j - 1], p, id, states[k].store.now);
  }

  lemma ClaimedIsDue(sys: System, a: Action, p: Policy, id: Id)
    requires Allowed(sys, a, p) && Claims(a, p, id)
    ensures id in sys.store.rows && Claimable(sys.store.rows[id], EventOf(a, p).queue, p, sys.store.now)
  {
    var s, e := sys.store, EventOf(a, p);
    var skipped: set<Id>, limit: nat :| Selects(s.rows, e.queue, p, s.now, skipped, limit, e.chosen);
    var n :| 0 <= n < |e.chosen| && e.chosen[n] == id;
    assert Candidate(s.rows, e.queue, p, s.now, skipped, e.chosen[n]);
  }

  /**
   In every run no queue leases a row again before the minimum repeat interval has
   passed since any accepted attempt on it, by whichever scanner or consumer.
   */
  lemma NeverRescannedEarly(states: seq<System>, actions: seq<Action>, p: Policy, k: nat, j: nat, id: Id)
    requires p.Valid() && IsRun(states, actions, p) && k < j < |actions|
    requires Attempts(states[k], actions[k], p, id) && Claims(actions[j], p, id)
    ensures states[j].store.now >= states[k].store.now + p.minRepeat
  {
    RestsAfterAttempt(states, actions, p, k, j, id);
    ClaimedIsDue(states[j], actions[j], p, id);
  }

  // ----- what each outcome writes

  /** An accepted success of row `id`. */
  ghost predicate Verifies(sys: System, a: Action, p: Policy, id: Id) {
    Observed(sys.store, EventOf(a, p)) == [Observation(id, false)]
  }

  lemma VerifiesItsTarget(sys: System, a: Action, p: Policy, id: Id)
    requires Allowed(sys, a, p) && Verifies(sys, a, p, id)
    ensures a.FinishScan? && a.res.Passed? && a.lease.record.id == id && id in sys.store.rows
    ensures Fenced(sys.store.rows[id], a.lease, sys.store.now)
  {
  }

  /** A success ends the ladder: no trailing failure is left, the row is verified now and due after the verification interval. */
  lemma SuccessSchedule(states: seq<System>, actions: seq<Action>, p: Policy, k: nat, id: Id)
    requires p.Valid() && IsRun(states, actions, p) && k < |actions| && Verifies(states[k], actions[k], p, id)
    ensures actions[k].FinishScan? && id in states[k + 1].store.rows && Trailing(states[k + 1].log, id) == 0
    ensures var r, now := states[k + 1].store.rows[id], states[k].store.now;
            && r.healthy && r.status == Active && r.failCount == 0 && r.recoveryStep == 0
            && r.lastVerified == r.lastAlive == r.lastCompleted == Some(now)
            && r.nextAttempt == Some(now + p.verifyInterval) && r.notBefore == Some(now + p.minRepeat)
            && r.latency == Some(actions[k].latency) && r.token.None?
  {
    VerifiesItsTarget(states[k], actions[k], p, id);
    LogStep(states[k].log, Observed(states[k].store, EventOf(actions[k], p)), id);
  }

  /** An accepted inconclusive attempt leaves what is known untouched and waits for the longer of the retry floor and the hint. */
  lemma InconclusiveOnlyReschedules(sys: System, a: Action, p: Policy)
    requires p.Valid() && Allowed(sys, a, p) && a.FinishScan? && Accepted(sys.store, EventOf(a, p))
    requires ClassifyCheck(a.res, a.start, a.finish).Inconclusive?
    ensures var id, now := a.lease.record.id, sys.store.now;
            && id in sys.store.rows && id in Advance(sys, a, p).store.rows
            && var r, r' := sys.store.rows[id], Advance(sys, a, p).store.rows[id];
            && EvidenceOf(r') == EvidenceOf(r) && r'.version == r.version && r'.token.None?
            && r'.nextAttempt == r'.notBefore && r'.notBefore.Some? && r'.lastCompleted == Some(now)
            && r'.notBefore.value >= now + p.inconclusiveRetry
            && (a.res.typed.Some? ==> r'.notBefore.value >= now + a.res.typed.value.retryAfter)
            && (r'.notBefore.value == now + p.inconclusiveRetry
                || (a.res.typed.Some? && r'.notBefore.value == now + a.res.typed.value.retryAfter))
    ensures Advance(sys, a, p).log == sys.log
  {
  }

  /** A row is declared dead exactly at the threshold of consecutive failures, or when its last success (or its discovery) is too long ago. */
  lemma DeadExactlyAtThreshold(states: seq<System>, actions: seq<Action>, p: Policy, k: nat, id: Id)
    requires p.Valid() && IsRun(states, actions, p) && k < |actions| && FailsRow(states[k], actions[k], p, id)
    ensures id in states[k].store.rows && id in states[k + 1].store.rows
    ensures var r, r', now := states[k].store.rows[id], states[k + 1].store.rows[id], states[k].store.now;
            var alive := if r.lastAlive.Some? then r.lastAlive.value else r.firstSeen;
            && r'.status != Active
            && (r'.status == Dead <==> Trailing(states[k + 1].log, id) >= p.failThreshold || now - alive > p.deadAfter)
  {
    var sys, a := states[k], actions[k];
    var e := EventOf(a, p);
    RunKeepsInv(states, actions, p, k);
    FailsItsTarget(sys.store, e, id);
    LogStep(sys.log, Observed(sys.store, e), id);
    FailureStatusStep(sys.store.rows[id], e, p, sys.store.now);
    assert e.update.failThreshold == p.failThreshold && e.update.deadAfter == p.deadAfter;
  }

  lemma FailureStatusStep(r: Record, e: Event, p: Policy, now: Time)
    requires || (e.CompleteScan? && Fenced(r, e.lease, now) && e.update.outcome.Failure?)
             || (e.ConsumerFailure? && LockValid(r, e.owner, e.ttl, now) && r.version == e.rec.version)
    ensures RowAfter(r, e, p, now).status == FailureStatus(r, now, e.update)
  {
  }

  // ----- what stands behind a proxy that is handed out

  /** One step leaves a healthy row healthy on the same evidence, or verifies it anew. */
  lemma HealthyStep(states: seq<System>, actions: seq<Action>, p: Policy, k: nat, id: Id)
    requires p.Valid() && IsRun(states, actions, p) && k < |actions|
    requires id in states[k + 1].store.rows && states[k + 1].store.rows[id].healthy
    ensures !FailsRow(states[k], actions[k], p, id)
    ensures Verifies(states[k], actions[k], p, id) ==> states[k + 1].store.rows[id].lastVerified == Some(states[k].store.now)
    ensures !Verifies(states[k], actions[k], p, id) ==>
              && id in states[k].store.rows && states[k].store.rows[id].healthy
              && states[k].store.rows[id].lastVerified == states[k + 1].store.rows[id].lastVerified
  {
    if Verifies(states[k], actions[k], p, id) {
      SuccessSchedule(states, actions, p, k, id);
    } else if id in states[k].store.rows {
      VersionCountsObservations(states, actions, p, k, id);
      if FailsRow(states[k], actions[k], p, id) {
        LadderSchedule(states, actions, p, k, id);
      }
      var obs := Observed(states[k].store, EventOf(actions[k], p));
      assert obs == [] || obs[0].id != id;
      assert EvidenceOf(states[k].store.rows[id]) == EvidenceOf(states[k + 1].store.rows[id]);
    }
  }

  /** A healthy row was verified at the instant it claims, and has not failed since. */
  lemma {:induction false} HealthyWasVerified(states: seq<System>, actions: seq<Action>, p: Policy, k: nat, id: Id) returns (m: nat)
    requires p.Valid() && IsRun(states, actions, p) && k < |states|
    requires id in states[k].store.rows && states[k].store.rows[id].healthy
    ensures m < k && Verifies(states[m], actions[m], p, id)
    ensures states[k].store.rows[id].lastVerified == Some(states[m].store.now)
    ensures forall i :: m < i < k ==> !FailsRow(states[i], actions[i], p, id)
  {
    HealthyStep(states, actions, p, k - 1, id);
    m := k - 1;
    if !Verifies(states[k - 1], actions[k - 1], p, id) {
      m := HealthyWasVerified(states, actions, p, k - 1, id);
    }
  }

  /** The action gives row `id` to a consumer: a claim, or a refresh that finds the row fit. */
  ghost predicate HandsOut(sys: System, a: Action, p: Policy, id: Id) {
    var e := EventOf(a, p);
    || (e.ClaimProxy? && e.claimed == Some(id))
    || (e.RefreshLock? && e.id == id && id in sys.store.rows && Refreshable(sys.store.rows[id], e.owner, e.ttl, p, sys.store.now))
  }

  /**
   No stale handout.  In every run, a proxy that a consumer gets or keeps passed a
   scan less than the freshness interval ago, and no accepted failure, of a scanner
   or of another consumer, has been recorded for it since.
   */
  lemma HandedOutWasVerified(states: seq<System>, actions: seq<Action>, p: Policy, k: nat, id: Id) returns (m: nat)
    requires p.Valid() && IsRun(states, actions, p) && k < |actions| && HandsOut(states[k], actions[k], p, id)
    ensures m < k && Verifies(states[m], actions[m], p, id)
    ensures states[m].store.now > states[k].store.now - p.freshnessTTL
    ensures forall i :: m < i < k ==> !FailsRow(states[i], actions[i], p, id)
  {
    m := HealthyWasVerified(states, actions, p, k, id);
  }
}
