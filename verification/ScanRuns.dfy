/**
 Whole runs of scanners and consumers over one proxy table.  Every lease ever
 issued and every record ever handed to a consumer may be used, or replayed, at
 any later time; each update is built from that captured copy, not from the row
 it is written to.
 */
module ScanRuns {
  import opened Scheduling
  import opened ProxyRows
  import opened ProxyStore

  /** An accepted conclusive observation. */
  datatype Observation = Observation(id: Id, failure: bool)

  datatype System = System(store: State, leases: set<Lease>, captured: set<Record>, log: seq<Observation>)

  datatype Action =
    | Plain(event: Event)
    | FinishScan(lease: Lease, latency: int, res: CheckResult, start: GuardSnapshot, finish: GuardSnapshot)
    | MarkFailed(rec: Record, owner: Owner, ttl: int)

  function Bound(p: Policy): nat {
    StepBound(p.recoveryBase, p.recoveryCap)
  }

  function EventOf(a: Action, p: Policy): Event {
    match a
    case Plain(e) => e
    case FinishScan(l, latency, res, start, finish) =>
      CompleteScan(l, ScanUpdate(p, l.record.recoveryStep, latency, res, start, finish))
    case MarkFailed(rec, owner, ttl) => ConsumerFailure(rec, owner, ttl, FailureUpdate(p, rec.recoveryStep))
  }

  ghost predicate Allowed(sys: System, a: Action, p: Policy) {
    && Enabled(sys.store, EventOf(a, p), p)
    && match a
       case Plain(e) => !e.CompleteScan? && !e.ConsumerFailure? && (e.ReleaseScan? ==> e.lease in sys.leases)
       case FinishScan(l, _, _, _, _) => l in sys.leases
       case MarkFailed(rec, _, _) => rec in sys.captured
  }

  function Issued(s: State, e: Event, p: Policy): set<Lease> {
    if e.ClaimScans? then
      set id | id in e.chosen && id in s.rows ::
        Lease(Stamped(s.rows[id], s.nextToken, s.now + p.leaseDuration), s.nextToken, s.rows[id].version)
    else {}
  }

  /** The record that a consumer operation returns to its caller. */
  function Returned(s: State, e: Event, p: Policy): set<Record> {
    match e
    case ClaimProxy(owner, Some(id), _) => if id in s.rows then {Locked(s.rows[id], owner, s.now)} else {}
    case RefreshLock(id, owner, ttl) =>
      if id in s.rows && Refreshable(s.rows[id], owner, ttl, p, s.now) then {Locked(s.rows[id], owner, s.now)} else {}
    case _ => {}
  }

  function Observed(s: State, e: Event): seq<Observation> {
    if !Accepted(s, e) then []
    else if e.ConsumerFailure? then [Observation(e.rec.id, true)]
    else if e.CompleteScan? && !e.update.outcome.Inconclusive?
    then [Observation(e.lease.record.id, e.update.outcome.Failure?)]
    else []
  }

  function Advance(sys: System, a: Action, p: Policy): System {
    var e := EventOf(a, p);
    System(Next(sys.store, e, p),
           sys.leases + Issued(sys.store, e, p),
           sys.captured + Returned(sys.store, e, p),
           sys.log + Observed(sys.store, e))
  }

  const Empty := System(State(map[], 0, 0), {}, {}, [])

  /** A run from the empty table: `states` has one more element than `actions`. */
  ghost predicate IsRun(states: seq<System>, actions: seq<Action>, p: Policy) {
    && |states| == |actions| + 1
    && states[0] == Empty
    && forall k :: 0 <= k < |actions| ==> Allowed(states[k], actions[k], p) && states[k + 1] == Advance(states[k], actions[k], p)
  }

  /** The accepted failures of a row since its last accepted success. */
  function Trailing(log: seq<Observation>, id: Id): (n: nat) {
    if log == [] then 0
    else
      var last := log[|log| - 1];
      if last.id != id then Trailing(log[..|log| - 1], id)
      else if last.failure then 1 + Trailing(log[..|log| - 1], id)
      else 0
  }

  // ----- the invariant

  ghost predicate RowInv(r: Record, p: Policy, nextToken: nat) {
    && 0 <= r.failCount
    && r.recoveryStep == Min(r.failCount, Bound(p))
    && (r.healthy ==> r.failCount == 0 && r.recoveryStep == 0 && r.status == Active && r.lastVerified.Some?)
    && (r.token.Some? ==> r.token.value < nextToken && r.claimedVersion == Some(r.version) && r.leaseUntil.Some?)
    && (r.token.None? ==> r.claimedVersion.None? && r.leaseUntil.None?)
  }

  /** A copy of a row tells its present evidence as long as the versions agree. */
  ghost predicate Knows(copy: Record, r: Record) {
    copy.version <= r.version && (copy.version == r.version ==> EvidenceOf(copy) == EvidenceOf(r))
  }

  ghost predicate LeaseInv(l: Lease, s: State) {
    && l.record.id in s.rows
    && l.token < s.nextToken
    && l.version == l.record.version
    && Knows(l.record, s.rows[l.record.id])
    && (s.rows[l.record.id].token == Some(l.token) ==> s.rows[l.record.id].version == l.version)
  }

  ghost predicate RowsInv(s: State, log: seq<Observation>, p: Policy) {
    && Keyed(s.rows)
    && (forall id :: id in s.rows ==> RowInv(s.rows[id], p, s.nextToken))
    && (forall id :: id in s.rows ==> s.rows[id].failCount == Trailing(log, id))
    && (forall id :: id !in s.rows ==> Trailing(log, id) == 0)
  }

  ghost predicate Inv(sys: System, p: Policy) {
    && RowsInv(sys.store, sys.log, p)
    && (forall l :: l in sys.leases ==> LeaseInv(l, sys.store))
    && (forall c :: c in sys.captured ==> c.id in sys.store.rows && Knows(c, sys.store.rows[c.id]))
  }

  // ----- what one step does to one row

  /** `r2` may follow `r1` when tokens below `t` have been issued before. */
  ghost predicate RowLater(r1: Record, r2: Record, t: nat) {
    && r1.id == r2.id && r1.endpoint == r2.endpoint
    && Knows(r1, r2)
    && (r1.cooldownUntil.Some? ==> r2.cooldownUntil.Some? && r1.cooldownUntil.value <= r2.cooldownUntil.value)
    && (r2.token.Some? && r2.token.value < t ==>
          r2.token == r1.token && r2.leaseUntil == r1.leaseUntil && r2.version == r1.version)
  }

  /** Evidence changes exactly in accepted conclusive steps on the row, and those raise the version by one. */
  lemma RowStep(r: Record, e: Event, p: Policy, now: Time, t: nat)
    requires RowInv(r, p, t)
    requires p.Valid()
    requires e.CompleteScan? && Fenced(r, e.lease, now) && e.update.outcome.Failure? ==>
               e.update == FailureUpdate(p, r.recoveryStep).(latency := e.update.latency)
    requires e.ConsumerFailure? && r.version == e.rec.version ==> e.update == FailureUpdate(p, r.recoveryStep)
    ensures var r' := RowAfter(r, e, p, now);
            var hit := match e
                       case CompleteScan(l, u) => Fenced(r, l, now) && !u.outcome.Inconclusive?
                       case ConsumerFailure(rec, owner, ttl, _) => LockValid(r, owner, ttl, now) && r.version == rec.version
                       case _ => false;
            && RowInv(r', p, t)
            && RowLater(r, r', t)
            && r'.version == r.version + (if hit then 1 else 0)
            && (!hit ==> EvidenceOf(r') == EvidenceOf(r))
            && (hit ==> r'.token.None?)
            && (hit && e.CompleteScan? && e.update.outcome.Success? ==> r'.failCount == 0)
            && (hit && (e.ConsumerFailure? || e.update.outcome.Failure?) ==> r'.failCount == r.failCount + 1)
  {
    FailureUpdateAdvances(p, r.failCount);
    StepBoundSaturates(p.recoveryBase, p.recoveryCap);
  }

  // ----- what one step does to the system

  ghost predicate Later(a: System, b: System) {
    && a.store.now <= b.store.now
    && a.store.nextToken <= b.store.nextToken
    && a.leases <= b.leases
    && a.captured <= b.captured
    && a.log <= b.log
    && forall id :: id in a.store.rows ==>
                      id in b.store.rows && RowLater(a.store.rows[id], b.store.rows[id], a.store.nextToken)
  }

  /** The premises of `RowStep` for the row that an allowed action addresses. */
  lemma UpdateIsCurrent(sys: System, a: Action, p: Policy, id: Id)
    requires p.Valid() && Inv(sys, p) && Allowed(sys, a, p)
    requires id in sys.store.rows && Target(EventOf(a, p)) == Some(id)
    ensures var r, e := sys.store.rows[id], EventOf(a, p);
            && (e.CompleteScan? && Fenced(r, e.lease, sys.store.now) && e.update.outcome.Failure? ==>
                  e.update == FailureUpdate(p, r.recoveryStep).(latency := e.update.latency))
            && (e.ConsumerFailure? && r.version == e.rec.version ==> e.update == FailureUpdate(p, r.recoveryStep))
  {
    var r := sys.store.rows[id];
    match a
    case Plain(_) =>
    case FinishScan(l, latency, res, start, finish) =>
      assert LeaseInv(l, sys.store);
    case MarkFailed(rec, _, _) =>
      assert Knows(rec, r);
  }

  /** How one step changes the trailing failures of a row. */
  lemma LogStep(log: seq<Observation>, obs: seq<Observation>, id: Id)
    requires |obs| <= 1
    ensures Trailing(log + obs, id) ==
            if obs == [] || obs[0].id != id then Trailing(log, id)
            else if obs[0].failure then Trailing(log, id) + 1
            else 0
  {
    if obs == [] {
      assert log + obs == log;
    } else {
      assert (log + obs)[..|log + obs| - 1] == log;
    }
  }

  lemma RowsStep(sys: System, a: Action, p: Policy, id: Id)
    requires p.Valid() && Inv(sys, p) && Allowed(sys, a, p) && id in sys.store.rows
    ensures var s' := Advance(sys, a, p).store;
            && id in s'.rows
            && s'.nextToken >= sys.store.nextToken
            && RowInv(s'.rows[id], p, s'.nextToken)
            && RowLater(sys.store.rows[id], s'.rows[id], sys.store.nextToken)
            && s'.rows[id].failCount == Trailing(Advance(sys, a, p).log, id)
  {
    var e := EventOf(a, p);
    var r := sys.store.rows[id];
    LogStep(sys.log, Observed(sys.store, e), id);
    if Target(e) == Some(id) {
      UpdateIsCurrent(sys, a, p, id);
      RowStep(r, e, p, sys.store.now, sys.store.nextToken);
    } else {
      OtherRowsStep(sys.store, e, p, id);
    }
  }

  /** A step that does not address a row leaves it alone, except that a claim may stamp it. */
  lemma OtherRowsStep(s: State, e: Event, p: Policy, id: Id)
    requires id in s.rows && Target(e) != Some(id) && Enabled(s, e, p) && RowInv(s.rows[id], p, s.nextToken)
    ensures var s' := Next(s, e, p);
            && id in s'.rows
            && RowInv(s'.rows[id], p, s'.nextToken)
            && RowLater(s.rows[id], s'.rows[id], s.nextToken)
            && s'.rows[id].failCount == s.rows[id].failCount
    ensures forall o :: o in Observed(s, e) ==> o.id != id
  {
  }

  lemma NewRowsStep(sys: System, a: Action, p: Policy, id: Id)
    requires p.Valid() && Inv(sys, p) && Allowed(sys, a, p) && id !in sys.store.rows
    ensures var sys' := Advance(sys, a, p);
            && Trailing(sys'.log, id) == 0
            && (id in sys'.store.rows ==>
                  RowInv(sys'.store.rows[id], p, sys'.store.nextToken) && sys'.store.rows[id].failCount == 0)
  {
    LogStep(sys.log, Observed(sys.store, EventOf(a, p)), id);
    StepBoundSaturates(p.recoveryBase, p.recoveryCap);
  }

  lemma LeasesStep(sys: System, a: Action, p: Policy, l: Lease)
    requires p.Valid() && Inv(sys, p) && Allowed(sys, a, p) && l in Advance(sys, a, p).leases
    ensures LeaseInv(l, Advance(sys, a, p).store)
  {
    if l in sys.leases {
      RowsStep(sys, a, p, l.record.id);
    } else {
      var id :| id in EventOf(a, p).chosen && id in sys.store.rows &&
                l.record == Stamped(sys.store.rows[id], sys.store.nextToken, sys.store.now + p.leaseDuration);
      assert l.record.id == id;
    }
  }

  lemma CapturedStep(sys: System, a: Action, p: Policy, c: Record)
    requires p.Valid() && Inv(sys, p) && Allowed(sys, a, p) && c in Advance(sys, a, p).captured
    ensures var rows' := Advance(sys, a, p).store.rows; c.id in rows' && Knows(c, rows'[c.id])
  {
    if c in sys.captured {
      RowsStep(sys, a, p, c.id);
    }
  }

  lemma KeyedStep(sys: System, a: Action, p: Policy)
    requires p.Valid() && Inv(sys, p) && Allowed(sys, a, p)
    ensures Keyed(Advance(sys, a, p).store.rows)
  {
    forall id | id in Advance(sys, a, p).store.rows ensures Advance(sys, a, p).store.rows[id].id == id {
      if id in sys.store.rows {
        RowsStep(sys, a, p, id);
      }
    }
  }

  /** Every allowed action keeps the invariant and only moves the system forward. */
  lemma StepKeepsInv(sys: System, a: Action, p: Policy)
    requires p.Valid() && Inv(sys, p) && Allowed(sys, a, p)
    ensures Inv(Advance(sys, a, p), p) && Later(sys, Advance(sys, a, p))
  {
    var sys' := Advance(sys, a, p);
    KeyedStep(sys, a, p);
    forall id | id in sys.store.rows
      ensures id in sys'.store.rows && RowInv(sys'.store.rows[id], p, sys'.store.nextToken)
      ensures RowLater(sys.store.rows[id], sys'.store.rows[id], sys.store.nextToken)
      ensures sys'.store.rows[id].failCount == Trailing(sys'.log, id)
    {
      RowsStep(sys, a, p, id);
    }
    forall id | id !in sys.store.rows
      ensures Trailing(sys'.log, id) == 0
      ensures id in sys'.store.rows ==>
                RowInv(sys'.store.rows[id], p, sys'.store.nextToken) && sys'.store.rows[id].failCount == 0
    {
      NewRowsStep(sys, a, p, id);
    }
    forall l | l in sys'.leases ensures LeaseInv(l, sys'.store) {
      LeasesStep(sys, a, p, l);
    }
    forall c | c in sys'.captured ensures c.id in sys'.store.rows && Knows(c, sys'.store.rows[c.id]) {
      CapturedStep(sys, a, p, c);
    }
  }

  // ----- runs

  lemma {:induction false} RunKeepsInv(states: seq<System>, actions: seq<Action>, p: Policy, k: nat)
    requires p.Valid() && IsRun(states, actions, p) && k < |states|
    ensures Inv(states[k], p)
  {
    if k > 0 {
      RunKeepsInv(states, actions, p, k - 1);
      StepKeepsInv(states[k - 1], actions[k - 1], p);
    }
  }

  lemma LaterTransitive(a: System, b: System, c: System)
    requires Later(a, b) && Later(b, c)
    ensures Later(a, c)
  {
    forall id | id in a.store.rows
      ensures id in c.store.rows && RowLater(a.store.rows[id], c.store.rows[id], a.store.nextToken)
    {
      var r1, r2 := a.store.rows[id], b.store.rows[id];
      assert RowLater(r1, r2, a.store.nextToken) && RowLater(r2, c.store.rows[id], b.store.nextToken);
    }
  }

  lemma {:induction false} RunMovesForward(states: seq<System>, actions: seq<Action>, p: Policy, i: nat, j: nat)
    requires p.Valid() && IsRun(states, actions, p) && i <= j < |states|
    ensures Later(states[i], states[j])
    decreases j
  {
    if i < j {
      RunMovesForward(states, actions, p, i, j - 1);
      RunKeepsInv(states, actions, p, j - 1);
      StepKeepsInv(states[j - 1], actions[j - 1], p);
      LaterTransitive(states[i], states[j - 1], states[j]);
    }
  }

  /**
   The recovery ladder over whole runs.  Whatever the interleaving, the stored
   failure count is the number of accepted failures since the last accepted
   success and the stored step is that number clamped to the bound.
   */
  lemma LadderInvariant(states: seq<System>, actions: seq<Action>, p: Policy, k: nat, id: Id)
    requires p.Valid() && IsRun(states, actions, p) && k < |states| && id in states[k].store.rows
    ensures var r := states[k].store.rows[id];
            && r.failCount == Trailing(states[k].log, id)
            && r.recoveryStep == Min(r.failCount, Bound(p)) <= 64
            && (r.healthy ==> Trailing(states[k].log, id) == 0 && r.recoveryStep == 0 && r.status == Active && r.lastVerified.Some?)
  {
    RunKeepsInv(states, actions, p, k);
    StepBoundSaturates(p.recoveryBase, p.recoveryCap);
  }

  /** Whether the action is an accepted conclusive failure of row `id`. */
  ghost predicate FailsRow(sys: System, a: Action, p: Policy, id: Id) {
    Observed(sys.store, EventOf(a, p)) == [Observation(id, true)]
  }

  /**
   The n-th consecutive accepted failure schedules the next attempt at its
   completion time plus min(base * 2^(n-1), cap), although its delay was computed
   from a copy of the row taken before the check.
   */
  lemma LadderSchedule(states: seq<System>, actions: seq<Action>, p: Policy, k: nat, id: Id)
    requires p.Valid() && IsRun(states, actions, p) && k < |actions|
    requires FailsRow(states[k], actions[k], p, id)
    ensures id in states[k].store.rows && id in states[k + 1].store.rows
    ensures var n := Trailing(states[k + 1].log, id);
            var r, now := states[k + 1].store.rows[id], states[k].store.now;
            && n == Trailing(states[k].log, id) + 1
            && r.nextAttempt == Some(now + Min(p.recoveryBase * Pow2(n - 1), p.recoveryCap))
            && r.notBefore == Some(now + p.minRepeat)
            && !r.healthy
  {
    RunKeepsInv(states, actions, p, k);
    FailureFacts(states[k], actions[k], p, id);
    LadderScheduleStep(states[k].store, EventOf(actions[k], p), p, states[k].log, id, states[k + 1].store, states[k + 1].log);
  }

  /** A failure that is accepted for a row carries the update that the row itself asks for. */
  lemma FailureFacts(sys: System, a: Action, p: Policy, id: Id)
    requires p.Valid() && Inv(sys, p) && Allowed(sys, a, p) && FailsRow(sys, a, p, id)
    ensures id in sys.store.rows && sys.store.rows[id].failCount == Trailing(sys.log, id)
    ensures var e := EventOf(a, p);
            (e.CompleteScan? || e.ConsumerFailure?) && e.update.repeatDelay == p.minRepeat
            && e.update.nextDelay == LadderDelay(sys.store.rows[id].failCount, p.recoveryBase, p.recoveryCap)
  {
    FailsItsTarget(sys.store, EventOf(a, p), id);
    UpdateIsCurrent(sys, a, p, id);
    FailureUpdateAdvances(p, sys.store.rows[id].failCount);
  }

  lemma LadderScheduleStep(s: State, e: Event, p: Policy, log: seq<Observation>, id: Id, s': State, log': seq<Observation>)
    requires Observed(s, e) == [Observation(id, true)] && s' == Next(s, e, p) && log' == log + Observed(s, e)
    requires id in s.rows && s.rows[id].failCount == Trailing(log, id)
    requires (e.CompleteScan? || e.ConsumerFailure?) && e.update.repeatDelay == p.minRepeat
             && e.update.nextDelay == LadderDelay(s.rows[id].failCount, p.recoveryBase, p.recoveryCap)
    ensures id in s'.rows
    ensures var n := Trailing(log', id);
            var r := s'.rows[id];
            && n == Trailing(log, id) + 1
            && r.nextAttempt == Some(s.now + LadderDelay(n - 1, p.recoveryBase, p.recoveryCap))
            && r.notBefore == Some(s.now + p.minRepeat)
            && !r.healthy
  {
    LogStep(log, Observed(s, e), id);
    FailsItsTarget(s, e, id);
    FailureRow(s.rows[id], e, p, s.now);
  }

  lemma FailsItsTarget(s: State, e: Event, id: Id)
    requires Observed(s, e) == [Observation(id, true)]
    ensures Target(e) == Some(id) && id in s.rows
    ensures || (e.CompleteScan? && Fenced(s.rows[id], e.lease, s.now) && e.update.outcome.Failure?)
            || (e.ConsumerFailure? && LockValid(s.rows[id], e.owner, e.ttl, s.now) && s.rows[id].version == e.rec.version)
  {
  }

  lemma FailureRow(r: Record, e: Event, p: Policy, now: Time)
    requires || (e.CompleteScan? && Fenced(r, e.lease, now) && e.update.outcome.Failure?)
             || (e.ConsumerFailure? && LockValid(r, e.owner, e.ttl, now) && r.version == e.rec.version)
    ensures var r' := RowAfter(r, e, p, now);
            r'.nextAttempt == Some(now + e.update.nextDelay) && r'.notBefore == Some(now + e.update.repeatDelay) && !r'.healthy
  {
  }

  /**
   The fence is what makes a stale copy safe.  Written without it, a failure whose
   step comes from a copy with another failure count stays on the ladder exactly if
   both counts clamp to the same next step.
   */
  lemma UnfencedFailureOnLadder(p: Policy, r: Record, stale: Record, now: Time, t: nat)
    requires p.Valid() && RowInv(r, p, t) && RowInv(stale, p, t)
    ensures RowInv(AfterFailure(r, FailureUpdate(p, stale.recoveryStep), now), p, t) <==>
            Min(stale.failCount + 1, Bound(p)) == Min(r.failCount + 1, Bound(p))
  {
    StepBoundSaturates(p.recoveryBase, p.recoveryCap);
    FailureUpdateAdvances(p, stale.failCount);
  }

  /** Below the bound, every copy that missed or precedes a failure breaks the ladder. */
  lemma UnfencedFailureBreaksLadder(p: Policy, r: Record, stale: Record, now: Time, t: nat)
    requires p.Valid() && RowInv(r, p, t) && RowInv(stale, p, t)
    requires stale.failCount != r.failCount && (stale.failCount + 1 < Bound(p) || r.failCount + 1 < Bound(p))
    ensures !RowInv(AfterFailure(r, FailureUpdate(p, stale.recoveryStep), now), p, t)
  {
    UnfencedFailureOnLadder(p, r, stale, now, t);
  }

  /** A step neither moves a row to another endpoint nor adds a row for an endpoint that has one. */
  lemma EndpointStep(s: State, e: Event, p: Policy, id: Id)
    requires Enabled(s, e, p) && id in Next(s, e, p).rows
    ensures id in s.rows ==> Next(s, e, p).rows[id].endpoint == s.rows[id].endpoint
    ensures id !in s.rows ==> e.Insert? && e.id == id && !Listed(s.rows, Next(s, e, p).rows[id].endpoint)
  {
  }

  /** No two rows ever stand for the same proxy. */
  lemma {:induction false} EndpointsAreUnique(states: seq<System>, actions: seq<Action>, p: Policy, k: nat, a: Id, b: Id)
    requires p.Valid() && IsRun(states, actions, p) && k < |states|
    requires a in states[k].store.rows && b in states[k].store.rows
    requires states[k].store.rows[a].endpoint == states[k].store.rows[b].endpoint
    ensures a == b
  {
    if k > 0 {
      var s, e := states[k - 1].store, EventOf(actions[k - 1], p);
      EndpointStep(s, e, p, a);
      EndpointStep(s, e, p, b);
      if a in s.rows && b in s.rows {
        EndpointsAreUnique(states, actions, p, k - 1, a, b);
      }
    }
  }

  /**
   Version determines evidence: in any run the version of a row never falls and
   two states with the same version show the same evidence; the destination
   cooldown never falls either.
   */
  lemma VersionDeterminesEvidence(states: seq<System>, actions: seq<Action>, p: Policy, i: nat, j: nat, id: Id)
    requires p.Valid() && IsRun(states, actions, p) && i <= j < |states| && id in states[i].store.rows
    ensures id in states[j].store.rows
    ensures var r1, r2 := states[i].store.rows[id], states[j].store.rows[id];
            && r1.version <= r2.version
            && (r1.version == r2.version ==> EvidenceOf(r1) == EvidenceOf(r2))
            && (r1.cooldownUntil.Some? ==> r2.cooldownUntil.Some? && r1.cooldownUntil.value <= r2.cooldownUntil.value)
  {
    RunMovesForward(states, actions, p, i, j);
  }

  /** One step raises the version of a row by one if it is an accepted conclusive observation of it, and by nothing otherwise. */
  lemma VersionCountsObservations(states: seq<System>, actions: seq<Action>, p: Policy, k: nat, id: Id)
    requires p.Valid() && IsRun(states, actions, p) && k < |actions| && id in states[k].store.rows
    ensures id in states[k + 1].store.rows
    ensures var r1, r2 := states[k].store.rows[id], states[k + 1].store.rows[id];
            var obs := Observed(states[k].store, EventOf(actions[k], p));
            && r2.version == r1.version + (if obs != [] && obs[0].id == id then 1 else 0)
            && (EvidenceOf(r1) != EvidenceOf(r2) ==> obs != [] && obs[0].id == id)
  {
    RunKeepsInv(states, actions, p, k);
    var e := EventOf(actions[k], p);
    if Target(e) == Some(id) {
      UpdateIsCurrent(states[k], actions[k], p, id);
      RowStep(states[k].store.rows[id], e, p, states[k].store.now, states[k].store.nextToken);
    }
  }

  // ----- fencing

  /** A token that a row does not carry now, though it was issued, is never carried again. */
  lemma DeadTokenStaysDead(states: seq<System>, actions: seq<Action>, p: Policy, i: nat, j: nat, id: Id, t: nat)
    requires p.Valid() && IsRun(states, actions, p) && i <= j < |states|
    requires id in states[i].store.rows && t < states[i].store.nextToken
    requires states[i].store.rows[id].token != Some(t)
    ensures id in states[j].store.rows && states[j].store.rows[id].token != Some(t)
  {
    RunMovesForward(states, actions, p, i, j);
  }

  /** The step that issued a lease. */
  ghost predicate IssuedAt(states: seq<System>, i: nat, l: Lease) {
    i + 1 < |states| && l in states[i + 1].leases && l !in states[i].leases
  }

  lemma {:induction false} IssuedFacts(states: seq<System>, actions: seq<Action>, p: Policy, i: nat, l: Lease)
    requires p.Valid() && IsRun(states, actions, p) && IssuedAt(states, i, l)
    ensures l.token == states[i].store.nextToken < states[i + 1].store.nextToken
    ensures l.record.id in states[i].store.rows && l.record.id in states[i + 1].store.rows
    ensures states[i + 1].store.rows[l.record.id] == l.record
    ensures l.record.leaseUntil == Some(states[i].store.now + p.leaseDuration)
    ensures l.record.token == Some(l.token)
  {
    RunKeepsInv(states, actions, p, i);
    var e := EventOf(actions[i], p);
    var s := states[i].store;
    var id :| id in e.chosen && id in s.rows && l == Lease(Stamped(s.rows[id], s.nextToken, s.now + p.leaseDuration), s.nextToken, s.rows[id].version);
    assert l.record.id == id;
  }

  /** While a row is to carry a token later, it carries it all the time since the token was issued. */
  lemma TokenCarriedBetween(states: seq<System>, actions: seq<Action>, p: Policy, i: nat, m: nat, k: nat, l: Lease)
    requires p.Valid() && IsRun(states, actions, p) && IssuedAt(states, i, l) && i < m <= k < |states|
    requires l.record.id in states[k].store.rows && states[k].store.rows[l.record.id].token == Some(l.token)
    ensures l.record.id in states[m].store.rows
    ensures var r := states[m].store.rows[l.record.id];
            && r.token == Some(l.token) && r.version == l.version && EvidenceOf(r) == EvidenceOf(l.record)
            && r.leaseUntil == Some(states[i].store.now + p.leaseDuration)
  {
    IssuedFacts(states, actions, p, i, l);
    RunMovesForward(states, actions, p, i + 1, m);
    RunMovesForward(states, actions, p, m, k);
    RunKeepsInv(states, actions, p, m);
    assert LeaseInv(l, states[m].store);
  }

  /**
   Fencing.  If a completion of a lease is accepted, then at every moment since
   its claim the row carried exactly that lease and the evidence the lease
   captured: nothing conclusive was accepted for the row and nobody claimed it
   again; and the lease had not expired.
   */
  lemma AcceptedCompletionIsExclusive(states: seq<System>, actions: seq<Action>, p: Policy,
                                      i: nat, k: nat, m: nat, l: Lease)
    requires p.Valid() && IsRun(states, actions, p) && IssuedAt(states, i, l) && i < k < |actions|
    requires actions[k].FinishScan? && actions[k].lease == l && Accepted(states[k].store, EventOf(actions[k], p))
    requires i < m <= k
    ensures l.record.id in states[m].store.rows
    ensures var r := states[m].store.rows[l.record.id];
            r.token == Some(l.token) && r.version == l.version && EvidenceOf(r) == EvidenceOf(l.record)
    ensures states[k].store.now < states[i].store.now + p.leaseDuration
    ensures m < k ==>
              var e := EventOf(actions[m], p);
              && !(Accepted(states[m].store, e) && Target(e) == Some(l.record.id))
              && !(e.ClaimScans? && l.record.id in e.chosen)
  {
    TokenCarriedBetween(states, actions, p, i, m, k, l);
    TokenCarriedBetween(states, actions, p, i, k, k, l);
    if m < k {
      TokenCarriedBetween(states, actions, p, i, m + 1, k, l);
      IssuedFacts(states, actions, p, i, l);
      RunMovesForward(states, actions, p, i + 1, m);
      LosesToken(states[m].store, EventOf(actions[m], p), p, l.record.id);
    }
  }

  /** An accepted observation clears the token of its row; a claim replaces it. */
  lemma LosesToken(s: State, e: Event, p: Policy, id: Id)
    requires id in s.rows
    ensures Accepted(s, e) && Target(e) == Some(id) ==> Next(s, e, p).rows[id].token.None?
    ensures e.ClaimScans? && id in e.chosen ==> Next(s, e, p).rows[id].token == Some(s.nextToken)
  {
  }

  /** A lease is accepted at most once in any run. */
  lemma AcceptedAtMostOnce(states: seq<System>, actions: seq<Action>, p: Policy, j: nat, k: nat)
    requires p.Valid() && IsRun(states, actions, p) && j < k < |actions|
    requires actions[j].FinishScan? && Accepted(states[j].store, EventOf(actions[j], p))
    requires actions[k].FinishScan? && actions[k].lease == actions[j].lease
    ensures !Accepted(states[k].store, EventOf(actions[k], p)) && states[k + 1].store == states[k].store
  {
    var l := actions[j].lease;
    RunKeepsInv(states, actions, p, j);
    assert LeaseInv(l, states[j].store);
    SpentLeaseIsInert(states, actions, p, j + 1, k, l);
  }

  /** What a lease can still do once its row carries another token or none: nothing. */
  lemma SpentLeaseIsInert(states: seq<System>, actions: seq<Action>, p: Policy, i: nat, k: nat, l: Lease)
    requires p.Valid() && IsRun(states, actions, p) && i <= k < |states|
    requires l.record.id in states[i].store.rows && l.token < states[i].store.nextToken
    requires states[i].store.rows[l.record.id].token != Some(l.token)
    ensures forall u :: !Accepted(states[k].store, CompleteScan(l, u)) && Next(states[k].store, CompleteScan(l, u), p) == states[k].store
    ensures Next(states[k].store, ReleaseScan(l), p) == states[k].store
  {
    DeadTokenStaysDead(states, actions, p, i, k, l.record.id, l.token);
    var rows := states[k].store.rows;
    assert rows[l.record.id := rows[l.record.id]] == rows;
  }

  /** Once a consumer failure is accepted, every lease issued before it on that row can neither complete nor release anything. */
  lemma ConsumerFailureFencesLeases(states: seq<System>, actions: seq<Action>, p: Policy, j: nat, k: nat, l: Lease)
    requires p.Valid() && IsRun(states, actions, p) && j < k < |states|
    requires actions[j].MarkFailed? && Accepted(states[j].store, EventOf(actions[j], p))
    requires l in states[j].leases && l.record.id == actions[j].rec.id
    ensures forall u :: !Accepted(states[k].store, CompleteScan(l, u)) && Next(states[k].store, CompleteScan(l, u), p) == states[k].store
    ensures Next(states[k].store, ReleaseScan(l), p) == states[k].store
  {
    RunKeepsInv(states, actions, p, j);
    assert LeaseInv(l, states[j].store);
    SpentLeaseIsInert(states, actions, p, j + 1, k, l);
  }

  /** A stale release never clears a newer lease: after a row is claimed again, releasing the old lease changes nothing. */
  lemma StaleReleaseIsInert(states: seq<System>, actions: seq<Action>, p: Policy, i: nat, j: nat, k: nat, old_: Lease, new_: Lease)
    requires p.Valid() && IsRun(states, actions, p) && i < j < k < |states|
    requires IssuedAt(states, i, old_) && IssuedAt(states, j, new_) && old_.record.id == new_.record.id
    ensures Next(states[k].store, ReleaseScan(old_), p) == states[k].store
  {
    IssuedFacts(states, actions, p, i, old_);
    IssuedFacts(states, actions, p, j, new_);
    RunMovesForward(states, actions, p, i + 1, j);
    SpentLeaseIsInert(states, actions, p, j + 1, k, old_);
  }

  /** A row is leased again only after its lease was given up or has run out. */
  lemma LeaseIsExclusive(states: seq<System>, actions: seq<Action>, p: Policy, i: nat, j: nat, a: Lease, b: Lease)
    requires p.Valid() && IsRun(states, actions, p) && i < j
    requires IssuedAt(states, i, a) && IssuedAt(states, j, b) && a.record.id == b.record.id
    ensures a.record.id in states[j].store.rows
    ensures states[j].store.rows[a.record.id].token == Some(a.token) ==> states[j].store.now >= states[i].store.now + p.leaseDuration
  {
    IssuedFacts(states, actions, p, i, a);
    RunMovesForward(states, actions, p, i + 1, j);
    RunKeepsInv(states, actions, p, j);
    IssuedWhenDue(states[j], actions[j], p, b);
  }

  lemma IssuedWhenDue(sys: System, a: Action, p: Policy, l: Lease)
    requires Allowed(sys, a, p) && Keyed(sys.store.rows) && l in Issued(sys.store, EventOf(a, p), p)
    ensures l.record.id in sys.store.rows && Due(sys.store.rows[l.record.id].leaseUntil, sys.store.now)
  {
    var s, e := sys.store, EventOf(a, p);
    var id :| id in e.chosen && id in s.rows && l == Lease(Stamped(s.rows[id], s.nextToken, s.now + p.leaseDuration), s.nextToken, s.rows[id].version);
    assert id == l.record.id;
    var skipped: set<Id>, limit: nat :| Selects(s.rows, e.queue, p, s.now, skipped, limit, e.chosen);
    var n :| 0 <= n < |e.chosen| && e.chosen[n] == id;
    assert Candidate(s.rows, e.queue, p, s.now, skipped, e.chosen[n]);
  }
}
