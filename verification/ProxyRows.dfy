/**
 One row of the proxy table and what each store statement does to it: the scan
 lease (token, captured version, expiry), the independent consumer lock, and the
 evidence that only conclusive observations may change.
 */
module ProxyRows {
  import opened Scheduling

  type Id = nat
  type Time = int
  type Owner = string

  datatype Status = Active | Inactive | Dead
  datatype Queue = Verification | Recovery | Background
  datatype Protocol = Http | Https | Socks4 | Socks5 | Unsupported(name: string)

  /** Where a proxy listens: what makes two rows the same proxy. */
  datatype Endpoint = Endpoint(protocol: Protocol, address: string, port: int)

  datatype Record = Record(
    id: Id, endpoint: Endpoint, uptime: Option<int>, firstSeen: Time,
    // evidence
    healthy: bool, status: Status, latency: Option<int>,
    lastAlive: Option<Time>, lastVerified: Option<Time>,
    failCount: int, recoveryStep: int, version: nat,
    // schedule
    lastCompleted: Option<Time>, nextAttempt: Option<Time>, notBefore: Option<Time>,
    // scan lease
    token: Option<nat>, leaseUntil: Option<Time>, claimedVersion: Option<nat>,
    // consumer lock
    lockedBy: Option<Owner>, lockedAt: Option<Time>, cooldownUntil: Option<Time>)

  datatype Lease = Lease(record: Record, token: nat, version: nat)

  /** The columns that describe what is known about the proxy's health. */
  datatype Evidence = Evidence(
    healthy: bool, status: Status, latency: Option<int>,
    lastAlive: Option<Time>, lastVerified: Option<Time>, failCount: int, recoveryStep: int)

  function EvidenceOf(r: Record): Evidence {
    Evidence(r.healthy, r.status, r.latency, r.lastAlive, r.lastVerified, r.failCount, r.recoveryStep)
  }

  /** A row as it is inserted: no observation, no lease, no lock. */
  function NewRow(id: Id, endpoint: Endpoint, uptime: Option<int>, latency: Option<int>, now: Time): Record {
    Record(id, endpoint, uptime, now, false, Inactive, latency, None, None, 0, 0, 0,
           None, None, None, None, None, None, None, None, None)
  }

  // ----- scan leases

  predicate Due(t: Option<Time>, now: Time) {
    t.None? || t.value <= now
  }

  predicate Claimable(r: Record, queue: Queue, p: Policy, now: Time) {
    && Due(r.leaseUntil, now)
    && Due(r.notBefore, now)
    && match queue
       case Verification => r.healthy && Due(r.nextAttempt, now)
       case Recovery =>
         !r.healthy && r.lastVerified.Some? && r.lastVerified.value > now - p.recoveryHorizon && Due(r.nextAttempt, now)
       case Background => !r.healthy
  }

  function QueueKey(r: Record, queue: Queue): Option<Time> {
    if queue == Background then r.lastCompleted else r.nextAttempt
  }

  /** The claim order: no deadline first, then the earlier deadline, then the smaller id. */
  predicate Before(a: Record, b: Record, queue: Queue) {
    var ka, kb := QueueKey(a, queue), QueueKey(b, queue);
    if ka.None? || kb.None? then
      if ka.None? && kb.None? then a.id < b.id else ka.None?
    else if ka.value != kb.value then ka.value < kb.value
    else a.id < b.id
  }

  function Stamped(r: Record, token: nat, until: Time): Record {
    r.(token := Some(token), leaseUntil := Some(until), claimedVersion := Some(r.version))
  }

  function Unleased(r: Record): Record {
    r.(token := None, leaseUntil := None, claimedVersion := None)
  }

  /** The compare-and-set of a completion. */
  predicate Fenced(r: Record, l: Lease, now: Time) {
    && r.token == Some(l.token)
    && r.claimedVersion == Some(l.version)
    && r.version == l.version
    && r.leaseUntil.Some? && r.leaseUntil.value > now
  }

  /** The compare-and-set of a release: no version of the row, no expiry. */
  predicate Releasable(r: Record, l: Lease) {
    r.token == Some(l.token) && r.claimedVersion == Some(l.version)
  }

  function FailureStatus(r: Record, now: Time, u: Update): Status {
    var lastAlive := if r.lastAlive.Some? then r.lastAlive.value else r.firstSeen;
    if r.failCount + 1 >= u.failThreshold || now - lastAlive > u.deadAfter then Dead else Inactive
  }

  /** The failure transition that scanners and consumers share. */
  function AfterFailure(r: Record, u: Update, now: Time): Record {
    Unleased(r.(healthy := false, status := FailureStatus(r, now, u),
             lastCompleted := Some(now), failCount := r.failCount + 1, recoveryStep := u.recoveryStep,
             nextAttempt := Some(now + u.nextDelay), notBefore := Some(now + u.repeatDelay),
             version := r.version + 1))
  }

  function AfterScan(r: Record, u: Update, now: Time): Record {
    match u.outcome
    case Success =>
      Unleased(r.(healthy := true, status := Active, latency := Some(u.latency),
               lastAlive := Some(now), lastVerified := Some(now), lastCompleted := Some(now),
               failCount := 0, recoveryStep := 0,
               nextAttempt := Some(now + u.nextDelay), notBefore := Some(now + u.repeatDelay),
               version := r.version + 1))
    case Failure => AfterFailure(r, u, now)
    case Inconclusive =>
      Unleased(r.(lastCompleted := Some(now),
               nextAttempt := Some(now + u.nextDelay), notBefore := Some(now + u.repeatDelay)))
  }

  // ----- consumer locks

  predicate Fresh(r: Record, p: Policy, now: Time) {
    r.healthy && r.lastVerified.Some? && r.lastVerified.value > now - p.freshnessTTL
  }

  predicate Available(r: Record, p: Policy, ttl: int, now: Time) {
    && Fresh(r, p, now)
    && !r.endpoint.protocol.Unsupported?
    && (r.lockedAt.None? || r.lockedAt.value < now - ttl)
    && Due(r.cooldownUntil, now)
  }

  predicate LockValid(r: Record, owner: Owner, ttl: int, now: Time) {
    r.lockedBy == Some(owner) && r.lockedAt.Some? && r.lockedAt.value > now - ttl
  }

  /** By the clock: `owner` locked the row last, and less than `ttl` has passed since. */
  predicate Holds(r: Record, owner: Owner, ttl: int, now: Time) {
    r.lockedBy == Some(owner) && r.lockedAt.Some? && now < r.lockedAt.value + ttl
  }

  predicate Refreshable(r: Record, owner: Owner, ttl: int, p: Policy, now: Time) {
    LockValid(r, owner, ttl, now) && Fresh(r, p, now) && Due(r.cooldownUntil, now)
  }

  function Locked(r: Record, owner: Owner, now: Time): Record {
    r.(lockedBy := Some(owner), lockedAt := Some(now))
  }

  function Unlocked(r: Record): Record {
    r.(lockedBy := None, lockedAt := None)
  }

  function CooledDown(r: Record, until: Time): Record {
    Unlocked(r.(cooldownUntil :=
                  Some(if r.cooldownUntil.Some? && r.cooldownUntil.value > until then r.cooldownUntil.value else until)))
  }

  /** Preference between two available rows: uptime, then latency, then failures; unknown values last. */
  predicate Preferred(a: Record, b: Record) {
    if a.uptime != b.uptime then
      a.uptime.Some? && (b.uptime.None? || a.uptime.value > b.uptime.value)
    else if a.latency != b.latency then
      a.latency.Some? && (b.latency.None? || a.latency.value < b.latency.value)
    else a.failCount < b.failCount
  }
}
