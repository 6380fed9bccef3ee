/**
 The recovery ladder and the translation of one finished check into the
 relative update that the store applies.  Durations and instants are integers
 (nanoseconds); `MAX_DURATION` is the largest value a 64-bit duration holds.
 */
module Scheduling {

  const MAX_DURATION := 0x7FFF_FFFF_FFFF_FFFF

  datatype Option<+T> = None | Some(value: T)

  datatype Policy = Policy(
    verifyInterval: int, freshnessTTL: int,
    recoveryBase: int, recoveryCap: int, recoveryHorizon: int,
    leaseDuration: int, minRepeat: int, inconclusiveRetry: int,
    deadAfter: int, failThreshold: int)
  {
    /** What start-up validation accepts. */
    ghost predicate Valid() {
      && 0 < verifyInterval <= MAX_DURATION
      && 0 < freshnessTTL <= MAX_DURATION
      && 0 < recoveryBase <= recoveryCap <= MAX_DURATION
      && 0 < recoveryHorizon <= MAX_DURATION
      && 0 < leaseDuration <= MAX_DURATION
      && 0 < minRepeat <= inconclusiveRetry <= MAX_DURATION
      && 0 < failThreshold
    }
  }

  datatype Outcome = Success | Failure | Inconclusive

  datatype Update = Update(
    outcome: Outcome, latency: int, nextDelay: int, repeatDelay: int,
    recoveryStep: int, deadAfter: int, failThreshold: int)

  datatype GuardSnapshot = GuardSnapshot(healthy: bool, generation: nat)

  datatype CheckKind = CheckLocal | CheckProxy | CheckTarget | CheckDeadline | CheckCancelled

  /**
   What one check returned.  `cancelled` says that the error chain carries the
   caller's cancellation, `typed` is the typed failure found in the chain.
   */
  datatype CheckResult =
    | Passed
    | Failed(cancelled: bool, typed: Option<CheckError>)

  datatype CheckError = CheckError(kind: CheckKind, retryAfter: int)

  // ----- the recovery delay

  function Pow2(n: nat): (p: nat)
    ensures p >= 1
  {
    if n == 0 then 1 else 2 * Pow2(n - 1)
  }

  function Min(a: int, b: int): int {
    if a < b then a else b
  }

  /** The delay the policy promises before retry number `step`. */
  function LadderDelay(step: nat, base: int, cap: int): int {
    Min(base * Pow2(step), cap)
  }

  lemma {:induction false} Pow2Monotone(a: nat, b: nat)
    requires a <= b
    ensures Pow2(a) <= Pow2(b)
  {
    if a < b {
      Pow2Monotone(a, b - 1);
    }
  }

  lemma LadderSaturates(a: nat, b: nat, base: int, cap: int)
    requires a <= b && 0 < base
    requires LadderDelay(a, base, cap) == cap
    ensures LadderDelay(b, base, cap) == cap
  {
    Pow2Monotone(a, b);
    assert base * Pow2(a) <= base * Pow2(b);
  }

  /**
   The doubling loop.  It doubles only while the result is known to stay below
   the cap, so that no intermediate product leaves the 64-bit range.
   */
  method RecoveryDelay(step: int, base: int, cap: int) returns (d: int)
    requires 0 < base <= MAX_DURATION && 0 < cap <= MAX_DURATION
    ensures d == LadderDelay(if step < 0 then 0 else step, base, cap)
    ensures 0 < d <= cap
  {
    d := base;
    var i := 0;
    while i < step && d < cap
      invariant 0 <= i && (i <= step || i == 0)
      invariant d == base * Pow2(i)
      invariant 0 < d <= MAX_DURATION
    {
      if d > cap / 2 {
        LadderSaturatesAfter(i, step, base, cap);
        return cap;
      }
      d := d * 2;
      i := i + 1;
    }
    if d >= cap && i < step {
      LadderSaturates(i, step, base, cap);
    }
    if d > cap {
      return cap;
    }
  }

  lemma LadderSaturatesAfter(i: nat, step: nat, base: int, cap: int)
    requires i < step && 0 < base && base * Pow2(i) > cap / 2
    ensures LadderDelay(step, base, cap) == cap
  {
    assert base * Pow2(i + 1) == 2 * (base * Pow2(i));
    LadderSaturates(i + 1, step, base, cap);
  }

  // ----- the bound on the stored step

  /** The first step from `s` on, at most 64, whose delay is already the cap. */
  function FirstSaturated(s: nat, base: int, cap: int): (r: nat)
    requires 1 <= s <= 64
    ensures s <= r <= 64
    ensures r < 64 ==> LadderDelay(r, base, cap) >= cap
    ensures forall k :: s <= k < r ==> LadderDelay(k, base, cap) < cap
    decreases 64 - s
  {
    if s < 64 && LadderDelay(s, base, cap) < cap then FirstSaturated(s + 1, base, cap) else s
  }

  function StepBound(base: int, cap: int): nat {
    FirstSaturated(1, base, cap) + 1
  }

  method RecoveryStepBound(base: int, cap: int) returns (bound: int)
    requires 0 < base <= MAX_DURATION && 0 < cap <= MAX_DURATION
    ensures bound == StepBound(base, cap)
  {
    var s := 1;
    var d := RecoveryDelay(s, base, cap);
    while s < 64 && d < cap
      invariant 1 <= s <= 64
      invariant d == LadderDelay(s, base, cap)
      invariant FirstSaturated(s, base, cap) == FirstSaturated(1, base, cap)
    {
      s := s + 1;
      d := RecoveryDelay(s, base, cap);
    }
    return s + 1;
  }

  lemma {:induction false} Pow2Of63()
    ensures Pow2(63) == 0x8000_0000_0000_0000
  {
    assert Pow2(8) == 256;
    assert Pow2(16) == 0x1_0000 by { assert Pow2(12) == 4096; }
    assert Pow2(20) == 0x10_0000;
    assert Pow2(24) == 0x100_0000;
    assert Pow2(28) == 0x1000_0000;
    assert Pow2(32) == 0x1_0000_0000;
    assert Pow2(36) == 0x10_0000_0000;
    assert Pow2(40) == 0x100_0000_0000;
    assert Pow2(44) == 0x1000_0000_0000;
    assert Pow2(48) == 0x1_0000_0000_0000;
    assert Pow2(52) == 0x10_0000_0000_0000;
    assert Pow2(56) == 0x100_0000_0000_0000;
    assert Pow2(60) == 0x1000_0000_0000_0000;
  }

  /**
   The search of the bound never runs into its own limit of 64, because a
   64-bit cap is reached after at most 63 doublings.  So the stored step stays
   at most 64 and from the bound on every delay is the cap.
   */
  lemma StepBoundSaturates(base: int, cap: int)
    requires 0 < base && 0 < cap <= MAX_DURATION
    ensures 2 <= StepBound(base, cap) <= 64
    ensures LadderDelay(StepBound(base, cap) - 1, base, cap) == cap
  {
    Pow2Of63();
    assert base * Pow2(63) >= Pow2(63);
    assert LadderDelay(63, base, cap) == cap;
  }

  /**
   Clamping the stored step to the bound loses nothing: whatever the number of
   consecutive failures, the delay computed from the clamped step is the delay
   of the unclamped one.
   */
  lemma ClampKeepsDelay(n: nat, base: int, cap: int)
    requires 1 <= n && 0 < base && 0 < cap <= MAX_DURATION
    ensures Min(n, StepBound(base, cap)) >= 1
    ensures LadderDelay(Min(n, StepBound(base, cap)) - 1, base, cap) == LadderDelay(n - 1, base, cap)
  {
    StepBoundSaturates(base, cap);
    var bound := StepBound(base, cap);
    if n > bound {
      LadderSaturates(bound - 1, n - 1, base, cap);
    }
  }

  // ----- attribution of a finished check

  predicate Stable(start: GuardSnapshot, finish: GuardSnapshot) {
    start.healthy && finish.healthy && start.generation == finish.generation
  }

  function ClassifyCheck(res: CheckResult, start: GuardSnapshot, finish: GuardSnapshot): (o: Outcome)
    ensures o.Success? <==> res.Passed?
    ensures o.Failure? <==>
              && res.Failed? && !res.cancelled && res.typed.Some?
              && res.typed.value.kind in {CheckProxy, CheckDeadline}
              && Stable(start, finish)
  {
    if res.Passed? then Success
    else if res.cancelled then Inconclusive
    else if res.typed.None? then Inconclusive
    else if Stable(start, finish) && (res.typed.value.kind == CheckProxy || res.typed.value.kind == CheckDeadline)
    then Failure
    else Inconclusive
  }

  // ----- the relative update

  function NextStep(step: int, p: Policy): int {
    var bound := StepBound(p.recoveryBase, p.recoveryCap);
    if step + 1 < 1 || step + 1 > bound then bound else step + 1
  }

  function FailureUpdate(p: Policy, step: int): Update {
    var next := NextStep(step, p);
    Update(Failure, 0, LadderDelay(if next < 1 then 0 else next - 1, p.recoveryBase, p.recoveryCap),
           p.minRepeat, next, p.deadAfter, p.failThreshold)
  }

  function ScanUpdate(p: Policy, step: int, latency: int, res: CheckResult,
                      start: GuardSnapshot, finish: GuardSnapshot): Update
  {
    match ClassifyCheck(res, start, finish)
    case Success => Update(Success, latency, p.verifyInterval, p.minRepeat, 0, p.deadAfter, p.failThreshold)
    case Failure => FailureUpdate(p, step).(latency := latency)
    case Inconclusive =>
      var delay := if res.Failed? && res.typed.Some? && res.typed.value.retryAfter > p.inconclusiveRetry
                   then res.typed.value.retryAfter else p.inconclusiveRetry;
      Update(Inconclusive, latency, delay, delay, step, p.deadAfter, p.failThreshold)
  }

  /**
   If the record that the update was built from carries the step of `n`
   consecutive failures, the update carries the step of `n + 1` of them and
   the delay the ladder promises for the (n+1)-th.
   */
  lemma FailureUpdateAdvances(p: Policy, n: nat)
    requires p.Valid()
    ensures var bound := StepBound(p.recoveryBase, p.recoveryCap);
            var u := FailureUpdate(p, Min(n, bound));
            && u.recoveryStep == Min(n + 1, bound)
            && u.nextDelay == LadderDelay(n, p.recoveryBase, p.recoveryCap)
            && 0 < u.nextDelay <= p.recoveryCap
  {
    var base, cap := p.recoveryBase, p.recoveryCap;
    ClampKeepsDelay(n + 1, base, cap);
    StepBoundSaturates(base, cap);
    DelayInRange(n, base, cap);
    assert NextStep(Min(n, StepBound(base, cap)), p) == Min(n + 1, StepBound(base, cap));
  }

  lemma DelayInRange(n: nat, base: int, cap: int)
    requires 0 < base && 0 < cap
    ensures 0 < LadderDelay(n, base, cap) <= cap
  {
    assert base * Pow2(n) >= base * 1;
  }

  method MakeConsumerFailureUpdate(p: Policy, step: int) returns (u: Update)
    requires p.Valid()
    ensures u == FailureUpdate(p, step)
  {
    StepBoundSaturates(p.recoveryBase, p.recoveryCap);
    var next := step + 1;
    var bound := RecoveryStepBound(p.recoveryBase, p.recoveryCap);
    if next < 1 || next > bound {
      next := bound;
    }
    var delay := RecoveryDelay(next - 1, p.recoveryBase, p.recoveryCap);
    return Update(Failure, 0, delay, p.minRepeat, next, p.deadAfter, p.failThreshold);
  }

  method MakeScanUpdate(p: Policy, step: int, latency: int, res: CheckResult,
                        start: GuardSnapshot, finish: GuardSnapshot) returns (u: Update)
    requires p.Valid()
    ensures u == ScanUpdate(p, step, latency, res, start, finish)
  {
    match ClassifyCheck(res, start, finish)
    case Success =>
      u := Update(Success, latency, p.verifyInterval, p.minRepeat, 0, p.deadAfter, p.failThreshold);
    case Failure =>
      var f := MakeConsumerFailureUpdate(p, step);
      u := Update(f.outcome, latency, f.nextDelay, f.repeatDelay, f.recoveryStep, p.deadAfter, p.failThreshold);
    case Inconclusive =>
      var delay := p.inconclusiveRetry;
      if res.Failed? && res.typed.Some? && res.typed.value.retryAfter > delay {
        delay := res.typed.value.retryAfter;
      }
      u := Update(Inconclusive, latency, delay, delay, step, p.deadAfter, p.failThreshold);
  }
}
