/**
 The endpoint guard: the circuit breaker that watches this replica's own
 egress, and what two of its snapshots prove about the time between them.
 The generation is a 64-bit counter, so it wraps.
 */
module Guard {
  import opened Scheduling

  const GENERATIONS := 0x1_0000_0000_0000_0000

  function AfterControl(s: GuardSnapshot, ok: bool): GuardSnapshot {
    GuardSnapshot(ok, if !ok && s.healthy then (s.generation + 1) % GENERATIONS else s.generation)
  }

  class EndpointGuard {
    var healthy: bool
    var generation: nat

    ghost predicate Valid()
      reads this
    {
      generation < GENERATIONS
    }

    function State(): GuardSnapshot
      reads this
    {
      GuardSnapshot(healthy, generation)
    }

    constructor ()
      ensures Valid() && State() == GuardSnapshot(false, 0)
    {
      healthy, generation := false, 0;
    }

    /** Records the outcome of one control request. */
    method Control(ok: bool)
      requires Valid()
      modifies this
      ensures Valid() && State() == AfterControl(old(State()), ok)
    {
      if !ok && healthy {
        generation := (generation + 1) % GENERATIONS;
      }
      healthy := ok;
    }

    method Snapshot() returns (s: GuardSnapshot)
      ensures s == State()
    {
      return GuardSnapshot(healthy, generation);
    }
  }

  // ----- runs of controls

  function After(s: GuardSnapshot, controls: seq<bool>): GuardSnapshot {
    if controls == [] then s else AfterControl(After(s, controls[..|controls| - 1]), controls[|controls| - 1])
  }

  /** How often the guard fell from healthy to unhealthy. */
  function Drops(s: GuardSnapshot, controls: seq<bool>): (n: nat)
    ensures n <= |controls|
  {
    if controls == [] then 0
    else
      var before := controls[..|controls| - 1];
      Drops(s, before) + (if !controls[|controls| - 1] && After(s, before).healthy then 1 else 0)
  }

  predicate AllPassed(controls: seq<bool>) {
    forall k :: 0 <= k < |controls| ==> controls[k]
  }

  lemma {:induction false} GenerationCountsDrops(s: GuardSnapshot, controls: seq<bool>)
    requires s.generation < GENERATIONS
    ensures After(s, controls).generation == (s.generation + Drops(s, controls)) % GENERATIONS
  {
    if controls != [] {
      GenerationCountsDrops(s, controls[..|controls| - 1]);
    }
  }

  /** A guard that starts healthy fell at least once exactly if some control failed. */
  lemma {:induction false} DropsMeanFailures(s: GuardSnapshot, controls: seq<bool>)
    requires s.healthy
    ensures AllPassed(controls) <==> Drops(s, controls) == 0
    ensures AllPassed(controls) ==> After(s, controls) == s
  {
    if controls != [] {
      var before := controls[..|controls| - 1];
      DropsMeanFailures(s, before);
      assert AllPassed(controls) <==> AllPassed(before) && controls[|controls| - 1];
    }
  }

  /**
   The exact meaning of equal generations: the number of falls in between is a
   multiple of the counter's range.
   */
  lemma EqualGenerations(s: GuardSnapshot, controls: seq<bool>)
    requires s.generation < GENERATIONS
    ensures After(s, controls).generation == s.generation <==> Drops(s, controls) % GENERATIONS == 0
  {
    GenerationCountsDrops(s, controls);
    SameResidue(s.generation, Drops(s, controls));
  }

  lemma SameResidue(g: nat, d: nat)
    requires g < GENERATIONS
    ensures (g + d) % GENERATIONS == g <==> d % GENERATIONS == 0
  {
    var q, r := d / GENERATIONS, d % GENERATIONS;
    assert g + d == GENERATIONS * q + (g + r);
  }

  /** For a guard that starts healthy: the generation is unchanged exactly if every control passed. */
  lemma SameGenerationMeansPassed(s: GuardSnapshot, controls: seq<bool>)
    requires s.generation < GENERATIONS && |controls| < GENERATIONS && s.healthy
    ensures After(s, controls).generation == s.generation <==> AllPassed(controls)
  {
    EqualGenerations(s, controls);
    DropsMeanFailures(s, controls);
  }

  lemma AllPassedConcat(a: seq<bool>, b: seq<bool>)
    ensures AllPassed(a + b) <==> AllPassed(a) && AllPassed(b)
  {
    assert forall k :: 0 <= k < |a| ==> a[k] == (a + b)[k];
    assert forall k :: 0 <= k < |b| ==> b[k] == (a + b)[|a| + k];
  }

  /**
   Two snapshots are stable exactly if the first is healthy and no control
   failed in between, as long as fewer than 2^64 controls ran.
   */
  lemma StableMeansNoFailedControl(s: GuardSnapshot, controls: seq<bool>)
    requires s.generation < GENERATIONS && |controls| < GENERATIONS
    ensures Stable(s, After(s, controls)) <==> s.healthy && AllPassed(controls)
  {
    if s.healthy {
      SameGenerationMeansPassed(s, controls);
      DropsMeanFailures(s, controls);
    }
  }

  lemma {:induction false} AfterConcat(s: GuardSnapshot, a: seq<bool>, b: seq<bool>)
    ensures After(s, a + b) == After(After(s, a), b)
  {
    if b == [] {
      assert a + b == a;
    } else {
      var b' := b[..|b| - 1];
      AfterConcat(s, a, b');
      assert (a + b)[..|a + b| - 1] == a + b';
    }
  }

  // ----- attribution

  /** The finish snapshot that the dispatcher classifies with, after its last look at the guard. */
  function EffectiveFinish(start: GuardSnapshot, finish: GuardSnapshot, recheck: GuardSnapshot): GuardSnapshot {
    if recheck.generation != start.generation then recheck else finish
  }

  predicate Blames(res: CheckResult) {
    res.Failed? && !res.cancelled && res.typed.Some? && res.typed.value.kind in {CheckProxy, CheckDeadline}
  }

  /** How an attempt ended: whether the checker panicked, whether the worker was stopped meanwhile, and what the check said. */
  datatype Attempt = Attempt(panicked: bool, stopped: bool, res: CheckResult)

  /** What is persisted of an attempt; a panicked or stopped one is only released. */
  function Verdict(a: Attempt, start: GuardSnapshot, finish: GuardSnapshot, recheck: GuardSnapshot): Option<Outcome> {
    if a.panicked || a.stopped then None
    else Some(ClassifyCheck(a.res, start, EffectiveFinish(start, finish, recheck)))
  }

  /**
   Sound attribution.  `during` are the controls between the start and the finish
   snapshot of an attempt, `after` those between the finish snapshot and the
   recheck before persisting.  The attempt is submitted as a failure of the proxy
   exactly if it ran to its end, the check blames the proxy, the guard was healthy
   at the start and not one control failed up to the recheck.
   */
  lemma FailureAttributionIsSound(start: GuardSnapshot, during: seq<bool>, after: seq<bool>, a: Attempt)
    requires start.generation < GENERATIONS && |during| + |after| < GENERATIONS
    ensures var finish := After(start, during);
            var recheck := After(finish, after);
            Verdict(a, start, finish, recheck) == Some(Failure) <==>
              !a.panicked && !a.stopped && Blames(a.res) && start.healthy && AllPassed(during + after)
  {
    AfterConcat(start, during, after);
    AllPassedConcat(during, after);
    StableMeansNoFailedControl(start, during);
    if start.healthy {
      SameGenerationMeansPassed(start, during + after);
    }
  }
}
