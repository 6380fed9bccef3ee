/**
 The single-flight cache in front of the analytics snapshot.  Its three critical
 sections are atomic steps; requests read their clock before they enter one, and
 any number of requests, background loads and refreshes interleave.
 */
module StatsCache {
  import opened Scheduling

  type Time = int

  /** `sound` is the verdict of the snapshot validation. */
  datatype Snapshot = Snapshot(generatedAt: Time, sound: bool)

  /** `wait` is the channel that the load in flight closes at its end; channels are numbered in the order they are made. */
  datatype Cache = Cache(
    snapshot: Option<Snapshot>, loadedAt: Time, loading: bool, wait: Option<nat>, made: nat, closed: set<nat>)

  /** What a request does after its critical section. */
  datatype Move =
    | Serve(snapshot: Snapshot, stale: bool)
    | Await(channel: nat)
    | Load
    | ServeAndLoad(snapshot: Snapshot)

  const Cold := Cache(None, 0, false, None, 0, {})

  predicate Hit(c: Cache, ttl: int, read: Time) {
    c.snapshot.Some? && read - c.loadedAt < ttl
  }

  function Began(c: Cache): Cache {
    c.(loading := true, wait := Some(c.made), made := c.made + 1)
  }

  function Arrived(c: Cache, ttl: int, read: Time): Cache {
    if Hit(c, ttl, read) || c.loading then c else Began(c)
  }

  /** The result of a load: an error, or a snapshot that still has to pass validation. */
  function Finished(c: Cache, loaded: Option<Snapshot>, now: Time): Cache {
    var snapshot := if loaded.Some? && loaded.value.sound then loaded else c.snapshot;
    Cache(snapshot, if snapshot.Some? then now else c.loadedAt, false, None, c.made,
          if c.wait.Some? then c.closed + {c.wait.value} else c.closed)
  }

  function Refreshed(c: Cache, result: Option<Snapshot>, now: Time): Cache {
    if result.Some? && result.value.sound then c.(snapshot := result, loadedAt := now) else c
  }

  // ----- runs

  /** `loads` counts the loads in flight, `waiters` are the channels that requests are blocked on. */
  datatype System = System(cache: Cache, now: Time, loads: nat, waiters: multiset<nat>)

  datatype Step =
    | Tick(until: Time)
    | Arrive(read: Time)
    | Finish(loaded: Option<Snapshot>)
    | Refresh(result: Option<Snapshot>)
    | Wake(channel: nat)
    | GiveUp(channel: nat)

  predicate Starts(c: Cache, ttl: int, s: Step) {
    s.Arrive? && !Hit(c, ttl, s.read) && !c.loading
  }

  predicate Blocks(c: Cache, ttl: int, s: Step) {
    s.Arrive? && !Hit(c, ttl, s.read) && c.loading && c.snapshot.None? && c.wait.Some?
  }

  predicate CanStep(sys: System, s: Step) {
    match s
    case Tick(until) => sys.now <= until
    case Arrive(read) => read <= sys.now
    case Finish(_) => sys.loads > 0
    case Refresh(_) => true
    case Wake(channel) => channel in sys.waiters && channel in sys.cache.closed
    case GiveUp(channel) => channel in sys.waiters
  }

  function Stepped(sys: System, s: Step, ttl: int): System {
    match s
    case Tick(until) => sys.(now := until)
    case Arrive(read) =>
      sys.(cache := Arrived(sys.cache, ttl, read),
      loads := if Starts(sys.cache, ttl, s) then sys.loads + 1 else sys.loads,
      waiters := if Blocks(sys.cache, ttl, s) then sys.waiters + multiset{sys.cache.wait.value} else sys.waiters)
    case Finish(loaded) =>
      sys.(cache := Finished(sys.cache, loaded, sys.now), loads := if sys.loads > 0 then sys.loads - 1 else 0)
    case Refresh(result) => sys.(cache := Refreshed(sys.cache, result, sys.now))
    case Wake(channel) => sys.(waiters := sys.waiters - multiset{channel})
    case GiveUp(channel) => sys.(waiters := sys.waiters - multiset{channel})
  }

  ghost predicate IsRun(states: seq<System>, steps: seq<Step>, ttl: int) {
    && |states| == |steps| + 1
    && states[0] == System(Cold, 0, 0, multiset{})
    && forall k :: 0 <= k < |steps| ==> CanStep(states[k], steps[k]) && states[k + 1] == Stepped(states[k], steps[k], ttl)
  }

  /** The cache by itself: a channel is open exactly while a load runs, every earlier one was closed. */
  ghost predicate CacheInv(c: Cache) {
    && (c.wait.Some? <==> c.loading)
    && (c.loading ==> c.made > 0 && c.wait == Some(c.made - 1))
    && (forall ch: nat :: ch in c.closed <==> ch < c.made && c.wait != Some(ch))
    && (c.snapshot.Some? ==> c.snapshot.value.sound)
  }

  /** With its surroundings: one load at most, nobody waits for a channel that nothing will close. */
  ghost predicate Inv(sys: System) {
    && CacheInv(sys.cache)
    && sys.loads == (if sys.cache.loading then 1 else 0)
    && (forall ch :: ch in sys.waiters ==> ch in sys.cache.closed || (sys.loads == 1 && sys.cache.wait == Some(ch)))
    && (sys.cache.snapshot.Some? ==> sys.cache.loadedAt <= sys.now)
  }

  lemma CacheStep(sys: System, s: Step, ttl: int)
    requires Inv(sys) && CanStep(sys, s)
    ensures CacheInv(Stepped(sys, s, ttl).cache)
    ensures sys.cache.closed <= Stepped(sys, s, ttl).cache.closed
  {
  }

  lemma StepKeepsInv(sys: System, s: Step, ttl: int)
    requires Inv(sys) && CanStep(sys, s)
    ensures Inv(Stepped(sys, s, ttl))
  {
    CacheStep(sys, s, ttl);
    var sys' := Stepped(sys, s, ttl);
    forall ch | ch in sys'.waiters ensures ch in sys'.cache.closed || (sys'.loads == 1 && sys'.cache.wait == Some(ch)) {
      assert ch in sys.waiters || (Blocks(sys.cache, ttl, s) && sys.cache.wait == Some(ch));
    }
  }

  /**
   Single flight.  In every state of every run: one load is in flight exactly
   while the flag is set, the channel is there exactly while a load runs, and
   every request that waits has its channel closed or a running load that will
   close it; the cached snapshot passed validation.
   */
  lemma {:induction false} SingleFlight(states: seq<System>, steps: seq<Step>, ttl: int, k: nat)
    requires IsRun(states, steps, ttl) && k < |states|
    ensures Inv(states[k])
  {
    if k > 0 {
      SingleFlight(states, steps, ttl, k - 1);
      StepKeepsInv(states[k - 1], steps[k - 1], ttl);
    }
  }

  /** No load ends by closing a channel that does not exist or is closed already, and each end closes exactly one. */
  lemma ClosesOncePerLoad(states: seq<System>, steps: seq<Step>, ttl: int, k: nat)
    requires IsRun(states, steps, ttl) && k < |steps| && steps[k].Finish?
    ensures var c, c' := states[k].cache, states[k + 1].cache;
            c.wait.Some? && c.wait.value !in c.closed && c'.closed == c.closed + {c.wait.value} && c'.wait.None?
  {
    SingleFlight(states, steps, ttl, k);
  }

  /** The instants after which the snapshot counts as new: the end of a load, failed or not, and an installed refresh. */
  predicate Renews(sys: System, s: Step) {
    s.Finish? || (s.Refresh? && s.result.Some? && s.result.value.sound)
  }

  lemma StepMovesForward(sys: System, s: Step, ttl: int)
    requires Inv(sys) && CanStep(sys, s)
    ensures var sys' := Stepped(sys, s, ttl);
            && sys.now <= sys'.now
            && (sys.cache.snapshot.Some? ==> sys'.cache.snapshot.Some? && sys.cache.loadedAt <= sys'.cache.loadedAt)
            && (sys.cache.snapshot.None? && sys'.cache.snapshot.Some? ==> sys'.cache.loadedAt == sys.now)
            && (Renews(sys, s) && sys'.cache.snapshot.Some? ==> sys'.cache.loadedAt == sys.now)
  {
  }

  /** A snapshot is cached that counts as loaded at `t` or later. */
  predicate Warm(sys: System, t: Time) {
    sys.cache.snapshot.Some? && t <= sys.cache.loadedAt
  }

  lemma StepKeepsWarm(sys: System, s: Step, ttl: int, t: Time)
    requires Inv(sys) && CanStep(sys, s) && Warm(sys, t)
    ensures Warm(Stepped(sys, s, ttl), t)
  {
    StepMovesForward(sys, s, ttl);
  }

  /** Once a snapshot is there it stays, and the instant it counts as loaded at never moves back. */
  lemma {:induction false} WarmStaysWarm(states: seq<System>, steps: seq<Step>, ttl: int, i: nat, j: nat, t: Time)
    requires IsRun(states, steps, ttl) && i <= j < |states| && Warm(states[i], t)
    ensures Warm(states[j], t)
    decreases j
  {
    if i < j {
      WarmStaysWarm(states, steps, ttl, i, j - 1, t);
      SingleFlight(states, steps, ttl, j - 1);
      StepKeepsWarm(states[j - 1], steps[j - 1], ttl, t);
    }
  }

  /** The instant `t` is past, and no cached snapshot counts as loaded before it. */
  predicate NotLoadedBefore(sys: System, t: Time) {
    t <= sys.now && (sys.cache.snapshot.Some? ==> t <= sys.cache.loadedAt)
  }

  lemma StepKeepsLoadedAfter(sys: System, s: Step, ttl: int, t: Time)
    requires Inv(sys) && CanStep(sys, s)
    requires NotLoadedBefore(sys, t) || (Renews(sys, s) && t == sys.now)
    ensures NotLoadedBefore(Stepped(sys, s, ttl), t)
  {
    StepMovesForward(sys, s, ttl);
  }

  lemma {:induction false} LoadedAfterRenewal(states: seq<System>, steps: seq<Step>, ttl: int, i: nat, j: nat)
    requires IsRun(states, steps, ttl) && i < j < |states| && Renews(states[i], steps[i])
    ensures NotLoadedBefore(states[j], states[i].now)
    decreases j
  {
    if i + 1 < j {
      LoadedAfterRenewal(states, steps, ttl, i, j - 1);
    }
    SingleFlight(states, steps, ttl, j - 1);
    StepKeepsLoadedAfter(states[j - 1], steps[j - 1], ttl, states[i].now);
  }

  /**
   No reload storm.  A load that starts while a snapshot is cached starts at least
   the cache lifetime after every earlier load ended, whether that one succeeded
   or failed, and after every installed refresh.
   */
  lemma WarmLoadsAreSpaced(states: seq<System>, steps: seq<Step>, ttl: int, i: nat, j: nat)
    requires IsRun(states, steps, ttl) && i < j < |steps|
    requires Renews(states[i], steps[i])
    requires Starts(states[j].cache, ttl, steps[j]) && states[j].cache.snapshot.Some?
    ensures states[j].now >= states[i].now + ttl
  {
    LoadedAfterRenewal(states, steps, ttl, i, j);
  }

  lemma RenewalLoads(sys: System, s: Step, ttl: int)
    requires Renews(sys, s) && Stepped(sys, s, ttl).cache.snapshot.Some?
    ensures Stepped(sys, s, ttl).cache.loadedAt == sys.now
  {
  }

  lemma OnlyRenewalsLoad(sys: System, s: Step, ttl: int)
    requires CanStep(sys, s) && !Renews(sys, s)
    ensures var c, c' := sys.cache, Stepped(sys, s, ttl).cache; c'.snapshot == c.snapshot && c'.loadedAt == c.loadedAt
  {
  }

  /** A cached snapshot counts as loaded at the instant of the last renewal. */
  lemma {:induction false} LoadedAtLastRenewal(states: seq<System>, steps: seq<Step>, ttl: int, k: nat) returns (i: nat)
    requires IsRun(states, steps, ttl) && k < |states| && states[k].cache.snapshot.Some?
    ensures i < k && Renews(states[i], steps[i])
    ensures forall m :: i < m < k ==> !Renews(states[m], steps[m])
    ensures states[k].cache.loadedAt == states[i].now
  {
    i := k - 1;
    if Renews(states[i], steps[i]) {
      RenewalLoads(states[i], steps[i], ttl);
    } else {
      OnlyRenewalsLoad(states[i], steps[i], ttl);
      i := LoadedAtLastRenewal(states, steps, ttl, k - 1);
    }
  }

  /**
   A request starts a load exactly if none is in flight and there is no snapshot, or
   the cache lifetime has passed since the last renewal when the request reads its
   clock.
   */
  lemma RequestStartsLoadExactlyWhen(states: seq<System>, steps: seq<Step>, ttl: int, k: nat) returns (i: nat)
    requires IsRun(states, steps, ttl) && k < |steps| && steps[k].Arrive?
    ensures states[k].cache.snapshot.Some? ==>
              i < k && Renews(states[i], steps[i]) && forall m :: i < m < k ==> !Renews(states[m], steps[m])
    ensures states[k + 1].loads == states[k].loads + 1 <==>
            states[k].loads == 0 && (states[k].cache.snapshot.Some? ==> i < k && steps[k].read >= states[i].now + ttl)
    ensures states[k + 1].loads == states[k].loads || states[k + 1].loads == states[k].loads + 1
  {
    SingleFlight(states, steps, ttl, k);
    i := 0;
    if states[k].cache.snapshot.Some? {
      i := LoadedAtLastRenewal(states, steps, ttl, k);
    }
  }

  /** Two loads never overlap: between the starts of two loads the first one ended. */
  lemma {:induction false} LoadsNeverOverlap(states: seq<System>, steps: seq<Step>, ttl: int, i: nat, j: nat) returns (k: nat)
    requires IsRun(states, steps, ttl) && i < j < |steps|
    requires Starts(states[i].cache, ttl, steps[i]) && Starts(states[j].cache, ttl, steps[j])
    ensures i < k < j && steps[k].Finish?
  {
    k := i + 1;
    while k < j && !steps[k].Finish?
      invariant i < k <= j
      invariant states[k].cache.loading
    {
      k := k + 1;
    }
  }

  /**
   A run in which the end of a slow load replaces the snapshot of a refresh by an
   older one: the generation instant of the cached snapshot is not monotone.
   */
  lemma ReloadMayOverwriteNewer() returns (states: seq<System>, steps: seq<Step>)
    ensures IsRun(states, steps, 1) && |states| == 5
    ensures states[3].cache.snapshot == Some(Snapshot(7, true)) && states[4].cache.snapshot == Some(Snapshot(3, true))
  {
    steps := [Arrive(0), Tick(7), Refresh(Some(Snapshot(7, true))), Finish(Some(Snapshot(3, true)))];
    var s0 := System(Cold, 0, 0, multiset{});
    var s1 := Stepped(s0, steps[0], 1);
    var s2 := Stepped(s1, steps[1], 1);
    var s3 := Stepped(s2, steps[2], 1);
    states := [s0, s1, s2, s3, Stepped(s3, steps[3], 1)];
  }

  /** The snapshot that a step brings along, if it passes validation. */
  function Delivered(s: Step): Option<Snapshot> {
    match s
    case Finish(loaded) => if loaded.Some? && loaded.value.sound then loaded else None
    case Refresh(result) => if result.Some? && result.value.sound then result else None
    case _ => None
  }

  /** The exact condition: along any run the generation instant falls in the steps that deliver an older snapshot, and in no other. */
  lemma GenerationFallsExactlyWhen(states: seq<System>, steps: seq<Step>, ttl: int, k: nat)
    requires IsRun(states, steps, ttl) && k < |steps| && states[k].cache.snapshot.Some?
    ensures states[k + 1].cache.snapshot.Some?
    ensures var before, after := states[k].cache.snapshot.value, states[k + 1].cache.snapshot.value;
            && (after == if Delivered(steps[k]).Some? then Delivered(steps[k]).value else before)
            && (after.generatedAt < before.generatedAt <==>
                  Delivered(steps[k]).Some? && Delivered(steps[k]).value.generatedAt < before.generatedAt)
  {
    SingleFlight(states, steps, ttl, k);
    StepMovesForward(states[k], steps[k], ttl);
  }

  // ----- the service

  class UIStatsService {
    const ttl: int
    var snapshot: Option<Snapshot>
    var loadedAt: Time
    var loading: bool
    var wait: Option<nat>
    var made: nat
    var closed: set<nat>

    function View(): Cache
      reads this
    {
      Cache(snapshot, loadedAt, loading, wait, made, closed)
    }

    constructor (cacheTTL: int)
      ensures View() == Cold && ttl > 0 && (cacheTTL > 0 ==> ttl == cacheTTL)
    {
      ttl := if cacheTTL <= 0 then 60_000_000_000 else cacheTTL;
      snapshot, loadedAt, loading, wait, made, closed := None, 0, false, None, 0, {};
    }

    /** The critical section of a request that read its clock at `read`. */
    method Current(read: Time) returns (move: Move)
      requires loading ==> wait.Some?
      modifies this
      ensures View() == Arrived(old(View()), ttl, read)
      ensures move.Load? || move.ServeAndLoad? <==> Starts(old(View()), ttl, Arrive(read))
      ensures move.Await? <==> Blocks(old(View()), ttl, Arrive(read))
      ensures move.Await? ==> old(wait) == Some(move.channel)
      ensures move.Serve? ==> old(snapshot) == Some(move.snapshot) && (move.stale <==> !Hit(old(View()), ttl, read))
      ensures move.ServeAndLoad? ==> old(snapshot) == Some(move.snapshot)
      ensures old(snapshot).Some? ==> move.Serve? || move.ServeAndLoad?
    {
      if snapshot.Some? && read - loadedAt < ttl {
        return Serve(snapshot.value, false);
      }
      if loading {
        if snapshot.Some? {
          return Serve(snapshot.value, true);
        }
        return Await(wait.value);
      }
      loading, wait, made := true, Some(made), made + 1;
      return if snapshot.Some? then ServeAndLoad(snapshot.value) else Load;
    }

    method FinishReload(loaded: Option<Snapshot>, now: Time) returns (current: Option<Snapshot>)
      requires wait.Some?
      modifies this
      ensures View() == Finished(old(View()), loaded, now)
      ensures current == snapshot
    {
      var failed := loaded.None? || !loaded.value.sound;
      if !failed {
        snapshot := loaded;
      }
      if !failed || snapshot.Some? {
        loadedAt := now;
      }
      loading := false;
      closed := closed + {wait.value};
      wait := None;
      return snapshot;
    }

    /** The end of a refresh; `result` is None when it failed or was skipped. */
    method RefreshDone(result: Option<Snapshot>, now: Time) returns (installed: bool)
      modifies this
      ensures View() == Refreshed(old(View()), result, now)
      ensures installed <==> result.Some? && result.value.sound
    {
      if result.None? || !result.value.sound {
        return false;
      }
      snapshot, loadedAt := result, now;
      return true;
    }
  }
}
