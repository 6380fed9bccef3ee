/**
 The retry and dead-letter protocol of one event type: a main, a failed and a
 dead queue, deliveries that are out for processing, consumers and the
 failed-queue worker.  A publish can be refused, or be accepted without its
 confirmation arriving; a connection can drop before an acknowledgement.
 Instants are milliseconds.
 */
module RetryQueue {
  import opened Scheduling

  // ----- the backoff ladder

  const BASE_SEC := 5
  const MAX_SEC := 3600

  function RetryBackoffSec(attempts: int): int {
    var shift := if attempts - 1 < 0 then 0 else attempts - 1;
    if shift > 10 then MAX_SEC
    else
      var backoff := BASE_SEC * Pow2(shift);
      if backoff > MAX_SEC then MAX_SEC else backoff
  }

  /** The ladder doubles from five seconds and saturates at an hour, for every number of attempts. */
  lemma BackoffIsLadder(attempts: int)
    ensures RetryBackoffSec(attempts) == Min(5 * Pow2(if attempts < 1 then 0 else attempts - 1), 3600)
    ensures 5 <= RetryBackoffSec(attempts) <= 3600
    ensures RetryBackoffSec(attempts) <= RetryBackoffSec(attempts + 1)
  {
    var shift := if attempts < 1 then 0 else attempts - 1;
    assert Pow2(10) == 1024;
    if shift >= 10 {
      Pow2Monotone(10, shift);
    }
    Pow2Monotone(shift, shift + 1);
  }

  // ----- messages

  /**
   One copy of a message.  `attempts` and `notBefore` are its headers, `expires`
   the end of its time to live in the failed queue.  The last three are history:
   when the failure that queued it happened, and how many handler failures and
   failed-worker republishes lie behind it.
   */
  datatype Copy = Copy(id: nat, attempts: nat, notBefore: int, expires: int, since: int, fails: nat, hops: nat)

  datatype Origin = FromMain | FromFailed
  datatype Delivery = Delivery(copy: Copy, origin: Origin)

  /** What became of a publish: confirmed; accepted but not confirmed; not accepted. */
  datatype Outcome = Confirmed | Unconfirmed | Refused

  /**
   `held` are the unacknowledged deliveries, `lost` those whose connection dropped:
   the broker returned them to their queue, while their consumer may still be at work.
   */
  datatype Broker = Broker(
    main: multiset<Copy>, failed: multiset<Copy>, dead: multiset<Copy>, held: multiset<Delivery>, lost: set<Delivery>,
    published: set<nat>, done: set<nat>, now: int)

  datatype Step =
    | Submit(id: nat, outcome: Outcome)
    | Deliver(d: Delivery)
    | Succeed(d: Delivery, link: bool)
    | Fail(d: Delivery, poison: bool, outcome: Outcome, lag: nat, link: bool)
    | Retry(d: Delivery, known: bool, outcome: Outcome, link: bool)
    | Return(d: Delivery, link: bool)
    | Expire(copy: Copy)
    | Disconnect(d: Delivery)
    | Wait(until: int)

  // ----- pieces of steps

  function Requeued(b: Broker, d: Delivery): Broker {
    var out := b.(held := b.held - multiset{d});
    if d.origin.FromMain? then out.(main := out.main + multiset{d.copy}) else out.(failed := out.failed + multiset{d.copy})
  }

  /** Acknowledges a delivery that was replaced and returns one that was not; without a connection nothing reaches the broker. */
  function Settled(b: Broker, d: Delivery, replaced: bool, link: bool): Broker {
    if !link then b
    else if replaced then b.(held := b.held - multiset{d})
    else Requeued(b, d)
  }

  /** The copy that a failed handler leaves behind. */
  function AfterFailure(c: Copy, poison: bool, now: int, lag: nat): Copy {
    var attempts := c.attempts + 1;
    var next := c.(attempts := attempts, fails := c.fails + 1, since := now);
    if poison then next
    else
      var wait := 1000 * RetryBackoffSec(attempts);
      next.(notBefore := now + wait, expires := now + lag + wait)
  }

  /** The copy that the failed-queue worker publishes. */
  function AfterRetry(c: Copy): Copy {
    c.(attempts := c.attempts + 1, hops := c.hops + 1)
  }

  predicate Parks(c: Copy, known: bool, maxAttempts: nat) {
    !known || c.attempts + 1 >= maxAttempts
  }

  function Enqueue(q: multiset<Copy>, c: Copy, outcome: Outcome): multiset<Copy> {
    if outcome.Refused? then q else q + multiset{c}
  }

  // ----- steps

  /** A consumer can settle what it holds; with its connection gone it can still act, but not settle. */
  predicate InHands(b: Broker, d: Delivery, link: bool) {
    d in b.held || (!link && d in b.lost)
  }

  ghost predicate CanStep(b: Broker, s: Step, maxAttempts: nat) {
    match s
    case Submit(_, _) => true
    case Deliver(d) => d.copy in (if d.origin.FromMain? then b.main else b.failed)
    case Succeed(d, link) => InHands(b, d, link)
    case Fail(d, _, _, _, link) => InHands(b, d, link)
    case Retry(d, known, _, link) => InHands(b, d, link) && d.origin.FromFailed? && (Parks(d.copy, known, maxAttempts) || d.copy.notBefore <= b.now)
    case Return(d, link) => InHands(b, d, link)
    case Expire(c) => c in b.failed && c.expires <= b.now
    case Disconnect(d) => d in b.held
    case Wait(until) => b.now <= until
  }

  /** The broker after the replacement of a failed delivery was published, before the delivery is settled. */
  function Sent(b: Broker, s: Step, maxAttempts: nat): Broker
    requires s.Fail? || s.Retry?
  {
    match s
    case Fail(d, poison, outcome, lag, _) =>
      var c := AfterFailure(d.copy, poison, b.now, lag);
      if poison then b.(dead := Enqueue(b.dead, c, outcome)) else b.(failed := Enqueue(b.failed, c, outcome))
    case Retry(d, known, outcome, _) =>
      var c := AfterRetry(d.copy);
      if Parks(d.copy, known, maxAttempts) then b.(dead := Enqueue(b.dead, c.(hops := d.copy.hops), outcome))
      else b.(main := Enqueue(b.main, c, outcome))
  }

  function Stepped(b: Broker, s: Step, maxAttempts: nat): Broker {
    match s
    case Submit(id, outcome) =>
      b.(main := Enqueue(b.main, Copy(id, 0, b.now, b.now, b.now, 0, 0), outcome),
      published := if outcome.Confirmed? then b.published + {id} else b.published)
    case Deliver(d) =>
      if d.origin.FromMain? then b.(main := b.main - multiset{d.copy}, held := b.held + multiset{d})
      else b.(failed := b.failed - multiset{d.copy}, held := b.held + multiset{d})
    case Succeed(d, link) => Settled(b.(done := b.done + {d.copy.id}), d, true, link)
    case Fail(d, _, outcome, _, link) => Settled(Sent(b, s, maxAttempts), d, outcome.Confirmed?, link)
    case Retry(d, _, outcome, link) => Settled(Sent(b, s, maxAttempts), d, outcome.Confirmed?, link)
    case Return(d, link) => Settled(b, d, false, link)
    case Expire(c) => b.(failed := b.failed - multiset{c}, main := b.main + multiset{c})
    case Disconnect(d) => Requeued(b, d).(lost := b.lost + {d})
    case Wait(until) => b.(now := until)
  }

  const Start := Broker(multiset{}, multiset{}, multiset{}, multiset{}, {}, {}, {}, 0)

  ghost predicate IsRun(states: seq<Broker>, steps: seq<Step>, maxAttempts: nat) {
    && |states| == |steps| + 1
    && states[0] == Start
    && forall k :: 0 <= k < |steps| ==> CanStep(states[k], steps[k], maxAttempts) && states[k + 1] == Stepped(states[k], steps[k], maxAttempts)
  }

  // ----- no message is lost

  ghost predicate HasCopy(b: Broker, id: nat) {
    || (exists c :: c in b.main && c.id == id)
    || (exists c :: c in b.failed && c.id == id)
    || (exists c :: c in b.dead && c.id == id)
    || (exists d :: d in b.held && d.copy.id == id)
  }

  // What one step can take out of a queue and where it then is, and what it can put in.

  /** Acknowledging or returning a delivery takes no copy out of a queue and puts back at most the delivery's own. */
  lemma SettledFlow(b: Broker, d: Delivery, replaced: bool, link: bool, c: Copy)
    ensures var r := Settled(b, d, replaced, link);
            && (c in r.main <==> c in b.main || (link && !replaced && d == Delivery(c, FromMain)))
            && (c in r.failed <==> c in b.failed || (link && !replaced && d == Delivery(c, FromFailed)))
            && r.dead == b.dead && r.now == b.now
  {
  }

  lemma SentFlow(b: Broker, s: Step, maxAttempts: nat, c: Copy)
    requires s.Fail? || s.Retry?
    ensures var r := Sent(b, s, maxAttempts);
            && (c in b.main ==> c in r.main) && (c in b.failed ==> c in r.failed) && b.dead <= r.dead
            && (c in r.main && c !in b.main ==> s.Retry? && c == AfterRetry(s.d.copy) && !Parks(s.d.copy, s.known, maxAttempts))
            && (c in r.failed && c !in b.failed ==> s.Fail? && !s.poison && c == AfterFailure(s.d.copy, false, b.now, s.lag))
            && (c in r.dead && c !in b.dead ==> c.hops == s.d.copy.hops)
            && r.held == b.held
  {
  }

  lemma ReplaceFlow(b: Broker, s: Step, maxAttempts: nat, c: Copy)
    requires s.Fail? || s.Retry?
    ensures var r := Stepped(b, s, maxAttempts);
            && (c in b.main ==> c in r.main) && (c in b.failed ==> c in r.failed) && b.dead <= r.dead
            && (c in r.main && c !in b.main ==>
                  || (s.Retry? && c == AfterRetry(s.d.copy) && !Parks(s.d.copy, s.known, maxAttempts))
                  || s.d == Delivery(c, FromMain))
            && (c in r.failed && c !in b.failed ==>
                  || (s.Fail? && !s.poison && c == AfterFailure(s.d.copy, false, b.now, s.lag))
                  || s.d == Delivery(c, FromFailed))
            && (c in r.dead && c !in b.dead ==> c.hops == s.d.copy.hops)
  {
    SentFlow(b, s, maxAttempts, c);
    SettledFlow(Sent(b, s, maxAttempts), s.d, s.outcome.Confirmed?, s.link, c);
  }

  lemma HandBackFlow(b: Broker, s: Step, maxAttempts: nat, c: Copy)
    requires CanStep(b, s, maxAttempts) && (s.Succeed? || s.Return? || s.Disconnect?)
    ensures var r := Stepped(b, s, maxAttempts);
            && (c in b.main ==> c in r.main) && (c in b.failed ==> c in r.failed)
            && (c in r.main && c !in b.main ==> s.d == Delivery(c, FromMain) && s.d in b.held)
            && (c in r.failed && c !in b.failed ==> s.d == Delivery(c, FromFailed) && s.d in b.held)
            && r.dead == b.dead
  {
    match s
    case Succeed(d, link) => SettledFlow(b.(done := b.done + {d.copy.id}), d, true, link, c);
    case Return(d, link) => SettledFlow(b, d, false, link, c);
    case Disconnect(d) => SettledFlow(b, d, false, true, c);
  }

  lemma MainKept(b: Broker, s: Step, maxAttempts: nat, c: Copy)
    requires CanStep(b, s, maxAttempts) && c in b.main
    ensures c in Stepped(b, s, maxAttempts).main || Delivery(c, FromMain) in Stepped(b, s, maxAttempts).held
  {
    if s.Fail? || s.Retry? {
      ReplaceFlow(b, s, maxAttempts, c);
    } else if s.Succeed? || s.Return? || s.Disconnect? {
      HandBackFlow(b, s, maxAttempts, c);
    }
  }

  lemma FailedKept(b: Broker, s: Step, maxAttempts: nat, c: Copy)
    requires CanStep(b, s, maxAttempts) && c in b.failed
    ensures var b' := Stepped(b, s, maxAttempts);
            c in b'.failed || c in b'.main || Delivery(c, FromFailed) in b'.held
  {
    if s.Fail? || s.Retry? {
      ReplaceFlow(b, s, maxAttempts, c);
    } else if s.Succeed? || s.Return? || s.Disconnect? {
      HandBackFlow(b, s, maxAttempts, c);
    }
  }

  lemma DeadGrows(b: Broker, s: Step, maxAttempts: nat)
    ensures b.dead <= Stepped(b, s, maxAttempts).dead
  {
    if s.Fail? || s.Retry? {
      ReplaceFlow(b, s, maxAttempts, s.d.copy);
    }
  }

  lemma DeadCountGrows(b: Broker, s: Step, maxAttempts: nat, c: Copy)
    ensures b.dead[c] <= Stepped(b, s, maxAttempts).dead[c]
  {
    DeadGrows(b, s, maxAttempts);
  }

  lemma NewInMain(b: Broker, s: Step, maxAttempts: nat, c: Copy)
    requires CanStep(b, s, maxAttempts) && c in Stepped(b, s, maxAttempts).main && c !in b.main
    ensures || (s.Submit? && c == Copy(s.id, 0, b.now, b.now, b.now, 0, 0))
            || (s.Retry? && c == AfterRetry(s.d.copy) && !Parks(s.d.copy, s.known, maxAttempts))
            || s == Expire(c)
            || Delivery(c, FromMain) in b.held
  {
    if s.Fail? || s.Retry? {
      ReplaceFlow(b, s, maxAttempts, c);
    } else if s.Succeed? || s.Return? || s.Disconnect? {
      HandBackFlow(b, s, maxAttempts, c);
    }
  }

  lemma NewInFailed(b: Broker, s: Step, maxAttempts: nat, c: Copy)
    requires CanStep(b, s, maxAttempts) && c in Stepped(b, s, maxAttempts).failed && c !in b.failed
    ensures || (s.Fail? && !s.poison && c == AfterFailure(s.d.copy, false, b.now, s.lag))
            || Delivery(c, FromFailed) in b.held
  {
    if s.Fail? || s.Retry? {
      ReplaceFlow(b, s, maxAttempts, c);
    } else if s.Succeed? || s.Return? || s.Disconnect? {
      HandBackFlow(b, s, maxAttempts, c);
    }
  }

  lemma NewInDead(b: Broker, s: Step, maxAttempts: nat, c: Copy)
    requires CanStep(b, s, maxAttempts) && c in Stepped(b, s, maxAttempts).dead && c !in b.dead
    ensures (s.Fail? || s.Retry?) && (s.d in b.held || s.d in b.lost) && c.hops == s.d.copy.hops
  {
    if s.Fail? || s.Retry? {
      ReplaceFlow(b, s, maxAttempts, c);
    }
  }

  lemma NewInHands(b: Broker, s: Step, maxAttempts: nat, d: Delivery)
    requires CanStep(b, s, maxAttempts) && (d in Stepped(b, s, maxAttempts).held || d in Stepped(b, s, maxAttempts).lost) && d !in b.held && d !in b.lost
    ensures s == Deliver(d)
  {
  }

  lemma CopySurvives(b: Broker, s: Step, maxAttempts: nat, id: nat)
    requires CanStep(b, s, maxAttempts) && HasCopy(b, id)
    ensures HasCopy(Stepped(b, s, maxAttempts), id) || id in Stepped(b, s, maxAttempts).done
  {
    if c :| c in b.main && c.id == id {
      MainKept(b, s, maxAttempts, c);
    } else if c :| c in b.failed && c.id == id {
      FailedKept(b, s, maxAttempts, c);
    } else if c :| c in b.dead && c.id == id {
      DeadGrows(b, s, maxAttempts);
      assert c in Stepped(b, s, maxAttempts).dead;
    } else {
      var d :| d in b.held && d.copy.id == id;
      HeldSurvives(b, s, maxAttempts, d);
    }
  }

  lemma FailedSurvives(b: Broker, s: Step, maxAttempts: nat)
    requires CanStep(b, s, maxAttempts) && s.Fail? && s.link
    ensures HasCopy(Stepped(b, s, maxAttempts), s.d.copy.id)
  {
    var b' := Stepped(b, s, maxAttempts);
    var c := AfterFailure(s.d.copy, s.poison, b.now, s.lag);
    if s.outcome.Confirmed? {
      assert c in (if s.poison then b'.dead else b'.failed);
    } else {
      assert s.d.copy in (if s.d.origin.FromMain? then b'.main else b'.failed);
    }
  }

  lemma RetriedSurvives(b: Broker, s: Step, maxAttempts: nat)
    requires CanStep(b, s, maxAttempts) && s.Retry? && s.link
    ensures HasCopy(Stepped(b, s, maxAttempts), s.d.copy.id)
  {
    var b' := Stepped(b, s, maxAttempts);
    var c := AfterRetry(s.d.copy);
    if !s.outcome.Confirmed? {
      assert s.d.copy in b'.failed;
    } else if Parks(s.d.copy, s.known, maxAttempts) {
      assert c.(hops := s.d.copy.hops) in b'.dead;
    } else {
      assert c in b'.main;
    }
  }

  lemma ReturnedSurvives(b: Broker, d: Delivery)
    ensures HasCopy(Requeued(b, d), d.copy.id)
  {
    assert d.copy in (if d.origin.FromMain? then Requeued(b, d).main else Requeued(b, d).failed);
  }

  /** A delivery that leaves the consumer's hands was done, or left a copy of its message behind. */
  lemma HeldSurvives(b: Broker, s: Step, maxAttempts: nat, d: Delivery)
    requires CanStep(b, s, maxAttempts) && d in b.held
    ensures HasCopy(Stepped(b, s, maxAttempts), d.copy.id) || d.copy.id in Stepped(b, s, maxAttempts).done
  {
    var b' := Stepped(b, s, maxAttempts);
    if d !in b'.held {
      match s
      case Fail(_, _, _, _, _) => FailedSurvives(b, s, maxAttempts);
      case Retry(_, _, _, _) => RetriedSurvives(b, s, maxAttempts);
      case Return(_, _) => ReturnedSurvives(b, d);
      case Disconnect(_) => ReturnedSurvives(b, d);
      case _ =>
    }
  }

  lemma NewlyPublished(b: Broker, s: Step, maxAttempts: nat, id: nat)
    requires id in Stepped(b, s, maxAttempts).published && id !in b.published
    ensures HasCopy(Stepped(b, s, maxAttempts), id)
  {
    assert Copy(id, 0, b.now, b.now, b.now, 0, 0) in Stepped(b, s, maxAttempts).main;
  }

  lemma DoneStaysDone(b: Broker, s: Step, maxAttempts: nat)
    ensures b.done <= Stepped(b, s, maxAttempts).done
  {
  }

  /**
   No message loss.  In every state of every run, a message whose publish
   succeeded was handled successfully or still has a copy in the main, failed or
   dead queue or in a consumer's hands.
   */
  lemma {:induction false} NoMessageIsLost(states: seq<Broker>, steps: seq<Step>, maxAttempts: nat, k: nat, id: nat)
    requires IsRun(states, steps, maxAttempts) && k < |states| && id in states[k].published
    ensures id in states[k].done || HasCopy(states[k], id)
  {
    if k > 0 {
      var b, s := states[k - 1], steps[k - 1];
      if id in b.published {
        NoMessageIsLost(states, steps, maxAttempts, k - 1, id);
        DoneStaysDone(b, s, maxAttempts);
        if HasCopy(b, id) {
          CopySurvives(b, s, maxAttempts, id);
        }
      } else {
        NewlyPublished(b, s, maxAttempts, id);
      }
    }
  }

  /** Nothing leaves the dead queue, in any run. */
  lemma DeadStaysDead(states: seq<Broker>, steps: seq<Step>, maxAttempts: nat, i: nat, j: nat, c: Copy)
    requires IsRun(states, steps, maxAttempts) && i <= j < |states|
    ensures states[i].dead[c] <= states[j].dead[c]
  {
    var counts := seq(|states|, k requires 0 <= k < |states| => states[k].dead[c]);
    forall k, m | 0 <= k && m == k + 1 < |counts| ensures counts[k] <= counts[m] {
      DeadCountGrows(states[k], steps[k], maxAttempts, c);
    }
    Ascends(counts, i, j);
  }

  lemma {:induction false} Ascends(counts: seq<nat>, i: nat, j: nat)
    requires forall k, m :: 0 <= k && m == k + 1 < |counts| ==> counts[k] <= counts[m]
    requires i <= j < |counts|
    ensures counts[i] <= counts[j]
    decreases j
  {
    if i < j {
      Ascends(counts, i, j - 1);
    }
  }

  /** Poison, no handler, an unknown event type or a used-up ladder: retrying is over. */
  predicate Hopeless(s: Step, maxAttempts: nat) {
    (s.Fail? && s.poison) || (s.Retry? && (!s.known || s.d.copy.attempts + 1 >= maxAttempts))
  }

  /**
   A hopeless delivery is never sent round the ladder again: once its publish is
   confirmed the message lies in the dead queue, and until then at most the
   delivery itself goes back to where it came from.
   */
  lemma HopelessParks(b: Broker, s: Step, maxAttempts: nat)
    requires CanStep(b, s, maxAttempts) && Hopeless(s, maxAttempts)
    ensures var b' := Stepped(b, s, maxAttempts);
            && b'.main <= b.main + multiset{s.d.copy} && b'.failed <= b.failed + multiset{s.d.copy}
            && (s.outcome.Confirmed? ==> b'.main == b.main && b'.failed == b.failed && |b'.dead| == |b.dead| + 1
                                         && exists c :: c in b'.dead && c.id == s.d.copy.id && c.attempts == s.d.copy.attempts + 1)
            && (s.outcome.Refused? ==> b'.dead == b.dead)
  {
    var c := if s.Fail? then AfterFailure(s.d.copy, true, b.now, s.lag) else s.d.copy.(attempts := s.d.copy.attempts + 1);
    var b' := Stepped(b, s, maxAttempts);
    if s.outcome.Confirmed? {
      assert c in b'.dead;
    }
  }

  /**
   What a confirmed retry publishes, by the header alone: a known message whose next
   attempt is below the limit goes to the main queue and nowhere else, any other one
   to the dead queue and nowhere else.
   */
  lemma ConfirmedRetry(b: Broker, d: Delivery, known: bool, link: bool, maxAttempts: nat)
    requires d.origin.FromFailed?
    ensures var b' := Stepped(b, Retry(d, known, Confirmed, link), maxAttempts);
            && b'.failed == b.failed
            && if known && d.copy.attempts + 1 < maxAttempts
               then b'.main == b.main + multiset{d.copy.(attempts := d.copy.attempts + 1, hops := d.copy.hops + 1)} && b'.dead == b.dead
               else b'.dead == b.dead + multiset{d.copy.(attempts := d.copy.attempts + 1)} && b'.main == b.main
  {
  }

  /** The worker may publish a retry below the limit from the not-before instant on, and one at the limit at any time. */
  lemma RetryIsAllowedExactlyWhen(b: Broker, d: Delivery, known: bool, outcome: Outcome, link: bool, maxAttempts: nat)
    requires d in b.held && d.origin.FromFailed?
    ensures CanStep(b, Retry(d, known, outcome, link), maxAttempts) <==>
            (known && d.copy.attempts + 1 < maxAttempts ==> d.copy.notBefore <= b.now)
  {
  }

  /** What a confirmed failure publishes: poison to the dead queue, anything else to the failed queue with the wait that its new attempt count earns. */
  lemma ConfirmedFailure(b: Broker, d: Delivery, poison: bool, lag: nat, link: bool, maxAttempts: nat)
    ensures var b' := Stepped(b, Fail(d, poison, Confirmed, lag, link), maxAttempts);
            var wait := 1000 * Min(5 * Pow2(d.copy.attempts), 3600);
            var c := d.copy.(attempts := d.copy.attempts + 1, fails := d.copy.fails + 1, since := b.now);
            && b'.main == b.main
            && if poison then b'.dead == b.dead + multiset{c} && b'.failed == b.failed
               else b'.failed == b.failed + multiset{c.(notBefore := b.now + wait, expires := b.now + lag + wait)} && b'.dead == b.dead
  {
    BackoffIsLadder(d.copy.attempts + 1);
  }

  // ----- the ladder along a message's lineage

  /** The attempt header counts the failures and republishes behind a copy; the latter are the fewer. */
  predicate Counted(c: Copy, maxAttempts: nat) {
    && c.attempts == c.fails + c.hops
    && c.hops <= c.fails
    && (c.hops > 0 ==> 2 * c.hops < maxAttempts)
  }

  /** A copy in the failed queue carries one failure more than republishes, and a wait that the ladder prescribes. */
  predicate Waiting(c: Copy, maxAttempts: nat) {
    && Counted(c, maxAttempts)
    && c.hops < c.fails
    && c.notBefore == c.since + 1000 * RetryBackoffSec(c.attempts) <= c.expires
  }

  ghost predicate LineageInv(b: Broker, maxAttempts: nat) {
    && (forall c :: c in b.main ==> Counted(c, maxAttempts))
    && (forall c :: c in b.failed ==> Waiting(c, maxAttempts))
    && (forall c :: c in b.dead ==> c.hops > 0 ==> 2 * c.hops < maxAttempts)
    && (forall d :: d in b.held || d in b.lost ==> if d.origin.FromMain? then Counted(d.copy, maxAttempts) else Waiting(d.copy, maxAttempts))
  }

  lemma MainStep(b: Broker, s: Step, maxAttempts: nat, c: Copy)
    requires LineageInv(b, maxAttempts) && CanStep(b, s, maxAttempts) && c in Stepped(b, s, maxAttempts).main
    ensures Counted(c, maxAttempts)
  {
    if c !in b.main {
      NewInMain(b, s, maxAttempts, c);
    }
  }

  lemma FailedStep(b: Broker, s: Step, maxAttempts: nat, c: Copy)
    requires LineageInv(b, maxAttempts) && CanStep(b, s, maxAttempts) && c in Stepped(b, s, maxAttempts).failed
    ensures Waiting(c, maxAttempts)
  {
    if c !in b.failed {
      NewInFailed(b, s, maxAttempts, c);
    }
  }

  lemma DeadStep(b: Broker, s: Step, maxAttempts: nat, c: Copy)
    requires LineageInv(b, maxAttempts) && CanStep(b, s, maxAttempts) && c in Stepped(b, s, maxAttempts).dead
    ensures c.hops > 0 ==> 2 * c.hops < maxAttempts
  {
    if c !in b.dead {
      NewInDead(b, s, maxAttempts, c);
    }
  }

  lemma HandsStep(b: Broker, s: Step, maxAttempts: nat, d: Delivery)
    requires LineageInv(b, maxAttempts) && CanStep(b, s, maxAttempts)
    requires d in Stepped(b, s, maxAttempts).held || d in Stepped(b, s, maxAttempts).lost
    ensures if d.origin.FromMain? then Counted(d.copy, maxAttempts) else Waiting(d.copy, maxAttempts)
  {
    if d !in b.held && d !in b.lost {
      NewInHands(b, s, maxAttempts, d);
    }
  }

  lemma LineageStep(b: Broker, s: Step, maxAttempts: nat)
    requires LineageInv(b, maxAttempts) && CanStep(b, s, maxAttempts)
    ensures LineageInv(Stepped(b, s, maxAttempts), maxAttempts)
  {
    var b' := Stepped(b, s, maxAttempts);
    forall c | c in b'.main ensures Counted(c, maxAttempts) {
      MainStep(b, s, maxAttempts, c);
    }
    forall c | c in b'.failed ensures Waiting(c, maxAttempts) {
      FailedStep(b, s, maxAttempts, c);
    }
    forall c | c in b'.dead ensures c.hops > 0 ==> 2 * c.hops < maxAttempts {
      DeadStep(b, s, maxAttempts, c);
    }
    forall d | d in b'.held || d in b'.lost ensures if d.origin.FromMain? then Counted(d.copy, maxAttempts) else Waiting(d.copy, maxAttempts) {
      HandsStep(b, s, maxAttempts, d);
    }
  }

  lemma {:induction false} EveryRunKeepsLineage(states: seq<Broker>, steps: seq<Step>, maxAttempts: nat, k: nat)
    requires IsRun(states, steps, maxAttempts) && k < |states|
    ensures LineageInv(states[k], maxAttempts)
  {
    if k > 0 {
      EveryRunKeepsLineage(states, steps, maxAttempts, k - 1);
      LineageStep(states[k - 1], steps[k - 1], maxAttempts);
    }
  }

  /**
   The failed-queue worker republishes a lineage fewer than maxAttempts / 2 times,
   wherever its copies are: each round also costs a handler failure.
   */
  lemma RepublishesAreBounded(states: seq<Broker>, steps: seq<Step>, maxAttempts: nat, k: nat, c: Copy)
    requires IsRun(states, steps, maxAttempts) && k < |states|
    requires c in states[k].main || c in states[k].failed || c in states[k].dead
    ensures c.hops > 0 ==> 2 * c.hops < maxAttempts
  {
    EveryRunKeepsLineage(states, steps, maxAttempts, k);
  }

  /** The copies that a step adds to the main queue. */
  ghost function Arrivals(b: Broker, s: Step, maxAttempts: nat): multiset<Copy> {
    Stepped(b, s, maxAttempts).main - b.main
  }

  /** What the failed-queue worker adds to the main queue is the next copy of its delivery, and none when it parks. */
  lemma RetryArrivals(b: Broker, s: Step, maxAttempts: nat, c: Copy)
    requires CanStep(b, s, maxAttempts) && s.Retry? && c in Arrivals(b, s, maxAttempts)
    ensures c == AfterRetry(s.d.copy) && s.d.copy.notBefore <= b.now
  {
    assert Stepped(b, s, maxAttempts).main == Sent(b, s, maxAttempts).main;
    assert Sent(b, s, maxAttempts).main[c] > b.main[c];
  }

  lemma ExpiryArrivals(b: Broker, s: Step, maxAttempts: nat, c: Copy)
    requires CanStep(b, s, maxAttempts) && s.Expire? && c in Arrivals(b, s, maxAttempts)
    ensures c == s.copy && c.expires <= b.now
  {
    assert Stepped(b, s, maxAttempts).main[c] > b.main[c];
  }

  /**
   Whatever copy reaches the main queue out of the failed one, by the worker or by
   expiry, does so no earlier than the failure that queued it plus the backoff of
   its attempt count; its attempt count never falls.
   */
  lemma NeverTooEarly(states: seq<Broker>, steps: seq<Step>, maxAttempts: nat, k: nat, c: Copy)
    requires IsRun(states, steps, maxAttempts) && k < |steps| && (steps[k].Expire? || steps[k].Retry?)
    requires c in Arrivals(states[k], steps[k], maxAttempts)
    ensures var source := if steps[k].Expire? then steps[k].copy else steps[k].d.copy;
            && c.id == source.id && c.since == source.since && source.attempts <= c.attempts <= source.attempts + 1
            && states[k].now >= source.since + 1000 * RetryBackoffSec(source.attempts)
  {
    EveryRunKeepsLineage(states, steps, maxAttempts, k);
    if steps[k].Expire? {
      ExpiryArrivals(states[k], steps[k], maxAttempts, c);
    } else {
      RetryArrivals(states[k], steps[k], maxAttempts, c);
    }
  }

  // ----- the code that takes the steps

  datatype HandlerError = PoisonPayload | NoHandler | Transient

  /** A failed delivery's fate: parked as dead, or queued for retry after a backoff in seconds. */
  datatype Fate = Dead | Later(backoffSec: int)

  function FailureDecision(error: HandlerError, attempts: int): Fate {
    if error.PoisonPayload? || error.NoHandler? then Dead else Later(RetryBackoffSec(attempts))
  }

  datatype Target = Main | FailedQueue | DeadQueue

  /** When a worker is told to stop claiming: not in this turn, before it, or while it holds a delivery back. */
  datatype Stop = GoOn | AtOnce | WhileWaiting

  class Queue {
    var main: multiset<Copy>
    var failed: multiset<Copy>
    var dead: multiset<Copy>
    var held: multiset<Delivery>
    var lost: set<Delivery>
    var published: set<nat>
    var done: set<nat>
    var now: int
    const maxAttempts: nat

    function View(): Broker
      reads this
    {
      Broker(main, failed, dead, held, lost, published, done, now)
    }

    constructor (maxAttempts: nat)
      ensures View() == Start && this.maxAttempts == maxAttempts
    {
      main, failed, dead, held := multiset{}, multiset{}, multiset{}, multiset{};
      lost, published, done, now := {}, {}, {}, 0;
      this.maxAttempts := maxAttempts;
    }

    /** A publish that waits for its confirmation. */
    method PublishConfirmed(target: Target, c: Copy, outcome: Outcome) returns (ok: bool)
      modifies this
      ensures ok == outcome.Confirmed?
      ensures View() == match target
                        case Main => old(View()).(main := Enqueue(old(main), c, outcome))
                        case FailedQueue => old(View()).(failed := Enqueue(old(failed), c, outcome))
                        case DeadQueue => old(View()).(dead := Enqueue(old(dead), c, outcome))
    {
      if !outcome.Refused? {
        match target
        case Main => main := main + multiset{c};
        case FailedQueue => failed := failed + multiset{c};
        case DeadQueue => dead := dead + multiset{c};
      }
      ok := outcome.Confirmed?;
    }

    method Ack(d: Delivery, link: bool)
      modifies this
      ensures View() == Settled(old(View()), d, true, link)
    {
      if link {
        held := held - multiset{d};
      }
    }

    method Nack(d: Delivery, link: bool)
      modifies this
      ensures View() == Settled(old(View()), d, false, link)
    {
      if link {
        held := held - multiset{d};
        if d.origin.FromMain? {
          main := main + multiset{d.copy};
        } else {
          failed := failed + multiset{d.copy};
        }
      }
    }

    /** Queues a message for the first time; only a confirmed publish is reported as a success. */
    method Publish(id: nat, outcome: Outcome) returns (ok: bool)
      modifies this
      ensures View() == Stepped(old(View()), Submit(id, outcome), maxAttempts)
      ensures ok ==> id in published
    {
      ok := PublishConfirmed(Main, Copy(id, 0, now, now, now, 0, 0), outcome);
      if ok {
        published := published + {id};
      }
    }

    /** Publishes to a side queue; only a backoff above zero sets a not-before instant and an expiry. */
    method PublishToFailed(target: Target, c: Copy, backoffSec: int, outcome: Outcome, lag: nat) returns (ok: bool)
      requires target != Main
      modifies this
      ensures ok == outcome.Confirmed?
      ensures var sent := if backoffSec > 0 then c.(notBefore := old(now) + 1000 * backoffSec, expires := old(now) + lag + 1000 * backoffSec) else c;
              View() == if target == DeadQueue then old(View()).(dead := Enqueue(old(dead), sent, outcome))
                        else old(View()).(failed := Enqueue(old(failed), sent, outcome))
    {
      var sent := c;
      if backoffSec > 0 {
        sent := sent.(notBefore := now + 1000 * backoffSec);
        sent := sent.(expires := now + lag + 1000 * backoffSec);
      }
      ok := PublishConfirmed(target, sent, outcome);
    }

    /** Publishes what a failed delivery leaves behind: to the dead queue, or to the failed queue under the ladder. */
    method Replace(d: Delivery, error: HandlerError, outcome: Outcome, lag: nat, ghost link: bool) returns (ok: bool)
      modifies this
      ensures ok == outcome.Confirmed?
      ensures View() == Sent(old(View()), Fail(d, !error.Transient?, outcome, lag, link), maxAttempts)
    {
      var attempts := d.copy.attempts + 1;
      var fate := FailureDecision(error, attempts);
      var next := d.copy.(attempts := attempts, fails := d.copy.fails + 1, since := now);
      if fate.Dead? {
        ok := PublishToFailed(DeadQueue, next, 0, outcome, lag);
      } else {
        BackoffIsLadder(attempts);
        ok := PublishToFailed(FailedQueue, next, fate.backoffSec, outcome, lag);
      }
    }

    /** The delivery is acknowledged only once its replacement is confirmed, and is returned otherwise. */
    method HandleFailure(d: Delivery, error: HandlerError, outcome: Outcome, lag: nat, link: bool)
      modifies this
      ensures View() == Stepped(old(View()), Fail(d, !error.Transient?, outcome, lag, link), maxAttempts)
    {
      var ok := Replace(d, error, outcome, lag, link);
      if ok {
        Ack(d, link);
      } else {
        Nack(d, link);
      }
    }

    /**
     One turn of a consumer: a consumer that is stopping returns the delivery
     untouched; otherwise the handler's answer decides between acknowledging and
     the failure path.
     */
    method Consume(d: Delivery, stopping: bool, answer: Option<HandlerError>, outcome: Outcome, lag: nat, link: bool)
      requires InHands(View(), d, link)
      modifies this
      ensures var step := if stopping then Return(d, link)
                          else match answer
                            case None => Succeed(d, link)
                            case Some(error) => Fail(d, !error.Transient?, outcome, lag, link);
              CanStep(old(View()), step, maxAttempts) && View() == Stepped(old(View()), step, maxAttempts)
    {
      if stopping {
        Nack(d, link);
        return;
      }
      match answer
      case None =>
        done := done + {d.copy.id};
        Ack(d, link);
      case Some(error) =>
        HandleFailure(d, error, outcome, lag, link);
    }

    /** Publishes what follows a delivery from the failed queue: to the dead queue when it is hopeless, else to the main queue. */
    method Republish(d: Delivery, known: bool, outcome: Outcome, ghost link: bool) returns (ok: bool)
      modifies this
      ensures ok == outcome.Confirmed?
      ensures View() == Sent(old(View()), Retry(d, known, outcome, link), maxAttempts)
    {
      var attempts := d.copy.attempts + 1;
      if !known || attempts >= maxAttempts {
        ok := PublishToFailed(DeadQueue, d.copy.(attempts := attempts), 0, outcome, 0);
      } else {
        ok := PublishConfirmed(Main, d.copy.(attempts := attempts, hops := d.copy.hops + 1), outcome);
      }
    }

    /** Publishes the successor of a delivery and settles the delivery. */
    method RetryNow(d: Delivery, known: bool, outcome: Outcome, link: bool)
      requires d.origin.FromFailed?
      modifies this
      ensures View() == Stepped(old(View()), Retry(d, known, outcome, link), maxAttempts)
      ensures outcome.Confirmed? ==>
                if known && d.copy.attempts + 1 < maxAttempts
                then main == old(main) + multiset{d.copy.(attempts := d.copy.attempts + 1, hops := d.copy.hops + 1)} && dead == old(dead)
                else dead == old(dead) + multiset{d.copy.(attempts := d.copy.attempts + 1)} && main == old(main)
    {
      ConfirmedRetry(View(), d, known, link, maxAttempts);
      var ok := Republish(d, known, outcome, link);
      if ok {
        Ack(d, link);
      } else {
        Nack(d, link);
      }
    }

    /**
     One turn of the failed-queue worker.  It parks an unknown event type or an
     exhausted message at once, and otherwise holds the delivery until its
     not-before instant, unless it is stopped while waiting.
     */
    method Redeliver(d: Delivery, known: bool, stop: Stop, outcome: Outcome, link: bool)
      requires InHands(View(), d, link) && d.origin.FromFailed?
      modifies this
      ensures var waits := known && d.copy.attempts + 1 < maxAttempts && old(now) < d.copy.notBefore;
              var stopped := stop.AtOnce? || (stop.WhileWaiting? && waits);
              var ready := if waits && !stopped then Stepped(old(View()), Wait(d.copy.notBefore), maxAttempts) else old(View());
              var step := if stopped then Return(d, link) else Retry(d, known, outcome, link);
              && (waits && !stopped ==> CanStep(old(View()), Wait(d.copy.notBefore), maxAttempts))
              && CanStep(ready, step, maxAttempts) && View() == Stepped(ready, step, maxAttempts)
              && (!stopped && outcome.Confirmed? ==>
                    if known && d.copy.attempts + 1 < maxAttempts
                    then main == old(main) + multiset{d.copy.(attempts := d.copy.attempts + 1, hops := d.copy.hops + 1)} && dead == old(dead)
                    else dead == old(dead) + multiset{d.copy.(attempts := d.copy.attempts + 1)} && main == old(main))
    {
      if stop.AtOnce? {
        Nack(d, link);
        return;
      }
      if known && d.copy.attempts + 1 < maxAttempts && now < d.copy.notBefore {
        if stop.WhileWaiting? {
          Nack(d, link);
          return;
        }
        now := d.copy.notBefore;
      }
      RetryNow(d, known, outcome, link);
    }
  }
}
