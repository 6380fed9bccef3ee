/**
 Admission to the three scan queues: the largest-remainder reservation of
 executor slots and the smooth weighted round robin of small workers.
 */
module Admission {
  predicate ValidWeights(w: seq<int>) {
    |w| == 3 && w[0] > 0 && w[1] > 0 && w[2] > 0
  }

  function Sum(a: seq<int>): int
    requires |a| == 3
  {
    a[0] + a[1] + a[2]
  }

  // ----- reservations

  /** The whole slots of queue `i` beyond its first, and the remainder in hundredths. */
  function Share(remaining: int, w: seq<int>, i: int): int
    requires |w| == 3 && 0 <= i < 3
  {
    remaining * w[i] / 100
  }

  function Remainders(remaining: int, w: seq<int>): (r: seq<int>)
    requires |w| == 3
    ensures |r| == 3 && forall i :: 0 <= i < 3 ==> 0 <= r[i] < 100
  {
    [remaining * w[0] % 100, remaining * w[1] % 100, remaining * w[2] % 100]
  }

  /** Queue `i` has a stronger claim to a leftover slot than queue `j`. */
  predicate Outranks(r: seq<int>, i: int, j: int)
    requires |r| == 3 && 0 <= i < 3 && 0 <= j < 3
  {
    r[i] > r[j] || (r[i] == r[j] && i < j)
  }

  function Extra(remaining: int, w: seq<int>, t: seq<int>, i: int): int
    requires |w| == 3 && |t| == 3 && 0 <= i < 3
  {
    t[i] - 1 - Share(remaining, w, i)
  }

  /**
   The apportionment by largest remainders: every slot is given out, every queue
   has one slot of its own and its share rounded down or up, and a share is
   rounded up only if no stronger remainder was rounded down.
   */
  ghost predicate Apportions(concurrency: int, w: seq<int>, t: seq<int>)
    requires |w| == 3
  {
    var remaining := concurrency - 3;
    && |t| == 3
    && Sum(t) == concurrency
    && (forall i :: 0 <= i < 3 ==> Extra(remaining, w, t, i) == 0 || Extra(remaining, w, t, i) == 1)
    && (forall i :: 0 <= i < 3 && Extra(remaining, w, t, i) == 1 ==> Remainders(remaining, w)[i] > 0)
    && RoundedInOrder(remaining, w, t)
  }

  ghost predicate RoundedInOrder(remaining: int, w: seq<int>, t: seq<int>)
    requires |w| == 3 && |t| == 3
  {
    forall i, j :: 0 <= i < 3 && 0 <= j < 3 && Extra(remaining, w, t, i) == 1 && Extra(remaining, w, t, j) == 0 ==>
                     Outranks(Remainders(remaining, w), i, j)
  }

  /** The leftover slots are the remainders' hundredths, so there are at most two. */
  lemma LeftoverIsRemainders(remaining: int, w: seq<int>)
    requires ValidWeights(w) && Sum(w) == 100 && remaining >= 0
    ensures 100 * (remaining - Share(remaining, w, 0) - Share(remaining, w, 1) - Share(remaining, w, 2))
            == Remainders(remaining, w)[0] + Remainders(remaining, w)[1] + Remainders(remaining, w)[2]
    ensures 0 <= remaining - Share(remaining, w, 0) - Share(remaining, w, 1) - Share(remaining, w, 2) <= 2
    ensures forall i :: 0 <= i < 3 ==> 0 <= Remainders(remaining, w)[i] < 100 && Share(remaining, w, i) >= 0
  {
    assert remaining * w[0] + remaining * w[1] + remaining * w[2] == remaining * 100;
    assert remaining * w[0] >= 0 && remaining * w[1] >= 0 && remaining * w[2] >= 0;
  }

  /** One pass over the queues: the strongest remainder among those not yet rounded up. */
  method LargestRemainder(remaining: int, rest: seq<int>) returns (best: int)
    requires |rest| == 3
    ensures 0 <= best < 3
    ensures forall j :: 0 <= j < 3 && j != best ==> Outranks(Remainders(remaining, rest), best, j)
  {
    ghost var rs := Remainders(remaining, rest);
    var bestRemainder := -1;
    best := -1;
    for i := 0 to 3
      invariant -1 <= best < i && (i > 0 ==> best >= 0)
      invariant bestRemainder == if best >= 0 then rs[best] else -1
      invariant forall j :: 0 <= j < i ==> rs[j] <= bestRemainder && (j < best ==> rs[j] < bestRemainder)
    {
      var r := remaining * rest[i] % 100;
      assert r == rs[i];
      if r > bestRemainder {
        best, bestRemainder := i, r;
      }
    }
  }

  method ReservationTargets(concurrency: int, weights: seq<int>) returns (targets: seq<int>)
    requires ValidWeights(weights) && Sum(weights) == 100
    ensures concurrency < 3 ==> targets == [0, 0, 0]
    ensures concurrency >= 3 ==> Apportions(concurrency, weights, targets)
  {
    if concurrency < 3 {
      return [0, 0, 0];
    }
    var remaining := concurrency - 3;
    var shared := 0;
    targets := [1, 1, 1];
    for i := 0 to 3
      invariant |targets| == 3
      invariant forall j :: 0 <= j < 3 ==> targets[j] == 1 + if j < i then Share(remaining, weights, j) else 0
      invariant shared == (if i > 0 then Share(remaining, weights, 0) else 0)
                          + (if i > 1 then Share(remaining, weights, 1) else 0)
                          + (if i > 2 then Share(remaining, weights, 2) else 0)
    {
      var share := remaining * weights[i] / 100;
      targets := targets[i := targets[i] + share];
      shared := shared + share;
    }
    LeftoverIsRemainders(remaining, weights);
    var rest := weights;
    var leftover := remaining - shared;
    ghost var total := leftover;
    while leftover > 0
      invariant |targets| == 3 && |rest| == 3 && 0 <= leftover <= total <= 2
      invariant forall i :: 0 <= i < 3 ==> Extra(remaining, weights, targets, i) == 0 || Extra(remaining, weights, targets, i) == 1
      invariant forall i :: 0 <= i < 3 ==> rest[i] == if Extra(remaining, weights, targets, i) == 1 then 0 else weights[i]
      invariant forall i :: 0 <= i < 3 && Extra(remaining, weights, targets, i) == 1 ==> Remainders(remaining, weights)[i] > 0
      invariant Sum(targets) == concurrency - leftover
      invariant RoundedInOrder(remaining, weights, targets)
    {
      ghost var before := targets;
      var best := LargestRemainder(remaining, rest);
      NextWinner(remaining, weights, targets, rest, best, leftover);
      targets := targets[best := targets[best] + 1];
      rest := rest[best := 0];
      leftover := leftover - 1;
      assert forall i :: 0 <= i < 3 && i != best ==> Extra(remaining, weights, targets, i) == Extra(remaining, weights, before, i);
      assert Extra(remaining, weights, targets, best) == Extra(remaining, weights, before, best) + 1;
    }
  }

  /** A leftover slot never goes to a queue that already won one. */
  lemma NextWinner(remaining: int, w: seq<int>, t: seq<int>, rest: seq<int>, best: int, leftover: int)
    requires ValidWeights(w) && Sum(w) == 100 && remaining >= 0 && |t| == 3 && |rest| == 3 && 0 <= best < 3
    requires forall i :: 0 <= i < 3 ==> Extra(remaining, w, t, i) == 0 || Extra(remaining, w, t, i) == 1
    requires forall i :: 0 <= i < 3 ==> rest[i] == if Extra(remaining, w, t, i) == 1 then 0 else w[i]
    requires Sum(t) == remaining + 3 - leftover && leftover > 0
    requires forall j :: 0 <= j < 3 && j != best ==> Outranks(Remainders(remaining, rest), best, j)
    ensures Extra(remaining, w, t, best) == 0 && Remainders(remaining, w)[best] > 0
    ensures forall j :: 0 <= j < 3 && Extra(remaining, w, t, j) == 0 && j != best ==> Outranks(Remainders(remaining, w), best, j)
  {
    LeftoverIsRemainders(remaining, w);
    forall i | 0 <= i < 3
      ensures Remainders(remaining, rest)[i] == if Extra(remaining, w, t, i) == 1 then 0 else Remainders(remaining, w)[i]
    {
      RestRemainder(remaining, w, rest, i, Extra(remaining, w, t, i));
    }
    var r0, r1, r2 := Remainders(remaining, w)[0], Remainders(remaining, w)[1], Remainders(remaining, w)[2];
    var x0, x1, x2 := Extra(remaining, w, t, 0), Extra(remaining, w, t, 1), Extra(remaining, w, t, 2);
    assert 100 * (x0 + x1 + x2 + leftover) == r0 + r1 + r2 by {
      assert x0 + x1 + x2 + leftover == remaining - Share(remaining, w, 0) - Share(remaining, w, 1) - Share(remaining, w, 2);
    }
    SomeRemainderLeft(r0, r1, r2, x0, x1, x2, leftover);
    forall j | 0 <= j < 3 ensures Remainders(remaining, rest)[j] <= Remainders(remaining, rest)[best] {
      assert j != best ==> Outranks(Remainders(remaining, rest), best, j);
    }
    assert Remainders(remaining, rest)[best] > 0;
    forall j | 0 <= j < 3 && Extra(remaining, w, t, j) == 0 && j != best
      ensures Outranks(Remainders(remaining, w), best, j)
    {
      assert Outranks(Remainders(remaining, rest), best, j);
    }
  }

  /** As long as a slot is left over, some queue that has not won yet has a remainder. */
  lemma SomeRemainderLeft(r0: int, r1: int, r2: int, x0: int, x1: int, x2: int, leftover: int)
    requires 0 <= r0 < 100 && 0 <= r1 < 100 && 0 <= r2 < 100 && leftover > 0
    requires x0 in {0, 1} && x1 in {0, 1} && x2 in {0, 1}
    requires 100 * (x0 + x1 + x2 + leftover) == r0 + r1 + r2
    ensures (x0 == 0 && r0 > 0) || (x1 == 0 && r1 > 0) || (x2 == 0 && r2 > 0)
  {
  }

  lemma RestRemainder(remaining: int, w: seq<int>, rest: seq<int>, i: int, extra: int)
    requires |w| == 3 && |rest| == 3 && 0 <= i < 3
    requires rest[i] == if extra == 1 then 0 else w[i]
    ensures Remainders(remaining, rest)[i] == if extra == 1 then 0 else Remainders(remaining, w)[i]
  {
  }

  /** The apportionment is determined by its rules. */
  lemma ApportionmentIsUnique(concurrency: int, w: seq<int>, a: seq<int>, b: seq<int>)
    requires ValidWeights(w) && Apportions(concurrency, w, a) && Apportions(concurrency, w, b)
    ensures a == b
  {
    var remaining := concurrency - 3;
    forall i, j | 0 <= i < 3 && 0 <= j < 3
      ensures a[i] < b[i] ==> a[j] <= b[j]
      ensures b[i] < a[i] ==> b[j] <= a[j]
    {
      RoundedAlike(remaining, w, a, b, i, j);
      RoundedAlike(remaining, w, b, a, i, j);
    }
  }

  lemma RoundedAlike(remaining: int, w: seq<int>, a: seq<int>, b: seq<int>, i: int, j: int)
    requires ValidWeights(w) && Apportions(remaining + 3, w, a) && Apportions(remaining + 3, w, b) && 0 <= i < 3 && 0 <= j < 3
    ensures a[i] < b[i] ==> a[j] <= b[j]
  {
    assert Extra(remaining, w, a, i) in {0, 1} && Extra(remaining, w, b, i) in {0, 1};
    assert Extra(remaining, w, a, j) in {0, 1} && Extra(remaining, w, b, j) in {0, 1};
  }

  /** Every queue keeps at least one slot and stays within one slot of its exact share. */
  lemma ReservationIsFair(concurrency: int, w: seq<int>, t: seq<int>, i: int)
    requires ValidWeights(w) && Sum(w) == 100 && concurrency >= 3 && Apportions(concurrency, w, t) && 0 <= i < 3
    ensures t[i] >= 1
    ensures -100 < 100 * (t[i] - 1) - (concurrency - 3) * w[i] < 100
  {
    LeftoverIsRemainders(concurrency - 3, w);
    assert Extra(concurrency - 3, w, t, i) == 0 || Extra(concurrency - 3, w, t, i) == 1;
  }

  /** A queue that got a leftover slot has the larger remainder, or an equal one and the lower index, than any queue that got none. */
  lemma LeftoversGoToLargest(concurrency: int, w: seq<int>, t: seq<int>, i: int, j: int)
    requires ValidWeights(w) && concurrency >= 3 && Apportions(concurrency, w, t) && 0 <= i < 3 && 0 <= j < 3
    requires t[i] == 2 + (concurrency - 3) * w[i] / 100 && t[j] == 1 + (concurrency - 3) * w[j] / 100
    ensures var a, b := (concurrency - 3) * w[i] % 100, (concurrency - 3) * w[j] % 100; a > b || (a == b && i < j)
  {
    assert Extra(concurrency - 3, w, t, i) == 1 && Extra(concurrency - 3, w, t, j) == 0;
    assert Outranks(Remainders(concurrency - 3, w), i, j);
  }

  // ----- smooth weighted round robin

  /** Credits once every available queue received its weight and the others lost theirs. */
  function Credited(c: seq<int>, available: seq<bool>, w: seq<int>): (e: seq<int>)
    requires |c| == 3 && |available| == 3 && |w| == 3
    ensures |e| == 3
  {
    [if available[0] then c[0] + w[0] else 0,
     if available[1] then c[1] + w[1] else 0,
     if available[2] then c[2] + w[2] else 0]
  }

  function AvailableWeight(available: seq<bool>, w: seq<int>): int
    requires |available| == 3 && |w| == 3
  {
    (if available[0] then w[0] else 0) + (if available[1] then w[1] else 0) + (if available[2] then w[2] else 0)
  }

  /** `b` is the available queue with the most credit, the lowest index among equals. */
  predicate Wins(e: seq<int>, available: seq<bool>, b: int)
    requires |e| == 3 && |available| == 3
  {
    && 0 <= b < 3 && available[b]
    && Yields(e, available, 0, b) && Yields(e, available, 1, b) && Yields(e, available, 2, b)
  }

  /** Queue `j` is `b`, is not available, or has less credit, or as much and comes later. */
  predicate Yields(e: seq<int>, available: seq<bool>, j: int, b: int)
    requires |e| == 3 && |available| == 3 && 0 <= j < 3 && 0 <= b < 3
  {
    j == b || !available[j] || e[j] < e[b] || (e[j] == e[b] && b < j)
  }

  /** The winner of one call, or -1 if no queue is available. */
  function Winner(c: seq<int>, available: seq<bool>, w: seq<int>): (b: int)
    requires |c| == 3 && |available| == 3 && |w| == 3
    ensures -1 <= b < 3
    ensures b == -1 <==> available == [false, false, false]
    ensures b >= 0 ==> Wins(Credited(c, available, w), available, b)
  {
    var e := Credited(c, available, w);
    if Wins(e, available, 0) then 0
    else if Wins(e, available, 1) then 1
    else if Wins(e, available, 2) then 2
    else -1
  }

  function NextCredits(c: seq<int>, available: seq<bool>, w: seq<int>): (r: seq<int>)
    requires |c| == 3 && |available| == 3 && |w| == 3
    ensures |r| == 3
  {
    var e := Credited(c, available, w);
    var b := Winner(c, available, w);
    if b < 0 then e else e[b := e[b] - AvailableWeight(available, w)]
  }

  /**
   One call in plain numbers: it goes to the available queue whose credit plus weight
   is highest, to the first of equals; every available queue is credited its weight,
   the others lose their credit, and the winner pays the weights of the available.
   */
  lemma CallInNumbers(c: seq<int>, available: seq<bool>, w: seq<int>)
    requires |c| == 3 && |available| == 3 && |w| == 3
    ensures var b, r := Winner(c, available, w), NextCredits(c, available, w);
            var total := (if available[0] then w[0] else 0) + (if available[1] then w[1] else 0) + (if available[2] then w[2] else 0);
            && (b < 0 <==> forall j :: 0 <= j < 3 ==> !available[j])
            && (b >= 0 ==> available[b] && forall j :: 0 <= j < 3 && available[j] ==>
                                                         c[j] + w[j] < c[b] + w[b] || (c[j] + w[j] == c[b] + w[b] && b <= j))
            && forall j :: 0 <= j < 3 ==> r[j] == (if available[j] then c[j] + w[j] else 0) - (if j == b then total else 0)
  {
    var b := Winner(c, available, w);
    if b >= 0 {
      var e := Credited(c, available, w);
      assert Yields(e, available, 0, b) && Yields(e, available, 1, b) && Yields(e, available, 2, b);
    }
  }

  class RoundRobin {
    const credits: array<int>
    var borrower: int

    ghost predicate Valid()
      reads this
    {
      credits.Length == 3 && 0 <= borrower < 3
    }

    constructor ()
      ensures Valid() && fresh(credits) && credits[..] == [0, 0, 0] && borrower == 0
    {
      credits := new int[3](_ => 0);
      borrower := 0;
    }

    /** Picks the next queue and settles the credits. */
    method ChooseSmall(available: seq<bool>, weights: seq<int>) returns (queue: int, ok: bool)
      requires Valid() && |available| == 3 && |weights| == 3
      modifies credits
      ensures Valid()
      ensures credits[..] == NextCredits(old(credits[..]), available, weights)
      ensures ok == (Winner(old(credits[..]), available, weights) >= 0)
      ensures queue == if ok then Winner(old(credits[..]), available, weights) else 0
    {
      ghost var c := credits[..];
      ghost var e := Credited(c, available, weights);
      var total, best := 0, -1;
      for i := 0 to 3
        invariant -1 <= best < i
        invariant forall j :: 0 <= j < 3 ==> credits[j] == if j < i then e[j] else c[j]
        invariant total == (if i > 0 && available[0] then weights[0] else 0)
                           + (if i > 1 && available[1] then weights[1] else 0)
                           + (if i > 2 && available[2] then weights[2] else 0)
        invariant best < 0 ==> forall j :: 0 <= j < i ==> !available[j]
        invariant best >= 0 ==> available[best]
        invariant best >= 0 ==> forall j :: 0 <= j < i && available[j] && j != best ==> e[j] < e[best] || (e[j] == e[best] && best < j)
      {
        if !available[i] {
          credits[i] := 0;
        } else {
          total := total + weights[i];
          credits[i] := credits[i] + weights[i];
          if best < 0 || credits[i] > credits[best] {
            best := i;
          }
        }
      }
      assert credits[..] == e;
      if best < 0 {
        assert available == [false, false, false];
        return 0, false;
      }
      assert Wins(e, available, best);
      assert Winner(c, available, weights) == best;
      credits[best] := credits[best] - total;
      return best, true;
    }
  }

  // ----- all queues available: exact shares

  const All := [true, true, true]

  /** Credits after `n` calls with every queue available, from zero. */
  function Credits(w: seq<int>, n: nat): (c: seq<int>)
    requires |w| == 3
    ensures |c| == 3
  {
    if n == 0 then [0, 0, 0] else NextCredits(Credits(w, n - 1), All, w)
  }

  /** The queue that call number `n` picks. */
  function Pick(w: seq<int>, n: nat): int
    requires |w| == 3
  {
    Winner(Credits(w, n), All, w)
  }

  /** How often queue `i` is picked in calls `lo` to `hi - 1`. */
  function Picks(w: seq<int>, i: int, lo: nat, hi: nat): nat
    requires |w| == 3 && lo <= hi
    decreases hi
  {
    if lo == hi then 0 else Picks(w, i, lo, hi - 1) + (if Pick(w, hi - 1) == i then 1 else 0)
  }

  /** Credits sum to zero and stay strictly between minus and plus the total weight. */
  lemma {:induction false} CreditsStayInside(w: seq<int>, n: nat)
    requires ValidWeights(w)
    ensures Sum(Credits(w, n)) == 0
    ensures forall i :: 0 <= i < 3 ==> -Sum(w) < Credits(w, n)[i] < Sum(w)
  {
    if n > 0 {
      CreditsStayInside(w, n - 1);
      OneCallStaysInside(Credits(w, n - 1), w);
    }
  }

  lemma OneCallStaysInside(c: seq<int>, w: seq<int>)
    requires ValidWeights(w) && |c| == 3 && Sum(c) == 0
    requires forall i :: 0 <= i < 3 ==> -Sum(w) < c[i] < Sum(w)
    ensures var r := NextCredits(c, All, w);
            Sum(r) == 0 && forall i :: 0 <= i < 3 ==> -Sum(w) < r[i] < Sum(w)
  {
    var e := Credited(c, All, w);
    var b := Winner(c, All, w);
    assert Wins(e, All, b);
    assert e[0] <= e[b] && e[1] <= e[b] && e[2] <= e[b];
  }

  /** From `start` to `end` credits, `n` calls earned `wi` each and each of the `q` picks cost `W`. */
  predicate Balances(start: int, end: int, n: int, wi: int, W: int, q: int) {
    end - start == n * wi - W * q
  }

  /** Credits are the books of the picks: what was earned minus what was paid. */
  lemma {:induction false} CreditsAreBooks(w: seq<int>, i: int, lo: nat, hi: nat)
    requires ValidWeights(w) && 0 <= i < 3 && lo <= hi
    ensures Balances(Credits(w, lo)[i], Credits(w, hi)[i], hi - lo, w[i], Sum(w), Picks(w, i, lo, hi))
    decreases hi
  {
    if lo != hi {
      CreditsAreBooks(w, i, lo, hi - 1);
      CreditStep(w, i, hi - 1);
      AddCall(Credits(w, lo)[i], Credits(w, hi - 1)[i], Credits(w, hi)[i], hi - 1 - lo, hi - lo, w[i], Sum(w),
              Picks(w, i, lo, hi - 1), Picks(w, i, lo, hi), Pick(w, hi - 1) == i);
    }
  }

  lemma CreditStep(w: seq<int>, i: int, n: nat)
    requires |w| == 3 && 0 <= i < 3
    ensures Credits(w, n + 1)[i] == Credits(w, n)[i] + w[i] - (if Pick(w, n) == i then Sum(w) else 0)
  {
    OneCallBooks(Credits(w, n), w, i);
  }

  lemma AddCall(start: int, before: int, after: int, m: int, n: int, wi: int, W: int, q: int, q': int, picked: bool)
    requires Balances(start, before, m, wi, W, q) && n == m + 1
    requires after == before + wi - (if picked then W else 0) && q' == q + (if picked then 1 else 0)
    ensures Balances(start, after, n, wi, W, q')
  {
    OneMore(m, wi);
    OneMore(q, W);
  }

  lemma OneCallBooks(c: seq<int>, w: seq<int>, i: int)
    requires |c| == 3 && |w| == 3 && 0 <= i < 3
    ensures NextCredits(c, All, w)[i] == c[i] + w[i] - (if Winner(c, All, w) == i then Sum(w) else 0)
  {
  }

  lemma OneMore(n: int, y: int)
    ensures (n + 1) * y == n * y + y && y * (n + 1) == y * n + y
  {
  }

  /** After n calls the picks of a queue differ from n * w_i / W by less than one. */
  lemma SharesWithinOne(w: seq<int>, i: int, n: nat)
    requires ValidWeights(w) && 0 <= i < 3
    ensures -Sum(w) < n * w[i] - Sum(w) * Picks(w, i, 0, n) < Sum(w)
  {
    CreditsAreBooks(w, i, 0, n);
    CreditsStayInside(w, n);
  }

  lemma MultipleInside(W: int, x: int, y: int)
    requires W > 0 && -W < W * x - W * y < W
    ensures x == y
  {
    var d := x - y;
    assert W * x - W * y == W * d;
    assert d >= 1 ==> W * d >= W;
    assert d <= -1 ==> W * d <= -W;
  }

  lemma ExactFromBooks(W: int, share: int, picks: int, before: int, after: int)
    requires W > 0 && before == after && after - before == W * share - W * picks
    ensures picks == share
  {
    MultipleInside(W, share, picks);
  }

  lemma FullCycleReturnsToZero(w: seq<int>)
    requires ValidWeights(w)
    ensures Credits(w, Sum(w)) == [0, 0, 0]
  {
    CreditsStayInside(w, Sum(w));
    FullCyclePays(w, 0);
    FullCyclePays(w, 1);
    FullCyclePays(w, 2);
  }

  lemma FullCyclePays(w: seq<int>, i: int)
    requires ValidWeights(w) && 0 <= i < 3
    ensures Credits(w, Sum(w))[i] == 0
  {
    CreditsStayInside(w, Sum(w));
    CreditsAreBooks(w, i, 0, Sum(w));
    MultipleInside(Sum(w), w[i], Picks(w, i, 0, Sum(w)));
  }

  lemma {:induction false} CreditsRepeat(w: seq<int>, m: nat, n: nat)
    requires |w| == 3 && Credits(w, m) == Credits(w, 0)
    ensures Credits(w, m + n) == Credits(w, n)
  {
    if n > 0 {
      CreditsRepeat(w, m, n - 1);
    }
  }

  lemma CreditsArePeriodic(w: seq<int>, n: nat)
    requires ValidWeights(w)
    ensures Credits(w, Sum(w) + n) == Credits(w, n)
  {
    FullCycleReturnsToZero(w);
    CreditsRepeat(w, Sum(w), n);
  }

  /** Any W consecutive calls, wherever they start, pick queue i exactly w_i times. */
  lemma EveryWindowIsExact(w: seq<int>, i: int, from: nat)
    requires ValidWeights(w) && 0 <= i < 3
    ensures Picks(w, i, from, from + Sum(w)) == w[i]
  {
    CreditsArePeriodic(w, from);
    assert Sum(w) + from == from + Sum(w);
    CreditsAreBooks(w, i, from, from + Sum(w));
    ExactFromBooks(Sum(w), w[i], Picks(w, i, from, from + Sum(w)), Credits(w, from)[i], Credits(w, from + Sum(w))[i]);
  }

  // ----- adversarial availability: bounded credits, no starvation

  /** Credits after a history of calls, each with the availability the caller saw. */
  function CreditsAfter(c: seq<int>, history: seq<seq<bool>>, w: seq<int>): (r: seq<int>)
    requires |c| == 3 && |w| == 3 && forall k :: 0 <= k < |history| ==> |history[k]| == 3
    ensures |r| == 3
  {
    if history == [] then c
    else NextCredits(CreditsAfter(c, history[..|history| - 1], w), history[|history| - 1], w)
  }

  /** Upper bounds on every sum of credits of one, two or three queues; W is the total weight. */
  predicate Below(x: int, y: int, z: int, W: int) {
    && 2 * x <= 3 * W && 2 * y <= 3 * W && 2 * z <= 3 * W
    && x + y <= 2 * W && x + z <= 2 * W && y + z <= 2 * W
    && x + y + z <= 2 * W
  }

  /** Lower bounds on the same sums. */
  predicate Above(x: int, y: int, z: int, W: int) {
    && -2 * W <= x && -2 * W <= y && -2 * W <= z
    && -3 * W <= x + y && -3 * W <= x + z && -3 * W <= y + z
    && -3 * W <= x + y + z
  }

  predicate Bounded(c: seq<int>, W: int) {
    |c| == 3 && Below(c[0], c[1], c[2], W) && Above(c[0], c[1], c[2], W)
  }

  /** A call won by the first of the three queues keeps the bounds; `ay` and `az` say which others are available. */
  lemma CallStaysBelow(x: int, y: int, z: int, wx: int, wy: int, wz: int, ay: bool, az: bool)
    requires 0 < wx && 0 < wy && 0 < wz && Below(x, y, z, wx + wy + wz)
    requires (ay ==> x + wx >= y + wy) && (az ==> x + wx >= z + wz)
    ensures Below(x - (if ay then wy else 0) - (if az then wz else 0),
                  if ay then y + wy else 0, if az then z + wz else 0, wx + wy + wz)
  {
  }

  lemma CallStaysAbove(x: int, y: int, z: int, wx: int, wy: int, wz: int, ay: bool, az: bool)
    requires 0 < wx && 0 < wy && 0 < wz && Above(x, y, z, wx + wy + wz)
    requires (ay ==> x + wx >= y + wy) && (az ==> x + wx >= z + wz)
    ensures Above(x - (if ay then wy else 0) - (if az then wz else 0),
                  if ay then y + wy else 0, if az then z + wz else 0, wx + wy + wz)
  {
  }

  /** Whatever becomes available or unavailable, one call keeps the bounds. */
  lemma OneCallKeepsBounds(c: seq<int>, available: seq<bool>, w: seq<int>)
    requires ValidWeights(w) && |available| == 3 && Bounded(c, Sum(w))
    ensures Bounded(NextCredits(c, available, w), Sum(w))
  {
    var r := NextCredits(c, available, w);
    var b := Winner(c, available, w);
    if b == 0 {
      CallEffect(c, available, w, 0, 1, 2);
      EffectStaysBounded(c, w, available[1], available[2], 0, 1, 2, r);
    } else if b == 1 {
      CallEffect(c, available, w, 1, 0, 2);
      EffectStaysBounded(c, w, available[0], available[2], 1, 0, 2, r);
    } else if b == 2 {
      CallEffect(c, available, w, 2, 0, 1);
      EffectStaysBounded(c, w, available[0], available[1], 2, 0, 1, r);
    }
  }

  /** The queues `b`, `i` and `j` are the three queues. */
  predicate Distinct(b: int, i: int, j: int) {
    (b == 0 && i == 1 && j == 2) || (b == 1 && i == 0 && j == 2) || (b == 2 && i == 0 && j == 1)
  }

  /** `r` is what becomes of credits `c` when `b` wins; `ai` and `aj` tell whether the others are available. */
  predicate Effect(c: seq<int>, w: seq<int>, ai: bool, aj: bool, b: int, i: int, j: int, r: seq<int>)
    requires |c| == 3 && |w| == 3 && |r| == 3 && Distinct(b, i, j)
  {
    && r[b] == c[b] - (if ai then w[i] else 0) - (if aj then w[j] else 0)
    && r[i] == (if ai then c[i] + w[i] else 0)
    && r[j] == (if aj then c[j] + w[j] else 0)
    && (ai ==> c[b] + w[b] >= c[i] + w[i])
    && (aj ==> c[b] + w[b] >= c[j] + w[j])
  }

  lemma CallEffect(c: seq<int>, available: seq<bool>, w: seq<int>, b: int, i: int, j: int)
    requires |c| == 3 && |w| == 3 && |available| == 3 && Distinct(b, i, j)
    requires Winner(c, available, w) == b
    ensures Effect(c, w, available[i], available[j], b, i, j, NextCredits(c, available, w))
  {
    assert Wins(Credited(c, available, w), available, b);
  }

  lemma EffectStaysBounded(c: seq<int>, w: seq<int>, ai: bool, aj: bool, b: int, i: int, j: int, r: seq<int>)
    requires ValidWeights(w) && |r| == 3 && Bounded(c, Sum(w)) && Distinct(b, i, j)
    requires Effect(c, w, ai, aj, b, i, j, r)
    ensures Bounded(r, Sum(w))
  {
    EffectStaysBelow(c, w, ai, aj, b, i, j, r);
    EffectStaysAbove(c, w, ai, aj, b, i, j, r);
  }

  lemma EffectStaysBelow(c: seq<int>, w: seq<int>, ai: bool, aj: bool, b: int, i: int, j: int, r: seq<int>)
    requires ValidWeights(w) && |c| == 3 && |r| == 3 && Distinct(b, i, j)
    requires Below(c[0], c[1], c[2], Sum(w)) && Effect(c, w, ai, aj, b, i, j, r)
    ensures Below(r[0], r[1], r[2], Sum(w))
  {
    BelowPermutes(c, b, i, j, Sum(w));
    assert Sum(w) == w[b] + w[i] + w[j];
    CallStaysBelow(c[b], c[i], c[j], w[b], w[i], w[j], ai, aj);
    BelowPermutes(r, b, i, j, Sum(w));
  }

  lemma BelowPermutes(c: seq<int>, b: int, i: int, j: int, W: int)
    requires |c| == 3 && Distinct(b, i, j)
    ensures Below(c[b], c[i], c[j], W) <==> Below(c[0], c[1], c[2], W)
  {
  }

  lemma EffectStaysAbove(c: seq<int>, w: seq<int>, ai: bool, aj: bool, b: int, i: int, j: int, r: seq<int>)
    requires ValidWeights(w) && |c| == 3 && |r| == 3 && Distinct(b, i, j)
    requires Above(c[0], c[1], c[2], Sum(w)) && Effect(c, w, ai, aj, b, i, j, r)
    ensures Above(r[0], r[1], r[2], Sum(w))
  {
    AbovePermutes(c, b, i, j, Sum(w));
    assert Sum(w) == w[b] + w[i] + w[j];
    CallStaysAbove(c[b], c[i], c[j], w[b], w[i], w[j], ai, aj);
    AbovePermutes(r, b, i, j, Sum(w));
  }

  lemma AbovePermutes(c: seq<int>, b: int, i: int, j: int, W: int)
    requires |c| == 3 && Distinct(b, i, j)
    ensures Above(c[b], c[i], c[j], W) <==> Above(c[0], c[1], c[2], W)
  {
  }

  lemma {:induction false} CreditsStayBounded(history: seq<seq<bool>>, w: seq<int>)
    requires ValidWeights(w) && forall k :: 0 <= k < |history| ==> |history[k]| == 3
    ensures Bounded(CreditsAfter([0, 0, 0], history, w), Sum(w))
  {
    if history != [] {
      CreditsStayBounded(history[..|history| - 1], w);
      OneCallKeepsBounds(CreditsAfter([0, 0, 0], history[..|history| - 1], w), history[|history| - 1], w);
    }
  }

  /** The queue picked by call `k` of a history. */
  function PickIn(c: seq<int>, history: seq<seq<bool>>, w: seq<int>, k: nat): int
    requires |c| == 3 && |w| == 3 && k < |history| && forall k :: 0 <= k < |history| ==> |history[k]| == 3
  {
    Winner(CreditsAfter(c, history[..k], w), history[k], w)
  }

  lemma PassedOver(c: seq<int>, available: seq<bool>, w: seq<int>, i: int)
    requires |c| == 3 && |available| == 3 && |w| == 3 && 0 <= i < 3
    requires available[i] && Winner(c, available, w) != i
    ensures NextCredits(c, available, w)[i] == c[i] + w[i]
  {
  }

  /** A queue that is available but never picked only earns. */
  lemma {:induction false} PassedOverEarns(c: seq<int>, calls: seq<seq<bool>>, w: seq<int>, i: int)
    requires ValidWeights(w) && Bounded(c, Sum(w)) && 0 <= i < 3
    requires forall k :: 0 <= k < |calls| ==> |calls[k]| == 3 && calls[k][i]
    requires forall k :: 0 <= k < |calls| ==> PickIn(c, calls, w, k) != i
    ensures CreditsAfter(c, calls, w)[i] == c[i] + |calls| * w[i]
    ensures Bounded(CreditsAfter(c, calls, w), Sum(w))
  {
    if calls != [] {
      var n := |calls| - 1;
      var before := calls[..n];
      forall k | 0 <= k < n ensures PickIn(c, before, w, k) != i {
        assert before[..k] == calls[..k];
        assert PickIn(c, calls, w, k) != i;
      }
      PassedOverEarns(c, before, w, i);
      assert PickIn(c, calls, w, n) != i;
      OneCallKeepsBounds(CreditsAfter(c, before, w), calls[n], w);
      PassedOver(CreditsAfter(c, before, w), calls[n], w, i);
      OneMore(n, w[i]);
    }
  }

  /**
   No starvation.  After any history of availability, a queue that is available
   on each of n further calls is picked by one of them as soon as
   2 * n * w_i > 7 * W, whatever the other two queues do.
   */
  lemma NeverStarves(history: seq<seq<bool>>, calls: seq<seq<bool>>, w: seq<int>, i: int)
    requires ValidWeights(w) && 0 <= i < 3
    requires forall k :: 0 <= k < |history| ==> |history[k]| == 3
    requires forall k :: 0 <= k < |calls| ==> |calls[k]| == 3 && calls[k][i]
    requires 2 * (|calls| * w[i]) > 7 * Sum(w)
    ensures exists k :: 0 <= k < |calls| && PickIn(CreditsAfter([0, 0, 0], history, w), calls, w, k) == i
  {
    var c := CreditsAfter([0, 0, 0], history, w);
    CreditsStayBounded(history, w);
    if forall k :: 0 <= k < |calls| ==> PickIn(c, calls, w, k) != i {
      PassedOverEarns(c, calls, w, i);
    }
  }
}
