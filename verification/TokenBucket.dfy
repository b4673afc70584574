/** Token buckets as values: lazy refill, the greedy rule, and what that rule is worth.

    Tokens and rates are `real`; the original uses float64, and rounding is not modelled. */
module TokenBuckets {

  datatype Bucket = Bucket(tokens: real, last: real, capacity: int, rate: real)

  function Min(a: real, b: real): real {
    if a < b then a else b
  }

  /** Tokens earned between two instants. */
  function Earned(rate: real, from: real, to: real): real {
    (to - from) * rate
  }

  lemma EarnedIs(rate: real, s: real, t: real)
    ensures Earned(rate, s, t) == rate * (t - s)
  {
  }

  lemma EarnedSplit(rate: real, t: real, u: real, v: real)
    ensures Earned(rate, t, u) + Earned(rate, u, v) == Earned(rate, t, v)
  {
    assert (u - t) * rate + (v - u) * rate == (v - t) * rate;
  }

  lemma EarnedGrows(rate: real, t: real, u: real)
    requires 0.0 <= rate && t <= u
    ensures 0.0 <= Earned(rate, t, u)
  {
  }

  lemma EarnedMonotone(rate: real, t: real, u: real, v: real)
    requires 0.0 <= rate && u <= v
    ensures Earned(rate, t, u) <= Earned(rate, t, v)
  {
    EarnedSplit(rate, t, u, v);
    EarnedGrows(rate, u, v);
  }

  /** Credits the time elapsed since the last use, never beyond the capacity. */
  function Refill(b: Bucket, now: real): Bucket {
    b.(last := now, tokens := Min(b.capacity as real, b.tokens + Earned(b.rate, b.last, now)))
  }

  /** One arrival: refill, then spend a token if there is a whole one. */
  function Offer(b: Bucket, now: real): (Bucket, bool) {
    var r := Refill(b, now);
    if r.tokens < 1.0 then (r, false) else (r.(tokens := r.tokens - 1.0), true)
  }

  function Full(capacity: int, rate: real, now: real): Bucket {
    Bucket(capacity as real, now, capacity, rate)
  }

  ghost predicate Sound(b: Bucket) {
    0.0 <= b.tokens <= b.capacity as real && 0.0 <= b.rate
  }

  /** A bucket's tokens and `rate` more for every second since its last use. */
  ghost function Grown(b: Bucket, now: real): real {
    b.tokens + b.rate * (now - b.last)
  }

  /** What a bucket left alone holds at `now`: never more than the capacity. */
  ghost function Holds(b: Bucket, now: real): real {
    if Grown(b, now) <= b.capacity as real then Grown(b, now) else b.capacity as real
  }

  lemma GrownIs(b: Bucket, now: real)
    ensures Grown(b, now) == b.tokens + b.rate * (now - b.last) == b.tokens + Earned(b.rate, b.last, now)
  {
    EarnedIs(b.rate, b.last, now);
  }

  lemma HoldsWhole(b: Bucket, now: real)
    ensures Holds(b, now) >= 1.0 <==> 1 <= b.capacity && Grown(b, now) >= 1.0
  {
    hide Grown;
  }

  /** The bucket after an arrival, which is served exactly when the bucket holds a whole token by then. */
  lemma OfferMeans(b: Bucket, now: real)
    ensures Offer(b, now).1 <==> Holds(b, now) >= 1.0
    ensures Refill(b, now) == Bucket(Holds(b, now), now, b.capacity, b.rate)
    ensures Offer(b, now).0 ==
              Bucket(if Holds(b, now) >= 1.0 then Holds(b, now) - 1.0 else Holds(b, now), now, b.capacity, b.rate)
  {
    GrownIs(b, now);
    hide Grown, Earned;
  }

  /** An arrival is served exactly when the bucket can hold a token and has one saved or earned since its last use. */
  lemma ServedIff(b: Bucket, now: real)
    ensures Offer(b, now).1 <==> 1 <= b.capacity && b.tokens + b.rate * (now - b.last) >= 1.0
  {
    hide *;
    OfferMeans(b, now);
    HoldsWhole(b, now);
    GrownIs(b, now);
  }

  /** A non-decreasing clock that does not start before `start`. */
  ghost predicate Ordered(start: real, times: seq<real>) {
    && (forall i :: 0 <= i < |times| ==> start <= times[i])
    && (forall i, j :: 0 <= i <= j < |times| ==> times[i] <= times[j])
  }

  // ---------- Lazy refill is continuous refill ----------

  function RefillThrough(b: Bucket, times: seq<real>): Bucket
    decreases |times|
  {
    if times == [] then b else RefillThrough(Refill(b, times[0]), times[1..])
  }

  lemma RefillSplit(b: Bucket, t: real, u: real)
    requires 0.0 <= b.rate && t <= u
    ensures Refill(Refill(b, t), u) == Refill(b, u)
  {
    EarnedSplit(b.rate, b.last, t, u);
    EarnedGrows(b.rate, t, u);
  }

  lemma {:induction false} LazyRefillIsContinuous(b: Bucket, times: seq<real>, u: real)
    requires 0.0 <= b.rate
    requires Ordered(b.last, times) && forall i :: 0 <= i < |times| ==> times[i] <= u
    ensures Refill(RefillThrough(b, times), u) == Refill(b, u)
    decreases |times|
  {
    if times != [] {
      LazyRefillIsContinuous(Refill(b, times[0]), times[1..], u);
      RefillSplit(b, times[0], u);
    }
  }

  lemma FullStaysFull(capacity: int, rate: real, t: real, u: real)
    requires 0.0 <= rate && t <= u
    ensures Refill(Full(capacity, rate, t), u) == Full(capacity, rate, u)
  {
    EarnedGrows(rate, t, u);
  }

  lemma OfferKeepsSound(b: Bucket, now: real)
    requires Sound(b) && b.last <= now
    ensures Sound(Refill(b, now)) && Sound(Offer(b, now).0)
    ensures Offer(b, now).0.capacity == b.capacity && Offer(b, now).0.rate == b.rate
    ensures Offer(b, now).0.last == now
  {
    EarnedGrows(b.rate, b.last, now);
  }

  // ---------- A bucket fed a whole sequence of arrivals ----------

  /** The answers the greedy rule gives. */
  function Serve(b: Bucket, times: seq<real>): (picks: seq<bool>)
    ensures |picks| == |times|
    decreases |times|
  {
    if times == [] then []
    else var (b', ok) := Offer(b, times[0]); [ok] + Serve(b', times[1..])
  }

  /** Tokens at arrival n, before it is decided, when the earlier arrivals were decided as `picks` says. */
  function Before(b: Bucket, times: seq<real>, picks: seq<bool>, n: nat): real
    requires n < |times| == |picks|
  {
    if n == 0 then Refill(b, times[0]).tokens
    else Min(b.capacity as real,
             Before(b, times, picks, n - 1) - (if picks[n - 1] then 1.0 else 0.0)
             + Earned(b.rate, times[n - 1], times[n]))
  }

  function Count(picks: seq<bool>, i: nat, j: nat): nat
    requires j <= |picks|
  {
    if j <= i then 0 else Count(picks, i, j - 1) + if picks[j - 1] then 1 else 0
  }

  /** Any other way of choosing which arrivals to serve, as long as every one it serves is paid for. */
  ghost predicate Fundable(b: Bucket, times: seq<real>, picks: seq<bool>) {
    && |picks| == |times|
    && forall n :: 0 <= n < |times| && picks[n] ==> Before(b, times, picks, n) >= 1.0
  }

  /** The service contract with no mention of tokens: in every window, at most
      `capacity + rate * length` arrivals are served. */
  ghost predicate Conforms(capacity: int, rate: real, times: seq<real>, picks: seq<bool>) {
    && |picks| == |times|
    && forall i, j :: 0 <= i <= j < |times| ==>
         Count(picks, i, j + 1) as real <= capacity as real + rate * (times[j] - times[i])
  }

  ghost predicate WithinEarned(capacity: int, rate: real, times: seq<real>, picks: seq<bool>) {
    && |picks| == |times|
    && forall i, j :: 0 <= i <= j < |times| ==>
         Count(picks, i, j + 1) as real <= capacity as real + Earned(rate, times[i], times[j])
  }

  lemma ConformsIsWithinEarned(capacity: int, rate: real, times: seq<real>, picks: seq<bool>)
    ensures Conforms(capacity, rate, times, picks) <==> WithinEarned(capacity, rate, times, picks)
  {
    forall s, t ensures Earned(rate, s, t) == rate * (t - s) { EarnedIs(rate, s, t); }
    hide Earned, Count;
  }

  lemma {:induction false} BeforeBound(b: Bucket, times: seq<real>, picks: seq<bool>, i: nat, n: nat)
    requires i <= n < |times| == |picks|
    ensures Before(b, times, picks, n)
         <= b.capacity as real + Earned(b.rate, times[i], times[n]) - Count(picks, i, n) as real
  {
    if i < n {
      BeforeBound(b, times, picks, i, n - 1);
      EarnedSplit(b.rate, times[i], times[n - 1], times[n]);
    }
  }

  lemma {:induction false} BeforeTight(b: Bucket, times: seq<real>, picks: seq<bool>, n: nat) returns (i: nat)
    requires n < |times| == |picks|
    requires Refill(b, times[0]).tokens == b.capacity as real
    ensures i <= n
    ensures Before(b, times, picks, n)
         == b.capacity as real + Earned(b.rate, times[i], times[n]) - Count(picks, i, n) as real
  {
    if n == 0 {
      i := 0;
    } else {
      var left := Before(b, times, picks, n - 1) - (if picks[n - 1] then 1.0 else 0.0);
      if b.capacity as real < left + Earned(b.rate, times[n - 1], times[n]) {
        i := n;
      } else {
        i := BeforeTight(b, times, picks, n - 1);
        EarnedSplit(b.rate, times[i], times[n - 1], times[n]);
      }
    }
  }

  lemma FundableIffWithinEarned(b: Bucket, times: seq<real>, picks: seq<bool>)
    requires Sound(b) && b.tokens == b.capacity as real && Ordered(b.last, times)
    requires |picks| == |times|
    ensures Fundable(b, times, picks) <==> WithinEarned(b.capacity, b.rate, times, picks)
  {
    if times != [] {
      EarnedGrows(b.rate, b.last, times[0]);
      if Fundable(b, times, picks) {
        forall i, j | 0 <= i <= j < |times|
          ensures Count(picks, i, j + 1) as real <= b.capacity as real + Earned(b.rate, times[i], times[j])
        {
          FundableWindow(b, times, picks, i, j);
        }
      }
      if WithinEarned(b.capacity, b.rate, times, picks) {
        forall n | 0 <= n < |times| && picks[n]
          ensures Before(b, times, picks, n) >= 1.0
        {
          var i := BeforeTight(b, times, picks, n);
          assert Count(picks, i, n + 1) == Count(picks, i, n) + 1;
        }
      }
    }
  }

  /** A bucket that starts full can pay for a choice exactly when the choice meets the window contract. */
  lemma FundableIffConforms(b: Bucket, times: seq<real>, picks: seq<bool>)
    requires Sound(b) && b.tokens == b.capacity as real && Ordered(b.last, times)
    requires |picks| == |times|
    ensures Fundable(b, times, picks) <==> Conforms(b.capacity, b.rate, times, picks)
  {
    hide Conforms, WithinEarned, Fundable, Sound, Ordered;
    FundableIffWithinEarned(b, times, picks);
    ConformsIsWithinEarned(b.capacity, b.rate, times, picks);
  }

  lemma {:induction false} FundableWindow(b: Bucket, times: seq<real>, picks: seq<bool>, i: nat, j: nat)
    requires Sound(b) && Ordered(b.last, times) && Fundable(b, times, picks)
    requires i <= j < |times|
    ensures Count(picks, i, j + 1) as real <= b.capacity as real + Earned(b.rate, times[i], times[j])
  {
    if picks[j] {
      BeforeBound(b, times, picks, i, j);
    } else if i == j {
      EarnedGrows(b.rate, times[i], times[j]);
    } else {
      FundableWindow(b, times, picks, i, j - 1);
      EarnedMonotone(b.rate, times[i], times[j - 1], times[j]);
      assert Count(picks, i, j + 1) == Count(picks, i, j);
    }
  }

  // ---------- The greedy rule ----------

  ghost predicate IsGreedy(b: Bucket, times: seq<real>, picks: seq<bool>) {
    && |picks| == |times|
    && forall n :: 0 <= n < |times| ==> (picks[n] <==> Before(b, times, picks, n) >= 1.0)
  }

  lemma {:induction false} BeforeShift(b: Bucket, times: seq<real>, picks: seq<bool>, n: nat)
    requires n + 1 < |times| == |picks|
    requires picks[0] == Offer(b, times[0]).1
    ensures Before(b, times, picks, n + 1) == Before(Offer(b, times[0]).0, times[1..], picks[1..], n)
  {
    if n != 0 {
      BeforeShift(b, times, picks, n - 1);
    } else {
      assert Before(b, times, picks, 0) == Refill(b, times[0]).tokens;
    }
  }

  lemma {:induction false} ServeIsGreedy(b: Bucket, times: seq<real>)
    ensures IsGreedy(b, times, Serve(b, times))
    decreases |times|
  {
    if times != [] {
      var (b', ok) := Offer(b, times[0]);
      var picks := Serve(b, times);
      ServeIsGreedy(b', times[1..]);
      assert picks[1..] == Serve(b', times[1..]);
      forall n | 0 <= n < |times|
        ensures picks[n] <==> Before(b, times, picks, n) >= 1.0
      {
        if n != 0 {
          BeforeShift(b, times, picks, n - 1);
          assert picks[1..][n - 1] == picks[n];
        }
      }
    }
  }

  /** The potential: whatever another payer has saved up, the greedy rule has already spent on admissions. */
  lemma {:induction false} GreedyLead(b: Bucket, times: seq<real>, greedy: seq<bool>, other: seq<bool>, n: nat)
    requires n < |times| && IsGreedy(b, times, greedy) && Fundable(b, times, other)
    ensures Count(greedy, 0, n) >= Count(other, 0, n)
    ensures Before(b, times, other, n)
         <= Before(b, times, greedy, n) + (Count(greedy, 0, n) - Count(other, 0, n)) as real
  {
    if n != 0 {
      GreedyLead(b, times, greedy, other, n - 1);
    }
  }

  lemma GreedyBeatsFundable(b: Bucket, times: seq<real>, other: seq<bool>, n: nat)
    requires Fundable(b, times, other) && n <= |times|
    ensures Count(Serve(b, times), 0, n) >= Count(other, 0, n)
  {
    ServeIsGreedy(b, times);
    if n != 0 {
      GreedyLead(b, times, Serve(b, times), other, n - 1);
    }
  }

  /** From a full bucket, the greedy answers meet the window contract, and at every instant they have
      admitted at least as much as any schedule that meets it. */
  lemma {:induction false} GreedyIsOptimal(b: Bucket, times: seq<real>)
    requires Sound(b) && b.tokens == b.capacity as real && Ordered(b.last, times)
    ensures Conforms(b.capacity, b.rate, times, Serve(b, times))
    ensures forall other, n | Conforms(b.capacity, b.rate, times, other) && 0 <= n <= |times| ::
              Count(Serve(b, times), 0, n) >= Count(other, 0, n)
  {
    ServeIsGreedy(b, times);
    FundableIffConforms(b, times, Serve(b, times));
    forall other, n | Conforms(b.capacity, b.rate, times, other) && 0 <= n <= |times|
      ensures Count(Serve(b, times), 0, n) >= Count(other, 0, n)
    {
      FundableIffConforms(b, times, other);
      GreedyBeatsFundable(b, times, other, n);
    }
  }

  // ---------- Time windows ----------

  /** How many of the arrivals with times in [s, t] were served. */
  function CountIn(times: seq<real>, picks: seq<bool>, s: real, t: real): nat
    requires |picks| == |times|
  {
    if times == [] then 0
    else (if picks[0] && s <= times[0] <= t then 1 else 0) + CountIn(times[1..], picks[1..], s, t)
  }

  lemma {:induction false} NothingAfter(times: seq<real>, picks: seq<bool>, s: real, t: real)
    requires |picks| == |times| && forall i :: 0 <= i < |times| ==> t < times[i]
    ensures CountIn(times, picks, s, t) == 0
  {
    if times != [] { NothingAfter(times[1..], picks[1..], s, t); }
  }

  /** From any sound bucket, a window [s, t] sees at most capacity + rate * (t - s) served arrivals. */
  lemma WindowBound(b: Bucket, times: seq<real>, s: real, t: real)
    requires Sound(b) && Ordered(b.last, times) && s <= t
    ensures CountIn(times, Serve(b, times), s, t) as real <= b.capacity as real + b.rate * (t - s)
  {
    hide Earned;
    WindowEarned(b, times, s, t);
    EarnedIs(b.rate, s, t);
  }

  lemma {:induction false} WindowEarned(b: Bucket, times: seq<real>, s: real, t: real)
    requires Sound(b) && Ordered(b.last, times) && s <= t
    ensures CountIn(times, Serve(b, times), s, t) as real <= b.capacity as real + Earned(b.rate, s, t)
    ensures s <= b.last <= t ==>
              CountIn(times, Serve(b, times), s, t) as real <= b.tokens + Earned(b.rate, b.last, t)
    decreases |times|
  {
    EarnedGrows(b.rate, s, t);
    if s <= b.last <= t { EarnedGrows(b.rate, b.last, t); }
    if times != [] {
      var now := times[0];
      var (b', ok) := Offer(b, now);
      OfferKeepsSound(b, now);
      assert Serve(b, times)[1..] == Serve(b', times[1..]);
      WindowEarned(b', times[1..], s, t);
      if t < now {
        NothingAfter(times, Serve(b, times), s, t);
      } else if s <= now {
        EarnedSplit(b.rate, s, now, t);
        EarnedGrows(b.rate, s, now);
        EarnedSplit(b.rate, b.last, now, t);
      }
    }
  }
}
