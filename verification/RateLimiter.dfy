/** The two-level rate limiter: one global bucket in front of lazily created buckets per client address. */
module RateLimits {
  import opened TokenBuckets

  /** Idle time after which a full bucket may be dropped: ten minutes, in seconds. */
  const CLEANUP_EVERY := 600.0

  // ---------- The limiter as a value ----------

  datatype Limiter = Limiter(global: Bucket, ips: map<string, Bucket>, ipRate: real, ipBurst: int)

  /** `Allow` returns only whether the verdict is `Admitted`; the two refusals differ in what they spend. */
  datatype Verdict = GlobalRefusal | IpRefusal | Admitted

  function New(ipRate: real, ipBurst: int, globalRate: real, globalBurst: int, now: real): Limiter {
    Limiter(Full(globalBurst, globalRate, now), map[], ipRate, ipBurst)
  }

  /** The bucket an address has, or would be given at `now`. */
  function BucketOf(l: Limiter, ip: string, now: real): Bucket {
    if ip in l.ips then l.ips[ip] else Full(l.ipBurst, l.ipRate, now)
  }

  function Allow(l: Limiter, ip: string, now: real): (Limiter, Verdict) {
    var (global, passed) := Offer(l.global, now);
    if !passed then (l.(global := global), GlobalRefusal)
    else
      var bucket := if ip in l.ips then Refill(l.ips[ip], now) else Full(l.ipBurst, l.ipRate, now);
      if bucket.tokens < 1.0 then (l.(global := global, ips := l.ips[ip := bucket]), IpRefusal)
      else (l.(global := global, ips := l.ips[ip := bucket.(tokens := bucket.tokens - 1.0)]), Admitted)
  }

  predicate Idle(b: Bucket, now: real) {
    b.tokens == b.capacity as real && now - b.last > CLEANUP_EVERY
  }

  function Sweep(l: Limiter, now: real): Limiter {
    l.(ips := map ip | ip in l.ips && !Idle(l.ips[ip], now) :: l.ips[ip])
  }

  ghost predicate WellFormed(l: Limiter, now: real) {
    && Sound(l.global) && l.global.last <= now
    && 0.0 <= l.ipRate && 0 <= l.ipBurst
    && forall ip <- l.ips ::
         && Sound(l.ips[ip]) && l.ips[ip].last <= now
         && l.ips[ip].capacity == l.ipBurst && l.ips[ip].rate == l.ipRate
  }

  lemma AllowKeepsWellFormed(l: Limiter, ip: string, now: real, at: real)
    requires WellFormed(l, now) && now <= at
    ensures WellFormed(Allow(l, ip, at).0, at)
  {
    OfferKeepsSound(l.global, at);
    if ip in l.ips { OfferKeepsSound(l.ips[ip], at); }
  }

  /** The answer to a request and the limiter after it. It is admitted exactly when the global bucket holds a whole
      token and then the address's own does, a new address starting with its full burst. Each bucket that is
      reached is brought up to now and gives a token if it holds a whole one; all others stay as they are. */
  lemma AllowMeans(l: Limiter, ip: string, now: real)
    ensures var (l', verdict) := Allow(l, ip, now);
            var own := if ip in l.ips then Holds(l.ips[ip], now) else l.ipBurst as real;
            && verdict == (if Holds(l.global, now) < 1.0 then GlobalRefusal else if own < 1.0 then IpRefusal else Admitted)
            && l'.global == l.global.(last := now,
                 tokens := if verdict.GlobalRefusal? then Holds(l.global, now) else Holds(l.global, now) - 1.0)
            && l'.ipRate == l.ipRate && l'.ipBurst == l.ipBurst
            && l'.ips.Keys == (if verdict.GlobalRefusal? then l.ips.Keys else l.ips.Keys + {ip})
            && (forall x <- l.ips :: x != ip || verdict.GlobalRefusal? ==> l'.ips[x] == l.ips[x])
            && (!verdict.GlobalRefusal? ==>
                  var before := if ip in l.ips then l.ips[ip] else Bucket(own, now, l.ipBurst, l.ipRate);
                  l'.ips[ip] == before.(last := now, tokens := if verdict.Admitted? then own - 1.0 else own))
  {
    hide Refill, Holds;
    OfferMeans(l.global, now);
    if ip in l.ips { OfferMeans(l.ips[ip], now); }
  }

  /** A request is admitted exactly when the global bucket and then the address's own can hold a token and have one
      saved or earned since their last use; a new address needs no more than a burst. */
  lemma AdmittedIff(l: Limiter, ip: string, now: real)
    ensures Allow(l, ip, now).1 == Admitted <==>
            && 1 <= l.global.capacity && l.global.tokens + l.global.rate * (now - l.global.last) >= 1.0
            && (if ip !in l.ips then 1 <= l.ipBurst
                else 1 <= l.ips[ip].capacity && l.ips[ip].tokens + l.ips[ip].rate * (now - l.ips[ip].last) >= 1.0)
  {
    hide *;
    AdmittedIffGrown(l, ip, now);
    GrownIs(l.global, now);
    if ip in l.ips { GrownIs(l.ips[ip], now); }
  }

  lemma AdmittedIffGrown(l: Limiter, ip: string, now: real)
    ensures Allow(l, ip, now).1 == Admitted <==>
            && 1 <= l.global.capacity && Grown(l.global, now) >= 1.0
            && (if ip !in l.ips then 1 <= l.ipBurst else 1 <= l.ips[ip].capacity && Grown(l.ips[ip], now) >= 1.0)
  {
    hide Allow, Holds, Grown;
    AllowMeans(l, ip, now);
    HoldsWhole(l.global, now);
    if ip in l.ips { HoldsWhole(l.ips[ip], now); }
  }

  /** A sweep drops exactly the addresses whose bucket is full and unused for more than ten minutes. */
  lemma SweepDropsExactly(l: Limiter, now: real)
    ensures var l' := Sweep(l, now);
            && l'.global == l.global && l'.ipRate == l.ipRate && l'.ipBurst == l.ipBurst
            && (forall ip :: ip in l'.ips <==>
                  ip in l.ips && !(l.ips[ip].tokens == l.ips[ip].capacity as real && now - l.ips[ip].last > 600.0))
            && (forall ip <- l'.ips :: l'.ips[ip] == l.ips[ip])
  {
  }

  // ---------- Runs ----------

  datatype Arrival = Arrival(ip: string, at: real)
  datatype Event = Ask(arrival: Arrival) | Cleanup(at: real)

  function At(e: Event): real {
    match e case Ask(a) => a.at case Cleanup(at) => at
  }

  function Apply(l: Limiter, e: Event): Limiter {
    match e case Ask(a) => Allow(l, a.ip, a.at).0 case Cleanup(at) => Sweep(l, at)
  }

  function After(l: Limiter, events: seq<Event>): Limiter
    decreases |events|
  {
    if events == [] then l else After(Apply(l, events[0]), events[1..])
  }

  /** The verdicts of a run with cleanup sweeps in it, one per arrival. */
  function Verdicts(l: Limiter, events: seq<Event>): seq<Verdict>
    decreases |events|
  {
    if events == [] then []
    else
      (if events[0].Ask? then [Allow(l, events[0].arrival.ip, events[0].arrival.at).1] else [])
      + Verdicts(Apply(l, events[0]), events[1..])
  }

  function Arrivals(events: seq<Event>): seq<Arrival> {
    if events == [] then []
    else (if events[0].Ask? then [events[0].arrival] else []) + Arrivals(events[1..])
  }

  /** The verdicts of a run of arrivals only. */
  function Replies(l: Limiter, arrivals: seq<Arrival>): (vs: seq<Verdict>)
    ensures |vs| == |arrivals|
    decreases |arrivals|
  {
    if arrivals == [] then []
    else
      var (l', v) := Allow(l, arrivals[0].ip, arrivals[0].at);
      [v] + Replies(l', arrivals[1..])
  }

  ghost predicate Timely(now: real, events: seq<Event>)
    decreases |events|
  {
    events != [] ==> now <= At(events[0]) && Timely(At(events[0]), events[1..])
  }

  ghost predicate InOrder(now: real, arrivals: seq<Arrival>)
    decreases |arrivals|
  {
    arrivals != [] ==> now <= arrivals[0].at && InOrder(arrivals[0].at, arrivals[1..])
  }

  lemma {:induction false} TimelyArrivals(now: real, events: seq<Event>)
    requires Timely(now, events)
    ensures InOrder(now, Arrivals(events))
    decreases |events|
  {
    if events != [] {
      TimelyArrivals(At(events[0]), events[1..]);
      var rest := Arrivals(events[1..]);
      if events[0].Ask? {
        assert ([events[0].arrival] + rest)[1..] == rest;
      } else {
        assert [] + rest == rest;
      }
    }
  }

  lemma {:induction false} AfterWellFormed(l: Limiter, now: real, events: seq<Event>) returns (end: real)
    requires WellFormed(l, now) && Timely(now, events)
    ensures now <= end && WellFormed(After(l, events), end)
    decreases |events|
  {
    if events == [] {
      end := now;
    } else {
      if events[0].Ask? { AllowKeepsWellFormed(l, events[0].arrival.ip, now, events[0].arrival.at); }
      end := AfterWellFormed(Apply(l, events[0]), At(events[0]), events[1..]);
    }
  }

  // ---------- Cleanup is unobservable ----------

  /** Two limiters that no later request can tell apart: every address would find the same bucket. */
  ghost predicate Alike(l: Limiter, m: Limiter, now: real) {
    && l.global == m.global && l.ipRate == m.ipRate && l.ipBurst == m.ipBurst
    && forall ip :: Refill(BucketOf(l, ip, now), now) == Refill(BucketOf(m, ip, now), now)
  }

  lemma RefillLater(l: Limiter, ip: string, now: real, at: real)
    requires WellFormed(l, now) && now <= at
    ensures Refill(BucketOf(l, ip, at), at) == Refill(Refill(BucketOf(l, ip, now), now), at)
  {
    if ip in l.ips {
      RefillSplit(l.ips[ip], now, at);
    } else {
      FullStaysFull(l.ipBurst, l.ipRate, now, now);
      FullStaysFull(l.ipBurst, l.ipRate, now, at);
      FullStaysFull(l.ipBurst, l.ipRate, at, at);
    }
  }

  lemma AlikeLater(l: Limiter, m: Limiter, now: real, at: real)
    requires WellFormed(l, now) && WellFormed(m, now) && Alike(l, m, now) && now <= at
    ensures Alike(l, m, at)
  {
    forall x ensures Refill(BucketOf(l, x, at), at) == Refill(BucketOf(m, x, at), at) {
      RefillLater(l, x, now, at);
      RefillLater(m, x, now, at);
    }
  }

  /** A bucket made on demand is a refilled one: `Allow` offers the arrival to the address's bucket. */
  lemma AllowOffers(l: Limiter, ip: string, at: real)
    requires Offer(l.global, at).1
    ensures var (mine, ok) := Offer(BucketOf(l, ip, at), at);
            Allow(l, ip, at) == (l.(global := Offer(l.global, at).0, ips := l.ips[ip := mine]),
                                 if ok then Admitted else IpRefusal)
  {
    if ip !in l.ips { assert Refill(Full(l.ipBurst, l.ipRate, at), at) == Full(l.ipBurst, l.ipRate, at); }
  }

  lemma AllowAlike(l: Limiter, m: Limiter, ip: string, now: real, at: real)
    requires WellFormed(l, now) && WellFormed(m, now) && Alike(l, m, now) && now <= at
    ensures Allow(l, ip, at).1 == Allow(m, ip, at).1
    ensures Alike(Allow(l, ip, at).0, Allow(m, ip, at).0, at)
  {
    AlikeLater(l, m, now, at);
    if Offer(l.global, at).1 {
      AllowOffers(l, ip, at);
      AllowOffers(m, ip, at);
      assert Offer(BucketOf(l, ip, at), at) == Offer(BucketOf(m, ip, at), at);
    }
    var l', m' := Allow(l, ip, at).0, Allow(m, ip, at).0;
    forall x ensures Refill(BucketOf(l', x, at), at) == Refill(BucketOf(m', x, at), at) {
      if x == ip {
      } else {
        assert BucketOf(l', x, at) == BucketOf(l, x, at) && BucketOf(m', x, at) == BucketOf(m, x, at);
      }
    }
  }

  lemma SweepAlike(l: Limiter, m: Limiter, now: real, at: real)
    requires WellFormed(l, now) && WellFormed(m, now) && Alike(l, m, now) && now <= at
    ensures Alike(Sweep(l, at), m, at)
  {
    AlikeLater(l, m, now, at);
    forall x ensures Refill(BucketOf(Sweep(l, at), x, at), at) == Refill(BucketOf(m, x, at), at) {
      if x in l.ips && Idle(l.ips[x], at) {
        EarnedGrows(l.ipRate, l.ips[x].last, at);
      }
    }
  }

  lemma {:induction false} RunAlike(l: Limiter, m: Limiter, now: real, events: seq<Event>)
    requires WellFormed(l, now) && WellFormed(m, now) && Alike(l, m, now) && Timely(now, events)
    ensures Verdicts(l, events) == Replies(m, Arrivals(events))
    decreases |events|
  {
    if events != [] {
      var rest := Arrivals(events[1..]);
      match events[0] {
        case Ask(a) =>
          AllowAlike(l, m, a.ip, now, a.at);
          AllowKeepsWellFormed(l, a.ip, now, a.at);
          AllowKeepsWellFormed(m, a.ip, now, a.at);
          RunAlike(Allow(l, a.ip, a.at).0, Allow(m, a.ip, a.at).0, a.at, events[1..]);
          assert ([a] + rest)[1..] == rest;
        case Cleanup(at) =>
          SweepAlike(l, m, now, at);
          RunAlike(Sweep(l, at), m, at, events[1..]);
          assert [] + rest == rest;
      }
    }
  }

  /** Wherever sweeps are added to or removed from a run, no answer changes. */
  lemma CleanupIsUnobservable(l: Limiter, now: real, one: seq<Event>, two: seq<Event>)
    requires WellFormed(l, now) && Timely(now, one) && Timely(now, two)
    requires Arrivals(one) == Arrivals(two)
    ensures Verdicts(l, one) == Verdicts(l, two) == Replies(l, Arrivals(one))
  {
    RunAlike(l, l, now, one);
    RunAlike(l, l, now, two);
  }

  // ---------- Addresses meet only in the global bucket ----------

  function Times(arrivals: seq<Arrival>): (ts: seq<real>)
    ensures |ts| == |arrivals|
  {
    if arrivals == [] then [] else [arrivals[0].at] + Times(arrivals[1..])
  }

  /** The times of one address's arrivals that the global bucket let through. */
  function Passed(arrivals: seq<Arrival>, passes: seq<bool>, ip: string): seq<real>
    requires |arrivals| == |passes|
  {
    if arrivals == [] then []
    else (if passes[0] && arrivals[0].ip == ip then [arrivals[0].at] else [])
         + Passed(arrivals[1..], passes[1..], ip)
  }

  /** What those arrivals were then told. */
  function Told(arrivals: seq<Arrival>, verdicts: seq<Verdict>, ip: string): seq<bool>
    requires |arrivals| == |verdicts|
  {
    if arrivals == [] then []
    else (if !verdicts[0].GlobalRefusal? && arrivals[0].ip == ip then [verdicts[0].Admitted?] else [])
         + Told(arrivals[1..], verdicts[1..], ip)
  }

  lemma OrderedCons(start: real, t: real, times: seq<real>)
    requires start <= t && Ordered(t, times)
    ensures Ordered(start, [t] + times) && Ordered(start, times)
  {
  }

  lemma {:induction false} PassedInOrder(now: real, arrivals: seq<Arrival>, passes: seq<bool>, ip: string)
    requires InOrder(now, arrivals) && |arrivals| == |passes|
    ensures Ordered(now, Passed(arrivals, passes, ip)) && Ordered(now, Times(arrivals))
    decreases |arrivals|
  {
    if arrivals != [] {
      var at, rest := arrivals[0].at, Passed(arrivals[1..], passes[1..], ip);
      PassedInOrder(at, arrivals[1..], passes[1..], ip);
      OrderedCons(now, at, rest);
      OrderedCons(now, at, Times(arrivals[1..]));
      assert [] + rest == rest;
    }
  }

  lemma ServeAfterRefill(b: Bucket, at: real, times: seq<real>)
    requires 0.0 <= b.rate && Ordered(at, times)
    ensures Serve(Refill(b, at), times) == Serve(b, times)
  {
    if times != [] { RefillSplit(b, at, times[0]); }
  }

  /** What the rest of a run makes of an address's bucket, whether or not the first arrival used it. */
  lemma BucketAfterOne(l: Limiter, now: real, a: Arrival, ip: string, times: seq<real>)
    requires WellFormed(l, now) && now <= a.at && Ordered(a.at, times)
    ensures var (l', v) := Allow(l, a.ip, a.at);
            if !v.GlobalRefusal? && a.ip == ip
            then Serve(BucketOf(l, ip, now), [a.at] + times) == [v.Admitted?] + Serve(BucketOf(l', ip, a.at), times)
            else Serve(BucketOf(l, ip, now), times) == Serve(BucketOf(l', ip, a.at), times)
  {
    var (l', v) := Allow(l, a.ip, a.at);
    var mine := BucketOf(l, ip, now);
    RefillLater(l, ip, now, a.at);
    RefillSplit(mine, now, a.at);
    assert Refill(mine, a.at) == Refill(BucketOf(l, ip, a.at), a.at);
    if !v.GlobalRefusal? && a.ip == ip {
      AllowOffers(l, ip, a.at);
      assert ([a.at] + times)[1..] == times;
    } else {
      assert BucketOf(l', ip, a.at) == BucketOf(l, ip, a.at);
      ServeAfterRefill(mine, a.at, times);
      ServeAfterRefill(BucketOf(l, ip, a.at), a.at, times);
    }
  }

  /** The global bucket alone decides which arrivals get past it. */
  lemma {:induction false} GlobalIsAlone(l: Limiter, arrivals: seq<Arrival>, k: nat)
    requires k < |arrivals|
    ensures Serve(l.global, Times(arrivals))[k] <==> !Replies(l, arrivals)[k].GlobalRefusal?
    decreases |arrivals|
  {
    var l' := Allow(l, arrivals[0].ip, arrivals[0].at).0;
    assert Times(arrivals)[1..] == Times(arrivals[1..]);
    if k != 0 {
      GlobalIsAlone(l', arrivals[1..], k - 1);
    }
  }

  /** The first arrival of a run and the rest of it. */
  lemma RunStep(l: Limiter, arrivals: seq<Arrival>)
    requires arrivals != []
    ensures var (l', v) := Allow(l, arrivals[0].ip, arrivals[0].at);
            && Replies(l, arrivals) == [v] + Replies(l', arrivals[1..])
            && Serve(l.global, Times(arrivals)) == [!v.GlobalRefusal?] + Serve(l'.global, Times(arrivals[1..]))
  {
    assert Times(arrivals)[1..] == Times(arrivals[1..]);
  }

  lemma {:induction false} AddressIsAlone(l: Limiter, now: real, arrivals: seq<Arrival>, ip: string)
    requires WellFormed(l, now) && InOrder(now, arrivals)
    ensures Told(arrivals, Replies(l, arrivals), ip)
         == Serve(BucketOf(l, ip, now), Passed(arrivals, Serve(l.global, Times(arrivals)), ip))
    decreases |arrivals|
  {
    hide Allow, Offer, BucketOf, WellFormed, Ordered, Times;
    if arrivals != [] {
      var a, more := arrivals[0], arrivals[1..];
      var (l', v) := Allow(l, a.ip, a.at);
      RunStep(l, arrivals);
      AllowKeepsWellFormed(l, a.ip, now, a.at);
      AddressIsAlone(l', a.at, more, ip);
      var later := Serve(l'.global, Times(more));
      PassedInOrder(a.at, more, later, ip);
      var rest := Passed(more, later, ip);
      BucketAfterOne(l, now, a, ip, rest);
      assert Serve(l.global, Times(arrivals))[1..] == later && Replies(l, arrivals)[1..] == Replies(l', more);
      assert [] + rest == rest;
      assert [] + Told(more, Replies(l', more), ip) == Told(more, Replies(l', more), ip);
    }
  }

  /** Every run splits: a stand-alone global bucket fed all arrivals, then for each address a stand-alone
      bucket fed just that address's arrivals that the global bucket passed. */
  lemma Decomposition(l: Limiter, now: real, arrivals: seq<Arrival>, ip: string)
    requires WellFormed(l, now) && InOrder(now, arrivals)
    ensures forall k :: 0 <= k < |arrivals| ==>
              (Serve(l.global, Times(arrivals))[k] <==> !Replies(l, arrivals)[k].GlobalRefusal?)
    ensures Told(arrivals, Replies(l, arrivals), ip)
         == Serve(BucketOf(l, ip, now), Passed(arrivals, Serve(l.global, Times(arrivals)), ip))
  {
    forall k | 0 <= k < |arrivals|
      ensures Serve(l.global, Times(arrivals))[k] <==> !Replies(l, arrivals)[k].GlobalRefusal?
    {
      GlobalIsAlone(l, arrivals, k);
    }
    AddressIsAlone(l, now, arrivals, ip);
  }

  // ---------- How much a run can admit ----------

  /** Admissions of one address with times in [s, t]. */
  function AdmittedIn(arrivals: seq<Arrival>, verdicts: seq<Verdict>, ip: string, s: real, t: real): nat
    requires |arrivals| == |verdicts|
  {
    if arrivals == [] then 0
    else (if verdicts[0].Admitted? && arrivals[0].ip == ip && s <= arrivals[0].at <= t then 1 else 0)
         + AdmittedIn(arrivals[1..], verdicts[1..], ip, s, t)
  }

  /** Admissions and per-address refusals of all addresses with times in [s, t]. */
  function SpentIn(arrivals: seq<Arrival>, verdicts: seq<Verdict>, s: real, t: real): nat
    requires |arrivals| == |verdicts|
  {
    if arrivals == [] then 0
    else (if !verdicts[0].GlobalRefusal? && s <= arrivals[0].at <= t then 1 else 0)
         + SpentIn(arrivals[1..], verdicts[1..], s, t)
  }

  lemma {:induction false} CountsMatch(arrivals: seq<Arrival>, verdicts: seq<Verdict>, passes: seq<bool>,
                                       ip: string, s: real, t: real)
    requires |arrivals| == |verdicts| == |passes|
    requires forall k :: 0 <= k < |arrivals| ==> (passes[k] <==> !verdicts[k].GlobalRefusal?)
    ensures SpentIn(arrivals, verdicts, s, t) == CountIn(Times(arrivals), passes, s, t)
    ensures |Passed(arrivals, passes, ip)| == |Told(arrivals, verdicts, ip)|
    ensures AdmittedIn(arrivals, verdicts, ip, s, t)
         == CountIn(Passed(arrivals, passes, ip), Told(arrivals, verdicts, ip), s, t)
  {
    if arrivals != [] {
      CountsMatch(arrivals[1..], verdicts[1..], passes[1..], ip, s, t);
      assert Times(arrivals)[1..] == Times(arrivals[1..]);
      var rest, told := Passed(arrivals[1..], passes[1..], ip), Told(arrivals[1..], verdicts[1..], ip);
      assert [] + rest == rest && [] + told == told;
      assert ([arrivals[0].at] + rest)[1..] == rest && ([verdicts[0].Admitted?] + told)[1..] == told;
    }
  }

  lemma AddressRate(l: Limiter, now: real, arrivals: seq<Arrival>, ip: string, s: real, t: real)
    requires WellFormed(l, now) && InOrder(now, arrivals) && s <= t
    ensures AdmittedIn(arrivals, Replies(l, arrivals), ip, s, t) as real
         <= l.ipBurst as real + Earned(l.ipRate, s, t)
  {
    var passes := Serve(l.global, Times(arrivals));
    Decomposition(l, now, arrivals, ip);
    CountsMatch(arrivals, Replies(l, arrivals), passes, ip, s, t);
    PassedInOrder(now, arrivals, passes, ip);
    WindowEarned(BucketOf(l, ip, now), Passed(arrivals, passes, ip), s, t);
  }

  lemma GlobalRate(l: Limiter, now: real, arrivals: seq<Arrival>, s: real, t: real)
    requires WellFormed(l, now) && InOrder(now, arrivals) && s <= t
    ensures SpentIn(arrivals, Replies(l, arrivals), s, t) as real
         <= l.global.capacity as real + Earned(l.global.rate, s, t)
  {
    var passes := Serve(l.global, Times(arrivals));
    Decomposition(l, now, arrivals, "");
    CountsMatch(arrivals, Replies(l, arrivals), passes, "", s, t);
    PassedInOrder(now, arrivals, passes, "");
    WindowEarned(l.global, Times(arrivals), s, t);
  }

  lemma RateIsEarned(l: Limiter, now: real, events: seq<Event>, ip: string, s: real, t: real)
    requires WellFormed(l, now) && Timely(now, events) && s <= t
    ensures |Verdicts(l, events)| == |Arrivals(events)|
    ensures AdmittedIn(Arrivals(events), Verdicts(l, events), ip, s, t) as real
         <= l.ipBurst as real + Earned(l.ipRate, s, t)
    ensures SpentIn(Arrivals(events), Verdicts(l, events), s, t) as real
         <= l.global.capacity as real + Earned(l.global.rate, s, t)
  {
    hide Earned;
    CleanupIsUnobservable(l, now, events, events);
    TimelyArrivals(now, events);
    AddressRate(l, now, Arrivals(events), ip, s, t);
    GlobalRate(l, now, Arrivals(events), s, t);
  }

  /** In every run, with sweeps anywhere, and in every window: the burst and rate limits hold for each
      address and for the limiter as a whole, where a refusal by an address's own bucket has still
      spent a global token. */
  lemma RateIsBounded(l: Limiter, now: real, events: seq<Event>, ip: string, s: real, t: real)
    requires WellFormed(l, now) && Timely(now, events) && s <= t
    ensures |Verdicts(l, events)| == |Arrivals(events)|
    ensures AdmittedIn(Arrivals(events), Verdicts(l, events), ip, s, t) as real
         <= l.ipBurst as real + l.ipRate * (t - s)
    ensures SpentIn(Arrivals(events), Verdicts(l, events), s, t) as real
         <= l.global.capacity as real + l.global.rate * (t - s)
  {
    hide *;
    RateIsEarned(l, now, events, ip, s, t);
    EarnedIs(l.ipRate, s, t);
    EarnedIs(l.global.rate, s, t);
  }

  /** A new limiter serves within the four numbers it was given, and lets a first request through when both bursts
      are at least 1. */
  lemma NewLimiterIsBounded(ipRate: real, ipBurst: int, globalRate: real, globalBurst: int, start: real,
                            events: seq<Event>, ip: string, s: real, t: real)
    requires 0.0 <= ipRate && 0 <= ipBurst && 0.0 <= globalRate && 0 <= globalBurst
    requires Timely(start, events) && s <= t
    ensures var l := New(ipRate, ipBurst, globalRate, globalBurst, start);
            && |Verdicts(l, events)| == |Arrivals(events)|
            && AdmittedIn(Arrivals(events), Verdicts(l, events), ip, s, t) as real <= ipBurst as real + ipRate * (t - s)
            && SpentIn(Arrivals(events), Verdicts(l, events), s, t) as real <= globalBurst as real + globalRate * (t - s)
            && (Allow(l, ip, start).1 == Admitted <==> 1 <= globalBurst && 1 <= ipBurst)
  {
    var l := New(ipRate, ipBurst, globalRate, globalBurst, start);
    hide Allow, Verdicts, Arrivals, Timely, AdmittedIn, SpentIn, Grown;
    RateIsBounded(l, start, events, ip, s, t);
    AdmittedIffGrown(l, ip, start);
    GrownAtOnce(l.global);
  }

  lemma GrownAtOnce(b: Bucket)
    ensures Grown(b, b.last) == b.tokens
  {
  }

  // ---------- When a sweep finds anything to drop ----------

  lemma {:induction false} NeverFullAtRest(l: Limiter, now: real, events: seq<Event>)
    requires WellFormed(l, now) && Timely(now, events) && 1 <= l.ipBurst
    requires forall ip <- l.ips :: l.ips[ip].tokens < l.ips[ip].capacity as real
    ensures forall ip <- After(l, events).ips ::
              After(l, events).ips[ip].tokens < After(l, events).ips[ip].capacity as real
    decreases |events|
  {
    if events != [] {
      if events[0].Ask? { AllowKeepsWellFormed(l, events[0].arrival.ip, now, events[0].arrival.at); }
      NeverFullAtRest(Apply(l, events[0]), At(events[0]), events[1..]);
    }
  }

  lemma {:induction false} NoGlobalTokens(l: Limiter, now: real, events: seq<Event>)
    requires WellFormed(l, now) && Timely(now, events) && l.global.capacity == 0 && l.ips == map[]
    ensures After(l, events).ips == map[]
    decreases |events|
  {
    if events != [] {
      if events[0].Ask? { AllowKeepsWellFormed(l, events[0].arrival.ip, now, events[0].arrival.at); }
      NoGlobalTokens(Apply(l, events[0]), At(events[0]), events[1..]);
    }
  }

  /** Cleanup is meant to drop idle buckets. A limiter can reach a state in which a sweep drops one exactly
      when its per-address burst is 0 (and requests get past the global bucket at all): with any other
      burst no bucket is ever exactly full between requests, and the address map only grows. */
  lemma SweepFiresOnlyWithoutBurst(ipRate: real, ipBurst: int, globalRate: real, globalBurst: int, start: real)
    requires 0.0 <= ipRate && 0 <= ipBurst && 0.0 <= globalRate && 0 <= globalBurst
    ensures var l := New(ipRate, ipBurst, globalRate, globalBurst, start);
            (exists events, now :: Timely(start, events) && Sweep(After(l, events), now) != After(l, events))
            <==> ipBurst == 0 && 1 <= globalBurst
  {
    var l := New(ipRate, ipBurst, globalRate, globalBurst, start);
    forall events, now | Timely(start, events) && Sweep(After(l, events), now) != After(l, events)
      ensures ipBurst == 0 && 1 <= globalBurst
    {
      if globalBurst == 0 { NoGlobalTokens(l, start, events); }
      if 1 <= ipBurst { NeverFullAtRest(l, start, events); }
      assert Sweep(After(l, events), now).ips != After(l, events).ips;
    }
    if ipBurst == 0 && 1 <= globalBurst {
      var events := [Ask(Arrival("", start))];
      var one := Allow(l, "", start).0;
      assert After(l, events) == After(one, events[1..]) == one;
      assert "" in one.ips && "" !in Sweep(one, start + 601.0).ips;
      assert Timely(start, events);
    }
  }

  // ---------- The limiter as an object ----------

  class TokenBucket {
    var tokens: real
    var lastRefil: real
    var capacity: int
    var rate: real

    ghost function Value(): Bucket
      reads this
    {
      Bucket(tokens, lastRefil, capacity, rate)
    }

    constructor (tokens: real, lastRefil: real, capacity: int, rate: real)
      ensures Value() == Bucket(tokens, lastRefil, capacity, rate)
    {
      this.tokens, this.lastRefil, this.capacity, this.rate := tokens, lastRefil, capacity, rate;
    }
  }

  class RateLimiter {
    var ipLimits: map<string, TokenBucket>
    var globalBucket: TokenBucket
    const ipRate: real
    const ipBurst: int

    /** No two addresses share a bucket, and none has the global one. */
    ghost predicate Valid()
      reads this
    {
      && globalBucket !in ipLimits.Values
      && forall a, b :: a in ipLimits && b in ipLimits && a != b ==> ipLimits[a] != ipLimits[b]
    }

    ghost function Value(): Limiter
      reads this, globalBucket, ipLimits.Values
    {
      Limiter(globalBucket.Value(), map ip | ip in ipLimits :: ipLimits[ip].Value(), ipRate, ipBurst)
    }

    constructor (ipRate: real, ipBurst: int, globalRate: real, globalBurst: int, now: real)
      ensures Valid() && Value() == New(ipRate, ipBurst, globalRate, globalBurst, now)
      ensures fresh(globalBucket) && ipLimits == map[]
    {
      this.ipRate, this.ipBurst := ipRate, ipBurst;
      ipLimits := map[];
      globalBucket := new TokenBucket(globalBurst as real, now, globalBurst, globalRate);
    }

    method RefillBucket(bucket: TokenBucket, now: real)
      modifies bucket
      ensures bucket.Value() == Refill(old(bucket.Value()), now)
    {
      var elapsed := now - bucket.lastRefil;
      bucket.lastRefil := now;
      bucket.tokens := Min(bucket.capacity as real, bucket.tokens + elapsed * bucket.rate);
    }

    /** Finds the address's bucket and refills it, or makes a full one. */
    method RefilledBucket(ip: string, now: real) returns (bucket: TokenBucket)
      requires Valid()
      modifies this, ipLimits.Values
      ensures Valid() && globalBucket == old(globalBucket)
      ensures ip in ipLimits && ipLimits[ip] == bucket
      ensures fresh(ipLimits.Values - old(ipLimits.Values))
      ensures Value() == old(Value()).(ips := old(Value()).ips[ip :=
                if ip in old(Value()).ips then Refill(old(Value()).ips[ip], now) else Full(ipBurst, ipRate, now)])
    {
      if ip !in ipLimits {
        bucket := new TokenBucket(ipBurst as real, now, ipBurst, ipRate);
        ipLimits := ipLimits[ip := bucket];
      } else {
        bucket := ipLimits[ip];
        RefillBucket(bucket, now);
      }
    }

    /** The global half of a request. */
    method SpendGlobal(now: real) returns (passed: bool)
      requires Valid()
      modifies globalBucket
      ensures Value() == old(Value()).(global := Offer(old(Value()).global, now).0)
      ensures passed == Offer(old(Value()).global, now).1
    {
      RefillBucket(globalBucket, now);
      passed := !(globalBucket.tokens < 1.0);
      if passed {
        globalBucket.tokens := globalBucket.tokens - 1.0;
      }
      assert Value().ips == old(Value()).ips;
    }

    /** The per-address half: spends a token of the address's bucket, if it has a whole one. */
    method SpendOwn(ip: string) returns (allowed: bool)
      requires Valid() && ip in ipLimits
      modifies ipLimits[ip]
      ensures var b := old(Value()).ips[ip];
              && allowed == !(b.tokens < 1.0)
              && Value() == old(Value()).(ips := old(Value()).ips[ip :=
                              if allowed then b.(tokens := b.tokens - 1.0) else b])
    {
      var bucket := ipLimits[ip];
      allowed := !(bucket.tokens < 1.0);
      if allowed {
        bucket.tokens := bucket.tokens - 1.0;
      }
    }

    method AllowRequest(ip: string, now: real) returns (allowed: bool)
      requires Valid()
      modifies this, globalBucket, ipLimits.Values
      ensures Valid() && globalBucket == old(globalBucket)
      ensures fresh(ipLimits.Values - old(ipLimits.Values))
      ensures Value() == Allow(old(Value()), ip, now).0
      ensures allowed <==> Allow(old(Value()), ip, now).1 == Admitted
    {
      hide Refill, Offer, Full;
      allowed := SpendGlobal(now);
      if allowed {
        ghost var paid := Value();
        var bucket := RefilledBucket(ip, now);
        assert bucket in ipLimits.Values;
        allowed := SpendOwn(ip);
        assert Value().ips == paid.ips[ip := Value().ips[ip]];
      }
    }

    method SweepIdle(now: real)
      requires Valid()
      modifies this
      ensures Valid() && globalBucket == old(globalBucket)
      ensures ipLimits.Values <= old(ipLimits.Values)
      ensures Value() == Sweep(old(Value()), now)
    {
      var pending := ipLimits.Keys;
      while pending != {}
        invariant pending <= ipLimits.Keys <= old(ipLimits).Keys
        invariant globalBucket == old(globalBucket)
        invariant forall ip <- ipLimits :: ipLimits[ip] == old(ipLimits)[ip]
        invariant forall ip <- old(ipLimits) :: ip !in pending ==>
          (ip in ipLimits <==> !Idle(old(ipLimits)[ip].Value(), now))
        decreases pending
      {
        var ip :| ip in pending;
        var bucket := ipLimits[ip];
        if bucket.tokens == bucket.capacity as real && now - bucket.lastRefil > CLEANUP_EVERY {
          ipLimits := ipLimits - {ip};
        }
        pending := pending - {ip};
      }
    }
  }
}
