/** The token-bucket limiter in front of the API (acpd/cmd/acpd/main.go). Times are nanoseconds. */
module RateLimit {
  import opened Numbers

  const SECOND := 1_000_000_000
  const MINUTE := 60 * SECOND

  datatype Bucket = Bucket(tokens: int, lastFill: int)

  /** The float64 product of an elapsed time, in seconds, and the rate: a parameter of the limiter. */
  type Product = (int, int) -> real

  /** 2 to the 50th. */
  const PRECISION := 1_125_899_906_842_624

  function ExactProduct(elapsed: int, rps: int): real {
    (elapsed * rps) as real / SECOND as real
  }

  /** The product is the exact one up to a relative error of one part in 2 to the 50th.  Three float64
      roundings, each within one part in 2 to the 53rd, stay below that. */
  ghost predicate Accurate(product: Product) {
    forall elapsed, rps :: elapsed >= 0 && rps > 0 ==> IsClose(product(elapsed, rps), ExactProduct(elapsed, rps))
  }

  ghost predicate IsClose(x: real, exact: real) {
    exact - exact / PRECISION as real <= x <= exact + exact / PRECISION as real
  }

  /** Go's conversion to int: truncation toward zero. */
  function Truncate(x: real): int {
    if x >= 0.0 then x.Floor else -(-x).Floor
  }

  /** Tokens in the bucket once it has been topped up at `now`. */
  function Refilled(b: Bucket, now: int, rps: int, product: Product): int {
    var tokens := b.tokens + Truncate(product(now - b.lastFill, rps));
    if tokens > rps then rps else tokens
  }

  /** A client not seen before starts with a full bucket. */
  function BucketOf(buckets: map<string, Bucket>, addr: string, now: int, rps: int): Bucket {
    if addr in buckets then buckets[addr] else Bucket(rps, now)
  }

  function Serve(buckets: map<string, Bucket>, addr: string, now: int, rps: int, product: Product): (map<string, Bucket>, bool) {
    var tokens := Refilled(BucketOf(buckets, addr, now, rps), now, rps, product);
    if tokens > 0 then (buckets[addr := Bucket(tokens - 1, now)], true)
    else (buckets[addr := Bucket(tokens, now)], false)
  }

  predicate IsIdle(b: Bucket, now: int) {
    b.lastFill < now - MINUTE
  }

  function Evict(buckets: map<string, Bucket>, now: int): map<string, Bucket> {
    map k | k in buckets && !IsIdle(buckets[k], now) :: buckets[k]
  }

  class RateLimiter {
    const rps: int
    const product: Product
    var buckets: map<string, Bucket>

    constructor (rps: int, product: Product)
      requires rps > 0
      ensures this.rps == rps && this.product == product && buckets == map[]
    {
      this.rps, this.product := rps, product;
      buckets := map[];
    }

    /** One request: refill, cap, admit if a token is left. */
    method Allow(addr: string, now: int) returns (allow: bool)
      modifies this
      ensures (buckets, allow) == Serve(old(buckets), addr, now, rps, product)
      ensures var had := if addr in old(buckets) then old(buckets)[addr] else Bucket(rps, now);
              var earned := had.tokens + Truncate(product(now - had.lastFill, rps));
              var tokens := if earned > rps then rps else earned;
              allow == (tokens >= 1) && buckets == old(buckets)[addr := Bucket(if allow then tokens - 1 else tokens, now)]
    {
      if addr !in buckets {
        buckets := buckets[addr := Bucket(rps, now)];
      }
      var b := buckets[addr];
      var tokens := b.tokens + Truncate(product(now - b.lastFill, rps));
      if tokens > rps {
        tokens := rps;
      }
      allow := tokens > 0;
      if allow {
        tokens := tokens - 1;
      }
      buckets := buckets[addr := Bucket(tokens, now)];
      assert buckets == old(buckets)[addr := Bucket(tokens, now)];
    }

    /** The cleanup pass: drop every bucket untouched for over a minute. */
    method Cleanup(now: int)
      modifies this
      ensures buckets == Evict(old(buckets), now)
      ensures forall k :: k in buckets <==> k in old(buckets) && old(buckets)[k].lastFill >= now - 60_000_000_000
      ensures forall k :: k in buckets ==> buckets[k] == old(buckets)[k]
    {
      var keys := buckets.Keys;
      while keys != {}
        invariant keys <= old(buckets).Keys
        invariant buckets.Keys <= old(buckets).Keys
        invariant forall k :: k in buckets ==> buckets[k] == old(buckets)[k]
        invariant forall k :: k in old(buckets) ==>
                    (k in buckets <==> k in keys || !IsIdle(old(buckets)[k], now))
        decreases keys
      {
        var k :| k in keys;
        keys := keys - {k};
        if IsIdle(buckets[k], now) {
          buckets := buckets - {k};
        }
      }
    }
  }

  // ---------- Runs ----------

  datatype Event = Request(addr: string, at: int) | CleanupTick(at: int)

  /** Times never go back: requests and cleanups hold the limiter's lock. */
  ghost predicate Ordered(events: seq<Event>, start: int) {
    events != [] ==> start <= events[0].at && Ordered(events[1..], events[0].at)
  }

  function Next(buckets: map<string, Bucket>, e: Event, rps: int, product: Product): map<string, Bucket> {
    match e
    case Request(addr, at) => Serve(buckets, addr, at, rps, product).0
    case CleanupTick(at) => Evict(buckets, at)
  }

  /** The verdict on each request of a run, in order. */
  function Decisions(buckets: map<string, Bucket>, events: seq<Event>, rps: int, product: Product): seq<bool>
    decreases events
  {
    if events == [] then []
    else
      (if events[0].Request? then [Serve(buckets, events[0].addr, events[0].at, rps, product).1] else [])
      + Decisions(Next(buckets, events[0], rps, product), events[1..], rps, product)
  }

  function Requests(events: seq<Event>): seq<Event> {
    if events == [] then []
    else (if events[0].Request? then [events[0]] else []) + Requests(events[1..])
  }

  predicate Counts(buckets: map<string, Bucket>, e: Event, rps: int, product: Product, addr: string, t1: int, t2: int) {
    e.Request? && e.addr == addr && t1 <= e.at <= t2 && Serve(buckets, addr, e.at, rps, product).1
  }

  /** How many requests of `addr` a run admits between `t1` and `t2`. */
  function AdmittedBetween(buckets: map<string, Bucket>, events: seq<Event>, rps: int, product: Product, addr: string, t1: int, t2: int): nat
    decreases events
  {
    if events == [] then 0
    else
      (if Counts(buckets, events[0], rps, product, addr, t1, t2) then 1 else 0)
      + AdmittedBetween(Next(buckets, events[0], rps, product), events[1..], rps, product, addr, t1, t2)
  }

  /** What every bucket satisfies at time `t`. */
  ghost predicate Sound(buckets: map<string, Bucket>, rps: int, t: int) {
    forall k :: k in buckets ==> 0 <= buckets[k].tokens <= rps && buckets[k].lastFill <= t
  }

  /** Parts of a token: fine enough for the time unit and for the relative error. */
  const UNIT := SECOND * PRECISION

  /** What drips into a bucket in a nanosecond, at most; in parts of a token. */
  function Rate(rps: int): int {
    rps * (PRECISION + 1)
  }

  lemma RealProduct(x: real, y: real, c: real)
    requires c > 0.0 && x <= y
    ensures x * c <= y * c
  {
  }

  lemma DivideTimes(x: real, c: real)
    requires c > 0.0
    ensures x / c * c == x
  {
  }

  /** The tokens a product is worth: at most the exact ones and the relative error, and a full bucket
      after a minute. */
  lemma EarnedBounds(elapsed: int, rps: int, product: Product)
    requires rps > 0 && Accurate(product) && elapsed >= 0
    ensures var earned := Truncate(product(elapsed, rps));
            && 0 <= earned && earned * UNIT <= elapsed * rps * (PRECISION + 1)
            && (elapsed >= MINUTE ==> earned >= rps)
  {
    var x, exact := product(elapsed, rps), ExactProduct(elapsed, rps);
    ProductOrder(0, elapsed, rps);
    assert IsClose(x, exact) && exact >= 0.0 && exact / PRECISION as real <= exact;
    CloseBelow(x, elapsed * rps, x.Floor);
    if elapsed >= MINUTE {
      ProductOrder(MINUTE, elapsed, rps);
      RealProduct((60 * rps * SECOND) as real, (elapsed * rps) as real, 1.0 / SECOND as real);
      assert exact >= 60.0 * rps as real && x >= rps as real;
    }
  }

  lemma CloseBelow(x: real, n: int, earned: int)
    requires n >= 0 && earned as real <= x && IsClose(x, n as real / SECOND as real)
    ensures earned * UNIT <= n * (PRECISION + 1)
  {
    var exact, s, p := n as real / SECOND as real, SECOND as real, PRECISION as real;
    RealProduct(earned as real, exact + exact / p, p);
    DivideTimes(exact, p);
    assert (exact + exact / p) * p == exact * p + exact;
    RealProduct(earned as real * p, exact * p + exact, s);
    DivideTimes(n as real, s);
    assert (exact * p + exact) * s == n as real * p + n as real;
    assert earned as real * p * s == (earned * UNIT) as real;
    assert n as real * p + n as real == (n * (PRECISION + 1)) as real;
  }

  lemma RefillBounds(b: Bucket, now: int, rps: int, product: Product)
    requires rps > 0 && Accurate(product) && 0 <= b.tokens <= rps && b.lastFill <= now
    ensures 0 <= Refilled(b, now, rps, product) <= rps
    ensures Refilled(b, now, rps, product) * UNIT <= b.tokens * UNIT + (now - b.lastFill) * Rate(rps)
    ensures IsIdle(b, now) ==> Refilled(b, now, rps, product) == rps
  {
    EarnedBounds(now - b.lastFill, rps, product);
    assert (now - b.lastFill) * rps * (PRECISION + 1) == (now - b.lastFill) * Rate(rps);
  }

  lemma NextIsSound(buckets: map<string, Bucket>, e: Event, rps: int, product: Product, t: int)
    requires rps > 0 && Accurate(product) && Sound(buckets, rps, t) && t <= e.at
    ensures Sound(Next(buckets, e, rps, product), rps, e.at)
  {
    if e.Request? {
      RefillBounds(BucketOf(buckets, e.addr, e.at, rps), e.at, rps, product);
    }
  }

  /** The tokens an address would have at `t`, fractions included; in parts of a token. */
  function Held(buckets: map<string, Bucket>, addr: string, rps: int, t: int): int {
    var full := rps * UNIT;
    var held := if addr in buckets then buckets[addr].tokens * UNIT + (t - buckets[addr].lastFill) * Rate(rps) else full;
    if held > full then full else held
  }

  /** What it could at most draw between `t` and `t2`: what it would have, and what drips in. */
  function Budget(buckets: map<string, Bucket>, addr: string, rps: int, t: int, t2: int): int {
    Held(buckets, addr, rps, t) + (t2 - t) * Rate(rps)
  }

  lemma Distribute(a: int, b: int, c: int, rate: int)
    ensures (a - b) * rate == (a - c) * rate + (c - b) * rate
  {
  }

  lemma HeldGrows(buckets: map<string, Bucket>, addr: string, rps: int, t: int, later: int)
    requires rps > 0 && t <= later
    ensures Held(buckets, addr, rps, later) <= Held(buckets, addr, rps, t) + (later - t) * Rate(rps)
  {
    ProductOrder(0, later - t, Rate(rps));
    if addr in buckets {
      Distribute(later, buckets[addr].lastFill, t, Rate(rps));
    }
  }

  lemma RefillIsHeld(buckets: map<string, Bucket>, addr: string, rps: int, product: Product, at: int)
    requires rps > 0 && Accurate(product) && Sound(buckets, rps, at)
    ensures 0 <= Refilled(BucketOf(buckets, addr, at, rps), at, rps, product) <= rps
    ensures Refilled(BucketOf(buckets, addr, at, rps), at, rps, product) * UNIT <= Held(buckets, addr, rps, at)
  {
    var b := BucketOf(buckets, addr, at, rps);
    RefillBounds(b, at, rps, product);
    ProductOrder(Refilled(b, at, rps, product), rps, UNIT);
  }

  /** Serving takes a whole token for an admission, and neither serving nor evicting adds any. */
  lemma HeldPays(buckets: map<string, Bucket>, e: Event, rps: int, product: Product, addr: string)
    requires rps > 0 && Accurate(product) && Sound(buckets, rps, e.at)
    ensures Held(Next(buckets, e, rps, product), addr, rps, e.at)
          + (if e.Request? && e.addr == addr && Serve(buckets, addr, e.at, rps, product).1 then UNIT else 0)
         <= Held(buckets, addr, rps, e.at)
  {
    match e
    case Request(a, at) =>
      if a == addr {
        ServePays(buckets, addr, at, rps, product);
      }
    case CleanupTick(at) =>
      if addr in buckets && IsIdle(buckets[addr], at) {
        RefillBounds(buckets[addr], at, rps, product);
        RefillIsHeld(buckets, addr, rps, product, at);
      }
  }

  lemma ServePays(buckets: map<string, Bucket>, addr: string, at: int, rps: int, product: Product)
    requires rps > 0 && Accurate(product) && Sound(buckets, rps, at)
    ensures var (after, allow) := Serve(buckets, addr, at, rps, product);
            Held(after, addr, rps, at) + (if allow then UNIT else 0) <= Held(buckets, addr, rps, at)
  {
    var (after, allow) := Serve(buckets, addr, at, rps, product);
    var tokens := Refilled(BucketOf(buckets, addr, at, rps), at, rps, product);
    RefillIsHeld(buckets, addr, rps, product, at);
    HeldJustFilled(after, addr, rps, at);
    assert after[addr].tokens == if allow then tokens - 1 else tokens;
  }

  lemma HeldJustFilled(buckets: map<string, Bucket>, addr: string, rps: int, at: int)
    requires addr in buckets && buckets[addr].lastFill == at && buckets[addr].tokens <= rps
    ensures Held(buckets, addr, rps, at) == buckets[addr].tokens * UNIT
  {
    ProductOrder(buckets[addr].tokens, rps, UNIT);
  }

  /** A step never adds to the budget, and an admission takes a whole token from it. */
  lemma BudgetPays(buckets: map<string, Bucket>, e: Event, rps: int, product: Product, addr: string, t: int, t2: int)
    requires rps > 0 && Accurate(product) && Sound(buckets, rps, t) && t <= e.at <= t2
    ensures Budget(Next(buckets, e, rps, product), addr, rps, e.at, t2)
          + (if e.Request? && e.addr == addr && Serve(buckets, addr, e.at, rps, product).1 then UNIT else 0)
         <= Budget(buckets, addr, rps, t, t2)
  {
    HeldPays(buckets, e, rps, product, addr);
    HeldGrows(buckets, addr, rps, t, e.at);
    Distribute(t2, t, e.at, Rate(rps));
  }

  lemma BudgetIsBounded(buckets: map<string, Bucket>, addr: string, rps: int, t: int, t2: int)
    requires rps > 0 && Sound(buckets, rps, t) && t <= t2
    ensures 0 <= Budget(buckets, addr, rps, t, t2) <= rps * UNIT + (t2 - t) * Rate(rps)
  {
    ProductOrder(0, t2 - t, Rate(rps));
    if addr in buckets {
      ProductOrder(0, t - buckets[addr].lastFill, Rate(rps));
    }
  }

  lemma {:induction false} NothingAfterWindow(buckets: map<string, Bucket>, events: seq<Event>, rps: int, product: Product, addr: string, t1: int, t2: int, t: int)
    requires Ordered(events, t) && t > t2
    ensures AdmittedBetween(buckets, events, rps, product, addr, t1, t2) == 0
    decreases events
  {
    if events != [] {
      NothingAfterWindow(Next(buckets, events[0], rps, product), events[1..], rps, product, addr, t1, t2, events[0].at);
    }
  }

  lemma {:induction false} BudgetCoversAdmissions(buckets: map<string, Bucket>, events: seq<Event>, rps: int, product: Product, addr: string,
                                                  t1: int, t2: int, t: int)
    requires rps > 0 && Accurate(product) && Sound(buckets, rps, t) && Ordered(events, t) && t1 <= t <= t2
    ensures AdmittedBetween(buckets, events, rps, product, addr, t1, t2) * UNIT <= Budget(buckets, addr, rps, t, t2)
    decreases events
  {
    BudgetIsBounded(buckets, addr, rps, t, t2);
    if events != [] {
      var e := events[0];
      if e.at > t2 {
        NothingAfterWindow(Next(buckets, e, rps, product), events[1..], rps, product, addr, t1, t2, e.at);
      } else {
        NextIsSound(buckets, e, rps, product, t);
        BudgetPays(buckets, e, rps, product, addr, t, t2);
        BudgetCoversAdmissions(Next(buckets, e, rps, product), events[1..], rps, product, addr, t1, t2, e.at);
      }
    }
  }

  lemma {:induction false} WindowIsBounded(buckets: map<string, Bucket>, events: seq<Event>, rps: int, product: Product, addr: string,
                                           t1: int, t2: int, t: int)
    requires rps > 0 && Accurate(product) && Sound(buckets, rps, t) && Ordered(events, t) && t <= t1 <= t2
    ensures AdmittedBetween(buckets, events, rps, product, addr, t1, t2) * UNIT <= rps * UNIT + (t2 - t1) * Rate(rps)
    decreases events
  {
    if events == [] || events[0].at >= t1 {
      assert Sound(buckets, rps, t1);
      assert Ordered(events, t1);
      BudgetCoversAdmissions(buckets, events, rps, product, addr, t1, t2, t1);
      BudgetIsBounded(buckets, addr, rps, t1, t2);
    } else {
      NextIsSound(buckets, events[0], rps, product, t);
      WindowIsBounded(Next(buckets, events[0], rps, product), events[1..], rps, product, addr, t1, t2, events[0].at);
    }
  }

  /** In every run of the limiter, whatever other clients and the cleanup do, one address is
      admitted between t1 and t2 at most rps times plus once for every 1/rps seconds between; up to
      the relative error of the product, and without it while rps times the window, in nanoseconds, is
      below 2 to the 50th. */
  lemma AdmissionsAreBounded(events: seq<Event>, rps: int, product: Product, addr: string, t1: int, t2: int, start: int)
    requires rps > 0 && Accurate(product) && Ordered(events, start) && start <= t1 <= t2
    ensures var admitted, n := AdmittedBetween(map[], events, rps, product, addr, t1, t2), (t2 - t1) * rps;
            && admitted * UNIT <= rps * UNIT + n * (PRECISION + 1)
            && (n < PRECISION ==> admitted <= rps + n / SECOND)
  {
    WindowIsBounded(map[], events, rps, product, addr, t1, t2, start);
    RateTimes(t2 - t1, rps);
    WholeTokens(AdmittedBetween(map[], events, rps, product, addr, t1, t2), rps, (t2 - t1) * rps);
  }

  lemma RateTimes(elapsed: int, rps: int)
    requires elapsed >= 0 && rps > 0
    ensures elapsed * Rate(rps) == elapsed * rps * (PRECISION + 1) && elapsed * rps >= 0
  {
    ProductOrder(0, elapsed, rps);
  }

  lemma WholeTokens(admitted: int, rps: int, n: int)
    requires n >= 0 && admitted * UNIT <= rps * UNIT + n * (PRECISION + 1)
    ensures n < PRECISION ==> admitted <= rps + n / SECOND
  {
    if n < PRECISION {
      var tokens := admitted - rps;
      assert tokens * SECOND * PRECISION < (n + 1) * PRECISION;
      assert tokens * SECOND <= n;
    }
  }

  // ---------- Starving and thriving ----------

  /** Each request of the address comes so soon after the one before that it earns no whole token. */
  ghost predicate ComesTooSoon(events: seq<Event>, addr: string, last: int, rps: int, product: Product)
    decreases events
  {
    events != [] ==>
      if events[0].Request? && events[0].addr == addr
      then Truncate(product(events[0].at - last, rps)) == 0 && ComesTooSoon(events[1..], addr, events[0].at, rps, product)
      else ComesTooSoon(events[1..], addr, last, rps, product)
  }

  /** Fractions of a token are dropped at each request: a gap below 1/rps, less the relative error, earns
      nothing. */
  lemma ShortGapEarnsNothing(gap: int, rps: int, product: Product)
    requires rps > 0 && Accurate(product) && gap >= 0 && gap * rps * (PRECISION + 1) < UNIT
    ensures Truncate(product(gap, rps)) == 0
  {
    EarnedBounds(gap, rps, product);
  }

  /** The bucket of a client that always comes too soon is there, or is as if full. */
  lemma SoonIsNotIdle(b: Bucket, now: int, rps: int, product: Product)
    requires rps > 0 && Accurate(product) && b.lastFill <= now && Truncate(product(now - b.lastFill, rps)) == 0
    ensures !IsIdle(b, now)
  {
    EarnedBounds(now - b.lastFill, rps, product);
  }

  /** The bucket of the address holds this many tokens, last filled then; unless it has been idle for
      more than a minute, and then it may be gone. */
  ghost predicate Holds(buckets: map<string, Bucket>, addr: string, b: Bucket, t: int) {
    if addr in buckets then buckets[addr] == b else IsIdle(b, t)
  }

  /** A steady client starves: while its requests come too soon, in any run, it is admitted at most as
      often as it had tokens. */
  lemma {:induction false} SteadyClientStarves(buckets: map<string, Bucket>, events: seq<Event>, rps: int, product: Product, addr: string,
                                               b: Bucket, t: int, t1: int, t2: int)
    requires rps > 0 && Accurate(product) && Ordered(events, t) && 0 <= b.tokens <= rps && b.lastFill <= t
    requires Holds(buckets, addr, b, t) && ComesTooSoon(events, addr, b.lastFill, rps, product)
    ensures AdmittedBetween(buckets, events, rps, product, addr, t1, t2) <= b.tokens
    decreases events
  {
    if events != [] {
      var e := events[0];
      var next := Next(buckets, e, rps, product);
      if e.Request? && e.addr == addr {
        SoonIsNotIdle(b, e.at, rps, product);
        var left := if b.tokens > 0 then b.tokens - 1 else 0;
        assert Refilled(b, e.at, rps, product) == b.tokens;
        SteadyClientStarves(next, events[1..], rps, product, addr, Bucket(left, e.at), e.at, t1, t2);
      } else {
        SteadyClientStarves(next, events[1..], rps, product, addr, b, e.at, t1, t2);
      }
    }
  }

  /** So a client that starts afresh and then always comes too soon is admitted at most rps times, over any
      run, however long. */
  lemma NewSteadyClientStarves(events: seq<Event>, rps: int, product: Product, addr: string, t1: int, t2: int)
    requires rps > 0 && Accurate(product) && events != [] && events[0] == Request(addr, events[0].at)
    requires Ordered(events[1..], events[0].at) && ComesTooSoon(events[1..], addr, events[0].at, rps, product)
    ensures AdmittedBetween(map[], events, rps, product, addr, t1, t2) <= rps
  {
    var at := events[0].at;
    var next := Next(map[], events[0], rps, product);
    ShortGapEarnsNothing(0, rps, product);
    assert next == map[addr := Bucket(rps - 1, at)];
    SteadyClientStarves(next, events[1..], rps, product, addr, Bucket(rps - 1, at), at, t1, t2);
  }

  /** The verdicts on the requests of one address, in order. */
  function VerdictsOn(buckets: map<string, Bucket>, events: seq<Event>, rps: int, product: Product, addr: string): seq<bool>
    decreases events
  {
    if events == [] then []
    else
      (if events[0].Request? && events[0].addr == addr then [Serve(buckets, addr, events[0].at, rps, product).1] else [])
      + VerdictsOn(Next(buckets, events[0], rps, product), events[1..], rps, product, addr)
  }

  function RequestsOf(events: seq<Event>, addr: string): nat {
    if events == [] then 0 else (if events[0].Request? && events[0].addr == addr then 1 else 0) + RequestsOf(events[1..], addr)
  }

  /** The first so many are admitted, the others are not. */
  ghost predicate AdmitsFirst(verdicts: seq<bool>, tokens: int) {
    forall i :: 0 <= i < |verdicts| ==> (verdicts[i] <==> i < tokens)
  }

  /** Exactly: while its requests come too soon, in any run, a client with n tokens left has its first n
      requests admitted, and no other. */
  lemma {:induction false} SteadyClientSpends(buckets: map<string, Bucket>, events: seq<Event>, rps: int, product: Product, addr: string,
                                              b: Bucket, t: int)
    requires rps > 0 && Accurate(product) && Ordered(events, t) && 0 <= b.tokens <= rps && b.lastFill <= t
    requires Holds(buckets, addr, b, t) && ComesTooSoon(events, addr, b.lastFill, rps, product)
    ensures |VerdictsOn(buckets, events, rps, product, addr)| == RequestsOf(events, addr)
    ensures AdmitsFirst(VerdictsOn(buckets, events, rps, product, addr), b.tokens)
    decreases events
  {
    if events != [] {
      var e := events[0];
      var next := Next(buckets, e, rps, product);
      if e.Request? && e.addr == addr {
        SoonIsNotIdle(b, e.at, rps, product);
        var left := if b.tokens > 0 then b.tokens - 1 else 0;
        assert Refilled(b, e.at, rps, product) == b.tokens;
        SteadyClientSpends(next, events[1..], rps, product, addr, Bucket(left, e.at), e.at);
        var rest := VerdictsOn(next, events[1..], rps, product, addr);
        assert VerdictsOn(buckets, events, rps, product, addr) == [b.tokens > 0] + rest;
      } else {
        SteadyClientSpends(next, events[1..], rps, product, addr, b, e.at);
        assert VerdictsOn(buckets, events, rps, product, addr) == VerdictsOn(next, events[1..], rps, product, addr);
      }
    }
  }

  /** So of a burst of a new client exactly the first rps requests are admitted. */
  lemma NewClientSpends(events: seq<Event>, rps: int, product: Product, addr: string)
    requires rps > 0 && Accurate(product) && events != [] && events[0] == Request(addr, events[0].at)
    requires Ordered(events[1..], events[0].at) && ComesTooSoon(events[1..], addr, events[0].at, rps, product)
    ensures |VerdictsOn(map[], events, rps, product, addr)| == RequestsOf(events, addr)
    ensures AdmitsFirst(VerdictsOn(map[], events, rps, product, addr), rps)
  {
    var at := events[0].at;
    var next := Next(map[], events[0], rps, product);
    ShortGapEarnsNothing(0, rps, product);
    assert next == map[addr := Bucket(rps - 1, at)];
    SteadyClientSpends(next, events[1..], rps, product, addr, Bucket(rps - 1, at), at);
    assert VerdictsOn(map[], events, rps, product, addr) == [true] + VerdictsOn(next, events[1..], rps, product, addr);
  }

  lemma CloseAbove(x: real, n: int)
    requires n * (PRECISION - 1) >= UNIT && IsClose(x, n as real / SECOND as real)
    ensures x >= 1.0
  {
    var exact, s, p := n as real / SECOND as real, SECOND as real, PRECISION as real;
    DivideTimes(n as real, s);
    DivideTimes(exact, p);
  }

  /** A gap of 1/rps, and the relative error, earns a token. */
  lemma LongGapEarns(gap: int, rps: int, product: Product)
    requires rps > 0 && Accurate(product) && gap >= 0 && gap * rps * (PRECISION - 1) >= UNIT
    ensures Truncate(product(gap, rps)) >= 1
  {
    assert IsClose(product(gap, rps), ExactProduct(gap, rps));
    CloseAbove(product(gap, rps), gap * rps);
  }

  /** Each request of the address leaves such a gap after the one before. */
  ghost predicate LeavesGaps(events: seq<Event>, addr: string, last: int, rps: int)
    decreases events
  {
    events != [] ==>
      if events[0].Request? && events[0].addr == addr
      then (events[0].at - last) * rps * (PRECISION - 1) >= UNIT && LeavesGaps(events[1..], addr, events[0].at, rps)
      else LeavesGaps(events[1..], addr, last, rps)
  }

  function RequestsBetween(events: seq<Event>, addr: string, t1: int, t2: int): nat {
    if events == [] then 0
    else
      (if events[0].Request? && events[0].addr == addr && t1 <= events[0].at <= t2 then 1 else 0) + RequestsBetween(events[1..], addr, t1, t2)
  }

  lemma SpacedRequestIsAdmitted(buckets: map<string, Bucket>, addr: string, last: int, at: int, rps: int, product: Product)
    requires rps > 0 && Accurate(product) && Sound(buckets, rps, at) && last <= at
    requires addr in buckets ==> buckets[addr].lastFill == last
    requires (at - last) * rps * (PRECISION - 1) >= UNIT
    ensures Serve(buckets, addr, at, rps, product).1
  {
    LongGapEarns(at - last, rps, product);
    RefillBounds(BucketOf(buckets, addr, at, rps), at, rps, product);
    EarnedBounds(0, rps, product);
  }

  /** A spaced client thrives: while its requests leave such gaps, in any run, each of them is admitted. */
  lemma {:induction false} SpacedClientThrives(buckets: map<string, Bucket>, events: seq<Event>, rps: int, product: Product, addr: string,
                                               last: int, t: int, t1: int, t2: int)
    requires rps > 0 && Accurate(product) && Ordered(events, t) && Sound(buckets, rps, t) && last <= t
    requires (addr in buckets ==> buckets[addr].lastFill == last) && LeavesGaps(events, addr, last, rps)
    ensures AdmittedBetween(buckets, events, rps, product, addr, t1, t2) == RequestsBetween(events, addr, t1, t2)
    decreases events
  {
    if events != [] {
      var e := events[0];
      var next := Next(buckets, e, rps, product);
      NextIsSound(buckets, e, rps, product, t);
      if e.Request? && e.addr == addr {
        assert Sound(buckets, rps, e.at);
        SpacedRequestIsAdmitted(buckets, addr, last, e.at, rps, product);
        SpacedClientThrives(next, events[1..], rps, product, addr, e.at, e.at, t1, t2);
      } else {
        SpacedClientThrives(next, events[1..], rps, product, addr, last, e.at, t1, t2);
      }
    }
  }

  /** The exact product is accurate. */
  lemma ExactIsAccurate()
    ensures Accurate(ExactProduct)
  {
    forall elapsed, rps | elapsed >= 0 && rps > 0 ensures IsClose(ExactProduct(elapsed, rps), ExactProduct(elapsed, rps)) {
      ProductOrder(0, elapsed, rps);
    }
  }

  /** The evicting limiter against one that never evicts: they differ only in buckets long idle. */
  ghost predicate Mirrors(evicting: map<string, Bucket>, keeping: map<string, Bucket>, t: int) {
    && (forall k :: k in evicting ==> k in keeping && keeping[k] == evicting[k])
    && (forall k :: k in keeping && k !in evicting ==> IsIdle(keeping[k], t))
  }

  lemma MirrorsServeAlike(evicting: map<string, Bucket>, keeping: map<string, Bucket>, addr: string, now: int, rps: int, product: Product)
    requires rps > 0 && Accurate(product) && Sound(keeping, rps, now) && Mirrors(evicting, keeping, now)
    ensures Serve(evicting, addr, now, rps, product).1 == Serve(keeping, addr, now, rps, product).1
    ensures Mirrors(Serve(evicting, addr, now, rps, product).0, Serve(keeping, addr, now, rps, product).0, now)
  {
    if addr in keeping && addr !in evicting {
      RefillBounds(keeping[addr], now, rps, product);
    }
    RefillBounds(BucketOf(evicting, addr, now, rps), now, rps, product);
  }

  lemma {:induction false} MirrorsDecideAlike(evicting: map<string, Bucket>, keeping: map<string, Bucket>, events: seq<Event>, rps: int, product: Product, t: int)
    requires rps > 0 && Accurate(product) && Sound(keeping, rps, t) && Mirrors(evicting, keeping, t) && Ordered(events, t)
    ensures Decisions(evicting, events, rps, product) == Decisions(keeping, Requests(events), rps, product)
    decreases events
  {
    if events != [] {
      var e, rest := events[0], events[1..];
      assert Sound(keeping, rps, e.at) && Mirrors(evicting, keeping, e.at);
      match e
      case Request(addr, at) =>
        MirrorsServeAlike(evicting, keeping, addr, at, rps, product);
        NextIsSound(keeping, e, rps, product, t);
        MirrorsDecideAlike(Next(evicting, e, rps, product), Next(keeping, e, rps, product), rest, rps, product, at);
        assert Requests(events)[1..] == Requests(rest);
      case CleanupTick(at) =>
        MirrorsDecideAlike(Evict(evicting, at), keeping, rest, rps, product, at);
        assert Requests(events) == [] + Requests(rest) == Requests(rest);
        assert Decisions(evicting, events, rps, product) == [] + Decisions(Evict(evicting, at), rest, rps, product);
    }
  }

  /** Evicting idle buckets, whenever it happens, never changes a verdict. */
  lemma EvictionNeverMatters(events: seq<Event>, rps: int, product: Product, start: int)
    requires rps > 0 && Accurate(product) && Ordered(events, start)
    ensures Decisions(map[], events, rps, product) == Decisions(map[], Requests(events), rps, product)
  {
    MirrorsDecideAlike(map[], map[], events, rps, product, start);
  }
}
