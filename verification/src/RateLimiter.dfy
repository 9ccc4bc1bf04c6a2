/**
 The limiter: one bucket per client address, created on first use and swept away once idle.
 Looking a bucket up and charging it is one step.
 */
module RateLimiter {
  import opened TokenBuckets

  const IDLE_LIMIT: real := 600.0

  type Buckets = map<string, Bucket>

  function BucketFor(cfg: Config, m: Buckets, ip: string, now: real): Bucket {
    if ip in m then m[ip] else NewBucket(cfg, now)
  }

  function Swept(m: Buckets, now: real): Buckets {
    map ip | ip in m && !(now - m[ip].lastSeen > IDLE_LIMIT) :: m[ip]
  }

  /** A sweep keeps exactly the buckets used within the last ten minutes, as they are. */
  lemma SweepIsPlain(m: Buckets, now: real)
    ensures forall ip :: ip in Swept(m, now) <==> ip in m && now - m[ip].lastSeen <= 600.0
    ensures forall ip :: ip in Swept(m, now) ==> Swept(m, now)[ip] == m[ip]
  {
  }

  class Limiter {
    var buckets: map<string, TokenBucket>
    const cfg: Config

    /** Different clients have different bucket objects. */
    ghost predicate Valid()
      reads this
    {
      forall i, j :: i in buckets && j in buckets && i != j ==> buckets[i] != buckets[j]
    }

    ghost function View(): Buckets
      reads this, buckets.Values
    {
      map ip | ip in buckets :: buckets[ip].View()
    }

    constructor (rps: real, burst: int)
      ensures Valid() && fresh(buckets.Values)
      ensures cfg == Config(rps, burst as real) && View() == map[]
    {
      buckets := map[];
      cfg := Config(rps, burst as real);
    }

    /** The bucket of the client, created full if it has none. */
    method Get(ip: string, now: real) returns (b: TokenBucket)
      requires Valid()
      modifies this
      ensures Valid() && ip in buckets && buckets[ip] == b
      ensures fresh(buckets.Values - old(buckets.Values))
      ensures View() == old(View())[ip := BucketFor(cfg, old(View()), ip, now)]
    {
      if ip in buckets {
        b := buckets[ip];
      } else {
        b := new TokenBucket(cfg, now);
        assert forall i :: i in buckets ==> buckets[i] in buckets.Values && buckets[i] != b;
        buckets := buckets[ip := b];
      }
    }

    /** One request: look the bucket up, then charge it. */
    method Request(ip: string, now: real) returns (allowed: bool)
      requires Valid()
      modifies this, buckets.Values
      ensures Valid() && fresh(buckets.Values - old(buckets.Values))
      ensures allowed == Allows(BucketFor(cfg, old(View()), ip, now), now)
      ensures View() == old(View())[ip := Charged(BucketFor(cfg, old(View()), ip, now), now)]
    {
      var b := Get(ip, now);
      ghost var before := View();
      assert b.View() == before[ip];
      allowed := b.Allow(now);
      assert forall i :: i in buckets && i != ip ==> buckets[i].View() == before[i];
    }

    /** Deletes every bucket that has not been used for more than ten minutes. */
    method Cleanup(now: real)
      requires Valid()
      modifies this
      ensures Valid() && buckets.Values <= old(buckets.Values)
      ensures View() == Swept(old(View()), now)
    {
      var todo := buckets.Keys;
      while todo != {}
        invariant todo <= old(buckets).Keys
        invariant buckets == map ip | ip in old(buckets)
                                      && (ip in todo || !(now - old(buckets)[ip].lastSeen > IDLE_LIMIT)) :: old(buckets)[ip]
      {
        var ip :| ip in todo;
        todo := todo - {ip};
        if now - buckets[ip].lastSeen > IDLE_LIMIT {
          buckets := buckets - {ip};
        }
      }
      assert forall b :: b in buckets.Values ==> exists ip :: ip in buckets && buckets[ip] == b;
    }
  }

  // ---- runs ----

  datatype Event = Hit(ip: string, at: real) | Sweep(at: real)

  predicate ClockRuns(es: seq<Event>) {
    forall i, j :: 0 <= i <= j < |es| ==> es[i].at <= es[j].at
  }

  /** The buckets after the first n events; without eviction a sweep does nothing. */
  function After(cfg: Config, evict: bool, es: seq<Event>, n: nat): Buckets
    requires n <= |es|
  {
    if n == 0 then map[]
    else
      var m := After(cfg, evict, es, n - 1);
      match es[n - 1]
      case Hit(ip, now) => m[ip := Charged(BucketFor(cfg, m, ip, now), now)]
      case Sweep(now) => if evict then Swept(m, now) else m
  }

  /** The decision on event n, a request. */
  function Decision(cfg: Config, evict: bool, es: seq<Event>, n: nat): bool
    requires n < |es| && es[n].Hit?
  {
    Allows(BucketFor(cfg, After(cfg, evict, es, n), es[n].ip, es[n].at), es[n].at)
  }

  ghost predicate WellFormed(cfg: Config, b: Bucket, now: real) {
    && 0.0 <= b.tokens <= cfg.burst && b.max == cfg.burst && b.refill == cfg.rps
    && b.lastTime == b.lastSeen <= now
  }

  /** The evicting limiter holds the same buckets, except some that the other one has not used for
      more than ten minutes. */
  ghost predicate SameUpToIdle(cfg: Config, evicting: Buckets, keeping: Buckets, now: real) {
    && (forall ip :: ip in evicting ==> ip in keeping && keeping[ip] == evicting[ip])
    && (forall ip :: ip in keeping ==> WellFormed(cfg, keeping[ip], now))
    && (forall ip :: ip in keeping && ip !in evicting ==> now - keeping[ip].lastSeen > IDLE_LIMIT)
  }

  predicate RefillsWhileIdle(cfg: Config) {
    cfg.rps * IDLE_LIMIT >= cfg.burst
  }

  /** After ten idle minutes a bucket is as good as new. */
  lemma IdleBucketIsFull(cfg: Config, b: Bucket, now: real)
    requires Sensible(cfg) && RefillsWhileIdle(cfg)
    requires WellFormed(cfg, b, now) && now - b.lastSeen > IDLE_LIMIT
    ensures Level(b, now) == cfg.burst
  {
    ProductGrows(cfg.rps, IDLE_LIMIT, now - b.lastTime);
    assert Gain(b, now) >= cfg.burst;
  }

  lemma NewBucketIsFull(cfg: Config, now: real)
    ensures Level(NewBucket(cfg, now), now) == cfg.burst
  {
    GainIsRefilled(cfg, NewBucket(cfg, now), now);
  }

  lemma ChargedWellFormed(cfg: Config, b: Bucket, then_: real, now: real)
    requires Sensible(cfg) && WellFormed(cfg, b, then_) && then_ <= now
    ensures WellFormed(cfg, Charged(b, now), now)
  {
    LevelNotNegative(b, now);
  }

  /** Both limiters charge the same level on a request. */
  lemma RequestAgrees(cfg: Config, evicting: Buckets, keeping: Buckets, ip: string, last: real, now: real)
    requires Sensible(cfg) && RefillsWhileIdle(cfg)
    requires SameUpToIdle(cfg, evicting, keeping, last) && last <= now
    ensures Level(BucketFor(cfg, evicting, ip, now), now) == Level(BucketFor(cfg, keeping, ip, now), now)
    ensures Charged(BucketFor(cfg, evicting, ip, now), now) == Charged(BucketFor(cfg, keeping, ip, now), now)
    ensures WellFormed(cfg, Charged(BucketFor(cfg, keeping, ip, now), now), now)
  {
    if ip in keeping {
      ChargedWellFormed(cfg, keeping[ip], last, now);
      if ip !in evicting {
        IdleBucketIsFull(cfg, keeping[ip], now);
        NewBucketIsFull(cfg, now);
      }
    } else {
      ChargedWellFormed(cfg, NewBucket(cfg, now), now, now);
    }
  }

  lemma TimePasses(cfg: Config, evicting: Buckets, keeping: Buckets, last: real, now: real)
    requires SameUpToIdle(cfg, evicting, keeping, last) && last <= now
    ensures SameUpToIdle(cfg, evicting, keeping, now)
  {
  }

  lemma {:induction false} LimitersStayAlike(cfg: Config, es: seq<Event>, n: nat)
    requires Sensible(cfg) && RefillsWhileIdle(cfg) && ClockRuns(es) && n <= |es|
    ensures n == 0 ==> After(cfg, true, es, 0) == After(cfg, false, es, 0) == map[]
    ensures n > 0 ==> SameUpToIdle(cfg, After(cfg, true, es, n), After(cfg, false, es, n), es[n - 1].at)
  {
    if n == 0 {
    } else {
      LimitersStayAlike(cfg, es, n - 1);
      var a, b := After(cfg, true, es, n - 1), After(cfg, false, es, n - 1);
      var now := es[n - 1].at;
      var last := if n == 1 then now else es[n - 2].at;
      assert SameUpToIdle(cfg, a, b, last);
      TimePasses(cfg, a, b, last, now);
      if es[n - 1].Hit? {
        RequestAgrees(cfg, a, b, es[n - 1].ip, now, now);
      }
    }
  }

  /** Eviction is invisible: every request of every run gets the same answer as without it. */
  lemma EvictionIsInvisible(cfg: Config, es: seq<Event>, n: nat)
    requires Sensible(cfg) && cfg.rps * 600.0 >= cfg.burst && ClockRuns(es)
    requires n < |es| && es[n].Hit?
    ensures Decision(cfg, true, es, n) == Decision(cfg, false, es, n)
  {
    LimitersStayAlike(cfg, es, n);
    var last := if n == 0 then es[n].at else es[n - 1].at;
    RequestAgrees(cfg, After(cfg, true, es, n), After(cfg, false, es, n), es[n].ip, last, es[n].at);
  }

  // ---- the same client limited by one bucket ----

  /** The times of the requests of one client among the first n events. */
  function TimesOf(es: seq<Event>, ip: string, n: nat): seq<real>
    requires n <= |es|
  {
    if n == 0 then []
    else TimesOf(es, ip, n - 1) + if es[n - 1].Hit? && es[n - 1].ip == ip then [es[n - 1].at] else []
  }

  lemma {:induction false} TimesAreOrdered(es: seq<Event>, ip: string, n: nat)
    requires ClockRuns(es) && n <= |es|
    ensures Ordered(TimesOf(es, ip, n))
    ensures forall i :: 0 <= i < |TimesOf(es, ip, n)| ==> n > 0 && TimesOf(es, ip, n)[i] <= es[n - 1].at
  {
    if n == 0 {
    } else {
      TimesAreOrdered(es, ip, n - 1);
      if n > 1 {
        assert es[n - 2].at <= es[n - 1].at;
      }
    }
  }

  /** Serving depends only on the requests already made. */
  lemma {:induction false} ServedPrefix(cfg: Config, ts: seq<real>, us: seq<real>, k: nat)
    requires ts != [] && ts <= us && k <= |ts|
    ensures Served(cfg, ts, k) == Served(cfg, us, k)
  {
    if k == 0 {
    } else {
      ServedPrefix(cfg, ts, us, k - 1);
    }
  }

  lemma ServedAppend(cfg: Config, ts: seq<real>, t: real)
    requires ts != []
    ensures Served(cfg, ts + [t], |ts| + 1) == Charged(Served(cfg, ts, |ts|), t)
  {
    ServedPrefix(cfg, ts, ts + [t], |ts|);
  }

  /** The client has the bucket that the requests ts produce, or none without requests. */
  predicate HasBucketOf(m: map<string, Bucket>, ip: string, cfg: Config, ts: seq<real>) {
    if ts == [] then ip !in m else ip in m && m[ip] == Served(cfg, ts, |ts|)
  }

  lemma EventKeepsBucketOf(cfg: Config, es: seq<Event>, ip: string, n: nat)
    requires n < |es| && HasBucketOf(After(cfg, false, es, n), ip, cfg, TimesOf(es, ip, n))
    ensures HasBucketOf(After(cfg, false, es, n + 1), ip, cfg, TimesOf(es, ip, n + 1))
  {
    var before, ts := TimesOf(es, ip, n), TimesOf(es, ip, n + 1);
    if es[n].Hit? && es[n].ip == ip {
      var t := es[n].at;
      assert ts == before + [t];
      if before != [] {
        ServedAppend(cfg, before, t);
      }
    } else {
      assert ts == before;
    }
  }

  /** Without eviction a client's bucket is the one its own requests alone produce. */
  lemma {:induction false} BucketOfClient(cfg: Config, es: seq<Event>, ip: string, n: nat)
    requires n <= |es|
    ensures HasBucketOf(After(cfg, false, es, n), ip, cfg, TimesOf(es, ip, n))
  {
    if n == 0 {
    } else {
      BucketOfClient(cfg, es, ip, n - 1);
      EventKeepsBucketOf(cfg, es, ip, n - 1);
    }
  }

  /** The decision of the whole limiter, eviction included, is the decision of that one bucket. */
  lemma LimiterDecidesPerClient(cfg: Config, es: seq<Event>, n: nat)
    requires Sensible(cfg) && cfg.rps * 600.0 >= cfg.burst && ClockRuns(es)
    requires n < |es| && es[n].Hit?
    ensures var before := TimesOf(es, es[n].ip, n);
            Decision(cfg, true, es, n) == Admits(cfg, before + [es[n].at], |before|)
  {
    EvictionIsInvisible(cfg, es, n);
    BucketOfClient(cfg, es, es[n].ip, n);
    var before := TimesOf(es, es[n].ip, n);
    if before != [] {
      ServedPrefix(cfg, before, before + [es[n].at], |before|);
    }
  }

  /** The client's requests of a run, admitted or not, in order. */
  function AnswersTo(cfg: Config, es: seq<Event>, ip: string, n: nat): seq<bool>
    requires n <= |es|
  {
    if n == 0 then []
    else AnswersTo(cfg, es, ip, n - 1) +
         if es[n - 1].Hit? && es[n - 1].ip == ip then [Decision(cfg, true, es, n - 1)] else []
  }

  lemma {:induction false} AnswersAreDecisions(cfg: Config, es: seq<Event>, ip: string, n: nat)
    requires Sensible(cfg) && RefillsWhileIdle(cfg) && ClockRuns(es) && n <= |es|
    ensures AnswersTo(cfg, es, ip, n) == Decisions(cfg, TimesOf(es, ip, n))
  {
    if n == 0 {
    } else {
      AnswersAreDecisions(cfg, es, ip, n - 1);
      var before, ts := TimesOf(es, ip, n - 1), TimesOf(es, ip, n);
      forall k | 0 <= k < |before|
        ensures Admits(cfg, before, k) == Admits(cfg, ts, k)
      {
        ServedPrefix(cfg, before, ts, k);
      }
      if es[n - 1].Hit? && es[n - 1].ip == ip {
        LimiterDecidesPerClient(cfg, es, n - 1);
      }
    }
  }

  /** In every run of the limiter, eviction included, each client gets at most burst + rps * T
      requests through in any window of length T. */
  lemma LimiterRateBound(cfg: Config, es: seq<Event>, ip: string, i: nat, j: nat, T: real)
    requires Sensible(cfg) && cfg.rps * 600.0 >= cfg.burst && ClockRuns(es) && T >= 0.0
    requires i <= j <= |TimesOf(es, ip, |es|)|
    requires i < j ==> TimesOf(es, ip, |es|)[j - 1] - TimesOf(es, ip, |es|)[i] <= T
    ensures |AnswersTo(cfg, es, ip, |es|)| == |TimesOf(es, ip, |es|)|
    ensures Count(AnswersTo(cfg, es, ip, |es|), i, j) as real <= cfg.burst + cfg.rps * T
  {
    AnswersAreDecisions(cfg, es, ip, |es|);
    TimesAreOrdered(es, ip, |es|);
    RateBound(cfg, TimesOf(es, ip, |es|), i, j, T);
  }

  // ---- without the condition, eviction shows ----

  /** n requests of one client at the same instant. */
  function Burst(ip: string, at: real, n: nat): seq<Event> {
    seq(n, _ => Hit(ip, at))
  }

  /** In a burst at one instant, request number k (from 0) is admitted exactly when the first level
      covers k + 1 tokens. */
  lemma {:induction false} BurstDrains(cfg: Config, evict: bool, es: seq<Event>, start: nat, k: nat, ip: string, at: real)
    requires start + k < |es| && forall i :: start <= i <= start + k ==> es[i] == Hit(ip, at)
    ensures var level := Level(BucketFor(cfg, After(cfg, evict, es, start), ip, at), at);
            var now := BucketFor(cfg, After(cfg, evict, es, start + k), ip, at);
            && (level <= BucketFor(cfg, After(cfg, evict, es, start), ip, at).max && level >= k as real ==>
                  Level(now, at) == level - k as real
                  && (Decision(cfg, evict, es, start + k) <==> level >= k as real + 1.0)
                  && now.max == BucketFor(cfg, After(cfg, evict, es, start), ip, at).max)
  {
    if k == 0 {
    } else {
      BurstDrains(cfg, evict, es, start, k - 1, ip, at);
      var b := BucketFor(cfg, After(cfg, evict, es, start + k - 1), ip, at);
      assert es[start + k - 1] == Hit(ip, at);
      assert BucketFor(cfg, After(cfg, evict, es, start + k), ip, at) == Charged(b, at);
      NoTimeNoGain(Charged(b, at));
    }
  }

  lemma NoTimeNoGain(b: Bucket)
    ensures Gain(b, b.lastTime) == 0.0
  {
  }

  /** Just over ten minutes are not always enough to refill the bucket. */
  lemma StillRefilling(cfg: Config) returns (T: real)
    requires Sensible(cfg) && !RefillsWhileIdle(cfg)
    ensures IDLE_LIMIT < T <= 3.0 * SWEEP_EVERY && cfg.rps * T < cfg.burst
  {
    var gap := cfg.burst - cfg.rps * IDLE_LIMIT;
    if cfg.rps == 0.0 {
      T := IDLE_LIMIT + 1.0;
    } else {
      var extra := gap / (2.0 * cfg.rps);
      assert cfg.rps * extra == gap / 2.0;
      if extra > SWEEP_EVERY {
        assert cfg.rps * SWEEP_EVERY <= cfg.rps * extra;
        extra := SWEEP_EVERY;
      }
      T := IDLE_LIMIT + extra;
      assert cfg.rps * T == cfg.rps * IDLE_LIMIT + cfg.rps * extra;
    }
  }

  /** The state of the client after its first burst, which empties the bucket. */
  lemma EmptiedBucket(cfg: Config, evict: bool, es: seq<Event>, n: nat, ip: string, at: real)
    requires Sensible(cfg) && cfg.burst == n as real && n > 0 && n < |es|
    requires forall i :: 0 <= i < n ==> es[i] == Hit(ip, at)
    ensures var m := After(cfg, evict, es, n);
            ip in m && m[ip] == Bucket(0.0, cfg.burst, cfg.rps, at, at)
  {
    NewBucketIsFull(cfg, at);
    BurstDrains(cfg, evict, es, 0, n - 1, ip, at);
    BurstKeepsRate(cfg, evict, es, n - 1, ip, at);
  }

  lemma {:induction false} BurstKeepsRate(cfg: Config, evict: bool, es: seq<Event>, n: nat, ip: string, at: real)
    requires n < |es| && forall i :: 0 <= i < n ==> es[i] == Hit(ip, at)
    ensures var b := BucketFor(cfg, After(cfg, evict, es, n), ip, at); b.max == cfg.burst && b.refill == cfg.rps
  {
    if n == 0 {
    } else {
      BurstKeepsRate(cfg, evict, es, n - 1, ip, at);
    }
  }

  // ---- the ticker ----

  const SWEEP_EVERY: real := 300.0

  function SweepsAmong(es: seq<Event>, n: nat): nat
    requires n <= |es|
  {
    if n == 0 then 0 else SweepsAmong(es, n - 1) + if es[n - 1].Sweep? then 1 else 0
  }

  /** The limiter sweeps every five minutes after its start, and never misses a sweep. */
  predicate SweepsOnTick(es: seq<Event>) {
    forall i :: 0 <= i < |es| ==>
                  if es[i].Sweep? then es[i].at == 300.0 * (SweepsAmong(es, i) + 1) as real
                  else es[i].at <= 300.0 * (SweepsAmong(es, i) + 1) as real
  }

  /** Drain the bucket before the first sweep, come back after the third. */
  function DrainAndReturn(n: nat, at: real, ip: string): seq<Event> {
    Burst(ip, at, n) + [Sweep(SWEEP_EVERY), Sweep(2.0 * SWEEP_EVERY), Sweep(3.0 * SWEEP_EVERY)]
    + Burst(ip, 3.0 * SWEEP_EVERY, n)
  }

  lemma {:induction false} SweepsOfRun(n: nat, at: real, ip: string, k: nat)
    requires k <= 2 * n + 3
    ensures SweepsAmong(DrainAndReturn(n, at, ip), k) == if k <= n then 0 else if k <= n + 3 then k - n else 3
  {
    if k == 0 {
    } else {
      SweepsOfRun(n, at, ip, k - 1);
    }
  }

  lemma RunTicks(n: nat, at: real, ip: string)
    requires 0.0 <= at <= SWEEP_EVERY
    ensures ClockRuns(DrainAndReturn(n, at, ip)) && SweepsOnTick(DrainAndReturn(n, at, ip))
  {
    forall k: nat | k < 2 * n + 3 {
      SweepsOfRun(n, at, ip, k);
    }
  }

  /** A client that was swept finds a full bucket when it comes back. */
  lemma LevelWithEviction(cfg: Config, n: nat, T: real, ip: string)
    requires Sensible(cfg) && cfg.burst == n as real && n > 0 && IDLE_LIMIT < T <= 3.0 * SWEEP_EVERY
    ensures var es := DrainAndReturn(n, 3.0 * SWEEP_EVERY - T, ip);
            var b := BucketFor(cfg, After(cfg, true, es, n + 3), ip, 3.0 * SWEEP_EVERY);
            Level(b, 3.0 * SWEEP_EVERY) == cfg.burst && b.max == cfg.burst
  {
    var at := 3.0 * SWEEP_EVERY - T;
    EmptiedBucket(cfg, true, DrainAndReturn(n, at, ip), n, ip, at);
    AfterThreeSweeps(cfg, n, at, ip, true);
    NewBucketIsFull(cfg, 3.0 * SWEEP_EVERY);
  }

  /** Without eviction it finds what T seconds have refilled. */
  lemma LevelWithoutEviction(cfg: Config, n: nat, T: real, ip: string)
    requires Sensible(cfg) && cfg.burst == n as real && n > 0 && IDLE_LIMIT < T <= 3.0 * SWEEP_EVERY
    requires 0.0 <= Refilled(cfg, T) < cfg.burst
    ensures var es := DrainAndReturn(n, 3.0 * SWEEP_EVERY - T, ip);
            var b := BucketFor(cfg, After(cfg, false, es, n + 3), ip, 3.0 * SWEEP_EVERY);
            Level(b, 3.0 * SWEEP_EVERY) == Refilled(cfg, T) && b.max == cfg.burst
  {
    var at := 3.0 * SWEEP_EVERY - T;
    EmptiedBucket(cfg, false, DrainAndReturn(n, at, ip), n, ip, at);
    AfterThreeSweeps(cfg, n, at, ip, false);
    GainIsRefilled(cfg, Bucket(0.0, cfg.burst, cfg.rps, at, at), 3.0 * SWEEP_EVERY);
  }

  /** Only the third sweep finds the client idle for long enough. */
  lemma AfterThreeSweeps(cfg: Config, n: nat, at: real, ip: string, evict: bool)
    requires 0.0 <= at < 3.0 * SWEEP_EVERY - IDLE_LIMIT
    requires var es := DrainAndReturn(n, at, ip); var m := After(cfg, evict, es, n); ip in m && m[ip].lastSeen == at
    ensures var es := DrainAndReturn(n, at, ip); var m, m' := After(cfg, evict, es, n), After(cfg, evict, es, n + 3);
            if evict then ip !in m' else m' == m
  {
    var es := DrainAndReturn(n, at, ip);
    assert es[n] == Sweep(SWEEP_EVERY) && es[n + 1] == Sweep(2.0 * SWEEP_EVERY) && es[n + 2] == Sweep(3.0 * SWEEP_EVERY);
    var m, m1 := After(cfg, evict, es, n), After(cfg, evict, es, n + 1);
    assert ip in m1 && m1[ip] == m[ip];
    var m2 := After(cfg, evict, es, n + 2);
    assert ip in m2 && m2[ip] == m[ip];
  }

  lemma AnswersDiffer(cfg: Config, n: nat, T: real, ip: string) returns (k: nat)
    requires Sensible(cfg) && cfg.burst == n as real && n > 0
    requires IDLE_LIMIT < T <= 3.0 * SWEEP_EVERY && 0.0 <= Refilled(cfg, T) < cfg.burst
    ensures var es := DrainAndReturn(n, 3.0 * SWEEP_EVERY - T, ip);
            k < |es| && es[k].Hit? && Decision(cfg, true, es, k) != Decision(cfg, false, es, k)
  {
    var es, now := DrainAndReturn(n, 3.0 * SWEEP_EVERY - T, ip), 3.0 * SWEEP_EVERY;
    LevelWithEviction(cfg, n, T, ip);
    LevelWithoutEviction(cfg, n, T, ip);
    var whole := Refilled(cfg, T).Floor;
    k := n + 3 + whole;
    BurstDrains(cfg, true, es, n + 3, whole, ip, now);
    BurstDrains(cfg, false, es, n + 3, whole, ip, now);
  }

  /** If a bucket does not refill within ten minutes, some run with its sweeps every five minutes gets
      different answers with and without eviction: drain the bucket, wait until it is swept, and come
      back with another burst. */
  lemma EvictionShowsOtherwise(cfg: Config, n: nat)
    requires Sensible(cfg) && cfg.rps * 600.0 < cfg.burst && cfg.burst == n as real
    ensures exists es: seq<Event>, k ::
              && ClockRuns(es) && SweepsOnTick(es)
              && 0 <= k < |es| && es[k].Hit? && Decision(cfg, true, es, k) != Decision(cfg, false, es, k)
  {
    ProductGrows(cfg.rps, 0.0, IDLE_LIMIT);
    var T := StillRefilling(cfg);
    RefilledGrows(cfg, 0.0, T);
    RunTicks(n, 3.0 * SWEEP_EVERY - T, "client");
    var k := AnswersDiffer(cfg, n, T, "client");
  }

  // Ten requests a second, bursts of thirty.
  const GATEWAY: Config := Config(10.0, 30.0)

  /** With the gateway's own settings eviction changes no answer. */
  lemma GatewayEvictsInvisibly(es: seq<Event>, n: nat)
    requires ClockRuns(es) && n < |es| && es[n].Hit?
    ensures Decision(GATEWAY, true, es, n) == Decision(GATEWAY, false, es, n)
  {
    EvictionIsInvisible(GATEWAY, es, n);
  }
}
