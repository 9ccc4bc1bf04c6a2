/**
 The token bucket of one client. Times are seconds and tokens are reals; float rounding is not
 modelled.
 */
module TokenBuckets {
  datatype Bucket = Bucket(tokens: real, max: real, refill: real, lastTime: real, lastSeen: real)

  // Tokens per second and bucket size of a limiter.
  datatype Config = Config(rps: real, burst: real)

  predicate Sensible(cfg: Config) {
    cfg.rps >= 0.0 && cfg.burst >= 0.0
  }

  function NewBucket(cfg: Config, now: real): Bucket {
    Bucket(cfg.burst, cfg.burst, cfg.rps, now, now)
  }

  function Cap(x: real, max: real): real {
    if x > max then max else x
  }

  function Gain(b: Bucket, now: real): real {
    (now - b.lastTime) * b.refill
  }

  /** The level after refilling up to `now`, capped. */
  function Level(b: Bucket, now: real): real {
    Cap(b.tokens + Gain(b, now), b.max)
  }

  function Allows(b: Bucket, now: real): bool {
    Level(b, now) >= 1.0
  }

  function Charged(b: Bucket, now: real): Bucket {
    Bucket(Level(b, now) - if Allows(b, now) then 1.0 else 0.0, b.max, b.refill, now, now)
  }

  class TokenBucket {
    var tokens: real
    var max: real
    var refill: real
    var lastTime: real
    var lastSeen: real

    ghost function View(): Bucket
      reads this
    {
      Bucket(tokens, max, refill, lastTime, lastSeen)
    }

    constructor (cfg: Config, now: real)
      ensures View() == NewBucket(cfg, now)
    {
      tokens := cfg.burst;
      max := cfg.burst;
      refill := cfg.rps;
      lastTime := now;
      lastSeen := now;
    }

    /** Refills, caps, then takes one token if there is one. */
    method Allow(now: real) returns (ok: bool)
      modifies this
      ensures ok == Allows(old(View()), now)
      ensures View() == Charged(old(View()), now)
    {
      ghost var before := View();
      var elapsed := now - lastTime;
      lastTime := now;
      lastSeen := now;
      tokens := tokens + elapsed * refill;
      assert tokens == before.tokens + Gain(before, now);
      if tokens > max {
        tokens := max;
      }
      assert tokens == Level(before, now);
      if tokens < 1.0 {
        return false;
      }
      tokens := tokens - 1.0;
      ok := true;
    }
  }

  // ---- a client's requests, one after another ----

  predicate Ordered(ts: seq<real>) {
    forall i, j :: 0 <= i <= j < |ts| ==> ts[i] <= ts[j]
  }

  /** The bucket of a client that was unknown before its first request, after k requests. */
  function Served(cfg: Config, ts: seq<real>, k: nat): Bucket
    requires k <= |ts| && ts != []
  {
    if k == 0 then NewBucket(cfg, ts[0]) else Charged(Served(cfg, ts, k - 1), ts[k - 1])
  }

  /** The decision on request k. */
  function Admits(cfg: Config, ts: seq<real>, k: nat): bool
    requires k < |ts|
  {
    Allows(Served(cfg, ts, k), ts[k])
  }

  /** What a window of this length may admit. */
  function Budget(cfg: Config, length: real): real {
    cfg.burst + cfg.rps * length
  }

  /** Tokens refilled since time zero. */
  function Refilled(cfg: Config, t: real): real {
    cfg.rps * t
  }

  // ---- the only facts about products that are used ----

  lemma ProductGrows(r: real, a: real, b: real)
    requires r >= 0.0 && a <= b
    ensures r * a <= r * b
  {
    assert r * (b - a) >= 0.0;
    assert r * (b - a) == r * b - r * a;
  }

  lemma RefilledGrows(cfg: Config, a: real, b: real)
    requires Sensible(cfg) && a <= b
    ensures Refilled(cfg, a) <= Refilled(cfg, b)
  {
    ProductGrows(cfg.rps, a, b);
  }

  lemma BudgetGrows(cfg: Config, a: real, b: real)
    requires Sensible(cfg) && a <= b
    ensures Budget(cfg, a) <= Budget(cfg, b)
    ensures Budget(cfg, 0.0) == cfg.burst
  {
    ProductGrows(cfg.rps, a, b);
  }

  lemma GainIsRefilled(cfg: Config, b: Bucket, now: real)
    requires b.refill == cfg.rps
    ensures Gain(b, now) == Refilled(cfg, now) - Refilled(cfg, b.lastTime)
  {
  }

  lemma BudgetIsRefilled(cfg: Config, from: real, to: real)
    ensures Budget(cfg, to - from) == cfg.burst + (Refilled(cfg, to) - Refilled(cfg, from))
  {
  }

  lemma GainNotNegative(b: Bucket, now: real)
    requires b.refill >= 0.0 && b.lastTime <= now
    ensures 0.0 <= Gain(b, now)
  {
    ProductGrows(b.refill, 0.0, now - b.lastTime);
    assert (now - b.lastTime) * b.refill >= 0.0;
  }

  // ---- the bucket on a clock that counts refilled tokens ----

  function Cost(ok: bool): real {
    if ok then 1.0 else 0.0
  }

  /** Levels of a bucket that starts full: c is the refill clock, ok the decisions. */
  ghost predicate LevelRun(levels: seq<real>, c: seq<real>, ok: seq<bool>, max: real) {
    && |levels| == |c| == |ok|
    && (levels != [] ==> levels[0] == max)
    && (forall k :: 0 <= k < |ok| ==> (ok[k] <==> levels[k] >= 1.0))
    && (forall k :: 0 < k < |ok| ==> levels[k] == Cap(levels[k - 1] - Cost(ok[k - 1]) + (c[k] - c[k - 1]), max))
    && (forall k :: 0 < k < |ok| ==> c[k - 1] <= c[k])
  }

  function Count(ok: seq<bool>, i: nat, j: nat): nat
    requires i <= j <= |ok|
    decreases j
  {
    if i == j then 0 else Count(ok, i, j - 1) + if ok[j - 1] then 1 else 0
  }

  /** What the window that starts with request i leaves for request k: its budget minus what was spent. */
  function Headroom(c: seq<real>, ok: seq<bool>, max: real, i: nat, k: nat): real
    requires i <= k < |c| == |ok|
  {
    max + (c[k] - c[i]) - Count(ok, i, k) as real
  }

  /** The level seen by request k is the least headroom over all windows that end with it. */
  lemma {:induction false} LevelIsLeastHeadroom(levels: seq<real>, c: seq<real>, ok: seq<bool>, max: real, k: nat)
    returns (tight: nat)
    requires LevelRun(levels, c, ok, max) && k < |ok|
    ensures tight <= k && levels[k] == Headroom(c, ok, max, tight, k)
    ensures forall i :: 0 <= i <= k ==> levels[k] <= Headroom(c, ok, max, i, k)
  {
    if k == 0 {
      tight := 0;
    } else {
      tight := LevelIsLeastHeadroom(levels, c, ok, max, k - 1);
      forall i | 0 <= i < k
        ensures Headroom(c, ok, max, i, k) == Headroom(c, ok, max, i, k - 1) - Cost(ok[k - 1]) + (c[k] - c[k - 1])
      {
      }
      assert Headroom(c, ok, max, k, k) == max;
      if levels[k - 1] - Cost(ok[k - 1]) + (c[k] - c[k - 1]) > max {
        tight := k;
      }
    }
  }

  // ---- back to requests in real time ----

  lemma {:induction false} TokensInRange(cfg: Config, ts: seq<real>, k: nat)
    requires Sensible(cfg) && Ordered(ts) && k <= |ts| && ts != []
    ensures var b := Served(cfg, ts, k);
            && 0.0 <= b.tokens <= b.max && b.max == cfg.burst && b.refill == cfg.rps
            && b.lastTime == b.lastSeen == if k == 0 then ts[0] else ts[k - 1]
  {
    if k == 0 {
    } else {
      TokensInRange(cfg, ts, k - 1);
      LevelNotNegative(Served(cfg, ts, k - 1), ts[k - 1]);
    }
  }

  lemma LevelNotNegative(b: Bucket, now: real)
    requires b.tokens >= 0.0 && b.max >= 0.0 && b.refill >= 0.0 && b.lastTime <= now
    ensures 0.0 <= Level(b, now) <= b.max
  {
    GainNotNegative(b, now);
  }

  function RefillClock(cfg: Config, ts: seq<real>): seq<real> {
    seq(|ts|, k requires 0 <= k < |ts| => Refilled(cfg, ts[k]))
  }

  function Levels(cfg: Config, ts: seq<real>): seq<real> {
    seq(|ts|, k requires 0 <= k < |ts| => Level(Served(cfg, ts, k), ts[k]))
  }

  function Decisions(cfg: Config, ts: seq<real>): seq<bool> {
    seq(|ts|, k requires 0 <= k < |ts| => Admits(cfg, ts, k))
  }

  lemma RequestsAreLevelRun(cfg: Config, ts: seq<real>)
    requires Sensible(cfg) && Ordered(ts)
    ensures LevelRun(Levels(cfg, ts), RefillClock(cfg, ts), Decisions(cfg, ts), cfg.burst)
  {
    if ts != [] {
      GainIsRefilled(cfg, Served(cfg, ts, 0), ts[0]);
    }
    forall k | 0 < k < |ts|
      ensures Level(Served(cfg, ts, k), ts[k]) ==
              Cap(Level(Served(cfg, ts, k - 1), ts[k - 1]) - Cost(Admits(cfg, ts, k - 1))
                  + (Refilled(cfg, ts[k]) - Refilled(cfg, ts[k - 1])), cfg.burst)
      ensures Refilled(cfg, ts[k - 1]) <= Refilled(cfg, ts[k])
    {
      TokensInRange(cfg, ts, k);
      GainIsRefilled(cfg, Served(cfg, ts, k), ts[k]);
      RefilledGrows(cfg, ts[k - 1], ts[k]);
    }
  }

  /** The bucket is the greedy limiter: a request is admitted exactly when admitting it keeps every
      window that ends with it within its budget, burst + rps * length. */
  lemma {:induction false} AdmitsExactlyWithinBudget(cfg: Config, ts: seq<real>, k: nat)
    requires Sensible(cfg) && Ordered(ts) && k < |ts|
    ensures Admits(cfg, ts, k) <==>
            forall i :: 0 <= i <= k ==> Count(Decisions(cfg, ts), i, k) as real + 1.0 <= Budget(cfg, ts[k] - ts[i])
  {
    RequestsAreLevelRun(cfg, ts);
    var c, ok := RefillClock(cfg, ts), Decisions(cfg, ts);
    var tight := LevelIsLeastHeadroom(Levels(cfg, ts), c, ok, cfg.burst, k);
    forall i | 0 <= i <= k
      ensures Headroom(c, ok, cfg.burst, i, k) == Budget(cfg, ts[k] - ts[i]) - Count(ok, i, k) as real
    {
      BudgetIsRefilled(cfg, ts[i], ts[k]);
    }
  }

  /** The budget of a window: the burst and what is refilled over its length. */
  lemma BudgetIsPlain(cfg: Config, length: real)
    ensures Budget(cfg, length) == cfg.burst + cfg.rps * length
  {
  }

  /** Over any window of length T, at most burst + rps * T requests are admitted. */
  lemma RateBound(cfg: Config, ts: seq<real>, i: nat, j: nat, T: real)
    requires Sensible(cfg) && Ordered(ts) && i <= j <= |ts| && T >= 0.0
    requires i < j ==> ts[j - 1] - ts[i] <= T
    ensures Count(Decisions(cfg, ts), i, j) as real <= cfg.burst + cfg.rps * T
  {
    WindowWithinBudget(cfg, ts, i, j, T);
    BudgetIsPlain(cfg, T);
  }

  lemma {:induction false} WindowWithinBudget(cfg: Config, ts: seq<real>, i: nat, j: nat, T: real)
    requires Sensible(cfg) && Ordered(ts) && i <= j <= |ts| && T >= 0.0
    requires i < j ==> ts[j - 1] - ts[i] <= T
    ensures Count(Decisions(cfg, ts), i, j) as real <= Budget(cfg, T)
    decreases j
  {
    if i == j {
      BudgetGrows(cfg, 0.0, T);
    } else if Admits(cfg, ts, j - 1) {
      AdmitsExactlyWithinBudget(cfg, ts, j - 1);
      BudgetGrows(cfg, ts[j - 1] - ts[i], T);
    } else {
      WindowWithinBudget(cfg, ts, i, j - 1, T);
    }
  }
}
