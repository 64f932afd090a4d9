/** The token bucket: what one check does, what any run of checks can admit, and when deleting an idle bucket is
    unobservable. Amounts and clock readings are reals. */
module RateLimit {
  import opened Prelude

  datatype Policy = Policy(capacity: nat, rate: real) {
    predicate Valid() {
      rate >= 0.0
    }

    function Cap(): real {
      capacity as real
    }

    /** How long an idle bucket lives; `int()` truncates a non-negative quotient. */
    function TtlSeconds(): int
    {
      if rate <= 0.0 then 60 else Max(60, (Cap() / rate).Floor + 60)
    }
  }

  datatype Bucket = Bucket(tokens: real, ts: real)

  datatype Verdict = Verdict(allowed: bool, remaining: int, retryAfter: real)

  function Pos(x: real): real {
    if x < 0.0 then 0.0 else x
  }

  function Least(x: real, y: real): real {
    if x <= y then x else y
  }

  /** What flows in during some seconds. */
  function Flow(seconds: real, rate: real): real {
    seconds * rate
  }

  /** The level at `now`, before anything is taken: full when there is no bucket. */
  function Level(b: Option<Bucket>, p: Policy, now: real): real {
    match b
    case None => p.Cap()
    case Some(b) => Least(p.Cap(), b.tokens + Flow(Pos(now - b.ts), p.rate))
  }

  predicate Allowed(b: Option<Bucket>, p: Policy, now: real, cost: nat) {
    Level(b, p, now) >= cost as real
  }

  /** What a check takes out of the bucket. */
  function Taken(b: Option<Bucket>, p: Policy, now: real, cost: nat): real {
    if Allowed(b, p, now, cost) then cost as real else 0.0
  }

  /** The bucket a check leaves behind. */
  function Drained(b: Option<Bucket>, p: Policy, now: real, cost: nat): Bucket {
    Bucket(Level(b, p, now) - Taken(b, p, now, cost), now)
  }

  /** Seconds until a refused cost is covered; -1 when the bucket never refills. */
  function RetryAfter(deficit: real, rate: real): real {
    if rate > 0.0 then deficit / rate else -1.0
  }

  function Check(b: Option<Bucket>, p: Policy, now: real, cost: nat): (Bucket, Verdict) {
    var left := Drained(b, p, now, cost);
    if Allowed(b, p, now, cost) then (left, Verdict(true, left.tokens.Floor, 0.0))
    else (left, Verdict(false, left.tokens.Floor, RetryAfter(cost as real - left.tokens, p.rate)))
  }

  /** One check, spelled out. The level is the capacity without a bucket, and else what the bucket held, raised by the
      rate for the seconds gone by (none when the clock stepped back) and cut at the capacity. A cost within the level
      is let through and taken out; the answer counts the whole tokens left and how long until the cost is covered. */
  lemma CheckExact(b: Option<Bucket>, p: Policy, now: real, cost: nat) returns (level: real)
    ensures b.None? ==> level == p.capacity as real
    ensures b.Some? ==>
              var held := if now <= b.value.ts then b.value.tokens else b.value.tokens + (now - b.value.ts) * p.rate;
              level == if held > p.capacity as real then p.capacity as real else held
    ensures
      var (left, verdict) := Check(b, p, now, cost);
      && (verdict.allowed <==> cost as real <= level)
      && left.ts == now && left.tokens == (if verdict.allowed then level - cost as real else level)
      && verdict.remaining as real <= left.tokens < verdict.remaining as real + 1.0
      && (verdict.allowed ==> verdict.retryAfter == 0.0)
      && (!verdict.allowed && p.rate > 0.0 ==> verdict.retryAfter * p.rate == cost as real - level)
      && (!verdict.allowed && p.rate <= 0.0 ==> verdict.retryAfter == -1.0)
  {
    level := Level(b, p, now);
    LevelExact(b, p, now);
    hide Level, Flow, Least;
    HintExact(cost as real - level, p.rate);
    hide RetryAfter;
  }

  lemma LevelExact(b: Option<Bucket>, p: Policy, now: real)
    ensures b.None? ==> Level(b, p, now) == p.capacity as real
    ensures b.Some? ==>
              var held := if now <= b.value.ts then b.value.tokens else b.value.tokens + (now - b.value.ts) * p.rate;
              Level(b, p, now) == if held > p.capacity as real then p.capacity as real else held
  {
    if b.Some? {
      LevelOf(b.value, p, now);
      hide Level;
      if now <= b.value.ts {
        assert Pos(now - b.value.ts) == 0.0;
        assert 0.0 * p.rate == 0.0;
      } else {
        assert Pos(now - b.value.ts) == now - b.value.ts;
      }
    }
  }

  lemma HintExact(deficit: real, rate: real)
    ensures rate > 0.0 ==> RetryAfter(deficit, rate) * rate == deficit
    ensures rate <= 0.0 ==> RetryAfter(deficit, rate) == -1.0
  {
    if rate > 0.0 {
      MulDivExact(deficit, rate);
    }
  }

  /** An idle bucket lives for the time it takes to refill, in whole seconds, and a minute. */
  lemma TtlExact(p: Policy)
    requires p.Valid()
    ensures p.rate == 0.0 ==> p.TtlSeconds() == 60
    ensures p.rate > 0.0 ==>
              var refill := p.TtlSeconds() - 60;
              refill >= 0 && Flow(refill as real, p.rate) <= p.capacity as real < Flow(refill as real + 1.0, p.rate)
  {
    if p.rate > 0.0 {
      var full := p.Cap() / p.rate;
      assert Flow(full, p.rate) == p.Cap() by { MulDivExact(p.Cap(), p.rate); }
      assert Flow(0.0, p.rate) == 0.0;
      hide Flow;
      FlowGrows(full, 0.0, p.rate);
      FlowGrows(full, full.Floor as real, p.rate);
      FlowGrows(full, full.Floor as real + 1.0, p.rate);
      assert p.TtlSeconds() - 60 == full.Floor;
    }
  }

  datatype Request = Request(now: real, cost: nat)

  /** The bucket after a run of checks that starts without one. */
  function After(p: Policy, reqs: seq<Request>): Option<Bucket>
    decreases |reqs|
  {
    if reqs == [] then None
    else
      var last := reqs[|reqs| - 1];
      Some(Drained(After(p, reqs[..|reqs| - 1]), p, last.now, last.cost))
  }

  predicate Allows(p: Policy, reqs: seq<Request>, now: real, cost: nat) {
    Allowed(After(p, reqs), p, now, cost)
  }

  /** Cost admitted from request number `j` on. */
  function Spent(p: Policy, reqs: seq<Request>, j: nat): real
    decreases |reqs|
  {
    if j >= |reqs| then 0.0
    else
      var before := reqs[..|reqs| - 1];
      var last := reqs[|reqs| - 1];
      Spent(p, before, j) + Taken(After(p, before), p, last.now, last.cost)
  }

  /** Sum of the forward movements of the clock from request number `j` to `now`. */
  function Gain(reqs: seq<Request>, j: nat, now: real): real
    decreases |reqs|
  {
    if j >= |reqs| then 0.0
    else Gain(reqs[..|reqs| - 1], j, reqs[|reqs| - 1].now) + Pos(now - reqs[|reqs| - 1].now)
  }

  /** What the budget of the window opened by request `j` still leaves at `now`. */
  function Headroom(p: Policy, reqs: seq<Request>, j: nat, now: real): real {
    p.Cap() + p.rate * Gain(reqs, j, now) - Spent(p, reqs, j)
  }

  // ---------------------------------------------------------------- the bucket is the tightest window

  lemma LevelOfDrained(b: Option<Bucket>, p: Policy, t: real, cost: nat, now: real)
    ensures Level(Some(Drained(b, p, t, cost)), p, now)
         == Least(p.Cap(), Level(b, p, t) - Taken(b, p, t, cost) + Pos(now - t) * p.rate)
  {
    hide Level;
    LevelOf(Drained(b, p, t, cost), p, now);
  }

  lemma LevelOf(b: Bucket, p: Policy, now: real)
    ensures Level(Some(b), p, now) == Least(p.Cap(), b.tokens + Pos(now - b.ts) * p.rate)
  {
  }

  lemma LevelStep(p: Policy, reqs: seq<Request>, now: real)
    requires reqs != []
    ensures
      var before := reqs[..|reqs| - 1];
      var last := reqs[|reqs| - 1];
      var taken := Taken(After(p, before), p, last.now, last.cost);
      Level(After(p, reqs), p, now)
      == Least(p.Cap(), Level(After(p, before), p, last.now) - taken + Pos(now - last.now) * p.rate)
  {
    hide Level, Taken, Drained;
    LevelOfDrained(After(p, reqs[..|reqs| - 1]), p, reqs[|reqs| - 1].now, reqs[|reqs| - 1].cost, now);
  }

  lemma HeadroomStep(p: Policy, reqs: seq<Request>, j: nat, now: real)
    requires j < |reqs|
    ensures
      var before := reqs[..|reqs| - 1];
      var last := reqs[|reqs| - 1];
      var taken := Taken(After(p, before), p, last.now, last.cost);
      Headroom(p, reqs, j, now) == Headroom(p, before, j, last.now) - taken + Pos(now - last.now) * p.rate
  {
    hide Taken, After, Level;
  }

  lemma {:induction false} LevelBelowHeadroom(p: Policy, reqs: seq<Request>, j: nat, now: real)
    requires j <= |reqs|
    ensures Level(After(p, reqs), p, now) <= Headroom(p, reqs, j, now)
    decreases |reqs|
  {
    if j < |reqs| {
      LevelBelowHeadroom(p, reqs[..|reqs| - 1], j, reqs[|reqs| - 1].now);
      LevelStep(p, reqs, now);
      HeadroomStep(p, reqs, j, now);
    }
  }

  lemma {:induction false} LevelIsSomeHeadroom(p: Policy, reqs: seq<Request>, now: real) returns (j: nat)
    ensures j <= |reqs| && Level(After(p, reqs), p, now) == Headroom(p, reqs, j, now)
    decreases |reqs|
  {
    if reqs == [] {
      j := 0;
    } else {
      var before := reqs[..|reqs| - 1];
      var last := reqs[|reqs| - 1];
      LevelStep(p, reqs, now);
      if Level(After(p, reqs), p, now) == p.Cap() {
        j := |reqs|;
      } else {
        j := LevelIsSomeHeadroom(p, before, last.now);
        HeadroomStep(p, reqs, j, now);
      }
    }
  }

  lemma HeadroomMeans(p: Policy, reqs: seq<Request>, j: nat, now: real, cost: real)
    ensures cost <= Headroom(p, reqs, j, now) <==> Spent(p, reqs, j) + cost <= p.Cap() + p.rate * Gain(reqs, j, now)
  {
    hide Spent, Gain;
  }

  /** The exact meaning of the limiter, whatever the clock does: a request is admitted if and only if no window that
      opens at an earlier request (or at the request itself) and ends here would exceed capacity + rate x elapsed. */
  lemma AdmittedIffEveryWindowFits(p: Policy, reqs: seq<Request>, now: real, cost: nat)
    ensures Allows(p, reqs, now, cost)
            <==> forall j: nat :: j <= |reqs| ==>
                   Spent(p, reqs, j) + cost as real <= p.Cap() + p.rate * Gain(reqs, j, now)
  {
    hide Gain, Spent, After, Level, Headroom;
    if Allows(p, reqs, now, cost) {
      forall j: nat | j <= |reqs|
        ensures Spent(p, reqs, j) + cost as real <= p.Cap() + p.rate * Gain(reqs, j, now)
      {
        LevelBelowHeadroom(p, reqs, j, now);
        HeadroomMeans(p, reqs, j, now, cost as real);
      }
    } else {
      var j := LevelIsSomeHeadroom(p, reqs, now);
      HeadroomMeans(p, reqs, j, now, cost as real);
      assert Spent(p, reqs, j) + cost as real > p.Cap() + p.rate * Gain(reqs, j, now);
    }
  }

  // ---------------------------------------------------------------- bounds over all runs

  /** Tokens stay between empty and full after every run, whatever the clock does. */
  lemma {:induction false} TokensBounded(p: Policy, reqs: seq<Request>)
    requires p.Valid() && reqs != []
    ensures 0.0 <= After(p, reqs).value.tokens <= p.Cap()
    decreases |reqs|
  {
    var before := reqs[..|reqs| - 1];
    if before != [] {
      TokensBounded(p, before);
      var last := reqs[|reqs| - 1];
      var b := After(p, before).value;
      assert Pos(last.now - b.ts) * p.rate >= 0.0;
    }
  }

  lemma LevelAtOnce(p: Policy, reqs: seq<Request>)
    requires p.Valid() && reqs != [] && 0.0 <= After(p, reqs).value.tokens <= p.Cap()
    ensures Level(After(p, reqs), p, reqs[|reqs| - 1].now) == After(p, reqs).value.tokens
  {
    var b := After(p, reqs).value;
    LevelOf(b, p, reqs[|reqs| - 1].now);
    assert b.ts == reqs[|reqs| - 1].now;
    hide Level, After;
    assert Pos(0.0) * p.rate == 0.0;
  }

  /** Over any stretch of any run the admitted cost is at most capacity + rate x the forward clock movement. */
  lemma RateBound(p: Policy, reqs: seq<Request>, j: nat)
    requires p.Valid() && j < |reqs|
    ensures Spent(p, reqs, j) <= p.Cap() + p.rate * Gain(reqs, j, reqs[|reqs| - 1].now)
  {
    hide Gain, Spent, After, Level;
    LevelBelowHeadroom(p, reqs, j, reqs[|reqs| - 1].now);
    TokensBounded(p, reqs);
    LevelAtOnce(p, reqs);
  }

  function Clock(reqs: seq<Request>): seq<real> {
    seq(|reqs|, i requires 0 <= i < |reqs| => reqs[i].now)
  }

  lemma {:induction false} GainIsElapsed(reqs: seq<Request>, j: nat, now: real)
    requires ClockForward(Clock(reqs)) && j < |reqs| && reqs[|reqs| - 1].now <= now
    ensures Gain(reqs, j, now) == now - reqs[j].now
    decreases |reqs|
  {
    var before := reqs[..|reqs| - 1];
    assert Clock(before) == Clock(reqs)[..|before|];
    assert Clock(reqs)[j] == reqs[j].now && Clock(reqs)[|before|] == reqs[|before|].now;
    if j < |before| {
      assert Clock(reqs)[|before| - 1] == reqs[|before| - 1].now;
      GainIsElapsed(before, j, reqs[|reqs| - 1].now);
    }
  }

  /** With a clock that never steps back: at most capacity + rate x T in any stretch of length T. */
  lemma RateBoundForward(p: Policy, reqs: seq<Request>, j: nat)
    requires p.Valid() && ClockForward(Clock(reqs)) && j < |reqs|
    ensures Spent(p, reqs, j) <= p.Cap() + p.rate * (reqs[|reqs| - 1].now - reqs[j].now)
  {
    hide Gain, Spent;
    RateBound(p, reqs, j);
    GainIsElapsed(reqs, j, reqs[|reqs| - 1].now);
  }

  // ---------------------------------------------------------------- evicting idle buckets

  /** The bucket a check finds when an idle one may have been deleted before it. */
  function Found(b: Option<Bucket>, evicted: bool): Option<Bucket> {
    if evicted then None else b
  }

  /** The verdicts of a run in which `evict[i]` says that the bucket was deleted just before request `i`. */
  function Verdicts(b: Option<Bucket>, p: Policy, reqs: seq<Request>, evict: seq<bool>): seq<Verdict>
    requires |evict| == |reqs|
    decreases |reqs|
  {
    if reqs == [] then []
    else
      var (next, verdict) := Check(Found(b, evict[0]), p, reqs[0].now, reqs[0].cost);
      [verdict] + Verdicts(Some(next), p, reqs[1..], evict[1..])
  }

  /** Redis deletes a bucket only once `TtlSeconds` have passed since its last check. */
  ghost predicate EvictsOnlyIdle(last: Option<real>, p: Policy, reqs: seq<Request>, evict: seq<bool>)
    requires |evict| == |reqs|
    decreases |reqs|
  {
    reqs != [] ==>
      && (evict[0] && last.Some? ==> reqs[0].now - last.value >= p.TtlSeconds() as real)
      && EvictsOnlyIdle(Some(reqs[0].now), p, reqs[1..], evict[1..])
  }

  /** Deleting a bucket that has been idle for `idle` seconds can never be noticed, whatever level it was left at, if
      and only if that time refills it from empty. */
  lemma EvictionUnnoticedIff(p: Policy, idle: real)
    requires p.Valid() && idle >= 0.0
    ensures (forall tokens: real, cost: nat :: 0.0 <= tokens <= p.Cap() ==>
               Check(Some(Bucket(tokens, 0.0)), p, idle, cost) == Check(None, p, idle, cost))
            <==> idle * p.rate >= p.Cap()
  {
    hide Level, Check, Pos;
    if idle * p.rate < p.Cap() {
      RefilledLevel(p, 0.0, idle);
      EmptyLevel(p, idle);
      MulMono(0.0, idle, p.rate);
      DifferentLevelShows(Some(Bucket(0.0, 0.0)), None, p, idle);
    } else {
      forall tokens: real, cost: nat | 0.0 <= tokens <= p.Cap()
        ensures Check(Some(Bucket(tokens, 0.0)), p, idle, cost) == Check(None, p, idle, cost)
      {
        RefilledLevel(p, tokens, idle);
        EmptyLevel(p, idle);
        SameLevelSameCheck(Some(Bucket(tokens, 0.0)), None, p, idle, cost);
      }
    }
  }

  lemma EmptyLevel(p: Policy, now: real)
    ensures Level(None, p, now) == p.Cap()
  {
  }

  lemma RefilledLevel(p: Policy, tokens: real, idle: real)
    requires idle >= 0.0
    ensures Level(Some(Bucket(tokens, 0.0)), p, idle) == Least(p.Cap(), tokens + idle * p.rate)
  {
    assert Pos(idle - 0.0) == idle;
  }

  /** A check sees nothing of a bucket but its level. */
  lemma SameLevelSameCheck(b: Option<Bucket>, c: Option<Bucket>, p: Policy, now: real, cost: nat)
    requires Level(b, p, now) == Level(c, p, now)
    ensures Check(b, p, now, cost) == Check(c, p, now, cost)
  {
    hide Level;
  }

  lemma DifferentLevelShows(b: Option<Bucket>, c: Option<Bucket>, p: Policy, now: real)
    requires Level(b, p, now) != Level(c, p, now) && Level(b, p, now) >= 0.0 && Level(c, p, now) >= 0.0
    ensures Check(b, p, now, 0) != Check(c, p, now, 0)
  {
    hide Level;
    assert Check(b, p, now, 0).0.tokens == Level(b, p, now) && Check(c, p, now, 0).0.tokens == Level(c, p, now);
  }

  lemma MulDivExact(x: real, rate: real)
    requires rate > 0.0
    ensures x / rate * rate == x
  {
  }

  /** The TTL is long enough exactly when the bucket refills at all, or holds nothing. */
  lemma TtlCoversRefillIff(p: Policy)
    requires p.Valid()
    ensures p.TtlSeconds() as real * p.rate >= p.Cap() <==> p.rate > 0.0 || p.capacity == 0
  {
    if p.rate > 0.0 {
      var full := p.Cap() / p.rate;
      MulDivExact(p.Cap(), p.rate);
      MulMono(full, p.TtlSeconds() as real, p.rate);
    }
  }

  lemma MulMono(x: real, y: real, rate: real)
    requires x <= y && rate >= 0.0
    ensures x * rate <= y * rate
  {
  }

  lemma IdleBucketIsFull(b: Bucket, p: Policy, now: real)
    requires p.rate > 0.0 && 0.0 <= b.tokens && now - b.ts >= p.TtlSeconds() as real
    ensures Level(Some(b), p, now) == p.Cap()
  {
    TtlCoversRefillIff(p);
    MulMono(p.TtlSeconds() as real, now - b.ts, p.rate);
  }

  /** With a refilling policy and a clock shared with Redis, deleting idle buckets changes no verdict of any run. */
  lemma {:induction false} EvictionUnobservable(b: Option<Bucket>, p: Policy, reqs: seq<Request>, evict: seq<bool>)
    requires p.rate > 0.0 && |evict| == |reqs|
    requires b.Some? ==> 0.0 <= b.value.tokens
    requires EvictsOnlyIdle(if b.Some? then Some(b.value.ts) else None, p, reqs, evict)
    ensures Verdicts(b, p, reqs, evict) == Verdicts(b, p, reqs, seq(|reqs|, _ => false))
    decreases |reqs|
  {
    if reqs != [] {
      var never := seq(|reqs|, _ => false);
      if evict[0] && b.Some? {
        IdleBucketIsFull(b.value, p, reqs[0].now);
      }
      var next := Check(b, p, reqs[0].now, reqs[0].cost).0;
      assert Check(Found(b, evict[0]), p, reqs[0].now, reqs[0].cost) == Check(b, p, reqs[0].now, reqs[0].cost);
      NextNonNegative(b, p, reqs[0]);
      EvictionUnobservable(Some(next), p, reqs[1..], evict[1..]);
      assert never[1..] == seq(|reqs[1..]|, _ => false);
    }
  }

  lemma NextNonNegative(b: Option<Bucket>, p: Policy, req: Request)
    requires p.rate > 0.0 && (b.Some? ==> 0.0 <= b.value.tokens)
    ensures 0.0 <= Check(b, p, req.now, req.cost).0.tokens
  {
    if b.Some? {
      MulMono(0.0, Pos(req.now - b.value.ts), p.rate);
    }
  }

  // ---------------------------------------------------------------- the retry hint

  /** After a denial, the same request made `wait` later with nothing in between is admitted exactly from the hint on,
      provided the bucket can ever hold that much. */
  lemma RetryAfterExact(b: Option<Bucket>, p: Policy, now: real, cost: nat, wait: real)
    requires p.rate > 0.0 && wait >= 0.0
    requires !Check(b, p, now, cost).1.allowed
    ensures
      var (left, verdict) := Check(b, p, now, cost);
      Check(Some(left), p, now + wait, cost).1.allowed <==> cost <= p.capacity && wait >= verdict.retryAfter
  {
    hide Level, RetryAfter, Least, Flow;
    var left := Drained(b, p, now, cost);
    assert left.ts == now && Check(b, p, now, cost).0 == left;
    var hint := RetryAfter(cost as real - left.tokens, p.rate);
    assert Check(b, p, now, cost).1.retryAfter == hint;
    LevelAtMostCap(b, p, now);
    LaterLevel(left, p, wait);
    var level := Level(Some(left), p, now + wait);
    assert Check(Some(left), p, now + wait, cost).1.allowed <==> level >= cost as real;
    assert cost <= p.capacity <==> cost as real <= p.Cap();
    RefillReaches(left.tokens, cost as real, p.rate, p.Cap(), wait, level, hint);
  }

  lemma LevelAtMostCap(b: Option<Bucket>, p: Policy, now: real)
    ensures Level(b, p, now) <= p.Cap()
  {
  }

  lemma LaterLevel(left: Bucket, p: Policy, wait: real)
    requires wait >= 0.0
    ensures Level(Some(left), p, left.ts + wait) == Least(p.Cap(), left.tokens + Flow(wait, p.rate))
  {
    assert Pos(left.ts + wait - left.ts) == wait;
  }

  /** A level below `cost` has refilled to it after `wait` exactly when the cost fits and the deficit has flowed in. */
  lemma RefillReaches(tokens: real, cost: real, rate: real, cap: real, wait: real, level: real, hint: real)
    requires tokens < cost && tokens <= cap && rate > 0.0 && wait >= 0.0
    requires level == Least(cap, tokens + Flow(wait, rate)) && hint == RetryAfter(cost - tokens, rate)
    ensures level >= cost <==> cost <= cap && wait >= hint
  {
    assert Flow(hint, rate) == cost - tokens by { MulDivExact(cost - tokens, rate); }
    FlowGrows(wait, hint, rate);
    hide Flow, RetryAfter;
  }

  lemma FlowGrows(a: real, b: real, rate: real)
    requires rate > 0.0
    ensures a >= b <==> Flow(a, rate) >= Flow(b, rate)
  {
    if a >= b {
      MulMono(b, a, rate);
    } else {
      MulStrict(a, b, rate);
    }
  }

  /** The Retry-After header: int(x + 0.999), at least one second. */
  function RetryHeader(retryAfter: real): int {
    if retryAfter <= 0.0 then 1 else Max(1, (retryAfter + 0.999).Floor)
  }

  /** The header is documented as the ceiling of the hint; it reaches the hint if and only if the hint is at most one
      second, a whole number of seconds, or at least a thousandth past one. */
  lemma HeaderReachesHintIff(retryAfter: real)
    ensures RetryHeader(retryAfter) as real >= retryAfter
            <==> || retryAfter <= 1.0 || retryAfter == retryAfter.Floor as real
                 || retryAfter - retryAfter.Floor as real >= 0.001
  {
    var whole := retryAfter.Floor;
    var part := retryAfter - whole as real;
    if part >= 0.001 {
      assert (retryAfter + 0.999).Floor == whole + 1;
    } else {
      assert (retryAfter + 0.999).Floor == whole;
    }
  }

  /** The header is a whole number of seconds, at least one; above one it is off the hint by less than a second upwards
      and by less than a thousandth downwards. */
  lemma HeaderExact(retryAfter: real)
    ensures RetryHeader(retryAfter) >= 1
    ensures retryAfter <= 1.0 ==> RetryHeader(retryAfter) == 1
    ensures retryAfter > 1.0 ==> retryAfter - 0.001 < RetryHeader(retryAfter) as real < retryAfter + 1.0
  {
  }

  /** A bucket that any past may have left, and the check made of it. */
  ghost predicate HeaderSuffices(p: Policy, cost: nat, tokens: real, now: real) {
    var verdict := Check(Some(Bucket(tokens, now)), p, now, cost).1;
    verdict.allowed || RetryHeader(verdict.retryAfter) as real >= verdict.retryAfter
  }

  lemma FreshLevel(p: Policy, tokens: real, now: real)
    requires tokens <= p.Cap()
    ensures Level(Some(Bucket(tokens, now)), p, now) == tokens
  {
    LevelOf(Bucket(tokens, now), p, now);
    assert Pos(now - now) * p.rate == 0.0;
  }

  /** For a cost the bucket can hold, every denial's header reaches its hint if and only if the bucket refills the cost
      within a second. */
  lemma HeaderSufficesIff(p: Policy, cost: nat, now: real)
    requires p.rate > 0.0 && cost <= p.capacity
    ensures (forall tokens: real :: 0.0 <= tokens <= p.Cap() ==> HeaderSuffices(p, cost, tokens, now))
          <==> cost as real <= p.rate
  {
    hide Level;
    if cost as real <= p.rate {
      forall tokens: real | 0.0 <= tokens <= p.Cap() ensures HeaderSuffices(p, cost, tokens, now) {
        FreshLevel(p, tokens, now);
        ShortHint(cost as real - tokens, p.rate);
      }
    } else {
      var excess := if cost as real - p.rate < p.rate * 0.0005 then cost as real - p.rate else p.rate * 0.0005;
      var tokens := cost as real - p.rate - excess;
      assert cost as real <= p.Cap();
      FreshLevel(p, tokens, now);
      assert Check(Some(Bucket(tokens, now)), p, now, cost).1.retryAfter == RetryAfter(p.rate + excess, p.rate);
      LongHint(excess, p.rate);
      assert !HeaderSuffices(p, cost, tokens, now);
    }
  }

  lemma QuotientAtMost(x: real, rate: real, bound: real)
    requires rate > 0.0 && x <= bound * rate
    ensures x / rate <= bound
  {
    var q := x / rate;
    MulDivExact(x, rate);
    if q > bound {
      MulStrict(bound, q, rate);
    }
  }

  lemma QuotientAbove(x: real, rate: real, bound: real)
    requires rate > 0.0 && x > bound * rate
    ensures x / rate > bound
  {
    var q := x / rate;
    MulDivExact(x, rate);
    if q <= bound {
      MulMono(q, bound, rate);
    }
  }

  lemma ShortHint(deficit: real, rate: real)
    requires rate > 0.0 && deficit <= rate
    ensures RetryHeader(RetryAfter(deficit, rate)) as real >= RetryAfter(deficit, rate)
  {
    QuotientAtMost(deficit, rate, 1.0);
    HeaderReachesHintIff(RetryAfter(deficit, rate));
  }

  lemma LongHint(excess: real, rate: real)
    requires rate > 0.0 && 0.0 < excess <= rate * 0.0005
    ensures !(RetryHeader(RetryAfter(rate + excess, rate)) as real >= RetryAfter(rate + excess, rate))
  {
    QuotientAtMost(rate + excess, rate, 1.0005);
    QuotientAbove(rate + excess, rate, 1.0);
    JustPastOne(RetryAfter(rate + excess, rate));
  }

  lemma JustPastOne(hint: real)
    requires 1.0 < hint <= 1.0005
    ensures RetryHeader(hint) == 1
  {
    assert (hint + 0.999).Floor == 1;
  }

  /** The code's own calls are on the good side: at a cost within the rate no denial in any run announces too little. */
  lemma HeaderSufficesInRuns(p: Policy, reqs: seq<Request>, now: real, cost: nat)
    requires p.Valid() && cost as real <= p.rate
    ensures
      var verdict := Check(After(p, reqs), p, now, cost).1;
      verdict.allowed || RetryHeader(verdict.retryAfter) as real >= verdict.retryAfter
  {
    hide Level;
    var b := After(p, reqs);
    LevelNotNegative(p, reqs, now);
    if !Allowed(b, p, now, cost) {
      var left := Drained(b, p, now, cost);
      assert left.tokens == Level(b, p, now);
      assert cost > 0;
      ShortHint(cost as real - left.tokens, p.rate);
    }
  }

  lemma LevelNotNegative(p: Policy, reqs: seq<Request>, now: real)
    requires p.Valid()
    ensures Level(After(p, reqs), p, now) >= 0.0
  {
    if reqs != [] {
      TokensBounded(p, reqs);
      var b := After(p, reqs).value;
      LevelOf(b, p, now);
      MulMono(0.0, Pos(now - b.ts), p.rate);
    }
  }

  /** A client that waits the advertised seconds is still refused: one token, half a token a second. Emptied at 0, the
      bucket denies at 0.9995 with a hint of 1.0005 s announced as 1, and denies again one second later. */
  lemma HeaderCanFallShort()
    ensures
      var p := Policy(1, 0.5);
      var emptied := [Request(0.0, 1)];
      var (left, verdict) := Check(After(p, emptied), p, 0.9995, 1);
      && Allows(p, [], 0.0, 1)
      && !verdict.allowed && verdict.retryAfter == 1.0005 && RetryHeader(verdict.retryAfter) == 1
      && !Check(Some(left), p, 0.9995 + 1.0, 1).1.allowed
  {
    var p := Policy(1, 0.5);
    var emptied := [Request(0.0, 1)];
    assert emptied[..0] == [] && After(p, []) == None;
    assert After(p, emptied) == Some(Bucket(0.0, 0.0));
    var level := Level(Some(Bucket(0.0, 0.0)), p, 0.9995);
    assert level == 0.49975;
    assert (1.0 - 0.49975) / 0.5 == 1.0005;
    assert (1.0005 + 0.999).Floor == 1;
    assert Level(Some(Bucket(0.49975, 0.9995)), p, 0.9995 + 1.0) == 0.99975;
  }

  // ---------------------------------------------------------------- the limiter over Redis

  class RateLimiter {
    var buckets: map<string, Bucket>

    constructor ()
      ensures buckets == map[]
    {
      buckets := map[];
    }

    function Lookup(key: string): Option<Bucket>
      reads this
    {
      if key in buckets then Some(buckets[key]) else None
    }

    /** The Lua script, statement by statement. */
    method Eval(key: string, p: Policy, now: real, requested: nat) returns (verdict: Verdict)
      modifies this
      ensures buckets == old(buckets)[key := Check(old(Lookup(key)), p, now, requested).0]
      ensures verdict == Check(old(Lookup(key)), p, now, requested).1
    {
      var capacity := p.capacity as real;
      var tokens, ts := capacity, now;
      if key in buckets {
        tokens, ts := buckets[key].tokens, buckets[key].ts;
      }
      var elapsed := now - ts;
      if elapsed < 0.0 {
        elapsed := 0.0;
      }
      tokens := Least(capacity, tokens + elapsed * p.rate);
      assert tokens == Level(Lookup(key), p, now);
      var allowed, retryAfter := false, 0.0;
      if tokens >= requested as real {
        allowed := true;
        tokens := tokens - requested as real;
      } else {
        var deficit := requested as real - tokens;
        retryAfter := RetryAfter(deficit, p.rate);
      }
      buckets := buckets[key := Bucket(tokens, now)];
      verdict := Verdict(allowed, tokens.Floor, retryAfter);
    }

    /** Fails open: without Redis, or when the script raises, the request is allowed and nothing changes. */
    method CheckRateLimit(key: string, p: Policy, cost: nat, now: real, redisUp: bool) returns (verdict: Verdict)
      modifies this
      ensures !redisUp ==> verdict == Verdict(true, p.capacity, 0.0) && buckets == old(buckets)
      ensures redisUp ==> verdict == Check(old(Lookup(key)), p, now, cost).1
                          && buckets == old(buckets)[key := Check(old(Lookup(key)), p, now, cost).0]
    {
      if !redisUp {
        return Verdict(true, p.capacity, 0.0);
      }
      verdict := Eval(key, p, now, cost);
    }
  }
}
