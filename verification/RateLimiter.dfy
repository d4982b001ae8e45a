/** The token bucket (resilience/ratelimit.go) over real arithmetic; times are in nanoseconds. */
module RateLimiter {

  type Nanos = int

  const SECOND := 1_000_000_000

  /** The bucket: tokens per second, capacity, tokens left, and the latest reading used to refill. */
  datatype Bucket = Bucket(rate: real, burst: real, tokens: real, last: Nanos)

  ghost predicate Sound(b: Bucket) {
    b.rate > 0.0 && b.burst >= 1.0 && 0.0 <= b.tokens <= b.burst
  }

  function Seconds(d: Nanos): real {
    d as real / SECOND as real
  }

  /** A reading that is not later than the last one credits nothing. */
  function Refill(b: Bucket, now: Nanos): Bucket {
    if now <= b.last then b
    else
      var t := b.tokens + Seconds(now - b.last) * b.rate;
      b.(last := now, tokens := if t > b.burst then b.burst else t)
  }

  predicate Grants(b: Bucket, now: Nanos) {
    Refill(b, now).tokens >= 1.0
  }

  function Spend(b: Bucket, now: Nanos): Bucket {
    var r := Refill(b, now);
    if r.tokens >= 1.0 then r.(tokens := r.tokens - 1.0) else r
  }

  class RateLimiter {
    const rate: real
    const burst: real
    var tokens: real
    var last: Nanos

    ghost function State(): Bucket
      reads this
    {
      Bucket(rate, burst, tokens, last)
    }

    constructor (rate: real, burst: int, now: Nanos)
      ensures Sound(State()) && tokens == this.burst && last == now
      ensures this.rate == if rate <= 0.0 then 1.0 else rate
      ensures this.burst == if burst < 1 then 1.0 else burst as real
    {
      this.rate := if rate <= 0.0 then 1.0 else rate;
      this.burst := if burst < 1 then 1.0 else burst as real;
      tokens := if burst < 1 then 1.0 else burst as real;
      last := now;
    }

    method DoRefill(now: Nanos)
      modifies this
      ensures State() == Refill(old(State()), now)
    {
      var elapsed := now - last;
      if elapsed <= 0 {
        return;
      }
      last := now;
      tokens := tokens + Seconds(elapsed) * rate;
      if tokens > burst {
        tokens := burst;
      }
    }

    method Allow(now: Nanos) returns (ok: bool)
      requires Sound(State())
      modifies this
      ensures State() == Spend(old(State()), now) && Sound(State())
      ensures ok == Grants(old(State()), now)
    {
      RefillIsSound(State(), now);
      DoRefill(now);
      if tokens >= 1.0 {
        tokens := tokens - 1.0;
        return true;
      }
      return false;
    }

    /** Without a token it says how long to wait, and that is never nothing. */
    method Reserve(now: Nanos) returns (ok: bool, wait: Nanos)
      requires Sound(State())
      modifies this
      ensures State() == Spend(old(State()), now) && Sound(State())
      ensures ok == Grants(old(State()), now)
      ensures ok ==> wait == 0
      ensures !ok ==> wait > 0 && forall later | later >= now + wait + 1 && later >= last + wait + 1 :: Grants(State(), later)
    {
      RefillIsSound(State(), now);
      DoRefill(now);
      if tokens >= 1.0 {
        tokens := tokens - 1.0;
        return true, 0;
      }
      var deficit := 1.0 - tokens;
      wait := (deficit / rate * SECOND as real).Floor;
      forall later | later >= last + wait + 1 ensures Grants(State(), later) {
        WaitingSuffices(State(), wait, later);
      }
      if wait <= 0 {
        wait := 1;
      }
      return false, wait;
    }
  }

  lemma RefillIsSound(b: Bucket, now: Nanos)
    requires Sound(b)
    ensures Sound(Refill(b, now))
  {
    if now > b.last {
      assert Seconds(now - b.last) * b.rate > 0.0;
    }
  }

  /** One nanosecond more than the whole nanoseconds of the deficit brings a full token. */
  lemma WaitingSuffices(b: Bucket, wait: Nanos, later: Nanos)
    requires Sound(b) && b.tokens < 1.0
    requires wait == ((1.0 - b.tokens) / b.rate * SECOND as real).Floor
    requires later >= b.last + wait + 1
    ensures Grants(b, later)
  {
    var exact := (1.0 - b.tokens) / b.rate * SECOND as real;
    assert exact > 0.0;
    var elapsed := (later - b.last) as real;
    assert elapsed >= wait as real + 1.0 > exact;
    ProportionalCredit(1.0 - b.tokens, b.rate, elapsed, exact);
  }

  lemma ProportionalCredit(deficit: real, rate: real, elapsed: real, exact: real)
    requires rate > 0.0 && exact == deficit / rate * SECOND as real && elapsed > exact
    ensures elapsed / SECOND as real * rate > deficit
  {
    assert exact / SECOND as real * rate == deficit;
    assert elapsed / SECOND as real > exact / SECOND as real;
  }

  // ---- Runs ----

  /** The number of calls granted over a run of clock readings, in the order of the calls. */
  function Granted(b: Bucket, readings: seq<Nanos>): nat
    decreases |readings|
  {
    if readings == [] then 0
    else (if Grants(b, readings[0]) then 1 else 0) + Granted(Spend(b, readings[0]), readings[1..])
  }

  function After(b: Bucket, readings: seq<Nanos>): Bucket
    decreases |readings|
  {
    if readings == [] then b else After(Spend(b, readings[0]), readings[1..])
  }

  /** The tokens that time brings at a rate. */
  function Credit(rate: real, from: Nanos, to: Nanos): real {
    Seconds(to - from) * rate
  }

  lemma CreditSplits(rate: real, a: Nanos, b: Nanos, c: Nanos)
    ensures Credit(rate, a, c) == Credit(rate, a, b) + Credit(rate, b, c)
  {
    assert Seconds(c - a) == Seconds(b - a) + Seconds(c - b);
  }

  lemma CreditIsPositive(rate: real, a: Nanos, b: Nanos)
    requires rate > 0.0 && a <= b
    ensures Credit(rate, a, b) >= 0.0
    ensures Credit(rate, a, a) == 0.0
  {
  }

  /** What one call can take is paid for by the time it credits. */
  lemma SpendIsPaidFor(b: Bucket, now: Nanos)
    requires Sound(b)
    ensures (if Grants(b, now) then 1.0 else 0.0) + Spend(b, now).tokens <= b.tokens + Credit(b.rate, b.last, Spend(b, now).last)
  {
    CreditIsPositive(b.rate, b.last, b.last);
  }

  lemma SpendIsSound(b: Bucket, now: Nanos)
    requires Sound(b)
    ensures var b' := Spend(b, now);
            && Sound(b') && b'.rate == b.rate && b'.burst == b.burst
            && b'.last == (if now <= b.last then b.last else now)
  {
    RefillIsSound(b, now);
  }

  /** e is a later state of the same bucket, and its time is that of the latest reading. */
  ghost predicate Follows(b: Bucket, readings: seq<Nanos>, e: Bucket) {
    && Sound(e) && e.rate == b.rate && e.burst == b.burst
    && b.last <= e.last && (e.last == b.last || e.last in readings)
    && (forall r | r in readings :: r <= e.last)
  }

  lemma FollowsOneMore(b: Bucket, mid: Bucket, readings: seq<Nanos>, e: Bucket)
    requires readings != [] && Follows(b, [readings[0]], mid) && Follows(mid, readings[1..], e)
    ensures Follows(b, readings, e)
  {
    assert readings[0] in [readings[0]];
    assert readings == [readings[0]] + readings[1..];
  }

  lemma SpendFollows(b: Bucket, now: Nanos)
    requires Sound(b)
    ensures Follows(b, [now], Spend(b, now))
  {
    SpendIsSound(b, now);
  }

  lemma {:induction false} RunIsSound(b: Bucket, readings: seq<Nanos>)
    requires Sound(b)
    ensures Follows(b, readings, After(b, readings))
    decreases |readings|
  {
    if readings != [] {
      SpendFollows(b, readings[0]);
      RunIsSound(Spend(b, readings[0]), readings[1..]);
      FollowsOneMore(b, Spend(b, readings[0]), readings, After(b, readings));
    }
  }

  lemma Chain(g: real, t: real, credit: real, g': real, t': real, credit': real, t0: real)
    requires g + t <= t0 + credit && g' + t' <= t + credit'
    ensures g + g' + t' <= t0 + (credit + credit')
  {
  }

  /** The account of a whole run: grants and what is left never exceed what was there and the
      credit for the time by which the latest reading advanced, even if readings go backwards. */
  lemma {:induction false} RunIsPaidFor(b: Bucket, readings: seq<Nanos>)
    requires Sound(b)
    ensures Granted(b, readings) as real + After(b, readings).tokens <= b.tokens + Credit(b.rate, b.last, After(b, readings).last)
    decreases |readings|
  {
    if readings == [] {
      CreditIsPositive(b.rate, b.last, b.last);
    } else {
      var mid, e := Spend(b, readings[0]), After(b, readings);
      SpendIsSound(b, readings[0]);
      SpendIsPaidFor(b, readings[0]);
      RunIsPaidFor(mid, readings[1..]);
      CreditSplits(b.rate, b.last, mid.last, e.last);
      var g := if Grants(b, readings[0]) then 1.0 else 0.0;
      Chain(g, mid.tokens, Credit(b.rate, b.last, mid.last), Granted(mid, readings[1..]) as real, e.tokens, Credit(b.rate, mid.last, e.last), b.tokens);
    }
  }

  /** The refill of the first call may as well have come before the run. */
  lemma RefillComesFirst(b: Bucket, readings: seq<Nanos>)
    requires readings != []
    ensures Granted(Refill(b, readings[0]), readings) == Granted(b, readings)
    ensures After(Refill(b, readings[0]), readings) == After(b, readings)
  {
    var c := Refill(b, readings[0]);
    assert Refill(c, readings[0]) == c;
    assert Spend(c, readings[0]) == Spend(b, readings[0]);
  }

  /** No run of calls is granted more than the burst and the rate times the time from its own first
      reading to its latest, however long the bucket was idle before and even if readings go back. */
  lemma GrantsAreLimited(b: Bucket, readings: seq<Nanos>, latest: Nanos)
    requires Sound(b) && readings != [] && forall r | r in readings :: r <= latest
    ensures Granted(b, readings) as real <= b.burst + Credit(b.rate, readings[0], latest)
  {
    var c, e := Refill(b, readings[0]), After(b, readings);
    RefillIsSound(b, readings[0]);
    RefillComesFirst(b, readings);
    RunIsSound(c, readings);
    RunIsPaidFor(c, readings);
    assert readings[0] in readings;
    CreditSplits(b.rate, readings[0], c.last, e.last);
    CreditSplits(b.rate, readings[0], e.last, latest);
    CreditIsPositive(b.rate, readings[0], c.last);
    CreditIsPositive(b.rate, readings[0], latest);
    if e.last in readings {
      CreditIsPositive(b.rate, e.last, latest);
    }
  }

  lemma {:induction false} GrantedOfConcat(b: Bucket, before: seq<Nanos>, readings: seq<Nanos>)
    ensures Granted(b, before + readings) == Granted(b, before) + Granted(After(b, before), readings)
    decreases |before|
  {
    if before == [] {
      assert before + readings == readings;
    } else {
      assert (before + readings)[1..] == before[1..] + readings;
      GrantedOfConcat(Spend(b, before[0]), before[1..], readings);
    }
  }

  /** The same of any stretch of a longer run: what it adds to the grants is limited by its own time. */
  lemma EveryStretchIsLimited(b: Bucket, before: seq<Nanos>, readings: seq<Nanos>, latest: Nanos)
    requires Sound(b) && readings != [] && forall r | r in readings :: r <= latest
    ensures (Granted(b, before + readings) - Granted(b, before)) as real <= b.burst + Credit(b.rate, readings[0], latest)
  {
    RunIsSound(b, before);
    GrantedOfConcat(b, before, readings);
    GrantsAreLimited(After(b, before), readings, latest);
  }
}
