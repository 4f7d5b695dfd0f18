/** The orders gateway's retry loop and its shift-based backoff (internal/gateway/orders/retrying.go). */
module Retrying {
  import opened Basics

  const TWO_63: int := 0x8000_0000_0000_0000
  const TWO_64: int := 0x1_0000_0000_0000_0000

  datatype Code = ResourceExhausted | Unavailable | DeadlineExceeded | Other
  datatype Response<+T> = Good(value: T) | Bad(code: Code)

  predicate IsInt64(x: int) {
    -TWO_63 <= x < TWO_63
  }

  /** What an int64 register holds of an integer: the rest modulo 2^64, as a signed number. */
  function Wrap(x: int): (r: int)
    ensures IsInt64(r)
    ensures IsInt64(x) ==> r == x
    ensures exists laps :: x == r + laps * TWO_64
  {
    assert x == (x + TWO_63) % TWO_64 - TWO_63 + (x + TWO_63) / TWO_64 * TWO_64;
    (x + TWO_63) % TWO_64 - TWO_63
  }

  function Pow2(n: nat): (p: nat)
    ensures p > 0
  {
    if n == 0 then 1 else 2 * Pow2(n - 1)
  }

  predicate IsRetryable(c: Code) {
    c.ResourceExhausted? || c.Unavailable? || c.DeadlineExceeded?
  }

  /** `base << (attempt - 1)` in int64, capped. */
  function Backoff(base: int, max: int, attempt: nat): int
    requires attempt >= 1
  {
    var d := Wrap(base * Pow2(attempt - 1));
    if d > max then max else d
  }

  /** The delay that was meant: doubling from the base up to the cap. */
  function Intended(base: int, max: int, attempt: nat): int
    requires attempt >= 1
  {
    var d := base * Pow2(attempt - 1);
    if d > max then max else d
  }

  // ---------- backoff

  lemma {:induction false} Pow2Grows(m: nat, n: nat)
    requires m <= n
    ensures Pow2(m) <= Pow2(n)
    decreases n
  {
    if m < n {
      Pow2Grows(m, n - 1);
    }
  }

  lemma ScaledGrows(base: int, m: nat, n: nat)
    requires base > 0 && m <= n
    ensures base <= base * Pow2(m) <= base * Pow2(n)
  {
    Pow2Grows(m, n);
    Pow2Grows(0, m);
    assert Pow2(0) == 1;
    hide Pow2;
    ProductGrows(base, 1, Pow2(m));
    ProductGrows(base, Pow2(m), Pow2(n));
  }

  lemma ProductGrows(base: int, x: int, y: int)
    requires base > 0 && x <= y
    ensures base * x <= base * y
  {
    assert base * (y - x) >= 0;
  }

  /** The first shift that leaves int64 turns the delay negative. */
  lemma {:induction false} FirstOverflow(base: int, n: nat) returns (k: nat)
    requires 0 < base < TWO_63 <= base * Pow2(n)
    ensures 0 < k <= n && TWO_63 <= base * Pow2(k) < TWO_64
  {
    if base * Pow2(n - 1) >= TWO_63 {
      k := FirstOverflow(base, n - 1);
    } else {
      k := n;
      assert base * Pow2(n) == 2 * (base * Pow2(n - 1));
    }
  }

  /** All the delays a loop of `attempts` attempts can ask for are the intended ones exactly when the last
      of them does not leave int64. */
  lemma DelaysAsIntendedIff(base: int, max: int, attempts: nat)
    requires 0 < base <= max < TWO_63 && attempts >= 2
    ensures (forall k :: 1 <= k < attempts ==> Backoff(base, max, k) == Intended(base, max, k)) <==>
            base * Pow2(attempts - 2) < TWO_63
  {
    if base * Pow2(attempts - 2) < TWO_63 {
      forall k | 1 <= k < attempts ensures Backoff(base, max, k) == Intended(base, max, k) {
        ScaledGrows(base, k - 1, attempts - 2);
      }
    } else {
      var k := FirstOverflow(base, attempts - 2);
      var d := base * Pow2(k);
      assert Wrap(d) == d - TWO_64 < 0;
      assert Backoff(base, max, k + 1) < 0 < Intended(base, max, k + 1);
    }
  }

  /** Whatever the settings, a delay whose shift does not leave int64 is the intended one; so one that is not positive
      asks for no sleep. */
  lemma DelayIsIntended(base: int, max: int, attempt: nat)
    requires attempt >= 1 && IsInt64(base * Pow2(attempt - 1))
    ensures Backoff(base, max, attempt) == Intended(base, max, attempt)
    ensures Backoff(base, max, attempt) <= max
    ensures base <= 0 && max >= 0 ==> Backoff(base, max, attempt) == base * Pow2(attempt - 1) <= 0
  {
    if base <= 0 {
      assert (-base) * Pow2(attempt - 1) >= 0;
      assert base * Pow2(attempt - 1) == -((-base) * Pow2(attempt - 1));
    }
  }

  /** With the configured limits - at most ten attempts - a base delay below 2^55 ns is exactly what it takes. */
  lemma ConfiguredDelaysIff(base: int, max: int)
    requires 0 < base <= max < TWO_63
    ensures (forall k :: 1 <= k < 10 ==> Backoff(base, max, k) == Intended(base, max, k)) <==>
            base < 0x80_0000_0000_0000
  {
    assert Pow2(8) == 256 by {
      assert Pow2(4) == 16;
    }
    DelaysAsIntendedIff(base, max, 10);
  }

  /** Intended delays never decrease, start at the base and never exceed the cap. */
  lemma IntendedDelaysGrow(base: int, max: int, j: nat, k: nat)
    requires 0 < base <= max && 1 <= j <= k
    ensures base <= Intended(base, max, j) <= Intended(base, max, k) <= max
    ensures k == j + 1 ==>
              var doubled := 2 * Intended(base, max, j);
              Intended(base, max, k) == if doubled > max then max else doubled
  {
    ScaledGrows(base, j - 1, k - 1);
    if k == j + 1 {
      assert base * Pow2(k - 1) == 2 * (base * Pow2(j - 1));
    }
  }

  // ---------- the loop

  class Counter {
    var n: nat

    constructor ()
      ensures n == 0
    {
      n := 0;
    }

    method Inc()
      modifies this
      ensures n == old(n) + 1
    {
      n := n + 1;
    }
  }

  /** What the world does during one call: the answer to each attempt, whether the context is found cancelled
      right after it, and whether it is cancelled during the sleep that follows. */
  datatype Try<+T> = Try(response: Response<T>, cancelled: bool, cutShort: bool)

  ghost function SumOf(ds: seq<int>): int {
    if ds == [] then 0 else SumOf(ds[..|ds| - 1]) + ds[|ds| - 1]
  }

  class RetryingGateway {
    const attempts: int
    const base: int
    const max: int
    const retries: Counter?

    constructor (attempts: int, base: int, max: int, retries: Counter?)
      ensures this.attempts == attempts && this.base == base && this.max == max && this.retries == retries
    {
      this.attempts, this.base, this.max, this.retries := attempts, base, max, retries;
    }

    /** One call with retries; GetByID and ListFrom run this same loop. `calls` is how many attempts were made and
        `delays` the delays asked for. An attempt is followed by another only if it failed with a retryable code, the
        context is alive, and the sleep, if any, ran its course. So the result is the first success, or else the
        last error; without any attempt it is neither. A sleep that is cut short has been asked for all the same. */
    method Call<T>(world: seq<Try<T>>) returns (r: Option<Response<T>>, calls: nat, delays: seq<int>)
      requires attempts <= |world|
      modifies if retries == null then {} else {retries}
      ensures attempts <= 0 ==> r == None && calls == 0 && delays == []
      ensures attempts >= 1 ==> 1 <= calls <= attempts && r == Some(world[calls - 1].response)
      ensures forall k :: 0 <= k < calls - 1 ==>
                var w := world[k];
                && w.response.Bad? && w.response.code != Other && !w.cancelled
                && (Backoff(base, max, k + 1) <= 0 || !w.cutShort)
      ensures calls >= 1 ==>
                var w := world[calls - 1];
                var askedToSleep := w.response.Bad? && w.response.code != Other && !w.cancelled && calls != attempts;
                && (askedToSleep ==> w.cutShort && Backoff(base, max, calls) > 0)
                && |delays| == calls - 1 + if askedToSleep then 1 else 0
      ensures forall k :: 1 <= k <= |delays| ==> delays[k - 1] == Backoff(base, max, k)
      ensures retries != null ==> retries.n == old(retries.n) + |delays|
    {
      r, calls, delays := None, 0, [];
      var attempt := 1;
      while attempt <= attempts
        invariant attempt >= 1 && calls == attempt - 1 == |delays|
        invariant attempts >= 1 ==> calls < attempts
        invariant attempts <= 0 ==> calls == 0
        invariant forall k :: 0 <= k < calls ==>
                    var w := world[k];
                    && w.response.Bad? && w.response.code != Other && !w.cancelled
                    && (Backoff(base, max, k + 1) <= 0 || !w.cutShort)
        invariant forall k :: 1 <= k <= |delays| ==> delays[k - 1] == Backoff(base, max, k)
        invariant retries != null ==> retries.n == old(retries.n) + |delays|
        invariant r.None? <==> calls == 0
        decreases attempts - attempt
      {
        var w := world[attempt - 1];
        calls := attempt;
        r := Some(w.response);
        if w.response.Good? {
          return;
        }
        if w.cancelled || attempt == attempts || !IsRetryable(w.response.code) {
          break;
        }
        var delay := Backoff(base, max, attempt);
        delays := delays + [delay];
        if retries != null {
          retries.Inc();
        }
        if delay > 0 && w.cutShort {
          break;
        }
        attempt := attempt + 1;
      }
    }
  }

  lemma {:induction false} SumBounded(ds: seq<int>, max: int)
    requires forall k :: 0 <= k < |ds| ==> ds[k] <= max
    ensures SumOf(ds) <= |ds| * max
  {
    if ds != [] {
      SumBounded(ds[..|ds| - 1], max);
      assert |ds| * max == (|ds| - 1) * max + max;
    }
  }

  lemma MoreDelaysMore(m: nat, n: nat, max: int)
    requires m <= n && max >= 0
    ensures m * max <= n * max
  {
    assert (n - m) * max >= 0;
  }

  /** When the delays are the intended ones, those a call asks for are positive and never decrease,
      and together they stay within (attempts - 1) * max. */
  lemma TotalDelayBounded(base: int, max: int, attempts: nat, delays: seq<int>)
    requires 0 < base <= max < TWO_63 && |delays| < attempts
    requires attempts >= 2 ==> base * Pow2(attempts - 2) < TWO_63
    requires forall k :: 1 <= k <= |delays| ==> delays[k - 1] == Backoff(base, max, k)
    ensures forall j, k :: 0 <= j <= k < |delays| ==> 0 < delays[j] <= delays[k] <= max
    ensures SumOf(delays) <= (attempts - 1) * max
  {
    hide Pow2, Wrap, Backoff, Intended, SumOf;
    forall j, k | 0 <= j <= k < |delays| ensures 0 < delays[j] <= delays[k] <= max {
      DelaysAsIntendedIff(base, max, attempts);
      IntendedDelaysGrow(base, max, j + 1, k + 1);
      assert delays[j] == Backoff(base, max, j + 1) && delays[k] == Backoff(base, max, k + 1);
    }
    SumBounded(delays, max);
    MoreDelaysMore(|delays|, attempts - 1, max);
  }
}
