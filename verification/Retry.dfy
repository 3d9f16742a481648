/** order-service/internal/retry: the bounded retry loop and its backoff arithmetic. */
module Retry {
  import opened Common

  datatype Config = Config(maxAttempts: int, baseDelay: int, maxDelay: int)

  ghost predicate ValidConfig(cfg: Config) {
    && -INT64_MAX - 1 <= cfg.maxAttempts <= INT64_MAX
    && -INT64_MAX - 1 <= cfg.baseDelay <= INT64_MAX
    && -INT64_MAX - 1 <= cfg.maxDelay <= INT64_MAX
  }

  // ---------------------------------------------------------------- powers of two

  function Pow2(n: nat): (r: nat)
    ensures r >= 1
  {
    if n == 0 then 1 else 2 * Pow2(n - 1)
  }

  lemma {:induction false} Pow2Add(m: nat, n: nat)
    ensures Pow2(m + n) == Pow2(m) * Pow2(n)
  {
    if m > 0 {
      Pow2Add(m - 1, n);
      Doubled(Pow2(n), Pow2(m - 1));
    }
  }

  lemma {:induction false} Pow2Grows(m: nat, n: nat)
    requires m <= n
    ensures Pow2(m) <= Pow2(n)
    ensures m < n ==> 2 * Pow2(m) <= Pow2(n)
  {
    if m < n {
      Pow2Grows(m, n - 1);
    }
  }

  lemma Pow2Word()
    ensures Pow2(63) == INT64_MAX + 1 && Pow2(64) == TWO_64
  {
    Pow2Square(8, 0x100);
    Pow2Square(16, 0x1_0000);
    Pow2Square(32, TWO_32);
    assert Pow2(64) == 2 * Pow2(63);
  }

  lemma Pow2Square(n: nat, p: nat)
    requires Pow2(n) == p
    ensures Pow2(2 * n) == p * p
  {
    Pow2Add(n, n);
  }

  // ---------------------------------------------------------------- backoffDelay

  function Min(x: int, y: int): int {
    if x <= y then x else y
  }

  /** `int64(1) << uint(attempt)`: zero from 64 bits on, the minimum at 63. */
  function ShiftedOne(attempt: nat): int {
    if attempt >= 64 then 0 else Int64(Pow2(attempt))
  }

  /** The int64 product of the base delay and the shifted one. */
  function WrappedDelay(base: int, attempt: nat): int {
    Int64(base * ShiftedOne(attempt))
  }

  /** The delay before jitter. */
  function Cap(cfg: Config, attempt: nat): int {
    var d := WrappedDelay(cfg.baseDelay, attempt);
    if d <= 0 || d > cfg.maxDelay then cfg.maxDelay else d
  }

  /** `rand.Int64N(n)`, which panics unless n is positive; `draw` is the generator's choice. */
  function Int64N(n: int, draw: nat): (r: nat)
    requires 0 < n <= INT64_MAX
    ensures r < n
  {
    draw % n
  }

  function BackoffDelay(cfg: Config, attempt: nat, draw: nat): (delay: nat)
    requires ValidConfig(cfg)
    ensures cfg.maxDelay > 0 ==> Cap(cfg, attempt) / 2 <= delay <= Cap(cfg, attempt) <= cfg.maxDelay
    ensures cfg.maxDelay <= 0 ==> delay == 0
  {
    var d := Cap(cfg, attempt);
    if d <= 0 then 0
    else
      var half := d / 2;
      half + Int64N(d - half + 1, draw)
  }

  /** Every value in the upper half of the cap can be drawn: the jitter is equal jitter. */
  lemma JitterCoversUpperHalf(cfg: Config, attempt: nat, delay: int)
    requires ValidConfig(cfg) && cfg.maxDelay > 0
    requires Cap(cfg, attempt) / 2 <= delay <= Cap(cfg, attempt)
    ensures exists draw: nat :: BackoffDelay(cfg, attempt, draw) == delay
  {
    var half := Cap(cfg, attempt) / 2;
    var draw := delay - half;
    SmallRemainder(draw, Cap(cfg, attempt) - half + 1);
    assert BackoffDelay(cfg, attempt, draw) == delay;
  }

  /** The low q+1 bits of the base, which are all that survives a shift by 63-q. */
  function LowBits(base: nat, q: nat): nat {
    base % 2 + if q == 0 then 0 else 2 * LowBits(base / 2, q - 1)
  }

  /** The bits above them. */
  function HighBits(base: nat, q: nat): nat {
    if q == 0 then base / 2 else HighBits(base / 2, q - 1)
  }

  lemma {:induction false} BitsSplit(base: nat, q: nat)
    ensures LowBits(base, q) < Pow2(q + 1)
    ensures base == HighBits(base, q) * Pow2(q + 1) + LowBits(base, q)
  {
    if q == 0 {
      assert Pow2(1) == 2 * Pow2(0);
    } else {
      BitsSplit(base / 2, q - 1);
      Doubled(HighBits(base, q), Pow2(q));
    }
  }

  /** Bit q of the base is a zero below its top bit, a one stands further down, and what that
      lower part leaves in the word after the shift by 63-q is a positive number under the limit:
      the overflow test cannot see this overflow. */
  predicate Aliased(base: nat, maxDelay: int, q: nat)
    requires q <= 63
  {
    && Pow2(q + 1) <= base
    && 0 < LowBits(base, q) < Pow2(q)
    && LowBits(base, q) * Pow2(63 - q) < maxDelay
  }

  predicate WrapSafe(base: nat, maxDelay: int) {
    forall q | 0 <= q <= 63 :: !Aliased(base, maxDelay, q)
  }

  /** The product of the base and the shift factor, split at the word boundary. */
  lemma SplitProduct(base: nat, hi: nat, lo: nat, modulus: nat, half: nat, factor: nat)
    requires base == hi * modulus + lo && lo < modulus
    requires modulus * factor == TWO_64 && half * factor == INT64_MAX + 1
    ensures base * factor == hi * TWO_64 + lo * factor
    ensures 0 <= lo * factor < TWO_64
    ensures lo < half <==> lo * factor <= INT64_MAX
  {
    assert (hi * modulus) * factor == hi * (modulus * factor);
    ScaleStrict(lo, modulus, factor);
    ScaleStrict(lo, half, factor);
  }

  /** What is left of it in the word; a shift by 63 is off by a whole word. */
  lemma WrapProduct(base: nat, hi: nat, left: nat, factor: nat, shifted: int)
    requires base * factor == hi * TWO_64 + left && left < TWO_64
    requires shifted == factor || shifted == factor - TWO_64
    ensures Int64(base * shifted) == left - (if left <= INT64_MAX then 0 else TWO_64)
  {
    if shifted == factor {
      WrapOf(base * shifted, hi, left);
    } else {
      assert base * shifted == base * factor - base * TWO_64;
      WrapOf(base * shifted, hi - base, left);
    }
  }

  /** What the wrapping multiplication leaves, in closed form. */
  lemma WrappedResidue(base: nat, q: nat, a: nat)
    requires 0 < base && q + a == 63
    ensures 0 <= LowBits(base, q) * Pow2(a) < TWO_64
    ensures LowBits(base, q) < Pow2(q) <==> LowBits(base, q) * Pow2(a) <= INT64_MAX
    ensures WrappedDelay(base, a) == LowBits(base, q) * Pow2(a) - (if LowBits(base, q) < Pow2(q) then 0 else TWO_64)
  {
    WordSplit(q, a);
    ShiftedOneValue(a);
    BitsSplit(base, q);
    SplitProduct(base, HighBits(base, q), LowBits(base, q), Pow2(q + 1), Pow2(q), Pow2(a));
    WrapProduct(base, HighBits(base, q), LowBits(base, q) * Pow2(a), Pow2(a), ShiftedOne(a));
  }

  lemma WordSplit(q: nat, a: nat)
    requires q + a == 63
    ensures Pow2(q) * Pow2(a) == INT64_MAX + 1 && Pow2(q + 1) * Pow2(a) == TWO_64
    ensures Pow2(q + 1) == 2 * Pow2(q)
  {
    Pow2Word();
    Pow2Add(q, a);
    Pow2Add(q + 1, a);
  }

  lemma ShiftedOneValue(a: nat)
    requires a <= 63
    ensures a == 63 ==> Pow2(a) == INT64_MAX + 1 && ShiftedOne(a) == -INT64_MAX - 1
    ensures a < 63 ==> ShiftedOne(a) == Pow2(a)
  {
    Pow2Word();
    Pow2Grows(a, 63);
  }

  lemma WrapOf(x: int, k: int, r: int)
    requires x == k * TWO_64 + r && 0 <= r < TWO_64
    ensures Int64(x) == if r <= INT64_MAX then r else r - TWO_64
  {
    assert x % TWO_64 == r;
  }

  /** One attempt: the wrapped computation is the exact cap unless the shift aliases. */
  lemma CapExactAt(cfg: Config, a: nat)
    requires ValidConfig(cfg) && cfg.baseDelay > 0 && cfg.maxDelay > 0
    ensures Cap(cfg, a) == Min(cfg.baseDelay * Pow2(a), cfg.maxDelay)
       <==> (a <= 63 ==> !Aliased(cfg.baseDelay, cfg.maxDelay, 63 - a))
  {
    var base, factor := cfg.baseDelay, Pow2(a);
    if a >= 64 {
      HighPow2(a);
      assert WrappedDelay(base, a) == Int64(base * 0) == 0;
      assert base * factor >= factor by { ScaleStrict(base, 1, factor); }
    } else {
      var q := 63 - a;
      var lo := LowBits(base, q);
      WrappedResidue(base, q, a);
      ExactOrOverflow(base, q, a);
      CapCases(cfg, a, base * factor, lo * factor);
    }
  }

  /** Nothing is lost by the shift, or the exact product exceeds every int64 limit. */
  lemma ExactOrOverflow(base: nat, q: nat, a: nat)
    requires base > 0 && q + a == 63
    ensures LowBits(base, q) > 0 <==> LowBits(base, q) * Pow2(a) > 0
    ensures if base < Pow2(q + 1) then LowBits(base, q) == base && base * Pow2(a) > 0
            else base * Pow2(a) >= TWO_64
  {
    WordSplit(q, a);
    ScaleStrict(0, LowBits(base, q), Pow2(a));
    if base < Pow2(q + 1) {
      BitsSplit(base, q);
      SplitUnique(Pow2(q + 1), HighBits(base, q), LowBits(base, q), 0, base);
      ScaleStrict(0, base, Pow2(a));
    } else {
      Overflows(base, Pow2(q), Pow2(a));
    }
  }

  lemma SplitUnique(m: nat, hi: nat, lo: nat, hi': nat, lo': nat)
    requires hi * m + lo == hi' * m + lo' && lo < m && lo' < m
    ensures hi == hi' && lo == lo'
  {
    assert (hi - hi') * m == lo' - lo;
    ScaleStrict(hi - hi', 1, m);
    ScaleStrict(-1, hi - hi', m);
  }

  lemma SmallRemainder(x: nat, m: nat)
    requires x < m
    ensures x % m == x
  {
  }

  /** The overflow test of backoffDelay, given what the product left in the word. */
  lemma CapCases(cfg: Config, a: nat, exact: int, left: int)
    requires cfg.maxDelay > 0 && cfg.maxDelay <= INT64_MAX && 0 <= left < TWO_64
    requires WrappedDelay(cfg.baseDelay, a) == if left <= INT64_MAX then left else left - TWO_64
    requires (left == exact && exact > 0) || exact >= TWO_64
    ensures Cap(cfg, a) == Min(exact, cfg.maxDelay)
       <==> left == exact || left == 0 || left > INT64_MAX || left >= cfg.maxDelay
  {
  }

  lemma HighPow2(a: nat)
    requires a >= 64
    ensures Pow2(a) >= TWO_64
  {
    Pow2Word();
    Pow2Grows(64, a);
  }

  lemma Overflows(base: nat, half: nat, factor: nat)
    requires base >= 2 * half && 2 * (half * factor) >= TWO_64
    ensures base * factor >= TWO_64
  {
    assert (base - 2 * half) * factor >= 0;
  }

  /** The documented cap `min(base * 2^attempt, max)` is computed at every attempt
      exactly when no zero bit of the base aliases. */
  lemma CapExact(cfg: Config)
    requires ValidConfig(cfg) && cfg.baseDelay > 0 && cfg.maxDelay > 0
    ensures (forall a: nat :: Cap(cfg, a) == Min(cfg.baseDelay * Pow2(a), cfg.maxDelay))
       <==> WrapSafe(cfg.baseDelay, cfg.maxDelay)
  {
    forall a: nat
      ensures Cap(cfg, a) == Min(cfg.baseDelay * Pow2(a), cfg.maxDelay)
         <==> (a <= 63 ==> !Aliased(cfg.baseDelay, cfg.maxDelay, 63 - a))
    {
      CapExactAt(cfg, a);
    }
    if q :| 0 <= q <= 63 && Aliased(cfg.baseDelay, cfg.maxDelay, q) {
      var a: nat := 63 - q;
      assert Aliased(cfg.baseDelay, cfg.maxDelay, 63 - a);
      assert Cap(cfg, a) != Min(cfg.baseDelay * Pow2(a), cfg.maxDelay);
    }
  }

  /** A base and a limit whose product stays below 2^63 are safe. */
  lemma SmallProductIsWrapSafe(base: nat, maxDelay: nat)
    requires base * maxDelay <= INT64_MAX
    ensures WrapSafe(base, maxDelay)
  {
    forall q | 0 <= q <= 63
      ensures !Aliased(base, maxDelay, q)
    {
      if Pow2(q + 1) <= base && 0 < LowBits(base, q) && LowBits(base, q) * Pow2(63 - q) < maxDelay {
        Pow2Word();
        Pow2Add(q, 63 - q);
        ProductTooLarge(base, maxDelay, LowBits(base, q), Pow2(q), Pow2(63 - q));
      }
    }
  }

  lemma ProductTooLarge(base: nat, maxDelay: nat, low: nat, half: nat, high: nat)
    requires 2 * half <= base && 0 < low && low * high < maxDelay
    requires half * high == INT64_MAX + 1
    ensures base * maxDelay > INT64_MAX
  {
    assert (low - 1) * high >= 0;
    assert (base - 2 * half) * maxDelay >= 0;
    assert half * (maxDelay - high) >= 0;
  }

  /** Without the condition the schedule can collapse: here the third cap is 4, not 5. */
  lemma CapCollapse()
    ensures var cfg := Config(6, 0x4000_0000_0000_0001, 5);
            ValidConfig(cfg) && Cap(cfg, 1) == 5 && Cap(cfg, 2) == 4 && !WrapSafe(cfg.baseDelay, cfg.maxDelay)
  {
    var base := 0x4000_0000_0000_0001;
    assert Pow2(0) == 1 && Pow2(1) == 2 && Pow2(2) == 4;
    Pow2Word();
    assert Pow2(63) == 2 * Pow2(62) && Pow2(62) == 2 * Pow2(61);
    BitsSplit(base, 61);
    SplitUnique(Pow2(62), HighBits(base, 61), LowBits(base, 61), 1, 1);
    assert Aliased(base, 5, 61);
  }

  /** Under the condition the caps never decrease. */
  lemma SafeCapsGrow(cfg: Config, a: nat)
    requires ValidConfig(cfg) && cfg.baseDelay > 0 && cfg.maxDelay > 0
    requires WrapSafe(cfg.baseDelay, cfg.maxDelay)
    ensures Cap(cfg, a) <= Cap(cfg, a + 1)
  {
    CapAt(cfg, a);
    CapAt(cfg, a + 1);
    Doubled(cfg.baseDelay, Pow2(a));
  }

  /** An aliased attempt's cap is below the maximum; no shift by 0 or 1 can alias. */
  lemma AliasedCap(cfg: Config, a: nat)
    requires ValidConfig(cfg) && cfg.baseDelay > 0 && cfg.maxDelay > 0
    requires a <= 63 && Aliased(cfg.baseDelay, cfg.maxDelay, 63 - a)
    ensures Cap(cfg, a) < cfg.maxDelay
    ensures a >= 2
  {
    var q := 63 - a;
    WrappedResidue(cfg.baseDelay, q, a);
    ExactOrOverflow(cfg.baseDelay, q, a);
    Pow2Word();
    if a < 2 {
      Pow2Grows(63, q + 1);
    }
  }

  /** The attempt before an aliased one has a full cap, unless it aliases as well. */
  lemma CapBeforeAlias(cfg: Config, a: nat)
    requires ValidConfig(cfg) && cfg.baseDelay > 0 && cfg.maxDelay > 0
    requires 0 < a <= 63 && Aliased(cfg.baseDelay, cfg.maxDelay, 63 - a)
    requires !Aliased(cfg.baseDelay, cfg.maxDelay, 64 - a)
    ensures Cap(cfg, a - 1) == cfg.maxDelay
  {
    CapExactAt(cfg, a - 1);
    WordSplit(64 - a, a - 1);
    PastTheWord(cfg.baseDelay, Pow2(64 - a), Pow2(a - 1));
  }

  lemma PastTheWord(base: nat, power: nat, factor: nat)
    requires base >= power && power * factor == INT64_MAX + 1
    ensures base * factor > INT64_MAX
  {
    assert (base - power) * factor >= 0;
  }

  /** Going back from an aliased attempt, the first one follows a full cap. */
  lemma {:induction false} CapsFallBefore(cfg: Config, a: nat)
    requires ValidConfig(cfg) && cfg.baseDelay > 0 && cfg.maxDelay > 0
    requires a <= 63 && Aliased(cfg.baseDelay, cfg.maxDelay, 63 - a)
    ensures exists k: nat :: Cap(cfg, k) > Cap(cfg, k + 1)
  {
    AliasedCap(cfg, a);
    if Aliased(cfg.baseDelay, cfg.maxDelay, 64 - a) {
      CapsFallBefore(cfg, a - 1);
    } else {
      CapBeforeAlias(cfg, a);
      var k: nat := a - 1;
      assert Cap(cfg, k) > Cap(cfg, k + 1);
    }
  }

  /** The schedule never falls exactly when no zero bit of the base aliases. */
  lemma CapsNeverDecrease(cfg: Config)
    requires ValidConfig(cfg) && cfg.baseDelay > 0 && cfg.maxDelay > 0
    ensures (forall a: nat :: Cap(cfg, a) <= Cap(cfg, a + 1)) <==> WrapSafe(cfg.baseDelay, cfg.maxDelay)
  {
    if WrapSafe(cfg.baseDelay, cfg.maxDelay) {
      forall a: nat
        ensures Cap(cfg, a) <= Cap(cfg, a + 1)
      {
        SafeCapsGrow(cfg, a);
      }
    } else {
      var q :| 0 <= q <= 63 && Aliased(cfg.baseDelay, cfg.maxDelay, q);
      assert Aliased(cfg.baseDelay, cfg.maxDelay, 63 - (63 - q));
      CapsFallBefore(cfg, 63 - q);
    }
  }

  lemma CapAt(cfg: Config, a: nat)
    requires ValidConfig(cfg) && cfg.baseDelay > 0 && cfg.maxDelay > 0
    requires WrapSafe(cfg.baseDelay, cfg.maxDelay)
    ensures Cap(cfg, a) == Min(cfg.baseDelay * Pow2(a), cfg.maxDelay)
  {
    CapExactAt(cfg, a);
  }

  lemma Doubled(x: nat, y: nat)
    ensures x * (2 * y) == 2 * (x * y) >= x * y
  {
  }

  // ---------------------------------------------------------------- Do

  datatype Outcome<+E> = Success | Failure(error: E)

  datatype DoResult<+E> = Nil | Failed(error: E) | ContextDone

  /** One OnRetry callback: its attempt number, the delay about to be slept, the error. */
  datatype OnRetry<+E> = OnRetry(attempt: int, delay: nat, error: E)

  /** The k-th call of fn ended in an error that may be retried. */
  ghost predicate FailedRetryably<E(!new)>(isRetryable: E -> bool, fn: nat -> Outcome<E>, k: nat) {
    fn(k).Failure? && isRetryable(fn(k).error)
  }

  /** Everything a caller can observe of one run of Do: fn(k) is what the k-th call returns,
      ctxDone(k) whether the wait after it ends by cancellation, draws(k) its jitter. */
  ghost predicate DoTrace<E(!new)>(cfg: Config, isRetryable: E -> bool, fn: nat -> Outcome<E>,
                                   ctxDone: nat -> bool, draws: nat -> nat,
                                   result: DoResult<E>, calls: nat, retries: seq<OnRetry<E>>)
    requires ValidConfig(cfg)
  {
    if cfg.maxAttempts <= 0 then
      result == Nil && calls == 0 && retries == []
    else
      && 1 <= calls <= cfg.maxAttempts
      && (forall k :: 0 <= k < calls - 1 ==> FailedRetryably(isRetryable, fn, k) && !ctxDone(k))
      && |retries| == (if result.ContextDone? then calls else calls - 1)
      && (forall k :: 0 <= k < |retries| ==>
            && fn(k).Failure?
            && retries[k] == OnRetry(k + 1, BackoffDelay(cfg, k, draws(k)), fn(k).error))
      && match result
         case Nil => fn(calls - 1).Success?
         case Failed(e) =>
           && fn(calls - 1) == Failure(e)
           && (isRetryable(e) ==> calls == cfg.maxAttempts)
         case ContextDone =>
           calls < cfg.maxAttempts && FailedRetryably(isRetryable, fn, calls - 1) && ctxDone(calls - 1)
  }

  method Do<E(!new)>(cfg: Config, isRetryable: E -> bool, fn: nat -> Outcome<E>,
                     ctxDone: nat -> bool, draws: nat -> nat)
    returns (result: DoResult<E>, calls: nat, retries: seq<OnRetry<E>>)
    requires ValidConfig(cfg)
    ensures DoTrace(cfg, isRetryable, fn, ctxDone, draws, result, calls, retries)
  {
    result, calls, retries := Nil, 0, [];
    var attempt := 0;
    while attempt < cfg.maxAttempts
      invariant 0 <= attempt
      invariant cfg.maxAttempts > 0 ==> attempt < cfg.maxAttempts
      invariant cfg.maxAttempts <= 0 ==> attempt == 0 && result == Nil
      invariant calls == attempt == |retries|
      invariant forall k :: 0 <= k < attempt ==> FailedRetryably(isRetryable, fn, k) && !ctxDone(k)
      invariant forall k :: 0 <= k < attempt ==>
            && fn(k).Failure?
            && retries[k] == OnRetry(k + 1, BackoffDelay(cfg, k, draws(k)), fn(k).error)
    {
      var err := fn(attempt);
      calls := calls + 1;
      if err.Success? {
        return Nil, calls, retries;
      }
      result := Failed(err.error);
      if !isRetryable(err.error) || attempt == cfg.maxAttempts - 1 {
        return;
      }
      var delay := BackoffDelay(cfg, attempt, draws(attempt));
      retries := retries + [OnRetry(attempt + 1, delay, err.error)];
      if ctxDone(attempt) {
        return ContextDone, calls, retries;
      }
      attempt := attempt + 1;
    }
  }

  /** One run of Do with at least one attempt allowed, clause by clause: how many calls, when it
      succeeds, when it gives up, when it is cancelled, and what OnRetry sees. */
  lemma TraceCharacterised<E(!new)>(cfg: Config, isRetryable: E -> bool, fn: nat -> Outcome<E>,
                                    ctxDone: nat -> bool, draws: nat -> nat,
                                    result: DoResult<E>, calls: nat, retries: seq<OnRetry<E>>)
    requires ValidConfig(cfg) && cfg.maxAttempts >= 1
    requires DoTrace(cfg, isRetryable, fn, ctxDone, draws, result, calls, retries)
    ensures 1 <= calls <= cfg.maxAttempts
    ensures forall k :: 0 <= k < calls - 1 ==> fn(k).Failure? && isRetryable(fn(k).error) && !ctxDone(k)
    ensures result.Nil? <==> fn(calls - 1).Success?
    ensures result.Failed? <==>
      && fn(calls - 1).Failure?
      && (!isRetryable(fn(calls - 1).error) || calls == cfg.maxAttempts)
    ensures result.Failed? ==> result.error == fn(calls - 1).error
    ensures result.ContextDone? <==>
      calls < cfg.maxAttempts && fn(calls - 1).Failure? && isRetryable(fn(calls - 1).error)
    ensures result.ContextDone? ==> ctxDone(calls - 1)
    ensures |retries| == if result.ContextDone? then calls else calls - 1
    ensures forall k :: 0 <= k < |retries| ==>
      && fn(k).Failure?
      && retries[k] == OnRetry(k + 1, BackoffDelay(cfg, k, draws(k)), fn(k).error)
  {
    forall k | 0 <= k < calls - 1
      ensures fn(k).Failure? && isRetryable(fn(k).error) && !ctxDone(k)
    {
      assert FailedRetryably(isRetryable, fn, k);
    }
    match result
    case Nil =>
    case Failed(_) =>
    case ContextDone => assert FailedRetryably(isRetryable, fn, calls - 1);
  }

  /** The trace is determined by its inputs, so DoTrace is a complete specification. */
  lemma DoTraceUnique<E(!new)>(cfg: Config, isRetryable: E -> bool, fn: nat -> Outcome<E>,
                               ctxDone: nat -> bool, draws: nat -> nat,
                               r1: DoResult<E>, c1: nat, s1: seq<OnRetry<E>>,
                               r2: DoResult<E>, c2: nat, s2: seq<OnRetry<E>>)
    requires ValidConfig(cfg)
    requires DoTrace(cfg, isRetryable, fn, ctxDone, draws, r1, c1, s1)
    requires DoTrace(cfg, isRetryable, fn, ctxDone, draws, r2, c2, s2)
    ensures r1 == r2 && c1 == c2 && s1 == s2
  {
    if cfg.maxAttempts > 0 {
      var lastRetryable1 := FailedRetryably(isRetryable, fn, c1 - 1);
      var lastRetryable2 := FailedRetryably(isRetryable, fn, c2 - 1);
      assert c1 == c2;
    }
  }

  // ---------------------------------------------------------------- the retry budget

  ghost function DelayOf<E(!new)>(): OnRetry<E> -> int {
    (r: OnRetry<E>) => r.delay
  }

  /** The sum of the first n caps. */
  ghost function CapSum(cfg: Config, n: nat): int {
    if n == 0 then 0 else CapSum(cfg, n - 1) + Cap(cfg, n - 1)
  }

  /** The sum of their lower halves. */
  ghost function HalfCapSum(cfg: Config, n: nat): int {
    if n == 0 then 0 else HalfCapSum(cfg, n - 1) + Cap(cfg, n - 1) / 2
  }

  /** Of the first n delays, which double, the first j are not capped and the others are. */
  ghost predicate CappedFrom(cfg: Config, n: nat, j: nat) {
    && j <= n
    && (j > 0 ==> cfg.baseDelay * Pow2(j - 1) <= cfg.maxDelay)
    && (j < n ==> cfg.baseDelay * Pow2(j) >= cfg.maxDelay)
  }

  /** Every schedule has such a j. */
  lemma {:induction false} SomeCappedFrom(cfg: Config, n: nat) returns (j: nat)
    requires cfg.baseDelay > 0 && cfg.maxDelay > 0
    ensures CappedFrom(cfg, n, j)
  {
    if n == 0 {
      j := 0;
    } else {
      j := SomeCappedFrom(cfg, n - 1);
      if j == n - 1 && cfg.baseDelay * Pow2(j) <= cfg.maxDelay {
        j := n;
      }
    }
  }

  /** j uncapped doublings followed by full caps. */
  lemma {:induction false} CapSumClosedForm(cfg: Config, n: nat, j: nat)
    requires ValidConfig(cfg) && cfg.baseDelay > 0 && cfg.maxDelay > 0
    requires WrapSafe(cfg.baseDelay, cfg.maxDelay)
    requires CappedFrom(cfg, n, j)
    ensures CapSum(cfg, n) == cfg.baseDelay * (Pow2(j) - 1) + (n - j) * cfg.maxDelay
  {
    if n == 0 {
      assert cfg.baseDelay * 0 == 0 * cfg.maxDelay == 0;
    } else if j == n {
      LastDoubles(cfg, n);
      CapSumClosedForm(cfg, n - 1, n - 1);
      OneMoreDoubling(cfg.baseDelay, n);
      assert 0 * cfg.maxDelay == 0;
    } else {
      LastIsFull(cfg, n, j);
      CapSumClosedForm(cfg, n - 1, j);
      OneMoreTerm(n - j, cfg.maxDelay);
    }
  }

  lemma LastDoubles(cfg: Config, n: nat)
    requires ValidConfig(cfg) && cfg.baseDelay > 0 && cfg.maxDelay > 0
    requires WrapSafe(cfg.baseDelay, cfg.maxDelay)
    requires n > 0 && CappedFrom(cfg, n, n)
    ensures CapSum(cfg, n) == CapSum(cfg, n - 1) + cfg.baseDelay * Pow2(n - 1)
    ensures CappedFrom(cfg, n - 1, n - 1)
  {
    CapAt(cfg, n - 1);
    if n > 1 {
      ScaledGrows(cfg.baseDelay, n - 2, n - 1);
    }
  }

  lemma LastIsFull(cfg: Config, n: nat, j: nat)
    requires ValidConfig(cfg) && cfg.baseDelay > 0 && cfg.maxDelay > 0
    requires WrapSafe(cfg.baseDelay, cfg.maxDelay)
    requires j < n && CappedFrom(cfg, n, j)
    ensures CapSum(cfg, n) == CapSum(cfg, n - 1) + cfg.maxDelay
    ensures CappedFrom(cfg, n - 1, j)
  {
    CapAt(cfg, n - 1);
    ScaledGrows(cfg.baseDelay, j, n - 1);
  }

  lemma ScaledGrows(x: nat, m: nat, n: nat)
    requires x > 0 && m <= n
    ensures x * Pow2(m) <= x * Pow2(n)
  {
    Pow2Grows(m, n);
    ScaleStrict(Pow2(n), Pow2(m), x);
  }

  lemma OneMoreDoubling(base: int, j: nat)
    requires j > 0
    ensures base * (Pow2(j) - 1) == base * (Pow2(j - 1) - 1) + base * Pow2(j - 1)
  {
    var p := Pow2(j - 1);
    assert base * (2 * p - 1) == base * (p - 1) + base * p;
  }

  lemma OneMoreTerm(k: int, x: int)
    ensures k * x == (k - 1) * x + x
  {
  }

  /** The sums of caps with one more delay. */
  lemma OneMoreDelay(cfg: Config, n: nat, draw: nat)
    requires ValidConfig(cfg) && cfg.maxDelay > 0
    ensures HalfCapSum(cfg, n + 1) - HalfCapSum(cfg, n) <= BackoffDelay(cfg, n, draw)
         <= CapSum(cfg, n + 1) - CapSum(cfg, n)
  {
    assert Cap(cfg, n) / 2 <= BackoffDelay(cfg, n, draw) <= Cap(cfg, n);
  }

  /** What the OnRetry callbacks announce is what is slept; their sum lies between
      the sum of the half caps and the sum of the caps. */
  lemma {:induction false} SleepBounds<E(!new)>(cfg: Config, draws: nat -> nat, retries: seq<OnRetry<E>>)
    requires ValidConfig(cfg) && cfg.maxDelay > 0
    requires forall k :: 0 <= k < |retries| ==> retries[k].delay == BackoffDelay(cfg, k, draws(k))
    ensures HalfCapSum(cfg, |retries|) <= SumBy(retries, DelayOf()) <= CapSum(cfg, |retries|)
  {
    if retries != [] {
      var n := |retries| - 1;
      SleepBounds(cfg, draws, retries[..n]);
      OneMoreDelay(cfg, n, draws(n));
      SumAppend(retries[..n], retries[n], DelayOf());
      assert retries == retries[..n] + [retries[n]];
    }
  }

  lemma ExhaustedRetries<E(!new)>(cfg: Config, isRetryable: E -> bool, fn: nat -> Outcome<E>,
                                  ctxDone: nat -> bool, draws: nat -> nat,
                                  e: E, calls: nat, retries: seq<OnRetry<E>>)
    requires ValidConfig(cfg) && 0 < cfg.maxAttempts
    requires DoTrace(cfg, isRetryable, fn, ctxDone, draws, Failed(e), calls, retries) && isRetryable(e)
    ensures |retries| == cfg.maxAttempts - 1
    ensures forall k :: 0 <= k < |retries| ==> retries[k].delay == BackoffDelay(cfg, k, draws(k))
  {
  }

  /** An exhausted run sleeps before every attempt but the first. */
  lemma ExhaustedRunBudget<E(!new)>(cfg: Config, isRetryable: E -> bool, fn: nat -> Outcome<E>,
                                    ctxDone: nat -> bool, draws: nat -> nat,
                                    e: E, calls: nat, retries: seq<OnRetry<E>>, j: nat)
    requires ValidConfig(cfg) && 0 < cfg.maxAttempts && 0 < cfg.baseDelay && 0 < cfg.maxDelay
    requires WrapSafe(cfg.baseDelay, cfg.maxDelay)
    requires DoTrace(cfg, isRetryable, fn, ctxDone, draws, Failed(e), calls, retries) && isRetryable(e)
    requires CappedFrom(cfg, cfg.maxAttempts - 1, j)
    ensures |retries| == cfg.maxAttempts - 1
    ensures HalfCapSum(cfg, |retries|) <= SumBy(retries, DelayOf()) <= CapSum(cfg, |retries|)
    ensures CapSum(cfg, |retries|) == cfg.baseDelay * (Pow2(j) - 1) + (|retries| - j) * cfg.maxDelay
  {
    ExhaustedRetries(cfg, isRetryable, fn, ctxDone, draws, e, calls, retries);
    SleepBounds(cfg, draws, retries);
    CapSumOf(cfg, |retries|, cfg.maxAttempts - 1, j);
  }

  lemma CapSumOf(cfg: Config, n: nat, retries: int, j: nat)
    requires ValidConfig(cfg) && 0 < cfg.baseDelay && 0 < cfg.maxDelay && WrapSafe(cfg.baseDelay, cfg.maxDelay)
    requires n == retries && CappedFrom(cfg, retries, j)
    ensures CapSum(cfg, n) == cfg.baseDelay * (Pow2(j) - 1) + (n - j) * cfg.maxDelay
  {
    CapSumClosedForm(cfg, n, j);
  }
}
