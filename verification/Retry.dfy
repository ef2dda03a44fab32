/** The client's retry loop and its backoff, in the machine integers the source uses. */
module Retry {

  const MILLISECOND := 1_000_000
  const SECONDS_30 := 30_000_000_000

  function Pow2(n: nat): nat { if n == 0 then 1 else 2 * Pow2(n - 1) }

  /** The value an int64 holds after an operation whose exact result is `x`. */
  function Wrap64(x: int): int {
    var m := x % 0x1_0000_0000_0000_0000;
    if m >= 0x8000_0000_0000_0000 then m - 0x1_0000_0000_0000_0000 else m
  }

  /** `1 << attempt` as an int64. */
  function Shifted(attempt: nat): int { if attempt >= 64 then 0 else Wrap64(Pow2(attempt)) }

  /** The exponential delay before jitter, as computed. */
  function Base(attempt: nat): int {
    var product := Wrap64(Shifted(attempt) * (500 * MILLISECOND));
    if product > SECONDS_30 then SECONDS_30 else product
  }

  /** Integer division that truncates toward zero. */
  function Half(x: int): int { if x >= 0 then x / 2 else -((-x) / 2) }

  datatype Backoff = Wait(d: int) | Panic

  /** The delay for one draw of the random source, which refuses an empty range. */
  function DefaultBackoff(attempt: nat, draw: nat): Backoff {
    var base := Base(attempt);
    if Half(base) + 1 <= 0 then Panic else Wait(Half(base) + draw % (Half(base) + 1))
  }

  function Min(a: int, b: int): int { if a < b then a else b }

  /** The documented delay: half a second doubled on every attempt, at most 30 seconds. */
  function Nominal(attempt: nat): nat { Min(500 * MILLISECOND * Pow2(attempt), SECONDS_30) }

  /** Equal jitter: every draw waits between half the documented delay and all of it. */
  ghost predicate Sound(attempt: nat) {
    forall draw: nat :: InRange(DefaultBackoff(attempt, draw), Nominal(attempt))
  }

  predicate InRange(b: Backoff, nominal: nat) { b.Wait? && nominal / 2 <= b.d <= nominal }

  /** The attempts whose product overflows int64 to a positive value all the same. */
  const LUCKY: set<nat> := {38, 42, 43, 46, 48, 51, 52, 54}

  lemma {:induction false} Pow2Grows(a: nat, b: nat)
    requires a <= b
    ensures Pow2(a) <= Pow2(b) && Pow2(a) >= 1
    decreases b
  {
    if a < b { Pow2Grows(a, b - 1); }
    else if a > 0 { Pow2Grows(a - 1, a - 1); }
  }

  lemma Pow2Values()
    ensures Pow2(6) == 64 && Pow2(8) == 0x100 && Pow2(16) == 0x1_0000 && Pow2(32) == 0x1_0000_0000
    ensures Pow2(34) == 0x4_0000_0000 && Pow2(35) == 0x8_0000_0000
  {
    Pow2Adds(4, 4);
    Pow2Adds(8, 8);
    Pow2Adds(16, 16);
    Pow2Adds(32, 2);
    Pow2Adds(32, 3);
  }

  lemma {:induction false} Pow2Adds(a: nat, b: nat)
    ensures Pow2(a + b) == Pow2(a) * Pow2(b)
  {
    if b > 0 { Pow2Adds(a, b - 1); }
  }

  lemma NoWrap(x: nat)
    requires x < 0x8000_0000_0000_0000
    ensures Wrap64(x) == x
  {}

  /** A multiple of 2^43 wraps around in its upper 21 bits. */
  lemma WrapScaled(m: nat)
    ensures
      var r := m % 0x20_0000;
      Wrap64(m * 0x800_0000_0000) == (if r < 0x10_0000 then r else r - 0x20_0000) * 0x800_0000_0000
  {}

  /** No overflow up to attempt 34. */
  lemma SmallBase(attempt: nat)
    requires attempt <= 34
    ensures Base(attempt) == Nominal(attempt)
  {
    hide Pow2, Wrap64;
    Pow2Grows(attempt, 34);
    Pow2Values();
    NoWrap(Pow2(attempt));
    NoWrap(Pow2(attempt) * (500 * MILLISECOND));
  }

  /** From attempt 35 on the product is 1953125 * 2^(attempt-35) * 2^43, wrapped around. */
  lemma LargeBase(attempt: nat)
    requires 35 <= attempt < 63
    ensures
      var r := (1953125 * Pow2(attempt - 35)) % 0x20_0000;
      var product := (if r < 0x10_0000 then r else r - 0x20_0000) * 0x800_0000_0000;
      Base(attempt) == if product > SECONDS_30 then SECONDS_30 else product
  {
    hide Pow2, Wrap64;
    Pow2Grows(attempt, 62);
    Pow2Values();
    Pow2Adds(31, 31);
    Pow2Adds(16, 15);
    Pow2Adds(8, 7);
    Pow2Seven();
    Pow2Adds(35, attempt - 35);
    NoWrap(Pow2(attempt));
    WrapScaled(1953125 * Pow2(attempt - 35));
  }

  lemma Pow2Seven()
    ensures Pow2(7) == 128
  {}

  /** The upper 21 bits after `n` doublings. */
  function Kept(n: nat): nat { if n == 0 then 1953125 else (2 * Kept(n - 1)) % 0x20_0000 }

  lemma {:induction false} KeptIsRemainder(n: nat)
    ensures (1953125 * Pow2(n)) % 0x20_0000 == Kept(n)
  {
    if n > 0 {
      KeptIsRemainder(n - 1);
      DoubleRemainder(1953125 * Pow2(n - 1));
    }
  }

  lemma DoubleRemainder(m: nat)
    ensures (2 * m) % 0x20_0000 == (2 * (m % 0x20_0000)) % 0x20_0000
  {}

  lemma {:induction false} KeptVanishes(n: nat)
    requires n >= 21
    ensures Kept(n) == 0
  {
    if n == 21 { KeptTable(); } else { KeptVanishes(n - 1); }
  }

  lemma KeptNext(n: nat, v: nat)
    requires Kept(n) == v
    ensures Kept(n + 1) == (2 * v) % 0x20_0000
  {}

  lemma KeptEarly()
    ensures Kept(10) == 1414144
    ensures forall n: nat :: n <= 10 ==> Kept(n) != 0 && (Kept(n) < 0x10_0000 <==> n + 35 in LUCKY)
  {
    assert Kept(0) == 1953125;
    hide Kept;
    KeptNext(0, 1953125); KeptNext(1, 1809098); KeptNext(2, 1521044); KeptNext(3, 944936);
    KeptNext(4, 1889872); KeptNext(5, 1682592); KeptNext(6, 1268032); KeptNext(7, 438912);
    KeptNext(8, 877824); KeptNext(9, 1755648);
  }

  lemma KeptTable()
    ensures Kept(21) == 0
    ensures forall n: nat :: n <= 20 ==> Kept(n) != 0 && (Kept(n) < 0x10_0000 <==> n + 35 in LUCKY)
  {
    hide Kept;
    KeptEarly();
    KeptNext(10, 1414144); KeptNext(11, 731136); KeptNext(12, 1462272); KeptNext(13, 827392);
    KeptNext(14, 1654784); KeptNext(15, 1212416); KeptNext(16, 327680); KeptNext(17, 655360);
    KeptNext(18, 1310720); KeptNext(19, 524288); KeptNext(20, 1048576);
  }

  /** Which doublings leave a positive number. */
  lemma KeptBits(n: nat)
    ensures
      var r := (1953125 * Pow2(n)) % 0x20_0000;
      && (n > 20 ==> r == 0)
      && (n <= 20 ==> r != 0 && (r < 0x10_0000 <==> n + 35 in LUCKY))
  {
    hide Kept;
    KeptIsRemainder(n);
    if n > 20 { KeptVanishes(n); } else { KeptTable(); }
  }

  lemma WrappedMiddle(attempt: nat)
    requires 35 <= attempt < 63
    ensures attempt >= 56 ==> Base(attempt) == 0
    ensures attempt < 56 && attempt in LUCKY ==> Base(attempt) == SECONDS_30
    ensures attempt < 56 && attempt !in LUCKY ==> Base(attempt) <= -2
  {
    hide Base, Pow2, LUCKY;
    LargeBase(attempt);
    KeptBits(attempt - 35);
  }

  lemma SignBit()
    ensures Base(63) == 0
  {
    hide Pow2;
    Pow2Adds(32, 31);
    Pow2Adds(16, 15);
    Pow2Adds(8, 7);
    Pow2Values();
    Pow2Seven();
  }

  lemma WrappedBase(attempt: nat)
    requires attempt >= 35
    ensures Nominal(attempt) == SECONDS_30
    ensures attempt >= 56 ==> Base(attempt) == 0
    ensures attempt < 56 && attempt in LUCKY ==> Base(attempt) == SECONDS_30
    ensures attempt < 56 && attempt !in LUCKY ==> Base(attempt) <= -2
  {
    hide Pow2, LUCKY;
    Pow2Grows(6, attempt);
    Pow2Values();
    if attempt < 63 { WrappedMiddle(attempt); } else if attempt == 63 { SignBit(); }
  }

  /** The documented backoff is met by every attempt up to 34 and by eight later ones;
      every other attempt either panics in the random source or does not wait at all. */
  lemma BackoffSoundIff(attempt: nat)
    ensures Sound(attempt) <==> attempt <= 34 || attempt in LUCKY
    ensures attempt > 34 && attempt !in LUCKY ==>
      forall draw: nat :: DefaultBackoff(attempt, draw) == if attempt < 56 then Panic else Wait(0)
  {
    if attempt <= 34 { SmallBase(attempt); } else { WrappedBase(attempt); }
    if attempt <= 34 || attempt in LUCKY {
      assert Base(attempt) == Nominal(attempt);
      forall draw: nat ensures InRange(DefaultBackoff(attempt, draw), Nominal(attempt)) {}
    } else {
      assert !InRange(DefaultBackoff(attempt, 0), Nominal(attempt));
    }
  }

  /** The jitter reaches the whole range: every wait between half the documented delay and twice
      that half comes from some draw. */
  lemma JitterReachesAll(attempt: nat, d: nat)
    requires attempt <= 34 && Nominal(attempt) / 2 <= d <= 2 * (Nominal(attempt) / 2)
    ensures exists draw: nat :: DefaultBackoff(attempt, draw) == Wait(d)
  {
    hide Base, Nominal;
    SmallBase(attempt);
    var half := Nominal(attempt) / 2;
    var draw: nat := d - half;
    assert draw % (half + 1) == draw;
    assert DefaultBackoff(attempt, draw) == Wait(d);
  }

  // ---- the retry loop ----

  /** What one request comes back with: whether to try again, after how long if the server
      said so, and otherwise the answer. */
  datatype Reply<T> = Reply(wait: int, retry: bool, body: T)

  /** The world around the loop, request by request: replies, cancellation before a request
      and after it, interruption of the sleep that follows, and the random draws. */
  datatype Net<!T> = Net(
    reply: nat -> Reply<T>, stopped: nat -> bool, cancelled: nat -> bool, interrupted: nat -> bool, draw: nat -> nat)

  datatype Answer<T> = Answered(body: T) | Failed | Panicked

  /** `slept` is the time spent in backoff, `imposed` the time the server asked to wait. */
  datatype Attempted<T> = Attempted(answer: Answer<T>, requests: nat, slept: int, imposed: int)

  /** The loop from attempt `k` on, `first` being the number of its first request. */
  function Attempts<T>(net: Net<T>, maxRetries: int, first: nat, k: nat): Attempted<T>
    decreases maxRetries - k
  {
    if net.stopped(first + k) then Attempted(Failed, k, 0, 0)
    else
      var r := net.reply(first + k);
      if !r.retry then Attempted(Answered(r.body), k + 1, 0, 0)
      else if net.cancelled(first + k) || k >= maxRetries then Attempted(Failed, k + 1, 0, 0)
      else if r.wait > 0 then
        if net.interrupted(first + k) then Attempted(Failed, k + 1, 0, r.wait)
        else
          var rest := Attempts(net, maxRetries, first, k + 1);
          rest.(imposed := rest.imposed + r.wait)
      else
        match DefaultBackoff(k, net.draw(first + k))
        case Panic => Attempted(Panicked, k + 1, 0, 0)
        case Wait(d) =>
          if net.interrupted(first + k) then Attempted(Failed, k + 1, d, 0)
          else
            var rest := Attempts(net, maxRetries, first, k + 1);
            rest.(slept := rest.slept + d)
  }

  method Do<T>(net: Net<T>, maxRetries: int, first: nat)
    returns (answer: Answer<T>, requests: nat, slept: int, imposed: int)
    ensures Attempted(answer, requests, slept, imposed) == Attempts(net, maxRetries, first, 0)
  {
    slept, imposed := 0, 0;
    var attempt := 0;
    while true
      invariant attempt == 0 || attempt <= maxRetries
      invariant
        var rest := Attempts(net, maxRetries, first, attempt);
        rest.(slept := slept + rest.slept, imposed := imposed + rest.imposed) == Attempts(net, maxRetries, first, 0)
      decreases maxRetries - attempt
    {
      if net.stopped(first + attempt) { return Failed, attempt, slept, imposed; }
      var r := net.reply(first + attempt);
      if !r.retry { return Answered(r.body), attempt + 1, slept, imposed; }
      if net.cancelled(first + attempt) || attempt >= maxRetries { return Failed, attempt + 1, slept, imposed; }
      if r.wait > 0 {
        imposed := imposed + r.wait;
      } else {
        match DefaultBackoff(attempt, net.draw(first + attempt)) {
          case Panic => return Panicked, attempt + 1, slept, imposed;
          case Wait(d) => slept := slept + d;
        }
      }
      if net.interrupted(first + attempt) { return Failed, attempt + 1, slept, imposed; }
      attempt := attempt + 1;
    }
  }

  function Retries(maxRetries: int): nat { if maxRetries < 0 then 0 else maxRetries }

  /** At most max(0, maxRetries) + 1 requests; an answer is the first reply that is not to
      be retried. */
  lemma {:induction false} AttemptsBounded<T>(net: Net<T>, maxRetries: int, first: nat, k: nat)
    requires k <= Retries(maxRetries)
    ensures
      var a := Attempts(net, maxRetries, first, k);
      && k <= a.requests <= Retries(maxRetries) + 1
      && (forall j: nat :: first + k <= j < first + a.requests - 1 ==> net.reply(j).retry)
      && (a.answer.Answered? ==>
            a.requests > k && var r := net.reply(first + a.requests - 1); !r.retry && r.body == a.answer.body)
    decreases maxRetries - k
  {
    hide DefaultBackoff;
    if k < maxRetries { AttemptsBounded(net, maxRetries, first, k + 1); }
  }

  // ---- when it gives up ----

  /** Nothing stops or cancels the request of attempt `k`, nor interrupts the sleep after it. */
  predicate Undisturbed<T>(net: Net<T>, first: nat, k: nat) {
    !net.stopped(first + k) && !net.cancelled(first + k) && !net.interrupted(first + k)
  }

  /** The reply of attempt `k` asks for another try, and the sleep before it is possible. */
  predicate CanRetry<T>(net: Net<T>, first: nat, k: nat) {
    var r := net.reply(first + k);
    r.retry && (r.wait > 0 || DefaultBackoff(k, net.draw(first + k)).Wait?)
  }

  /** The time the sleeps after attempts `k` to `n - 1` take: what the server imposed, and backoff
      where it imposed nothing. */
  function Sleeps<T>(net: Net<T>, first: nat, k: nat, n: nat): (int, int)
    decreases n - k
  {
    if k >= n then (0, 0)
    else
      var (slept, imposed) := Sleeps(net, first, k + 1, n);
      var r := net.reply(first + k);
      if r.wait > 0 then (slept, imposed + r.wait)
      else
        match DefaultBackoff(k, net.draw(first + k))
        case Wait(d) => (slept + d, imposed)
        case Panic => (slept, imposed)
  }

  /** The loop fails only if a request it made, or was about to make, was disturbed, or if every
      request it may make has been made and asked for another try. */
  lemma {:induction false} FailsOnlyIf<T>(net: Net<T>, maxRetries: int, first: nat, k: nat)
    requires k <= Retries(maxRetries) && Attempts(net, maxRetries, first, k).answer.Failed?
    ensures
      var a := Attempts(net, maxRetries, first, k);
      || (exists j: nat :: k <= j <= a.requests && !Undisturbed(net, first, j))
      || (a.requests == Retries(maxRetries) + 1
          && forall j: nat :: first + k <= j < first + a.requests ==> net.reply(j).retry)
    decreases maxRetries - k
  {
    hide DefaultBackoff;
    AttemptsBounded(net, maxRetries, first, k);
    if Undisturbed(net, first, k) && k < maxRetries { FailsOnlyIf(net, maxRetries, first, k + 1); }
  }

  /** Undisturbed, the loop goes through every attempt that can be retried, whatever waits the
      server imposes: it answers with the first reply that is final, and fails only when it has
      none left. */
  lemma {:induction false} AnswersWithFirstFinal<T>(net: Net<T>, maxRetries: int, first: nat, k: nat, n: nat)
    requires k <= n <= Retries(maxRetries)
    requires forall j: nat :: k <= j < n ==> Undisturbed(net, first, j) && CanRetry(net, first, j)
    requires !net.stopped(first + n)
    requires net.reply(first + n).retry ==> n == Retries(maxRetries)
    ensures
      var a := Attempts(net, maxRetries, first, k);
      && a.requests == n + 1 && (a.slept, a.imposed) == Sleeps(net, first, k, n)
      && a.answer == if net.reply(first + n).retry then Failed else Answered(net.reply(first + n).body)
    decreases n - k
  {
    hide DefaultBackoff;
    if k < n {
      assert CanRetry(net, first, k);
      AnswersWithFirstFinal(net, maxRetries, first, k + 1, n);
    }
  }

  /** The documented delays of attempts `k` to `n - 1`, added up. */
  function Budget(k: nat, n: nat): nat
    decreases n - k
  {
    if k >= n then 0 else Nominal(k) + Budget(k + 1, n)
  }

  /** With up to 35 retries nothing panics and backoff sleeps within the budget. */
  lemma {:induction false} SleepBounded<T>(net: Net<T>, maxRetries: int, first: nat, k: nat)
    requires k <= Retries(maxRetries) <= 35
    ensures
      var a := Attempts(net, maxRetries, first, k);
      !a.answer.Panicked? && 0 <= a.slept <= Budget(k, Retries(maxRetries))
    decreases maxRetries - k
  {
    hide DefaultBackoff, Nominal;
    if k < maxRetries {
      BackoffSoundIff(k);
      assert InRange(DefaultBackoff(k, net.draw(first + k)), Nominal(k));
      SleepBounded(net, maxRetries, first, k + 1);
    }
  }

  /** A server that always asks for another try leads past every attempt to the one whose backoff
      panics. */
  lemma {:induction false} RetriesPanic<T>(net: Net<T>, maxRetries: int, first: nat, k: nat)
    requires maxRetries > 35 && k <= 35
    requires forall j: nat :: !net.stopped(j) && !net.cancelled(j) && !net.interrupted(j) && net.draw(j) == 0
    requires forall j: nat :: net.reply(j).retry && net.reply(j).wait == 0
    ensures Attempts(net, maxRetries, first, k).answer.Panicked?
    decreases 35 - k
  {
    hide DefaultBackoff;
    BackoffSoundIff(k);
    if k < 35 {
      assert InRange(DefaultBackoff(k, 0), Nominal(k));
      RetriesPanic(net, maxRetries, first, k + 1);
    }
  }

  predicate Panics<T>(net: Net<T>, maxRetries: int, first: nat) {
    Attempts(net, maxRetries, first, 0).answer.Panicked?
  }

  /** The loop is free of panics against every server exactly when it makes at most 35 retries. */
  lemma NoPanicIff<T>(maxRetries: int, body: T)
    ensures Retries(maxRetries) <= 35 <==> forall net: Net<T>, first: nat :: !Panics(net, maxRetries, first)
  {
    if Retries(maxRetries) <= 35 {
      forall net: Net<T>, first: nat ensures !Panics(net, maxRetries, first) {
        SleepBounded(net, maxRetries, first, 0);
      }
    } else {
      var net := Net(_ => Reply(0, true, body), _ => false, _ => false, _ => false, _ => 0);
      RetriesPanic(net, maxRetries, 0, 0);
      assert Panics(net, maxRetries, 0);
    }
  }

  /** The budget in closed form: half a second doubled six times, then 30 seconds each. */
  lemma {:induction false} BudgetClosed(n: nat)
    ensures
      Budget(0, n)
      == if n <= 6 then 500 * MILLISECOND * (Pow2(n) - 1) else 31_500 * MILLISECOND + SECONDS_30 * (n - 6)
  {
    hide Nominal;
    if n > 0 {
      BudgetClosed(n - 1);
      BudgetLast(0, n);
      NominalClosed(n - 1);
      assert Pow2(6) == 64 by { Pow2Values(); }
    }
  }

  lemma NominalClosed(k: nat)
    ensures Nominal(k) == if k <= 5 then 500 * MILLISECOND * Pow2(k) else SECONDS_30
  {
    Pow2Values();
    if k <= 5 { Pow2Grows(k, 5); assert Pow2(5) == 32; } else { Pow2Grows(6, k); }
  }

  lemma {:induction false} BudgetLast(k: nat, n: nat)
    requires k < n
    ensures Budget(k, n) == Budget(k, n - 1) + Nominal(n - 1)
    decreases n - k
  {
    hide Nominal;
    if k < n - 1 { BudgetLast(k + 1, n); }
  }
}
