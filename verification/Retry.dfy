/** Sending a request again after a retryable answer, and the back-off between. */
module Retry {
  import opened Wrappers

  const BILLION: nat := 1000000000
  const U64_MAX: nat := 0xFFFF_FFFF_FFFF_FFFF
  const U32_MAX: nat := 0xFFFF_FFFF

  newtype u8 = n: int | 0 <= n < 256

  // ------------------------------------------------------------------------- durations

  datatype Duration = Duration(secs: nat, nanos: nat)

  predicate Valid(d: Duration)
  {
    d.secs <= U64_MAX && d.nanos < BILLION
  }

  function Nanos(d: Duration): nat
  {
    d.secs * BILLION + d.nanos
  }

  const LONGEST := Duration(U64_MAX, BILLION - 1)

  /** `Duration::checked_mul`, part by part. */
  function CheckedMul(d: Duration, n: nat): Option<Duration>
  {
    var total := d.nanos * n;
    var secs := d.secs * n;
    if secs > U64_MAX || secs + total / BILLION > U64_MAX then None
    else Some(Duration(secs + total / BILLION, total % BILLION))
  }

  /** The product is exact, and it is missing exactly when it would be too long. */
  lemma CheckedMulExact(d: Duration, n: nat)
    requires Valid(d)
    ensures CheckedMul(d, n).Some? <==> Nanos(d) * n <= Nanos(LONGEST)
    ensures var r := CheckedMul(d, n); r.Some? ==> Valid(r.value) && Nanos(r.value) == Nanos(d) * n
  {
    var total, secs := d.nanos * n, d.secs * n;
    assert Nanos(d) * n == secs * BILLION + total by {
      assert (d.secs * BILLION + d.nanos) * n == (d.secs * BILLION) * n + d.nanos * n;
      assert (d.secs * BILLION) * n == (d.secs * n) * BILLION;
    }
    assert total == total / BILLION * BILLION + total % BILLION;
  }

  function Pow2(n: nat): (r: nat)
    ensures r > 0
  {
    if n == 0 then 1 else 2 * Pow2(n - 1)
  }

  lemma {:induction false} Pow2Monotone(i: nat, j: nat)
    requires i <= j
    ensures Pow2(i) <= Pow2(j)
  {
    if i < j { Pow2Monotone(i, j - 1); }
  }

  /** `1_u32.checked_shl(i).unwrap_or(u32::MAX)`. */
  function Factor(i: u8): nat
  {
    if i < 32 then Pow2(i as nat) else U32_MAX
  }

  /** `RetryPolicy::delay`. */
  function Delay(initial: Duration, i: u8): Duration
  {
    match CheckedMul(initial, Factor(i))
    case Some(d) => d
    case None => LONGEST
  }

  /** Each delay is the initial one doubled so many times, capped at the longest
      duration; past 32 doublings the factor stops growing. */
  lemma DelayExact(initial: Duration, i: u8)
    requires Valid(initial)
    ensures var d, exact := Delay(initial, i), Nanos(initial) * (if i < 32 then Pow2(i as nat) else U32_MAX);
      Valid(d) && Nanos(d) == if exact <= Nanos(LONGEST) then exact else Nanos(LONGEST)
  {
    CheckedMulExact(initial, Factor(i));
  }

  lemma FactorMonotone(i: u8, j: u8)
    requires i <= j
    ensures Factor(i) <= Factor(j)
  {
    if j < 32 {
      Pow2Monotone(i as nat, j as nat);
    } else if i < 32 {
      Pow2Monotone(i as nat, 31);
      assert Pow2(10) == 1024;
      assert Pow2(20) == 1024 * Pow2(10);
      assert Pow2(31) == 2048 * Pow2(20);
    }
  }

  /** The first delays, the longest duration and the factor of later ones, in numbers. */
  lemma DelayNumbers(initial: Duration, i: u8)
    requires Valid(initial)
    ensures Nanos(LONGEST) == 18446744073709551615 * 1000000000 + 999999999
    ensures Nanos(initial) == initial.secs * 1000000000 + initial.nanos
    ensures Pow2(0) == 1 && Pow2(1) == 2 && (i < 31 ==> Pow2(i as nat + 1) == 2 * Pow2(i as nat))
    ensures i >= 32 && Nanos(initial) * 4294967295 <= Nanos(LONGEST) ==>
      Nanos(Delay(initial, i)) == Nanos(initial) * 4294967295
  {
    DelayExact(initial, i);
  }

  /** No retry waits less than the one before it. */
  lemma DelayMonotone(initial: Duration, i: u8, j: u8)
    requires Valid(initial) && i <= j
    ensures Nanos(Delay(initial, i)) <= Nanos(Delay(initial, j))
  {
    DelayExact(initial, i);
    DelayExact(initial, j);
    FactorMonotone(i, j);
    Larger(Nanos(initial), Factor(i), Factor(j));
  }

  lemma Larger(n: nat, x: nat, y: nat)
    requires x <= y
    ensures n * x <= n * y
  {
  }

  // --------------------------------------------------------------------------- the loop

  /** What happens at one attempt: the request cannot be cloned, or it is sent and
      answered with a status, or it is sent and the transport fails. */
  datatype Event = Uncloneable | Answer(status: nat) | Broken

  predicate RetryableStatus(status: nat)
  {
    status == 429 || 500 <= status < 600
  }

  /** Too many requests and every server error, nothing else. */
  lemma RetryableExactly(status: nat)
    ensures RetryableStatus(status) <==> status == 429 || status / 100 == 5
  {
  }

  /** An attempt after which none would follow even if more were allowed. */
  predicate Conclusive(e: Event)
  {
    e.Uncloneable? || (e.Answer? && !RetryableStatus(e.status))
  }

  /** What the caller gets from the last attempt made. */
  function Outcome(e: Event): Option<nat>
  {
    if e.Answer? then Some(e.status) else None
  }

  /** `send_with_retry`: the status that was answered or nothing for an error, with the
      number of requests sent and the delays slept. */
  method SendWithRetry(maxAttempts: u8, initial: Duration, world: nat -> Event)
    returns (r: Option<nat>, sends: nat, slept: seq<Duration>)
    ensures var attempts := if maxAttempts == 0 then 1 else maxAttempts as nat;
      exists last: nat ::
        && last < attempts
        && (forall i: nat :: i < last ==>
              world(i).Broken? || (world(i).Answer? && (world(i).status == 429 || world(i).status / 100 == 5)))
        && (last == attempts - 1 || world(last).Uncloneable?
            || (world(last).Answer? && world(last).status != 429 && world(last).status / 100 != 5))
        && r == (if world(last).Answer? then Some(world(last).status) else None)
        && sends == (if world(last).Uncloneable? then last else last + 1)
        && |slept| == last
        && forall i :: 0 <= i < last ==> slept[i] == Delay(initial, i as u8)
    ensures sends <= if maxAttempts == 0 then 1 else maxAttempts as nat
    ensures sends == 0 <==> world(0).Uncloneable?
  {
    var attempts := if maxAttempts == 0 then 1 else maxAttempts;
    var attempt: u8 := 0;
    sends := 0;
    slept := [];
    while attempt < attempts
      invariant attempt < attempts
      invariant sends == attempt as nat && |slept| == attempt as nat
      invariant forall i: nat :: i < attempt as nat ==> !Conclusive(world(i))
      invariant forall i :: 0 <= i < attempt as nat ==> slept[i] == Delay(initial, i as u8)
      decreases attempts - attempt
    {
      var event := world(attempt as nat);
      if event.Uncloneable? { return None, sends, slept; }
      sends := sends + 1;
      if event.Answer? && !(RetryableStatus(event.status) && attempt + 1 < attempts) {
        return Some(event.status), sends, slept;
      }
      if event.Broken? && !(attempt + 1 < attempts) { return None, sends, slept; }
      slept := slept + [Delay(initial, attempt)];
      attempt := attempt + 1;
    }
    // The error after the loop of the source: the last attempt always returns.
    assert false;
  }
}
