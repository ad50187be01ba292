/**
  Desync recovery of one peer on values: the decrypt-failure counter, the in-flight mark, the fixed-window
  limiter and the exponential backoff of peer/peer.go, as node/data_flow.go and node/rehandshake.go drive
  them. Times are integers (nanoseconds); the zero time.Time is None.
*/
module Recovery {
  import opened Base

  datatype Gate = Gate(
    inFlight: bool,
    decryptFails: nat,
    rehandshakeFails: nat,
    backoff: int,
    nextAttempt: Option<int>,
    windowStart: Option<int>,
    windowCount: nat)

  /** The state UpgradeTransport and Close leave behind. */
  const CLEARED := Gate(false, 0, 0, 0, None, None, 0)

  const SECOND := 1_000_000_000

  /** The settings triggerFastRehandshake passes down. */
  datatype Config = Config(threshold: int, base: int, max: int, window: int, limit: int)

  /** What Config.Validate enforces. */
  predicate ValidConfig(c: Config) {
    c.threshold > 0 && 0 < c.base <= c.max && c.window > 0 && c.limit > 0
  }

  datatype Verdict = Busy | Refused(wait: int) | Admitted

  function Reserve(g: Gate, now: int, window: int, limit: int): (Gate, Verdict) {
    if g.nextAttempt.Some? && now < g.nextAttempt.value then
      (g, Refused(g.nextAttempt.value - now))
    else if window > 0 then
      var g' := if g.windowStart.None? || now - g.windowStart.value >= window
                then g.(windowStart := Some(now), windowCount := 0) else g;
      if limit > 0 && g'.windowCount >= limit then
        var wait := g'.windowStart.value + window - now;
        (g', Refused(if wait < 0 then 0 else wait))
      else
        (g'.(windowCount := g'.windowCount + 1), Admitted)
    else
      (g.(windowCount := g.windowCount + 1), Admitted)
  }

  /** The in-flight mark around Reserve; an admission clears the decrypt-failure counter. */
  function Trigger(g: Gate, c: Config, now: int): (Gate, Verdict) {
    if g.inFlight then (g, Busy)
    else
      var (g', verdict) := Reserve(g.(inFlight := true), now, c.window, c.limit);
      if verdict.Admitted? then (g'.(decryptFails := 0), Admitted) else (g'.(inFlight := false), verdict)
  }

  /** A packet that does not decrypt: count it and trigger at the threshold. */
  function OnDecryptFailure(g: Gate, c: Config, now: int): (Gate, Option<Verdict>) {
    var g' := g.(decryptFails := g.decryptFails + 1);
    if g'.decryptFails >= c.threshold then
      var (g'', verdict) := Trigger(g', c, now);
      (g'', Some(verdict))
    else (g', None)
  }

  // ---- When the gate admits ----

  /** The limiter's window is over or has room at time t. */
  predicate Room(c: Config, g: Gate, t: int) {
    g.windowStart.None? || t - g.windowStart.value >= c.window || g.windowCount < c.limit
  }

  /** With nothing in flight, the gate admits exactly when the backoff is over and the window has room. */
  lemma {:induction false} AdmitsExactly(g: Gate, c: Config, t: int)
    requires ValidConfig(c) && !g.inFlight
    ensures Trigger(g, c, t).1.Admitted? <==> (g.nextAttempt.Some? ==> g.nextAttempt.value <= t) && Room(c, g, t)
    ensures !Trigger(g, c, t).1.Admitted? ==> Trigger(g, c, t).1.Refused? && Trigger(g, c, t).1.wait > 0
  {
  }

  /**
    The wait of a refusal is never too long: before it is over the gate refuses too. When it is over the gate
    admits exactly when the window then has room.
  */
  lemma {:induction false} WaitIsLeast(g: Gate, c: Config, t: int, t': int)
    requires ValidConfig(c) && Trigger(g, c, t).1.Refused?
    ensures var end := t + Trigger(g, c, t).1.wait;
            && (t <= t' < end ==> Trigger(g, c, t').1.Refused?)
            && (Trigger(g, c, end).1.Admitted? <==> Room(c, g, end))
  {
  }

  /**
    The wait can be too short: after a failed attempt that used up the window, it speaks of the backoff only,
    and when that is over the gate refuses for the rest of the window.
  */
  lemma {:induction false} WaitTooShort(c: Config, t: int)
    requires ValidConfig(c) && c.limit == 1 && c.base < c.window
    ensures var g := RecordFailure(Trigger(CLEARED, c, t).0, t, c.base, c.max).(inFlight := false);
            && Trigger(g, c, t).1 == Refused(c.base)
            && Trigger(g, c, t + c.base).1 == Refused(c.window - c.base)
  {
  }

  /** The backoff after one more failure, in 64-bit arithmetic. */
  function NextBackoff(backoff: int, base: int, max: int): int {
    var lo := if base <= 0 then SECOND else base;
    var hi := if max > 0 && max < lo then lo else max;
    var doubled := Wrap64(backoff * 2);
    var grown := if backoff <= 0 then lo else if doubled < lo then lo else doubled;
    if hi > 0 && grown > hi then hi else grown
  }

  function RecordFailure(g: Gate, now: int, base: int, max: int): Gate {
    var b := NextBackoff(g.backoff, base, max);
    g.(rehandshakeFails := g.rehandshakeFails + 1, backoff := b, nextAttempt := Some(now + b))
  }

  function RecordSuccess(g: Gate, now: int, cooldown: int): Gate {
    g.(rehandshakeFails := 0, backoff := 0, nextAttempt := if cooldown > 0 then Some(now + cooldown) else None)
  }

  // ---- Closed form of the backoff ----

  function BackoffAfter(k: nat, base: int, max: int): int {
    if k == 0 then 0 else NextBackoff(BackoffAfter(k - 1, base, max), base, max)
  }

  /** base * 2^k */
  function Doubled(base: int, k: nat): (r: int)
    ensures base > 0 ==> r >= base
  {
    if k == 0 then base else 2 * Doubled(base, k - 1)
  }

  function ClosedForm(k: nat, base: int, max: int): int
    requires k >= 1
  {
    Min(Doubled(base, k - 1), max)
  }

  lemma {:induction false} BackoffClosedForm(k: nat, base: int, max: int)
    requires k >= 1 && 0 < base <= max < TWO_63
    requires max < TWO_62 || base == max
    ensures BackoffAfter(k, base, max) == ClosedForm(k, base, max)
  {
    if k > 1 {
      BackoffClosedForm(k - 1, base, max);
    }
  }

  /** Below the cap and below 2^62 the backoff doubles. */
  lemma {:induction false} DoublesBelow(k: nat, base: int, max: int)
    requires k >= 1 && 0 < base <= max < TWO_63
    requires Doubled(base, k - 1) < TWO_62 <= max
    ensures BackoffAfter(k, base, max) == Doubled(base, k - 1)
  {
    if k > 1 {
      DoublesBelow(k - 1, base, max);
    }
  }

  /** The first failure whose uncapped backoff reaches 2^62. */
  lemma {:induction false} ReachesTop(base: int, j: nat) returns (k: nat)
    requires 0 < base && Doubled(base, j) < TWO_62
    ensures k >= j && Doubled(base, k) < TWO_62 <= Doubled(base, k + 1)
    decreases TWO_62 - Doubled(base, j)
  {
    if Doubled(base, j + 1) >= TWO_62 {
      k := j;
    } else {
      k := ReachesTop(base, j + 1);
    }
  }

  /** With a cap of 2^62 or more above the base, some doubling overflows and drops the backoff to the base. */
  lemma {:induction false} BackoffOverflows(base: int, max: int) returns (k: nat)
    requires 0 < base < max < TWO_63 && max >= TWO_62
    ensures k >= 1 && BackoffAfter(k, base, max) != ClosedForm(k, base, max)
  {
    if base >= TWO_62 {
      k := 2;
      assert BackoffAfter(1, base, max) == base;
      assert Doubled(base, 1) == 2 * Doubled(base, 0);
    } else {
      var j := ReachesTop(base, 0);
      DoublesBelow(j + 1, base, max);
      assert BackoffAfter(j + 2, base, max) == Min(Doubled(base, j + 1), max);
      k := j + 3;
      assert BackoffAfter(k, base, max) == base;
      assert Doubled(base, j + 2) == 2 * Doubled(base, j + 1);
    }
  }

  /**
    After k consecutive failures the backoff is min(base * 2^(k-1), max) for every k exactly when the cap
    stays below 2^62 nanoseconds or equals the base. Config.Validate does not bound the cap, and with a
    larger one the doubling overflows int64.
  */
  lemma {:induction false} BackoffLaw(base: int, max: int)
    requires 0 < base <= max < TWO_63
    ensures (forall k: nat :: k >= 1 ==> BackoffAfter(k, base, max) == ClosedForm(k, base, max))
            <==> (max < TWO_62 || base == max)
  {
    if max < TWO_62 || base == max {
      forall k: nat | k >= 1
        ensures BackoffAfter(k, base, max) == ClosedForm(k, base, max)
      {
        BackoffClosedForm(k, base, max);
      }
    } else {
      var k := BackoffOverflows(base, max);
    }
  }

  lemma {:induction false} BackoffAtLeastBase(k: nat, base: int, max: int)
    requires k >= 1 && 0 < base <= max
    ensures BackoffAfter(k, base, max) >= base
  {
  }
}
