/** How `bench.rs` finds a batch size: run a batch, look at the clock, grow. Times are
    real numbers of milliseconds, whatever the clock says. */
module Calibration {

  const CALIBRATION_MS: real := 10.0
  const MAX_ITERS: nat := 0x100_0000_0000
  const U64_MAX: nat := 0xFFFF_FFFF_FFFF_FFFF

  function Min(a: nat, b: nat): nat {
    if a < b then a else b
  }

  /** `as u64`: negative numbers become 0, too large ones the maximum. */
  function AsU64(x: int): nat {
    if x < 0 then 0 else Min(x, U64_MAX)
  }

  function Ceil(x: real): int {
    -(-x).Floor
  }

  function Clamp(x: nat, low: nat, high: nat): nat
    requires low <= high
  {
    if x < low then low else if x > high then high else x
  }

  function SaturatingMul(a: nat, b: nat): nat {
    Min(a * b, U64_MAX)
  }

  function Grow(ms: real): nat {
    if ms > 0.0 then AsU64(Ceil(CALIBRATION_MS / ms)) else 16
  }

  function NextBatch(n: nat, ms: real): nat {
    Min(SaturatingMul(n, Clamp(Grow(ms), 2, 64)), MAX_ITERS)
  }

  /** A clock: what it says of the batch run in `k`th place. */
  type Clock = nat -> real

  /** The size of the `k`th batch, counting from the first one run at `start`. */
  function BatchSize(clock: Clock, start: nat, k: nat): nat {
    if k == 0 then 1 else NextBatch(BatchSize(clock, start, k - 1), clock(start + k - 1))
  }

  /** The iterations of the first `k` batches. */
  function Iterations(clock: Clock, start: nat, k: nat): nat {
    if k == 0 then 0 else Iterations(clock, start, k - 1) + BatchSize(clock, start, k - 1)
  }

  /** The `k`th batch is the last: it took long enough, or it is as large as they get. */
  predicate Accepted(clock: Clock, start: nat, k: nat) {
    clock(start + k) >= CALIBRATION_MS || BatchSize(clock, start, k) >= MAX_ITERS
  }

  ghost predicate NoneAccepted(clock: Clock, start: nat, k: nat) {
    forall i :: 0 <= i < k ==> !Accepted(clock, start, i)
  }

  function Power2(k: nat): nat {
    if k == 0 then 1 else 2 * Power2(k - 1)
  }

  /** A batch is multiplied by 2 to 64, short of the cap, and the product always fits. */
  lemma BatchGrows(n: nat, ms: real)
    requires 1 <= n < MAX_ITERS
    ensures SaturatingMul(n, Clamp(Grow(ms), 2, 64)) == n * Clamp(Grow(ms), 2, 64)
    ensures Min(2 * n, MAX_ITERS) <= NextBatch(n, ms) <= Min(64 * n, MAX_ITERS)
  {
    hide Grow;
    var g := Clamp(Grow(ms), 2, 64);
    assert 2 * n <= n * g <= 64 * n;
  }

  /** While nothing is accepted the batches double at least, and so all those before one
      are together smaller than that one, or than twice that one if it is cut off at the cap. */
  lemma {:induction false} BatchesDouble(clock: Clock, start: nat, k: nat)
    requires NoneAccepted(clock, start, k)
    ensures 1 <= BatchSize(clock, start, k) <= MAX_ITERS
    ensures Min(Power2(k), MAX_ITERS) <= BatchSize(clock, start, k)
    ensures Iterations(clock, start, k) < (if BatchSize(clock, start, k) < MAX_ITERS then 1 else 2) * BatchSize(clock, start, k)
  {
    if k > 0 {
      BatchesDouble(clock, start, k - 1);
      assert !Accepted(clock, start, k - 1);
      OneBatchMore(clock, start, k);
    }
  }

  lemma OneBatchMore(clock: Clock, start: nat, k: nat)
    requires k > 0 && !Accepted(clock, start, k - 1) && 1 <= BatchSize(clock, start, k - 1)
    requires Min(Power2(k - 1), MAX_ITERS) <= BatchSize(clock, start, k - 1)
    requires Iterations(clock, start, k - 1) < BatchSize(clock, start, k - 1)
    ensures 1 <= BatchSize(clock, start, k) <= MAX_ITERS
    ensures Min(Power2(k), MAX_ITERS) <= BatchSize(clock, start, k)
    ensures Iterations(clock, start, k) < (if BatchSize(clock, start, k) < MAX_ITERS then 1 else 2) * BatchSize(clock, start, k)
  {
    var n, ms := BatchSize(clock, start, k - 1), clock(start + k - 1);
    BatchGrows(n, ms);
    assert BatchSize(clock, start, k) == NextBatch(n, ms);
    hide NextBatch, SaturatingMul, Clamp, Grow;
  }

  lemma Power2Of40()
    ensures Power2(40) == MAX_ITERS
  {
    assert Power2(8) == 0x100 && Power2(16) == 0x100 * Power2(8) by { Power2Adds(8, 8); }
    Power2Adds(16, 16);
    Power2Adds(32, 8);
  }

  lemma {:induction false} Power2Adds(a: nat, b: nat)
    ensures Power2(a + b) == Power2(a) * Power2(b)
  {
    if b > 0 {
      Power2Adds(a, b - 1);
    }
  }

  lemma {:induction false} Power2Grows(a: nat, b: nat)
    requires a <= b
    ensures Power2(a) <= Power2(b)
  {
    if a < b {
      Power2Grows(a, b - 1);
    }
  }

  lemma Power2Orders(a: nat, b: nat)
    requires Power2(a) < Power2(b)
    ensures a < b
  {
    if b <= a {
      Power2Grows(b, a);
    }
  }

  /** Whatever the clock says, the forty-first batch at the latest is accepted. */
  lemma AtMost41Batches(clock: Clock, start: nat, k: nat)
    requires NoneAccepted(clock, start, k)
    ensures k <= 40
    ensures k == 40 ==> BatchSize(clock, start, k) == MAX_ITERS
  {
    Power2Of40();
    BatchesDouble(clock, start, k);
    if k > 0 {
      BatchesDouble(clock, start, k - 1);
      assert !Accepted(clock, start, k - 1);
      Power2Orders(k - 1, 40);
    }
  }

  /** For a body whose batches take time in proportion to their size, the growth never
      jumps past twice the target. */
  lemma AStepStaysUnderTwiceTheTarget(n: nat, ms: real)
    requires n >= 1 && 0.0 < ms < CALIBRATION_MS
    ensures ms / n as real * NextBatch(n, ms) as real < 2.0 * CALIBRATION_MS
  {
    var ratio := CALIBRATION_MS / ms;
    assert ratio * ms == CALIBRATION_MS && ratio > 1.0;
    var g := Clamp(Grow(ms), 2, 64);
    assert g as real <= ratio + 1.0;
    assert g as real * ms < 2.0 * CALIBRATION_MS by {
      assert g as real * ms <= (ratio + 1.0) * ms == CALIBRATION_MS + ms;
    }
    var next := NextBatch(n, ms);
    assert next <= n * g;
    hide NextBatch, Grow, Clamp;
    assert next as real <= n as real * g as real;
    Proportion(ms, n as real, next as real, g as real);
  }

  lemma Proportion(ms: real, n: real, next: real, g: real)
    requires ms > 0.0 && n > 0.0 && next <= n * g
    ensures ms / n * next <= g * ms
  {
    var per := ms / n;
    assert per > 0.0 && per * n == ms;
    assert per * next <= per * (n * g);
    assert per * (n * g) == (per * n) * g;
  }

  /** And it reaches ten milliseconds, unless held back at 64 times or at the cap. */
  lemma AStepReachesTheTarget(n: nat, ms: real)
    requires 1 <= n < MAX_ITERS && 0.0 < ms < CALIBRATION_MS
    ensures ms / n as real * NextBatch(n, ms) as real >= 10.0 || NextBatch(n, ms) == Min(64 * n, MAX_ITERS)
  {
    var ratio := CALIBRATION_MS / ms;
    assert ratio * ms == CALIBRATION_MS && ratio > 1.0;
    BatchGrows(n, ms);
    var next, g := NextBatch(n, ms), Clamp(Grow(ms), 2, 64);
    if next != Min(64 * n, MAX_ITERS) {
      assert g < 64 ==> g as real >= ratio;
      assert next == n * g && g < 64;
      hide NextBatch, Grow, Clamp;
      assert g as real * ms >= ratio * ms;
      assert next as real == n as real * g as real;
      InProportion(ms, n as real, next as real, g as real);
    }
  }

  lemma InProportion(ms: real, n: real, next: real, g: real)
    requires ms > 0.0 && n > 0.0 && next == n * g
    ensures ms / n * next == g * ms
  {
    var per := ms / n;
    assert per * n == ms;
    assert per * (n * g) == (per * n) * g;
  }

  /** A reading of nothing, or less, is no measure: sixteen times as many. */
  lemma NoReadingNoProportion(n: nat, ms: real)
    requires 1 <= n < MAX_ITERS && ms <= 0.0
    ensures NextBatch(n, ms) == Min(16 * n, MAX_ITERS)
  {
    BatchGrows(n, ms);
  }

  /** The benchmark body and the clock around it. */
  class Body {
    const clock: Clock
    var batches: nat
    var runs: nat

    constructor (clock: Clock)
      ensures this.clock == clock && batches == 0 && runs == 0
    {
      this.clock := clock;
      batches, runs := 0, 0;
    }

    method TimeBatch(n: nat) returns (ms: real)
      modifies this
      ensures batches == old(batches) + 1 && runs == old(runs) + n && ms == clock(old(batches))
    {
      for i := 0 to n
        invariant batches == old(batches) && runs == old(runs) + i
      {
        runs := runs + 1;
      }
      ms := clock(batches);
      batches := batches + 1;
    }
  }

  /** How a calibration that began after `start` batches ended. */
  ghost predicate Calibrated(clock: Clock, start: nat, batches: nat, runs: nat, n: nat) {
    && 1 <= batches <= 41 && 1 <= n <= MAX_ITERS
    && n == BatchSize(clock, start, batches - 1)
    && NoneAccepted(clock, start, batches - 1)
    && Accepted(clock, start, batches - 1)
    && runs < 3 * n
  }

  /** In numbers: every batch but the last took less than ten milliseconds, and the last ten
      or more, or it ran 2^40 iterations. */
  lemma CalibratedInNumbers(clock: Clock, start: nat, batches: nat, runs: nat, n: nat)
    requires Calibrated(clock, start, batches, runs, n)
    ensures clock(start + batches - 1) >= 10.0 || n == 0x100_0000_0000
    ensures forall i :: start <= i < start + batches - 1 ==> clock(i) < 10.0
  {
    forall i | start <= i < start + batches - 1 ensures clock(i) < 10.0 {
      assert !Accepted(clock, start, i - start);
    }
  }

  /** `calibrate`. */
  method Calibrate(f: Body) returns (n: nat)
    modifies f
    ensures f.batches > old(f.batches) && f.runs >= old(f.runs)
    ensures Calibrated(f.clock, old(f.batches), f.batches - old(f.batches), f.runs - old(f.runs), n)
  {
    hide NextBatch, Calibrated;
    n := 1;
    ghost var k := 0;
    while true
      invariant f.batches == old(f.batches) + k && f.runs == old(f.runs) + Iterations(f.clock, old(f.batches), k)
      invariant n == BatchSize(f.clock, old(f.batches), k) && NoneAccepted(f.clock, old(f.batches), k)
      decreases 40 - k
    {
      var ms := f.TimeBatch(n);
      AtMost41Batches(f.clock, old(f.batches), k);
      BatchesDouble(f.clock, old(f.batches), k);
      if ms >= CALIBRATION_MS || n >= MAX_ITERS {
        Ended(f.clock, old(f.batches), k, n);
        return n;
      }
      n := NextBatch(n, ms);
      k := k + 1;
    }
  }

  lemma Ended(clock: Clock, start: nat, k: nat, n: nat)
    requires k <= 40 && n == BatchSize(clock, start, k) && NoneAccepted(clock, start, k)
    requires Accepted(clock, start, k)
    ensures Calibrated(clock, start, k + 1, Iterations(clock, start, k + 1), n)
  {
    BatchesDouble(clock, start, k);
  }

  /** The loop of `iter_custom_async`: the same batches, by another arrangement. */
  method CalibrateCustom(routine: Body) returns (n: nat)
    modifies routine
    ensures routine.batches > old(routine.batches) && routine.runs >= old(routine.runs)
    ensures Calibrated(routine.clock, old(routine.batches), routine.batches - old(routine.batches),
                       routine.runs - old(routine.runs), n)
  {
    hide NextBatch, Calibrated;
    n := 1;
    var ms := routine.TimeBatch(n);
    ghost var start, k := old(routine.batches), 0;
    while ms < CALIBRATION_MS && n < MAX_ITERS
      invariant routine.batches == start + k + 1 && ms == routine.clock(start + k)
      invariant routine.runs == old(routine.runs) + Iterations(routine.clock, start, k + 1)
      invariant n == BatchSize(routine.clock, start, k) && NoneAccepted(routine.clock, start, k) && k <= 40
      decreases 40 - k
    {
      AtMost41Batches(routine.clock, start, k + 1);
      n := NextBatch(n, ms);
      k := k + 1;
      ms := routine.TimeBatch(n);
    }
    Ended(routine.clock, start, k, n);
  }

  /** So on the same readings both settle on the same size after the same batches. */
  lemma OneOutcome(clock: Clock, start: nat, batches: nat, runs: nat, n: nat, batches': nat, runs': nat, n': nat)
    requires Calibrated(clock, start, batches, runs, n) && Calibrated(clock, start, batches', runs', n')
    ensures batches == batches' && n == n'
  {
  }
}
