/** The capture around a burst: the guards and the number of samples asked for
    (_get_guard and send_and_receive of worker/channel.py), the start of the capture
    (receive_with_delay of usrp_testbed_library/rx_daemon.py) and the balance check of
    nginx/html/js/benchmark.js, in exact arithmetic. */
module Capture {
  function Min(a: real, b: real): real { if a <= b then a else b }
  function Max(a: real, b: real): real { if a <= b then b else a }

  /** int(np.round(x)): to the nearest integer, halves to the even one. */
  function Round(x: real): (r: int)
    ensures -0.5 <= r as real - x <= 0.5
    ensures (r as real - x == 0.5 || r as real - x == -0.5) ==> r % 2 == 0
  {
    var f := x.Floor;
    var d := x - f as real;
    if d < 0.5 || (d == 0.5 && f % 2 == 0) then f else f + 1
  }

  /** rx_samples_needed */
  function SamplesNeeded(begin: real, end: real, n: nat, fs: real): int
    requires fs > 0.0
  {
    Round((begin + n as real / fs + end) * fs)
  }

  lemma DivTimes(a: real, fs: real)
    requires fs > 0.0
    ensures a / fs * fs == a
  {}

  lemma InSamples(begin: real, end: real, n: nat, fs: real)
    requires fs > 0.0
    ensures (begin + n as real / fs + end) * fs == (begin + end) * fs + n as real
  {
    DivTimes(n as real, fs);
    var d := n as real / fs;
    assert (begin + d + end) * fs == (begin + end) * fs + d * fs;
  }

  /** The sample count is the guards' and the burst's samples, rounded. */
  lemma NeededInSamples(begin: real, end: real, n: nat, fs: real)
    requires fs > 0.0
    ensures SamplesNeeded(begin, end, n, fs) == Round((begin + end) * fs + n as real)
    ensures -0.5 <= SamplesNeeded(begin, end, n, fs) as real - ((begin + end) * fs + n as real) <= 0.5
  {
    InSamples(begin, end, n, fs);
    hide Round;
  }

  /** The capture has room for the burst exactly if the guards do not take away half a
      sample; so always with guards that are not negative. */
  lemma CaptureHoldsBurst(begin: real, end: real, n: nat, fs: real)
    requires fs > 0.0
    ensures SamplesNeeded(begin, end, n, fs) >= n <==>
      (begin + end) * fs > -0.5 || ((begin + end) * fs == -0.5 && n % 2 == 0)
    ensures begin >= 0.0 && end >= 0.0 ==> SamplesNeeded(begin, end, n, fs) >= n
  {
    NeededInSamples(begin, end, n, fs);
    hide SamplesNeeded, Round;
    var g := (begin + end) * fs;
    if begin >= 0.0 && end >= 0.0 { assert g >= 0.0; }
    NearestAtLeast(g, n);
  }

  lemma NearestAtLeast(g: real, n: nat)
    ensures Round(g + n as real) >= n <==> g > -0.5 || (g == -0.5 && n % 2 == 0)
  {
    var r := Round(g + n as real);
    if r >= n { assert r as real >= n as real; } else { assert r as real <= n as real - 1.0; }
  }

  // ----- The balance check ------------------------------------------------------------------

  datatype Guards = Guards(beginMin: real, beginMax: real, endMin: real, endMax: real)

  /** What random.uniform can return for both guards. */
  predicate Drawn(g: Guards, begin: real, end: real) {
    && Min(g.beginMin, g.beginMax) <= begin <= Max(g.beginMin, g.beginMax)
    && Min(g.endMin, g.endMax) <= end <= Max(g.endMin, g.endMax)
  }

  /** Between the bounds of each guard, whichever of them is the greater. */
  lemma DrawnIff(g: Guards, begin: real, end: real)
    ensures Drawn(g, begin, end) <==>
      && (g.beginMin <= begin <= g.beginMax || g.beginMax <= begin <= g.beginMin)
      && (g.endMin <= end <= g.endMax || g.endMax <= end <= g.endMin)
  {}

  /** balance.in_range of the browser benchmark */
  predicate BalanceInRange(g: Guards, total: int, n: nat, fs: real)
    requires fs > 0.0
  {
    var guard := total as real / fs - n as real / fs;
    guard >= g.beginMin + g.endMin - 2.0 / fs && guard <= g.beginMax + g.endMax + 2.0 / fs
  }

  lemma BalanceInSamples(g: Guards, total: int, n: nat, fs: real)
    requires fs > 0.0
    ensures BalanceInRange(g, total, n, fs) <==>
      (g.beginMin + g.endMin) * fs - 2.0 <= (total - n) as real <= (g.beginMax + g.endMax) * fs + 2.0
  {
    DivTimes(total as real, fs);
    DivTimes(n as real, fs);
    DivTimes(2.0, fs);
    Combined(total as real / fs, -(n as real / fs), 0.0, fs);
    Combined(g.beginMin + g.endMin, -(2.0 / fs), 0.0, fs);
    Combined(g.beginMax + g.endMax, 2.0 / fs, 0.0, fs);
    var guard := total as real / fs - n as real / fs;
    SameOrder(g.beginMin + g.endMin - 2.0 / fs, guard, fs);
    SameOrder(guard, g.beginMax + g.endMax + 2.0 / fs, fs);
  }

  lemma Combined(a: real, b: real, c: real, fs: real)
    ensures (a + b + c) * fs == a * fs + b * fs + c * fs
  {}

  lemma SameOrder(a: real, b: real, fs: real)
    requires fs > 0.0
    ensures a <= b <==> a * fs <= b * fs
  {
    if a <= b { assert (b - a) * fs >= 0.0; } else { assert (a - b) * fs > 0.0; }
  }

  /** With each minimum at most its maximum, the check holds for every draw. */
  lemma EveryDrawInRange(g: Guards, begin: real, end: real, n: nat, fs: real)
    requires fs > 0.0 && Drawn(g, begin, end) && g.beginMin <= g.beginMax && g.endMin <= g.endMax
    ensures BalanceInRange(g, SamplesNeeded(begin, end, n, fs), n, fs)
  {
    hide *;
    var total := SamplesNeeded(begin, end, n, fs);
    NeededInSamples(begin, end, n, fs);
    BalanceInSamples(g, total, n, fs);
    DrawnBetween(g, begin, end);
    Scaled(g.beginMin + g.endMin, begin + end, g.beginMax + g.endMax, fs);
    Near((g.beginMin + g.endMin) * fs, (begin + end) * fs, (g.beginMax + g.endMax) * fs, total, n);
  }

  lemma DrawnBetween(g: Guards, begin: real, end: real)
    requires Drawn(g, begin, end) && g.beginMin <= g.beginMax && g.endMin <= g.endMax
    ensures g.beginMin + g.endMin <= begin + end <= g.beginMax + g.endMax
  {}

  lemma Scaled(a: real, b: real, c: real, fs: real)
    requires fs > 0.0 && a <= b <= c
    ensures a * fs <= b * fs <= c * fs
  {
    SameOrder(a, b, fs);
    SameOrder(b, c, fs);
  }

  lemma Near(lo: real, mid: real, hi: real, total: int, n: nat)
    requires lo <= mid <= hi && -0.5 <= total as real - (mid + n as real) <= 0.5
    ensures lo - 2.0 <= (total - n) as real <= hi + 2.0
  {
    assert (total - n) as real == total as real - n as real;
  }

  lemma RoundMonotone(x: real, y: real)
    requires x <= y
    ensures Round(x) <= Round(y)
  {
    if x < y {
      hide Round;
      assert Round(x) as real - Round(y) as real < 1.0;
    }
  }

  /** A longer pair of guards never asks for fewer samples. */
  lemma NeededMonotone(begin: real, end: real, begin2: real, end2: real, n: nat, fs: real)
    requires fs > 0.0 && begin + end <= begin2 + end2
    ensures SamplesNeeded(begin, end, n, fs) <= SamplesNeeded(begin2, end2, n, fs)
  {
    hide *;
    var u, v := begin + end, begin2 + end2;
    NeededOfSum(begin, end, u, n, fs);
    NeededOfSum(begin2, end2, v, n, fs);
    RoundScaled(u, v, n, fs);
  }

  lemma NeededOfSum(begin: real, end: real, u: real, n: nat, fs: real)
    requires fs > 0.0 && u == begin + end
    ensures SamplesNeeded(begin, end, n, fs) == Round(u * fs + n as real)
  {
    hide *;
    NeededInSamples(begin, end, n, fs);
    SameProduct(begin + end, u, fs);
    SameRound((begin + end) * fs + n as real, u * fs + n as real);
  }

  lemma SameProduct(a: real, b: real, fs: real)
    requires a == b
    ensures a * fs == b * fs
  {}

  lemma SameRound(x: real, y: real)
    requires x == y
    ensures Round(x) == Round(y)
  {}

  lemma RoundScaled(u: real, v: real, n: nat, fs: real)
    requires fs > 0.0 && u <= v
    ensures Round(u * fs + n as real) <= Round(v * fs + n as real)
  {
    var x, y := u * fs, v * fs;
    SameOrder(u, v, fs);
    assert x <= y;
    hide *;
    RoundShifted(x, y, n as real);
  }

  lemma RoundShifted(x: real, y: real, n: real)
    requires x <= y
    ensures Round(x + n) <= Round(y + n)
  {
    RoundMonotone(x + n, y + n);
  }

  /** However the bounds lie, every draw passes exactly if the shortest and the longest
      one do. */
  lemma EveryDrawInRangeIff(g: Guards, n: nat, fs: real)
    requires fs > 0.0
    ensures
      var shortest := SamplesNeeded(Min(g.beginMin, g.beginMax), Min(g.endMin, g.endMax), n, fs);
      var longest := SamplesNeeded(Max(g.beginMin, g.beginMax), Max(g.endMin, g.endMax), n, fs);
      (forall begin, end :: Drawn(g, begin, end) ==> BalanceInRange(g, SamplesNeeded(begin, end, n, fs), n, fs))
      <==> BalanceInRange(g, shortest, n, fs) && BalanceInRange(g, longest, n, fs)
  {
    var b0, e0 := Min(g.beginMin, g.beginMax), Min(g.endMin, g.endMax);
    var b1, e1 := Max(g.beginMin, g.beginMax), Max(g.endMin, g.endMax);
    assert Drawn(g, b0, e0) && Drawn(g, b1, e1);
    var shortest, longest := SamplesNeeded(b0, e0, n, fs), SamplesNeeded(b1, e1, n, fs);
    if BalanceInRange(g, shortest, n, fs) && BalanceInRange(g, longest, n, fs) {
      forall begin, end | Drawn(g, begin, end)
        ensures BalanceInRange(g, SamplesNeeded(begin, end, n, fs), n, fs)
      {
        DrawnFrom(g, begin, end);
        hide *;
        NeededMonotone(b0, e0, begin, end, n, fs);
        NeededMonotone(begin, end, b1, e1, n, fs);
        RangeBetween(g, shortest, SamplesNeeded(begin, end, n, fs), longest, n, fs);
      }
    }
  }

  lemma DrawnFrom(g: Guards, begin: real, end: real)
    requires Drawn(g, begin, end)
    ensures Min(g.beginMin, g.beginMax) + Min(g.endMin, g.endMax) <= begin + end
    ensures begin + end <= Max(g.beginMin, g.beginMax) + Max(g.endMin, g.endMax)
  {}

  lemma RangeBetween(g: Guards, a: int, b: int, c: int, n: nat, fs: real)
    requires fs > 0.0 && a <= b <= c && BalanceInRange(g, a, n, fs) && BalanceInRange(g, c, n, fs)
    ensures BalanceInRange(g, b, n, fs)
  {
    hide *;
    BalanceInSamples(g, a, n, fs);
    BalanceInSamples(g, b, n, fs);
    BalanceInSamples(g, c, n, fs);
    assert (a - n) as real <= (b - n) as real <= (c - n) as real;
  }

  /** _B200_DEFAULT_SAMPLE_RATE */
  const B200_RATE := 16_000_000.0

  /** At the default rate and with the begin guard's bounds swapped, one draw fails and
      another passes. */
  lemma SwappedDraws()
    ensures var g, n := Guards(0.2, 0.1, 0.1, 0.3), 1000;
      && Drawn(g, 0.1, 0.1) && !BalanceInRange(g, SamplesNeeded(0.1, 0.1, n, B200_RATE), n, B200_RATE)
      && Drawn(g, 0.2, 0.2) && BalanceInRange(g, SamplesNeeded(0.2, 0.2, n, B200_RATE), n, B200_RATE)
  {
    var g := Guards(0.2, 0.1, 0.1, 0.3);
    NeededOfSum(0.1, 0.1, 0.2, 1000, B200_RATE);
    NeededOfSum(0.2, 0.2, 0.4, 1000, B200_RATE);
    BalanceInSamples(g, 3_201_000, 1000, B200_RATE);
    BalanceInSamples(g, 6_401_000, 1000, B200_RATE);
  }

  /** Swapped so far that the sums of the bounds are more than four samples apart, no
      capture of any length passes. */
  lemma SwappedNeverInRange(g: Guards, total: int, n: nat, fs: real)
    requires fs > 0.0 && (g.beginMin + g.endMin) * fs > (g.beginMax + g.endMax) * fs + 4.0
    ensures !BalanceInRange(g, total, n, fs)
  {
    BalanceInSamples(g, total, n, fs);
  }

  // ----- The burst in the window ---------------------------------------------------------------

  /** When the capture starts: `delay` after the command, or as soon as the warm-up allows. */
  function CaptureStart(rxRef: real, delay: real, now: real): (r: real)
    ensures r >= rxRef + delay && r >= now + 0.05 && (r == rxRef + delay || r == now + 0.05)
  {
    if rxRef + delay < now + 0.05 then now + 0.05 else rxRef + delay
  }

  function BurstStart(txRef: real, delay: real, begin: real): real { txRef + (delay + begin) }

  /** Every sample of the burst is at the time of some sample of the capture, or between two. */
  predicate BurstInside(rxStart: real, total: int, txStart: real, n: nat, fs: real)
    requires fs > 0.0
  {
    rxStart <= txStart && txStart + n as real / fs <= rxStart + total as real / fs
  }

  /** How much the warm-up delayed the capture. */
  function Late(rxRef: real, delay: real, now: real): real { CaptureStart(rxRef, delay, now) - (rxRef + delay) }

  /** The whole burst is captured exactly if the transmitter's reference is neither earlier
      than the receiver's by more than the begin guard that the warm-up left, nor later by
      more than the end guard and the lateness, up to the rounding of the sample count. */
  lemma BurstInsideIff(rxRef: real, txRef: real, delay: real, now: real, begin: real, end: real, n: nat, fs: real)
    requires fs > 0.0
    ensures var total := SamplesNeeded(begin, end, n, fs);
      var late, skew := Late(rxRef, delay, now), txRef - rxRef;
      var rounding := total as real - ((begin + end) * fs + n as real);
      && -0.5 <= rounding <= 0.5
      && (BurstInside(CaptureStart(rxRef, delay, now), total, BurstStart(txRef, delay, begin), n, fs) <==>
           late - begin <= skew && skew * fs <= (end + late) * fs + rounding)
  {
    var total := SamplesNeeded(begin, end, n, fs);
    NeededInSamples(begin, end, n, fs);
    hide SamplesNeeded;
    DivTimes(n as real, fs);
    DivTimes(total as real, fs);
    var late, skew := Late(rxRef, delay, now), txRef - rxRef;
    var a, b := skew + begin + n as real / fs, late + total as real / fs;
    assert BurstInside(CaptureStart(rxRef, delay, now), total, BurstStart(txRef, delay, begin), n, fs)
      <==> late - begin <= skew && a <= b;
    SameOrder(a, b, fs);
    Combined(skew, begin, n as real / fs, fs);
    Combined(late, total as real / fs, 0.0, fs);
    Combined(end, late, 0.0, fs);
    Combined(begin, end, 0.0, fs);
  }

  /** With the warm-up in time, a skew of just the end guard is still good exactly if the
      sample count was not rounded down. */
  lemma EndGuardIff(rxRef: real, delay: real, now: real, begin: real, end: real, n: nat, fs: real)
    requires fs > 0.0 && now + 0.05 <= rxRef + delay && begin + end >= 0.0
    ensures var total := SamplesNeeded(begin, end, n, fs);
      BurstInside(CaptureStart(rxRef, delay, now), total, BurstStart(rxRef + end, delay, begin), n, fs)
      <==> total as real >= (begin + end) * fs + n as real
  {
    BurstInsideIff(rxRef, rxRef + end, delay, now, begin, end, n, fs);
    assert Late(rxRef, delay, now) == 0.0;
    hide SamplesNeeded, BurstInside, CaptureStart, BurstStart, Late;
    assert end + 0.0 == end;
  }

  /** It is with these guards at the default rate, and one sample. */
  lemma EndGuardCutShort()
    ensures var begin, end := 0.100000015625, 0.1;
      !BurstInside(CaptureStart(0.0, 1.0, 0.0), SamplesNeeded(begin, end, 1, B200_RATE),
                   BurstStart(end, 1.0, begin), 1, B200_RATE)
  {
    NeededOfSum(0.100000015625, 0.1, 0.200000015625, 1, B200_RATE);
    EndGuardIff(0.0, 1.0, 0.0, 0.100000015625, 0.1, 1, B200_RATE);
  }

  /** Warm-up in time, references at most the guards apart and half a sample to spare. */
  lemma BurstCaptured(rxRef: real, txRef: real, delay: real, now: real, begin: real, end: real, n: nat, fs: real)
    requires fs > 0.0 && now + 0.05 <= rxRef + delay
    requires -begin <= txRef - rxRef && (txRef - rxRef) * fs <= end * fs - 0.5
    ensures BurstInside(CaptureStart(rxRef, delay, now), SamplesNeeded(begin, end, n, fs),
                        BurstStart(txRef, delay, begin), n, fs)
  {
    BurstInsideIff(rxRef, txRef, delay, now, begin, end, n, fs);
  }
}
