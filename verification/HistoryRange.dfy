/** History-request ranges: saturating 64-bit arithmetic against the unbounded ranges it stands for. */
module HistoryRange {
  import opened Common

  /** The provider request, in Unix seconds. */
  datatype BarHistoryRequest = BarHistoryRequest(timeframe: int32, fromTs: int64, toTs: int64)

  function Min(a: int, b: int): int {
    if a <= b then a else b
  }

  function Max(a: int, b: int): int {
    if a <= b then b else a
  }

  lemma ProductBound(a: nat, b: nat, bound: nat)
    requires b > 0
    ensures a * b <= bound <==> a <= bound / b
  {
    assert bound == bound / b * b + bound % b;
    if a <= bound / b {
      assert a * b <= bound / b * b;
    } else {
      assert a * b >= (bound / b + 1) * b;
    }
  }

  function SafeMultiply(left: uint64, right: uint64): (r: uint64)
    ensures r as int == Min(left as int * right as int, UINT64_MAX as int)
  {
    if left == 0 || right == 0 then 0
    else
      ProductBound(left as int, right as int, UINT64_MAX as int);
      if left > UINT64_MAX / right then UINT64_MAX else left * right
  }

  /** The conversion of a timeframe to an unsigned word. */
  function TimeframeWord(timeframe: int32): (r: uint64)
    ensures r as int == if timeframe >= 0 then timeframe as int else timeframe as int + TWO_64
  {
    ToUnsigned(timeframe as int64)
  }

  /** Milliseconds divided down to seconds always fit a signed word: the cap is never reached. */
  function MakeHistoryRequest(timeframe: int32, fromMs: uint64, toMs: uint64): (r: BarHistoryRequest)
    ensures r.timeframe == timeframe
    ensures r.fromTs as int == fromMs as int / 1000 && r.toTs as int == toMs as int / 1000
  {
    var maxSeconds := 0x7fff_ffff_ffff_ffff;
    var fromSeconds, toSeconds := fromMs / 1000, toMs / 1000;
    BarHistoryRequest(timeframe, (if fromSeconds <= maxSeconds then fromSeconds else maxSeconds) as int64,
                      (if toSeconds <= maxSeconds then toSeconds else maxSeconds) as int64)
  }

  // Gap requests.

  /** The end of a gap in unbounded milliseconds: `maxBars` slots from the start, and no later than asked for. */
  function GapEnd(timeframe: int, fromMs: int, toMs: int, maxBars: int): int {
    if maxBars > 0 && fromMs <= toMs && timeframe > 0 then Min(toMs, fromMs + timeframe * 1000 * (maxBars - 1))
    else toMs
  }

  /** The saturating computation never shows: the range is the one of unbounded arithmetic. */
  method MakeGapRequest(timeframe: int32, fromMs: uint64, toMs: uint64, maxBars: uint64)
    returns (request: BarHistoryRequest)
    ensures request.timeframe == timeframe
    ensures request.fromTs as int == fromMs as int / 1000
    ensures request.toTs as int == GapEnd(timeframe as int, fromMs as int, toMs as int, maxBars as int) / 1000
    ensures
      var span := timeframe as int * (maxBars as int - 1);
      if maxBars > 0 && fromMs <= toMs && timeframe > 0 && toMs as int > fromMs as int + span * 1000
      then request.toTs as int - request.fromTs as int == span
      else request.toTs as int == toMs as int / 1000
  {
    var endMs := toMs;
    if maxBars > 0 && fromMs <= toMs && timeframe > 0 {
      GapIsBounded(timeframe as int, fromMs as int, toMs as int, maxBars as int);
    }
    if maxBars > 0 && toMs >= fromMs && timeframe > 0 {
      var slotMs := SafeMultiply(TimeframeWord(timeframe), 1000);
      var spanMs := SafeMultiply(slotMs, maxBars - 1);
      assert slotMs as int == timeframe as int * 1000;
      var boundedToMs := if fromMs > UINT64_MAX - spanMs then UINT64_MAX else fromMs + spanMs;
      endMs := if boundedToMs < endMs then boundedToMs else endMs;
    }
    request := MakeHistoryRequest(timeframe, fromMs, endMs);
  }

  /**
   * A gap longer than `maxBars` slots is cut to exactly the first `maxBars` of them, despite the truncation
   * to seconds; a shorter one is asked for whole.
   */
  lemma GapIsBounded(timeframe: int, fromMs: int, toMs: int, maxBars: int)
    requires 0 < timeframe && 0 <= fromMs <= toMs && 0 < maxBars
    ensures var toTs := GapEnd(timeframe, fromMs, toMs, maxBars) / 1000;
      && 0 <= toTs - fromMs / 1000 <= timeframe * (maxBars - 1)
      && (toMs <= fromMs + timeframe * (maxBars - 1) * 1000 ==> toTs == toMs / 1000)
      && (toMs >= fromMs + timeframe * (maxBars - 1) * 1000 ==> toTs - fromMs / 1000 == timeframe * (maxBars - 1))
  {
    var span := timeframe * (maxBars - 1);
    SpanIsWhole(timeframe, maxBars);
    ShiftSeconds(fromMs, span);
    assert span >= 0;
  }

  lemma SpanIsWhole(timeframe: int, maxBars: int)
    requires timeframe >= 0 && maxBars > 0
    ensures timeframe * 1000 * (maxBars - 1) == timeframe * (maxBars - 1) * 1000
    ensures timeframe * (maxBars - 1) >= 0
  {
  }

  lemma ShiftSeconds(ms: int, seconds: int)
    ensures (ms + seconds * 1000) / 1000 == ms / 1000 + seconds
  {
  }

  // Prefill requests.

  lemma Division(a: nat, b: nat)
    requires b > 0
    ensures a - a % b == a / b * b && 0 <= a / b * b <= a
  {
  }

  function AlignDown(ms: uint64, step: uint64): (r: uint64)
    requires step > 0
    ensures r as int == ms as int / step as int * step as int
  {
    Division(ms as int, step as int);
    ms - ms % step
  }

  function MakePrefillRequest(timeframe: int32, nowMs: uint64, bars: uint64): BarHistoryRequest {
    var timeframeMs := SafeMultiply(TimeframeWord(timeframe), 1000);
    var depthMs := SafeMultiply(timeframeMs, if bars > 0 then bars - 1 else 0);
    var alignedNowMs := if timeframeMs > 0 then AlignDown(nowMs, timeframeMs) else nowMs;
    var boundaryMs := if alignedNowMs > 0 then alignedNowMs else nowMs;
    var fromMs := if boundaryMs > depthMs then boundaryMs - depthMs else 1;
    MakeHistoryRequest(timeframe, fromMs, boundaryMs)
  }

  /**
   * For a positive timeframe the range starts exactly `bars - 1` slots before its end, or at the epoch, and
   * the end is the last slot boundary not after now, once there has been one. A zero timeframe asks for the
   * present second, a negative one for everything since the epoch, or for the present second without depth.
   */
  lemma PrefillSpansBars(timeframe: int32, nowMs: uint64, bars: uint64)
    ensures var r := MakePrefillRequest(timeframe, nowMs, bars);
      var tf, now := timeframe as int, nowMs as int;
      && (timeframe >= 0 ==> r.fromTs as int == Max(0, r.toTs as int - tf * Max(bars as int - 1, 0)))
      && (timeframe < 0 ==> r.fromTs == if bars >= 2 then 0 else r.toTs)
      && r.toTs as int == if tf > 0 && now >= tf * 1000 then now / (tf * 1000) * tf else now / 1000
  {
    if timeframe > 0 {
      PositivePrefill(timeframe, nowMs, bars);
    } else if timeframe < 0 {
      NegativePrefill(timeframe, nowMs, bars);
    } else {
      assert SafeMultiply(TimeframeWord(timeframe), 1000) == 0;
    }
  }

  lemma PositivePrefill(timeframe: int32, nowMs: uint64, bars: uint64)
    requires timeframe > 0
    ensures var r := MakePrefillRequest(timeframe, nowMs, bars);
      var tf, now := timeframe as int, nowMs as int;
      && r.fromTs as int == Max(0, r.toTs as int - tf * Max(bars as int - 1, 0))
      && r.toTs as int == if now >= tf * 1000 then now / (tf * 1000) * tf else now / 1000
  {
    var slots, tf, now := Max(bars as int - 1, 0), timeframe as int, nowMs as int;
    var boundary := Boundary(tf, now);
    SpanIsWhole(tf, slots + 1);
    Aligned(tf, now);
    PrefillStart(tf, now, boundary, slots);
    PrefillInMilliseconds(timeframe, nowMs, bars);
  }

  /** A negative timeframe becomes a huge word, so that the depth saturates and nothing is aligned. */
  lemma NegativePrefill(timeframe: int32, nowMs: uint64, bars: uint64)
    requires timeframe < 0
    ensures var r := MakePrefillRequest(timeframe, nowMs, bars);
      r.fromTs == (if bars >= 2 then 0 else r.toTs) && r.toTs as int == nowMs as int / 1000
  {
    assert SafeMultiply(TimeframeWord(timeframe), 1000) == UINT64_MAX;
    var depth := SafeMultiply(UINT64_MAX, if bars > 0 then bars - 1 else 0);
    SaturatedDepth(if bars > 0 then bars - 1 else 0);
    AlignedToMaximum(nowMs);
  }

  lemma SaturatedDepth(slots: uint64)
    ensures SafeMultiply(UINT64_MAX, slots) == if slots == 0 then 0 else UINT64_MAX
  {
    if slots > 0 {
      assert UINT64_MAX as int * slots as int >= UINT64_MAX as int * 1;
    }
  }

  lemma AlignedToMaximum(ms: uint64)
    ensures AlignDown(ms, UINT64_MAX) == if ms == UINT64_MAX then ms else 0
  {
  }

  function Boundary(tf: nat, now: nat): int
    requires tf > 0
  {
    if now >= tf * 1000 then now / (tf * 1000) * (tf * 1000) else now
  }

  lemma Regroup(q: nat, tf: nat)
    ensures q * (tf * 1000) == q * tf * 1000
  {
  }

  lemma AtLeastOneStep(now: nat, step: nat)
    requires step > 0
    ensures (now / step * step > 0) == (now >= step)
    ensures 0 <= now / step * step <= now
  {
    Division(now, step);
    ProductBound(1, step, now);
    var q := now / step;
    if q >= 1 {
      assert q * step >= 1 * step;
    }
  }

  lemma Aligned(tf: nat, now: nat)
    requires tf > 0
    ensures now / (tf * 1000) * (tf * 1000) == now / (tf * 1000) * tf * 1000
    ensures (now / (tf * 1000) * (tf * 1000) > 0) == (now >= tf * 1000)
    ensures 0 <= now / (tf * 1000) * (tf * 1000) <= now
  {
    AtLeastOneStep(now, tf * 1000);
    Regroup(now / (tf * 1000), tf);
  }

  /** The saturated computation in unbounded milliseconds. */
  lemma PrefillInMilliseconds(timeframe: int32, nowMs: uint64, bars: uint64)
    requires timeframe > 0
    ensures var r := MakePrefillRequest(timeframe, nowMs, bars);
      var tf, boundary := timeframe as int, Boundary(timeframe as int, nowMs as int);
      var depth := tf * 1000 * Max(bars as int - 1, 0);
      && r.toTs as int == boundary / 1000
      && r.fromTs as int == (if boundary > depth then boundary - depth else 1) / 1000
  {
    Aligned(timeframe as int, nowMs as int);
    assert SafeMultiply(TimeframeWord(timeframe), 1000) as int == timeframe as int * 1000;
  }

  lemma PrefillStart(tf: nat, now: nat, boundary: nat, slots: nat)
    requires tf > 0 && boundary <= now && (boundary % 1000 == 0 || now == boundary < tf * 1000)
    ensures (if boundary > tf * 1000 * slots then boundary - tf * 1000 * slots else 1) / 1000 ==
            Max(0, boundary / 1000 - tf * slots)
  {
    var span := tf * slots;
    assert tf * 1000 * slots == span * 1000;
    if boundary > span * 1000 {
      ShiftSeconds(boundary, -span);
    }
  }
}
