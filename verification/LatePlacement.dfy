/** Late packets of the jitter buffer: over whole runs the measured lengths stay
    ordered, the playout delay stays within its limit, and nothing that is
    accepted late is put where it was already read. */
module LatePlacement {
  import opened Machine
  import opened JitterBuffer
  import opened JitterRuns
  import Multiples

  /** The lengths that are measured have room in the signed range. */
  predicate Roomy(c: Config, span: nat)
  {
    && c.Valid() && c.initialDelayTs <= c.maxDelayTs
    && 2 * span + 2 * c.maxDelayTs + 2 * c.frameTs <= MOD32 / 2
  }

  /** What is written next to the reader does not wrap around. */
  predicate Clear(c: Config, readTs: u32) { readTs + 2 * c.maxDelayTs + c.frameTs < MOD32 }

  /** Reader and writer are at most `span` apart, and positions do not wrap. */
  predicate Fits(c: Config, t: Timing, span: nat)
  {
    t.readTs <= t.writeTs + span && t.writeTs <= t.readTs + span && Clear(c, t.readTs)
  }

  /** Every state on the way fits. */
  predicate RunFits(c: Config, jb: Jb, ops: seq<Op>, span: nat)
    requires jb.Valid(c)
    decreases |ops|
  {
    Fits(c, jb.t, span) && (ops == [] || RunFits(c, Step(c, jb, ops[0]).0, ops[1..], span))
  }

  predicate Sound(c: Config, t: Timing, span: nat)
    requires c.Valid()
  {
    && t.minLength <= t.maxLength && t.delay <= c.maxDelayTs
    && 0 <= t.minLength + span && t.maxLength <= span + c.maxDelayTs
    && (t.writeSync || t.maxLength <= span + t.delay)
    && (c.skewDetection || t.minLength == 0 == t.maxLength)
  }

  predicate Aligned(c: Config, t: Timing)
    requires c.Valid()
  {
    t.readTs % c.frameTs == 0
  }

  // ----- rounding down -----

  lemma AlignedDown(x: u32, unit: u32)
    requires unit > 0
    ensures AlignDown(x, unit) % unit == 0 && AlignDown(x, unit) <= x < AlignDown(x, unit) + unit
  {
    assert AlignDown(x, unit) == unit * (x / unit);
    Multiples.Multiple(x / unit, unit);
  }

  lemma AlignDownKeepsBound(x: u32, y: nat, unit: u32)
    requires unit > 0 && y % unit == 0 && y <= x
    ensures y <= AlignDown(x, unit)
  {
    AlignedDown(x, unit);
    var low := AlignDown(x, unit);
    Multiples.Difference(y, low, unit);
  }

  // ----- placing a packet -----

  lemma SkewMoves(ts: u32, offset: u32, skew: u32, delay: u32)
    ensures Add(Sub(ts, Sub(offset, skew)), delay) == Add(Add(Sub(ts, offset), delay), skew)
  {
    SubExact(offset, skew);
    SubExact(ts, Sub(offset, skew));
    SubExact(ts, offset);
    AddExact(Sub(ts, Sub(offset, skew)), delay);
    AddExact(Sub(ts, offset), delay);
    AddExact(Add(Sub(ts, offset), delay), skew);
  }

  lemma PreparedSound(c: Config, t: Timing, ts: u32, span: nat)
    requires Roomy(c, span) && Sound(c, t, span)
    ensures var (p, w) := Prepared(c, t, ts);
            Sound(c, p, span) && !p.writeSync && p.readTs == t.readTs && p.writeTs == t.writeTs && p.delay == t.delay
  {
    SignedExact(t.delay);
  }

  lemma PreparedAligned(c: Config, t: Timing, ts: u32)
    requires c.Valid()
    ensures var (p, w) := Prepared(c, t, ts);
            w % c.frameTs == 0 && w <= Add(Sub(ts, p.offset), p.delay) < w + c.frameTs
  {
    var p := Prepared(c, t, ts).0;
    AlignedDown(Add(Sub(ts, p.offset), p.delay), c.frameTs);
  }

  /** The adjustment covers at least what separates the position from the reader. */
  lemma WidenedCovers(c: Config, t: Timing, delta: u32, span: nat)
    requires Roomy(c, span) && Sound(c, t, span) && !t.writeSync
    requires delta <= span && delta % c.frameTs == 0
    ensures delta <= Widened(c, t, delta) <= 2 * span + c.maxDelayTs
  {
    var spread := t.maxLength - t.minLength;
    WrapExact(spread);
    AddExact(t.delay, delta);
    if spread > t.delay + delta {
      SubExact(spread, t.delay);
      AlignDownKeepsBound(spread - t.delay, delta, c.frameTs);
      AlignedDown(spread - t.delay, c.frameTs);
    }
  }

  /** What the skew correction does to the measured lengths. */
  lemma SkewedSound(c: Config, t: Timing, span: nat)
    requires Roomy(c, span) && Sound(c, t, span) && !t.writeSync && c.skewDetection && 0 < t.maxLength < t.delay
    ensures SkewOf(c, t) <= t.delay && Sound(c, Skewed(t, SkewOf(c, t)), span)
  {
    AlignedDown(t.delay - t.maxLength, c.frameTs);
    SignedExact(t.minLength + SkewOf(c, t));
    SignedExact(t.maxLength + SkewOf(c, t));
  }

  /** After the skew correction the position, aligned or not, and the adjustment
      still missing reach the reader together. */
  lemma SkewCovers(c: Config, t: Timing, ts: u32, w: u32, span: nat)
    requires Roomy(c, span) && Fits(c, t, span) && Sound(c, t, span) && Aligned(c, t) && !t.writeSync
    requires t.writeTs <= w < t.readTs && w % c.frameTs == 0 && w <= Add(Sub(ts, t.offset), t.delay) < w + c.frameTs
    ensures var (p, w', delta) := SkewAdjusted(c, t, ts, w);
            Sound(c, p, span) && !p.writeSync && p.readTs == t.readTs && p.delay == t.delay
            && t.readTs <= w' + delta && w' <= t.readTs + c.maxDelayTs && delta <= 2 * span + c.maxDelayTs
  {
    Multiples.Difference(t.readTs, w, c.frameTs);
    var widened := Widened(c, t, t.readTs - w);
    WidenedCovers(c, t, t.readTs - w, span);
    if c.skewDetection && 0 < t.maxLength < t.delay {
      SkewFollowedCovers(c, t, ts, w, widened, span);
    }
  }

  lemma SkewFollowedCovers(c: Config, t: Timing, ts: u32, w: u32, delta: u32, span: nat)
    requires Roomy(c, span) && Fits(c, t, span) && Sound(c, t, span) && !t.writeSync
    requires c.skewDetection && 0 < t.maxLength < t.delay
    requires w + c.frameTs <= t.readTs <= w + delta && delta <= 2 * span + c.maxDelayTs
    requires w <= Add(Sub(ts, t.offset), t.delay) < w + c.frameTs
    ensures var (p, w', left) := SkewFollowed(c, t, ts, delta);
            Sound(c, p, span) && !p.writeSync && p.readTs == t.readTs && p.delay == t.delay
            && t.readTs <= w' + left && w' <= t.readTs + c.maxDelayTs && left <= 2 * span + c.maxDelayTs
  {
    var skew := SkewOf(c, t);
    var position := Add(Sub(ts, t.offset), t.delay);
    SkewedSound(c, t, span);
    SkewMoves(ts, t.offset, skew, t.delay);
    AddExact(position, skew);
  }

  lemma DelayExtendedSound(c: Config, t: Timing, w: u32, delta: u32, span: nat)
    requires Roomy(c, span) && Sound(c, t, span) && !t.writeSync && Clear(c, t.readTs)
    requires t.readTs <= w + delta && w <= t.readTs + c.maxDelayTs && delta <= 2 * span + c.maxDelayTs
    ensures var (p, place) := DelayExtended(c, t, w, delta);
            Sound(c, p, span) && p.readTs == t.readTs && (place.Placed? ==> place.writeTs >= t.readTs)
  {
    AddExact(t.delay, delta);
    AddExact(w, delta);
    if t.delay + delta <= c.maxDelayTs {
      SignedExact(t.minLength + delta);
      SignedExact(t.maxLength + delta);
    }
  }

  lemma AudioSound(c: Config, t: Timing, ts: u32, marker: bool, span: nat)
    requires Roomy(c, span) && Fits(c, t, span) && Sound(c, t, span) && Aligned(c, t)
    ensures var (p, place) := PlaceAudio(c, t, ts, marker);
            Sound(c, p, span) && p.readTs == t.readTs && (place.Placed? ==> place.writeTs >= p.readTs)
  {
    var t := Marked(t, marker);
    PreparedSound(c, t, ts, span);
    PreparedAligned(c, t, ts);
    var (p, w) := Prepared(c, t, ts);
    if w < p.readTs && w >= p.writeTs {
      SkewCovers(c, p, ts, w, span);
      var (s, x, delta) := SkewAdjusted(c, p, ts, w);
      DelayExtendedSound(c, s, x, delta, span);
    }
  }

  lemma EventSound(c: Config, t: Timing, w: u32, span: nat)
    requires Roomy(c, span) && Fits(c, t, span) && Sound(c, t, span)
    ensures var (p, w', result) := PlaceEvent(c, t, w);
            Sound(c, p, span) && p.readTs == t.readTs && (result == Ok ==> w' >= p.readTs)
  {
    if w < t.readTs {
      AddExact(t.delay, t.readTs - w);
    }
  }

  /** The mean lies between the lengths it is taken of. */
  lemma MeanBetween(low: int, high: int, span: nat)
    requires low <= high && 0 <= low + span && high <= span && span < MOD32 / 4
    ensures var mean := Signed(low + Divided(Signed(high - low), 2)); low <= mean <= high
  {
    SignedExact(high - low);
    SignedExact(low + Divided(high - low, 2));
  }

  lemma StatSound(c: Config, t: Timing, span: nat)
    requires Roomy(c, span) && Fits(c, t, span) && Sound(c, t, span) && c.skewDetection
    ensures Sound(c, StatUpdated(t), span)
  {
    MeanBetween(t.minLength, t.maxLength, span + c.maxDelayTs);
    SignedLength(t.writeTs, t.readTs, span);
  }

  lemma SignedLength(writeTs: u32, readTs: u32, span: nat)
    requires readTs <= writeTs + span && writeTs <= readTs + span && span < MOD32 / 2
    ensures Signed(Sub(writeTs, readTs)) == writeTs - readTs
  {
    SubExact(writeTs, readTs);
  }

  // ----- whole runs -----

  lemma StepSound(c: Config, jb: Jb, op: Op, span: nat)
    requires jb.Valid(c) && Roomy(c, span) && Fits(c, jb.t, span) && Fits(c, Step(c, jb, op).0.t, span)
    requires Sound(c, jb.t, span) && Aligned(c, jb.t)
    ensures var t := Step(c, jb, op).0.t; Sound(c, t, span) && Aligned(c, t)
  {
    match op
    case Audio(payload, ts, marker) => WrittenSound(c, jb, payload, ts, marker, span);
    case EventPacket(event, ts, marker) => EventWrittenSound(c, jb, event, ts, marker, span);
    case ReadFrame => ReadSound(c, jb, span);
    case Restart => RestartSound(c, jb, span);
  }

  lemma WrittenSound(c: Config, jb: Jb, payload: Octets, ts: u32, marker: bool, span: nat)
    requires jb.Valid(c) && Roomy(c, span) && Fits(c, jb.t, span) && Sound(c, jb.t, span) && Aligned(c, jb.t)
    ensures var t := Written(c, jb, payload, ts, marker).0.t; Sound(c, t, span) && t.readTs == jb.t.readTs
  {
    AudioSound(c, jb.t, ts, marker, span);
  }

  lemma RestartSound(c: Config, jb: Jb, span: nat)
    requires jb.Valid(c) && Roomy(c, span) && Sound(c, jb.t, span) && Aligned(c, jb.t)
    ensures var t := Restarted(c, jb).t; Sound(c, t, span) && Aligned(c, t)
  {
  }

  lemma EventWrittenSound(c: Config, jb: Jb, event: Event, ts: u32, marker: bool, span: nat)
    requires jb.Valid(c) && Roomy(c, span) && Fits(c, jb.t, span) && Sound(c, jb.t, span)
    ensures var t := EventWritten(c, jb, event, ts, marker).0.t; Sound(c, t, span) && t.readTs == jb.t.readTs
  {
    PreparedSound(c, jb.t, ts, span);
    var (t, w0) := Prepared(c, jb.t, ts);
    var seen := jb.(t := t, e := EventSeen(c, jb, event, w0, marker));
    EventSound(c, t, if StartsEvent(c, jb, event, w0, marker) then w0 else Add(w0, Updated(seen).duration), span);
  }

  lemma ReadSound(c: Config, jb: Jb, span: nat)
    requires jb.Valid(c) && Roomy(c, span) && Fits(c, jb.t, span) && Fits(c, ReadFrom(c, jb).0.t, span)
    requires Sound(c, jb.t, span) && Aligned(c, jb.t)
    ensures var t := ReadFrom(c, jb).0.t; Sound(c, t, span) && Aligned(c, t)
  {
    AddExact(jb.t.readTs, c.frameTs);
    Multiples.Sum(jb.t.readTs, c.frameTs, c.frameTs);
    Multiples.Multiple(1, c.frameTs);
    var t := jb.t.(readTs := jb.t.readTs + c.frameTs);
    if c.skewDetection {
      StatSound(c, t, span);
    }
  }

  lemma {:induction false} RunSound(c: Config, jb: Jb, ops: seq<Op>, span: nat)
    requires jb.Valid(c) && Roomy(c, span) && RunFits(c, jb, ops, span) && Sound(c, jb.t, span) && Aligned(c, jb.t)
    ensures var t := Run(c, jb, ops).0.t; Fits(c, t, span) && Sound(c, t, span) && Aligned(c, t)
    decreases |ops|
  {
    if ops != [] {
      StepSound(c, jb, ops[0], span);
      RunSound(c, Step(c, jb, ops[0]).0, ops[1..], span);
    }
  }

  /** In every reachable state the measured lengths are ordered and the delay is
      within its limit, and what is accepted is not placed before the reader. */
  lemma LateNeverPast(c: Config, jb: Jb, ops: seq<Op>, span: nat)
    requires IsCreated(c, jb) && Roomy(c, span) && RunFits(c, jb, ops, span)
    ensures var t := Run(c, jb, ops).0.t;
            && t.minLength <= t.maxLength && t.delay <= c.maxDelayTs && t.readTs % c.frameTs == 0
            && (forall ts, marker ::
                  var (p, place) := PlaceAudio(c, t, ts, marker); place.Placed? ==> place.writeTs >= p.readTs)
            && (forall w :: var (p, w', result) := PlaceEvent(c, t, w); result == Ok ==> w' >= p.readTs)
  {
    Multiples.Multiple(0, c.frameTs);
    RunSound(c, jb, ops, span);
    var t := Run(c, jb, ops).0.t;
    forall ts, marker
      ensures var (p, place) := PlaceAudio(c, t, ts, marker); place.Placed? ==> place.writeTs >= p.readTs
    {
      AudioSound(c, t, ts, marker, span);
    }
  }

  // ----- the configured delays -----

  function RoundedUp(ms: nat): nat
  {
    if ms % FRAME_TIME_BASE != 0 then ms + (FRAME_TIME_BASE - ms % FRAME_TIME_BASE) else ms
  }

  function CompletedMax(initialMs: nat, maxMs: nat): nat
  {
    var max := if maxMs < initialMs then 2 * initialMs else maxMs;
    if max == 0 then 600 else max
  }

  /** The initial delay respects the limit exactly if rounding it up to a whole
      frame does not take it past the limit, as it would with 15 ms for both. */
  lemma DelaysOrderedIff(initialMs: nat, maxMs: nat, adaptive: bool, skewDetection: bool, frameTs: u32, frameSize: nat)
    requires frameTs > 0 && frameTs * RoundedUp(initialMs) < MOD32 && frameTs * CompletedMax(initialMs, maxMs) < MOD32
    ensures var c := CreateConfig(initialMs, maxMs, adaptive, skewDetection, frameTs, frameSize);
            c.initialDelayTs <= c.maxDelayTs <==> RoundedUp(initialMs) <= CompletedMax(initialMs, maxMs)
  {
    var initial, max := RoundedUp(initialMs), CompletedMax(initialMs, maxMs);
    ConfiguredDelays(initialMs, maxMs, adaptive, skewDetection, frameTs, frameSize);
    if initial <= max {
      Multiples.Ordered(initial, max, frameTs);
      Multiples.DivMonotone(frameTs * initial, frameTs * max, FRAME_TIME_BASE);
    } else {
      Multiples.Ordered(max, initial, frameTs);
      RoundedWhole(initialMs);
      WholeFrameTs(frameTs, initial);
      Multiples.Below(frameTs * max, frameTs * initial, FRAME_TIME_BASE);
    }
  }

  lemma ConfiguredDelays(initialMs: nat, maxMs: nat, adaptive: bool, skewDetection: bool, frameTs: u32, frameSize: nat)
    requires frameTs > 0 && frameTs * RoundedUp(initialMs) < MOD32 && frameTs * CompletedMax(initialMs, maxMs) < MOD32
    ensures var c := CreateConfig(initialMs, maxMs, adaptive, skewDetection, frameTs, frameSize);
            && c.initialDelayTs == frameTs * RoundedUp(initialMs) / FRAME_TIME_BASE
            && c.maxDelayTs == frameTs * CompletedMax(initialMs, maxMs) / FRAME_TIME_BASE
  {
    WrapExact(frameTs * RoundedUp(initialMs));
    WrapExact(frameTs * CompletedMax(initialMs, maxMs));
  }

  lemma WholeFrameTs(frameTs: nat, ms: nat)
    requires ms % FRAME_TIME_BASE == 0
    ensures frameTs * ms % FRAME_TIME_BASE == 0 && frameTs * ms / FRAME_TIME_BASE == frameTs * (ms / FRAME_TIME_BASE)
  {
    Multiples.Exchanged(frameTs, FRAME_TIME_BASE, ms / FRAME_TIME_BASE);
    Multiples.Multiple(frameTs * (ms / FRAME_TIME_BASE), FRAME_TIME_BASE);
  }

  /** Whole frames: the ring spans the maximum delay exactly. */
  lemma WholeFrames(initialMs: nat, maxMs: nat, adaptive: bool, skewDetection: bool, frameTs: u32, frameSize: nat)
    requires frameTs > 0 && initialMs % FRAME_TIME_BASE == 0 && maxMs % FRAME_TIME_BASE == 0
    requires frameTs * CompletedMax(initialMs, maxMs) < MOD32
    ensures var c := CreateConfig(initialMs, maxMs, adaptive, skewDetection, frameTs, frameSize);
            c.frameCount > 0 && c.initialDelayTs <= c.maxDelayTs == c.frameTs * c.frameCount
  {
    var max := CompletedMax(initialMs, maxMs);
    Multiples.Ordered(initialMs, max, frameTs);
    ConfiguredDelays(initialMs, maxMs, adaptive, skewDetection, frameTs, frameSize);
    Multiples.DivMonotone(frameTs * initialMs, frameTs * max, FRAME_TIME_BASE);
    CompletedWhole(initialMs, maxMs);
    WholeFrameTs(frameTs, max);
  }

  lemma CompletedWhole(initialMs: nat, maxMs: nat)
    requires initialMs % FRAME_TIME_BASE == 0 && maxMs % FRAME_TIME_BASE == 0
    ensures CompletedMax(initialMs, maxMs) % FRAME_TIME_BASE == 0
  {
  }

  lemma RoundedWhole(ms: nat)
    ensures RoundedUp(ms) % FRAME_TIME_BASE == 0
  {
  }
}
