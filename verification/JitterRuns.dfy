/** Whole runs of the jitter buffer: they do not depend on where the sender's
    clock starts, late packets never land in the past, and the ring behaves like
    an unbounded map from frame index to content. */
module JitterRuns {
  import opened Machine
  import opened JitterBuffer

  datatype Op = Audio(payload: Octets, ts: u32, marker: bool) | EventPacket(event: Event, ts: u32, marker: bool)
              | ReadFrame | Restart

  datatype Outcome = Accepted(result: JbResult) | Played(frame: MediaFrame) | Done

  function Step(c: Config, jb: Jb, op: Op): (r: (Jb, Outcome))
    requires jb.Valid(c)
    ensures r.0.Valid(c)
  {
    match op
    case Audio(payload, ts, marker) => var (jb, result) := Written(c, jb, payload, ts, marker); (jb, Accepted(result))
    case EventPacket(event, ts, marker) =>
      var (jb, result) := EventWritten(c, jb, event, ts, marker); (jb, Accepted(result))
    case ReadFrame => var (jb, frame) := ReadFrom(c, jb); (jb, Played(frame))
    case Restart => (Restarted(c, jb), Done)
  }

  function Run(c: Config, jb: Jb, ops: seq<Op>): (r: (Jb, seq<Outcome>))
    requires jb.Valid(c)
    ensures r.0.Valid(c) && |r.1| == |ops|
    decreases |ops|
  {
    if ops == [] then (jb, [])
    else
      var (jb', o) := Step(c, jb, ops[0]);
      var (jb'', os) := Run(c, jb', ops[1..]);
      (jb'', [o] + os)
  }

  // ----- shift invariance -----

  function Shift(op: Op, k: u32): Op
  {
    match op
    case Audio(payload, ts, marker) => Audio(payload, Add(ts, k), marker)
    case EventPacket(event, ts, marker) => EventPacket(event, Add(ts, k), marker)
    case ReadFrame => op
    case Restart => op
  }

  function ShiftAll(ops: seq<Op>, k: u32): (r: seq<Op>)
    ensures |r| == |ops|
  {
    if ops == [] then [] else [Shift(ops[0], k)] + ShiftAll(ops[1..], k)
  }

  /** The same timing but for the offset, which is shifted once it is set. */
  predicate TimingShifted(t: Timing, t': Timing, k: u32)
  {
    t' == t.(offset := t'.offset) && (t.writeSync || t'.offset == Add(t.offset, k))
  }

  predicate Shifted(jb: Jb, jb': Jb, k: u32)
  {
    TimingShifted(jb.t, jb'.t, k) && jb'.e == jb.e && jb'.frames == jb.frames
  }

  lemma SubShifted(ts: u32, offset: u32, k: u32)
    ensures Sub(Add(ts, k), Add(offset, k)) == Sub(ts, offset)
  {
    AddExact(ts, k);
    AddExact(offset, k);
    SubExact(Add(ts, k), Add(offset, k));
    SubExact(ts, offset);
  }

  lemma OffsetShifted(ts: u32, x: u32, k: u32)
    ensures Sub(Add(ts, k), x) == Add(Sub(ts, x), k)
  {
    AddExact(ts, k);
    SubExact(Add(ts, k), x);
    SubExact(ts, x);
    AddExact(Sub(ts, x), k);
  }

  lemma PreparedShifted(c: Config, t: Timing, t': Timing, ts: u32, k: u32)
    requires c.Valid() && TimingShifted(t, t', k)
    ensures var (p, w) := Prepared(c, t, ts);
            var (p', w') := Prepared(c, t', Add(ts, k));
            w' == w && TimingShifted(p, p', k) && !p.writeSync
  {
    OffsetShifted(ts, t.readTs, k);
    SubShifted(ts, Prepared(c, t, ts).0.offset, k);
  }

  lemma SkewShifted(c: Config, t: Timing, t': Timing, ts: u32, w: u32, k: u32)
    requires c.Valid() && TimingShifted(t, t', k) && !t.writeSync && w < t.readTs
    ensures var (s, x, delta) := SkewAdjusted(c, t, ts, w);
            var (s', x', delta') := SkewAdjusted(c, t', Add(ts, k), w);
            x' == x && delta' == delta && TimingShifted(s, s', k) && !s.writeSync
  {
    assert SkewOf(c, t') == SkewOf(c, t) && Widened(c, t', t.readTs - w) == Widened(c, t, t.readTs - w);
    SkewedShifted(t, t', ts, SkewOf(c, t), k);
  }

  lemma SkewedShifted(t: Timing, t': Timing, ts: u32, skew: u32, k: u32)
    requires TimingShifted(t, t', k) && !t.writeSync
    ensures TimingShifted(Skewed(t, skew), Skewed(t', skew), k)
    ensures Sub(Add(ts, k), Skewed(t', skew).offset) == Sub(ts, Skewed(t, skew).offset)
  {
    OffsetShifted(t.offset, skew, k);
    SubShifted(ts, Sub(t.offset, skew), k);
  }

  lemma DelayExtendedShifted(c: Config, t: Timing, t': Timing, w: u32, delta: u32, k: u32)
    requires TimingShifted(t, t', k)
    ensures var (p, place) := DelayExtended(c, t, w, delta);
            var (p', place') := DelayExtended(c, t', w, delta);
            place' == place && TimingShifted(p, p', k)
  {
  }

  lemma PlacedLateShifted(c: Config, t: Timing, t': Timing, ts: u32, w: u32, k: u32)
    requires c.Valid() && TimingShifted(t, t', k) && !t.writeSync && w < t.readTs
    ensures var (p, place) := PlacedLate(c, t, ts, w);
            var (p', place') := PlacedLate(c, t', Add(ts, k), w);
            place' == place && TimingShifted(p, p', k)
  {
    SkewShifted(c, t, t', ts, w, k);
    var (s, x, delta) := SkewAdjusted(c, t, ts, w);
    var (s', _, _) := SkewAdjusted(c, t', Add(ts, k), w);
    DelayExtendedShifted(c, s, s', x, delta, k);
  }

  lemma PlaceAudioShifted(c: Config, t: Timing, t': Timing, ts: u32, marker: bool, k: u32)
    requires c.Valid() && TimingShifted(t, t', k)
    ensures var (p, place) := PlaceAudio(c, t, ts, marker);
            var (p', place') := PlaceAudio(c, t', Add(ts, k), marker);
            place' == place && TimingShifted(p, p', k)
  {
    var t1, t1' := Marked(t, marker), Marked(t', marker);
    PreparedShifted(c, t1, t1', ts, k);
    var (p, w) := Prepared(c, t1, ts);
    var (p', _) := Prepared(c, t1', Add(ts, k));
    if w < p.readTs {
      PlacedLateShifted(c, p, p', ts, w, k);
    }
  }

  lemma AudioShifted(c: Config, jb: Jb, jb': Jb, payload: Octets, ts: u32, marker: bool, k: u32)
    requires jb.Valid(c) && jb'.Valid(c) && Shifted(jb, jb', k)
    ensures var (b, result) := Written(c, jb, payload, ts, marker);
            var (b', result') := Written(c, jb', payload, Add(ts, k), marker);
            result' == result && Shifted(b, b', k)
  {
    PlaceAudioShifted(c, jb.t, jb'.t, ts, marker, k);
  }

  lemma PlaceEventShifted(c: Config, t: Timing, t': Timing, w: u32, k: u32)
    requires c.Valid() && TimingShifted(t, t', k)
    ensures var (p, x, result) := PlaceEvent(c, t, w);
            var (p', x', result') := PlaceEvent(c, t', w);
            x' == x && result' == result && TimingShifted(p, p', k)
  {
  }

  lemma EventPutShifted(c: Config, jb: Jb, jb': Jb, w: u32, event: Event, start: bool, k: u32)
    requires jb.Valid(c) && jb'.Valid(c) && Shifted(jb, jb', k)
    ensures Shifted(EventPut(c, jb, w, event, start), EventPut(c, jb', w, event, start), k)
  {
  }

  lemma EventShifted(c: Config, jb: Jb, jb': Jb, event: Event, ts: u32, marker: bool, k: u32)
    requires jb.Valid(c) && jb'.Valid(c) && Shifted(jb, jb', k)
    ensures var (b, result) := EventWritten(c, jb, event, ts, marker);
            var (b', result') := EventWritten(c, jb', event, Add(ts, k), marker);
            result' == result && Shifted(b, b', k)
  {
    PreparedShifted(c, jb.t, jb'.t, ts, k);
    var (t, w0) := Prepared(c, jb.t, ts);
    var (t', _) := Prepared(c, jb'.t, Add(ts, k));
    var start := StartsEvent(c, jb, event, w0, marker);
    var seen := jb.(t := t, e := EventSeen(c, jb, event, w0, marker));
    var seen' := jb'.(t := t', e := EventSeen(c, jb', event, w0, marker));
    assert StartsEvent(c, jb', event, w0, marker) == start && seen'.e == seen.e && Updated(seen') == Updated(seen);
    if start || !OldNews(Updated(seen), event) {
      var at := if start then w0 else Add(w0, Updated(seen).duration);
      PlaceEventShifted(c, t, t', at, k);
      var (u, w, _) := PlaceEvent(c, t, at);
      var (u', _, _) := PlaceEvent(c, t', at);
      EventPutShifted(c, seen.(t := u), seen'.(t := u'), w, event, start, k);
    }
  }

  lemma ReadShifted(c: Config, jb: Jb, jb': Jb, k: u32)
    requires jb.Valid(c) && jb'.Valid(c) && Shifted(jb, jb', k)
    ensures var (b, frame) := ReadFrom(c, jb);
            var (b', frame') := ReadFrom(c, jb');
            frame' == frame && Shifted(b, b', k)
  {
    StatShifted(jb.t.(readTs := Add(jb.t.readTs, c.frameTs)), jb'.t.(readTs := Add(jb'.t.readTs, c.frameTs)), k);
  }

  lemma StatShifted(t: Timing, t': Timing, k: u32)
    requires TimingShifted(t, t', k)
    ensures TimingShifted(StatUpdated(t), StatUpdated(t'), k)
  {
  }

  lemma RestartShifted(c: Config, jb: Jb, jb': Jb, k: u32)
    requires jb.Valid(c) && jb'.Valid(c) && Shifted(jb, jb', k)
    ensures Shifted(Restarted(c, jb), Restarted(c, jb'), k)
  {
  }

  lemma StepShifted(c: Config, jb: Jb, jb': Jb, op: Op, k: u32)
    requires jb.Valid(c) && jb'.Valid(c) && Shifted(jb, jb', k)
    ensures Step(c, jb', Shift(op, k)).1 == Step(c, jb, op).1
    ensures Shifted(Step(c, jb, op).0, Step(c, jb', Shift(op, k)).0, k)
  {
    match op
    case Audio(payload, ts, marker) => AudioShifted(c, jb, jb', payload, ts, marker, k);
    case EventPacket(event, ts, marker) => EventShifted(c, jb, jb', event, ts, marker, k);
    case ReadFrame => ReadShifted(c, jb, jb', k);
    case Restart => RestartShifted(c, jb, jb', k);
  }

  lemma {:induction false} RunShifted(c: Config, jb: Jb, jb': Jb, ops: seq<Op>, k: u32)
    requires jb.Valid(c) && jb'.Valid(c) && Shifted(jb, jb', k)
    ensures Run(c, jb', ShiftAll(ops, k)).1 == Run(c, jb, ops).1
    decreases |ops|
  {
    if ops != [] {
      StepShifted(c, jb, jb', ops[0], k);
      assert ShiftAll(ops, k)[1..] == ShiftAll(ops[1..], k);
      RunShifted(c, Step(c, jb, ops[0]).0, Step(c, jb', Shift(ops[0], k)).0, ops[1..], k);
    }
  }

  /** Two fresh buffers given the same operations, with all sender timestamps of
      one shifted by any constant, answer every operation alike. */
  lemma ShiftInvariance(c: Config, jb: Jb, ops: seq<Op>, k: u32)
    requires IsCreated(c, jb)
    ensures Run(c, jb, ShiftAll(ops, k)).1 == Run(c, jb, ops).1
  {
    RunShifted(c, jb, jb, ops, k);
  }
}
