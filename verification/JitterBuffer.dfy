/** The jitter buffer: a ring of frames indexed by local time, written at the
    sender's timestamps plus an adaptive playout delay and read once per frame. */
module JitterBuffer {
  import opened Machine
  import opened Options

  // ----- 32-bit arithmetic -----

  const MOD64 := 0x1_0000_0000_0000_0000

  function Add(a: u32, b: u32): u32 { (a + b) % MOD32 }
  function Sub(a: u32, b: u32): u32 { (a - b) % MOD32 }

  function AlignDown(a: u32, unit: u32): (r: u32)
    requires unit > 0
  {
    a - a % unit
  }

  lemma AddExact(a: u32, b: u32)
    ensures Add(a, b) == (if a + b < MOD32 then a + b else a + b - MOD32)
  {
  }

  lemma SubExact(a: u32, b: u32)
    ensures Sub(a, b) == (if b <= a then a - b else a - b + MOD32)
  {
  }

  // ----- data -----

  const FRAME_TIME_BASE := 10 // ms
  const STAT_PERIOD := 50

  type Octets = seq<bv8>

  datatype Event = Event(id: bv8, volume: bv8, reserved: bool, edge: bool, duration: u16)

  datatype Marker = NoMarker | StartOfEvent | EndOfEvent

  /** A slot of the ring. The data and the event stay behind when the flags are cleared. */
  datatype Frame = Frame(hasAudio: bool, hasEvent: bool, marker: Marker, data: Octets, event: Event)

  /** What a read hands out. */
  datatype MediaFrame = MediaFrame(audio: Option<Octets>, event: Option<Event>, marker: Marker)

  const NOTHING := MediaFrame(None, None, NoMarker)

  datatype JbResult = Ok | DiscardTooLate | DiscardTooEarly

  /** What the buffer is created with, in timestamp units where it ends in Ts. */
  datatype Config = Config(frameTs: u32, frameSize: nat, frameCount: nat, adaptive: bool, skewDetection: bool,
                           initialDelayTs: u32, maxDelayTs: u32)
  {
    predicate Valid() { frameTs > 0 && 0 < frameCount < MOD64 }
  }

  /** The event the next update is compared with: the stored base, or the one in a slot. */
  datatype EventRef = NoEvent | Base | Slot(index: nat)

  datatype Timing = Timing(delay: u32, writeSync: bool, offset: u32, writeTs: u32, readTs: u32,
                           minLength: int, maxLength: int, measurements: u32)

  datatype EventState = EventState(baseTs: u32, base: Event, update: EventRef)

  datatype Jb = Jb(t: Timing, e: EventState, frames: seq<Frame>)
  {
    predicate Valid(c: Config)
    {
      && c.Valid() && |frames| == c.frameCount
      && (e.update.Slot? ==> e.update.index < c.frameCount)
    }
  }

  const NO_EVENT := Event(0, 0, false, false, 0)

  // ----- creation and restart -----

  /** The configured delays, in ms, are completed and rounded up to whole frames. */
  function CreateConfig(initialMs: nat, maxMs: nat, adaptive: bool, skewDetection: bool, frameTs: u32,
                        frameSize: nat): Config
  {
    var max := if maxMs < initialMs then 2 * initialMs else maxMs;
    var max := if max == 0 then 600 else max;
    var initial := if initialMs % FRAME_TIME_BASE != 0 then initialMs + (FRAME_TIME_BASE - initialMs % FRAME_TIME_BASE)
                   else initialMs;
    Config(frameTs, frameSize, max / FRAME_TIME_BASE, adaptive, skewDetection,
           frameTs * initial % MOD32 / FRAME_TIME_BASE, frameTs * max % MOD32 / FRAME_TIME_BASE)
  }

  function InitialTiming(c: Config): Timing { Timing(c.initialDelayTs, true, 0, 0, 0, 0, 0, 0) }

  predicate IsCreated(c: Config, jb: Jb)
  {
    && jb.Valid(c) && jb.t == InitialTiming(c) && jb.e == EventState(0, NO_EVENT, NoEvent)
    && forall i | 0 <= i < |jb.frames| ::
         !jb.frames[i].hasAudio && !jb.frames[i].hasEvent && jb.frames[i].marker == NoMarker
  }

  function Restarted(c: Config, jb: Jb): Jb
  {
    var delay := if c.adaptive && jb.t.delay == c.maxDelayTs then c.initialDelayTs else jb.t.delay;
    jb.(t := jb.t.(writeSync := true, offset := 0, writeTs := jb.t.readTs, delay := delay),
        e := EventState(0, NO_EVENT, NoEvent))
  }

  // ----- placing what is written -----

  function SlotOf(c: Config, ts: u32): (i: nat)
    requires c.Valid()
    ensures i < c.frameCount
  {
    ts / c.frameTs % c.frameCount
  }

  /** Synchronises the offset if asked to, and maps a sender timestamp to a position. */
  function Prepared(c: Config, t: Timing, ts: u32): (r: (Timing, u32))
    requires c.Valid()
  {
    var t := if !t.writeSync then t
             else
               var t := t.(offset := Sub(ts, t.readTs), writeSync := false);
               if c.skewDetection then t.(minLength := Signed(t.delay), maxLength := Signed(t.delay), measurements := 0)
               else t;
    (t, AlignDown(Add(Sub(ts, t.offset), t.delay), c.frameTs))
  }

  datatype Placement = Placed(writeTs: u32) | Late

  /** What is still missing is added to the playout delay if that is allowed. */
  function DelayExtended(c: Config, t: Timing, w: u32, delta: u32): (Timing, Placement)
  {
    if delta == 0 then (t, Placed(w))
    else if !c.adaptive || Add(t.delay, delta) > c.maxDelayTs then (t, Late)
    else
      var d := t.(delay := Add(t.delay, delta));
      (if !c.skewDetection then d
       else d.(minLength := Signed(d.minLength + delta), maxLength := Signed(d.maxLength + delta)),
       Placed(Add(w, delta)))
  }

  /** A position already read: the offset follows a clock skew, then the delay grows. */
  function PlacedLate(c: Config, t: Timing, ts: u32, writeTs: u32): (Timing, Placement)
    requires c.Valid() && writeTs < t.readTs
  {
    var (t', w, delta) := SkewAdjusted(c, t, ts, writeTs);
    DelayExtended(c, t', w, delta)
  }

  /** The adjustment grows with the spread of the measured lengths. */
  function Widened(c: Config, t: Timing, delta: u32): u32
    requires c.Valid()
  {
    var spread := (t.maxLength - t.minLength) % MOD32;
    if spread > Add(t.delay, delta) then AlignDown(Sub(spread, t.delay), c.frameTs) else delta
  }

  /** The offset moves with the clock skew that the measured lengths show. */
  function SkewOf(c: Config, t: Timing): u32
    requires c.Valid()
  {
    if 0 < t.maxLength < t.delay then AlignDown(t.delay - t.maxLength, c.frameTs) else 0
  }

  function Skewed(t: Timing, skew: u32): Timing
  {
    t.(offset := Sub(t.offset, skew), minLength := Signed(t.minLength + skew), maxLength := Signed(t.maxLength + skew))
  }

  /** The result is the timing, the position and the adjustment still missing. */
  function SkewAdjusted(c: Config, t: Timing, ts: u32, writeTs: u32): (r: (Timing, u32, u32))
    requires c.Valid() && writeTs < t.readTs
  {
    var delta := t.readTs - writeTs;
    if !c.skewDetection then (t, writeTs, delta)
    else
      var delta := Widened(c, t, delta);
      if 0 < t.maxLength < t.delay then SkewFollowed(c, t, ts, delta) else (t, writeTs, delta)
  }

  /** The position moves with the offset, which covers part of the adjustment. */
  function SkewFollowed(c: Config, t: Timing, ts: u32, delta: u32): (r: (Timing, u32, u32))
    requires c.Valid()
  {
    var skew := SkewOf(c, t);
    var t' := Skewed(t, skew);
    (t', Add(Sub(ts, t'.offset), t.delay), if skew < delta then delta - skew else 0)
  }

  /** A marker resynchronises an empty buffer. */
  function Marked(t: Timing, marker: bool): Timing
  {
    if marker && t.writeTs <= t.readTs then t.(writeSync := true) else t
  }

  function PlaceAudio(c: Config, t: Timing, ts: u32, marker: bool): (Timing, Placement)
    requires c.Valid()
  {
    var (t, w) := Prepared(c, Marked(t, marker), ts);
    if w >= t.readTs then (t, Placed(w))
    else if w < t.writeTs then (t, Late)
    else PlacedLate(c, t, ts, w)
  }

  /** Frames free from the position on, in the unsigned 64-bit arithmetic of the original. */
  function Available(c: Config, t: Timing, writeTs: u32): nat
    requires c.Valid()
  {
    (c.frameCount - Sub(writeTs, t.readTs) / c.frameTs) % MOD64
  }

  predicate Dissectable(c: Config, payload: Octets) { |payload| >= c.frameSize && c.frameSize > 0 }

  /** Stores the payload frame by frame; the position reached is returned. */
  function StoreAudio(c: Config, frames: seq<Frame>, writeTs: u32, available: nat,
                      payload: Octets): (r: (seq<Frame>, u32))
    requires c.Valid() && |frames| == c.frameCount
    ensures |r.0| == c.frameCount
    decreases available
  {
    if available == 0 || !Dissectable(c, payload) then (frames, writeTs)
    else
      var i := SlotOf(c, writeTs);
      StoreAudio(c, frames[i := frames[i].(hasAudio := true, data := payload[..c.frameSize])],
                 Add(writeTs, c.frameTs), available - 1, payload[c.frameSize..])
  }

  function Written(c: Config, jb: Jb, payload: Octets, ts: u32, marker: bool): (r: (Jb, JbResult))
    requires jb.Valid(c)
    ensures r.0.Valid(c)
  {
    var (t, p) := PlaceAudio(c, jb.t, ts, marker);
    AudioPut(c, jb.(t := t), p, payload)
  }

  /** Stores a payload at the position it was given. */
  function AudioPut(c: Config, jb: Jb, p: Placement, payload: Octets): (r: (Jb, JbResult))
    requires jb.Valid(c)
    ensures r.0.Valid(c)
  {
    if p.Late? then (jb, DiscardTooLate)
    else
      var available := Available(c, jb.t, p.writeTs);
      if available == 0 then (jb, DiscardTooEarly)
      else
        var (frames, w) := StoreAudio(c, jb.frames, p.writeTs, available, payload);
        (jb.(t := if w > jb.t.writeTs then jb.t.(writeTs := w) else jb.t, frames := frames), Ok)
  }

  // ----- events -----

  /** The event an update is compared with. */
  function Updated(jb: Jb): Event
    requires jb.e.update.Slot? ==> jb.e.update.index < |jb.frames|
  {
    match jb.e.update
    case NoEvent => NO_EVENT
    case Base => jb.e.base
    case Slot(i) => jb.frames[i].event
  }

  /** Whether a packet at position `w` starts a new event. */
  predicate StartsEvent(c: Config, jb: Jb, event: Event, w: u32, marker: bool)
    requires jb.Valid(c)
  {
    || marker
    || jb.e.base.id != event.id || jb.e.update == NoEvent
    || (jb.e.baseTs != w && w > (jb.e.baseTs + Updated(jb).duration + 4 * c.frameTs) % MOD32)
  }

  /** The event under way once a packet at position `w` was seen: a new event, and
      also a new segment of a long one, becomes the base. */
  function EventSeen(c: Config, jb: Jb, event: Event, w: u32, marker: bool): EventState
    requires jb.Valid(c)
  {
    if StartsEvent(c, jb, event, w, marker) || jb.e.baseTs != w then EventState(w, event, Base) else jb.e
  }

  /** An update that tells nothing new. */
  predicate OldNews(known: Event, event: Event)
  {
    event.duration < known.duration
    || (event.duration == known.duration && (known.edge || known.edge == event.edge))
  }

  function PlaceEvent(c: Config, t: Timing, w: u32): (Timing, u32, JbResult)
    requires c.Valid()
  {
    if w < t.readTs then
      var delta := t.readTs - w;
      if !c.adaptive || Add(t.delay, delta) > c.maxDelayTs then (t, w, DiscardTooLate)
      else (t.(delay := Add(t.delay, delta)), t.readTs, Ok)
    else if (w - t.readTs) / c.frameTs >= c.frameCount then (t, w, DiscardTooEarly)
    else (t, w, Ok)
  }

  function EventStored(f: Frame, event: Event, start: bool): Frame
  {
    f.(hasEvent := true, event := event,
       marker := if start then StartOfEvent else if event.edge then EndOfEvent else f.marker)
  }

  function EventWritten(c: Config, jb: Jb, event: Event, ts: u32, marker: bool): (r: (Jb, JbResult))
    requires jb.Valid(c)
    ensures r.0.Valid(c)
  {
    var (t, w0) := Prepared(c, jb.t, ts);
    var start := StartsEvent(c, jb, event, w0, marker);
    var seen := jb.(t := t, e := EventSeen(c, jb, event, w0, marker));
    if !start && OldNews(Updated(seen), event) then (seen, Ok)
    else EventPlaced(c, seen, if start then w0 else Add(w0, Updated(seen).duration), event, start)
  }

  function EventPlaced(c: Config, jb: Jb, at: u32, event: Event, start: bool): (r: (Jb, JbResult))
    requires jb.Valid(c)
    ensures r.0.Valid(c)
  {
    var (t, w, result) := PlaceEvent(c, jb.t, at);
    if result != Ok then (jb.(t := t), result)
    else (EventPut(c, jb.(t := t), w, event, start), Ok)
  }

  /** Stores an event at position `w`; the slot is what the next update refers to. */
  function EventPut(c: Config, jb: Jb, w: u32, event: Event, start: bool): (r: Jb)
    requires jb.Valid(c)
    ensures r.Valid(c)
  {
    var i := SlotOf(c, w);
    var next := Add(w, c.frameTs);
    Jb(if next > jb.t.writeTs then jb.t.(writeTs := next) else jb.t,
       jb.e.(update := Slot(i), baseTs := if start then w else jb.e.baseTs),
       jb.frames[i := EventStored(jb.frames[i], event, start)])
  }

  // ----- reading -----

  function StatUpdated(t: Timing): Timing
  {
    var t := if t.measurements == STAT_PERIOD then
               var mean := Signed(t.minLength + Divided(Signed(t.maxLength - t.minLength), 2));
               t.(minLength := mean, maxLength := mean, measurements := 0)
             else t;
    var length := Signed(Sub(t.writeTs, t.readTs));
    t.(maxLength := if length > t.maxLength then length else t.maxLength,
       minLength := if length <= t.maxLength && length < t.minLength then length else t.minLength,
       measurements := Add(t.measurements, 1))
  }

  function Content(f: Frame): MediaFrame
  {
    MediaFrame(if f.hasAudio then Some(f.data) else None, if f.hasEvent then Some(f.event) else None, f.marker)
  }

  function Cleared(f: Frame): Frame { f.(hasAudio := false, hasEvent := false, marker := NoMarker) }

  function ReadFrom(c: Config, jb: Jb): (r: (Jb, MediaFrame))
    requires jb.Valid(c)
    ensures r.0.Valid(c)
  {
    var i := SlotOf(c, jb.t.readTs);
    var out := if jb.t.writeTs > jb.t.readTs then Content(jb.frames[i]) else NOTHING;
    var t := jb.t.(readTs := Add(jb.t.readTs, c.frameTs));
    (jb.(frames := jb.frames[i := Cleared(jb.frames[i])], t := if c.skewDetection then StatUpdated(t) else t), out)
  }

  // ----- the buffer as an object -----

  class JitterBuffer {
    const config: Config
    const frames: array<Frame>
    var playoutDelayTs: u32
    var writeSync: bool
    var writeTsOffset: u32
    var writeTs: u32
    var readTs: u32
    var minLengthTs: int
    var maxLengthTs: int
    var measurementCount: u32
    var eventWriteBaseTs: u32
    var eventWriteBase: Event
    var eventWriteUpdate: EventRef

    ghost predicate Valid() reads this, frames { State().Valid(config) }

    function Times(): Timing reads this
    {
      Timing(playoutDelayTs, writeSync, writeTsOffset, writeTs, readTs, minLengthTs, maxLengthTs, measurementCount)
    }

    function Events(): EventState reads this { EventState(eventWriteBaseTs, eventWriteBase, eventWriteUpdate) }

    ghost function State(): Jb reads this, frames { Jb(Times(), Events(), frames[..]) }

    constructor (initialMs: nat, maxMs: nat, adaptive: bool, skewDetection: bool, frameTs: u32, frameSize: nat)
      requires CreateConfig(initialMs, maxMs, adaptive, skewDetection, frameTs, frameSize).Valid()
      ensures config == CreateConfig(initialMs, maxMs, adaptive, skewDetection, frameTs, frameSize)
      ensures fresh(frames) && IsCreated(config, State())
    {
      var max, initial := maxMs, initialMs;
      if max < initial {
        max := 2 * initial;
      }
      if max == 0 {
        max := 600; // ms
      }
      var frameCount := max / FRAME_TIME_BASE;
      if initial % FRAME_TIME_BASE != 0 {
        initial := initial + (FRAME_TIME_BASE - initial % FRAME_TIME_BASE);
      }
      var initialTs: u32 := Wrap(frameTs * initial) / FRAME_TIME_BASE;
      var maxTs: u32 := Wrap(frameTs * max) / FRAME_TIME_BASE;
      config := Config(frameTs, frameSize, frameCount, adaptive, skewDetection, initialTs, maxTs);
      frames := new Frame[frameCount](_ => Frame(false, false, NoMarker, [], NO_EVENT));
      playoutDelayTs, writeSync, writeTsOffset, writeTs, readTs := initialTs, true, 0, 0, 0;
      minLengthTs, maxLengthTs, measurementCount := 0, 0, 0;
      eventWriteBaseTs, eventWriteBase, eventWriteUpdate := 0, NO_EVENT, NoEvent;
    }

    /** The slots are left as they are. */
    method Restart()
      requires Valid()
      modifies this
      ensures State() == Restarted(config, old(State()))
    {
      writeSync, writeTsOffset, writeTs := true, 0, readTs;
      eventWriteBaseTs, eventWriteBase, eventWriteUpdate := 0, NO_EVENT, NoEvent;
      if config.adaptive && playoutDelayTs == config.maxDelayTs {
        playoutDelayTs := config.initialDelayTs;
      }
    }

    method StatUpdate()
      modifies this`minLengthTs, this`maxLengthTs, this`measurementCount
      ensures Times() == StatUpdated(old(Times()))
    {
      if measurementCount == STAT_PERIOD {
        var mean := Signed(minLengthTs + Divided(Signed(maxLengthTs - minLengthTs), 2));
        minLengthTs, maxLengthTs, measurementCount := mean, mean, 0;
      }
      var length := Signed(Sub(writeTs, readTs));
      if length > maxLengthTs {
        maxLengthTs := length;
      } else if length < minLengthTs {
        minLengthTs := length;
      }
      measurementCount := Add(measurementCount, 1);
    }

    method WritePrepare(ts: u32) returns (w: u32)
      requires config.Valid()
      modifies this`writeTsOffset, this`writeSync, this`minLengthTs, this`maxLengthTs, this`measurementCount
      ensures (Times(), w) == Prepared(config, old(Times()), ts)
    {
      OffsetSet(ts);
      w := Add(Sub(ts, writeTsOffset), playoutDelayTs);
      if w % config.frameTs != 0 {
        w := w - w % config.frameTs;
      }
    }

    method OffsetSet(ts: u32)
      requires config.Valid()
      modifies this`writeTsOffset, this`writeSync, this`minLengthTs, this`maxLengthTs, this`measurementCount
      ensures Times() == Prepared(config, old(Times()), ts).0
    {
      if writeSync {
        writeTsOffset, writeSync := Sub(ts, readTs), false;
        if config.skewDetection {
          minLengthTs, maxLengthTs, measurementCount := Signed(playoutDelayTs), Signed(playoutDelayTs), 0;
        }
      }
    }

    method SkewApply(skew: u32)
      modifies this`writeTsOffset, this`minLengthTs, this`maxLengthTs
      ensures Times() == Skewed(old(Times()), skew)
    {
      writeTsOffset := Sub(writeTsOffset, skew);
      minLengthTs := Signed(minLengthTs + skew);
      maxLengthTs := Signed(maxLengthTs + skew);
    }

    method SkewAdjust(ts: u32, writeTs': u32) returns (w: u32, delta: u32)
      requires config.Valid() && writeTs' < readTs
      modifies this`writeTsOffset, this`minLengthTs, this`maxLengthTs
      ensures (Times(), w, delta) == SkewAdjusted(config, old(Times()), ts, writeTs')
    {
      w, delta := writeTs', readTs - writeTs';
      if config.skewDetection {
        delta := Widened(config, Times(), delta);
        if maxLengthTs > 0 && maxLengthTs < playoutDelayTs {
          w, delta := SkewFollow(ts, delta);
        }
      }
    }

    method SkewFollow(ts: u32, delta: u32) returns (w: u32, left: u32)
      requires config.Valid()
      modifies this`writeTsOffset, this`minLengthTs, this`maxLengthTs
      ensures (Times(), w, left) == SkewFollowed(config, old(Times()), ts, delta)
    {
      var skew := SkewOf(config, Times());
      SkewApply(skew);
      w := Add(Sub(ts, writeTsOffset), playoutDelayTs);
      left := if skew < delta then delta - skew else 0;
    }

    method DelayExtend(w: u32, delta: u32) returns (p: Placement)
      modifies this`playoutDelayTs, this`minLengthTs, this`maxLengthTs
      ensures (Times(), p) == DelayExtended(config, old(Times()), w, delta)
    {
      p := Placed(w);
      if delta != 0 {
        if !config.adaptive || Add(playoutDelayTs, delta) > config.maxDelayTs {
          return Late;
        }
        playoutDelayTs, p := Add(playoutDelayTs, delta), Placed(Add(w, delta));
        if config.skewDetection {
          minLengthTs, maxLengthTs := Signed(minLengthTs + delta), Signed(maxLengthTs + delta);
        }
      }
    }

    method AudioPlace(ts: u32, marker: bool) returns (p: Placement)
      requires config.Valid()
      modifies this`writeTsOffset, this`writeSync, this`minLengthTs, this`maxLengthTs, this`measurementCount
      modifies this`playoutDelayTs
      ensures (Times(), p) == PlaceAudio(config, old(Times()), ts, marker)
    {
      if marker && writeTs <= readTs {
        writeSync := true;
      }
      var w := WritePrepare(ts);
      if w < readTs {
        if w < writeTs {
          return Late;
        }
        var delta;
        w, delta := SkewAdjust(ts, w);
        p := DelayExtend(w, delta);
        return;
      }
      p := Placed(w);
    }

    method FramesStore(writeTs': u32, frameCount: nat, buffer: Octets) returns (w: u32)
      requires Valid()
      modifies frames
      ensures (frames[..], w) == StoreAudio(config, old(frames[..]), writeTs', frameCount, buffer)
    {
      var available, rest := frameCount, buffer;
      w := writeTs';
      ghost var stored := StoreAudio(config, frames[..], w, available, rest);
      while available > 0 && Dissectable(config, rest)
        invariant stored == StoreAudio(config, frames[..], w, available, rest)
        decreases available
      {
        var i := SlotOf(config, w);
        frames[i] := frames[i].(hasAudio := true, data := rest[..config.frameSize]);
        rest := rest[config.frameSize..];
        w := Add(w, config.frameTs);
        available := available - 1;
      }
    }

    method Write(buffer: Octets, ts: u32, marker: bool) returns (result: JbResult)
      requires Valid()
      modifies this, frames
      ensures (State(), result) == Written(config, old(State()), buffer, ts, marker)
    {
      var p := AudioPlace(ts, marker);
      if p.Late? {
        return DiscardTooLate;
      }
      var available := Available(config, Times(), p.writeTs);
      if available == 0 {
        return DiscardTooEarly;
      }
      var w := FramesStore(p.writeTs, available, buffer);
      if w > writeTs {
        writeTs := w;
      }
      result := Ok;
    }

    method EventWrite(event: Event, ts: u32, marker: bool) returns (result: JbResult)
      requires Valid()
      modifies this, frames
      ensures (State(), result) == EventWritten(config, old(State()), event, ts, marker)
    {
      var w := WritePrepare(ts);
      ghost var before := State();
      var start := EventDetect(event, w, marker);
      if !start {
        var known := EventKnown();
        if OldNews(known, event) {
          return Ok;
        }
        w := Add(w, known.duration);
      }
      result, w := EventPlace(w);
      if result == Ok {
        EventStore(w, event, start);
      }
    }

    method EventPlace(writeTs': u32) returns (result: JbResult, w: u32)
      requires Valid()
      modifies this`playoutDelayTs
      ensures (Times(), w, result) == PlaceEvent(config, old(Times()), writeTs')
    {
      w := writeTs';
      if w < readTs {
        var delta := readTs - w;
        if !config.adaptive || Add(playoutDelayTs, delta) > config.maxDelayTs {
          return DiscardTooLate, w;
        }
        playoutDelayTs, w := Add(playoutDelayTs, delta), readTs;
      } else if (w - readTs) / config.frameTs >= config.frameCount {
        return DiscardTooEarly, w;
      }
      result := Ok;
    }

    method EventStore(w: u32, event: Event, start: bool)
      requires Valid()
      modifies this`writeTs, this`eventWriteBaseTs, this`eventWriteUpdate, frames
      ensures State() == EventPut(config, old(State()), w, event, start)
    {
      var i := SlotOf(config, w);
      frames[i] := EventStored(frames[i], event, start);
      eventWriteUpdate := Slot(i);
      if start {
        eventWriteBaseTs := w;
      }
      var next := Add(w, config.frameTs);
      if next > writeTs {
        writeTs := next;
      }
    }

    function EventKnown(): Event
      requires Valid()
      reads this, frames
    {
      match eventWriteUpdate
      case NoEvent => NO_EVENT
      case Base => eventWriteBase
      case Slot(i) => frames[i].event
    }

    /** Recognises a new event even if its marker is missing. */
    method EventDetect(event: Event, w: u32, marker: bool) returns (start: bool)
      requires Valid()
      modifies this`eventWriteBaseTs, this`eventWriteBase, this`eventWriteUpdate
      ensures start == StartsEvent(config, old(State()), event, w, marker)
      ensures State() == old(State()).(e := EventSeen(config, old(State()), event, w, marker))
    {
      start := marker;
      if !start {
        if eventWriteBase.id != event.id || eventWriteUpdate == NoEvent {
          start := true;
        } else if eventWriteBaseTs != w {
          if w > (eventWriteBaseTs + EventKnown().duration + 4 * config.frameTs) % MOD32 {
            start := true;
          } else {
            eventWriteBase, eventWriteUpdate, eventWriteBaseTs := event, Base, w;
          }
        }
      }
      if start {
        eventWriteBase, eventWriteUpdate, eventWriteBaseTs := event, Base, w;
      }
    }

    method Read() returns (out: MediaFrame)
      requires Valid()
      modifies this, frames
      ensures (State(), out) == ReadFrom(config, old(State()))
    {
      var i := SlotOf(config, readTs);
      out := if writeTs > readTs then Content(frames[i]) else NOTHING;
      frames[i] := Cleared(frames[i]);
      readTs := Add(readTs, config.frameTs);
      if config.skewDetection {
        StatUpdate();
      }
    }
  }
}
