/** The ring of the jitter buffer against an unbounded map from frame index to
    content: as long as writes stay inside its window, both answer every operation
    alike. Without restarts a read never misses what the map holds for its index. */
module Playout {
  import opened Machine
  import opened Options
  import opened JitterBuffer
  import opened JitterRuns
  import opened LatePlacement
  import Multiples

  /** A buffer without slots: what is to be played is kept by frame index, and the
      last event seen by value. */
  datatype Plan = Plan(t: Timing, baseTs: u32, known: Option<Event>, content: map<nat, MediaFrame>)

  function Lookup(content: map<nat, MediaFrame>, k: nat): MediaFrame
  {
    if k in content then content[k] else NOTHING
  }

  function NewPlan(c: Config): Plan { Plan(InitialTiming(c), 0, None, map[]) }

  function Index(c: Config, position: u32): nat
    requires c.Valid()
  {
    position / c.frameTs
  }

  /** Whole frames of the payload go to consecutive positions, as many as there is room for. */
  function PlanAudio(c: Config, content: map<nat, MediaFrame>, w: u32, room: nat,
                     payload: Octets): (map<nat, MediaFrame>, u32)
    requires c.Valid()
    decreases room
  {
    if room == 0 || !Dissectable(c, payload) then (content, w)
    else
      var k := Index(c, w);
      var f := Lookup(content, k).(audio := Some(payload[..c.frameSize]));
      PlanAudio(c, content[k := f], Add(w, c.frameTs), room - 1, payload[c.frameSize..])
  }

  /** Whole frames from the reader to a position. */
  function Ahead(c: Config, t: Timing, w: u32): nat
    requires c.Valid()
  {
    Index(c, Sub(w, t.readTs))
  }

  function PlanWritten(c: Config, p: Plan, payload: Octets, ts: u32, marker: bool): (Plan, JbResult)
    requires c.Valid()
  {
    var (t, place) := PlaceAudio(c, p.t, ts, marker);
    PlanAudioAt(c, p.(t := t), place, payload)
  }

  function PlanAudioAt(c: Config, p: Plan, place: Placement, payload: Octets): (Plan, JbResult)
    requires c.Valid()
  {
    if place.Late? then (p, DiscardTooLate)
    else if Ahead(c, p.t, place.writeTs) >= c.frameCount then (p, DiscardTooEarly)
    else
      var (content, w) := PlanAudio(c, p.content, place.writeTs, c.frameCount - Ahead(c, p.t, place.writeTs), payload);
      (p.(t := if w > p.t.writeTs then p.t.(writeTs := w) else p.t, content := content), Ok)
  }

  /** Whether a packet at position `w` is not part of the event last seen. */
  predicate NewEvent(c: Config, p: Plan, event: Event, w: u32, marker: bool)
  {
    || marker || p.known.None? || p.known.value.id != event.id
    || (p.baseTs != w && w > (p.baseTs + p.known.value.duration + 4 * c.frameTs) % MOD32)
  }

  function PlanEvent(c: Config, p: Plan, event: Event, ts: u32, marker: bool): (Plan, JbResult)
    requires c.Valid()
  {
    var (t, w0) := Prepared(c, p.t, ts);
    if NewEvent(c, p, event, w0, marker) then
      PlanEventAt(c, p.(t := t, baseTs := w0, known := Some(event)), w0, event, true)
    else if p.baseTs != w0 then
      (p.(t := t, baseTs := w0, known := Some(event)), Ok) // the first packet of a segment is not stored
    else if OldNews(p.known.value, event) then (p.(t := t), Ok)
    else PlanEventAt(c, p.(t := t), Add(w0, p.known.value.duration), event, false)
  }

  function PlanEventAt(c: Config, p: Plan, at: u32, event: Event, start: bool): (Plan, JbResult)
    requires c.Valid()
  {
    var (t, w, result) := PlaceEvent(c, p.t, at);
    if result != Ok then (p.(t := t), result)
    else (PlanPut(c, p.(t := t), w, event, start), Ok)
  }

  function PlanPut(c: Config, p: Plan, w: u32, event: Event, start: bool): Plan
    requires c.Valid()
  {
    var k := Index(c, w);
    var next := Add(w, c.frameTs);
    var before := Lookup(p.content, k);
    var marker := if start then StartOfEvent else if event.edge then EndOfEvent else before.marker;
    Plan(if next > p.t.writeTs then p.t.(writeTs := next) else p.t, if start then w else p.baseTs, Some(event),
         p.content[k := before.(event := Some(event), marker := marker)])
  }

  /** A read takes what is planned for its index if the writer is ahead, and drops it
      otherwise. */
  function PlanRead(c: Config, p: Plan): (Plan, MediaFrame)
    requires c.Valid()
  {
    var k := Index(c, p.t.readTs);
    var t := p.t.(readTs := Add(p.t.readTs, c.frameTs));
    (p.(t := if c.skewDetection then StatUpdated(t) else t, content := p.content - {k}),
     if p.t.writeTs > p.t.readTs then Lookup(p.content, k) else NOTHING)
  }

  /** The timing starts over, and the event; what is planned stays. */
  function PlanRestart(c: Config, p: Plan): Plan
  {
    var delay := if c.adaptive && p.t.delay == c.maxDelayTs then c.initialDelayTs else p.t.delay;
    p.(t := p.t.(writeSync := true, offset := 0, writeTs := p.t.readTs, delay := delay), baseTs := 0, known := None)
  }

  function PlanStep(c: Config, p: Plan, op: Op): (Plan, Outcome)
    requires c.Valid()
  {
    match op
    case Audio(payload, ts, marker) => var (q, result) := PlanWritten(c, p, payload, ts, marker); (q, Accepted(result))
    case EventPacket(event, ts, marker) => var (q, result) := PlanEvent(c, p, event, ts, marker); (q, Accepted(result))
    case ReadFrame => var (q, frame) := PlanRead(c, p); (q, Played(frame))
    case Restart => (PlanRestart(c, p), Done)
  }

  function PlanRun(c: Config, p: Plan, ops: seq<Op>): seq<Outcome>
    requires c.Valid()
    decreases |ops|
  {
    if ops == [] then [] else
      var (q, o) := PlanStep(c, p, ops[0]);
      [o] + PlanRun(c, q, ops[1..])
  }

  /** A plain map: a read takes what is stored for its index, whatever the writer does. */
  function MapStep(c: Config, p: Plan, op: Op): (Plan, Outcome)
    requires c.Valid()
  {
    var (q, o) := PlanStep(c, p, op);
    (q, if op == ReadFrame then Played(Lookup(p.content, Index(c, p.t.readTs))) else o)
  }

  function MapRun(c: Config, p: Plan, ops: seq<Op>): seq<Outcome>
    requires c.Valid()
    decreases |ops|
  {
    if ops == [] then [] else
      var (q, o) := MapStep(c, p, ops[0]);
      [o] + MapRun(c, q, ops[1..])
  }

  // ----- the relation -----

  function Known(jb: Jb): Option<Event>
    requires jb.e.update.Slot? ==> jb.e.update.index < |jb.frames|
  {
    if jb.e.update == NoEvent then None else Some(Updated(jb))
  }

  /** Each index between the reader and the end of the window has its own slot. */
  lemma LiveSlotsDistinct(r: nat, k: nat, k': nat, count: nat)
    requires r <= k < k' < r + count
    ensures k % count != k' % count
  {
    if k % count == k' % count {
      assert k' == count * (k' / count) + k % count && k == count * (k / count) + k % count;
      Multiples.Ordered(k / count, k' / count, count);
      assert false;
    }
  }

  ghost predicate Live(frames: seq<Frame>, content: map<nat, MediaFrame>, r: nat)
    requires |frames| > 0
  {
    && (forall k | r <= k < r + |frames| :: Content(frames[k % |frames|]) == Lookup(content, k))
    && (forall k | k in content :: r <= k < r + |frames|)
  }

  /** Nothing is planned at or after the write position. */
  predicate Before(c: Config, content: map<nat, MediaFrame>, writeTs: nat)
  {
    forall k | k in content :: c.frameTs * k < writeTs
  }

  /** `unbroken` as long as there was no restart. */
  ghost predicate Related(c: Config, jb: Jb, p: Plan, unbroken: bool)
    requires jb.Valid(c)
  {
    && p.t == jb.t && p.baseTs == jb.e.baseTs && p.known == Known(jb)
    && (p.known.Some? ==> p.known.value.id == jb.e.base.id)
    && Live(jb.frames, p.content, Index(c, jb.t.readTs)) && (unbroken ==> Before(c, p.content, jb.t.writeTs))
  }

  /** Changing the content at one live index changes its slot alone. */
  lemma PutLive(frames: seq<Frame>, content: map<nat, MediaFrame>, r: nat, k: nat, f: Frame)
    requires |frames| > 0 && Live(frames, content, r) && r <= k < r + |frames|
    ensures Live(frames[k % |frames| := f], content[k := Content(f)], r)
  {
    var fs := frames[k % |frames| := f];
    forall j | r <= j < r + |frames| ensures Content(fs[j % |frames|]) == Lookup(content[k := Content(f)], j) {
      if j < k {
        LiveSlotsDistinct(r, j, k, |frames|);
      } else if k < j {
        LiveSlotsDistinct(r, k, j, |frames|);
      }
    }
  }

  /** A read frees its slot, which then stands for the index past the window. */
  lemma ReadLive(frames: seq<Frame>, content: map<nat, MediaFrame>, r: nat)
    requires |frames| > 0 && Live(frames, content, r)
    ensures Content(frames[r % |frames|]) == Lookup(content, r)
    ensures Live(frames[r % |frames| := Cleared(frames[r % |frames|])], content - {r}, r + 1)
  {
    var n := |frames|;
    var fs := frames[r % n := Cleared(frames[r % n])];
    forall k | r + 1 <= k < r + 1 + n ensures Content(fs[k % n]) == Lookup(content - {r}, k) {
      if k < r + n {
        LiveSlotsDistinct(r, r, k, n);
      } else {
        WrapsAround(r, n);
      }
    }
  }

  lemma WrapsAround(r: nat, n: nat)
    requires n > 0
    ensures (r + n) % n == r % n
  {
    Multiples.Multiple(1, n);
    Multiples.Sum(n, r, n);
  }

  // ----- reading -----

  lemma IndexTimes(c: Config, ts: nat)
    requires c.Valid()
    ensures c.frameTs * (ts / c.frameTs) <= ts < c.frameTs * (ts / c.frameTs) + c.frameTs
  {
  }

  lemma ReadRelated(c: Config, jb: Jb, p: Plan, unbroken: bool, span: nat)
    requires jb.Valid(c) && Roomy(c, span) && Fits(c, jb.t, span) && Aligned(c, jb.t) && Related(c, jb, p, unbroken)
    ensures ReadFrom(c, jb).1 == PlanRead(c, p).1 && Related(c, ReadFrom(c, jb).0, PlanRead(c, p).0, unbroken)
    ensures unbroken ==> PlanRead(c, p).1 == Lookup(p.content, Index(c, p.t.readTs))
  {
    var r := Index(c, jb.t.readTs);
    ReadLive(jb.frames, p.content, r);
    NextIndex(c, jb.t.readTs, span);
    if unbroken {
      Underflow(c, p.content, jb.t, r);
    }
    var t := jb.t.(readTs := Add(jb.t.readTs, c.frameTs));
    StatKeepsPositions(t);
    ClearedKeepsEvents(jb, SlotOf(c, jb.t.readTs));
  }

  /** When the reader has caught up, nothing is planned for its index. */
  lemma Underflow(c: Config, content: map<nat, MediaFrame>, t: Timing, r: nat)
    requires c.Valid() && Before(c, content, t.writeTs) && t.readTs % c.frameTs == 0 && r == Index(c, t.readTs)
    ensures t.writeTs <= t.readTs ==> r !in content
  {
    assert c.frameTs * r == t.readTs;
  }

  lemma NextIndex(c: Config, readTs: u32, span: nat)
    requires Roomy(c, span) && Clear(c, readTs) && readTs % c.frameTs == 0
    ensures Add(readTs, c.frameTs) == readTs + c.frameTs && (readTs + c.frameTs) / c.frameTs == readTs / c.frameTs + 1
  {
    AddExact(readTs, c.frameTs);
    Multiples.Multiple(1, c.frameTs);
    Multiples.Sum(readTs, c.frameTs, c.frameTs);
  }

  lemma StatKeepsPositions(t: Timing)
    ensures StatUpdated(t).readTs == t.readTs && StatUpdated(t).writeTs == t.writeTs
  {
  }

  /** The event of a slot outlives its content. */
  lemma ClearedKeepsEvents(jb: Jb, i: nat)
    requires i < |jb.frames| && (jb.e.update.Slot? ==> jb.e.update.index < |jb.frames|)
    ensures Known(jb.(frames := jb.frames[i := Cleared(jb.frames[i])])) == Known(jb)
  {
  }

  // ----- writing audio -----

  lemma NextPosition(c: Config, w: u32)
    requires c.Valid() && w + c.frameTs < MOD32
    ensures Add(w, c.frameTs) == w + c.frameTs && Index(c, Add(w, c.frameTs)) == Index(c, w) + 1
  {
    AddExact(w, c.frameTs);
    Multiples.Multiple(1, c.frameTs);
    Multiples.Sum(c.frameTs, w, c.frameTs);
  }

  function AudioStored(f: Frame, data: Octets): Frame { f.(hasAudio := true, data := data) }

  lemma {:induction false} StoreRelated(c: Config, frames: seq<Frame>, content: map<nat, MediaFrame>, r: nat,
                                        w: u32, room: nat, payload: Octets)
    requires c.Valid() && |frames| == c.frameCount && Live(frames, content, r)
    requires r <= Index(c, w) && Index(c, w) + room <= r + c.frameCount && w + c.frameTs * room < MOD32
    ensures var (fs, w') := StoreAudio(c, frames, w, room, payload);
            var (m, v) := PlanAudio(c, content, w, room, payload);
            && v == w' >= w && Live(fs, m, r)
            && (forall k | k in m :: k in content || c.frameTs * k < w')
            && (forall i | 0 <= i < c.frameCount :: fs[i].event == frames[i].event)
    decreases room
  {
    if room > 0 && Dissectable(c, payload) {
      var k, data := Index(c, w), payload[..c.frameSize];
      var f := AudioStored(frames[SlotOf(c, w)], data);
      PutLive(frames, content, r, k, f);
      assert Content(f) == Lookup(content, k).(audio := Some(data));
      RoomLeft(c, w, room);
      NextPosition(c, w);
      StoreRelated(c, frames[SlotOf(c, w) := f], content[k := Content(f)], r, w + c.frameTs, room - 1,
                   payload[c.frameSize..]);
      IndexTimes(c, w);
    }
  }

  lemma RoomLeft(c: Config, w: nat, room: nat)
    requires c.Valid() && room > 0
    ensures w + c.frameTs * room == w + c.frameTs + c.frameTs * (room - 1) >= w + c.frameTs
  {
  }

  /** Inside the window the frames available are those up to its end. */
  lemma WindowRoom(c: Config, t: Timing, w: u32, span: nat)
    requires Roomy(c, span) && Clear(c, t.readTs) && Aligned(c, t) && t.readTs <= w && Ahead(c, t, w) <= c.frameCount
    requires c.frameTs * c.frameCount <= c.maxDelayTs
    ensures var room := c.frameCount - Ahead(c, t, w);
            && Available(c, t, w) == room && Index(c, t.readTs) <= Index(c, w)
            && Index(c, w) + room == Index(c, t.readTs) + c.frameCount && w + c.frameTs * room < MOD32
  {
    SubExact(w, t.readTs);
    var q := Ahead(c, t, w);
    Multiples.Sum(t.readTs, w - t.readTs, c.frameTs);
    IndexTimes(c, w - t.readTs);
    assert c.frameTs * (c.frameCount - q) == c.frameTs * c.frameCount - c.frameTs * q;
  }

  predicate InWindow(c: Config, t: Timing, op: Op)
    requires c.Valid()
  {
    match op
    case Audio(_, ts, marker) =>
      var (t', place) := PlaceAudio(c, t, ts, marker);
      place.Placed? ==> Ahead(c, t', place.writeTs) <= c.frameCount
    case EventPacket(_, _, _) => true
    case ReadFrame => true
    case Restart => true
  }

  lemma AudioAtRelated(c: Config, jb: Jb, p: Plan, unbroken: bool, place: Placement, payload: Octets, span: nat)
    requires jb.Valid(c) && Roomy(c, span) && Clear(c, jb.t.readTs) && Aligned(c, jb.t) && Related(c, jb, p, unbroken)
    requires c.frameTs * c.frameCount <= c.maxDelayTs
    requires place.Placed? ==> jb.t.readTs <= place.writeTs && Ahead(c, jb.t, place.writeTs) <= c.frameCount
    ensures AudioPut(c, jb, place, payload).1 == PlanAudioAt(c, p, place, payload).1
    ensures Related(c, AudioPut(c, jb, place, payload).0, PlanAudioAt(c, p, place, payload).0, unbroken)
  {
    if place.Placed? {
      var w := place.writeTs;
      WindowRoom(c, jb.t, w, span);
      StoreRelated(c, jb.frames, p.content, Index(c, jb.t.readTs), w, c.frameCount - Ahead(c, jb.t, w), payload);
    }
  }

  lemma AudioRelated(c: Config, jb: Jb, p: Plan, unbroken: bool, payload: Octets, ts: u32, marker: bool, span: nat)
    requires jb.Valid(c) && Roomy(c, span) && Fits(c, jb.t, span) && Sound(c, jb.t, span) && Aligned(c, jb.t)
    requires c.frameTs * c.frameCount <= c.maxDelayTs && Related(c, jb, p, unbroken)
    requires InWindow(c, jb.t, Audio(payload, ts, marker))
    ensures Written(c, jb, payload, ts, marker).1 == PlanWritten(c, p, payload, ts, marker).1
    ensures Related(c, Written(c, jb, payload, ts, marker).0, PlanWritten(c, p, payload, ts, marker).0, unbroken)
  {
    AudioSound(c, jb.t, ts, marker, span);
    PlaceKeepsPositions(c, jb.t, ts, marker);
    var (t, place) := PlaceAudio(c, jb.t, ts, marker);
    AudioAtRelated(c, jb.(t := t), p.(t := t), unbroken, place, payload, span);
  }

  lemma PlaceKeepsPositions(c: Config, t: Timing, ts: u32, marker: bool)
    requires c.Valid()
    ensures var p := PlaceAudio(c, t, ts, marker).0; p.readTs == t.readTs && p.writeTs == t.writeTs
  {
  }

  // ----- writing events -----

  /** A position in the window stays clear of the end of the number range. */
  lemma WindowNext(c: Config, t: Timing, w: u32, span: nat)
    requires Roomy(c, span) && Clear(c, t.readTs) && Aligned(c, t) && t.readTs <= w && Ahead(c, t, w) < c.frameCount
    requires c.frameTs * c.frameCount <= c.maxDelayTs
    ensures Index(c, t.readTs) <= Index(c, w) < Index(c, t.readTs) + c.frameCount && Add(w, c.frameTs) == w + c.frameTs
  {
    WindowRoom(c, t, w, span);
    RoomLeft(c, w, c.frameCount - Ahead(c, t, w));
    AddExact(w, c.frameTs);
  }

  lemma PlacedInWindow(c: Config, t: Timing, at: u32)
    requires c.Valid()
    ensures var (t', w, result) := PlaceEvent(c, t, at);
            && t'.readTs == t.readTs && t'.writeTs == t.writeTs
            && (result == Ok ==> t.readTs <= w && Ahead(c, t', w) < c.frameCount)
  {
    var w := PlaceEvent(c, t, at).1;
    SubExact(w, t.readTs);
    Multiples.Multiple(0, c.frameTs);
  }

  lemma EventPutRelated(c: Config, jb: Jb, p: Plan, unbroken: bool, w: u32, event: Event, start: bool, span: nat)
    requires jb.Valid(c) && Roomy(c, span) && Clear(c, jb.t.readTs) && Aligned(c, jb.t) && Related(c, jb, p, unbroken)
    requires c.frameTs * c.frameCount <= c.maxDelayTs && jb.e.base.id == event.id
    requires jb.t.readTs <= w && Ahead(c, jb.t, w) < c.frameCount
    ensures Related(c, EventPut(c, jb, w, event, start), PlanPut(c, p, w, event, start), unbroken)
  {
    WindowNext(c, jb.t, w, span);
    var k := Index(c, w);
    var f := EventStored(jb.frames[SlotOf(c, w)], event, start);
    PutLive(jb.frames, p.content, Index(c, jb.t.readTs), k, f);
    var before := Lookup(p.content, k);
    var marker := if start then StartOfEvent else if event.edge then EndOfEvent else before.marker;
    assert Content(f) == before.(event := Some(event), marker := marker);
    IndexTimes(c, w);
  }

  ghost predicate OutcomesRelated(c: Config, r: (Jb, JbResult), r': (Plan, JbResult), unbroken: bool)
    requires r.0.Valid(c)
  {
    r.1 == r'.1 && Related(c, r.0, r'.0, unbroken)
  }

  lemma EventAtRelated(c: Config, jb: Jb, p: Plan, unbroken: bool, at: u32, event: Event, start: bool, span: nat)
    requires jb.Valid(c) && Roomy(c, span) && Clear(c, jb.t.readTs) && Aligned(c, jb.t) && Related(c, jb, p, unbroken)
    requires c.frameTs * c.frameCount <= c.maxDelayTs && jb.e.base.id == event.id
    ensures OutcomesRelated(c, EventPlaced(c, jb, at, event, start), PlanEventAt(c, p, at, event, start), unbroken)
  {
    PlacedInWindow(c, jb.t, at);
    var (t, w, result) := PlaceEvent(c, jb.t, at);
    if result == Ok {
      EventPutRelated(c, jb.(t := t), p.(t := t), unbroken, w, event, start, span);
    }
  }

  /** The packet is taken for the same kind of news, by reference and by value. */
  lemma SeenRelated(c: Config, jb: Jb, p: Plan, unbroken: bool, event: Event, w: u32, marker: bool)
    requires jb.Valid(c) && Related(c, jb, p, unbroken)
    ensures var start := NewEvent(c, p, event, w, marker);
            var seen := jb.(e := EventSeen(c, jb, event, w, marker));
            && StartsEvent(c, jb, event, w, marker) == start
            && seen.e.base.id == event.id
            && Related(c, seen, if start || p.baseTs != w then p.(baseTs := w, known := Some(event)) else p, unbroken)
  {
  }

  lemma PreparedReader(c: Config, t: Timing, ts: u32)
    requires c.Valid()
    ensures Prepared(c, t, ts).0.readTs == t.readTs
  {
  }

  lemma StartRelated(c: Config, seen: Jb, p: Plan, unbroken: bool, w: u32, event: Event, span: nat)
    requires seen.Valid(c) && Roomy(c, span) && Clear(c, seen.t.readTs) && Aligned(c, seen.t)
    requires c.frameTs * c.frameCount <= c.maxDelayTs && seen.e.base.id == event.id && Related(c, seen, p, unbroken)
    ensures OutcomesRelated(c, EventPlaced(c, seen, w, event, true), PlanEventAt(c, p, w, event, true), unbroken)
  {
    EventAtRelated(c, seen, p, unbroken, w, event, true, span);
  }

  /** What an update refers to in the buffer is what the plan knows. */
  lemma UpdateRelated(c: Config, seen: Jb, p: Plan, unbroken: bool, w: u32, event: Event, span: nat)
    requires seen.Valid(c) && Roomy(c, span) && Clear(c, seen.t.readTs) && Aligned(c, seen.t)
    requires c.frameTs * c.frameCount <= c.maxDelayTs && seen.e.base.id == event.id && Related(c, seen, p, unbroken)
    requires p.known.Some?
    ensures Updated(seen) == p.known.value
    ensures !OldNews(p.known.value, event) ==>
              var at := Add(w, p.known.value.duration);
              OutcomesRelated(c, EventPlaced(c, seen, at, event, false), PlanEventAt(c, p, at, event, false), unbroken)
  {
    EventAtRelated(c, seen, p, unbroken, Add(w, p.known.value.duration), event, false, span);
  }

  lemma NewEventRelated(c: Config, jb: Jb, p: Plan, unbroken: bool, event: Event, ts: u32, marker: bool, span: nat)
    requires jb.Valid(c) && Roomy(c, span) && Clear(c, jb.t.readTs) && Aligned(c, jb.t) && Related(c, jb, p, unbroken)
    requires c.frameTs * c.frameCount <= c.maxDelayTs && NewEvent(c, p, event, Prepared(c, p.t, ts).1, marker)
    ensures OutcomesRelated(c, EventWritten(c, jb, event, ts, marker), PlanEvent(c, p, event, ts, marker), unbroken)
  {
    var (t, w) := Prepared(c, jb.t, ts);
    SeenRelated(c, jb.(t := t), p.(t := t), unbroken, event, w, marker);
    PreparedReader(c, jb.t, ts);
    var seen := jb.(t := t, e := EventSeen(c, jb, event, w, marker));
    StartRelated(c, seen, p.(t := t, baseTs := w, known := Some(event)), unbroken, w, event, span);
  }

  lemma SegmentRelated(c: Config, jb: Jb, p: Plan, unbroken: bool, event: Event, ts: u32, marker: bool)
    requires jb.Valid(c) && Related(c, jb, p, unbroken)
    requires var w := Prepared(c, p.t, ts).1; p.baseTs != w && !NewEvent(c, p, event, w, marker)
    ensures OutcomesRelated(c, EventWritten(c, jb, event, ts, marker), PlanEvent(c, p, event, ts, marker), unbroken)
  {
    var (t, w) := Prepared(c, jb.t, ts);
    SeenRelated(c, jb.(t := t), p.(t := t), unbroken, event, w, marker);
    PreparedReader(c, jb.t, ts);
  }

  lemma KnownEventRelated(c: Config, jb: Jb, p: Plan, unbroken: bool, event: Event, ts: u32, marker: bool, span: nat)
    requires jb.Valid(c) && Roomy(c, span) && Clear(c, jb.t.readTs) && Aligned(c, jb.t) && Related(c, jb, p, unbroken)
    requires c.frameTs * c.frameCount <= c.maxDelayTs
    requires var w := Prepared(c, p.t, ts).1; p.baseTs == w && !NewEvent(c, p, event, w, marker)
    ensures OutcomesRelated(c, EventWritten(c, jb, event, ts, marker), PlanEvent(c, p, event, ts, marker), unbroken)
  {
    var (t, w) := Prepared(c, jb.t, ts);
    SeenRelated(c, jb.(t := t), p.(t := t), unbroken, event, w, marker);
    PreparedReader(c, jb.t, ts);
    UpdateRelated(c, jb.(t := t), p.(t := t), unbroken, w, event, span);
  }

  lemma EventRelated(c: Config, jb: Jb, p: Plan, unbroken: bool, event: Event, ts: u32, marker: bool, span: nat)
    requires jb.Valid(c) && Roomy(c, span) && Clear(c, jb.t.readTs) && Aligned(c, jb.t) && Related(c, jb, p, unbroken)
    requires c.frameTs * c.frameCount <= c.maxDelayTs
    ensures OutcomesRelated(c, EventWritten(c, jb, event, ts, marker), PlanEvent(c, p, event, ts, marker), unbroken)
  {
    var w := Prepared(c, p.t, ts).1;
    if NewEvent(c, p, event, w, marker) {
      NewEventRelated(c, jb, p, unbroken, event, ts, marker, span);
    } else if p.baseTs != w {
      SegmentRelated(c, jb, p, unbroken, event, ts, marker);
    } else {
      KnownEventRelated(c, jb, p, unbroken, event, ts, marker, span);
    }
  }

  // ----- whole runs -----

  lemma RestartRelated(c: Config, jb: Jb, p: Plan, unbroken: bool)
    requires jb.Valid(c) && Related(c, jb, p, unbroken)
    ensures Related(c, Restarted(c, jb), PlanRestart(c, p), false)
  {
  }

  lemma StepRelated(c: Config, jb: Jb, p: Plan, unbroken: bool, op: Op, span: nat)
    requires jb.Valid(c) && Roomy(c, span) && Fits(c, jb.t, span) && Sound(c, jb.t, span) && Aligned(c, jb.t)
    requires c.frameTs * c.frameCount <= c.maxDelayTs && Related(c, jb, p, unbroken) && InWindow(c, jb.t, op)
    ensures Step(c, jb, op).1 == PlanStep(c, p, op).1 && (unbroken ==> PlanStep(c, p, op) == MapStep(c, p, op))
    ensures Related(c, Step(c, jb, op).0, PlanStep(c, p, op).0, unbroken && op != Restart)
  {
    match op
    case Audio(payload, ts, marker) => AudioRelated(c, jb, p, unbroken, payload, ts, marker, span);
    case EventPacket(event, ts, marker) => EventRelated(c, jb, p, unbroken, event, ts, marker, span);
    case ReadFrame => ReadRelated(c, jb, p, unbroken, span);
    case Restart => RestartRelated(c, jb, p, unbroken);
  }

  /** Every state on the way fits, and no write goes past the window. */
  predicate RunInWindow(c: Config, jb: Jb, ops: seq<Op>, span: nat)
    requires jb.Valid(c)
    decreases |ops|
  {
    && Fits(c, jb.t, span)
    && (ops == [] || (InWindow(c, jb.t, ops[0]) && RunInWindow(c, Step(c, jb, ops[0]).0, ops[1..], span)))
  }

  lemma {:induction false} RunRelated(c: Config, jb: Jb, p: Plan, unbroken: bool, ops: seq<Op>, span: nat)
    requires jb.Valid(c) && Roomy(c, span) && Sound(c, jb.t, span) && Aligned(c, jb.t)
    requires c.frameTs * c.frameCount <= c.maxDelayTs && Related(c, jb, p, unbroken) && RunInWindow(c, jb, ops, span)
    ensures Run(c, jb, ops).1 == PlanRun(c, p, ops)
    ensures unbroken && Restart !in ops ==> Run(c, jb, ops).1 == MapRun(c, p, ops)
    decreases |ops|
  {
    if ops != [] {
      StepRelated(c, jb, p, unbroken, ops[0], span);
      StepSound(c, jb, ops[0], span);
      RunRelated(c, Step(c, jb, ops[0]).0, PlanStep(c, p, ops[0]).0, unbroken && ops[0] != Restart, ops[1..], span);
    }
  }

  lemma CreatedRelated(c: Config, jb: Jb)
    requires IsCreated(c, jb)
    ensures Related(c, jb, NewPlan(c), true) && Aligned(c, jb.t)
  {
    Multiples.Multiple(0, c.frameTs);
    forall k | 0 <= k < c.frameCount ensures Content(jb.frames[k % c.frameCount]) == NOTHING {
    }
  }

  /** The ring refines the map, restarts included: over any run inside the window every
      write is answered alike, and a read returns what was last stored for its index,
      before a restart or after, if the writer is ahead of the reader. */
  lemma RingRefinesPlan(c: Config, jb: Jb, ops: seq<Op>, span: nat)
    requires IsCreated(c, jb) && Roomy(c, span) && c.frameTs * c.frameCount <= c.maxDelayTs
    requires RunInWindow(c, jb, ops, span)
    ensures Run(c, jb, ops).1 == PlanRun(c, NewPlan(c), ops)
  {
    CreatedRelated(c, jb);
    RunRelated(c, jb, NewPlan(c), true, ops, span);
  }

  /** Without restarts a read returns exactly what is stored for its index, or nothing
      if nothing is: an underflow hides no frame. */
  lemma RingRefinesMap(c: Config, jb: Jb, ops: seq<Op>, span: nat)
    requires IsCreated(c, jb) && Roomy(c, span) && c.frameTs * c.frameCount <= c.maxDelayTs
    requires RunInWindow(c, jb, ops, span) && Restart !in ops
    ensures Run(c, jb, ops).1 == MapRun(c, NewPlan(c), ops)
  {
    CreatedRelated(c, jb);
    RunRelated(c, jb, NewPlan(c), true, ops, span);
  }
}
