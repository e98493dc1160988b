/** Where the ring of the jitter buffer does not behave like a map that a restart
    empties: positions past its window, and frames left unread at a restart. */
module PlayoutLimits {
  import opened Machine
  import opened Options
  import opened JitterBuffer
  import opened JitterRuns
  import opened LatePlacement
  import opened Playout
  import Multiples

  // ----- past the window -----

  lemma QuotientBelow(c: Config, x: u32)
    requires c.Valid()
    ensures 0 <= Index(c, x) <= x
  {
  }

  lemma AvailableIs(c: Config, t: Timing, w: u32)
    requires c.Valid()
    ensures Available(c, t, w) == 0 <==> Ahead(c, t, w) == c.frameCount
  {
    QuotientBelow(c, Sub(w, t.readTs));
  }

  /** A placed packet is refused as too early only when the ring is exactly full:
      what lies beyond passes, so the check is right if and only if the position
      is inside the window. */
  lemma TooEarlyIff(c: Config, jb: Jb, payload: Octets, ts: u32, marker: bool)
    requires jb.Valid(c)
    requires PlaceAudio(c, jb.t, ts, marker).1.Placed?
    ensures var (t, place) := PlaceAudio(c, jb.t, ts, marker);
            var ahead, result := Ahead(c, t, place.writeTs), Written(c, jb, payload, ts, marker).1;
            && (result == DiscardTooEarly <==> ahead == c.frameCount)
            && ((result == DiscardTooEarly <==> ahead >= c.frameCount) <==> ahead <= c.frameCount)
  {
    var (t, place) := PlaceAudio(c, jb.t, ts, marker);
    AvailableIs(c, t, place.writeTs);
  }

  /** Stores the single frame of a payload. */
  lemma OneFrame(c: Config, frames: seq<Frame>, w: u32, room: nat, payload: Octets)
    requires c.Valid() && |frames| == c.frameCount && 0 < c.frameSize <= |payload| < 2 * c.frameSize && room >= 1
    ensures var i := SlotOf(c, w);
            StoreAudio(c, frames, w, room, payload)
            == (frames[i := AudioStored(frames[i], payload[..c.frameSize])], Add(w, c.frameTs))
  {
  }

  /** The index of the window that a slot stands for. */
  lemma LiveIndex(r: nat, i: nat, n: nat) returns (k: nat)
    requires i < n
    ensures r <= k < r + n && k % n == i
  {
    var q := r / n;
    assert r == n * q + r % n;
    k := if i >= r % n then n * q + i else n * q + n + i;
    Multiples.Next(q, n);
    Multiples.Quotient(k, if i >= r % n then q else q + 1, i, n);
  }

  /** Whatever the buffer, a packet of one frame past its window is accepted, and its
      frame replaces that of an index that is waiting to be read. */
  lemma PastWindowOverwrites(c: Config, jb: Jb, payload: Octets, ts: u32, marker: bool) returns (k: nat)
    requires jb.Valid(c) && Aligned(c, jb.t) && 0 < c.frameSize <= |payload| < 2 * c.frameSize
    requires var (t, place) := PlaceAudio(c, jb.t, ts, marker);
             place.Placed? && t.readTs <= place.writeTs && Ahead(c, t, place.writeTs) > c.frameCount
    ensures var r, w := Index(c, jb.t.readTs), PlaceAudio(c, jb.t, ts, marker).1.writeTs;
            && r <= k < r + c.frameCount && k != Index(c, w)
            && Written(c, jb, payload, ts, marker).1 == Ok
            && Content(Written(c, jb, payload, ts, marker).0.frames[k % c.frameCount])
               == Content(jb.frames[k % c.frameCount]).(audio := Some(payload[..c.frameSize]))
  {
    var (t, place) := PlaceAudio(c, jb.t, ts, marker);
    var w := place.writeTs;
    PlaceKeepsPositions(c, jb.t, ts, marker);
    AvailableIs(c, t, w);
    OneFrame(c, jb.frames, w, Available(c, t, w), payload);
    k := LiveIndex(Index(c, jb.t.readTs), SlotOf(c, w), c.frameCount);
    SubExact(w, t.readTs);
    Multiples.Sum(t.readTs, w - t.readTs, c.frameTs);
  }

  // ----- unread frames at a restart -----

  /** No frame is waiting in the window. */
  predicate AllRead(jb: Jb) { forall i | 0 <= i < |jb.frames| :: Content(jb.frames[i]) == NOTHING }

  /** What a restart would leave of the plan if it emptied the buffer. */
  function EmptyPlan(c: Config, jb: Jb): Plan { Plan(Restarted(c, jb).t, 0, None, map[]) }

  /** Every continuation inside the window is answered as if the restart emptied the buffer. */
  ghost predicate RestartClean(c: Config, jb: Jb, span: nat)
    requires jb.Valid(c)
  {
    var r := Restarted(c, jb);
    forall ops | RunInWindow(c, r, ops, span) :: Run(c, r, ops).1 == PlanRun(c, EmptyPlan(c, jb), ops)
  }

  lemma RestartedSound(c: Config, jb: Jb, span: nat)
    requires jb.Valid(c) && Roomy(c, span) && Sound(c, jb.t, span) && Aligned(c, jb.t) && Clear(c, jb.t.readTs)
    ensures var t := Restarted(c, jb).t; Sound(c, t, span) && Aligned(c, t) && Fits(c, t, span)
  {
  }

  lemma AllReadIsClean(c: Config, jb: Jb, span: nat)
    requires jb.Valid(c) && Roomy(c, span) && Sound(c, jb.t, span) && Aligned(c, jb.t) && Clear(c, jb.t.readTs)
    requires c.frameTs * c.frameCount <= c.maxDelayTs && AllRead(jb)
    ensures RestartClean(c, jb, span)
  {
    var r := Restarted(c, jb);
    RestartedSound(c, jb, span);
    assert Related(c, r, EmptyPlan(c, jb), true);
    forall ops | RunInWindow(c, r, ops, span) ensures Run(c, r, ops).1 == PlanRun(c, EmptyPlan(c, jb), ops) {
      RunRelated(c, r, EmptyPlan(c, jb), true, ops, span);
    }
  }

  /** A frame of silence, and an event, that meet what is unread. */
  function Silence(c: Config): Octets { seq(c.frameSize, _ => 0) }
  const PROBE := Event(0, 0, false, false, 0)

  /** A state in which the buffer waits to synchronise, the reader not before the writer. */
  predicate Waits(c: Config, t: Timing, span: nat)
    requires c.Valid()
  {
    && t.writeSync && t.writeTs <= t.readTs <= t.writeTs + c.maxDelayTs && t.readTs + 4 * c.maxDelayTs < MOD32
    && Sound(c, t, span) && Aligned(c, t)
  }

  /** The ring has a slot for each whole frame of the maximum delay. */
  predicate Whole(c: Config, span: nat)
  {
    && Roomy(c, span) && c.maxDelayTs <= span && c.frameSize > 0
    && c.frameTs * c.frameCount <= c.maxDelayTs < c.frameTs * c.frameCount + c.frameTs
  }

  /** A buffer created with delays that do not wrap has such a ring. */
  lemma ConfiguredWhole(initialMs: nat, maxMs: nat, adaptive: bool, skewDetection: bool, frameTs: u32, frameSize: nat)
    requires frameTs > 0 && frameTs * CompletedMax(initialMs, maxMs) < MOD32
    ensures var c := CreateConfig(initialMs, maxMs, adaptive, skewDetection, frameTs, frameSize);
            c.frameTs * c.frameCount <= c.maxDelayTs < c.frameTs * c.frameCount + c.frameTs
  {
    var max := CompletedMax(initialMs, maxMs);
    WrapExact(frameTs * max);
    assert max == 10 * (max / 10) + max % 10;
    Multiples.Monotone(0, max % 10, frameTs);
    Multiples.Monotone(max % 10, 9, frameTs);
    assert frameTs * max == 10 * (frameTs * (max / 10)) + frameTs * (max % 10);
  }

  lemma FrameBelowMax(c: Config, span: nat)
    requires Whole(c, span)
    ensures c.frameTs <= c.maxDelayTs
  {
    Multiples.Monotone(1, c.frameCount, c.frameTs);
  }

  /** The timing once the first packet, of no payload, has set the offset. */
  function Synchronised(c: Config, t: Timing): Timing
    requires c.Valid()
  {
    var (t', w) := Prepared(c, t, 0);
    if Ahead(c, t', w) < c.frameCount && w > t'.writeTs then t'.(writeTs := w) else t'
  }

  lemma FirstPosition(c: Config, t: Timing, span: nat)
    requires Whole(c, span) && Waits(c, t, span)
    ensures var (t', w) := Prepared(c, t, 0);
            && t'.readTs == t.readTs && t'.writeTs == t.writeTs && !t'.writeSync && t'.offset == Sub(0, t.readTs)
            && t'.delay == t.delay && t.readTs <= w <= t.readTs + c.maxDelayTs && Ahead(c, t', w) <= c.frameCount
  {
    var (t', w) := Prepared(c, t, 0);
    SubExact(0, t.readTs);
    SubExact(0, t'.offset);
    AddExact(Sub(0, t'.offset), t.delay);
    AlignedDown(t.readTs + t.delay, c.frameTs);
    AlignDownKeepsBound(t.readTs + t.delay, t.readTs, c.frameTs);
    SubExact(w, t.readTs);
    Multiples.DivMonotone(w - t.readTs, c.maxDelayTs, c.frameTs);
    Multiples.Quotient(c.maxDelayTs, c.frameCount, c.maxDelayTs - c.frameTs * c.frameCount, c.frameTs);
  }

  /** The packet of no payload changes the timing alone. */
  lemma SynchronisedStep(c: Config, p: Plan, span: nat)
    requires Whole(c, span) && Waits(c, p.t, span)
    ensures PlanStep(c, p, Audio([], 0, false)).0 == p.(t := Synchronised(c, p.t))
    ensures InWindow(c, p.t, Audio([], 0, false))
  {
    FirstPosition(c, p.t, span);
    var (t, w) := Prepared(c, p.t, 0);
    assert PlaceAudio(c, p.t, 0, false) == (t, Placed(w));
    if Ahead(c, t, w) < c.frameCount {
      assert PlanAudio(c, p.content, w, c.frameCount - Ahead(c, t, w), []) == (p.content, w);
    }
  }

  /** A sender timestamp that leads back to the reader. */
  function Back(t: Timing): u32 { Sub(0, t.delay) }

  lemma BackAtReader(c: Config, t: Timing, span: nat)
    requires Whole(c, span) && Waits(c, t, span)
    ensures var t1 := Synchronised(c, t);
            && Prepared(c, t1, Back(t1)) == (t1, t.readTs) && t1.readTs == t.readTs && Ahead(c, t1, t.readTs) == 0
            && t.writeTs <= t1.writeTs <= t.readTs + c.maxDelayTs
  {
    FirstPosition(c, t, span);
    var t1 := Synchronised(c, t);
    SubExact(0, t1.delay);
    SubExact(0, t1.readTs);
    SubExact(Back(t1), t1.offset);
    AddExact(Sub(Back(t1), t1.offset), t1.delay);
    assert AlignDown(t.readTs, c.frameTs) == t.readTs;
    SubExact(t.readTs, t.readTs);
    Multiples.Quotient(0, 0, 0, c.frameTs);
  }

  function Probe(c: Config, t: Timing, event: bool): Op
  {
    if event then EventPacket(PROBE, Back(t), true) else Audio(Silence(c), Back(t), false)
  }

  /** What the probe adds to the frame at the reader. */
  function Probed(c: Config, f: MediaFrame, event: bool): MediaFrame
  {
    if event then f.(event := Some(PROBE), marker := StartOfEvent) else f.(audio := Some(Silence(c)))
  }

  /** The probe is stored at the reader, and the writer is then ahead. */
  lemma ProbeStep(c: Config, p: Plan, event: bool, span: nat)
    requires Whole(c, span) && Waits(c, p.t, span)
    ensures var k, t1 := Index(c, p.t.readTs), Synchronised(c, p.t);
            var q := PlanStep(c, p.(t := t1), Probe(c, t1, event)).0;
            && InWindow(c, t1, Probe(c, t1, event))
            && q.content == p.content[k := Probed(c, Lookup(p.content, k), event)]
            && q.t.readTs == p.t.readTs < q.t.writeTs <= p.t.readTs + c.maxDelayTs
  {
    var k, t1 := Index(c, p.t.readTs), Synchronised(c, p.t);
    BackAtReader(c, p.t, span);
    FrameBelowMax(c, span);
    AddExact(p.t.readTs, c.frameTs);
    if !event {
      assert PlaceAudio(c, t1, Back(t1), false) == (t1, Placed(p.t.readTs));
      ProbeStored(c, p.content, p.t.readTs);
    }
  }

  lemma ProbeStored(c: Config, content: map<nat, MediaFrame>, w: u32)
    requires c.Valid() && c.frameSize > 0
    ensures PlanAudio(c, content, w, c.frameCount, Silence(c))
         == (content[Index(c, w) := Lookup(content, Index(c, w)).(audio := Some(Silence(c)))], Add(w, c.frameTs))
  {
    assert Silence(c)[..c.frameSize] == Silence(c) && Silence(c)[c.frameSize..] == [];
  }

  function Emptied(p: Plan): Plan { p.(content := map[]) }

  /** The operations that make the buffer play what is unread at the reader. */
  function Discovery(c: Config, t: Timing, event: bool): seq<Op>
    requires c.Valid()
  {
    [Audio([], 0, false)] + ([Probe(c, Synchronised(c, t), event)] + ([ReadFrame] + []))
  }

  /** Runs that differ in the first step, or after it, differ. */
  lemma PlanRunDiffers(c: Config, p: Plan, p': Plan, op: Op, ops: seq<Op>)
    requires c.Valid()
    requires var ((q, o), (q', o')) := (PlanStep(c, p, op), PlanStep(c, p', op));
             o != o' || PlanRun(c, q, ops) != PlanRun(c, q', ops)
    ensures PlanRun(c, p, [op] + ops) != PlanRun(c, p', [op] + ops)
  {
    assert ([op] + ops)[1..] == ops;
    var ((q, o), (q', o')) := (PlanStep(c, p, op), PlanStep(c, p', op));
    FirstDiffers(o, PlanRun(c, q, ops), o', PlanRun(c, q', ops));
  }

  lemma FirstDiffers(o: Outcome, os: seq<Outcome>, o': Outcome, os': seq<Outcome>)
    requires o != o' || os != os'
    ensures [o] + os != [o'] + os'
  {
    assert ([o] + os)[0] == o && ([o] + os)[1..] == os;
    assert ([o'] + os')[0] == o' && ([o'] + os')[1..] == os';
  }

  lemma RunInWindowFirst(c: Config, jb: Jb, op: Op, ops: seq<Op>, span: nat)
    requires jb.Valid(c) && Fits(c, jb.t, span) && InWindow(c, jb.t, op)
    requires RunInWindow(c, Step(c, jb, op).0, ops, span)
    ensures RunInWindow(c, jb, [op] + ops, span)
  {
    assert ([op] + ops)[1..] == ops;
  }

  lemma Discovers(c: Config, p: Plan, event: bool, span: nat)
    requires Whole(c, span) && Waits(c, p.t, span)
    requires var f := Lookup(p.content, Index(c, p.t.readTs)); Probed(c, f, event) != Probed(c, NOTHING, event)
    ensures PlanRun(c, p, Discovery(c, p.t, event)) != PlanRun(c, Emptied(p), Discovery(c, p.t, event))
  {
    var t1 := Synchronised(c, p.t);
    var a, b := Audio([], 0, false), Probe(c, t1, event);
    SynchronisedStep(c, p, span);
    SynchronisedStep(c, Emptied(p), span);
    var p1, p1' := p.(t := t1), Emptied(p).(t := t1);
    ProbeStep(c, p, event, span);
    ProbeStep(c, Emptied(p), event, span);
    var p2, p2' := PlanStep(c, p1, b).0, PlanStep(c, p1', b).0;
    PlanRunDiffers(c, p2, p2', ReadFrame, []);
    PlanRunDiffers(c, p1, p1', b, [ReadFrame] + []);
    PlanRunDiffers(c, p, Emptied(p), a, [b] + ([ReadFrame] + []));
  }

  /** The operations stay inside the window. */
  lemma DiscoveryFits(c: Config, jb: Jb, p: Plan, event: bool, span: nat)
    requires jb.Valid(c) && Whole(c, span) && Waits(c, jb.t, span) && Related(c, jb, p, false)
    ensures RunInWindow(c, jb, Discovery(c, jb.t, event), span)
  {
    var t1 := Synchronised(c, p.t);
    var a, b := Audio([], 0, false), Probe(c, t1, event);
    FrameBelowMax(c, span);
    SynchronisedStep(c, p, span);
    BackAtReader(c, p.t, span);
    StepRelated(c, jb, p, false, a, span);
    var jb1, p1 := Step(c, jb, a).0, PlanStep(c, p, a).0;
    StepSound(c, jb, a, span);
    ProbeStep(c, p, event, span);
    StepRelated(c, jb1, p1, false, b, span);
    var jb2, p2 := Step(c, jb1, b).0, PlanStep(c, p1, b).0;
    NextIndex(c, jb2.t.readTs, span);
    var t := jb2.t.(readTs := Add(jb2.t.readTs, c.frameTs));
    StatKeepsPositions(t);
    RunInWindowFirst(c, jb2, ReadFrame, [], span);
    RunInWindowFirst(c, jb1, b, [ReadFrame] + [], span);
    RunInWindowFirst(c, jb, a, [b] + ([ReadFrame] + []), span);
  }

  /** The index `k` is in the window, and the writer stays near while the reader goes there. */
  predicate Reaches(c: Config, t: Timing, k: nat)
    requires c.Valid()
  {
    var r := Index(c, t.readTs);
    && r <= k < r + c.frameCount && t.readTs + 4 * c.maxDelayTs + c.frameTs * (k - r) < MOD32
    && t.readTs + c.frameTs * (k - r) <= t.writeTs + c.maxDelayTs
  }

  /** A read brings the reader one frame nearer. */
  lemma ReadReaches(c: Config, t: Timing, k: nat, span: nat)
    requires Whole(c, span) && Waits(c, t, span) && Reaches(c, t, k) && k > Index(c, t.readTs)
    ensures var t' := t.(readTs := Add(t.readTs, c.frameTs));
            && t'.readTs == t.readTs + c.frameTs && Index(c, t'.readTs) == Index(c, t.readTs) + 1
            && Reaches(c, t', k) && t'.readTs <= t.writeTs + c.maxDelayTs && t'.readTs + 4 * c.maxDelayTs < MOD32
            && t'.readTs % c.frameTs == 0
  {
    var r := Index(c, t.readTs);
    FrameBelowMax(c, span);
    Multiples.Next(k - r, c.frameTs);
    Multiples.Monotone(0, k - r - 1, c.frameTs);
    NextIndex(c, t.readTs, span);
    NextPosition(c, t.readTs);
    Multiples.Sum(t.readTs, c.frameTs, c.frameTs);
    Multiples.Multiple(1, c.frameTs);
  }

  lemma ReadWaits(c: Config, jb: Jb, p: Plan, k: nat, span: nat)
    requires jb.Valid(c) && Whole(c, span) && Waits(c, jb.t, span) && Related(c, jb, p, false)
    requires Reaches(c, jb.t, k) && k > Index(c, jb.t.readTs)
    ensures var jb', p' := Step(c, jb, ReadFrame).0, PlanRead(c, p).0;
            && Fits(c, jb.t, span) && Waits(c, jb'.t, span) && Reaches(c, jb'.t, k) && Related(c, jb', p', false)
  {
    ReadReaches(c, jb.t, k, span);
    StatKeepsPositions(jb.t.(readTs := Add(jb.t.readTs, c.frameTs)));
    FrameBelowMax(c, span);
    ReadRelated(c, jb, p, false, span);
    ReadSound(c, jb, span);
  }

  /** A frame left unread anywhere in the window is found: the reader goes there first. */
  lemma {:induction false} UnreadIsFound(c: Config, jb: Jb, p: Plan, k: nat, span: nat) returns (ops: seq<Op>)
    requires jb.Valid(c) && Whole(c, span) && Waits(c, jb.t, span) && Related(c, jb, p, false)
    requires Reaches(c, jb.t, k) && Lookup(p.content, k) != NOTHING
    ensures RunInWindow(c, jb, ops, span) && PlanRun(c, p, ops) != PlanRun(c, Emptied(p), ops)
    decreases k - Index(c, jb.t.readTs)
  {
    var r := Index(c, jb.t.readTs);
    if k == r {
      var event := Lookup(p.content, k).audio.Some?;
      ops := Discovery(c, jb.t, event);
      Discovers(c, p, event, span);
      DiscoveryFits(c, jb, p, event, span);
    } else {
      ReadReaches(c, jb.t, k, span);
      StatKeepsPositions(jb.t.(readTs := Add(jb.t.readTs, c.frameTs)));
      ReadWaits(c, jb, p, k, span);
      var later := UnreadIsFound(c, Step(c, jb, ReadFrame).0, PlanRead(c, p).0, k, span);
      ops := [ReadFrame] + later;
      EmptiedRead(c, p);
      PlanRunDiffers(c, p, Emptied(p), ReadFrame, later);
      RunInWindowFirst(c, jb, ReadFrame, later, span);
    }
  }

  lemma EmptiedRead(c: Config, p: Plan)
    requires c.Valid()
    ensures PlanRead(c, Emptied(p)).0 == Emptied(PlanRead(c, p).0)
  {
  }

  /** The content of the window by index. */
  function Window(c: Config, jb: Jb): map<nat, MediaFrame>
    requires jb.Valid(c)
  {
    var r := Index(c, jb.t.readTs);
    map k: nat | r <= k < r + c.frameCount :: Content(jb.frames[k % c.frameCount])
  }

  lemma RestartedRelated(c: Config, jb: Jb)
    requires jb.Valid(c)
    ensures Related(c, Restarted(c, jb), EmptyPlan(c, jb).(content := Window(c, jb)), false)
  {
  }

  lemma UnreadSlot(jb: Jb) returns (i: nat)
    requires !AllRead(jb)
    ensures i < |jb.frames| && Content(jb.frames[i]) != NOTHING
  {
    i :| i < |jb.frames| && Content(jb.frames[i]) != NOTHING;
  }

  lemma UnreadIsHeard(c: Config, jb: Jb, i: nat, span: nat)
    requires jb.Valid(c) && Whole(c, span) && Sound(c, jb.t, span) && Aligned(c, jb.t)
    requires jb.t.readTs + 5 * c.maxDelayTs < MOD32 && i < c.frameCount && Content(jb.frames[i]) != NOTHING
    ensures !RestartClean(c, jb, span)
  {
    var r, p := Restarted(c, jb), EmptyPlan(c, jb).(content := Window(c, jb));
    var k := LiveIndex(Index(c, jb.t.readTs), i, c.frameCount);
    FrameBelowMax(c, span);
    RestartedSound(c, jb, span);
    RestartedRelated(c, jb);
    Multiples.Monotone(0, k - Index(c, jb.t.readTs), c.frameTs);
    Multiples.Monotone(k - Index(c, jb.t.readTs), c.frameCount, c.frameTs);
    var ops := UnreadIsFound(c, r, p, k, span);
    RunRelated(c, r, p, false, ops, span);
    assert Emptied(p) == EmptyPlan(c, jb);
  }

  lemma RestartCleanAt(c: Config, jb: Jb, span: nat)
    requires jb.Valid(c) && Whole(c, span) && Sound(c, jb.t, span) && Aligned(c, jb.t)
    requires jb.t.readTs + 5 * c.maxDelayTs < MOD32
    ensures RestartClean(c, jb, span) <==> AllRead(jb)
  {
    FrameBelowMax(c, span);
    if AllRead(jb) {
      AllReadIsClean(c, jb, span);
    } else {
      var i := UnreadSlot(jb);
      UnreadIsHeard(c, jb, i, span);
    }
  }

  /** A restart after any run is harmless if and only if no frame of the window is
      unread: then every continuation is answered as if it had emptied the buffer, and
      otherwise some continuation plays what was left behind. */
  lemma RestartCleanIff(c: Config, jb: Jb, ops: seq<Op>, span: nat)
    requires IsCreated(c, jb) && Whole(c, span) && RunFits(c, jb, ops, span)
    requires Run(c, jb, ops).0.t.readTs + 5 * c.maxDelayTs < MOD32
    ensures RestartClean(c, Run(c, jb, ops).0, span) <==> AllRead(Run(c, jb, ops).0)
  {
    Multiples.Quotient(0, 0, 0, c.frameTs);
    RunSound(c, jb, ops, span);
    RestartCleanAt(c, Run(c, jb, ops).0, span);
  }

  // ----- both seen from a created buffer -----

  /** A run is taken apart one step at a time. */
  lemma RunFirst(c: Config, jb: Jb, op: Op, ops: seq<Op>, jb': Jb, o: Outcome)
    requires jb.Valid(c) && Step(c, jb, op) == (jb', o)
    ensures Run(c, jb, [op] + ops).1 == [o] + Run(c, jb', ops).1
  {
    assert ([op] + ops)[1..] == ops;
  }

  function Waiting(frames: seq<Frame>, i: nat, x: bv8): (r: seq<Frame>)
    requires i < |frames|
    ensures |r| == |frames|
  {
    frames[i := AudioStored(frames[i], [x])]
  }

  /** The state once a frame waits in slot `i` and the write position is at least `end`. */
  function Stored(jb: Jb, t: Timing, end: u32, i: nat, x: bv8): Jb
    requires i < |jb.frames|
  {
    Jb(if end > t.writeTs then t.(writeTs := end) else t, jb.e, Waiting(jb.frames, i, x))
  }

  /** A packet of one frame, without a marker, that is not late. */
  lemma OnTime(c: Config, jb: Jb, x: bv8, ts: u32, t: Timing, w: u32)
    requires jb.Valid(c) && c.frameSize == 1 && Prepared(c, jb.t, ts) == (t, w) && w >= t.readTs
    requires Ahead(c, t, w) != c.frameCount
    ensures Step(c, jb, Audio([x], ts, false)) == (Stored(jb, t, Add(w, c.frameTs), SlotOf(c, w), x), Accepted(Ok))
  {
    assert PlaceAudio(c, jb.t, ts, false) == (t, Placed(w));
    StoredInTime(c, jb.(t := t), x, w);
  }

  lemma StoredInTime(c: Config, jb: Jb, x: bv8, w: u32)
    requires jb.Valid(c) && c.frameSize == 1 && w >= jb.t.readTs && Ahead(c, jb.t, w) != c.frameCount
    ensures AudioPut(c, jb, Placed(w), [x]) == (Stored(jb, jb.t, Add(w, c.frameTs), SlotOf(c, w), x), Ok)
  {
    AvailableIs(c, jb.t, w);
    OneFrame(c, jb.frames, w, Available(c, jb.t, w), [x]);
    assert [x][..1] == [x];
  }

  function Heard(x: bv8): Outcome { Played(MediaFrame(Some([x]), None, NoMarker)) }

  const DELAYED := Config(80, 1, 2, false, false, 80, 160)
  const LEADING := Timing(80, false, 0, 0, 0, 0, 0, 0)

  lemma FirstDelayed(jb: Jb, x: bv8)
    requires jb.Valid(DELAYED) && jb.t == LEADING.(writeSync := true)
    ensures Step(DELAYED, jb, Audio([x], 0, false)) == (Stored(jb, LEADING, 160, 1, x), Accepted(Ok))
  {
    SubExact(0, 0);
    AddExact(0, 80);
    OnTime(DELAYED, jb, x, 0, LEADING, 80);
  }

  lemma SilentRead(jb: Jb, end: u32)
    requires jb.Valid(DELAYED) && jb.t == LEADING.(writeTs := end) && Content(jb.frames[0]) == NOTHING
    ensures var (jb', o) := Step(DELAYED, jb, ReadFrame);
            o == Played(NOTHING) && jb'.t == LEADING.(writeTs := end, readTs := 80) && jb'.frames[1] == jb.frames[1]
  {
    AddExact(0, 80);
  }

  lemma FarDelayed(jb: Jb, y: bv8)
    requires jb.Valid(DELAYED) && jb.t == LEADING.(writeTs := 160)
    ensures Step(DELAYED, jb, Audio([y], 320, false)) == (Stored(jb, jb.t, 480, 1, y), Accepted(Ok))
  {
    SubExact(320, 0);
    AddExact(320, 80);
    OnTime(DELAYED, jb, y, 320, jb.t, 400);
  }

  lemma ReadsDelayed(jb: Jb, y: bv8)
    requires jb.Valid(DELAYED) && jb.t == LEADING.(writeTs := 480) && Content(jb.frames[0]) == NOTHING
    requires Content(jb.frames[1]) == MediaFrame(Some([y]), None, NoMarker)
    ensures Run(DELAYED, jb, [ReadFrame] + ([ReadFrame] + [])).1 == [Played(NOTHING)] + ([Heard(y)] + [])
  {
    SilentRead(jb, 480);
    var jb1 := Step(DELAYED, jb, ReadFrame).0;
    RunFirst(DELAYED, jb1, ReadFrame, [], ReadFrom(DELAYED, jb1).0, Heard(y));
    RunFirst(DELAYED, jb, ReadFrame, [ReadFrame] + [], jb1, Played(NOTHING));
  }

  /** A packet far past the window is accepted, and heard where another one waits. */
  lemma PastWindowHeard(jb: Jb, x: bv8, y: bv8)
    requires IsCreated(DELAYED, jb)
    ensures Run(DELAYED, jb, [Audio([x], 0, false)] + ([Audio([y], 320, false)] + ([ReadFrame] + ([ReadFrame] + [])))).1
         == [Accepted(Ok)] + ([Accepted(Ok)] + ([Played(NOTHING)] + ([Heard(y)] + [])))
  {
    var jb1 := Stored(jb, LEADING, 160, 1, x);
    var jb2 := Stored(jb1, jb1.t, 480, 1, y);
    var heard := [ReadFrame] + ([ReadFrame] + []);
    FirstDelayed(jb, x);
    FarDelayed(jb1, y);
    ReadsDelayed(jb2, y);
    RunFirst(DELAYED, jb1, Audio([y], 320, false), heard, jb2, Accepted(Ok));
    RunFirst(DELAYED, jb, Audio([x], 0, false), [Audio([y], 320, false)] + heard, jb1, Accepted(Ok));
  }

  /** What was not read before a restart is heard after it. */
  lemma RestartReplays(jb: Jb, x: bv8, y: bv8)
    requires IsCreated(DELAYED, jb)
    ensures Run(DELAYED, jb, [Audio([x], 0, false)] + ([ReadFrame] + Resumed(y))).1
         == [Accepted(Ok)] + ([Played(NOTHING)] + ([Done] + ([Accepted(Ok)] + ([Heard(x)] + []))))
  {
    var jb1 := Stored(jb, LEADING, 160, 1, x);
    FirstDelayed(jb, x);
    SilentRead(jb1, 160);
    var jb2 := Step(DELAYED, jb1, ReadFrame).0;
    UnreadReplayed(jb2, x, y);
    RunFirst(DELAYED, jb1, ReadFrame, Resumed(y), jb2, Played(NOTHING));
    RunFirst(DELAYED, jb, Audio([x], 0, false), [ReadFrame] + Resumed(y), jb1, Accepted(Ok));
  }

  function Resumed(y: bv8): seq<Op> { [Restart] + ([Audio([y], 80, false)] + ([ReadFrame] + [])) }

  lemma ReadReplayed(jb: Jb, x: bv8)
    requires jb.Valid(DELAYED) && jb.t == LEADING.(writeTs := 240, readTs := 80)
    requires Content(jb.frames[1]) == MediaFrame(Some([x]), None, NoMarker)
    ensures Run(DELAYED, jb, [ReadFrame] + []).1 == [Heard(x)] + []
  {
    RunFirst(DELAYED, jb, ReadFrame, [], ReadFrom(DELAYED, jb).0, Heard(x));
  }

  lemma UnreadReplayed(jb: Jb, x: bv8, y: bv8)
    requires jb.Valid(DELAYED) && jb.t == LEADING.(writeTs := 160, readTs := 80)
    requires Content(jb.frames[1]) == MediaFrame(Some([x]), None, NoMarker)
    ensures Run(DELAYED, jb, Resumed(y)).1 == [Done] + ([Accepted(Ok)] + ([Heard(x)] + []))
  {
    var jb1 := Restarted(DELAYED, jb);
    var t := LEADING.(writeTs := 80, readTs := 80);
    SubExact(80, 80);
    SubExact(80, 0);
    AddExact(80, 80);
    OnTime(DELAYED, jb1, y, 80, t, 160);
    var jb2 := Stored(jb1, t, 240, 0, y);
    ReadReplayed(jb2, x);
    RunFirst(DELAYED, jb1, Audio([y], 80, false), [ReadFrame] + [], jb2, Accepted(Ok));
    RunFirst(DELAYED, jb, Restart, [Audio([y], 80, false)] + ([ReadFrame] + []), jb1, Done);
  }
}
