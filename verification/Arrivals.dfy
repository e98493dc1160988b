/** What the jitter buffer does with a packet, told by the arithmetic of its position: in
    time, out of order, late with and without skew detection, and the same for events. */
module Arrivals {
  import opened Machine
  import opened Options
  import opened JitterBuffer
  import Playout
  import Multiples

  // ----- positions -----

  /** The beginning of the frame that a position is in. */
  function FrameStart(c: Config, x: u32): u32
    requires c.Valid()
  {
    x - x % c.frameTs
  }

  /** With the offset set, a packet with timestamp `ts` belongs at `p`. */
  predicate BelongsAt(c: Config, t: Timing, ts: u32, p: u32)
    requires c.Valid()
  {
    !t.writeSync && p == FrameStart(c, (ts - t.offset + t.delay) % 0x1_0000_0000)
  }

  lemma PreparedAt(c: Config, t: Timing, ts: u32, p: u32)
    requires c.Valid() && BelongsAt(c, t, ts, p)
    ensures Prepared(c, t, ts) == (t, p)
  {
    SubAdd(ts, t.offset, t.delay);
  }

  lemma SubAdd(a: u32, b: u32, d: u32)
    ensures Add(Sub(a, b), d) == (a - b + d) % 0x1_0000_0000
  {
    SubExact(a, b);
    AddExact(Sub(a, b), d);
  }

  // ----- what is stored -----

  /** Whole frames of a payload. */
  function FramesIn(c: Config, payload: Octets): nat { if c.frameSize == 0 then 0 else |payload| / c.frameSize }

  /** `n` frames of the payload are in consecutive slots from that of `w` on, and all else
      is as it was. */
  predicate Stores(c: Config, frames: seq<Frame>, r: seq<Frame>, w: u32, n: nat, payload: Octets)
    requires c.Valid()
  {
    && |r| == |frames| == c.frameCount && n * c.frameSize <= |payload|
    && (forall k | 0 <= k < n :: StoresOne(c, frames, r, w, k, payload))
    && (forall i | 0 <= i < c.frameCount && !Hit(c, w, n, i) :: r[i] == frames[i])
  }

  predicate StoresOne(c: Config, frames: seq<Frame>, r: seq<Frame>, w: u32, k: nat, payload: Octets)
    requires c.Valid() && |r| == |frames| == c.frameCount
  {
    var i := (w / c.frameTs + k) % c.frameCount;
    && 0 <= k * c.frameSize <= (k + 1) * c.frameSize <= |payload|
    && r[i] == frames[i].(hasAudio := true, data := payload[k * c.frameSize..(k + 1) * c.frameSize])
  }

  predicate Hit(c: Config, w: u32, n: nat, i: nat)
    requires c.Valid()
  {
    exists k | 0 <= k < n :: SlotHit(c, w, k) == i
  }

  function SlotHit(c: Config, w: u32, k: nat): nat
    requires c.Valid()
  {
    (w / c.frameTs + k) % c.frameCount
  }

  function FirstStored(c: Config, frames: seq<Frame>, w: u32, payload: Octets): (r: seq<Frame>)
    requires c.Valid() && |frames| == c.frameCount && c.frameSize <= |payload|
    ensures |r| == c.frameCount
  {
    var i := SlotHit(c, w, 0);
    frames[i := frames[i].(hasAudio := true, data := payload[..c.frameSize])]
  }

  lemma NoMore(c: Config, frames: seq<Frame>, w: u32, room: nat, payload: Octets)
    requires c.Valid() && |frames| == c.frameCount && (room == 0 || FramesIn(c, payload) == 0)
    ensures StoreAudio(c, frames, w, room, payload) == (frames, w)
  {
    if c.frameSize > 0 && |payload| >= c.frameSize {
      Multiples.DivMonotone(c.frameSize, |payload|, c.frameSize);
    }
  }

  lemma OneMore(c: Config, frames: seq<Frame>, w: u32, room: nat, payload: Octets, n: nat)
    requires c.Valid() && |frames| == c.frameCount && room > 0 && n + 1 <= FramesIn(c, payload)
    requires w + c.frameTs * (n + 1) < MOD32
    ensures |payload| >= c.frameSize > 0 && Add(w, c.frameTs) == w + c.frameTs
    ensures FramesIn(c, payload[c.frameSize..]) == FramesIn(c, payload) - 1
    ensures (w + c.frameTs) / c.frameTs == w / c.frameTs + 1
    ensures StoreAudio(c, frames, w, room, payload)
         == StoreAudio(c, FirstStored(c, frames, w, payload),
                       w + c.frameTs, room - 1, payload[c.frameSize..])
  {
    var fs := c.frameSize;
    Multiples.Next(n, c.frameTs);
    Multiples.Monotone(0, n, c.frameTs);
    AddExact(w, c.frameTs);
    if |payload| < fs {
      Multiples.Quotient(|payload|, 0, |payload|, fs);
    }
    var q := |payload| / fs;
    Multiples.Next(q, fs);
    Multiples.Quotient(|payload| - fs, q - 1, |payload| % fs, fs);
    Multiples.Next(w / c.frameTs, c.frameTs);
    Multiples.Quotient(w + c.frameTs, w / c.frameTs + 1, w % c.frameTs, c.frameTs);
  }

  lemma DistinctSlots(c: Config, w: u32, j: nat, k: nat)
    requires c.Valid() && j < k < j + c.frameCount
    ensures SlotHit(c, w, j) != SlotHit(c, w, k)
  {
    Playout.LiveSlotsDistinct(w / c.frameTs + j, w / c.frameTs + j, w / c.frameTs + k, c.frameCount);
  }

  lemma PayloadPart(payload: Octets, fs: nat, k: nat)
    requires (k + 2) * fs <= |payload|
    ensures fs <= |payload| && 0 <= k * fs <= (k + 1) * fs <= |payload| - fs
    ensures payload[fs..][k * fs..(k + 1) * fs] == payload[(k + 1) * fs..(k + 2) * fs]
  {
    Multiples.Next(k, fs);
    Multiples.Next(k + 1, fs);
    Multiples.NotNegative(k, fs);
    assert (k + 2) * fs == k * fs + 2 * fs && (k + 1) * fs == k * fs + fs;
  }

  /** The first slot is stored before the others, which do not touch it. */
  lemma StoresStep(c: Config, frames: seq<Frame>, first: seq<Frame>, r: seq<Frame>, w: u32, v: u32, n: nat,
                   payload: Octets)
    requires c.Valid() && |frames| == c.frameCount && n < c.frameCount && c.frameSize <= |payload|
    requires v / c.frameTs == w / c.frameTs + 1
    requires first == FirstStored(c, frames, w, payload)
    requires Stores(c, first, r, v, n, payload[c.frameSize..])
    ensures Stores(c, frames, r, w, n + 1, payload)
  {
    var fs := c.frameSize;
    assert (n + 1) * fs == n * fs + fs;
    forall k: nat ensures SlotHit(c, v, k) == SlotHit(c, w, k + 1) {
    }
    FirstKept(c, first, r, w, v, n, payload);
    forall k | 0 <= k < n + 1 ensures StoresOne(c, frames, r, w, k, payload) {
      if k > 0 {
        LaterStored(c, frames, first, r, w, v, n, payload, k - 1);
      }
    }
    forall i | 0 <= i < c.frameCount && !Hit(c, w, n + 1, i) ensures r[i] == frames[i] {
      NotHit(c, w, v, n, i);
    }
  }

  lemma FirstKept(c: Config, first: seq<Frame>, r: seq<Frame>, w: u32, v: u32, n: nat, payload: Octets)
    requires c.Valid() && n < c.frameCount && c.frameSize <= |payload| && v / c.frameTs == w / c.frameTs + 1
    requires Stores(c, first, r, v, n, payload[c.frameSize..])
    ensures r[SlotHit(c, w, 0)] == first[SlotHit(c, w, 0)]
  {
    forall k | 0 <= k < n ensures SlotHit(c, v, k) != SlotHit(c, w, 0) {
      DistinctSlots(c, w, 0, k + 1);
    }
  }

  lemma LaterStored(c: Config, frames: seq<Frame>, first: seq<Frame>, r: seq<Frame>, w: u32, v: u32, n: nat,
                    payload: Octets, k: nat)
    requires c.Valid() && |frames| == c.frameCount && k < n < c.frameCount && c.frameSize <= |payload|
    requires v / c.frameTs == w / c.frameTs + 1
    requires first == FirstStored(c, frames, w, payload)
    requires Stores(c, first, r, v, n, payload[c.frameSize..])
    ensures StoresOne(c, frames, r, w, k + 1, payload)
  {
    var fs := c.frameSize;
    assert StoresOne(c, first, r, v, k, payload[fs..]);
    DistinctSlots(c, w, 0, k + 1);
    assert (k + 2) * fs == (k + 1) * fs + fs;
    PayloadPart(payload, fs, k);
  }

  lemma NotHit(c: Config, w: u32, v: u32, n: nat, i: nat)
    requires c.Valid() && v / c.frameTs == w / c.frameTs + 1 && !Hit(c, w, n + 1, i)
    ensures i != SlotHit(c, w, 0) && !Hit(c, v, n, i)
  {
    forall k | 0 <= k < n ensures SlotHit(c, v, k) != i {
      assert SlotHit(c, w, k + 1) != i;
    }
  }

  /** As many frames are stored as there is room for. */
  lemma {:induction false} StoresFrames(c: Config, frames: seq<Frame>, w: u32, room: nat, payload: Octets, n: nat)
    requires c.Valid() && |frames| == c.frameCount && room <= c.frameCount && w + c.frameTs * n < MOD32
    requires n == if room < FramesIn(c, payload) then room else FramesIn(c, payload)
    ensures var (r, end) := StoreAudio(c, frames, w, room, payload);
            end == w + c.frameTs * n && Stores(c, frames, r, w, n, payload)
    decreases n
  {
    if n == 0 {
      NoMore(c, frames, w, room, payload);
    } else {
      OneMore(c, frames, w, room, payload, n - 1);
      var first := FirstStored(c, frames, w, payload);
      Multiples.Next(n - 1, c.frameTs);
      StoresFrames(c, first, w + c.frameTs, room - 1, payload[c.frameSize..], n - 1);
      var r := StoreAudio(c, frames, w, room, payload).0;
      StoresStep(c, frames, first, r, w, w + c.frameTs, n - 1, payload);
    }
  }

  // ----- audio -----

  /** The slots that are left from a position inside the window, and what they take. */
  predicate Takes(c: Config, t: Timing, w: u32, payload: Octets, n: nat)
    requires c.Valid()
  {
    && t.readTs <= w && (w - t.readTs) / c.frameTs < c.frameCount && w + c.frameTs * n < MOD32
    && var room := c.frameCount - (w - t.readTs) / c.frameTs;
       n == if room < FramesIn(c, payload) then room else FramesIn(c, payload)
  }

  /** `n` frames of the payload were stored from `w` on; the timing is `t` but for the writer. */
  predicate PutInto(c: Config, jb: Jb, t: Timing, r: Jb, w: u32, n: nat, payload: Octets)
    requires c.Valid()
  {
    && r.e == jb.e && Stores(c, jb.frames, r.frames, w, n, payload)
    && r.t == t.(writeTs := r.t.writeTs)
    && r.t.writeTs == if w + c.frameTs * n > t.writeTs then w + c.frameTs * n else t.writeTs
  }

  lemma RoomIs(c: Config, t: Timing, w: u32)
    requires c.Valid() && t.readTs <= w && (w - t.readTs) / c.frameTs <= c.frameCount
    ensures Available(c, t, w) == c.frameCount - (w - t.readTs) / c.frameTs <= c.frameCount
  {
    SubExact(w, t.readTs);
    Multiples.Floor(w - t.readTs, c.frameTs);
  }

  lemma PutAt(c: Config, jb: Jb, w: u32, payload: Octets, n: nat)
    requires jb.Valid(c) && Takes(c, jb.t, w, payload, n)
    ensures var (r, result) := AudioPut(c, jb, Placed(w), payload);
            result == Ok && PutInto(c, jb, jb.t, r, w, n, payload)
  {
    RoomIs(c, jb.t, w);
    var room := c.frameCount - (w - jb.t.readTs) / c.frameTs;
    var r := PutFrames(c, jb, w, payload, room);
    StoresFrames(c, jb.frames, w, room, payload, n);
  }

  lemma PutFrames(c: Config, jb: Jb, w: u32, payload: Octets, room: nat) returns (r: Jb)
    requires jb.Valid(c) && room == Available(c, jb.t, w) > 0
    ensures AudioPut(c, jb, Placed(w), payload) == (r, Ok) && r.e == jb.e
    ensures var (frames, end) := StoreAudio(c, jb.frames, w, room, payload);
            && r.frames == frames && r.t == jb.t.(writeTs := r.t.writeTs)
            && r.t.writeTs == if end > jb.t.writeTs then end else jb.t.writeTs
  {
    r := AudioPut(c, jb, Placed(w), payload).0;
  }

  /** A marker on an empty buffer asks for a new offset. */
  predicate Resyncs(t: Timing, marker: bool) { marker && t.writeTs <= t.readTs }

  /** A packet that belongs at or behind the reader, inside the window, is stored there. */
  lemma InTime(c: Config, jb: Jb, payload: Octets, ts: u32, marker: bool, p: u32, n: nat)
    requires jb.Valid(c) && BelongsAt(c, jb.t, ts, p) && !Resyncs(jb.t, marker) && Takes(c, jb.t, p, payload, n)
    ensures var (r, result) := Written(c, jb, payload, ts, marker);
            result == Ok && PutInto(c, jb, jb.t, r, p, n, payload)
  {
    PreparedAt(c, jb.t, ts, p);
    PutAt(c, jb, p, payload, n);
  }

  /** One that belongs exactly at the end of the window is too early, and changes nothing. */
  lemma AtWindowEnd(c: Config, jb: Jb, payload: Octets, ts: u32, marker: bool, p: u32)
    requires jb.Valid(c) && BelongsAt(c, jb.t, ts, p) && !Resyncs(jb.t, marker)
    requires jb.t.readTs <= p && (p - jb.t.readTs) / c.frameTs == c.frameCount
    ensures Written(c, jb, payload, ts, marker) == (jb, DiscardTooEarly)
  {
    PreparedAt(c, jb.t, ts, p);
    RoomIs(c, jb.t, p);
  }

  /** One that belongs before the reader, and before what was written already, is out of
      order and too late. */
  lemma OutOfOrder(c: Config, jb: Jb, payload: Octets, ts: u32, marker: bool, p: u32)
    requires jb.Valid(c) && BelongsAt(c, jb.t, ts, p) && !Resyncs(jb.t, marker)
    requires p < jb.t.readTs && p < jb.t.writeTs
    ensures Written(c, jb, payload, ts, marker) == (jb, DiscardTooLate)
  {
    PreparedAt(c, jb.t, ts, p);
  }

  /** The playout delay may grow by `missing`. */
  predicate MayGrow(c: Config, t: Timing, missing: u32)
  {
    c.adaptive && (t.delay + missing) % 0x1_0000_0000 <= c.maxDelayTs
  }

  /** A packet that belongs between the writer and the reader is taken if and only if the
      delay may grow by what it is late: it is stored at the reader then, and the delay has
      grown by exactly that. Otherwise nothing changes. */
  lemma LateGrows(c: Config, jb: Jb, payload: Octets, ts: u32, p: u32, n: nat)
    requires jb.Valid(c) && !c.skewDetection && BelongsAt(c, jb.t, ts, p) && jb.t.writeTs <= p < jb.t.readTs
    requires Takes(c, jb.t, jb.t.readTs, payload, n)
    ensures var (r, result) := Written(c, jb, payload, ts, false);
            var late := jb.t.readTs - p;
            && (result == Ok <==> MayGrow(c, jb.t, late))
            && (if result == Ok then
                  PutInto(c, jb, jb.t.(delay := (jb.t.delay + late) % 0x1_0000_0000), r, jb.t.readTs, n, payload)
                else r == jb && result == DiscardTooLate)
  {
    LatePlace(c, jb.t, ts, p, jb.t.readTs - p);
    if MayGrow(c, jb.t, jb.t.readTs - p) {
      var t := jb.t.(delay := (jb.t.delay + (jb.t.readTs - p)) % 0x1_0000_0000);
      PutAt(c, jb.(t := t), jb.t.readTs, payload, n);
    }
  }

  lemma LatePlace(c: Config, t: Timing, ts: u32, p: u32, late: u32)
    requires c.Valid() && !c.skewDetection && BelongsAt(c, t, ts, p) && t.writeTs <= p < t.readTs == p + late
    ensures PlaceAudio(c, t, ts, false)
         == if MayGrow(c, t, late) then (t.(delay := (t.delay + late) % 0x1_0000_0000), Placed(t.readTs)) else (t, Late)
  {
    PreparedAt(c, t, ts, p);
    PlaceIs(c, t, ts, p, t, p, late);
    PlainlyGrown(c, t, p, late);
  }

  lemma PlainlyGrown(c: Config, t: Timing, p: u32, late: u32)
    requires !c.skewDetection && 0 < late && p + late < 0x1_0000_0000
    ensures DelayExtended(c, t, p, late)
         == if MayGrow(c, t, late) then (t.(delay := (t.delay + late) % 0x1_0000_0000), Placed(p + late)) else (t, Late)
  {
    AddExact(p, late);
  }

  /** While the sum stays in range, that is plain arithmetic. */
  lemma MayGrowPlainly(c: Config, t: Timing, missing: u32)
    requires t.delay + missing < 0x1_0000_0000
    ensures MayGrow(c, t, missing) <==> c.adaptive && t.delay + missing <= c.maxDelayTs
  {
  }

  // ----- late audio with skew detection -----

  /** The adjustment that the spread of the measured lengths asks for. */
  function Wanted(c: Config, t: Timing, late: u32): u32
    requires c.Valid()
  {
    var spread := (t.maxLength - t.minLength) % 0x1_0000_0000;
    if spread > (t.delay + late) % 0x1_0000_0000 then FrameStart(c, (spread - t.delay) % 0x1_0000_0000) else late
  }

  /** The lengths have stayed below the delay: the sender's clock is slower. */
  predicate ShowsSkew(t: Timing) { 0 < t.maxLength < t.delay }

  function WholeSkew(c: Config, t: Timing): u32
    requires c.Valid() && ShowsSkew(t)
  {
    FrameStart(c, t.delay - t.maxLength)
  }

  /** The timing once the offset has followed the skew. */
  function Following(t: Timing, skew: u32): Timing
  {
    t.(offset := (t.offset - skew) % 0x1_0000_0000, minLength := Signed(t.minLength + skew),
       maxLength := Signed(t.maxLength + skew))
  }

  /** The timing, the position and what is still missing once the skew was looked at. */
  function Followed(c: Config, t: Timing, ts: u32, p: u32): (Timing, u32, u32)
    requires c.Valid() && p < t.readTs
  {
    var wanted := Wanted(c, t, t.readTs - p);
    if ShowsSkew(t) then
      var skew := WholeSkew(c, t);
      (Following(t, skew), (ts - (t.offset - skew) + t.delay) % 0x1_0000_0000,
       if skew < wanted then wanted - skew else 0)
    else (t, p, wanted)
  }

  lemma FollowedIs(c: Config, t: Timing, ts: u32, p: u32)
    requires c.Valid() && c.skewDetection && p < t.readTs
    ensures SkewAdjusted(c, t, ts, p) == Followed(c, t, ts, p)
  {
    var late := t.readTs - p;
    WantedIs(c, t, late);
    if ShowsSkew(t) {
      SkewFollowedIs(c, t, ts, Wanted(c, t, late), WholeSkew(c, t));
    }
  }

  lemma WantedIs(c: Config, t: Timing, late: u32)
    requires c.Valid()
    ensures Widened(c, t, late) == Wanted(c, t, late)
  {
  }

  lemma SkewFollowedIs(c: Config, t: Timing, ts: u32, wanted: u32, skew: u32)
    requires c.Valid() && ShowsSkew(t) && skew == WholeSkew(c, t)
    ensures SkewFollowed(c, t, ts, wanted)
         == (Following(t, skew), (ts - (t.offset - skew) + t.delay) % 0x1_0000_0000,
             if skew < wanted then wanted - skew else 0)
  {
    OffsetMoves(ts, t.offset, skew, t.delay);
  }

  lemma OffsetMoves(ts: u32, offset: u32, skew: u32, delay: u32)
    ensures Add(Sub(ts, Sub(offset, skew)), delay) == (ts - (offset - skew) + delay) % 0x1_0000_0000
  {
    SubExact(offset, skew);
    SubAdd(ts, Sub(offset, skew), delay);
  }

  /** The delay and the lengths have grown. */
  function Grown(t: Timing, missing: u32): Timing
  {
    if missing == 0 then t
    else t.(delay := (t.delay + missing) % 0x1_0000_0000, minLength := Signed(t.minLength + missing),
            maxLength := Signed(t.maxLength + missing))
  }

  /** With skew detection the offset follows a skew first, whether the packet is taken or
      not; it is taken if and only if nothing is missing then, or the delay may grow by what
      is, and is put where that leads. */
  lemma LateFollows(c: Config, jb: Jb, payload: Octets, ts: u32, p: u32)
    requires jb.Valid(c) && c.skewDetection && BelongsAt(c, jb.t, ts, p) && jb.t.writeTs <= p < jb.t.readTs
    ensures var (t, w, missing) := Followed(c, jb.t, ts, p);
            Written(c, jb, payload, ts, false)
            == if missing == 0 || MayGrow(c, t, missing) then
                 AudioPut(c, jb.(t := Grown(t, missing)), Placed((w + missing) % 0x1_0000_0000), payload)
               else (jb.(t := t), DiscardTooLate)
  {
    PreparedAt(c, jb.t, ts, p);
    FollowedIs(c, jb.t, ts, p);
    var (t, w, missing) := Followed(c, jb.t, ts, p);
    FollowedPut(c, jb, payload, ts, p, t, w, missing);
  }

  lemma FollowedPut(c: Config, jb: Jb, payload: Octets, ts: u32, p: u32, t: Timing, w: u32, missing: u32)
    requires jb.Valid(c) && c.skewDetection && Prepared(c, jb.t, ts) == (jb.t, p) && jb.t.writeTs <= p < jb.t.readTs
    requires SkewAdjusted(c, jb.t, ts, p) == (t, w, missing)
    ensures Written(c, jb, payload, ts, false)
         == if missing == 0 || MayGrow(c, t, missing) then
              AudioPut(c, jb.(t := Grown(t, missing)), Placed((w + missing) % 0x1_0000_0000), payload)
            else (jb.(t := t), DiscardTooLate)
  {
    PlaceIs(c, jb.t, ts, p, t, w, missing);
    GrownIs(c, t, w, missing);
    WrittenAs(c, jb, payload, ts, DelayExtended(c, t, w, missing));
  }

  lemma WrittenAs(c: Config, jb: Jb, payload: Octets, ts: u32, placed: (Timing, Placement))
    requires jb.Valid(c) && PlaceAudio(c, jb.t, ts, false) == placed
    ensures Written(c, jb, payload, ts, false)
         == if placed.1.Late? then (jb.(t := placed.0), DiscardTooLate)
            else AudioPut(c, jb.(t := placed.0), placed.1, payload)
  {
  }

  lemma PlaceIs(c: Config, t: Timing, ts: u32, p: u32, t': Timing, w: u32, missing: u32)
    requires c.Valid() && Prepared(c, t, ts) == (t, p) && t.writeTs <= p < t.readTs
    requires SkewAdjusted(c, t, ts, p) == (t', w, missing)
    ensures PlaceAudio(c, t, ts, false) == DelayExtended(c, t', w, missing)
  {
  }

  lemma GrownIs(c: Config, t: Timing, w: u32, missing: u32)
    requires c.skewDetection
    ensures DelayExtended(c, t, w, missing)
         == if missing == 0 || MayGrow(c, t, missing) then
              (Grown(t, missing), Placed((w + missing) % 0x1_0000_0000))
            else (t, Late)
  {
    WrapExact(w);
  }

  // ----- a new offset -----

  /** The first packet, one after a restart, and one with a marker on an empty buffer is put
      the playout delay behind the reader, whatever its timestamp says. */
  lemma FirstAtDelay(c: Config, jb: Jb, payload: Octets, ts: u32, marker: bool, n: nat)
    requires jb.Valid(c) && (jb.t.writeSync || Resyncs(jb.t, marker)) && jb.t.readTs % c.frameTs == 0
    requires jb.t.readTs + jb.t.delay < 0x1_0000_0000
    requires Takes(c, jb.t, FrameStart(c, jb.t.readTs + jb.t.delay), payload, n)
    ensures var (r, result) := Written(c, jb, payload, ts, marker);
            var t := Resynced(c, jb.t, ts);
            result == Ok && PutInto(c, jb, t, r, FrameStart(c, jb.t.readTs + jb.t.delay), n, payload)
  {
    var p, t := FrameStart(c, jb.t.readTs + jb.t.delay), Resynced(c, jb.t, ts);
    ResyncedPlace(c, jb.t, ts, marker, p);
    PutAt(c, jb.(t := t), p, payload, n);
  }

  lemma ResyncedPlace(c: Config, t: Timing, ts: u32, marker: bool, p: u32)
    requires c.Valid() && (t.writeSync || Resyncs(t, marker)) && t.readTs + t.delay < 0x1_0000_0000
    requires p == FrameStart(c, t.readTs + t.delay) >= t.readTs
    ensures PlaceAudio(c, t, ts, marker) == (Resynced(c, t, ts), Placed(p))
  {
    PreparedAnew(c, Marked(t, marker), ts);
    assert Resynced(c, Marked(t, marker), ts) == Resynced(c, t, ts);
  }

  lemma PreparedAnew(c: Config, t: Timing, ts: u32)
    requires c.Valid() && t.writeSync && t.readTs + t.delay < 0x1_0000_0000
    ensures Prepared(c, t, ts) == (Resynced(c, t, ts), FrameStart(c, t.readTs + t.delay))
  {
    SubExact(ts, t.readTs);
    SubExact(ts, Sub(ts, t.readTs));
    AddExact(t.readTs, t.delay);
  }

  /** The offset takes the packet to the reader, and the measurements begin anew. */
  function Resynced(c: Config, t: Timing, ts: u32): Timing
  {
    var t := t.(offset := (ts - t.readTs) % 0x1_0000_0000, writeSync := false);
    if c.skewDetection then t.(minLength := Signed(t.delay), maxLength := Signed(t.delay), measurements := 0) else t
  }

  // ----- events -----

  /** What an update of the event under way is compared with. */
  function LastSeen(jb: Jb): Event
    requires jb.e.update.Slot? ==> jb.e.update.index < |jb.frames|
    requires jb.e.update != NoEvent
  {
    if jb.e.update.Slot? then jb.frames[jb.e.update.index].event else jb.e.base
  }

  /** A packet at `w` belongs to no event seen before: it says so, or no event was seen, or
      another one, or it comes more than four frames behind the end of the last update. */
  predicate IsNew(c: Config, jb: Jb, event: Event, w: u32, marker: bool)
    requires jb.Valid(c)
  {
    || marker || jb.e.update == NoEvent || jb.e.base.id != event.id
    || (jb.e.baseTs != w && w > (jb.e.baseTs + LastSeen(jb).duration + 4 * c.frameTs) % 0x1_0000_0000)
  }

  /** It tells more than the last update: it lasts longer, or it is the first to end. */
  predicate TellsMore(last: Event, event: Event)
  {
    event.duration > last.duration || (event.duration == last.duration && event.edge && !last.edge)
  }

  /** The event in its slot, with the marker that goes with it. */
  predicate Holds(f: Frame, before: Frame, event: Event, start: bool)
  {
    && f.hasEvent && f.event == event && f.hasAudio == before.hasAudio && f.data == before.data
    && f.marker == if start then StartOfEvent else if event.edge then EndOfEvent else before.marker
  }

  /** The event was stored at `w`, which is where its next update is compared; the timing is
      `t` but for the writer, which is a frame behind `w` or further. */
  predicate EventAt(c: Config, jb: Jb, t: Timing, r: Jb, w: u32, event: Event, start: bool)
    requires jb.Valid(c)
  {
    var i := w / c.frameTs % c.frameCount;
    && |r.frames| == |jb.frames| && Holds(r.frames[i], jb.frames[i], event, start)
    && (forall k | 0 <= k < |jb.frames| && k != i :: r.frames[k] == jb.frames[k])
    && r.e == EventState(if start then w else jb.e.baseTs, jb.e.base, Slot(i))
    && r.t == t.(writeTs := r.t.writeTs)
    && var next := (w + c.frameTs) % 0x1_0000_0000; r.t.writeTs == if next > t.writeTs then next else t.writeTs
  }

  lemma EventPutAt(c: Config, jb: Jb, w: u32, event: Event, start: bool)
    requires jb.Valid(c)
    ensures EventAt(c, jb, jb.t, EventPut(c, jb, w, event, start), w, event, start)
  {
  }

  /** An event that is meant for a position at or behind the reader is stored there, inside
      the window. */
  lemma EventInTime(c: Config, jb: Jb, at: u32, event: Event, start: bool)
    requires jb.Valid(c) && at >= jb.t.readTs
    ensures var (r, result) := EventPlaced(c, jb, at, event, start);
            if (at - jb.t.readTs) / c.frameTs >= c.frameCount then result == DiscardTooEarly && r == jb
            else result == Ok && EventAt(c, jb, jb.t, r, at, event, start)
  {
    EventPutAt(c, jb, at, event, start);
    assert jb.(t := jb.t) == jb;
  }

  /** One that is meant for a position before the reader is stored at the reader, if the
      delay may grow by what it is late; otherwise nothing changes. */
  lemma EventLate(c: Config, jb: Jb, at: u32, event: Event, start: bool, late: u32)
    requires jb.Valid(c) && 0 < late && at + late == jb.t.readTs
    ensures var (r, result) := EventPlaced(c, jb, at, event, start);
            if MayGrow(c, jb.t, late) then
              var t := jb.t.(delay := (jb.t.delay + late) % 0x1_0000_0000);
              result == Ok && EventAt(c, jb, t, r, jb.t.readTs, event, start)
            else result == DiscardTooLate && r == jb
  {
    var t := jb.t.(delay := (jb.t.delay + late) % 0x1_0000_0000);
    EventGrows(c, jb, at, event, start, late, t);
    EventPutAt(c, jb.(t := t), jb.t.readTs, event, start);
  }

  lemma EventGrows(c: Config, jb: Jb, at: u32, event: Event, start: bool, late: u32, t: Timing)
    requires jb.Valid(c) && 0 < late && at + late == jb.t.readTs
    requires t == jb.t.(delay := (jb.t.delay + late) % 0x1_0000_0000)
    ensures EventPlaced(c, jb, at, event, start)
         == if MayGrow(c, jb.t, late) then (EventPut(c, jb.(t := t), jb.t.readTs, event, start), Ok)
            else (jb, DiscardTooLate)
  {
    assert PlaceEvent(c, jb.t, at)
        == if MayGrow(c, jb.t, late) then (t, jb.t.readTs, Ok) else (jb.t, at, DiscardTooLate);
  }

  /** A new event is stored where its packet belongs. */
  lemma NewEventStored(c: Config, jb: Jb, event: Event, ts: u32, marker: bool, w: u32)
    requires jb.Valid(c) && BelongsAt(c, jb.t, ts, w) && IsNew(c, jb, event, w, marker)
    ensures var seen := jb.(e := EventState(w, event, Base));
            EventWritten(c, jb, event, ts, marker) == EventPlaced(c, seen, w, event, true)
  {
    PreparedAt(c, jb.t, ts, w);
  }

  /** The first packet of a new segment is not stored: what comes after is compared with it. */
  lemma SegmentNotStored(c: Config, jb: Jb, event: Event, ts: u32, marker: bool, w: u32)
    requires jb.Valid(c) && BelongsAt(c, jb.t, ts, w) && !IsNew(c, jb, event, w, marker) && jb.e.baseTs != w
    ensures EventWritten(c, jb, event, ts, marker) == (jb.(e := EventState(w, event, Base)), Ok)
  {
    PreparedAt(c, jb.t, ts, w);
  }

  /** An update is stored if and only if it tells more than the last one, and that much
      behind the beginning of the event as the last one lasted. */
  lemma UpdateStoredIff(c: Config, jb: Jb, event: Event, ts: u32, marker: bool, w: u32)
    requires jb.Valid(c) && BelongsAt(c, jb.t, ts, w) && !IsNew(c, jb, event, w, marker) && jb.e.baseTs == w
    ensures EventWritten(c, jb, event, ts, marker)
         == if TellsMore(LastSeen(jb), event) then
              EventPlaced(c, jb, (w + LastSeen(jb).duration) % 0x1_0000_0000, event, false)
            else (jb, Ok)
  {
    PreparedAt(c, jb.t, ts, w);
  }

  // ----- the measured lengths -----

  function Least(a: int, b: int): int { if a < b then a else b }
  function Greatest(a: int, b: int): int { if a > b then a else b }

  /** With skew detection every read measures how far the writer is ahead then, and keeps
      the extremes; after 50 measurements both begin anew at their mean. */
  lemma ReadMeasures(c: Config, jb: Jb, length: int)
    requires jb.Valid(c) && c.skewDetection && jb.t.minLength <= jb.t.maxLength
    requires -0x8000_0000 <= jb.t.minLength && jb.t.maxLength < 0x8000_0000
    requires jb.t.maxLength - jb.t.minLength < 0x8000_0000 && jb.t.readTs + c.frameTs < 0x1_0000_0000
    requires -0x8000_0000 <= length == jb.t.writeTs - (jb.t.readTs + c.frameTs) < 0x8000_0000
    ensures var mean := jb.t.minLength + (jb.t.maxLength - jb.t.minLength) / 2;
            var anew := jb.t.measurements == 50;
            var t := ReadFrom(c, jb).0.t;
            && t.minLength == Least(if anew then mean else jb.t.minLength, length)
            && t.maxLength == Greatest(if anew then mean else jb.t.maxLength, length)
            && (jb.t.measurements < 0xFFFF_FFFF ==> t.measurements == if anew then 1 else jb.t.measurements + 1)
            && t.readTs == jb.t.readTs + c.frameTs && t.writeTs == jb.t.writeTs
            && t.delay == jb.t.delay && t.offset == jb.t.offset && t.writeSync == jb.t.writeSync
  {
    AddExact(jb.t.readTs, c.frameTs);
    var t := jb.t.(readTs := jb.t.readTs + c.frameTs);
    LengthIs(t.writeTs, t.readTs, length);
    MeanIs(t.minLength, t.maxLength);
    MeasuredIs(t, length, t.minLength + (t.maxLength - t.minLength) / 2);
    AddExact(if t.measurements == 50 then 0 else t.measurements, 1);
    ReadTiming(c, jb, t);
  }

  lemma ReadTiming(c: Config, jb: Jb, t: Timing)
    requires jb.Valid(c) && c.skewDetection && t == jb.t.(readTs := Add(jb.t.readTs, c.frameTs))
    ensures ReadFrom(c, jb).0.t == StatUpdated(t)
  {
  }

  lemma MeasuredIs(t: Timing, length: int, mean: int)
    requires t.minLength <= mean <= t.maxLength && length == Signed(Sub(t.writeTs, t.readTs))
    requires mean == Signed(t.minLength + Divided(Signed(t.maxLength - t.minLength), 2))
    ensures var r, anew := StatUpdated(t), t.measurements == 50;
            && r.minLength == Least(if anew then mean else t.minLength, length)
            && r.maxLength == Greatest(if anew then mean else t.maxLength, length)
            && r.measurements == Add(if anew then 0 else t.measurements, 1)
            && r == t.(minLength := r.minLength, maxLength := r.maxLength, measurements := r.measurements)
  {
  }

  lemma LengthIs(writeTs: u32, readTs: u32, length: int)
    requires -0x8000_0000 <= length == writeTs - readTs < 0x8000_0000
    ensures Signed(Sub(writeTs, readTs)) == length
  {
    SubExact(writeTs, readTs);
  }

  lemma MeanIs(lo: int, hi: int)
    requires -0x8000_0000 <= lo <= hi < 0x8000_0000 && hi - lo < 0x8000_0000
    ensures Signed(lo + Divided(Signed(hi - lo), 2)) == lo + (hi - lo) / 2
  {
    SignedExact(hi - lo);
    SignedExact(lo + (hi - lo) / 2);
  }
}
