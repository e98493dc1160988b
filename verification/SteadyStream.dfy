/** What the jitter buffer is for: a stream at the pace of the reader is played in order and
    without loss, as many frames later as the playout delay holds. */
module SteadyStream {
  import opened Machine
  import opened Options
  import opened JitterBuffer
  import opened Arrivals
  import Playout
  import Multiples

  /** One frame is written and one is read. */
  function Round(c: Config, jb: Jb, payload: Octets, ts: u32): (r: (Jb, JbResult, MediaFrame))
    requires jb.Valid(c)
    ensures r.0.Valid(c)
  {
    var (w, result) := Written(c, jb, payload, ts, false);
    var (n, frame) := ReadFrom(c, w);
    (n, result, frame)
  }

  /** The answers to a stream whose timestamps advance by a frame each time. */
  function Answers(c: Config, jb: Jb, ts: u32, payloads: seq<Octets>): (r: seq<(JbResult, MediaFrame)>)
    requires jb.Valid(c)
    ensures |r| == |payloads|
    decreases |payloads|
  {
    if payloads == [] then []
    else
      var (n, result, frame) := Round(c, jb, payloads[0], ts);
      [(result, frame)] + Answers(c, n, Add(ts, c.frameTs), payloads[1..])
  }

  function Heard(payload: Octets): MediaFrame { MediaFrame(Some(payload), None, NoMarker) }

  /** What is heard at index `i`, before frame `k` is written. */
  function Due(payloads: seq<Octets>, d: nat, k: nat, i: nat): MediaFrame
    requires k <= |payloads|
  {
    if d <= i < d + k then Heard(payloads[i - d]) else NOTHING
  }

  /** Each slot holds what is due at the index of the window that it stands for. */
  predicate Waiting(frames: seq<Frame>, payloads: seq<Octets>, d: nat, k: nat, from: nat)
    requires k <= |payloads|
  {
    |frames| > 0 && forall i | from <= i < from + |frames| :: Content(frames[i % |frames|]) == Due(payloads, d, k, i)
  }

  /** The timing before frame `k` is written; before the first one the offset is still to be set. */
  predicate InStep(c: Config, t: Timing, ts0: u32, d: nat, k: nat)
    requires c.Valid()
  {
    && t.readTs == c.frameTs * k && t.delay == c.frameTs * d
    && (if k == 0 then t.writeSync && t.writeTs == 0
        else !t.writeSync && t.offset == ts0 && t.writeTs == c.frameTs * (d + k))
  }

  /** The numbers stay in range. */
  predicate Ranges(c: Config, d: nat, n: nat)
  {
    c.Valid() && d < c.frameCount && c.frameSize > 0 && c.frameTs * (d + n + 1) < MOD32
  }

  lemma Sums(c: Config, d: nat, n: nat, k: nat)
    requires Ranges(c, d, n) && k < n
    ensures c.frameTs * k + c.frameTs * d == c.frameTs * (d + k)
    ensures c.frameTs * (d + k) + c.frameTs == c.frameTs * (d + k + 1) < MOD32
    ensures c.frameTs * k + c.frameTs == c.frameTs * (k + 1) <= c.frameTs * (d + k + 1)
    ensures c.frameTs * k <= c.frameTs * (d + k)
    ensures c.frameTs * (d + k) / c.frameTs == d + k && c.frameTs * (d + k) % c.frameTs == 0
    ensures c.frameTs * k / c.frameTs == k && c.frameTs * k % c.frameTs == 0 && c.frameTs * d / c.frameTs == d
  {
    Multiples.Distributed(c.frameTs, d + k, k);
    Multiples.Next(d + k, c.frameTs);
    Multiples.Next(k, c.frameTs);
    Multiples.Monotone(d + k + 1, d + n + 1, c.frameTs);
    Multiples.Monotone(k + 1, d + k + 1, c.frameTs);
    Multiples.Monotone(k, d + k, c.frameTs);
    Multiples.Multiple(d + k, c.frameTs);
    Multiples.Multiple(k, c.frameTs);
    Multiples.Multiple(d, c.frameTs);
  }

  // ----- writing one frame -----

  /** The timing after frame `k` was written, and before it is read. */
  predicate Written1(c: Config, t: Timing, ts0: u32, d: nat, k: nat)
  {
    && t.readTs == c.frameTs * k && t.delay == c.frameTs * d && !t.writeSync && t.offset == ts0
    && t.writeTs == c.frameTs * (d + k + 1)
  }

  /** It belongs `d` frames behind the reader. */
  lemma Belongs(c: Config, t: Timing, ts0: u32, d: nat, n: nat, k: nat, ts: u32)
    requires Ranges(c, d, n) && 0 < k < n && InStep(c, t, ts0, d, k) && ts == Wrap(ts0 + c.frameTs * k)
    ensures 0 <= c.frameTs * (d + k) < MOD32 && BelongsAt(c, t, ts, c.frameTs * (d + k))
  {
    Sums(c, d, n, k);
    OffsetLeaves(ts0, c.frameTs * k, c.frameTs * d);
  }

  lemma OffsetLeaves(ts0: u32, x: nat, y: nat)
    requires x + y < MOD32
    ensures (Wrap(ts0 + x) - ts0 + y) % 0x1_0000_0000 == x + y
  {
  }

  lemma TakesOne(c: Config, t: Timing, d: nat, n: nat, k: nat, payload: Octets)
    requires Ranges(c, d, n) && k < n && t.readTs == c.frameTs * k && |payload| == c.frameSize
    ensures 0 <= c.frameTs * (d + k) < MOD32 && Takes(c, t, c.frameTs * (d + k), payload, 1)
  {
    Sums(c, d, n, k);
    Multiples.Multiple(1, c.frameSize);
  }

  lemma PutTiming(c: Config, jb: Jb, payload: Octets, ts0: u32, d: nat, n: nat, k: nat)
    requires jb.Valid(c) && Ranges(c, d, n) && k < n && InStep(c, jb.t, ts0, d, k) && |payload| == c.frameSize
    ensures 0 <= c.frameTs * (d + k) < MOD32
    ensures var (r, result) := Written(c, jb, payload, Wrap(ts0 + c.frameTs * k), false);
            && result == Ok && Written1(c, r.t, ts0, d, k)
            && Stores(c, jb.frames, r.frames, c.frameTs * (d + k), 1, payload)
  {
    var ts := Wrap(ts0 + c.frameTs * k);
    Sums(c, d, n, k);
    TakesOne(c, jb.t, d, n, k, payload);
    if k == 0 {
      WrapExact(ts0);
      FirstAtDelay(c, jb, payload, ts, false, 1);
    } else {
      Belongs(c, jb.t, ts0, d, n, k, ts);
      InTime(c, jb, payload, ts, false, c.frameTs * (d + k), 1);
    }
  }

  /** The slot at index `d + k` was empty, and holds the frame now. */
  lemma StoredWaits(c: Config, frames: seq<Frame>, r: seq<Frame>, payloads: seq<Octets>, d: nat, k: nat)
    requires Ranges(c, d, |payloads|) && k < |payloads| && |payloads[k]| == c.frameSize
    requires Waiting(frames, payloads, d, k, k) && c.frameTs * (d + k) < MOD32
    requires Stores(c, frames, r, c.frameTs * (d + k), 1, payloads[k])
    ensures Waiting(r, payloads, d, k + 1, k)
  {
    var w := c.frameTs * (d + k);
    Sums(c, d, |payloads|, k);
    assert StoresOne(c, frames, r, w, 0, payloads[k]);
    assert payloads[k][0 * c.frameSize..(0 + 1) * c.frameSize] == payloads[k];
    forall i | k <= i < k + |r| ensures Content(r[i % |r|]) == Due(payloads, d, k + 1, i) {
      if i == d + k {
        assert Content(frames[i % |frames|]) == NOTHING;
      } else {
        OtherSlot(k, i, d + k, |r|);
        NotHitByOne(c, w, i % |r|);
      }
    }
  }

  lemma OtherSlot(from: nat, i: nat, j: nat, n: nat)
    requires from <= i < from + n && from <= j < from + n && i != j
    ensures i % n != j % n
  {
    if i < j {
      Playout.LiveSlotsDistinct(from, i, j, n);
    } else {
      Playout.LiveSlotsDistinct(from, j, i, n);
    }
  }

  lemma NotHitByOne(c: Config, w: u32, i: nat)
    requires c.Valid() && SlotHit(c, w, 0) != i
    ensures !Hit(c, w, 1, i)
  {
  }

  // ----- reading one -----

  lemma ReadWaits(c: Config, jb: Jb, payloads: seq<Octets>, ts0: u32, d: nat, k: nat)
    requires jb.Valid(c) && Ranges(c, d, |payloads|) && k < |payloads| && Written1(c, jb.t, ts0, d, k)
    requires Waiting(jb.frames, payloads, d, k + 1, k)
    ensures var (r, frame) := ReadFrom(c, jb);
            && frame == Due(payloads, d, k + 1, k) && InStep(c, r.t, ts0, d, k + 1)
            && Waiting(r.frames, payloads, d, k + 1, k + 1)
  {
    Sums(c, d, |payloads|, k);
    AddExact(jb.t.readTs, c.frameTs);
    var i := k % c.frameCount;
    assert SlotOf(c, jb.t.readTs) == i;
    ClearedWaits(jb.frames, payloads, d, k);
  }

  lemma ClearedWaits(frames: seq<Frame>, payloads: seq<Octets>, d: nat, k: nat)
    requires k < |payloads| && Waiting(frames, payloads, d, k + 1, k) && d < |frames|
    ensures Waiting(frames[k % |frames| := Cleared(frames[k % |frames|])], payloads, d, k + 1, k + 1)
  {
    var n := |frames|;
    var r := frames[k % n := Cleared(frames[k % n])];
    forall i | k + 1 <= i < k + 1 + n ensures Content(r[i % n]) == Due(payloads, d, k + 1, i) {
      if i < k + n {
        OtherSlot(k, i, k, n);
      } else {
        Playout.WrapsAround(k, n);
      }
    }
  }

  // ----- the stream -----

  function Right(payloads: seq<Octets>, d: nat, i: nat): (JbResult, MediaFrame)
    requires i < |payloads|
  {
    (Ok, if i < d then NOTHING else Heard(payloads[i - d]))
  }

  /** The answers from frame `k` on. */
  predicate AllRight(a: seq<(JbResult, MediaFrame)>, payloads: seq<Octets>, d: nat, k: nat)
  {
    k + |a| == |payloads| && forall j | 0 <= j < |a| :: a[j] == Right(payloads, d, k + j)
  }

  lemma RightFirst(b: seq<(JbResult, MediaFrame)>, payloads: seq<Octets>, d: nat, k: nat)
    requires k < |payloads| && AllRight(b, payloads, d, k + 1)
    ensures AllRight([Right(payloads, d, k)] + b, payloads, d, k)
  {
    var a := [Right(payloads, d, k)] + b;
    forall j | 0 <= j < |a| ensures a[j] == Right(payloads, d, k + j) {
      if j > 0 {
        assert a[j] == b[j - 1];
      }
    }
  }

  lemma AnswersFirst(c: Config, jb: Jb, ts: u32, payloads: seq<Octets>, n: Jb, answer: (JbResult, MediaFrame))
    requires jb.Valid(c) && n.Valid(c) && payloads != [] && Round(c, jb, payloads[0], ts) == (n, answer.0, answer.1)
    ensures Answers(c, jb, ts, payloads) == [answer] + Answers(c, n, Add(ts, c.frameTs), payloads[1..])
  {
  }

  lemma RoundRight(c: Config, jb: Jb, payloads: seq<Octets>, ts0: u32, d: nat, k: nat)
    requires jb.Valid(c) && Ranges(c, d, |payloads|) && k < |payloads| && |payloads[k]| == c.frameSize
    requires InStep(c, jb.t, ts0, d, k) && Waiting(jb.frames, payloads, d, k, k)
    ensures var (n, result, frame) := Round(c, jb, payloads[k], Wrap(ts0 + c.frameTs * k));
            && result == Ok && frame == (if k < d then NOTHING else Heard(payloads[k - d]))
            && InStep(c, n.t, ts0, d, k + 1) && Waiting(n.frames, payloads, d, k + 1, k + 1)
  {
    PutTiming(c, jb, payloads[k], ts0, d, |payloads|, k);
    var w := Written(c, jb, payloads[k], Wrap(ts0 + c.frameTs * k), false).0;
    StoredWaits(c, jb.frames, w.frames, payloads, d, k);
    ReadWaits(c, w, payloads, ts0, d, k);
  }

  lemma NextTs(ts0: u32, x: nat, step: u32)
    ensures Add(Wrap(ts0 + x), step) == Wrap(ts0 + (x + step))
  {
  }

  lemma {:induction false} StreamFrom(c: Config, jb: Jb, payloads: seq<Octets>, ts0: u32, d: nat, k: nat, ts: u32)
    requires jb.Valid(c) && Ranges(c, d, |payloads|) && k <= |payloads| && ts == Wrap(ts0 + c.frameTs * k)
    requires forall i | 0 <= i < |payloads| :: |payloads[i]| == c.frameSize
    requires InStep(c, jb.t, ts0, d, k) && Waiting(jb.frames, payloads, d, k, k)
    ensures AllRight(Answers(c, jb, ts, payloads[k..]), payloads, d, k)
    decreases |payloads| - k
  {
    if k < |payloads| {
      RoundRight(c, jb, payloads, ts0, d, k);
      var n := Round(c, jb, payloads[k], ts).0;
      Multiples.Next(k, c.frameTs);
      NextTs(ts0, c.frameTs * k, c.frameTs);
      StreamFrom(c, n, payloads, ts0, d, k + 1, Add(ts, c.frameTs));
      assert payloads[k..][1..] == payloads[k + 1..] && payloads[k..][0] == payloads[k];
      AnswersFirst(c, jb, ts, payloads[k..], n, Right(payloads, d, k));
      RightFirst(Answers(c, n, Add(ts, c.frameTs), payloads[k + 1..]), payloads, d, k);
    }
  }

  /** From a created buffer on, with a playout delay of `d` frames that is less than the
      ring holds: every frame of a stream at the reader's pace is taken, whatever its first
      timestamp, and heard in its turn `d` reads later. */
  lemma SteadyStream(c: Config, jb: Jb, payloads: seq<Octets>, ts0: u32, d: nat)
    requires IsCreated(c, jb) && Ranges(c, d, |payloads|) && c.initialDelayTs == c.frameTs * d
    requires forall i | 0 <= i < |payloads| :: |payloads[i]| == c.frameSize
    ensures forall i | 0 <= i < |payloads| ::
              Answers(c, jb, ts0, payloads)[i] == (Ok, if i < d then NOTHING else Heard(payloads[i - d]))
  {
    assert payloads[0..] == payloads;
    WrapExact(ts0);
    CreatedWaits(c, jb, payloads, d);
    StreamFrom(c, jb, payloads, ts0, d, 0, ts0);
    var a := Answers(c, jb, ts0, payloads);
    forall i | 0 <= i < |payloads| ensures a[i] == (Ok, if i < d then NOTHING else Heard(payloads[i - d])) {
      assert a[i] == Right(payloads, d, 0 + i);
    }
  }

  lemma CreatedWaits(c: Config, jb: Jb, payloads: seq<Octets>, d: nat)
    requires IsCreated(c, jb)
    ensures Waiting(jb.frames, payloads, d, 0, 0)
  {
  }
}
