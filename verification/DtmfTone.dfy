/** The packets of one digit, told by counting frames: durations, segments of a long tone,
    the end of the event and its repetitions, and the silence (section 2.5 of RFC 4733). */
module DtmfTone {
  import opened Machine
  import opened Dtmf
  import DtmfEndToEnd
  import Multiples

  /** The event of a digit is its place among all the digits. */
  lemma EventTable(id: nat)
    requires id < 16
    ensures EventIdToChar(id) == "0123456789*#ABCD"[id] && CharToEventId("0123456789*#ABCD"[id]) == id
  {
  }

  /** The tone takes `n` frames: the first number of them that reaches its duration. */
  predicate TakesFrames(t: Times, n: nat)
  {
    n >= 1 && t.frame * n >= t.tone && (n > 1 ==> t.frame * (n - 1) < t.tone)
  }

  /** A segment takes `m` frames: with the last of them its duration passes 0xFFFF. */
  predicate SegmentFrames(t: Times, m: nat)
  {
    m >= 1 && t.frame * m > 0xFFFF && t.frame * (m - 1) <= 0xFFFF
  }

  /** The silence takes `s` frames, counted from the two repetitions on. */
  predicate SilentFrames(t: Times, s: nat)
  {
    s >= 1 && t.frame * (s + 2) >= t.silence && (s > 1 ==> t.frame * (s + 1) < t.silence)
  }

  function Capped(x: nat): u16 { if x > 0xFFFF then 0xFFFF else x }

  /** What the k-th frame of a tone of `n` frames carries, the first being number zero. */
  function ToneFrameOf(t: Times, id: byte, n: nat, m: nat, k: nat): Frame
    requires m >= 1
  {
    var marker := if k + 1 == n then EndOfEvent
                  else if k == 0 then StartOfEvent
                  else if k % m == 0 then NewSegment
                  else NoMarker;
    Dtmf.Frame(true, marker, id, k + 1 == n, Capped(t.frame * (k % m + 1)))
  }

  /** What both repetitions of the last frame carry: the most there can be, once the tone
      has filled a segment with its last frame or with the one before. */
  function RepeatedDuration(t: Times, n: nat, m: nat): u16
    requires m >= 1 && n >= 1
  {
    if n % m == 0 || (n > 1 && (n - 1) % m == 0) then 0xFFFF else Capped(t.frame * (n % m))
  }

  /** What the generator puts into blank frames, and how it is left. */
  function Put(g: Gen, t: Times, k: nat): (Gen, Frame, bool)
    decreases k
  {
    if k == 0 then PutFrame(g, t, BLANK) else Put(PutFrame(g, t, BLANK).0, t, k - 1)
  }

  // ----- the tone -----

  /** The tone after `k` frames. */
  predicate ToneAt(g: Gen, t: Times, m: nat, k: nat)
    requires m >= 1
  {
    && g.state == Tone && g.counter == t.frame * k && g.duration == t.frame * (k % m)
    && g.newSegment == (k > 0 && k % m == 0) && g.since == if k == 0 then 10 else 0
  }

  lemma NextPlace(k: nat, m: nat)
    requires m >= 1
    ensures (k + 1) % m == if k % m + 1 == m then 0 else k % m + 1
  {
    if k % m + 1 == m {
      Multiples.Next(k / m, m);
      Multiples.Quotient(k + 1, k / m + 1, 0, m);
    } else {
      Multiples.Quotient(k + 1, k / m, k % m + 1, m);
    }
  }

  /** `n` steps are the first to reach `goal`: so is each of them told from the last. */
  lemma Reaches(step: nat, goal: nat, n: nat, k: nat)
    requires step > 0 && step * n >= goal && (n > 1 ==> step * (n - 1) < goal) && k < n
    ensures step * k + step == step * (k + 1)
    ensures step * (k + 1) >= goal <==> k + 1 == n
    ensures step * (k + 1) == step <==> k == 0
    ensures k > 0 ==> step * k < goal
  {
    Multiples.Next(k, step);
    if k + 1 < n {
      Multiples.Monotone(k + 1, n - 1, step);
    }
    if k > 0 {
      Multiples.Monotone(1, k, step);
      Multiples.Monotone(k, n - 1, step);
    }
  }

  /** The counters of one more frame. */
  lemma Counts(t: Times, n: nat, m: nat, k: nat)
    requires DtmfEndToEnd.Fits(t) && TakesFrames(t, n) && SegmentFrames(t, m) && k < n
    ensures t.frame * k + t.frame == t.frame * (k + 1) < 0x1_0000_0000
    ensures t.frame * (k % m) + t.frame == t.frame * (k % m + 1) < 0x1_0000_0000
    ensures t.frame * (k + 1) >= t.tone <==> k + 1 == n
    ensures t.frame * (k % m + 1) > 0xFFFF <==> k % m + 1 == m
    ensures t.frame * (k + 1) == t.frame <==> k == 0
  {
    Reaches(t.frame, t.tone, n, k);
    Reaches(t.frame, 0x1_0000, m, k % m);
  }

  lemma ToneGoesOn(g: Gen, t: Times, n: nat, m: nat, k: nat)
    requires DtmfEndToEnd.Fits(t) && TakesFrames(t, n) && SegmentFrames(t, m) && k + 1 < n && ToneAt(g, t, m, k)
    ensures var (r, f, filled) := PutFrame(g, t, BLANK);
            && filled && ToneAt(r, t, m, k + 1) && r.id == g.id && r.queue == g.queue
            && f == ToneFrameOf(t, g.id, n, m, k)
  {
    Counts(t, n, m, k);
    NextPlace(k, m);
    WrapExact(t.frame * (k + 1));
    WrapExact(t.frame * (k % m + 1));
  }

  /** The end of the tone before `k` repetitions. */
  predicate EndingAt(g: Gen, t: Times, n: nat, m: nat, k: nat)
    requires m >= 1 && n >= 1
  {
    && g.state == Ending && g.counter == k && g.since == 0
    && g.newSegment == (n % m == 0 || (n > 1 && (n - 1) % m == 0))
    && (!g.newSegment ==> g.duration == t.frame * (n % m) <= 0xFFFF)
  }

  lemma ToneEnds(g: Gen, t: Times, n: nat, m: nat)
    requires DtmfEndToEnd.Fits(t) && TakesFrames(t, n) && SegmentFrames(t, m) && ToneAt(g, t, m, n - 1)
    ensures var (r, f, filled) := PutFrame(g, t, BLANK);
            && filled && EndingAt(r, t, n, m, 0) && r.id == g.id && r.queue == g.queue
            && f == ToneFrameOf(t, g.id, n, m, n - 1)
  {
    Counts(t, n, m, n - 1);
    NextPlace(n - 1, m);
    WrapExact(t.frame * n);
    WrapExact(t.frame * ((n - 1) % m + 1));
  }

  lemma Repeats(g: Gen, t: Times, n: nat, m: nat, k: nat)
    requires DtmfEndToEnd.Fits(t) && m >= 1 && n >= 1 && k < 2 && EndingAt(g, t, n, m, k)
    ensures var (r, f, filled) := PutFrame(g, t, BLANK);
            && filled && r.id == g.id && r.queue == g.queue
            && f == Dtmf.Frame(true, EndOfEvent, g.id, true, RepeatedDuration(t, n, m))
            && (if k == 0 then EndingAt(r, t, n, m, 1) else r.state == Silence && r.counter == t.frame * 2)
  {
    WrapExact(k + 1);
    WrapExact(2 * t.frame);
  }

  lemma StaysSilent(g: Gen, t: Times, s: nat, k: nat)
    requires DtmfEndToEnd.Fits(t) && SilentFrames(t, s) && k < s && g.state == Silence && g.counter == t.frame * (k + 2)
    ensures var (r, f, filled) := PutFrame(g, t, BLANK);
            && !filled && f == BLANK && r.queue == g.queue && r.counter == t.frame * (k + 3)
            && r.state == if k + 1 == s then Idle else Silence
  {
    Multiples.Next(k + 2, t.frame);
    if k + 1 < s {
      Multiples.Monotone(k + 3, s + 1, t.frame);
    }
    Multiples.Monotone(k + 2, s + 1, t.frame);
    WrapExact(t.frame * (k + 3));
  }

  // ----- from one digit to the next -----

  /** An idle generator whose next digit is valid. */
  predicate Begins(g: Gen) { g.state == Idle && g.queue != "" && IsDigit(g.queue[0]) }

  lemma Start(g: Gen, t: Times, m: nat)
    requires Begins(g) && m >= 1
    ensures var s := Ready(g);
            && ToneAt(s, t, m, 0) && s.queue == g.queue[1..] && s.id == CharToEventId(g.queue[0])
            && PutFrame(g, t, BLANK) == PutFrame(s, t, BLANK)
  {
  }

  /** Frame `k` of the tone, and how the generator is left. */
  predicate IsToneFrame(g: Gen, t: Times, n: nat, m: nat, k: nat, out: (Gen, Frame, bool))
    requires m >= 1 && n >= 1
  {
    var (r, f, filled) := out;
    && filled && f == ToneFrameOf(t, g.id, n, m, k) && r.id == g.id && r.queue == g.queue
    && (if k + 1 < n then ToneAt(r, t, m, k + 1) else EndingAt(r, t, n, m, 0))
  }

  lemma NextToneFrame(g: Gen, t: Times, n: nat, m: nat, k: nat)
    requires DtmfEndToEnd.Fits(t) && TakesFrames(t, n) && SegmentFrames(t, m) && k < n && ToneAt(g, t, m, k)
    ensures IsToneFrame(g, t, n, m, k, PutFrame(g, t, BLANK))
  {
    if k + 1 < n {
      ToneGoesOn(g, t, n, m, k);
    } else {
      ToneEnds(g, t, n, m);
    }
  }

  /** How a generator in the tone goes on. */
  lemma {:induction false} ToneFrames(g: Gen, t: Times, n: nat, m: nat, from: nat, k: nat)
    requires DtmfEndToEnd.Fits(t) && TakesFrames(t, n) && SegmentFrames(t, m) && from + k < n && ToneAt(g, t, m, from)
    ensures IsToneFrame(g, t, n, m, from + k, Put(g, t, k))
    decreases k
  {
    NextToneFrame(g, t, n, m, from);
    if k > 0 {
      ToneFrames(PutFrame(g, t, BLANK).0, t, n, m, from + 1, k - 1);
    }
  }

  lemma {:induction false} SilentAfter(g: Gen, t: Times, s: nat, from: nat, k: nat)
    requires DtmfEndToEnd.Fits(t) && SilentFrames(t, s) && from + k < s
    requires g.state == Silence && g.counter == t.frame * (from + 2)
    ensures var (r, f, filled) := Put(g, t, k);
            && !filled && f == BLANK && r.queue == g.queue
            && r.state == if from + k + 1 == s then Idle else Silence
    decreases k
  {
    StaysSilent(g, t, s, from);
    if k > 0 {
      SilentAfter(PutFrame(g, t, BLANK).0, t, s, from + 1, k - 1);
    }
  }

  /** Frames behind the first `j`. */
  lemma {:induction false} PutLater(g: Gen, t: Times, j: nat, k: nat)
    ensures Put(g, t, j + 1 + k) == Put(Put(g, t, j).0, t, k)
    decreases j
  {
    if j > 0 {
      PutLater(PutFrame(g, t, BLANK).0, t, j - 1, k);
    }
  }

  /** Frame `k` of a digit: the tone, the last frame of it twice more, and silence, behind
      which the generator is idle. */
  predicate IsDigitFrame(t: Times, id: byte, rest: string, n: nat, m: nat, s: nat, k: nat, out: (Gen, Frame, bool))
    requires m >= 1 && n >= 1
  {
    var (r, f, filled) := out;
    && filled == (k < n + 2) && r.queue == rest && (r.state == Idle <==> k + 1 == n + 2 + s)
    && f == if k < n then ToneFrameOf(t, id, n, m, k)
            else if k < n + 2 then Dtmf.Frame(true, EndOfEvent, id, true, RepeatedDuration(t, n, m))
            else BLANK
  }

  /** What the k-th frame from an idle generator on carries, if its next digit is valid. */
  lemma DigitFrames(g: Gen, t: Times, n: nat, m: nat, s: nat, k: nat)
    requires DtmfEndToEnd.Fits(t) && TakesFrames(t, n) && SegmentFrames(t, m) && SilentFrames(t, s)
    requires Begins(g) && k < n + 2 + s
    ensures IsDigitFrame(t, CharToEventId(g.queue[0]), g.queue[1..], n, m, s, k, Put(g, t, k))
  {
    Start(g, t, m);
    SameStart(g, t, k);
    FramesFrom(Ready(g), t, n, m, s, k);
  }

  lemma FramesFrom(a: Gen, t: Times, n: nat, m: nat, s: nat, k: nat)
    requires DtmfEndToEnd.Fits(t) && TakesFrames(t, n) && SegmentFrames(t, m) && SilentFrames(t, s)
    requires ToneAt(a, t, m, 0) && k < n + 2 + s
    ensures IsDigitFrame(t, a.id, a.queue, n, m, s, k, Put(a, t, k))
  {
    if k < n {
      ToneFrames(a, t, n, m, 0, k);
      InTone(a, t, n, m, s, k, Put(a, t, k));
    } else {
      ToneFrames(a, t, n, m, 0, n - 1);
      BehindTone(a, t, n, m, s, k, Put(a, t, n - 1));
      FromLast(a, t, n, k);
    }
  }

  lemma FromLast(a: Gen, t: Times, n: nat, k: nat)
    requires 1 <= n <= k
    ensures Put(a, t, k) == Put(Put(a, t, n - 1).0, t, k - n)
  {
    PutLater(a, t, n - 1, k - n);
    assert n - 1 + 1 + (k - n) == k;
  }

  lemma InTone(a: Gen, t: Times, n: nat, m: nat, s: nat, k: nat, out: (Gen, Frame, bool))
    requires m >= 1 && k < n && IsToneFrame(a, t, n, m, k, out)
    ensures IsDigitFrame(t, a.id, a.queue, n, m, s, k, out)
  {
  }

  lemma BehindTone(a: Gen, t: Times, n: nat, m: nat, s: nat, k: nat, last: (Gen, Frame, bool))
    requires DtmfEndToEnd.Fits(t) && m >= 1 && SilentFrames(t, s) && 1 <= n <= k < n + 2 + s
    requires IsToneFrame(a, t, n, m, n - 1, last)
    ensures IsDigitFrame(t, a.id, a.queue, n, m, s, k, Put(last.0, t, k - n))
  {
    AfterTone(last.0, t, n, m, s, k - n);
  }

  lemma SameStart(g: Gen, t: Times, k: nat)
    requires PutFrame(g, t, BLANK) == PutFrame(Ready(g), t, BLANK)
    ensures Put(g, t, k) == Put(Ready(g), t, k)
  {
  }

  lemma AfterTone(g: Gen, t: Times, n: nat, m: nat, s: nat, k: nat)
    requires DtmfEndToEnd.Fits(t) && m >= 1 && n >= 1 && SilentFrames(t, s) && EndingAt(g, t, n, m, 0) && k < 2 + s
    ensures var (r, f, filled) := Put(g, t, k);
            && filled == (k < 2) && r.queue == g.queue
            && f == (if k < 2 then Dtmf.Frame(true, EndOfEvent, g.id, true, RepeatedDuration(t, n, m)) else BLANK)
            && (r.state == Idle <==> k + 1 == 2 + s)
  {
    Repeats(g, t, n, m, 0);
    var h := PutFrame(g, t, BLANK).0;
    Repeats(h, t, n, m, 1);
    var q := PutFrame(h, t, BLANK).0;
    assert Put(g, t, 1) == PutFrame(h, t, BLANK);
    if k >= 2 {
      PutLater(g, t, 1, k - 2);
      SilentAfter(q, t, s, 0, k - 2);
    }
  }

  // ----- what that means -----

  /** A tone of one segment: the durations grow frame by frame, and the last frame and both
      repetitions carry the whole of it. */
  lemma OneSegment(t: Times, id: byte, n: nat, m: nat, k: nat)
    requires m >= 1 && t.frame * n <= 0xFFFF && SegmentFrames(t, m) && k < n
    ensures ToneFrameOf(t, id, n, m, k).duration == t.frame * (k + 1)
    ensures ToneFrameOf(t, id, n, m, k).marker != NewSegment
    ensures ToneFrameOf(t, id, n, m, n - 1).duration == RepeatedDuration(t, n, m) == t.frame * n
  {
    if m <= n {
      Multiples.Monotone(m, n, t.frame);
    }
    Multiples.Quotient(k, 0, k, m);
    Multiples.Quotient(n - 1, 0, n - 1, m);
    Multiples.Quotient(n, 0, n, m);
    Multiples.Monotone(k + 1, n, t.frame);
  }

  /** The repetitions carry the duration of the last frame, unless that is the first of a
      new segment: they carry 0xFFFF then, while the frame itself does only if one frame
      reaches that. */
  lemma RepeatsAgreeIff(t: Times, id: byte, n: nat, m: nat)
    requires n >= 1 && SegmentFrames(t, m)
    ensures ToneFrameOf(t, id, n, m, n - 1).duration == RepeatedDuration(t, n, m) <==>
            n == 1 || (n - 1) % m != 0 || t.frame >= 0xFFFF
  {
    NextPlace(n - 1, m);
    var i := (n - 1) % m + 1;
    if i < m {
      Multiples.Monotone(i, m - 1, t.frame);
    }
  }

  // ----- the limits -----

  /** 32 characters wait at most; digits that do not all find room are refused together. */
  lemma QueueHolds(g: Gen, digits: string)
    ensures var (r, ok) := Enqueued(g, digits);
            && (ok <==> |g.queue| + |digits| <= 32)
            && r == if ok then g.(queue := g.queue + digits) else g
  {
  }

  /** A detector keeps 32 digits; those that come after are counted as lost. */
  lemma BufferHolds(d: Det, c: char)
    requires c != '\0'
    ensures DigitAdded(d, c) == if |d.digits| < 32 then Det(d.digits + [c], d.lost) else Det(d.digits, d.lost + 1)
  {
  }

  /** With nothing to send a frame is left as it is. */
  lemma NothingToSend(g: Gen, t: Times, f: Dtmf.Frame)
    requires g.state == Idle && g.queue == ""
    ensures PutFrame(g, t, f) == (g, f, false)
  {
  }
}
