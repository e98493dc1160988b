/** The generator and the detector together: exactly the valid digits that were
    queued are reported, once each and in order, and the generator runs dry. */
module DtmfEndToEnd {
  import opened Machine
  import opened Dtmf
  import Multiples
  import Sequences

  /** The clock ticks at all and no counter passes the 32-bit range. */
  predicate Fits(t: Times)
  {
    && t.frame > 0 && 3 * t.frame < 0x1_0000_0000
    && t.tone + t.frame < 0x1_0000_0000 && t.silence + t.frame < 0x1_0000_0000
  }

  function Digits(s: string): string
  {
    if s == "" then "" else (if IsDigit(s[0]) then [s[0]] else "") + Digits(s[1..])
  }

  lemma {:induction false} DigitsAppend(a: string, b: string)
    ensures Digits(a + b) == Digits(a) + Digits(b)
  {
    if a == "" {
      assert a + b == b;
    } else {
      assert (a + b)[0] == a[0] && (a + b)[1..] == a[1..] + b;
      DigitsAppend(a[1..], b);
      Sequences.Reassociate(if IsDigit(a[0]) then [a[0]] else "", Digits(a[1..]), Digits(b));
    }
  }

  // ----- both ends -----

  datatype Op = Enqueue(digits: string) | Tick | DigitGet

  /** `accepted` is all that was queued, `reported` all that the detector added,
      `consumed` what was fetched from it. */
  datatype Line = Line(g: Gen, d: Det, accepted: string, reported: string, consumed: string)

  function Ticked(t: Times, l: Line): Line
  {
    var (g, f, _) := PutFrame(l.g, t, BLANK);
    l.(g := g, d := FrameSeen(l.d, f), reported := l.reported + if StartsDigit(f) then [EventIdToChar(f.id)] else "")
  }

  function Step(t: Times, l: Line, op: Op): Line
  {
    match op
    case Enqueue(digits) =>
      var (g, ok) := Enqueued(l.g, digits); l.(g := g, accepted := l.accepted + if ok then digits else "")
    case Tick => Ticked(t, l)
    case DigitGet => var (d, c) := DigitGot(l.d); l.(d := d, consumed := l.consumed + if c != '\0' then [c] else "")
  }

  function Run(t: Times, l: Line, ops: seq<Op>): Line
    decreases |ops|
  {
    if ops == [] then l else Run(t, Step(t, l, ops[0]), ops[1..])
  }

  predicate Fresh(l: Line)
  {
    l.g.state == Idle && l.g.queue == "" && l.d == Det("", 0) && l.accepted == l.reported == l.consumed == ""
  }

  // ----- the generator over time -----

  /** While a tone is under way its counter has passed the first frame, and each
      frame issues a packet. */
  predicate Sound(g: Gen, t: Times)
  {
    && (g.state == Tone ==> t.frame <= g.counter < t.tone && g.since == 0 && g.id <= EVENT_ID_MAX)
    && (g.state == Ending ==> g.counter < 2 && g.since == 0)
    && (g.state == Silence ==> g.counter < t.silence || g.counter == 2 * t.frame)
    && (g.state != Idle ==> g.duration <= 0xFFFF)
  }

  /** A digit taken off the queue is the first valid one. */
  lemma {:induction false} NextDigitFirst(g: Gen)
    requires g.queue != ""
    ensures var n := NextDigit(g);
            && n == g.(queue := n.queue, id := n.id) && |n.queue| < |g.queue|
            && Digits(g.queue) == (if n.id <= EVENT_ID_MAX then [EventIdToChar(n.id)] else "") + Digits(n.queue)
            && (n.id > EVENT_ID_MAX ==> n.queue == "")
    decreases |g.queue|
  {
    var n := g.(id := CharToEventId(g.queue[0]), queue := g.queue[1..]);
    EventIdsInvertChars(g.queue[0], n.id);
    if n.queue != "" && n.id > EVENT_ID_MAX {
      NextDigitFirst(n);
    }
  }

  function Heard(f: Frame): string { if StartsDigit(f) then [EventIdToChar(f.id)] else "" }

  /** The first frame of a tone reports its digit unless it is the last one too. */
  lemma ToneStarts(g: Gen, t: Times)
    requires Fits(t) && g.state == Tone && g.counter == 0 && g.duration == 0 && g.since == FRAME_TIME
    requires g.id <= EVENT_ID_MAX
    ensures var (n, f) := PutTone(g, t, BLANK);
            && Sound(n, t) && n.queue == g.queue
            && Heard(f) == (if t.frame < t.tone then [EventIdToChar(g.id)] else "")
            && n.state == (if t.frame < t.tone then Tone else Ending)
            && n.counter == (if t.frame < t.tone then t.frame else 0)
  {
    WrapExact(t.frame);
  }

  lemma ToneGoesOn(g: Gen, t: Times)
    requires Fits(t) && Sound(g, t) && g.state == Tone
    ensures var (n, f) := PutTone(g, t, BLANK);
            && Sound(n, t) && n.queue == g.queue && Heard(f) == ""
            && (if g.counter + t.frame < t.tone then n.state == Tone && n.counter == g.counter + t.frame
                else n.state == Ending && n.counter == 0)
  {
    WrapExact(g.counter + t.frame);
    WrapExact(g.duration + t.frame);
  }

  lemma Ends(g: Gen, t: Times)
    requires Fits(t) && Sound(g, t) && g.state == Ending
    ensures var (n, f) := PutEnding(g, t, BLANK);
            && Sound(n, t) && n.queue == g.queue && Heard(f) == ""
            && (if g.counter == 0 then n.state == Ending && n.counter == 1
                else n.state == Silence && n.counter == 2 * t.frame)
  {
    WrapExact(2 * t.frame);
  }

  lemma Silences(g: Gen, t: Times)
    requires Fits(t) && Sound(g, t) && g.state == Silence
    ensures var n := PutSilence(g, t);
            && Sound(n, t) && n.queue == g.queue && n.counter == g.counter + t.frame
            && n.state == if g.counter + t.frame >= t.silence then Idle else Silence
  {
    WrapExact(g.counter + t.frame);
  }

  // ----- how long it takes -----

  function ToneTicks(t: Times, counter: nat): nat
    requires t.frame > 0
    decreases t.tone - counter
  {
    if counter + t.frame >= t.tone then 1 else 1 + ToneTicks(t, counter + t.frame)
  }

  function SilenceTicks(t: Times, counter: nat): nat
    requires t.frame > 0
    decreases t.silence - counter
  {
    if counter + t.frame >= t.silence then 1 else 1 + SilenceTicks(t, counter + t.frame)
  }

  function Rest(t: Times): nat
    requires t.frame > 0
  {
    SilenceTicks(t, 2 * t.frame)
  }

  /** Frames for one digit: the tone, the final packet twice more, the silence. */
  function PerDigit(t: Times): nat
    requires t.frame > 0
  {
    ToneTicks(t, 0) + 2 + Rest(t)
  }

  function StateTicks(g: Gen, t: Times): nat
    requires t.frame > 0
  {
    match g.state
    case Idle => 0
    case Tone => ToneTicks(t, g.counter) + 2 + Rest(t)
    case Ending => (if g.counter < 2 then 2 - g.counter else 0) + Rest(t)
    case Silence => SilenceTicks(t, g.counter)
  }

  function TicksLeft(g: Gen, t: Times): nat
    requires t.frame > 0
  {
    StateTicks(g, t) + PerDigit(t) * |g.queue|
  }

  predicate Drained(g: Gen) { g.state == Idle && g.queue == "" }

  // ----- one tick -----

  /** What a tick takes off the queue it reports, unless tones last one frame only. */
  predicate TickGood(g: Gen, t: Times)
    requires t.frame > 0
  {
    var (n, f, _) := PutFrame(g, t, BLANK);
    && Sound(n, t)
    && (t.frame < t.tone ==> Heard(f) + Digits(n.queue) == Digits(g.queue))
    && (t.frame >= t.tone ==> Heard(f) == "")
    && (if Drained(g) then Drained(n) else TicksLeft(n, t) < TicksLeft(g, t))
  }

  lemma TickStarts(g: Gen, t: Times)
    requires Fits(t) && g.state == Idle && g.queue != ""
    ensures TickGood(g, t)
  {
    NextDigitFirst(g);
    var n := NextDigit(g);
    Multiples.Ordered(|n.queue|, |g.queue|, PerDigit(t));
    if n.id <= EVENT_ID_MAX {
      var s := Started(n);
      ToneStarts(s, t);
      assert Ready(g) == s;
      assert StateTicks(s, t) == PerDigit(t);
    } else {
      assert Ready(g) == n;
    }
  }

  lemma TickKeeps(g: Gen, t: Times)
    requires Fits(t) && Sound(g, t)
    ensures TickGood(g, t)
  {
    match g.state
    case Idle => if g.queue != "" { TickStarts(g, t); }
    case Tone => ToneGoesOn(g, t);
    case Ending => Ends(g, t);
    case Silence => Silences(g, t);
  }

  // ----- the theorems -----

  predicate Subsequence(a: string, b: string)
    decreases |b|
  {
    a == ""
    || (b != "" && ((a[|a| - 1] == b[|b| - 1] && Subsequence(a[..|a| - 1], b[..|b| - 1]))
                    || Subsequence(a, b[..|b| - 1])))
  }

  predicate Inv(t: Times, l: Line)
  {
    && Sound(l.g, t) && |l.d.digits| <= BUFFER_LEN && '\0' !in l.d.digits
    && (t.frame < t.tone ==> l.reported + Digits(l.g.queue) == Digits(l.accepted))
    && (t.frame >= t.tone ==> l.reported == "")
    && |l.reported| == |l.consumed| + |l.d.digits| + l.d.lost
    && (l.d.lost == 0 ==> l.reported == l.consumed + l.d.digits)
    && Subsequence(l.consumed + l.d.digits, l.reported)
  }

  /** A reported digit goes to the buffer or is counted as lost. */
  lemma HeardInv(l: Line, c: char)
    requires c != '\0' && |l.d.digits| <= BUFFER_LEN && '\0' !in l.d.digits
    requires |l.reported| == |l.consumed| + |l.d.digits| + l.d.lost
    requires l.d.lost == 0 ==> l.reported == l.consumed + l.d.digits
    requires Subsequence(l.consumed + l.d.digits, l.reported)
    ensures var d, reported := DigitAdded(l.d, c), l.reported + [c];
            && |d.digits| <= BUFFER_LEN && '\0' !in d.digits
            && |reported| == |l.consumed| + |d.digits| + d.lost
            && (d.lost == 0 ==> reported == l.consumed + d.digits)
            && Subsequence(l.consumed + d.digits, reported)
  {
    var kept, reported := l.consumed + l.d.digits, l.reported + [c];
    assert reported[..|reported| - 1] == l.reported;
    if |l.d.digits| < BUFFER_LEN {
      assert l.consumed + DigitAdded(l.d, c).digits == kept + [c];
      assert (kept + [c])[..|kept + [c]| - 1] == kept;
    }
  }

  lemma TickInv(t: Times, l: Line)
    requires Fits(t) && Inv(t, l)
    ensures Inv(t, Ticked(t, l))
  {
    TickKeeps(l.g, t);
    var (g, f, _) := PutFrame(l.g, t, BLANK);
    HeardSeen(l, f);
    Sequences.Reassociate(l.reported, Heard(f), Digits(g.queue));
  }

  lemma HeardSeen(l: Line, f: Frame)
    requires |l.d.digits| <= BUFFER_LEN && '\0' !in l.d.digits
    requires |l.reported| == |l.consumed| + |l.d.digits| + l.d.lost
    requires l.d.lost == 0 ==> l.reported == l.consumed + l.d.digits
    requires Subsequence(l.consumed + l.d.digits, l.reported)
    ensures var d, reported := FrameSeen(l.d, f), l.reported + Heard(f);
            && |d.digits| <= BUFFER_LEN && '\0' !in d.digits
            && |reported| == |l.consumed| + |d.digits| + d.lost
            && (d.lost == 0 ==> reported == l.consumed + d.digits)
            && Subsequence(l.consumed + d.digits, reported)
  {
    if StartsDigit(f) {
      EventIdsInvertChars('0', f.id);
      assert EventIdToChar(f.id) != '\0';
      HeardInv(l, EventIdToChar(f.id));
    } else {
      assert l.reported + "" == l.reported;
    }
  }

  lemma StepInv(t: Times, l: Line, op: Op)
    requires Fits(t) && Inv(t, l)
    ensures Inv(t, Step(t, l, op))
  {
    match op
    case Tick => TickInv(t, l);
    case Enqueue(digits) =>
      DigitsAppend(l.g.queue, digits);
      DigitsAppend(l.accepted, digits);
      assert l.accepted + "" == l.accepted;
      assert l.reported + (Digits(l.g.queue) + Digits(digits)) == (l.reported + Digits(l.g.queue)) + Digits(digits);
    case DigitGet =>
      if l.d.digits != "" {
        assert l.d.digits[0] in l.d.digits;
        assert (l.consumed + [l.d.digits[0]]) + l.d.digits[1..] == l.consumed + l.d.digits;
      } else {
        assert l.consumed + "" == l.consumed;
      }
  }

  lemma {:induction false} RunInv(t: Times, l: Line, ops: seq<Op>)
    requires Fits(t) && Inv(t, l)
    ensures Inv(t, Run(t, l, ops))
    decreases |ops|
  {
    if ops != [] {
      StepInv(t, l, ops[0]);
      RunInv(t, Step(t, l, ops[0]), ops[1..]);
    }
  }

  /** Over any interleaving: with tones of more than one frame the digits reported
      are the valid ones that left the queue, in order; otherwise none is reported.
      Each is buffered, consumed or counted as lost. */
  lemma DigitsEndToEnd(t: Times, l: Line, ops: seq<Op>)
    requires Fits(t) && Fresh(l)
    ensures var r := Run(t, l, ops);
            && (t.frame < t.tone ==> r.reported + Digits(r.g.queue) == Digits(r.accepted))
            && (t.frame >= t.tone ==> r.reported == "")
            && |r.reported| == |r.consumed| + |r.d.digits| + r.d.lost
            && (r.d.lost == 0 ==> r.reported == r.consumed + r.d.digits)
            && Subsequence(r.consumed + r.d.digits, r.reported)
  {
    RunInv(t, l, ops);
  }

  function Ticks(n: nat): seq<Op> { if n == 0 then [] else [Tick] + Ticks(n - 1) }

  /** With nothing more queued the generator is idle with an empty queue after the
      frames of the digit under way and of the digits in the queue. */
  lemma {:induction false} GeneratorDrains(t: Times, l: Line, n: nat)
    requires Fits(t) && Sound(l.g, t) && n >= TicksLeft(l.g, t)
    ensures Drained(Run(t, l, Ticks(n)).g)
    decreases n
  {
    if n > 0 {
      TickKeeps(l.g, t);
      assert Ticks(n)[1..] == Ticks(n - 1);
      GeneratorDrains(t, Ticked(t, l), n - 1);
    } else if !Drained(l.g) {
      TickKeeps(l.g, t);
    }
  }
}
