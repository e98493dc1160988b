/** Out-of-band DTMF: a generator that turns queued digits into named events, frame
    by frame, and a detector that turns event frames back into digits. */
module Dtmf {
  import opened Machine

  const QUEUE_LEN := 32
  const BUFFER_LEN := 32
  const EVENT_ID_MAX := 15
  const EVENT_VOLUME := 10
  const FRAME_TIME := 10 // ms, also how often an event packet is issued
  const NO_EVENT: byte := 255

  // ----- characters and event ids -----

  function CharToEventId(c: char): byte
  {
    if '0' <= c <= '9' then (c - '0') as int
    else if c == '*' then 10
    else if c == '#' then 11
    else if 'A' <= c <= 'D' then 12 + (c - 'A') as int
    else NO_EVENT
  }

  /** Zero for what is not a DTMF event. */
  function EventIdToChar(id: byte): char
  {
    if id <= 9 then '0' + id as char
    else if id == 10 then '*'
    else if id == 11 then '#'
    else if id <= 15 then 'A' + (id - 12) as char
    else '\0'
  }

  predicate IsDigit(c: char) { CharToEventId(c) <= EVENT_ID_MAX }

  lemma EventIdsInvertChars(c: char, id: byte)
    ensures IsDigit(c) ==> EventIdToChar(CharToEventId(c)) == c != '\0'
    ensures id <= EVENT_ID_MAX ==> CharToEventId(EventIdToChar(id)) == id
    ensures id > EVENT_ID_MAX ==> EventIdToChar(id) == '\0'
  {
  }

  // ----- the generator -----

  datatype State = Idle | Tone | Ending | Silence

  datatype Marker = NoMarker | StartOfEvent | EndOfEvent | NewSegment

  /** What of a media frame concerns named events. */
  datatype Frame = Frame(isEvent: bool, marker: Marker, id: byte, edge: bool, duration: u16)

  const BLANK := Frame(false, NoMarker, 0, false, 0)

  datatype Times = Times(tone: u32, silence: u32, frame: u32)

  datatype Gen = Gen(state: State, queue: string, id: byte, counter: u32, duration: u32, newSegment: bool, since: u32)

  /** Digits are taken off the queue up to the first valid one. */
  function NextDigit(g: Gen): (r: Gen)
    requires g.queue != ""
    decreases |g.queue|
  {
    var g := g.(id := CharToEventId(g.queue[0]), queue := g.queue[1..]);
    if g.queue != "" && g.id > EVENT_ID_MAX then NextDigit(g) else g
  }

  function Started(g: Gen): Gen
  {
    if g.id > EVENT_ID_MAX then g
    else g.(state := Tone, counter := 0, duration := 0, since := FRAME_TIME, newSegment := false)
  }

  function Ready(g: Gen): Gen
  {
    if g.state == Idle && g.queue != "" then Started(NextDigit(g)) else g
  }

  function Clipped(duration: u32): u16 { if duration > 0xFFFF then 0xFFFF else duration }

  /** The last frame of the tone. */
  function ToneEnd(g: Gen): (Gen, Frame)
  {
    var long := g.duration > 0xFFFF;
    (g.(state := Ending, counter := 0, newSegment := if long then true else g.newSegment,
        duration := if long then 0 else g.duration),
     Frame(true, EndOfEvent, g.id, true, Clipped(g.duration)))
  }

  /** Any other frame; a tone that is too long goes on in a new segment. */
  function ToneFrame(g: Gen, t: Times): (Gen, Frame)
  {
    var first, long := g.counter == t.frame, g.duration > 0xFFFF;
    (g.(newSegment := long || (first && g.newSegment), duration := if long then 0 else g.duration),
     Frame(true, if first then StartOfEvent else if g.newSegment then NewSegment else NoMarker,
           g.id, false, Clipped(g.duration)))
  }

  function PutTone(g: Gen, t: Times, f: Frame): (Gen, Frame)
  {
    var g := g.(counter := Wrap(g.counter + t.frame), duration := Wrap(g.duration + t.frame),
                since := Wrap(g.since + FRAME_TIME));
    if g.since < FRAME_TIME then (g, f)
    else if g.counter >= t.tone then ToneEnd(g.(since := 0))
    else ToneFrame(g.(since := 0), t)
  }

  /** The final frame is sent again twice. */
  function PutEnding(g: Gen, t: Times, f: Frame): (Gen, Frame)
  {
    var g := g.(since := Wrap(g.since + FRAME_TIME));
    if g.since < FRAME_TIME then (g, f)
    else
      var counter := Wrap(g.counter + 1);
      (if counter >= 2 then g.(since := 0, state := Silence, counter := Wrap(counter * t.frame))
       else g.(since := 0, counter := counter),
       Frame(true, EndOfEvent, g.id, true, if g.newSegment then 0xFFFF else g.duration % 0x1_0000))
  }

  function PutSilence(g: Gen, t: Times): Gen
  {
    var counter := Wrap(g.counter + t.frame);
    g.(counter := counter, state := if counter >= t.silence then Idle else Silence)
  }

  /** One frame; the last result tells whether the frame was filled. */
  function PutFrame(g: Gen, t: Times, f: Frame): (Gen, Frame, bool)
  {
    var g := Ready(g);
    match g.state
    case Idle => (g, f, false)
    case Tone => var (g, f) := PutTone(g, t, f); (g, f, true)
    case Ending => var (g, f) := PutEnding(g, t, f); (g, f, true)
    case Silence => (PutSilence(g, t), f, false)
  }

  /** All the digits, or none. */
  function Enqueued(g: Gen, digits: string): (Gen, bool)
  {
    if |g.queue| + |digits| > QUEUE_LEN then (g, false) else (g.(queue := g.queue + digits), true)
  }

  class Generator {
    const times: Times
    var state: State
    var queue: string
    var eventId: byte
    var counter: u32
    var eventDuration: u32
    var newSegment: bool
    var sinceLastEvent: u32

    function Value(): Gen
      reads this
    {
      Gen(state, queue, eventId, counter, eventDuration, newSegment, sinceLastEvent)
    }

    /** The durations are in units of the event clock; a frame takes ten milliseconds. */
    constructor (sampleRate: u32, toneMs: u32, silenceMs: u32)
      ensures state == Idle && queue == ""
      ensures times == Times(Wrap(sampleRate / 1000 * toneMs), Wrap(sampleRate / 1000 * silenceMs),
                             Wrap(sampleRate / 1000 * FRAME_TIME))
    {
      state, queue := Idle, "";
      times := Times(Wrap(sampleRate / 1000 * toneMs), Wrap(sampleRate / 1000 * silenceMs),
                     Wrap(sampleRate / 1000 * FRAME_TIME));
    }

    method Enqueue(digits: string) returns (ok: bool)
      modifies this`queue
      ensures (Value(), ok) == Enqueued(old(Value()), digits)
    {
      ok := |queue| + |digits| <= QUEUE_LEN;
      if ok {
        queue := queue + digits;
      }
    }

    method DigitTake()
      requires queue != ""
      modifies this`queue, this`eventId
      ensures Value() == NextDigit(old(Value()))
    {
      ghost var next := NextDigit(Value());
      eventId, queue := CharToEventId(queue[0]), queue[1..];
      while queue != "" && eventId > EVENT_ID_MAX
        invariant next == if queue != "" && eventId > EVENT_ID_MAX then NextDigit(Value()) else Value()
        decreases |queue|
      {
        eventId, queue := CharToEventId(queue[0]), queue[1..];
      }
    }

    method Prepare()
      modifies this
      ensures Value() == Ready(old(Value()))
    {
      if state == Idle && queue != "" {
        DigitTake();
        if eventId <= EVENT_ID_MAX {
          state, counter, eventDuration, sinceLastEvent, newSegment := Tone, 0, 0, FRAME_TIME, false;
        }
      }
    }

    method TonePut(f: Frame) returns (r: Frame)
      modifies this
      ensures (Value(), r) == PutTone(old(Value()), times, f)
    {
      counter, eventDuration, sinceLastEvent :=
        Wrap(counter + times.frame), Wrap(eventDuration + times.frame), Wrap(sinceLastEvent + FRAME_TIME);
      if sinceLastEvent < FRAME_TIME {
        return f;
      }
      sinceLastEvent := 0;
      if counter >= times.tone {
        r := Frame(true, EndOfEvent, eventId, true, Clipped(eventDuration));
        state, counter := Ending, 0;
        if eventDuration > 0xFFFF {
          newSegment, eventDuration := true, 0;
        }
      } else {
        var marker := NoMarker;
        if counter == times.frame {
          marker := StartOfEvent;
        } else if newSegment {
          marker, newSegment := NewSegment, false;
        }
        r := Frame(true, marker, eventId, false, Clipped(eventDuration));
        if eventDuration > 0xFFFF {
          eventDuration, newSegment := 0, true;
        }
      }
    }

    method EndingPut(f: Frame) returns (r: Frame)
      modifies this
      ensures (Value(), r) == PutEnding(old(Value()), times, f)
    {
      sinceLastEvent := Wrap(sinceLastEvent + FRAME_TIME);
      if sinceLastEvent < FRAME_TIME {
        return f;
      }
      sinceLastEvent, counter := 0, Wrap(counter + 1);
      r := Frame(true, EndOfEvent, eventId, true, if newSegment then 0xFFFF else eventDuration % 0x1_0000);
      if counter >= 2 {
        state, counter := Silence, Wrap(counter * times.frame);
      }
    }

    method FramePut(f: Frame) returns (r: Frame, filled: bool)
      modifies this
      ensures (Value(), r, filled) == PutFrame(old(Value()), times, f)
    {
      Prepare();
      r, filled := f, false;
      if state == Tone {
        r := TonePut(f);
        filled := true;
      } else if state == Ending {
        r := EndingPut(f);
        filled := true;
      } else if state == Silence {
        counter := Wrap(counter + times.frame);
        if counter >= times.silence {
          state := Idle;
        }
      }
    }
  }

  // ----- the detector -----

  datatype Det = Det(digits: string, lost: nat)

  function DigitAdded(d: Det, c: char): Det
  {
    if c == '\0' then d
    else if |d.digits| < BUFFER_LEN then d.(digits := d.digits + [c])
    else d.(lost := d.lost + 1)
  }

  predicate StartsDigit(f: Frame) { f.isEvent && f.id <= EVENT_ID_MAX && f.marker == StartOfEvent }

  function FrameSeen(d: Det, f: Frame): Det { if StartsDigit(f) then DigitAdded(d, EventIdToChar(f.id)) else d }

  function DigitGot(d: Det): (Det, char)
  {
    if d.digits == "" then (d, '\0') else (d.(digits := d.digits[1..]), d.digits[0])
  }

  class Detector {
    const buffer: array<char>
    var digits: nat
    var lostDigits: nat

    ghost predicate Valid()
      reads this, buffer
    {
      && buffer.Length == BUFFER_LEN + 1 && digits <= BUFFER_LEN && buffer[digits] == '\0'
      && forall k | 0 <= k < digits :: buffer[k] != '\0'
    }

    function Value(): Det
      requires digits <= buffer.Length
      reads this, buffer
    {
      Det(buffer[..digits], lostDigits)
    }

    constructor ()
      ensures Valid() && fresh(buffer) && Value() == Det("", 0)
    {
      buffer := new char[BUFFER_LEN + 1](_ => '\0');
      digits, lostDigits := 0, 0;
    }

    method DigitAdd(c: char)
      requires Valid()
      modifies this, buffer
      ensures Valid() && Value() == DigitAdded(old(Value()), c)
    {
      if c == '\0' {
        return;
      }
      if digits < BUFFER_LEN {
        buffer[digits] := c;
        digits := digits + 1;
        buffer[digits] := '\0';
      } else {
        lostDigits := lostDigits + 1;
      }
    }

    method FrameGet(f: Frame)
      requires Valid()
      modifies this, buffer
      ensures Valid() && Value() == FrameSeen(old(Value()), f)
    {
      if f.isEvent && f.id <= EVENT_ID_MAX && f.marker == StartOfEvent {
        DigitAdd(EventIdToChar(f.id));
      }
    }

    /** The rest of the string, with its terminator, moves to the front. */
    method DigitGet() returns (c: char)
      requires Valid()
      modifies this, buffer
      ensures Valid() && (Value(), c) == DigitGot(old(Value()))
    {
      c := buffer[0];
      if c != '\0' {
        forall k | 0 <= k < digits {
          buffer[k] := buffer[k + 1];
        }
        digits := digits - 1;
        assert buffer[..digits] == old(buffer[..digits])[1..];
      }
    }
  }
}
