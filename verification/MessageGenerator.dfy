/** The message generator: a message is printed into one buffer after another, the
    head into the first, the body into as many as it takes. */
module MessageGenerator {
  import opened TextStream
  import opened TextMessage
  import opened MessageParser
  import opened Segmentation
  import opened Printing
  import opened Delivery

  /** How far a message is: `length` is how much of the body is written, or all of it
      before the message is begun. */
  datatype Progress = Progress(stage: Stage, contentLength: nat, length: nat)
  {
    predicate Valid(m: Message)
    {
      length <= |m.body| && (stage == Body ==> contentLength <= |m.body|)
    }
  }

  function Head(m: Message): string { (m.start + CRLF) + SectionText(m.fields) }

  /** Start line and header section; the result is false if they end too late. */
  function HeadPrinted(m: Message, room: nat): (r: (string, bool))
    ensures |r.0| <= room
  {
    var first := m.start + CRLF;
    if |first| >= room then ("", false)
    else
      var fields := FieldsPrinted(m.fields, room - |first|);
      PrintedWithin(m.fields, room - |first|);
      if |first| + |fields| + 2 < room then (first + fields + CRLF, true) else (first + fields, false)
  }

  lemma {:induction false} PrintedWithin(fields: seq<Field>, room: int)
    requires room > 0
    ensures |FieldsPrinted(fields, room)| < room
    decreases |fields|
  {
    if fields != [] {
      var f := fields[0];
      var n := |f.name| + |f.value|;
      PrintedWithin(fields[1..], if n + 2 >= room then room else if n + 4 >= room then room - n - 2 else room - n - 4);
    }
  }

  function BodyPrinted(p: Progress, m: Message, room: nat): (r: (Progress, string, bool))
    requires p.Valid(m) && p.stage == Body
    ensures r.0.Valid(m) && |r.1| <= room
  {
    if p.length >= p.contentLength then (p, "", true)
    else
      var required := p.contentLength - p.length;
      var n := if required > room then room else required;
      (p.(length := p.length + n), m.body[p.length..p.length + n], required <= room)
  }

  /** Failing with a full buffer means that another one is needed. */
  function Broken(written: nat, room: nat): Status { if written >= room then Incomplete else Invalid }

  function BodyStage(p: Progress, m: Message, room: nat, written: string): (r: (Progress, string, Status))
    requires p.Valid(m) && p.stage == Body && |written| <= room
    ensures r.0.Valid(m)
  {
    var (p, body, ok) := BodyPrinted(p, m, room - |written|);
    if ok then (p.(stage := StartLine), written + body, Complete)
    else (p, written + body, Broken(|written + body|, room))
  }

  function Printed(p: Progress, m: Message, room: nat): (r: (Progress, string, Status))
    requires p.Valid(m)
    ensures r.0.Valid(m)
  {
    if p.stage == Body then BodyStage(p, m, room, "")
    else
      var (head, ok) := HeadPrinted(m, room);
      if !ok then (p.(stage := StartLine), head, Broken(|head|, room))
      else if p.length == 0 then (Progress(StartLine, 0, 0), head, Complete)
      else BodyStage(Progress(Body, p.length, 0), m, room, head)
  }

  /** Room enough for the start line, the header fields that are not left out, and the
      empty line. */
  predicate HeadHasRoom(m: Message, room: nat)
  {
    var first := |m.start| + 2;
    first < room && first + |FieldsPrinted(m.fields, room - first)| + 2 < room
  }

  /** A head without room leaves what fitted of it in the buffer and is begun anew with the
      next call; that it needs another buffer is said only of a buffer without any room, as
      the text of a head never fills one. */
  lemma HeadWithoutRoom(p: Progress, m: Message, room: nat)
    requires p.Valid(m) && p.stage != Body && !HeadHasRoom(m, room)
    ensures var first := m.start + CRLF;
            Printed(p, m, room)
            == (p.(stage := StartLine),
                if |first| < room then first + FieldsPrinted(m.fields, room - |first|) else "",
                if room == 0 then Incomplete else Invalid)
  {
    var first := m.start + CRLF;
    if |first| < room {
      PrintedWithin(m.fields, room - |first|);
    }
  }

  // ----- the generator as an object -----

  /** A message to be printed; the length of its body is rewritten on the way. */
  class OutMessage {
    const value: Message
    var length: nat

    constructor (value: Message)
      ensures this.value == value && length == |value.body|
    {
      this.value, length := value, |value.body|;
    }
  }

  class Generator {
    var stage: Stage
    var contentLength: nat
    var message: OutMessage?

    constructor ()
      ensures message == null
    {
      stage, contentLength, message := StartLine, 0, null;
    }

    /** Another message than the last one is begun anew. */
    function Value(m: OutMessage): Progress
      reads this, m
    {
      Progress(if message == m then stage else StartLine, contentLength, m.length)
    }

    method HeadWrite(m: Message, stream: TextWriter) returns (ok: bool)
      requires stream.Valid() && stream.pos == 0
      modifies stream`pos, stream.buf
      ensures stream.Valid() && stream.end == old(stream.end) && stream.buf == old(stream.buf)
      ensures (stream.Written(), ok) == HeadPrinted(m, stream.end)
    {
      assert stream.Written() == "";
      ok := stream.StringInsert(m.start + CRLF);
      if ok {
        assert "" + (m.start + CRLF) == m.start + CRLF;
        PrintedWithin(m.fields, stream.end - stream.pos);
        ok := HeaderSectionGenerate(m.fields, stream);
        ghost var first := m.start + CRLF;
        assert first + FieldsPrinted(m.fields, stream.end - |first|) + ""
            == first + FieldsPrinted(m.fields, stream.end - |first|);
      }
    }

    method BodyWrite(m: OutMessage, stream: TextWriter) returns (ok: bool)
      requires stream.Valid() && message == m && stage == Body && Value(m).Valid(m.value)
      modifies m`length, stream`pos, stream.buf
      ensures stream.Valid() && stream.end == old(stream.end) && stream.buf == old(stream.buf)
      ensures var (p, body, done) := BodyPrinted(old(Value(m)), m.value, old(stream.end - stream.pos));
              Value(m) == p && stream.Written() == old(stream.Written()) + body && ok == done
    {
      ok := true;
      if m.length < contentLength {
        var required := contentLength - m.length;
        if required > stream.end - stream.pos {
          required, ok := stream.end - stream.pos, false;
        }
        stream.Copy(m.value.body[m.length..m.length + required]);
        m.length := m.length + required;
      } else {
        assert stream.Written() + "" == stream.Written();
      }
    }

    method Run(m: OutMessage, stream: TextWriter) returns (status: Status)
      requires stream.Valid() && stream.pos == 0 && Value(m).Valid(m.value)
      modifies this, m`length, stream`pos, stream.buf
      ensures stream.Valid() && stream.end == old(stream.end) && message == m
      ensures (Value(m), stream.Written(), status) == Printed(old(Value(m)), m.value, stream.end)
    {
      if message != m {
        stage, message := StartLine, m;
      }
      if stage != Body {
        stage := StartLine;
        var ok := HeadWrite(m.value, stream);
        if !ok {
          return if stream.pos >= stream.end then Incomplete else Invalid;
        }
        contentLength := m.length;
        if contentLength == 0 {
          return Complete;
        }
        m.length, stage := 0, Body;
      } else {
        assert stream.Written() == "";
      }
      status := BodyContinue(m, stream);
    }

    method BodyContinue(m: OutMessage, stream: TextWriter) returns (status: Status)
      requires stream.Valid() && message == m && stage == Body && Value(m).Valid(m.value)
      modifies this`stage, m`length, stream`pos, stream.buf
      ensures stream.Valid() && stream.end == old(stream.end)
      ensures (Value(m), stream.Written(), status)
          == BodyStage(old(Value(m)), m.value, stream.end, old(stream.Written()))
    {
      var ok := BodyWrite(m, stream);
      if !ok {
        return if stream.pos >= stream.end then Incomplete else Invalid;
      }
      stage := StartLine;
      status := Complete;
    }
  }

  // ----- any sequence of buffers -----

  function Sum(rooms: seq<nat>): nat { if rooms == [] then 0 else rooms[0] + Sum(rooms[1..]) }

  /** What is written into the buffers, until the message is complete. */
  function Outputs(p: Progress, m: Message, rooms: seq<nat>): (seq<string>, Status)
    requires p.Valid(m)
    decreases |rooms|
  {
    if rooms == [] then ([], Incomplete)
    else
      var (p', out, status) := Printed(p, m, rooms[0]);
      if status != Incomplete then ([out], status)
      else
        var (outs, last) := Outputs(p', m, rooms[1..]);
        ([out] + outs, last)
  }

  function Upto(s: string, n: nat): string { if n < |s| then s[..n] else s }

  lemma UptoSplit(a: string, b: string, n: nat)
    ensures n >= |a| ==> Upto(a + b, n) == a + Upto(b, n - |a|)
  {
  }

  lemma BodyPart(p: Progress, m: Message, n: nat)
    requires p.Valid(m) && p.stage == Body && p.length < p.contentLength
    ensures var rest := m.body[p.length..p.contentLength];
            && (n < |rest| ==> Printed(p, m, n) == (p.(length := p.length + n), rest[..n], Incomplete))
            && (n >= |rest| ==> Printed(p, m, n).1 == rest && Printed(p, m, n).2 == Complete)
  {
    var rest := m.body[p.length..p.contentLength];
    var k := if n < |rest| then n else |rest|;
    SliceOfSlice(m.body, p.length, p.contentLength, k);
    assert rest[..k] == m.body[p.length..p.length + k];
    assert "" + rest[..k] == rest[..k];
    assert n >= |rest| ==> rest[..k] == rest;
  }

  lemma SliceOfSlice(s: string, i: nat, j: nat, k: nat)
    requires i <= j <= |s| && k <= j - i
    ensures s[i..j][..k] == s[i..i + k]
  {
  }

  lemma LastOutput(p: Progress, m: Message, rooms: seq<nat>)
    requires p.Valid(m) && rooms != [] && Printed(p, m, rooms[0]).2 == Complete
    ensures Outputs(p, m, rooms) == ([Printed(p, m, rooms[0]).1], Complete)
    ensures Flatten(Outputs(p, m, rooms).0) == Printed(p, m, rooms[0]).1
  {
    var out := Printed(p, m, rooms[0]).1;
    assert Flatten([out]) == out + "" == out;
  }

  lemma MoreOutput(p: Progress, m: Message, rooms: seq<nat>, p': Progress, out: string)
    requires p.Valid(m) && p'.Valid(m) && rooms != [] && Printed(p, m, rooms[0]) == (p', out, Incomplete)
    ensures Outputs(p, m, rooms).1 == Outputs(p', m, rooms[1..]).1
    ensures Flatten(Outputs(p, m, rooms).0) == out + Flatten(Outputs(p', m, rooms[1..]).0)
    ensures NonEmptyChunks(Outputs(p', m, rooms[1..]).0) && out != "" ==> NonEmptyChunks(Outputs(p, m, rooms).0)
  {
    var outs := Outputs(p', m, rooms[1..]).0;
    assert ([out] + outs)[1..] == outs;
  }

  /** The buffers hold the text as far as they reach, and the status says whether they do. */
  ghost predicate Hold(p: Progress, m: Message, rooms: seq<nat>, text: string)
    requires p.Valid(m)
  {
    var (outs, status) := Outputs(p, m, rooms);
    && Flatten(outs) == Upto(text, Sum(rooms))
    && status == (if Sum(rooms) >= |text| then Complete else Incomplete)
    && ((forall k | 0 <= k < |rooms| :: rooms[k] > 0) ==> NonEmptyChunks(outs))
  }

  lemma HoldMore(p: Progress, m: Message, rooms: seq<nat>, text: string, p': Progress)
    requires p.Valid(m) && p'.Valid(m) && rooms != [] && rooms[0] < |text|
    requires Printed(p, m, rooms[0]) == (p', text[..rooms[0]], Incomplete)
    requires Hold(p', m, rooms[1..], text[rooms[0]..])
    ensures Hold(p, m, rooms, text)
  {
    MoreOutput(p, m, rooms, p', text[..rooms[0]]);
    CutUpto(text, rooms[0], text[rooms[0]..], Sum(rooms[1..]));
    assert (forall k | 0 <= k < |rooms| :: rooms[k] > 0) ==> forall k | 0 <= k < |rooms[1..]| :: rooms[1..][k] > 0;
  }

  lemma HoldLast(p: Progress, m: Message, rooms: seq<nat>, text: string)
    requires p.Valid(m) && rooms != [] && rooms[0] >= |text| > 0
    requires Printed(p, m, rooms[0]).1 == text && Printed(p, m, rooms[0]).2 == Complete
    ensures Hold(p, m, rooms, text)
  {
    LastOutput(p, m, rooms);
  }

  /** The rest of a body goes into the buffers that follow. */
  lemma {:induction false} BodyOutputs(p: Progress, m: Message, rooms: seq<nat>)
    requires p.Valid(m) && p.stage == Body && p.length < p.contentLength
    ensures Hold(p, m, rooms, m.body[p.length..p.contentLength])
    decreases |rooms|
  {
    if rooms != [] {
      var n, rest := rooms[0], m.body[p.length..p.contentLength];
      BodyPart(p, m, n);
      if n < |rest| {
        BodyOutputs(p.(length := p.length + n), m, rooms[1..]);
        CutBody(m.body, p.length, p.contentLength, n);
        HoldMore(p, m, rooms, rest, p.(length := p.length + n));
      } else {
        HoldLast(p, m, rooms, rest);
      }
    }
  }

  /** A piece, then as much of the rest as fits. */
  lemma CutUpto(s: string, n: nat, rest: string, room: nat)
    requires n <= |s| && rest == s[n..]
    ensures s[..n] + Upto(rest, room) == Upto(s, n + room)
  {
    assert s == s[..n] + s[n..];
    UptoSplit(s[..n], s[n..], n + room);
  }

  lemma CutBody(s: string, i: nat, j: nat, n: nat)
    requires i + n <= j <= |s|
    ensures s[i..j][n..] == s[i + n..j] && s[i..j] == s[i..j][..n] + s[i..j][n..]
  {
  }

  lemma HeadFits(m: Message, room: nat)
    requires |Head(m)| < room
    ensures HeadPrinted(m, room) == (Head(m), true)
  {
    var first := m.start + CRLF;
    SectionFits(m.fields, room - |first|);
    assert first + FieldsText(m.fields) + CRLF == first + (FieldsText(m.fields) + CRLF);
  }

  lemma TextIs(m: Message)
    ensures MessageText(m) == Head(m) + m.body
  {
    assert (m.start + CRLF) + (FieldsText(m.fields) + (CRLF + m.body))
        == ((m.start + CRLF) + (FieldsText(m.fields) + CRLF)) + m.body;
  }

  lemma HeadPart(p: Progress, m: Message, n: nat)
    requires p.stage != Body && p.length == |m.body| && |Head(m)| < n
    ensures var left := n - |Head(m)|;
            && (left < |m.body| ==>
                  Printed(p, m, n) == (Progress(Body, |m.body|, left), Head(m) + m.body[..left], Incomplete))
            && (left >= |m.body| ==> Printed(p, m, n).1 == Head(m) + m.body && Printed(p, m, n).2 == Complete)
  {
    HeadFits(m, n);
    assert Head(m) + "" == Head(m) && m.body[0..|m.body|] == m.body;
  }

  lemma CutText(head: string, body: string, left: nat)
    requires left <= |body|
    ensures (head + body)[..|head| + left] == head + body[..left]
    ensures (head + body)[|head| + left..] == body[left..|body|]
  {
  }

  /** With a first buffer that holds the head, the buffers together hold the text of
      the message as far as they reach, and the status says whether they do. */
  lemma WrittenWhole(p: Progress, m: Message, rooms: seq<nat>)
    requires p.stage != Body && p.length == |m.body| && rooms != [] && |Head(m)| < rooms[0]
    ensures Hold(p, m, rooms, MessageText(m))
  {
    var left := rooms[0] - |Head(m)|;
    TextIs(m);
    HeadPart(p, m, rooms[0]);
    if left < |m.body| {
      CutText(Head(m), m.body, left);
      BodyOutputs(Progress(Body, |m.body|, left), m, rooms[1..]);
      HoldMore(p, m, rooms, MessageText(m), Progress(Body, |m.body|, left));
    } else {
      HoldLast(p, m, rooms, MessageText(m));
    }
  }

  /** What the generator writes into any buffers, delivered as they are, is the message. */
  lemma GeneratedArrives(h: Handler, p: Progress, m: Message, rooms: seq<nat>)
    requires !h.accept("") && GoodMessage(h, m) && p.stage != Body && p.length == |m.body|
    requires rooms != [] && |Head(m)| < rooms[0] && Sum(rooms) >= |MessageText(m)|
        && forall k | 0 <= k < |rooms| :: rooms[k] > 0
    ensures var outs := Outputs(p, m, rooms).0;
            NonEmptyChunks(outs) && ReceiveAll(h, NEW_LINK, outs).messages == [m]
  {
    WrittenWhole(p, m, rooms);
    assert MessagesText([m]) == MessageText(m) + MessagesText([]);
    MessagesArrive(h, [m], Outputs(p, m, rooms).0);
  }
}
