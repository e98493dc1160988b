/** The resumable message parser, and the connection that feeds it whatever the
    network delivers. */
module MessageParser {
  import opened Options
  import opened TextStream
  import opened TextMessage

  datatype Stage = StartLine | Header | Body
  datatype Status = Complete | Incomplete | Invalid
  datatype Message = Message(start: string, fields: seq<Field>, body: string)

  /** The protocol's event handlers: whether a start line is accepted, and, for a
      complete header section, the length of the body (None to reject). */
  datatype Handler = Handler(accept: string -> bool, bodyLength: (string, seq<Field>) -> Option<nat>)

  /** Parser state between two calls. `message` is the message under way; its
      body is what was read of it so far. */
  datatype ParserState = ParserState(stage: Stage, skipLf: bool, message: Message, contentLength: nat)
  {
    predicate Valid()
    {
      && (stage == Header ==> message.body == "")
      && (stage == Body ==> |message.body| < contentLength)
    }
  }

  const FRESH := ParserState(StartLine, false, Message("", [], ""), 0)

  datatype RunResult = RunResult(p: ParserState, rest: string, eos: bool, status: Status, message: Option<Message>)

  /** The buffer, whose last character is `last`, was read to its end inside a
      line terminator: LF may still follow. */
  predicate SplitEol(last: char, rest: string) { rest == "" && last == CR }

  function BodyRun(p: ParserState, s: string): (r: RunResult)
    requires p.stage == Body && p.Valid()
    ensures r.p.Valid() && r.eos == false
    ensures s != "" ==> |r.rest| < |s|
  {
    var need := p.contentLength - |p.message.body|;
    if need > |s| then
      RunResult(p.(message := p.message.(body := p.message.body + s)), "", false, Incomplete, None)
    else
      var m := p.message.(body := p.message.body + s[..need]);
      RunResult(p.(stage := StartLine, message := m), s[need..], false, Complete, Some(m))
  }

  /** The header section is complete and `rest` follows it. */
  function SectionDone(h: Handler, p: ParserState, rest: string): (r: RunResult)
    requires p.stage == Header && p.Valid()
    ensures r.p.Valid() && |r.rest| <= |rest| && !r.eos
  {
    match h.bodyLength(p.message.start, p.message.fields)
    case None => RunResult(p, rest, false, Invalid, None)
    case Some(n) =>
      if n == 0 then RunResult(p.(stage := StartLine), rest, false, Complete, Some(p.message))
      else BodyRun(p.(stage := Body, contentLength := n), rest)
  }

  function HeaderRun(h: Handler, p: ParserState, last: char, s: string): (r: RunResult)
    requires p.stage == Header && p.Valid()
    ensures r.p.Valid()
    ensures |r.rest| <= |s| && (|r.rest| < |s| || r.eos)
  {
    var r := SectionRead(p.message.fields, s);
    var p' := p.(skipLf := p.skipLf || SplitEol(last, r.rest), message := p.message.(fields := r.fields));
    if r.done then SectionDone(h, p', r.rest).(eos := r.eos)
    else RunResult(p', r.rest, r.eos, Incomplete, None)
  }

  function StageRun(h: Handler, p: ParserState, last: char, s: string): (r: RunResult)
    requires p.Valid()
    ensures r.p.Valid()
    ensures |r.rest| <= |s| && (s == "" || |r.rest| < |s| || r.eos)
  {
    match p.stage
    case StartLine =>
      if !HasLine(s) then RunResult(p, s, true, Incomplete, None)
      else
        var t := AfterLine(s);
        if !h.accept(FirstLine(s)) then
          RunResult(p, t, false, if t == "" then Incomplete else Invalid, None)
        else
          var p' := p.(stage := Header, skipLf := p.skipLf || SplitEol(last, t),
                       message := Message(FirstLine(s), [], ""));
          HeaderRun(h, p', last, t)
    case Header => HeaderRun(h, p, last, s)
    case Body => BodyRun(p, s)
  }

  /** What is left to parse once the LF of a terminator split before it is skipped. */
  function Resumed(p: ParserState, s: string): string
  {
    if p.skipLf && [LF] <= s then s[1..] else s
  }

  /** One call of the parser on the text `s`. */
  function RunOn(h: Handler, p: ParserState, s: string): (r: RunResult)
    requires p.Valid() && s != ""
    ensures r.p.Valid()
    ensures |r.rest| < |s| || (r.rest == s && r.eos)
  {
    StageRun(h, p.(skipLf := false), s[|s| - 1], Resumed(p, s))
  }

  lemma RunIs(h: Handler, p: ParserState, s: string, q: ParserState, last: char, t: string)
    requires p.Valid() && s != "" && q == p.(skipLf := false) && last == s[|s| - 1] && t == Resumed(p, s)
    ensures q.Valid() && RunOn(h, p, s) == StageRun(h, q, last, t)
  {
  }

  class Parser {
    const handler: Handler
    var stage: Stage
    var skipLf: bool
    var start: string
    var fields: seq<Field>
    var body: string
    var contentLength: nat

    /** The fields as one value. */
    function State(): ParserState reads this
    {
      ParserState(stage, skipLf, Message(start, fields, body), contentLength)
    }

    constructor (handler: Handler)
      ensures this.handler == handler && State() == FRESH
    {
      this.handler := handler;
      stage, skipLf, start, fields, body, contentLength := StartLine, false, "", [], "", 0;
    }

    method CrlfSegmentationTest(stream: TextReader)
      requires stream.Valid() && stream.text != ""
      modifies this`skipLf
      ensures skipLf == (old(skipLf) || SplitEol(stream.text[|stream.text| - 1], stream.Rest()))
    {
      if stream.pos == |stream.text| && stream.text[stream.pos - 1] == CR {
        skipLf := true;
      }
    }

    method BodyRead(stream: TextReader) returns (complete: bool)
      requires stage == Body && State().Valid() && stream.Valid()
      modifies this`body, stream`pos
      ensures stream.Valid()
      ensures var r := BodyRun(old(State()), old(stream.Rest()));
              && complete == (r.status == Complete)
              && body == r.p.message.body && stream.Rest() == r.rest
    {
      var available := |stream.text| - stream.pos;
      var required := contentLength - |body|;
      complete := true;
      if required > available {
        required := available;
        complete := false;
      }
      body := body + stream.text[stream.pos..stream.pos + required];
      stream.pos := stream.pos + required;
    }

    /** The header stage, and the body stage when a body follows. */
    method HeaderStage(stream: TextReader) returns (status: Status, message: Option<Message>)
      requires stage == Header && State().Valid() && stream.Valid() && stream.text != "" && !stream.isEos
      modifies this`stage, this`skipLf, this`fields, this`body, this`contentLength, stream`pos, stream`isEos
      ensures stream.Valid()
      ensures RunResult(State(), stream.Rest(), stream.isEos, status, message)
           == HeaderRun(handler, old(State()), stream.text[|stream.text| - 1], old(stream.Rest()))
    {
      status, message := Incomplete, None;
      ghost var p, s := State(), stream.Rest();
      var done;
      done, fields := HeaderSectionParse(stream, fields);
      CrlfSegmentationTest(stream);
      assert State() == p.(skipLf := p.skipLf || SplitEol(stream.text[|stream.text| - 1], stream.Rest()),
                           message := p.message.(fields := SectionRead(p.message.fields, s).fields));
      if !done {
        return;
      }
      status, message := SectionEnd(stream);
    }

    /** The header section is complete. */
    method SectionEnd(stream: TextReader) returns (status: Status, message: Option<Message>)
      requires stage == Header && State().Valid() && stream.Valid()
      modifies this`stage, this`body, this`contentLength, stream`pos
      ensures stream.Valid()
      ensures RunResult(State(), stream.Rest(), false, status, message)
           == SectionDone(handler, old(State()), old(stream.Rest()))
    {
      var length := handler.bodyLength(start, fields);
      if length.None? {
        return Invalid, None;
      }
      if length.value == 0 {
        stage := StartLine;
        return Complete, Some(Message(start, fields, body));
      }
      status, message := Incomplete, None;
      contentLength, stage := length.value, Body;
      var complete := BodyRead(stream);
      if complete {
        status, message := Complete, Some(Message(start, fields, body));
        stage := StartLine;
      }
    }

    /** Whatever the stage, the original's loop over the stages ends in its first turn. */
    method Stages(stream: TextReader) returns (status: Status, message: Option<Message>)
      requires State().Valid() && stream.Valid() && stream.text != "" && !stream.isEos
      modifies this`stage, this`skipLf, this`start, this`fields, this`body, this`contentLength,
               stream`pos, stream`isEos
      ensures stream.Valid()
      ensures RunResult(State(), stream.Rest(), stream.isEos, status, message)
           == StageRun(handler, old(State()), stream.text[|stream.text| - 1], old(stream.Rest()))
    {
      status, message := Incomplete, None;
      if stage == StartLine {
        var ok, line := stream.LineRead();
        if !ok || !handler.accept(line) {
          if !stream.AtEnd() {
            status := Invalid;
          }
          return;
        }
        start, fields, body := line, [], "";
        CrlfSegmentationTest(stream);
        stage := Header;
      }
      if stage == Header {
        status, message := HeaderStage(stream);
      } else {
        var complete := BodyRead(stream);
        if complete {
          status, message := Complete, Some(Message(start, fields, body));
          stage := StartLine;
        }
      }
    }

    /** Callers pass a stream that has something to read. */
    method Run(stream: TextReader) returns (status: Status, message: Option<Message>)
      requires State().Valid() && stream.Valid() && !stream.AtEnd()
      modifies this`stage, this`skipLf, this`start, this`fields, this`body, this`contentLength,
               stream`pos, stream`isEos
      ensures stream.Valid()
      ensures RunResult(State(), stream.Rest(), stream.isEos, status, message)
           == RunOn(handler, old(State()), old(stream.Rest()))
    {
      ghost var p, s := State(), stream.Rest();
      LfSkip(stream);
      RunIs(handler, p, s, State(), stream.text[|stream.text| - 1], stream.Rest());
      status, message := Stages(stream);
    }

    /** The LF of a terminator cut in two is skipped. */
    method LfSkip(stream: TextReader)
      requires stream.Valid() && !stream.AtEnd()
      modifies this`skipLf, stream`pos
      ensures stream.Valid() && State() == old(State()).(skipLf := false)
      ensures stream.Rest() == Resumed(old(State()), old(stream.Rest()))
    {
      if skipLf {
        stream.CharSkip(LF);
        skipLf := false;
      }
    }
  }

  function Delivered(m: Option<Message>): seq<Message> { if m.Some? then [m.value] else [] }

  /** What a connection keeps between two deliveries, and the messages completed so far. */
  datatype Link = Link(p: ParserState, tail: string, messages: seq<Message>)

  /** The parser is run until the end of the buffer `s` is hit; what it did not
      consume is the tail kept for the next delivery. */
  function Drain(h: Handler, p: ParserState, s: string, messages: seq<Message>): (l: Link)
    requires p.Valid() && s != ""
    ensures l.p.Valid()
    decreases |s|
  {
    var r := RunOn(h, p, s);
    if r.rest == "" || r.eos then Link(r.p, r.rest, messages + Delivered(r.message))
    else Drain(h, r.p, r.rest, messages + Delivered(r.message))
  }

  function ReceiveOn(h: Handler, l: Link, data: string): (l': Link)
    requires l.p.Valid() && data != ""
    ensures l'.p.Valid()
  {
    Drain(h, l.p, l.tail + data, l.messages)
  }

  class Connection {
    const parser: Parser
    var tail: string
    var messages: seq<Message>

    ghost predicate Valid() reads this, parser { parser.State().Valid() }

    ghost function State(): Link reads this, parser { Link(parser.State(), tail, messages) }

    constructor (handler: Handler)
      ensures Valid() && fresh(parser) && parser.handler == handler && State() == Link(FRESH, "", [])
    {
      parser := new Parser(handler);
      tail, messages := "", [];
    }

    /** Handles what one receive call delivered, which is never empty: an empty
        delivery means that the peer has closed the connection. */
    method Receive(data: string)
      requires Valid() && data != ""
      modifies this, parser
      ensures Valid() && State() == ReceiveOn(parser.handler, old(State()), data)
    {
      ghost var all := ReceiveOn(parser.handler, State(), data);
      var stream := new TextReader(tail + data);
      var more := true;
      while more
        invariant Valid() && stream.Valid() && tail == old(tail)
        invariant more ==> !stream.AtEnd() && all == Drain(parser.handler, parser.State(), stream.Rest(), messages)
        invariant !more ==> all == Link(parser.State(), stream.Rest(), messages)
        decreases more, |stream.Rest()|
      {
        var status, message := parser.Run(stream);
        messages := messages + Delivered(message);
        more := !stream.AtEnd();
      }
      tail := stream.Rest();
    }
  }
}
