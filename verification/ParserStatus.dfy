/** What the parser answers, told by the text: a message is complete, more is needed, or
    what came is rejected. */
module ParserStatus {
  import opened Options
  import opened TextStream
  import opened TextMessage
  import opened MessageParser
  import opened Printing
  import opened Delivery
  import Sequences

  // ----- any text -----

  /** The first line is no start line, and more follows it. */
  predicate StartRejected(h: Handler, p: ParserState, s: string)
    requires s != ""
  {
    var t := Resumed(p, s);
    p.stage == StartLine && HasLine(t) && !h.accept(FirstLine(t)) && AfterLine(t) != ""
  }

  /** The header section ends in the text, and is rejected. */
  predicate SectionRejected(h: Handler, p: ParserState, s: string)
    requires s != ""
  {
    var t := Resumed(p, s);
    match p.stage
    case StartLine => HasLine(t) && h.accept(FirstLine(t)) && Rejected(h, FirstLine(t), [], AfterLine(t))
    case Header => Rejected(h, p.message.start, p.message.fields, t)
    case Body => false
  }

  predicate Rejected(h: Handler, start: string, before: seq<Field>, s: string)
  {
    var r := SectionRead(before, s);
    r.done && h.bodyLength(start, r.fields) == None
  }

  /** The rest of the message is in the text, and this is it. */
  predicate Completes(h: Handler, p: ParserState, s: string, m: Message)
    requires s != "" && p.Valid()
  {
    var t := Resumed(p, s);
    match p.stage
    case StartLine =>
      HasLine(t) && h.accept(FirstLine(t)) && EndsIn(h, FirstLine(t), [], AfterLine(t), m)
    case Header => EndsIn(h, p.message.start, p.message.fields, t, m)
    case Body =>
      var need := p.contentLength - |p.message.body|;
      |t| >= need && m == p.message.(body := p.message.body + t[..need])
  }

  predicate EndsIn(h: Handler, start: string, before: seq<Field>, s: string, m: Message)
  {
    var r := SectionRead(before, s);
    && r.done && m.start == start && m.fields == r.fields && h.bodyLength(start, r.fields) == Some(|m.body|)
    && m.body <= r.rest
  }

  lemma SectionAnswer(h: Handler, p: ParserState, rest: string, m: Message)
    requires p.stage == Header && p.Valid()
    ensures var r := SectionDone(h, p, rest);
            && (r.status == Invalid <==> h.bodyLength(p.message.start, p.message.fields) == None)
            && (r.status == Complete <==> r.message.Some?)
            && (r.message == Some(m) <==>
                  && m.start == p.message.start && m.fields == p.message.fields && m.body <= rest
                  && h.bodyLength(m.start, m.fields) == Some(|m.body|))
  {
    if h.bodyLength(p.message.start, p.message.fields).Some? {
      var n := h.bodyLength(p.message.start, p.message.fields).value;
      BodyAnswer(p.message, n, rest, m);
    }
  }

  lemma BodyAnswer(message: Message, n: nat, rest: string, m: Message)
    requires message.body == ""
    ensures m.start == message.start && m.fields == message.fields && |m.body| == n && m.body <= rest <==>
            n <= |rest| && m == message.(body := "" + rest[..n])
  {
    if n <= |rest| {
      assert "" + rest[..n] == rest[..n];
    }
  }

  lemma HeaderAnswer(h: Handler, p: ParserState, last: char, s: string, m: Message)
    requires p.stage == Header && p.Valid()
    ensures var r := HeaderRun(h, p, last, s);
            && (r.status == Invalid <==> Rejected(h, p.message.start, p.message.fields, s))
            && (r.status == Complete <==> r.message.Some?)
            && (r.message == Some(m) <==> EndsIn(h, p.message.start, p.message.fields, s, m))
  {
    var r := SectionRead(p.message.fields, s);
    if r.done {
      var q := p.(skipLf := p.skipLf || SplitEol(last, r.rest), message := p.message.(fields := r.fields));
      SectionAnswer(h, q, r.rest, m);
    }
  }

  /** For any call: a message is handed out if and only if the answer is that one is
      complete; it is the one the text completes; and the answer is that the input is
      invalid if and only if a start line with something behind it or a header section
      was rejected. */
  lemma AnswerIs(h: Handler, p: ParserState, s: string, m: Message)
    requires p.Valid() && s != ""
    ensures var r := RunOn(h, p, s);
            && (r.status == Complete <==> r.message.Some?)
            && (r.status == Invalid <==> StartRejected(h, p, s) || SectionRejected(h, p, s))
            && (r.message == Some(m) <==> Completes(h, p, s, m))
  {
    var t, q, last := Resumed(p, s), p.(skipLf := false), s[|s| - 1];
    RunIs(h, p, s, q, last, t);
    match p.stage
    case StartLine =>
      if HasLine(t) && h.accept(FirstLine(t)) {
        var rest := AfterLine(t);
        var q' := q.(stage := Header, skipLf := SplitEol(last, rest), message := Message(FirstLine(t), [], ""));
        HeaderAnswer(h, q', last, rest, m);
      }
    case Header => HeaderAnswer(h, q, last, t, m);
    case Body =>
  }

  // ----- printed text -----

  /** The three ways to end a line before `rest`. */
  predicate EndsLine(end: string, rest: string)
  {
    end == CRLF || end == [LF] || (end == [CR] && rest != "" && rest[0] != LF)
  }

  lemma LineEnded(line: string, end: string, rest: string)
    requires NoEol(line) && EndsLine(end, rest)
    ensures var s := line + end + rest; HasLine(s) && FirstLine(s) == line && AfterLine(s) == rest
  {
    var s := line + end + rest;
    assert forall i | 0 <= i < |line| :: s[i] == line[i];
    assert s[|line|] == end[0];
    assert LineLength(s) == |line|;
    if |end| == 2 {
      assert s[|line| + 1] == LF;
    } else if rest != "" {
      assert s[|line| + 1] == rest[0];
    }
  }

  /** A line that is no start line is reported, if anything follows it: the parser goes on
      with that. At the end of the buffer it is not. */
  lemma GarbageIsInvalid(h: Handler, p: ParserState, line: string, end: string, rest: string)
    requires p.stage == StartLine && !p.skipLf && p.Valid()
    requires NoEol(line) && EndsLine(end, rest) && !h.accept(line)
    ensures RunOn(h, p, line + end + rest)
         == RunResult(p, rest, false, if rest != "" then Invalid else Incomplete, None)
  {
    LineEnded(line, end, rest);
  }

  /** A header section that is rejected is reported. */
  lemma RejectedSectionIsInvalid(h: Handler, p: ParserState, fields: seq<Field>, rest: string)
    requires p.stage == Header && !p.skipLf && p.Valid() && GoodFields(fields)
    requires h.bodyLength(p.message.start, p.message.fields + fields) == None
    ensures var s := SectionText(fields) + rest;
            s != "" && RunOn(h, p, s).status == Invalid && RunOn(h, p, s).message == None
            && RunOn(h, p, s).rest == FoldLines(rest).1
  {
    SectionRoundTrip(p.message.fields, fields, rest);
    SectionStart(fields, rest);
  }

  /** So is one behind its start line. */
  lemma RejectedHeadIsInvalid(h: Handler, p: ParserState, start: string, fields: seq<Field>, rest: string)
    requires p.stage == StartLine && !p.skipLf && p.Valid() && NoEol(start) && h.accept(start) && GoodFields(fields)
    requires h.bodyLength(start, fields) == None
    ensures var r := RunOn(h, p, start + CRLF + (SectionText(fields) + rest)); r.status == Invalid && r.message == None
  {
    LineRoundTrip(start, SectionText(fields) + rest);
    SectionRoundTrip([], fields, rest);
    assert [] + fields == fields;
  }

  /** A printed message is complete, and what follows it is left. */
  lemma MessageIsComplete(h: Handler, p: ParserState, m: Message, rest: string)
    requires p.stage == StartLine && !p.skipLf && p.Valid() && GoodMessage(h, m) && NoFoldAt(m.body + rest)
    ensures var r := RunOn(h, p, MessageText(m) + rest);
            r.status == Complete && r.message == Some(m) && r.rest == rest && !r.eos
  {
    var s, t := MessageText(m) + rest, SectionText(m.fields) + (m.body + rest);
    MessageParts(m, rest);
    LineRoundTrip(m.start, t);
    SectionRoundTrip([], m.fields, m.body + rest);
    assert [] + m.fields == m.fields;
    assert (m.body + rest)[..|m.body|] == m.body && (m.body + rest)[|m.body|..] == rest;
    assert "" + m.body == m.body;
  }

  lemma MessageParts(m: Message, rest: string)
    ensures MessageText(m) + rest == m.start + CRLF + (SectionText(m.fields) + (m.body + rest))
  {
  }

  // ----- the text itself -----

  /** What goes over the wire, character by character. */
  lemma WireForm()
    ensures MessageText(Message("GET", [Field("A", "b"), Field("C", "")], "xy")) == "GET\r\nA: b\r\nC: \r\n\r\nxy"
    ensures WSP == {' ', '\t'} && EOL == {'\r', '\n'}
  {
    var c := Field("C", "");
    assert FieldsText([c]) == "C: \r\n" + FieldsText([]);
    assert [Field("A", "b"), c][1..] == [c];
    assert FieldsText([Field("A", "b"), c]) == "A: b\r\n" + "C: \r\n";
  }
}
