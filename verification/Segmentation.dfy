/** The parser's result does not depend on how the network cuts its input.

    The reference is a parser that takes one character at a time, so that cuts
    cannot matter to it. The real parser, which rescans a kept tail and skips the
    LF of a terminator cut in two, is shown to agree with it after every delivery. */
module Segmentation {
  import opened Options
  import opened TextStream
  import opened TextMessage
  import opened MessageParser
  import Sequences

  /** `line` is the line under way; `foldable` says that a header line has just
      ended, so that white space here would mean a folded line. */
  datatype Push = Push(stage: Stage, skipLf: bool, line: string, message: Message, contentLength: nat,
                       messages: seq<Message>, foldable: bool)

  const START := Push(StartLine, false, "", FRESH.message, 0, [], false)

  /** The empty line has ended the header section. */
  function EndSection(h: Handler, a: Push): Push
  {
    match h.bodyLength(a.message.start, a.message.fields)
    case None => a
    case Some(n) =>
      if n == 0 then a.(stage := StartLine, messages := a.messages + [a.message])
      else a.(stage := Body, contentLength := n)
  }

  function EndLine(h: Handler, a: Push, line: string): Push
  {
    var a := a.(line := "", foldable := false, skipLf := false);
    if a.stage == StartLine then
      if h.accept(line) then a.(stage := Header, message := Message(line, [], "")) else a
    else match ParsePair(line)
      case None => a
      case Some(f) =>
        if f.name == "" then EndSection(h, a.(foldable := true))
        else a.(foldable := true, message := a.message.(fields := a.message.fields + [f]))
  }

  function Char(h: Handler, a: Push, c: char): Push
  {
    if a.skipLf && c == LF then a.(skipLf := false)
    else if a.stage == Body then
      var m := a.message.(body := a.message.body + [c]);
      var a := a.(skipLf := false, foldable := false, message := m);
      if |m.body| == a.contentLength then a.(stage := StartLine, messages := a.messages + [m]) else a
    else if c == CR then EndLine(h, a, a.line).(skipLf := true)
    else if c == LF then EndLine(h, a, a.line)
    else a.(skipLf := false, foldable := false, line := a.line + [c])
  }

  function Feed(h: Handler, a: Push, s: string): Push
    decreases |s|
  {
    if s == "" then a else Feed(h, Char(h, a, s[0]), s[1..])
  }

  /** No header line of `s` is folded, and no body or next message begins with white space. */
  predicate NoFolds(h: Handler, a: Push, s: string)
    decreases |s|
  {
    s == "" || (!(a.foldable && s[0] in WSP) && NoFolds(h, Char(h, a, s[0]), s[1..]))
  }

  lemma {:induction false} FeedConcat(h: Handler, a: Push, s: string, t: string)
    ensures Feed(h, a, s + t) == Feed(h, Feed(h, a, s), t)
    ensures NoFolds(h, a, s + t) == (NoFolds(h, a, s) && NoFolds(h, Feed(h, a, s), t))
    decreases |s|
  {
    if s == "" {
      assert s + t == t;
    } else {
      assert (s + t)[0] == s[0] && (s + t)[1..] == s[1..] + t;
      FeedConcat(h, Char(h, a, s[0]), s[1..], t);
    }
  }

  /** Characters of a line only accumulate. */
  lemma {:induction false} FeedLine(h: Handler, a: Push, s: string)
    requires a.stage != Body && !a.skipLf
    requires forall c | c in s :: c !in EOL
    ensures Feed(h, a, s) == a.(line := a.line + s, foldable := a.foldable && s == "")
    ensures NoFolds(h, a, s) == (s == "" || !(a.foldable && s[0] in WSP))
    decreases |s|
  {
    if s == "" {
      assert a.line + s == a.line;
    } else {
      assert s[0] in s;
      FeedLine(h, Char(h, a, s[0]), s[1..]);
      assert a.line + s == (a.line + [s[0]]) + s[1..];
    }
  }

  /** After CR an LF is skipped, and any other character finds the line ended. */
  lemma FeedAfterCr(h: Handler, b: Push, s: string)
    requires s != "" && !b.skipLf
    ensures var b' := b.(skipLf := true);
            if s[0] == LF then Feed(h, b', s) == Feed(h, b, s[1..]) && (NoFolds(h, b', s) ==> NoFolds(h, b, s[1..]))
            else Feed(h, b', s) == Feed(h, b, s) && NoFolds(h, b', s) == NoFolds(h, b, s)
  {
    assert Char(h, b.(skipLf := true), s[0]) == if s[0] == LF then b else Char(h, b, s[0]);
  }

  lemma FeedFirst(h: Handler, a: Push, s: string)
    requires s != ""
    ensures Feed(h, a, s) == Feed(h, Char(h, a, s[0]), s[1..])
    ensures NoFolds(h, a, s) ==> NoFolds(h, Char(h, a, s[0]), s[1..])
  {
  }

  /** A line terminator that leads to `b`, then the rest. */
  lemma FeedTerminatorTo(h: Handler, a: Push, s: string, b: Push)
    requires s != "" && s[0] in EOL && !b.skipLf && Char(h, a, s[0]) == b.(skipLf := s[0] == CR)
    ensures var t := s[EolWidth(s, 0)..];
            && Feed(h, a, s) == (if t == "" then b.(skipLf := s[|s| - 1] == CR) else Feed(h, b, t))
            && (NoFolds(h, a, s) ==> NoFolds(h, b, t))
  {
    FeedFirst(h, a, s);
    if |s| == 1 {
      assert s[1..] == "";
    } else if s[0] == CR {
      FeedAfterCr(h, b, s[1..]);
      assert s[1..][1..] == s[2..];
    }
  }

  /** A line terminator, then the rest: a CR is remembered only at the end of the input. */
  lemma FeedTerminator(h: Handler, a: Push, s: string)
    requires s != "" && s[0] in EOL && a.stage != Body && !a.skipLf
    ensures var t := s[EolWidth(s, 0)..];
            var b := EndLine(h, a, a.line);
            && Feed(h, a, s) == (if t == "" then b.(skipLf := s[|s| - 1] == CR) else Feed(h, b, t))
            && (NoFolds(h, a, s) ==> NoFolds(h, b, t))
  {
    FeedTerminatorTo(h, a, s, EndLine(h, a, a.line));
  }

  /** A whole line at once. */
  lemma FeedFirstLine(h: Handler, a: Push, s: string)
    requires a.stage != Body && !a.skipLf && a.line == "" && HasLine(s) && NoFolds(h, a, s)
    ensures var t := AfterLine(s);
            var b := EndLine(h, a, FirstLine(s));
            && Feed(h, a, s) == (if t == "" then b.(skipLf := s[|s| - 1] == CR) else Feed(h, b, t))
            && NoFolds(h, b, t)
  {
    var n := LineLength(s);
    assert s == s[..n] + s[n..];
    FeedConcat(h, a, s[..n], s[n..]);
    FeedLine(h, a, s[..n]);
    FeedTerminator(h, Feed(h, a, s[..n]), s[n..]);
    assert s[n..][EolWidth(s[n..], 0)..] == AfterLine(s);
    assert a.line + s[..n] == s[..n];
    assert EndLine(h, Feed(h, a, s[..n]), s[..n]) == EndLine(h, a, s[..n]);
  }

  /** The state of the two parsers at the start of a line. */
  predicate Matches(p: ParserState, messages: seq<Message>, a: Push)
  {
    && p.Valid() && !p.skipLf && !a.skipLf && a.line == ""
    && a.stage == p.stage && a.message == p.message && a.contentLength == p.contentLength
    && a.messages == messages
  }

  /** The states after a delivery. The one difference: when a rejected start line
      ends in the CR of a terminator cut in two, only the reference will skip LF. */
  predicate Agree(l: Link, a: Push)
  {
    && l.p.Valid()
    && a.stage == l.p.stage && a.message == l.p.message && a.contentLength == l.p.contentLength
    && a.messages == l.messages && a.line == l.tail
    && (forall c | c in l.tail :: c !in EOL)
    && (a.stage == Body || a.skipLf ==> l.tail == "")
    && (l.tail != "" ==> !a.foldable)
    && (l.p.skipLf ==> a.skipLf)
    && (a.skipLf && !l.p.skipLf ==> a.stage == StartLine && !a.foldable)
  }

  // ----- the header section -----

  /** Without folds the section reader consumes line by line. */
  lemma {:induction false} FeedSection(h: Handler, a: Push, s: string) returns (b: Push)
    requires a.stage == Header && !a.skipLf && a.line == "" && NoFolds(h, a, s)
    ensures var r := SectionRead(a.message.fields, s);
            && b.stage == Header && !b.skipLf && b.line == ""
            && b == a.(message := a.message.(fields := r.fields), foldable := b.foldable)
            && (r.eos ==>
                  && !r.done && !HasLine(r.rest) && (s != "" ==> r.rest != "")
                  && Feed(h, a, s) == Feed(h, b, r.rest))
            && (!r.eos ==>
                  var e := if r.done then EndSection(h, b) else b;
                  && s != "" && NoFolds(h, e, r.rest)
                  && Feed(h, a, s) == if r.rest == "" then e.(skipLf := s[|s| - 1] == CR) else Feed(h, e, r.rest))
    decreases |s|
  {
    if !HasLine(s) {
      return a;
    }
    FeedFirstLine(h, a, s);
    var t := AfterLine(s);
    var c := EndLine(h, a, FirstLine(s));
    var pair := ParsePair(FirstLine(s));
    assert pair.Some? && t != "" ==> c.foldable;
    assert pair.Some? ==> pair.value.value + "" == pair.value.value && FieldRead(s) == FieldResult(pair, t, false);
    if pair.Some? && pair.value.name == "" {
      return a.(foldable := true);
    }
    if t == "" {
      return c;
    }
    b := FeedSection(h, c, t);
    assert t[|t| - 1] == s[|s| - 1];
  }

  // ----- the body -----

  lemma BodySplit(body: string, s: string, need: nat)
    requires 0 < need <= |s|
    ensures (body + [s[0]]) + s[1..][..need - 1] == body + s[..need] && s[1..][need - 1..] == s[need..]
  {
  }

  /** The body takes the characters it still needs and no more. */
  lemma {:induction false} FeedBody(h: Handler, a: Push, s: string)
    requires a.stage == Body && !a.skipLf && |a.message.body| < a.contentLength
    requires NoFolds(h, a, s)
    ensures var need := a.contentLength - |a.message.body|;
            if need > |s| then
              Feed(h, a, s) == a.(message := a.message.(body := a.message.body + s), foldable := a.foldable && s == "")
            else
              var m := a.message.(body := a.message.body + s[..need]);
              var b := a.(stage := StartLine, message := m, foldable := false, messages := a.messages + [m]);
              Feed(h, a, s) == Feed(h, b, s[need..]) && NoFolds(h, b, s[need..])
    decreases |s|
  {
    var need := a.contentLength - |a.message.body|;
    if s == "" {
      assert a.message.body + s == a.message.body;
    } else {
      var b := Char(h, a, s[0]);
      if need == 1 {
        assert s[..1] == [s[0]];
      } else {
        FeedBody(h, b, s[1..]);
        Sequences.Shift(a.message.body, s);
        if need <= |s| {
          BodySplit(a.message.body, s, need);
        }
      }
    }
  }

  // ----- one run of the parser -----

  /** The run on `s` gave `r`, and the two parsers are left in step: at the start
      of a line (state `b`), or, with the input used up, as after a delivery. */
  predicate InStep(h: Handler, a: Push, s: string, messages: seq<Message>, r: RunResult, b: Push)
  {
    var messages := messages + Delivered(r.message);
    if r.rest == "" || r.eos then
      Agree(Link(r.p, r.rest, messages), Feed(h, a, s))
    else
      Matches(r.p, messages, b) && Feed(h, a, s) == Feed(h, b, r.rest) && NoFolds(h, b, r.rest)
  }

  lemma BodyInStep(h: Handler, p: ParserState, s: string, messages: seq<Message>, a: Push) returns (b: Push)
    requires p.stage == Body && Matches(p, messages, a) && s != "" && NoFolds(h, a, s)
    ensures InStep(h, a, s, messages, BodyRun(p, s), b)
  {
    FeedBody(h, a, s);
    var need := p.contentLength - |p.message.body|;
    if need > |s| {
      return a;
    }
    var m := p.message.(body := p.message.body + s[..need]);
    b := a.(stage := StartLine, message := m, foldable := false, messages := a.messages + [m]);
  }

  /** The run once the section is complete: `p` and `b` hold its fields. */
  lemma SectionInStep(h: Handler, p: ParserState, rest: string, messages: seq<Message>, b: Push) returns (e: Push)
    requires p.stage == Header && Matches(p, messages, b) && NoFolds(h, EndSection(h, b), rest)
    requires rest != ""
    ensures InStep(h, EndSection(h, b), rest, messages, SectionDone(h, p, rest), e)
  {
    e := EndSection(h, b);
    if e.stage == Body {
      e := BodyInStep(h, p.(stage := Body, contentLength := e.contentLength), rest, messages, e);
    }
  }

  /** The same at the end of the input. */
  lemma SectionAtEnd(h: Handler, p: ParserState, last: char, messages: seq<Message>, b: Push)
    requires p.stage == Header && Matches(p, messages, b)
    ensures var r := SectionDone(h, p.(skipLf := last == CR), "");
            r.rest == "" && Agree(Link(r.p, "", messages + Delivered(r.message)),
                                  EndSection(h, b).(skipLf := last == CR))
  {
  }

  lemma HeaderInStep(h: Handler, p: ParserState, s: string, messages: seq<Message>, a: Push) returns (b: Push)
    requires p.stage == Header && Matches(p, messages, a) && s != "" && NoFolds(h, a, s)
    ensures InStep(h, a, s, messages, HeaderRun(h, p, s[|s| - 1], s), b)
  {
    var r := SectionRead(p.message.fields, s);
    b := FeedSection(h, a, s);
    var whole := HeaderRun(h, p, s[|s| - 1], s);
    if r.eos {
      NoLine(r.rest);
      FeedLine(h, b, r.rest);
    } else if r.done && r.rest == "" {
      SectionAtEnd(h, p.(message := b.message), s[|s| - 1], messages, b);
    } else if r.done {
      var p' := p.(message := b.message);
      b := SectionInStep(h, p', r.rest, messages, b);
      assert whole == SectionDone(h, p', r.rest);
    }
  }

  lemma NoLine(s: string)
    requires !HasLine(s)
    ensures forall c | c in s :: c !in EOL
  {
  }

  lemma StartInStep(h: Handler, p: ParserState, s: string, messages: seq<Message>, a: Push) returns (b: Push)
    requires p.stage == StartLine && Matches(p, messages, a) && s != "" && NoFolds(h, a, s)
    ensures InStep(h, a, s, messages, StageRun(h, p, s[|s| - 1], s), b)
  {
    if !HasLine(s) {
      NoLine(s);
      FeedLine(h, a, s);
      return a;
    }
    FeedFirstLine(h, a, s);
    b := EndLine(h, a, FirstLine(s));
    var t := AfterLine(s);
    if h.accept(FirstLine(s)) && t != "" {
      assert t[|t| - 1] == s[|s| - 1];
      b := HeaderInStep(h, p.(stage := Header, message := b.message), t, messages, b);
    }
  }

  lemma StageInStep(h: Handler, p: ParserState, s: string, messages: seq<Message>, a: Push) returns (b: Push)
    requires Matches(p, messages, a) && s != "" && NoFolds(h, a, s)
    ensures InStep(h, a, s, messages, StageRun(h, p, s[|s| - 1], s), b)
  {
    match p.stage
    case StartLine => b := StartInStep(h, p, s, messages, a);
    case Header => b := HeaderInStep(h, p, s, messages, a);
    case Body => b := BodyInStep(h, p, s, messages, a);
  }

  lemma {:induction false} DrainAgrees(h: Handler, p: ParserState, s: string, messages: seq<Message>, a: Push)
    requires Matches(p, messages, a) && s != "" && NoFolds(h, a, s)
    ensures Agree(Drain(h, p, s, messages), Feed(h, a, s))
    decreases |s|
  {
    var b := StageInStep(h, p, s, messages, a);
    var r := RunOn(h, p, s);
    if r.rest != "" && !r.eos {
      DrainAgrees(h, r.p, r.rest, messages + Delivered(r.message), b);
    }
  }

  // ----- one delivery -----

  /** The LF of a line end that the last delivery cut in two is skipped by both. */
  lemma ReceiveSkipsLf(h: Handler, l: Link, data: string, a: Push)
    requires !h.accept("")
    requires l.p.Valid() && l.tail == "" && data != "" && NoFolds(h, a, data)
    requires Matches(l.p.(skipLf := false), l.messages, a.(skipLf := false))
    requires l.p.skipLf && a.skipLf && data[0] == LF
    ensures Agree(ReceiveOn(h, l, data), Feed(h, a, data))
  {
    assert l.tail + data == data;
    var p := l.p.(skipLf := false);
    var b := a.(skipLf := false);
    var t := data[1..];
    FeedFirst(h, a, data);
    if t == "" {
      LoneLf(h, l.p, l.messages, data);
    } else {
      var c := StageInStep(h, p, t, l.messages, b);
      assert t[|t| - 1] == data[|data| - 1];
      var r := RunOn(h, l.p, data);
      if r.rest != "" && !r.eos {
        DrainAgrees(h, r.p, r.rest, l.messages + Delivered(r.message), c);
      }
    }
  }

  /** An LF that is skipped leaves nothing to parse. */
  lemma LoneLf(h: Handler, p: ParserState, messages: seq<Message>, data: string)
    requires p.Valid() && p.skipLf && data == [LF]
    ensures Drain(h, p, data, messages) == Link(p.(skipLf := false), "", messages)
  {
    assert data[1..] == "" && messages + [] == messages;
    assert p.stage == Body ==> p.message.body + "" == p.message.body;
  }

  /** A delivery that meets both parsers at the start of a line or inside a body. */
  lemma ReceiveAtLineStart(h: Handler, l: Link, data: string, a: Push)
    requires !h.accept("")
    requires l.p.Valid() && l.tail == "" && data != "" && NoFolds(h, a, data)
    requires Matches(l.p.(skipLf := false), l.messages, a.(skipLf := false))
    requires l.p.skipLf ==> a.skipLf
    requires a.skipLf && !l.p.skipLf ==> a.stage == StartLine && !a.foldable
    ensures Agree(ReceiveOn(h, l, data), Feed(h, a, data))
  {
    if l.p.skipLf && data[0] == LF {
      ReceiveSkipsLf(h, l, data, a);
    } else {
      assert l.tail + data == data;
      var p := l.p.(skipLf := false);
      var b := a.(skipLf := false);
      assert Char(h, a, data[0]) == Char(h, b, data[0]);
      assert Feed(h, a, data) == Feed(h, b, data) && NoFolds(h, b, data);
      assert RunOn(h, l.p, data) == RunOn(h, p, data);
      DrainAgrees(h, p, data, l.messages, b);
    }
  }

  lemma ReceiveAgrees(h: Handler, l: Link, data: string, a: Push)
    requires !h.accept("") && Agree(l, a) && data != "" && NoFolds(h, a, data)
    ensures Agree(ReceiveOn(h, l, data), Feed(h, a, data))
  {
    if l.tail == "" {
      ReceiveAtLineStart(h, l, data, a);
    } else {
      // the kept tail is read again from its start
      var b := a.(line := "");
      FeedLine(h, b, l.tail);
      assert Feed(h, b, l.tail) == a;
      FeedConcat(h, b, l.tail, data);
      DrainAgrees(h, l.p, l.tail + data, l.messages, b);
    }
  }

  // ----- whole runs -----

  const NEW_LINK := Link(FRESH, "", [])

  function Flatten(chunks: seq<string>): string
  {
    if chunks == [] then "" else chunks[0] + Flatten(chunks[1..])
  }

  predicate NonEmptyChunks(chunks: seq<string>) { forall i | 0 <= i < |chunks| :: chunks[i] != "" }

  function ReceiveAll(h: Handler, l: Link, chunks: seq<string>): (l': Link)
    requires l.p.Valid() && NonEmptyChunks(chunks)
    ensures l'.p.Valid()
    decreases |chunks|
  {
    if chunks == [] then l else ReceiveAll(h, ReceiveOn(h, l, chunks[0]), chunks[1..])
  }

  lemma {:induction false} ReceiveAllAgrees(h: Handler, l: Link, chunks: seq<string>, a: Push)
    requires !h.accept("") && Agree(l, a) && NonEmptyChunks(chunks) && NoFolds(h, a, Flatten(chunks))
    ensures Agree(ReceiveAll(h, l, chunks), Feed(h, a, Flatten(chunks)))
    decreases |chunks|
  {
    if chunks != [] {
      FeedConcat(h, a, chunks[0], Flatten(chunks[1..]));
      ReceiveAgrees(h, l, chunks[0], a);
      ReceiveAllAgrees(h, ReceiveOn(h, l, chunks[0]), chunks[1..], Feed(h, a, chunks[0]));
    }
  }

  /** Two ways to cut the same input deliver the same messages and leave the same
      parser and the same unconsumed tail. Inputs may hold any number of messages,
      malformed header lines, and rejected start lines and sections. */
  lemma SegmentationIndependence(h: Handler, chunks: seq<string>, chunks': seq<string>)
    requires !h.accept("")
    requires NonEmptyChunks(chunks) && NonEmptyChunks(chunks') && Flatten(chunks) == Flatten(chunks')
    requires NoFolds(h, START, Flatten(chunks))
    ensures var l, l' := ReceiveAll(h, NEW_LINK, chunks), ReceiveAll(h, NEW_LINK, chunks');
            && l.messages == l'.messages && l.tail == l'.tail
            && l.p.(skipLf := false) == l'.p.(skipLf := false)
  {
    ReceiveAllAgrees(h, NEW_LINK, chunks, START);
    ReceiveAllAgrees(h, NEW_LINK, chunks', START);
  }
}
