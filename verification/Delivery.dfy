/** Messages printed one after another arrive unchanged, however they are cut. */
module Delivery {
  import opened Options
  import opened TextStream
  import opened TextMessage
  import opened MessageParser
  import opened Segmentation
  import opened Printing
  import Sequences

  /** A message whose header section announces its body and does not run into it,
      and whose start line the protocol accepts. */
  predicate GoodMessage(h: Handler, m: Message)
  {
    && m.start != "" && m.start[0] !in WSP && NoEol(m.start) && h.accept(m.start)
    && GoodFields(m.fields) && NoFoldAt(m.body)
    && h.bodyLength(m.start, m.fields) == Some(|m.body|)
  }

  function MessageText(m: Message): string
  {
    m.start + CRLF + (FieldsText(m.fields) + (CRLF + m.body))
  }

  function MessagesText(ms: seq<Message>): string
  {
    if ms == [] then "" else MessageText(ms[0]) + MessagesText(ms[1..])
  }

  lemma FeedWholeLine(h: Handler, a: Push, line: string)
    requires a.stage != Body && !a.skipLf && a.line == "" && NoEol(line)
    requires !(a.foldable && !NoFoldAt(line))
    ensures NoFolds(h, a, line + CRLF) && Feed(h, a, line + CRLF) == EndLine(h, a, line)
  {
    FeedConcat(h, a, line, CRLF);
    FeedLine(h, a, line);
    var b := Feed(h, a, line);
    assert b.line == line;
    FeedCrlf(h, b);
    assert EndLine(h, b, line) == EndLine(h, a, line);
  }

  lemma FeedCrlf(h: Handler, b: Push)
    requires b.stage != Body && !b.skipLf
    ensures NoFolds(h, b, CRLF) && Feed(h, b, CRLF) == EndLine(h, b, b.line)
  {
    FeedTerminator(h, b, CRLF);
    assert CRLF[EolWidth(CRLF, 0)..] == "";
    var c := Char(h, b, CR);
    assert c == EndLine(h, b, b.line).(skipLf := true);
    assert CRLF[1..] == [LF] && [LF][1..] == "" && NoFolds(h, c, [LF]);
  }

  lemma {:induction false} FeedFields(h: Handler, a: Push, fields: seq<Field>)
    requires a.stage == Header && !a.skipLf && a.line == "" && GoodFields(fields)
    ensures NoFolds(h, a, FieldsText(fields))
    ensures Feed(h, a, FieldsText(fields)) ==
            a.(message := a.message.(fields := a.message.fields + fields), foldable := a.foldable || fields != [])
    decreases |fields|
  {
    if fields == [] {
      assert a.message.fields + fields == a.message.fields;
    } else {
      var f := fields[0];
      var line := f.name + ": " + f.value;
      assert NoEol(line) && line[0] == f.name[0];
      FeedWholeLine(h, a, line);
      PairRoundTrip(f);
      var b := EndLine(h, a, line);
      FeedConcat(h, a, line + CRLF, FieldsText(fields[1..]));
      FeedFields(h, b, fields[1..]);
      Sequences.Shift(a.message.fields, fields);
    }
  }

  lemma {:induction false} FeedWholeBody(h: Handler, a: Push, s: string)
    requires a.stage == Body && !a.skipLf && |a.message.body| + |s| == a.contentLength && s != ""
    requires !(a.foldable && !NoFoldAt(s))
    ensures NoFolds(h, a, s)
    ensures var m := a.message.(body := a.message.body + s);
            Feed(h, a, s) == a.(stage := StartLine, message := m, foldable := false, messages := a.messages + [m])
    decreases |s|
  {
    var b := Char(h, a, s[0]);
    if |s| == 1 {
      assert s == [s[0]];
    } else {
      FeedWholeBody(h, b, s[1..]);
      Sequences.Shift(a.message.body, s);
    }
  }

  /** The empty line and the body. */
  lemma FeedSectionEnd(h: Handler, a: Push, body: string)
    requires a.stage == Header && !a.skipLf && a.line == "" && a.message.body == "" && NoFoldAt(body)
    requires h.bodyLength(a.message.start, a.message.fields) == Some(|body|)
    ensures NoFolds(h, a, CRLF + body)
    ensures var b := Feed(h, a, CRLF + body);
            var m := a.message.(body := body);
            b.stage == StartLine && !b.skipLf && b.line == "" && b.messages == a.messages + [m]
  {
    FeedWholeLine(h, a, "");
    assert "" + CRLF == CRLF;
    FeedConcat(h, a, CRLF, body);
    var c := EndLine(h, a, "");
    assert c == EndSection(h, a.(foldable := true));
    if body != "" {
      FeedWholeBody(h, c, body);
      assert "" + body == body;
    }
  }

  lemma FeedMessage(h: Handler, a: Push, m: Message)
    requires a.stage == StartLine && !a.skipLf && a.line == "" && GoodMessage(h, m)
    ensures NoFolds(h, a, MessageText(m))
    ensures var b := Feed(h, a, MessageText(m));
            b.stage == StartLine && !b.skipLf && b.line == "" && b.messages == a.messages + [m]
  {
    FeedWholeLine(h, a, m.start);
    var b := EndLine(h, a, m.start);
    FeedFields(h, b, m.fields);
    assert [] + m.fields == m.fields;
    FeedSectionEnd(h, Feed(h, b, FieldsText(m.fields)), m.body);
    FeedConcat(h, b, FieldsText(m.fields), CRLF + m.body);
    FeedConcat(h, a, m.start + CRLF, FieldsText(m.fields) + (CRLF + m.body));
  }

  lemma {:induction false} FeedMessages(h: Handler, a: Push, ms: seq<Message>)
    requires a.stage == StartLine && !a.skipLf && a.line == ""
    requires forall i | 0 <= i < |ms| :: GoodMessage(h, ms[i])
    ensures NoFolds(h, a, MessagesText(ms))
    ensures var b := Feed(h, a, MessagesText(ms));
            b.stage == StartLine && b.line == "" && b.messages == a.messages + ms
    decreases |ms|
  {
    if ms == [] {
      assert a.messages + ms == a.messages;
    } else {
      FeedMessage(h, a, ms[0]);
      FeedMessages(h, Feed(h, a, MessageText(ms[0])), ms[1..]);
      FeedConcat(h, a, MessageText(ms[0]), MessagesText(ms[1..]));
      Sequences.Shift(a.messages, ms);
    }
  }

  /** Any number of printed messages, cut in any way, arrive whole and in order,
      and nothing is left over. */
  lemma MessagesArrive(h: Handler, ms: seq<Message>, chunks: seq<string>)
    requires !h.accept("")
    requires forall i | 0 <= i < |ms| :: GoodMessage(h, ms[i])
    requires NonEmptyChunks(chunks) && Flatten(chunks) == MessagesText(ms)
    ensures var l := ReceiveAll(h, NEW_LINK, chunks);
            l.messages == ms && l.tail == "" && l.p.stage == StartLine
  {
    FeedMessages(h, START, ms);
    ReceiveAllAgrees(h, NEW_LINK, chunks, START);
    assert [] + ms == ms;
  }

  /** Without the condition on folds the cut does matter: whatever the message under
      way and the field, a value continued on the next line is put together only if
      both lines come in one delivery. */
  lemma FoldedLineDependsOnCut(h: Handler, p: ParserState, messages: seq<Message>, f: Field, word: string)
    requires p.stage == Header && p.Valid() && !p.skipLf
    requires GoodField(f) && NoEol(word) && word != "" && word[0] !in WSP && ':' !in word
    ensures var l := Link(p, "", messages);
            var first, second, before := FieldText(f), " " + word + CRLF, p.message.fields;
            && ReceiveOn(h, l, first + second) == WithFields(l, before + [Field(f.name, f.value + word)])
            && ReceiveOn(h, ReceiveOn(h, l, first), second) == WithFields(l, before + [f])
  {
    var first, second, before := FieldText(f), " " + word + CRLF, p.message.fields;
    FoldedInOne(before, f, word);
    FoldedInTwo(before, f, word);
    ReceiveLines(h, p, messages, first + second, before + [Field(f.name, f.value + word)]);
    ReceiveLines(h, p, messages, first, before + [f]);
    ReceiveLines(h, p.(message := p.message.(fields := before + [f])), messages, second, before + [f]);
  }

  function WithFields(l: Link, fields: seq<Field>): Link
  {
    l.(p := l.p.(message := l.p.message.(fields := fields)))
  }

  /** The same from the first delivery of a connection on, once a start line is accepted. */
  lemma FoldedMessageDependsOnCut(h: Handler, start: string, f: Field, word: string)
    requires NoEol(start) && h.accept(start)
    requires GoodField(f) && NoEol(word) && word != "" && word[0] !in WSP && ':' !in word
    ensures var first, second := FieldText(f), " " + word + CRLF;
            && ReceiveAll(h, NEW_LINK, [start + CRLF, first + second]).p.message.fields
               == [Field(f.name, f.value + word)]
            && ReceiveAll(h, NEW_LINK, [start + CRLF, first, second]).p.message.fields == [f]
  {
    var first, second := FieldText(f), " " + word + CRLF;
    var p := ParserState(Header, false, Message(start, [], ""), 0);
    ReceiveStart(h, start);
    FoldedLineDependsOnCut(h, p, [], f, word);
    var l := Link(p, "", []);
    ReceiveTwo(h, NEW_LINK, start + CRLF, first + second);
    ReceiveThree(h, NEW_LINK, start + CRLF, first, second);
    OnlyField(l, f);
    OnlyField(l, Field(f.name, f.value + word));
  }

  lemma OnlyField(l: Link, f: Field)
    requires l.p.message.fields == []
    ensures WithFields(l, l.p.message.fields + [f]).p.message.fields == [f]
  {
  }

  lemma ReceiveAllFirst(h: Handler, l: Link, chunk: string, chunks: seq<string>)
    requires l.p.Valid() && chunk != "" && NonEmptyChunks(chunks)
    ensures ReceiveAll(h, l, [chunk] + chunks) == ReceiveAll(h, ReceiveOn(h, l, chunk), chunks)
  {
    assert ([chunk] + chunks)[1..] == chunks;
  }

  lemma ReceiveTwo(h: Handler, l: Link, a: string, b: string)
    requires l.p.Valid() && a != "" && b != ""
    ensures ReceiveAll(h, l, [a, b]) == ReceiveOn(h, ReceiveOn(h, l, a), b)
  {
    assert [a, b] == [a] + [b] && [b] == [b] + [];
    ReceiveAllFirst(h, l, a, [b]);
    ReceiveAllFirst(h, ReceiveOn(h, l, a), b, []);
  }

  lemma ReceiveThree(h: Handler, l: Link, a: string, b: string, c: string)
    requires l.p.Valid() && a != "" && b != "" && c != ""
    ensures ReceiveAll(h, l, [a, b, c]) == ReceiveOn(h, ReceiveOn(h, ReceiveOn(h, l, a), b), c)
  {
    assert [a, b, c] == [a] + [b, c];
    ReceiveAllFirst(h, l, a, [b, c]);
    ReceiveTwo(h, ReceiveOn(h, l, a), b, c);
  }

  lemma ReceiveStart(h: Handler, start: string)
    requires NoEol(start) && h.accept(start)
    ensures ReceiveOn(h, NEW_LINK, start + CRLF) == Link(ParserState(Header, false, Message(start, [], ""), 0), "", [])
  {
    var s := start + CRLF;
    LineRoundTrip(start, "");
    assert s + "" == s && "" + s == s;
    assert s[|s| - 1] == LF;
    assert [] + Delivered(None) == [];
  }

  /** The parser once what begins the body was taken for a folded value. */
  function BodyLeft(p: ParserState, body: string): ParserState
    requires body != ""
  {
    var rest := FoldLines(body).1;
    ParserState(Body, SplitEol(body[|body| - 1], rest), p.message.(body := rest), |body|)
  }

  /** The other case that is left out: white space at the start of a body that comes
      with the empty line before it is taken for a folded value, and lost. The body
      arrives whole in one delivery if and only if it does not begin with white
      space, and always in a delivery of its own. */
  lemma BodyDependsOnCutIff(h: Handler, p: ParserState, messages: seq<Message>, body: string)
    requires p.stage == Header && p.Valid() && !p.skipLf && body != ""
    requires h.bodyLength(p.message.start, p.message.fields) == Some(|body|)
    ensures var l, m := Link(p, "", messages), p.message.(body := body);
            var whole := Link(ParserState(StartLine, false, m, |body|), "", messages + [m]);
            && ReceiveOn(h, ReceiveOn(h, l, CRLF), body) == whole
            && (ReceiveOn(h, l, CRLF + body) == whole <==> body[0] !in WSP)
            && (body[0] in WSP ==>
                  |FoldLines(body).1| < |body|
                  && ReceiveOn(h, l, CRLF + body) == Link(BodyLeft(p, body), "", messages))
  {
    BodyAlone(h, p, messages, body);
    BodyTogether(h, p, messages, body);
    if body[0] in WSP {
      FoldStep("", body);
    }
  }

  lemma BodyAlone(h: Handler, p: ParserState, messages: seq<Message>, body: string)
    requires p.stage == Header && p.Valid() && !p.skipLf && body != ""
    requires h.bodyLength(p.message.start, p.message.fields) == Some(|body|)
    ensures var m := p.message.(body := body);
            ReceiveOn(h, ReceiveOn(h, Link(p, "", messages), CRLF), body)
            == Link(ParserState(StartLine, false, m, |body|), "", messages + [m])
  {
    var q := p.(stage := Body, contentLength := |body|);
    SectionAlone(h, p, body);
    ReceiveOnce(h, p, messages, CRLF);
    BodyTaken(q, body, body);
    ReceiveOnce(h, q, messages, body);
  }

  /** The empty line in a delivery of its own. */
  lemma SectionAlone(h: Handler, p: ParserState, body: string)
    requires p.stage == Header && p.Valid() && !p.skipLf && body != ""
    requires h.bodyLength(p.message.start, p.message.fields) == Some(|body|)
    ensures RunOn(h, p, CRLF) == RunResult(p.(stage := Body, contentLength := |body|), "", false, Incomplete, None)
  {
    EmptyLineRead("");
    assert CRLF + "" == CRLF && CRLF[|CRLF| - 1] == LF;
    SectionReadDone(p.message.fields, CRLF);
    assert p.message.body + "" == p.message.body;
  }

  lemma BodyTogether(h: Handler, p: ParserState, messages: seq<Message>, body: string)
    requires p.stage == Header && p.Valid() && !p.skipLf && body != ""
    requires h.bodyLength(p.message.start, p.message.fields) == Some(|body|)
    ensures var rest, m := FoldLines(body).1, p.message.(body := body);
            ReceiveOn(h, Link(p, "", messages), CRLF + body) ==
            if |rest| < |body| then Link(BodyLeft(p, body), "", messages)
            else Link(ParserState(StartLine, false, m, |body|), "", messages + [m])
  {
    var q := p.(stage := Body, contentLength := |body|, skipLf := BodyLeft(p, body).skipLf);
    SectionEndRun(h, p, body);
    BodyTaken(q, FoldLines(body).1, body);
    ReceiveOnce(h, p, messages, CRLF + body);
  }

  /** A delivery that one call of the parser uses up. */
  lemma ReceiveOnce(h: Handler, p: ParserState, messages: seq<Message>, s: string)
    requires p.Valid() && s != "" && RunOn(h, p, s).rest == ""
    ensures var r := RunOn(h, p, s);
            ReceiveOn(h, Link(p, "", messages), s)
            == Link(r.p, "", if r.message.Some? then messages + [r.message.value] else messages)
  {
    assert "" + s == s;
    assert messages + [] == messages;
  }

  lemma SectionEndRun(h: Handler, p: ParserState, body: string)
    requires p.stage == Header && p.Valid() && !p.skipLf && body != ""
    requires h.bodyLength(p.message.start, p.message.fields) == Some(|body|)
    ensures var skipLf := SplitEol(body[|body| - 1], FoldLines(body).1);
            var q := p.(stage := Body, contentLength := |body|, skipLf := skipLf);
            RunOn(h, p, CRLF + body) == BodyRun(q, FoldLines(body).1).(eos := FoldLines(body).2)
  {
    var s := CRLF + body;
    SectionEndRead(p.message.fields, body);
    assert s[|s| - 1] == body[|body| - 1];
  }

  lemma SectionEndRead(before: seq<Field>, body: string)
    ensures SectionRead(before, CRLF + body) == SectionResult(before, true, FoldLines(body).1, FoldLines(body).2)
  {
    EmptyLineRead(body);
    SectionReadDone(before, CRLF + body);
  }

  /** What the body takes of `rest`, which is the body itself or shorter. */
  lemma BodyTaken(p: ParserState, rest: string, body: string)
    requires p.stage == Body && p.message.body == "" && p.contentLength == |body| > 0
    requires |rest| < |body| || rest == body
    ensures var m := p.message.(body := body);
            BodyRun(p, rest) ==
            if |rest| < |body| then RunResult(p.(message := p.message.(body := rest)), "", false, Incomplete, None)
            else RunResult(p.(stage := StartLine, message := m), "", false, Complete, Some(m))
  {
    assert "" + rest == rest;
    assert body[..|body|] == body && body[|body|..] == "";
  }

  /** A delivery of whole header lines. */
  lemma ReceiveLines(h: Handler, p: ParserState, messages: seq<Message>, s: string, fields: seq<Field>)
    requires p.stage == Header && p.Valid() && !p.skipLf && s != "" && s[|s| - 1] == LF
    requires SectionRead(p.message.fields, s) == SectionResult(fields, false, "", false)
    ensures ReceiveOn(h, Link(p, "", messages), s) == WithFields(Link(p, "", messages), fields)
  {
    assert "" + s == s;
    assert messages + Delivered(None) == messages;
  }

  lemma FoldWord(word: string)
    requires NoEol(word) && word != "" && word[0] !in WSP
    ensures FoldLines(" " + word + CRLF) == (word, "", false)
  {
    var s := " " + word + CRLF;
    assert Scan(s, 0, WSP, false) == 1 by { assert s[0] == SP && s[1] == word[0]; }
    assert s[1..] == word + CRLF + "";
    LineRoundTrip(word, "");
    assert word + "" == word;
  }

  lemma FoldedInOne(before: seq<Field>, f: Field, word: string)
    requires GoodField(f) && NoEol(word) && word != "" && word[0] !in WSP
    ensures SectionRead(before, FieldText(f) + (" " + word + CRLF))
            == SectionResult(before + [Field(f.name, f.value + word)], false, "", false)
  {
    var line, second := f.name + ": " + f.value, " " + word + CRLF;
    FieldTextLine(f, second);
    LineRoundTrip(line, second);
    PairRoundTrip(f);
    FoldWord(word);
  }

  lemma FieldTextLine(f: Field, rest: string)
    requires GoodField(f)
    ensures NoEol(f.name + ": " + f.value)
    ensures FieldText(f) + rest == f.name + ": " + f.value + CRLF + rest
  {
  }

  lemma FoldedInTwo(before: seq<Field>, f: Field, word: string)
    requires GoodField(f) && NoEol(word) && word != "" && word[0] !in WSP && ':' !in word
    ensures SectionRead(before, FieldText(f)) == SectionResult(before + [f], false, "", false)
    ensures SectionRead(before + [f], " " + word + CRLF) == SectionResult(before + [f], false, "", false)
  {
    assert FieldText(f) + "" == FieldText(f);
    FieldRoundTrip(f, "");
    ContinuationAlone(word);
  }

  /** On its own a continuation line is a header line without a colon. */
  lemma ContinuationAlone(word: string)
    requires NoEol(word) && word != "" && word[0] !in WSP && ':' !in word
    ensures FieldRead(" " + word + CRLF) == FieldResult(None, "", false)
  {
    var line := " " + word;
    assert line + CRLF + "" == " " + word + CRLF;
    LineRoundTrip(line, "");
    NoColon(line, word);
  }

  lemma NoColon(line: string, word: string)
    requires line == " " + word && word != "" && word[0] !in WSP && ':' !in word
    ensures ParsePair(line) == None
  {
    assert line[0] == SP && line[1] == word[0] && Scan(line, 0, WSP, false) == 1;
    assert forall i | 1 <= i < |line| :: line[i] == word[i - 1];
    assert Scan(line, 2, {':'}, true) == |line|;
  }
}
