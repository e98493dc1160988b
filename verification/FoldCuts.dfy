/** Where a header line is folded the cut matters to the end of the input: two ways to
    cut it leave different fields in the same message, whatever follows. */
module FoldCuts {
  import opened Options
  import opened TextStream
  import opened TextMessage
  import opened MessageParser
  import opened Segmentation
  import opened Printing
  import opened Delivery

  /** The k-th message, delivered or under way, has `f` as its i-th field. */
  predicate Carries(p: ParserState, messages: seq<Message>, k: nat, i: nat, f: Field)
  {
    if |messages| > k then HasField(messages[k], i, f)
    else |messages| == k && p.stage != StartLine && HasField(p.message, i, f)
  }

  predicate HasField(m: Message, i: nat, f: Field) { |m.fields| > i && m.fields[i] == f }

  /** Fields are only added. */
  lemma {:induction false} SectionExtends(before: seq<Field>, s: string)
    ensures before <= SectionRead(before, s).fields
    decreases |s|
  {
    var r := FieldRead(s);
    if !(r.field.Some? && r.field.value.name == "") && r.rest != "" && !r.eos {
      var more := if r.field.Some? then before + [r.field.value] else before;
      SectionExtends(more, r.rest);
    }
  }

  lemma BodyCarries(p: ParserState, s: string, messages: seq<Message>, k: nat, i: nat, f: Field)
    requires p.stage == Body && p.Valid() && Carries(p, messages, k, i, f)
    ensures var r := BodyRun(p, s); Carries(r.p, messages + Delivered(r.message), k, i, f)
  {
  }

  lemma SectionCarries(h: Handler, p: ParserState, rest: string, messages: seq<Message>, k: nat, i: nat, f: Field)
    requires p.stage == Header && p.Valid() && Carries(p, messages, k, i, f)
    ensures var r := SectionDone(h, p, rest); Carries(r.p, messages + Delivered(r.message), k, i, f)
  {
    match h.bodyLength(p.message.start, p.message.fields)
    case None =>
    case Some(n) =>
      if n > 0 {
        BodyCarries(p.(stage := Body, contentLength := n), rest, messages, k, i, f);
      }
  }

  lemma HeaderCarries(h: Handler, p: ParserState, last: char, s: string, messages: seq<Message>,
                      k: nat, i: nat, f: Field)
    requires p.stage == Header && p.Valid()
    requires var q := p.(message := p.message.(fields := SectionRead(p.message.fields, s).fields));
             Carries(q, messages, k, i, f)
    ensures var r := HeaderRun(h, p, last, s); Carries(r.p, messages + Delivered(r.message), k, i, f)
  {
    var r := SectionRead(p.message.fields, s);
    var q := p.(skipLf := p.skipLf || SplitEol(last, r.rest), message := p.message.(fields := r.fields));
    if r.done {
      SectionCarries(h, q, r.rest, messages, k, i, f);
    }
  }

  /** One call of the parser. */
  lemma RunCarries(h: Handler, p: ParserState, s: string, messages: seq<Message>, k: nat, i: nat, f: Field)
    requires p.Valid() && s != "" && Carries(p, messages, k, i, f)
    ensures var r := RunOn(h, p, s); Carries(r.p, messages + Delivered(r.message), k, i, f)
  {
    if |messages| == k {
      var q, t := p.(skipLf := false), Resumed(p, s);
      if p.stage == Header {
        SectionExtends(p.message.fields, t);
        HeaderCarries(h, q, s[|s| - 1], t, messages, k, i, f);
      } else {
        BodyCarries(q, t, messages, k, i, f);
      }
    }
  }

  lemma {:induction false} DrainCarries(h: Handler, p: ParserState, s: string, messages: seq<Message>,
                                        k: nat, i: nat, f: Field)
    requires p.Valid() && s != "" && Carries(p, messages, k, i, f)
    ensures var l := Drain(h, p, s, messages); Carries(l.p, l.messages, k, i, f)
    decreases |s|
  {
    RunCarries(h, p, s, messages, k, i, f);
    var r := RunOn(h, p, s);
    if r.rest != "" && !r.eos {
      DrainCarries(h, r.p, r.rest, messages + Delivered(r.message), k, i, f);
    }
  }

  /** The field and its continuation in one delivery: the value is put together. */
  lemma TogetherCarries(h: Handler, p: ParserState, messages: seq<Message>, f: Field, v: string)
    requires p.stage == Header && p.Valid() && !p.skipLf && GoodField(f)
    ensures var l := ReceiveOn(h, Link(p, "", messages), FieldText(f) + v);
            Carries(l.p, l.messages, |messages|, |p.message.fields|, Field(f.name, f.value + FoldLines(v).0))
  {
    var s, g := FieldText(f) + v, Field(f.name, f.value + FoldLines(v).0);
    var before := p.message.fields;
    FoldedRead(f, v);
    FirstFieldRead(before, s, g);
    HeaderCarries(h, p, s[|s| - 1], s, messages, |messages|, |before|, g);
    var r := RunOn(h, p, s);
    assert "" + s == s;
    if r.rest != "" && !r.eos {
      DrainCarries(h, r.p, r.rest, messages + Delivered(r.message), |messages|, |before|, g);
    }
  }

  lemma FoldedRead(f: Field, v: string)
    requires GoodField(f)
    ensures FieldText(f) + v != "" && FieldRead(FieldText(f) + v).field == Some(Field(f.name, f.value + FoldLines(v).0))
  {
    var line := f.name + ": " + f.value;
    FieldTextLine(f, v);
    LineRoundTrip(line, v);
    PairRoundTrip(f);
  }

  lemma FirstFieldRead(before: seq<Field>, s: string, g: Field)
    requires FieldRead(s).field == Some(g) && g.name != ""
    ensures |SectionRead(before, s).fields| > |before| && SectionRead(before, s).fields[|before|] == g
  {
    var r := FieldRead(s);
    if r.rest != "" && !r.eos {
      SectionExtends(before + [g], r.rest);
    }
  }

  /** In two deliveries the value stays as it was. */
  lemma ApartCarries(h: Handler, p: ParserState, messages: seq<Message>, f: Field, v: string)
    requires p.stage == Header && p.Valid() && !p.skipLf && GoodField(f) && v != ""
    ensures var l := ReceiveOn(h, ReceiveOn(h, Link(p, "", messages), FieldText(f)), v);
            Carries(l.p, l.messages, |messages|, |p.message.fields|, f)
  {
    FieldAlone(p.message.fields, f);
    ReceiveLines(h, p, messages, FieldText(f), p.message.fields + [f]);
    var q := p.(message := p.message.(fields := p.message.fields + [f]));
    assert "" + v == v;
    DrainCarries(h, q, v, messages, |messages|, |p.message.fields|, f);
  }

  lemma FieldAlone(before: seq<Field>, f: Field)
    requires GoodField(f)
    ensures FieldText(f) != "" && FieldText(f)[|FieldText(f)| - 1] == LF
    ensures SectionRead(before, FieldText(f)) == SectionResult(before + [f], false, "", false)
  {
    assert FieldText(f) + "" == FieldText(f);
    FieldRoundTrip(f, "");
  }

  /** Whatever was received before the field, and whatever comes behind the fold: if the
      continuation adds any text, the two cuts never agree again, in what is delivered
      or in the message under way. */
  lemma FoldedCutsDisagree(h: Handler, p: ParserState, messages: seq<Message>, f: Field, v: string)
    requires p.stage == Header && p.Valid() && !p.skipLf && GoodField(f) && FoldLines(v).0 != ""
    ensures var l := Link(p, "", messages);
            var one, two := ReceiveOn(h, l, FieldText(f) + v), ReceiveOn(h, ReceiveOn(h, l, FieldText(f)), v);
            one.messages != two.messages || one.p.message != two.p.message
  {
    TogetherCarries(h, p, messages, f, v);
    ApartCarries(h, p, messages, f, v);
  }

  /** A continuation still without its end is left with its white space or without it. */
  lemma UnterminatedCutsDisagree(h: Handler, p: ParserState, messages: seq<Message>, f: Field, v: string)
    requires p.stage == Header && p.Valid() && !p.skipLf && GoodField(f)
    requires v != "" && v[0] in WSP && !HasLine(v)
    ensures var l := Link(p, "", messages);
            var one, two := ReceiveOn(h, l, FieldText(f) + v), ReceiveOn(h, ReceiveOn(h, l, FieldText(f)), v);
            one.tail == v[Scan(v, 0, WSP, false)..] != v == two.tail
  {
    UnterminatedTogether(h, p, messages, f, v);
    FieldAlone(p.message.fields, f);
    ReceiveLines(h, p, messages, FieldText(f), p.message.fields + [f]);
    assert "" + v == v;
  }

  lemma UnterminatedTogether(h: Handler, p: ParserState, messages: seq<Message>, f: Field, v: string)
    requires p.stage == Header && p.Valid() && !p.skipLf && GoodField(f)
    requires v != "" && v[0] in WSP && !HasLine(v)
    ensures ReceiveOn(h, Link(p, "", messages), FieldText(f) + v).tail == v[Scan(v, 0, WSP, false)..] != v
  {
    var s, t := FieldText(f) + v, v[Scan(v, 0, WSP, false)..];
    NoLineBehind(v, Scan(v, 0, WSP, false));
    FieldTextLine(f, v);
    LineRoundTrip(f.name + ": " + f.value, v);
    PairRoundTrip(f);
    assert FieldRead(s).rest == t && FieldRead(s).eos;
    assert "" + s == s;
  }

  lemma NoLineBehind(s: string, n: nat)
    requires n <= |s| && !HasLine(s)
    ensures !HasLine(s[n..])
  {
    assert forall k | 0 <= k < |s[n..]| :: s[n..][k] == s[n + k];
  }

  /** A continuation of nothing but white space may do no harm: where it is taken for
      the end of the section, the next line is a start line that is dropped. */
  lemma BlankFoldAgrees(h: Handler, p: ParserState, messages: seq<Message>, f: Field)
    requires p.stage == Header && p.Valid() && !p.skipLf && GoodField(f) && !h.accept("")
    requires h.bodyLength(p.message.start, p.message.fields + [f]) == Some(0)
    ensures var l, v := Link(p, "", messages), " " + CRLF + CRLF;
            ReceiveOn(h, l, FieldText(f) + v) == ReceiveOn(h, ReceiveOn(h, l, FieldText(f)), v)
  {
    var q := p.(message := p.message.(fields := p.message.fields + [f]));
    FieldAlone(p.message.fields, f);
    ReceiveLines(h, p, messages, FieldText(f), p.message.fields + [f]);
    BlankTogether(h, p, messages, f);
    BlankApart(h, q, messages);
  }

  lemma BlankTogether(h: Handler, p: ParserState, messages: seq<Message>, f: Field)
    requires p.stage == Header && p.Valid() && !p.skipLf && GoodField(f)
    requires h.bodyLength(p.message.start, p.message.fields + [f]) == Some(0)
    ensures var m := p.message.(fields := p.message.fields + [f]);
            ReceiveOn(h, Link(p, "", messages), FieldText(f) + (" " + CRLF + CRLF))
            == Link(p.(stage := StartLine, message := m), "", messages + [m])
  {
    var v := " " + CRLF + CRLF;
    var s := FieldText(f) + v;
    BlankFold();
    FieldTextLine(f, v);
    LineRoundTrip(f.name + ": " + f.value, v);
    PairRoundTrip(f);
    assert f.value + "" == f.value;
    assert FieldRead(s) == FieldResult(Some(f), CRLF, false);
    SectionReadField(p.message.fields, s, f, CRLF);
    EmptyLineRead("");
    assert CRLF + "" == CRLF;
    SectionReadDone(p.message.fields + [f], CRLF);
    assert s[|s| - 1] == LF;
    ReceiveOnce(h, p, messages, s);
  }

  lemma BlankFold()
    ensures FoldLines(" " + CRLF + CRLF) == ("", CRLF, false)
  {
    var s := " " + CRLF + CRLF;
    assert Scan(s, 0, WSP, false) == 1 by { assert s[0] == SP && s[1] == CR; }
    assert s[1..] == "" + CRLF + CRLF;
    LineRoundTrip("", CRLF);
    assert CRLF[0] == CR;
    assert FoldLines(CRLF) == ("", CRLF, false);
    var t := s[Scan(s, 0, WSP, false)..];
    assert HasLine(t) && FirstLine(t) == "" && AfterLine(t) == CRLF;
    assert "" + "" == "";
  }

  lemma BlankApart(h: Handler, p: ParserState, messages: seq<Message>)
    requires p.stage == Header && p.Valid() && !p.skipLf && !h.accept("")
    requires h.bodyLength(p.message.start, p.message.fields) == Some(0)
    ensures ReceiveOn(h, Link(p, "", messages), " " + CRLF + CRLF)
            == Link(p.(stage := StartLine), "", messages + [p.message])
  {
    var s := " " + CRLF + CRLF;
    BlankRun(h, p, s);
    assert "" + s == s;
    EmptyLineDropped(h, p.(stage := StartLine), messages + [p.message]);
  }

  /** The line of white space ends the section. */
  lemma BlankRun(h: Handler, p: ParserState, s: string)
    requires p.stage == Header && p.Valid() && !p.skipLf && s == " " + CRLF + CRLF
    requires h.bodyLength(p.message.start, p.message.fields) == Some(0)
    ensures RunOn(h, p, s) == RunResult(p.(stage := StartLine), CRLF, false, Complete, Some(p.message))
  {
    BlankLineRead();
    SectionReadDone(p.message.fields, s);
    assert s[|s| - 1] == LF;
  }

  lemma EmptyLineDropped(h: Handler, p: ParserState, messages: seq<Message>)
    requires p.stage == StartLine && p.Valid() && !p.skipLf && !h.accept("")
    ensures Drain(h, p, CRLF, messages) == Link(p, "", messages)
  {
    LineRoundTrip("", "");
    assert "" + CRLF + "" == CRLF;
    assert RunOn(h, p, CRLF) == RunResult(p, "", false, Incomplete, None);
    assert messages + [] == messages;
  }

  /** A line of white space alone is the empty field. */
  lemma BlankLineRead()
    ensures FieldRead(" " + CRLF + CRLF) == FieldResult(Some(Field("", "")), CRLF, false)
  {
    var s := " " + CRLF + CRLF;
    LineRoundTrip(" ", CRLF);
    assert Scan(" ", 0, WSP, false) == 1;
    assert CRLF[0] == CR && "" + "" == "";
  }

  // ----- from the first delivery on -----

  /** A last delivery is received where the ones before it left off. */
  predicate LastIsLast(h: Handler, l: Link, chunks: seq<string>, last: string)
    requires l.p.Valid() && NonEmptyChunks(chunks) && NonEmptyChunks(chunks + [last]) && last != ""
  {
    ReceiveAll(h, l, chunks + [last]) == ReceiveOn(h, ReceiveAll(h, l, chunks), last)
  }

  lemma NonEmptyMore(chunks: seq<string>, last: string)
    requires NonEmptyChunks(chunks) && last != ""
    ensures NonEmptyChunks(chunks + [last])
  {
  }

  lemma OneChunk(h: Handler, l: Link, last: string)
    requires l.p.Valid() && last != "" && NonEmptyChunks([] + [last])
    ensures LastIsLast(h, l, [], last)
  {
    assert [] + [last] == [last] + [];
    ReceiveAllFirst(h, l, last, []);
  }

  lemma ReceiveAllStep(h: Handler, l: Link, chunks: seq<string>, first: Link, more: seq<string>)
    requires l.p.Valid() && chunks != [] && NonEmptyChunks(chunks)
    requires first == ReceiveOn(h, l, chunks[0]) && more == chunks[1..]
    ensures ReceiveAll(h, l, chunks) == ReceiveAll(h, first, more)
  {
  }

  lemma TailOfMore(chunks: seq<string>, last: string)
    requires chunks != []
    ensures (chunks + [last])[0] == chunks[0] && (chunks + [last])[1..] == chunks[1..] + [last]
  {
  }

  lemma OneChunkMore(h: Handler, l: Link, chunks: seq<string>, first: Link, last: string)
    requires l.p.Valid() && chunks != [] && last != ""
    requires NonEmptyChunks(chunks) && NonEmptyChunks(chunks + [last]) && NonEmptyChunks(chunks[1..] + [last])
    requires first == ReceiveOn(h, l, chunks[0]) && LastIsLast(h, first, chunks[1..], last)
    ensures LastIsLast(h, l, chunks, last)
  {
    ReceiveAllStep(h, l, chunks, first, chunks[1..]);
    TailOfMore(chunks, last);
    ReceiveAllStep(h, l, chunks + [last], first, chunks[1..] + [last]);
  }

  lemma {:induction false} ReceiveAllLast(h: Handler, l: Link, chunks: seq<string>, last: string)
    requires l.p.Valid() && NonEmptyChunks(chunks) && NonEmptyChunks(chunks + [last]) && last != ""
    ensures LastIsLast(h, l, chunks, last)
    decreases |chunks|
  {
    if chunks == [] {
      OneChunk(h, l, last);
    } else {
      var first := ReceiveOn(h, l, chunks[0]);
      NonEmptyMore(chunks[1..], last);
      ReceiveAllLast(h, first, chunks[1..], last);
      OneChunkMore(h, l, chunks, first, last);
    }
  }

  lemma ReceiveAllOne(h: Handler, l: Link, chunks: seq<string>, before: Link, last: string)
    requires l.p.Valid() && NonEmptyChunks(chunks) && NonEmptyChunks(chunks + [last]) && last != ""
    requires before == ReceiveAll(h, l, chunks)
    ensures ReceiveAll(h, l, chunks + [last]) == ReceiveOn(h, before, last)
  {
    ReceiveAllLast(h, l, chunks, last);
  }

  /** Any deliveries that end behind a whole header line, then a field and its
      continuation: in one delivery and in two they leave different results. */
  lemma FoldedInputDependsOnCut(h: Handler, chunks: seq<string>, f: Field, v: string)
    requires NonEmptyChunks(chunks) && GoodField(f) && FoldLines(v).0 != ""
    requires var l := ReceiveAll(h, NEW_LINK, chunks); l.p.stage == Header && !l.p.skipLf && l.tail == ""
    ensures NonEmptyChunks(chunks + [FieldText(f) + v]) && NonEmptyChunks(chunks + [FieldText(f)] + [v])
    ensures var one := ReceiveAll(h, NEW_LINK, chunks + [FieldText(f) + v]);
            var two := ReceiveAll(h, NEW_LINK, chunks + [FieldText(f)] + [v]);
            one.messages != two.messages || one.p.message != two.p.message
  {
    var l, first, both := ReceiveAll(h, NEW_LINK, chunks), FieldText(f), FieldText(f) + v;
    NonEmptyMore(chunks, both);
    NonEmptyMore(chunks, first);
    NonEmptyMore(chunks + [first], v);
    ReceiveAllOne(h, NEW_LINK, chunks, l, both);
    ReceiveAllOne(h, NEW_LINK, chunks, l, first);
    ReceiveAllOne(h, NEW_LINK, chunks + [first], ReceiveOn(h, l, first), v);
    assert l == Link(l.p, "", l.messages);
    FoldedCutsDisagree(h, l.p, l.messages, f, v);
  }
}
