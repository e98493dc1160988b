/** Header fields and sections, and the message parser that can be resumed with
    the next piece of its input (section 2.2 of RFC 5322). */
module TextMessage {
  import opened Options
  import opened TextStream
  import Sequences

  // ----- header fields and sections, over the text left to read -----

  /** Continuation lines: each begins with white space, which is dropped. A last
      line without terminator ends the stream with only its white space consumed. */
  function FoldLines(s: string): (r: (string, string, bool))
    ensures |r.1| <= |s|
    ensures s == "" || s[0] !in WSP ==> r == ("", s, false)
    decreases |s|
  {
    if s == "" || s[0] !in WSP then ("", s, false)
    else
      var t := s[Scan(s, 0, WSP, false)..];
      if HasLine(t) then
        var (added, rest, eos) := FoldLines(AfterLine(t));
        (FirstLine(t) + added, rest, eos)
      else ("", t, true)
  }

  /** A field (None if malformed or incomplete), what is left, and whether the
      end of the stream was hit. */
  datatype FieldResult = FieldResult(field: Option<Field>, rest: string, eos: bool)

  function FieldRead(s: string): (r: FieldResult)
    ensures HasLine(s) ==> |r.rest| < |s|
    ensures !HasLine(s) ==> r == FieldResult(None, s, true)
  {
    if !HasLine(s) then FieldResult(None, s, true)
    else match ParsePair(FirstLine(s))
      case None => FieldResult(None, AfterLine(s), false)
      case Some(f) =>
        var (added, rest, eos) := FoldLines(AfterLine(s));
        FieldResult(Some(Field(f.name, f.value + added)), rest, eos)
  }

  /** The fields of a section; `done` once the empty line was met. */
  datatype SectionResult = SectionResult(fields: seq<Field>, done: bool, rest: string, eos: bool)

  /** The fields read are added to those in `fields`. */
  function SectionRead(fields: seq<Field>, s: string): (r: SectionResult)
    ensures |r.rest| <= |s| && (HasLine(s) ==> |r.rest| < |s|)
    ensures !HasLine(s) ==> r == SectionResult(fields, false, s, true)
    ensures !r.done ==> r.rest == "" || r.eos
    decreases |s|
  {
    var r := FieldRead(s);
    if r.field.Some? && r.field.value.name == "" then SectionResult(fields, true, r.rest, r.eos)
    else
      var more := if r.field.Some? then fields + [r.field.value] else fields;
      if r.rest == "" || r.eos then SectionResult(more, false, r.rest, r.eos)
      else SectionRead(more, r.rest)
  }

  function FieldsText(fields: seq<Field>): string
  {
    if fields == [] then "" else FieldText(fields[0]) + FieldsText(fields[1..])
  }

  function SectionText(fields: seq<Field>): string { FieldsText(fields) + CRLF }

  /** What the section printer writes for `fields` into `room` places: a field
      that does not fit is left out, and the printer goes on with the next. */
  function FieldsPrinted(fields: seq<Field>, room: int): string
  {
    if fields == [] then ""
    else
      var f := fields[0];
      var n := |f.name| + |f.value|;
      if n + 2 >= room then FieldsPrinted(fields[1..], room)
      else if n + 4 >= room then f.name + ": " + f.value + FieldsPrinted(fields[1..], room - n - 2)
      else FieldText(f) + FieldsPrinted(fields[1..], room - n - 4)
  }

  /** One continuation line, and what is folded after `before` was. */
  lemma FoldStep(before: string, s: string)
    requires s != "" && s[0] in WSP
    ensures var t := s[Scan(s, 0, WSP, false)..];
            |t| < |s| &&
            if HasLine(t) then
              && before + FoldLines(s).0 == (before + FirstLine(t)) + FoldLines(AfterLine(t)).0
              && FoldLines(s).1 == FoldLines(AfterLine(t)).1 && FoldLines(s).2 == FoldLines(AfterLine(t)).2
            else FoldLines(s) == ("", t, true) && FoldLines(t) == ("", t, false)
  {
    var t := s[Scan(s, 0, WSP, false)..];
    if HasLine(t) {
      Sequences.Reassociate(before, FirstLine(t), FoldLines(AfterLine(t)).0);
    }
  }

  /** The value may span further lines that begin with white space. */
  method FoldedLinesRead(stream: TextReader) returns (folded: string)
    requires stream.Valid()
    modifies stream`pos, stream`isEos
    ensures stream.Valid()
    ensures var (added, rest, eos) := FoldLines(old(stream.Rest()));
            folded == added && stream.Rest() == rest && stream.isEos == (old(stream.isEos) || eos)
  {
    folded := "";
    ghost var t, e := stream.Rest(), stream.isEos;
    Sequences.Reassociate("", "", FoldLines(t).0);
    while stream.pos < |stream.text|
      invariant stream.Valid()
      invariant FoldLines(t).0 == folded + FoldLines(stream.Rest()).0 && FoldLines(t).1 == FoldLines(stream.Rest()).1
      invariant (e || FoldLines(t).2) == (stream.isEos || FoldLines(stream.Rest()).2)
      decreases |stream.Rest()|
    {
      if stream.text[stream.pos] !in WSP {
        break;
      }
      FoldStep(folded, stream.Rest());
      stream.Skip(WSP, true);
      var more, line := stream.LineRead();
      if more {
        folded := folded + line;
      }
    }
    assert FoldLines(stream.Rest()) == ("", stream.Rest(), false);
  }

  method HeaderFieldParse(stream: TextReader) returns (field: Option<Field>)
    requires stream.Valid()
    modifies stream`pos, stream`isEos
    ensures stream.Valid()
    ensures var r := FieldRead(old(stream.Rest()));
            field == r.field && stream.Rest() == r.rest && stream.isEos == (old(stream.isEos) || r.eos)
  {
    var ok, pair := stream.HeaderRead();
    if !ok {
      return None;
    }
    var folded := FoldedLinesRead(stream);
    return Some(Field(pair.name, pair.value + folded));
  }

  /** Appends the fields read to `before`; `done` once the empty line was met.
      Every caller starts on a stream whose end was not hit yet. */
  method HeaderSectionParse(stream: TextReader, before: seq<Field>) returns (done: bool, fields: seq<Field>)
    requires stream.Valid() && !stream.isEos
    modifies stream`pos, stream`isEos
    ensures stream.Valid()
    ensures var r := SectionRead(before, old(stream.Rest()));
            done == r.done && fields == r.fields && stream.Rest() == r.rest && stream.isEos == r.eos
  {
    ghost var all := SectionRead(before, stream.Rest());
    fields, done := before, false;
    var more := true;
    while more
      invariant stream.Valid()
      invariant if more then !stream.isEos && !done && all == SectionRead(fields, stream.Rest())
                else all == SectionResult(fields, done, stream.Rest(), stream.isEos)
      decreases more, |stream.Rest()|
    {
      var field := HeaderFieldParse(stream);
      if field.Some? && field.value.name == "" {
        done, more := true, false;
      } else {
        fields := if field.Some? then fields + [field.value] else fields;
        more := !stream.AtEnd();
      }
    }
  }

  /** Prints the fields and the empty line. A field that does not fit is left
      out and this is not reported: `ok` speaks of the empty line only. */
  method HeaderSectionGenerate(fields: seq<Field>, stream: TextWriter) returns (ok: bool)
    requires stream.Valid()
    modifies stream`pos, stream.buf
    ensures stream.Valid() && stream.end == old(stream.end) && stream.buf == old(stream.buf)
    ensures stream.Written() == old(stream.Written()) + FieldsPrinted(fields, old(stream.end - stream.pos))
                                + if ok then CRLF else ""
    ensures ok == (old(stream.pos) + |FieldsPrinted(fields, old(stream.end - stream.pos))| + 2 < stream.end)
  {
    var i := 0;
    ghost var room := stream.end - stream.pos;
    ghost var before := stream.Written();
    while i < |fields|
      invariant i <= |fields| && stream.Valid() && stream.end == old(stream.end) && stream.buf == old(stream.buf)
      invariant before + FieldsPrinted(fields, room)
                == stream.Written() + FieldsPrinted(fields[i..], stream.end - stream.pos)
    {
      ghost var w := stream.Written();
      var f := fields[i];
      var written := stream.NameValueInsert(f.name, f.value);
      assert fields[i..][1..] == fields[i + 1..];
      i := i + 1;
    }
    ok := stream.EolInsert();
  }
}
