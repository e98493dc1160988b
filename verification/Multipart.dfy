/** Multipart content (section 5.1 of RFC 2046): parts with a type, an identifier
    and a body of counted length, between boundary lines. */
module Multipart {
  import opened Options
  import opened TextStream
  import opened TextMessage
  import opened Printing
  import opened Decimal
  import Sequences

  const CONTENT_LENGTH := "Content-Length"
  const CONTENT_TYPE := "Content-Type"
  const CONTENT_ID := "Content-Id"
  const HYPHENS := "--"
  const DEFAULT_BOUNDARY := "break"
  const DEFAULT_SIZE := 4096
  /** The largest value of the C type int, which atoi returns. */
  const INT_MAX := 0x7FFF_FFFF

  datatype Part = Part(contentType: Option<string>, id: Option<string>, body: Option<string>)

  // ----- the text of multipart content -----

  function OptionalField(name: string, value: Option<string>): seq<Field>
  {
    if value.Some? then [Field(name, value.value)] else []
  }

  function PartFields(p: Part): seq<Field>
  {
    OptionalField(CONTENT_TYPE, p.contentType) + OptionalField(CONTENT_ID, p.id)
    + if p.body.Some? then [Field(CONTENT_LENGTH, Digits(|p.body.value|))] else []
  }

  function BodyText(p: Part): string { if p.body.Some? then p.body.value else "" }

  function PartText(boundary: string, p: Part): string
  {
    CRLF + HYPHENS + boundary + CRLF + (SectionText(PartFields(p)) + BodyText(p))
  }

  function FinalText(boundary: string): string { CRLF + HYPHENS + boundary + HYPHENS + CRLF }

  function ContentText(boundary: string, parts: seq<Part>): string
  {
    if parts == [] then FinalText(boundary)
    else PartText(boundary, parts[0]) + ContentText(boundary, parts[1..])
  }

  // ----- reading -----

  function TrimSpaces(s: string): (t: string)
    ensures t <= s
  {
    if s != "" && s[|s| - 1] == SP then TrimSpaces(s[..|s| - 1]) else s
  }

  datatype Delimiter = Delimiter(boundary: string, final: bool, rest: string)

  function LineDelimiter(line: string, rest: string): Delimiter
  {
    var b := TrimSpaces(line);
    if |b| >= 2 && b[|b| - 2..] == HYPHENS then Delimiter(b[..|b| - 2], true, rest)
    else Delimiter(b, false, rest)
  }

  /** Everything up to a hyphen is preamble, and all hyphens that follow are skipped. */
  function SkipHyphens(s: string): (t: string)
    ensures |t| <= |s|
  {
    var s1 := s[Scan(s, 0, {'-'}, true)..];
    s1[Scan(s1, 0, {'-'}, false)..]
  }

  /** The next boundary line. */
  function ReadDelimiter(s: string): (r: Option<Delimiter>)
    ensures r.Some? ==> |r.value.rest| < |s|
  {
    var t := SkipHyphens(s);
    if !HasLine(t) then None else Some(LineDelimiter(FirstLine(t), AfterLine(t)))
  }

  function Lower(c: char): char { if 'A' <= c <= 'Z' then c + ('a' - 'A') else c }

  /** Comparison of non-empty strings regardless of case. */
  predicate SameText(a: string, b: string)
  {
    |a| == |b| != 0 && forall i | 0 <= i < |a| :: Lower(a[i]) == Lower(b[i])
  }

  /** The part's header values: for each the last field whose name is a prefix of
      the header's name. */
  datatype Values = Values(length: Option<string>, contentType: Option<string>, id: Option<string>)

  function PartValues(fields: seq<Field>): Values
  {
    if fields == [] then Values(None, None, None)
    else ValueTaken(PartValues(fields[..|fields| - 1]), fields[|fields| - 1])
  }

  function ValueTaken(v: Values, f: Field): Values
  {
    if f.name <= CONTENT_LENGTH then v.(length := Some(f.value))
    else if f.name <= CONTENT_TYPE then v.(contentType := Some(f.value))
    else if f.name <= CONTENT_ID then v.(id := Some(f.value))
    else v
  }

  /** The value of a Content-Length header; None where atoi is undefined or negative. */
  function ContentLength(value: string): Option<nat>
  {
    if value != "" && value[0] == '-' then None
    else
      var n := Number(if value != "" && value[0] == '+' then value[1..] else value, 0);
      if n <= INT_MAX then Some(n) else None
  }

  /** The outcome of reading one part, with the boundary known from then on. */
  datatype PartResult = Failed | Final(boundary: string, rest: string)
                      | Got(boundary: string, part: Part, rest: string)

  function PartBody(boundary: string, v: Values, s: string): (r: PartResult)
    ensures r.Got? ==> |r.rest| <= |s| && r.boundary == boundary
    ensures !r.Final?
  {
    if v.length.None? then Got(boundary, Part(v.contentType, v.id, None), s)
    else if v.length.value == "" then Got(boundary, Part(v.contentType, v.id, Some("")), s)
    else match ContentLength(v.length.value)
      case None => Failed
      case Some(n) =>
        if n > |s| then Failed
        else Got(boundary, Part(v.contentType, v.id, Some(s[..n])), s[n..])
  }

  /** The header section and the body of the part in `s`. */
  function ReadSection(boundary: string, s: string): (r: PartResult)
    ensures r.Got? ==> |r.rest| <= |s| && r.boundary == boundary
    ensures !r.Final?
  {
    var r := SectionRead([], s);
    if r.done then PartBody(boundary, PartValues(r.fields), r.rest) else Failed
  }

  /** Reads the next part of `s`; an empty `boundary` is learnt from the content. */
  function ReadPart(boundary: string, s: string): (r: PartResult)
    ensures r.Got? ==> |r.rest| < |s|
  {
    match ReadDelimiter(s)
    case None => Failed
    case Some(d) =>
      if boundary != "" && !SameText(boundary, d.boundary) then Failed
      else
        var known := if boundary == "" then d.boundary else boundary;
        if d.final then Final(known, d.rest) else ReadSection(known, d.rest)
  }

  /** All parts up to the final boundary (None if it is never reached). */
  function ReadContent(boundary: string, s: string): Option<seq<Part>>
    decreases |s|
  {
    match ReadPart(boundary, s)
    case Failed => None
    case Final(_, _) => Some([])
    case Got(b, part, rest) =>
      var more := ReadContent(b, rest);
      if more.None? then None else Some([part] + more.value)
  }

  // ----- the round trip -----

  /** The boundaries that can be told from the hyphens around them. */
  predicate GoodBoundary(b: string)
  {
    && b != "" && NoEol(b) && b[0] != '-' && b[|b| - 1] != SP
    && !(|b| >= 2 && b[|b| - 2..] == HYPHENS)
  }

  /** The parts that survive: header values are kept as they are, and the body
      does not look like the continuation of the header section. */
  predicate GoodPart(p: Part)
  {
    && (p.contentType.Some? ==> GoodField(Field(CONTENT_TYPE, p.contentType.value)))
    && (p.id.Some? ==> GoodField(Field(CONTENT_ID, p.id.value)))
    && (p.body.Some? ==> NoFoldAt(p.body.value) && |p.body.value| <= INT_MAX)
  }

  lemma {:induction false} TrimNothing(s: string)
    requires s == "" || s[|s| - 1] != SP
    ensures TrimSpaces(s) == s
  {
  }

  lemma {:induction false} TrimEnd(s: string)
    ensures TrimSpaces(s) == "" || TrimSpaces(s)[|TrimSpaces(s)| - 1] != SP
    decreases |s|
  {
    if s != "" && s[|s| - 1] == SP {
      TrimEnd(s[..|s| - 1]);
    }
  }

  /** A line whose first character is no hyphen is found behind its hyphens. */
  lemma DelimiterFound(line: string, rest: string)
    requires line != "" && line[0] != '-' && NoEol(line)
    ensures ReadDelimiter(CRLF + HYPHENS + line + CRLF + rest) == Some(LineDelimiter(line, rest))
  {
    var s := CRLF + HYPHENS + line + CRLF + rest;
    assert s[0] == CR && s[1] == LF && s[2] == '-' && s[3] == '-' && s[4] == line[0];
    var s1 := s[Scan(s, 0, {'-'}, true)..];
    assert s1 == s[2..];
    var s2 := s1[Scan(s1, 0, {'-'}, false)..];
    assert s2 == s[4..] == line + CRLF + rest;
    LineRoundTrip(line, rest);
  }

  lemma PartDelimiter(b: string, rest: string)
    requires GoodBoundary(b)
    ensures ReadDelimiter(CRLF + HYPHENS + b + CRLF + rest) == Some(Delimiter(b, false, rest))
  {
    DelimiterFound(b, rest);
    TrimNothing(b);
  }

  lemma FinalDelimiter(b: string, rest: string)
    requires GoodBoundary(b)
    ensures ReadDelimiter(FinalText(b) + rest) == Some(Delimiter(b, true, rest))
  {
    var line := b + HYPHENS;
    assert FinalText(b) + rest == CRLF + HYPHENS + line + CRLF + rest;
    DelimiterFound(line, rest);
    TrimNothing(line);
    assert line[|line| - 2..] == HYPHENS && line[..|line| - 2] == b;
  }

  lemma NumberIsGood(n: nat)
    ensures ContentLength(Digits(n)) == if n <= INT_MAX then Some(n) else None
    ensures GoodField(Field(CONTENT_LENGTH, Digits(n)))
  {
    NumberOfDigits(n);
    var s := Digits(n);
    assert IsDigit(s[0]);
    assert forall i | 0 <= i < |s| :: IsDigit(s[i]);
  }

  lemma GoodPartFields(p: Part)
    requires GoodPart(p)
    ensures GoodFields(PartFields(p))
  {
    if p.body.Some? {
      NumberIsGood(|p.body.value|);
    }
  }

  lemma PartValuesOf(p: Part)
    ensures PartValues(PartFields(p)) ==
            Values(if p.body.Some? then Some(Digits(|p.body.value|)) else None, p.contentType, p.id)
  {
    // the names part at their ninth character
    assert CONTENT_LENGTH[8] == 'L' && CONTENT_TYPE[8] == 'T' && CONTENT_ID[8] == 'I';
    var none := Values(None, None, None);
    var t := OptionalField(CONTENT_TYPE, p.contentType);
    assert p.contentType.Some? ==> t[..|t| - 1] == [];
    assert PartValues(t) == none.(contentType := p.contentType);
    var ti := t + OptionalField(CONTENT_ID, p.id);
    assert if p.id.Some? then ti[..|ti| - 1] == t else ti == t;
    assert PartValues(ti) == none.(contentType := p.contentType, id := p.id);
    var all := PartFields(p);
    assert if p.body.Some? then all[..|all| - 1] == ti else all == ti;
  }

  lemma BodyStart(body: string, rest: string)
    requires NoFoldAt(body) && NoFoldAt(rest)
    ensures NoFoldAt(body + rest)
  {
    assert body == "" ==> body + rest == rest;
  }

  lemma TakeBody(body: string, rest: string)
    ensures (body + rest)[..|body|] == body && (body + rest)[|body|..] == rest
  {
  }

  lemma PartSection(p: Part, rest: string)
    requires GoodPart(p) && NoFoldAt(rest)
    ensures SectionRead([], SectionText(PartFields(p)) + (BodyText(p) + rest))
            == SectionResult(PartFields(p), true, BodyText(p) + rest, false)
  {
    GoodPartFields(p);
    BodyStart(BodyText(p), rest);
    SectionRoundTrip([], PartFields(p), BodyText(p) + rest);
  }

  lemma PartBodyRoundTrip(known: string, p: Part, rest: string)
    requires GoodPart(p)
    ensures PartBody(known, PartValues(PartFields(p)), BodyText(p) + rest) == Got(known, p, rest)
  {
    PartValuesOf(p);
    TakeBody(BodyText(p), rest);
    if p.body.Some? {
      NumberIsGood(|p.body.value|);
    }
  }

  lemma PartTextEnds(b: string, p: Part, rest: string)
    ensures PartText(b, p) + rest == CRLF + HYPHENS + b + CRLF + (SectionText(PartFields(p)) + (BodyText(p) + rest))
  {
  }

  predicate Knows(known: string, b: string) { known == "" || SameText(known, b) }

  predicate GoodValues(v: Values)
  {
    && (v.contentType.Some? ==> GoodField(Field(CONTENT_TYPE, v.contentType.value)))
    && (v.id.Some? ==> GoodField(Field(CONTENT_ID, v.id.value)))
  }

  lemma ValueTakenIsGood(v: Values, f: Field)
    requires GoodValues(v) && GoodField(f)
    ensures GoodValues(ValueTaken(v, f))
  {
  }

  lemma {:induction false} ValuesAreGood(fields: seq<Field>)
    requires GoodFields(fields)
    ensures GoodValues(PartValues(fields))
  {
    if fields != [] {
      var front, last := fields[..|fields| - 1], fields[|fields| - 1];
      assert GoodFields(front) by { assert forall k | 0 <= k < |front| :: front[k] == fields[k]; }
      ValuesAreGood(front);
      ValueTakenIsGood(PartValues(front), last);
    }
  }

  /** The values of a part that was read are good, whatever the text was. */
  lemma PartReadIsGood(known: string, s: string)
    requires ReadSection(known, s).Got?
    ensures var p := ReadSection(known, s).part;
            && (p.contentType.Some? ==> GoodField(Field(CONTENT_TYPE, p.contentType.value)))
            && (p.id.Some? ==> GoodField(Field(CONTENT_ID, p.id.value)))
  {
    SectionFieldsAreGood([], s);
    ValuesAreGood(SectionRead([], s).fields);
  }

  lemma {:induction false} FoldConsumes(s: string)
    requires !NoFoldAt(s)
    ensures |FoldLines(s).1| < |s|
  {
  }

  /** The section of a part with good values is read as such, whatever its body. */
  lemma SectionThenBody(known: string, p: Part, rest: string)
    requires p.contentType.Some? ==> GoodField(Field(CONTENT_TYPE, p.contentType.value))
    requires p.id.Some? ==> GoodField(Field(CONTENT_ID, p.id.value))
    ensures var v := Values(if p.body.Some? then Some(Digits(|p.body.value|)) else None, p.contentType, p.id);
            ReadSection(known, SectionText(PartFields(p)) + (BodyText(p) + rest))
            == PartBody(known, v, FoldLines(BodyText(p) + rest).1)
  {
    if p.body.Some? {
      NumberIsGood(|p.body.value|);
    }
    SectionRoundTrip([], PartFields(p), BodyText(p) + rest);
    assert [] + PartFields(p) == PartFields(p);
    PartValuesOf(p);
  }

  /** A body that begins with white space, or is longer than atoi can tell, is lost. */
  lemma BadBodyIsLost(known: string, p: Part, rest: string)
    requires p.contentType.Some? ==> GoodField(Field(CONTENT_TYPE, p.contentType.value))
    requires p.id.Some? ==> GoodField(Field(CONTENT_ID, p.id.value))
    requires p.body.Some? && (!NoFoldAt(p.body.value) || |p.body.value| > INT_MAX)
    ensures ReadSection(known, SectionText(PartFields(p)) + (BodyText(p) + rest)) != Got(known, p, rest)
  {
    var body, t := p.body.value, FoldLines(BodyText(p) + rest).1;
    SectionThenBody(known, p, rest);
    if |body| <= INT_MAX {
      FoldConsumes(body + rest);
    }
    ShortBody(known, Values(Some(Digits(|body|)), p.contentType, p.id), |body|, t);
  }

  /** A body that is got takes its length off the text, which it cannot exceed. */
  lemma ShortBody(known: string, v: Values, n: nat, s: string)
    requires v.length == Some(Digits(n))
    ensures var r := PartBody(known, v, s); r.Got? ==> n <= INT_MAX && |r.rest| == |s| - n
  {
    NumberIsGood(n);
  }

  lemma BadPartIsLost(known: string, p: Part, rest: string)
    requires !GoodPart(p)
    ensures ReadSection(known, SectionText(PartFields(p)) + (BodyText(p) + rest)) != Got(known, p, rest)
  {
    var s := SectionText(PartFields(p)) + (BodyText(p) + rest);
    if ReadSection(known, s).Got? {
      PartReadIsGood(known, s);
      if ReadSection(known, s).part == p {
        BadBodyIsLost(known, p, rest);
      }
    }
  }

  lemma PartIsRead(known: string, b: string, p: Part, rest: string)
    requires GoodBoundary(b) && Knows(known, b)
    ensures ReadPart(known, PartText(b, p) + rest)
            == ReadSection(if known == "" then b else known, SectionText(PartFields(p)) + (BodyText(p) + rest))
  {
    PartTextEnds(b, p, rest);
    PartDelimiter(b, SectionText(PartFields(p)) + (BodyText(p) + rest));
  }

  /** A part comes back, with what follows it untouched, exactly if it is good. */
  lemma PartRoundTripsIff(known: string, b: string, p: Part, rest: string)
    requires GoodBoundary(b) && Knows(known, b) && NoFoldAt(rest)
    ensures GoodPart(p) <==>
            ReadPart(known, PartText(b, p) + rest) == Got(if known == "" then b else known, p, rest)
  {
    PartIsRead(known, b, p, rest);
    if GoodPart(p) {
      PartSection(p, rest);
      PartBodyRoundTrip(if known == "" then b else known, p, rest);
    } else {
      BadPartIsLost(if known == "" then b else known, p, rest);
    }
  }

  lemma SameTextReflexive(a: string)
    requires a != ""
    ensures SameText(a, a)
  {
  }

  lemma ContentStart(b: string, parts: seq<Part>)
    ensures ContentText(b, parts) != "" && NoFoldAt(ContentText(b, parts))
  {
  }

  lemma ReadOneMore(known: string, s: string, p: Part, more: seq<Part>)
    requires ReadPart(known, s).Got? && ReadPart(known, s).part == p
    requires ReadContent(ReadPart(known, s).boundary, ReadPart(known, s).rest) == Some(more)
    ensures ReadContent(known, s) == Some([p] + more)
  {
  }

  /** All parts come back in order, then the final boundary, whether the boundary
      is given to the reader or learnt from the content. */
  lemma {:induction false} ContentRoundTrip(known: string, b: string, parts: seq<Part>)
    requires GoodBoundary(b) && Knows(known, b)
    requires forall i | 0 <= i < |parts| :: GoodPart(parts[i])
    ensures ReadContent(known, ContentText(b, parts)) == Some(parts)
    decreases |parts|
  {
    if parts == [] {
      assert FinalText(b) + "" == FinalText(b);
      FinalDelimiter(b, "");
    } else {
      var rest := ContentText(b, parts[1..]);
      ContentStart(b, parts[1..]);
      PartRoundTripsIff(known, b, parts[0], rest);
      SameTextReflexive(b);
      ContentRoundTrip(if known == "" then b else known, b, parts[1..]);
      ReadOneMore(known, ContentText(b, parts), parts[0], parts[1..]);
      Sequences.Uncons(parts);
    }
  }

  lemma DelimiterFacts(s: string)
    requires ReadDelimiter(s).Some?
    ensures var d := ReadDelimiter(s).value;
            && NoEol(d.boundary) && (d.boundary != "" ==> d.boundary[0] != '-')
            && (!d.final && d.boundary != "" ==> d.boundary[|d.boundary| - 1] != SP)
            && (!d.final && |d.boundary| >= 2 ==> d.boundary[|d.boundary| - 2..] != HYPHENS)
  {
    var s1 := s[Scan(s, 0, {'-'}, true)..];
    var s2 := s1[Scan(s1, 0, {'-'}, false)..];
    var line := FirstLine(s2);
    TrimEnd(line);
    var d := ReadDelimiter(s).value;
    assert d.boundary <= TrimSpaces(line) <= line <= s2;
    assert s2[0] != '-';
    assert NoEol(line);
  }

  lemma EmptyBoundaryIsLost(rest: string)
    ensures ReadDelimiter(FinalText("") + rest) == Some(Delimiter("", false, rest))
  {
    var s := FinalText("") + rest;
    assert s == CRLF + "----" + CRLF + rest;
    assert s[0] == CR && s[1] == LF && s[2] == s[3] == s[4] == s[5] == '-' && s[6] == CR;
    var s1 := s[Scan(s, 0, {'-'}, true)..];
    assert s1 == s[2..];
    var s2 := s1[Scan(s1, 0, {'-'}, false)..];
    assert s2 == s[6..] == "" + CRLF + rest;
    LineRoundTrip("", rest);
  }

  /** The boundaries of `GoodBoundary` are exactly those found again, both in the
      line before a part and in the final line. */
  lemma BoundaryFoundIff(b: string, rest: string)
    ensures GoodBoundary(b) <==>
            && ReadDelimiter(CRLF + HYPHENS + b + CRLF + rest) == Some(Delimiter(b, false, rest))
            && ReadDelimiter(FinalText(b) + rest) == Some(Delimiter(b, true, rest))
  {
    if GoodBoundary(b) {
      PartDelimiter(b, rest);
      FinalDelimiter(b, rest);
    } else if b == "" {
      EmptyBoundaryIsLost(rest);
    } else if ReadDelimiter(CRLF + HYPHENS + b + CRLF + rest).Some? {
      DelimiterFacts(CRLF + HYPHENS + b + CRLF + rest);
    }
  }

  // ----- what is written -----

  function Join(pieces: seq<string>): string { if pieces == [] then "" else pieces[0] + Join(pieces[1..]) }

  /** Pieces are written until one does not fit; a place stays free after each. */
  function Fitted(pieces: seq<string>, room: int): string
  {
    if pieces == [] || |pieces[0]| >= room then "" else pieces[0] + Fitted(pieces[1..], room - |pieces[0]|)
  }

  lemma FittedFirst(piece: string, rest: seq<string>, room: int)
    ensures Fitted([piece] + rest, room) == if |piece| >= room then "" else piece + Fitted(rest, room - |piece|)
    ensures Join([piece] + rest) == piece + Join(rest)
  {
    assert ([piece] + rest)[1..] == rest;
  }

  /** Either all is written or something is missing. */
  lemma {:induction false} FittedAll(pieces: seq<string>, room: int)
    requires room > 0
    ensures |Fitted(pieces, room)| < room
    ensures if |Join(pieces)| < room then Fitted(pieces, room) == Join(pieces)
            else |Fitted(pieces, room)| < |Join(pieces)|
    decreases |pieces|
  {
    if pieces != [] && |pieces[0]| < room {
      FittedAll(pieces[1..], room - |pieces[0]|);
    }
  }

  function BoundaryPieces(boundary: string, rest: seq<string>): seq<string>
  {
    [CRLF] + ([HYPHENS] + ([boundary] + ([CRLF] + rest)))
  }

  function OptionalPieces(name: string, value: Option<string>, rest: seq<string>): seq<string>
  {
    if value.Some? then [name + ": " + value.value] + ([CRLF] + rest) else rest
  }

  /** A number is written as far as its digits fit. */
  function DigitPieces(digits: string, rest: seq<string>): seq<string>
  {
    if digits == "" then rest else [digits[..1]] + DigitPieces(digits[1..], rest)
  }

  function LengthPieces(body: Option<string>, rest: seq<string>): seq<string>
  {
    if body.Some? then [CONTENT_LENGTH + ": "] + DigitPieces(Digits(|body.value|), [CRLF] + rest) else rest
  }

  function BodyPieces(body: Option<string>): seq<string> { if body.Some? then [body.value] + [] else [] }

  function PartPieces(boundary: string, p: Part): seq<string>
  {
    BoundaryPieces(boundary, OptionalPieces(CONTENT_TYPE, p.contentType, OptionalPieces(CONTENT_ID, p.id,
      LengthPieces(p.body, [CRLF] + BodyPieces(p.body)))))
  }

  lemma {:induction false} DigitsFitted(digits: string, rest: seq<string>, room: int)
    requires room > 0
    ensures Join(DigitPieces(digits, rest)) == digits + Join(rest)
    ensures Fitted(DigitPieces(digits, rest), room)
         == if |digits| < room then digits + Fitted(rest, room - |digits|) else digits[..room - 1]
    decreases |digits|
  {
    if digits == "" {
      assert digits + Join(rest) == Join(rest) && digits + Fitted(rest, room) == Fitted(rest, room);
    } else {
      var first, later := digits[..1], digits[1..];
      FittedFirst(first, DigitPieces(later, rest), room);
      DigitsFitted(later, rest, if room > 1 then room - 1 else 1);
      FirstDigit(digits, Join(rest));
      FirstDigit(digits, Fitted(rest, room - |digits|));
      if 1 < room <= |digits| {
        Sequences.FirstOfPrefix(digits, room - 1);
      }
    }
  }

  lemma FirstDigit(digits: string, rest: string)
    requires digits != ""
    ensures digits[..1] + (digits[1..] + rest) == digits + rest
  {
  }

  // ----- the writer -----

  class MultipartWriter {
    const stream: TextWriter
    const boundary: string

    ghost predicate Valid() reads this, stream { stream.Valid() && stream.end < stream.buf.Length }

    /** A place stays free in the stream. */
    ghost predicate Open() reads this, stream { Valid() && stream.pos < stream.end }

    ghost function Room(): int
      requires Valid()
      reads this, stream
    {
      stream.end - stream.pos
    }

    constructor (maxContentSize: nat, boundary: Option<string>)
      ensures Open() && fresh(stream) && fresh(stream.buf) && stream.Written() == ""
      ensures stream.end == if maxContentSize == 0 then 4096 else maxContentSize
      ensures this.boundary == if boundary.Some? then boundary.value else "break"
    {
      var size := if maxContentSize == 0 then DEFAULT_SIZE else maxContentSize;
      var buffer := new char[size + 1];
      stream := new TextWriter(buffer, size);
      this.boundary := if boundary.Some? then boundary.value else DEFAULT_BOUNDARY;
    }

    /** One piece of text, before the pieces `rest`. */
    method TextPut(str: string, ghost rest: seq<string>) returns (ok: bool)
      requires Open()
      modifies stream`pos, stream.buf
      ensures Open() && stream.end == old(stream.end) && stream.buf == old(stream.buf)
      ensures ok == (|str| < old(Room())) && Room() == old(Room()) - if ok then |str| else 0
      ensures old(stream.Written()) + Fitted([str] + rest, old(Room()))
           == stream.Written() + if ok then Fitted(rest, Room()) else ""
    {
      FittedFirst(str, rest, Room());
      ghost var before, room := stream.Written(), Room();
      ok := stream.StringInsert(str);
      Sequences.Reassociate(before, str, Fitted(rest, room - |str|));
    }

    method EolPut(ghost rest: seq<string>) returns (ok: bool)
      requires Open()
      modifies stream`pos, stream.buf
      ensures Open() && stream.end == old(stream.end) && stream.buf == old(stream.buf)
      ensures ok == (2 < old(Room())) && Room() == old(Room()) - if ok then 2 else 0
      ensures old(stream.Written()) + Fitted([CRLF] + rest, old(Room()))
           == stream.Written() + if ok then Fitted(rest, Room()) else ""
    {
      FittedFirst(CRLF, rest, Room());
      ghost var before, room := stream.Written(), Room();
      ok := stream.EolInsert();
      Sequences.Reassociate(before, CRLF, Fitted(rest, room - 2));
    }

    /** The digits that fit are written; no digit fitting is a failure. */
    method SizeValueInsert(value: nat, ghost rest: seq<string>) returns (ok: bool)
      requires Open()
      modifies stream`pos, stream.buf
      ensures Open() && stream.end == old(stream.end) && stream.buf == old(stream.buf)
      ensures ok == (1 < old(Room()))
      ensures var digits := Digits(value);
              && Room() == (if |digits| < old(Room()) then old(Room()) - |digits| else 1)
              && old(stream.Written()) + Fitted(DigitPieces(digits, rest), old(Room()))
                 == stream.Written() + if |digits| < old(Room()) then Fitted(rest, Room()) else ""
    {
      var digits := Digits(value);
      var room := stream.end - stream.pos - 1;
      DigitsFitted(digits, rest, Room());
      ghost var before := stream.Written();
      ok := stream.StringInsert(if |digits| < room then digits else digits[..room]);
      assert |digits| == room ==> digits[..room] == digits;
      Sequences.Reassociate(before, digits, Fitted(rest, room + 1 - |digits|));
      ok := room > 0;
    }

    /** The end of the line before, the hyphens, the boundary and the end of the line. */
    method Initialize(ghost rest: seq<string>) returns (ok: bool)
      requires Open()
      modifies stream`pos, stream.buf
      ensures Open() && stream.end == old(stream.end) && stream.buf == old(stream.buf)
      ensures ok == (|boundary| + 6 < old(Room())) && (ok ==> Room() == old(Room()) - |boundary| - 6)
      ensures old(stream.Written()) + Fitted(BoundaryPieces(boundary, rest), old(Room()))
           == stream.Written() + if ok then Fitted(rest, Room()) else ""
    {
      ok := EolPut([HYPHENS] + ([boundary] + ([CRLF] + rest)));
      if !ok { return; }
      ok := TextPut(HYPHENS, [boundary] + ([CRLF] + rest));
      if !ok { return; }
      ok := TextPut(boundary, [CRLF] + rest);
      if !ok { return; }
      ok := EolPut(rest);
    }

    method OptionalInsert(name: string, value: Option<string>, ghost rest: seq<string>) returns (ok: bool)
      requires Open()
      modifies stream`pos, stream.buf
      ensures Open() && stream.end == old(stream.end) && stream.buf == old(stream.buf)
      ensures ok == (|FieldsText(OptionalField(name, value))| < old(Room()))
      ensures ok ==> Room() == old(Room()) - |FieldsText(OptionalField(name, value))|
      ensures old(stream.Written()) + Fitted(OptionalPieces(name, value, rest), old(Room()))
           == stream.Written() + if ok then Fitted(rest, Room()) else ""
    {
      ok := true;
      if value.Some? {
        OptionalText(name, value.value);
        ok := FieldInsert(name, value.value, rest);
      }
    }

    method FieldInsert(name: string, value: string, ghost rest: seq<string>) returns (ok: bool)
      requires Open()
      modifies stream`pos, stream.buf
      ensures Open() && stream.end == old(stream.end) && stream.buf == old(stream.buf)
      ensures ok == (|name| + |value| + 4 < old(Room())) && (ok ==> Room() == old(Room()) - |name| - |value| - 4)
      ensures old(stream.Written()) + Fitted([name + ": " + value] + ([CRLF] + rest), old(Room()))
           == stream.Written() + if ok then Fitted(rest, Room()) else ""
    {
      ghost var before, room := stream.Written(), Room();
      ok := stream.NameValueInsert(name, value);
      FieldFitted(before, name, value, rest, room);
    }

    method LengthInsert(body: Option<string>, ghost rest: seq<string>) returns (ok: bool)
      requires Open()
      modifies stream`pos, stream.buf
      ensures Open() && stream.end == old(stream.end) && stream.buf == old(stream.buf)
      ensures ok == (|LengthText(body)| < old(Room())) && (ok ==> Room() == old(Room()) - |LengthText(body)|)
      ensures old(stream.Written()) + Fitted(LengthPieces(body, rest), old(Room()))
           == stream.Written() + if ok then Fitted(rest, Room()) else ""
    {
      ok := true;
      if body.Some? {
        ok := SizeLineInsert(|body.value|, rest);
      }
    }

    method SizeLineInsert(size: nat, ghost rest: seq<string>) returns (ok: bool)
      requires Open()
      modifies stream`pos, stream.buf
      ensures Open() && stream.end == old(stream.end) && stream.buf == old(stream.buf)
      ensures var n := |FieldText(Field(CONTENT_LENGTH, Digits(size)))|;
              ok == (n < old(Room())) && (ok ==> Room() == old(Room()) - n)
      ensures old(stream.Written())
              + Fitted([CONTENT_LENGTH + ": "] + DigitPieces(Digits(size), [CRLF] + rest), old(Room()))
           == stream.Written() + if ok then Fitted(rest, Room()) else ""
    {
      ok := NamePut(CONTENT_LENGTH, DigitPieces(Digits(size), [CRLF] + rest));
      if !ok { return; }
      ok := SizeValueInsert(size, [CRLF] + rest);
      if !ok { return; }
      FittedFirst(CRLF, rest, Room());
      ok := EolPut(rest);
    }

    method NamePut(name: string, ghost rest: seq<string>) returns (ok: bool)
      requires Open()
      modifies stream`pos, stream.buf
      ensures Open() && stream.end == old(stream.end) && stream.buf == old(stream.buf)
      ensures ok == (|name| + 2 < old(Room())) && Room() == old(Room()) - if ok then |name| + 2 else 0
      ensures old(stream.Written()) + Fitted([name + ": "] + rest, old(Room()))
           == stream.Written() + if ok then Fitted(rest, Room()) else ""
    {
      FittedFirst(name + ": ", rest, Room());
      ghost var before, room := stream.Written(), Room();
      ok := stream.HeaderNameInsert(name);
      Sequences.Reassociate(before, name, ": ");
      Sequences.Reassociate(before, name + ": ", Fitted(rest, room - |name| - 2));
    }

    /** Adds one part: its pieces are written until one does not fit, and it fails
        exactly if the part does not fit. */
    method Add2(part: Part) returns (ok: bool)
      requires Open()
      modifies stream`pos, stream.buf
      ensures Open() && stream.end == old(stream.end) && stream.buf == old(stream.buf)
      ensures ok == (|PartText(boundary, part)| < old(Room()))
      ensures stream.Written() == old(stream.Written()) + Fitted(PartPieces(boundary, part), old(Room()))
    {
      ghost var afterLength := [CRLF] + BodyPieces(part.body);
      ghost var afterId := LengthPieces(part.body, afterLength);
      ghost var afterType := OptionalPieces(CONTENT_ID, part.id, afterId);
      PartTextPieces(boundary, part);
      ok := Initialize(OptionalPieces(CONTENT_TYPE, part.contentType, afterType));
      if !ok { return; }
      ok := OptionalInsert(CONTENT_TYPE, part.contentType, afterType);
      if !ok { return; }
      ok := OptionalInsert(CONTENT_ID, part.id, afterId);
      if !ok { return; }
      ok := LengthInsert(part.body, afterLength);
      if !ok { return; }
      ok := BodyInsert(part.body);
    }

    /** The empty line, and the body if there is one. */
    method BodyInsert(body: Option<string>) returns (ok: bool)
      requires Open()
      modifies stream`pos, stream.buf
      ensures Open() && stream.end == old(stream.end) && stream.buf == old(stream.buf)
      ensures ok == (2 + (if body.Some? then |body.value| else 0) < old(Room()))
      ensures stream.Written() == old(stream.Written()) + Fitted([CRLF] + BodyPieces(body), old(Room()))
    {
      ok := EolPut(BodyPieces(body));
      if !ok { return; }
      if body.Some? {
        ok := TextPut(body.value, []);
      }
    }

    /** Writes the final boundary and returns the whole content. */
    method Finalize() returns (content: Option<string>)
      requires Open()
      modifies stream`pos, stream.buf
      ensures Valid() && stream.end == old(stream.end) && stream.buf == old(stream.buf)
      ensures content.Some? == (old(stream.pos) + |FinalText(boundary)| < stream.end)
      ensures content.Some? ==> content.value == stream.Written() == old(stream.Written()) + FinalText(boundary)
    {
      var ok := stream.EolInsert();
      if !ok { return None; }
      ok := stream.StringInsert(HYPHENS);
      if !ok { return None; }
      ok := stream.StringInsert(boundary);
      if !ok { return None; }
      ok := stream.StringInsert(HYPHENS);
      if !ok { return None; }
      ok := stream.EolInsert();
      if !ok { return None; }
      FinalPieces(old(stream.Written()), boundary);
      content := Some(stream.buf[..stream.pos]);
    }
  }

  function LengthText(body: Option<string>): string
  {
    if body.Some? then FieldText(Field(CONTENT_LENGTH, Digits(|body.value|))) else ""
  }

  lemma OptionalText(name: string, value: string)
    ensures FieldsText(OptionalField(name, Some(value))) == FieldText(Field(name, value))
    ensures |FieldText(Field(name, value))| == |name| + |value| + 4
  {
  }

  /** What is left of a header line that does not fit. */
  lemma FieldFitted(before: string, name: string, value: string, rest: seq<string>, room: int)
    ensures before + Fitted([name + ": " + value] + ([CRLF] + rest), room) ==
            if |name| + |value| + 4 < room then
              before + FieldText(Field(name, value)) + Fitted(rest, room - |name| - |value| - 4)
            else if |name| + |value| + 2 < room then before + (name + ": " + value)
            else before
  {
    var line := name + ": " + value;
    FittedFirst(line, [CRLF] + rest, room);
    FittedFirst(CRLF, rest, room - |line|);
    assert FieldText(Field(name, value)) == line + CRLF;
    Sequences.Reassociate(line, CRLF, Fitted(rest, room - |line| - 2));
    Sequences.Reassociate(before, line + CRLF, Fitted(rest, room - |line| - 2));
    assert line + "" == line && before + "" == before;
  }

  lemma FinalPieces(w: string, b: string)
    ensures w + CRLF + HYPHENS + b + HYPHENS + CRLF == w + FinalText(b)
  {
  }

  /** The pieces are the text of the part. */
  lemma PartTextPieces(b: string, p: Part)
    ensures |PartText(b, p)| == |b| + 6 + |FieldsText(OptionalField(CONTENT_TYPE, p.contentType))|
            + |FieldsText(OptionalField(CONTENT_ID, p.id))| + |LengthText(p.body)| + 2 + |BodyText(p)|
    ensures Join(PartPieces(b, p)) == PartText(b, p)
  {
    var t, i := OptionalField(CONTENT_TYPE, p.contentType), OptionalField(CONTENT_ID, p.id);
    var l := if p.body.Some? then [Field(CONTENT_LENGTH, Digits(|p.body.value|))] else [];
    FieldsTextConcat(t + i, l);
    FieldsTextConcat(t, i);
    LengthFields(p);
    var afterLength := [CRLF] + BodyPieces(p.body);
    var afterId := LengthPieces(p.body, afterLength);
    var afterType := OptionalPieces(CONTENT_ID, p.id, afterId);
    JoinBody(p);
    JoinLength(p.body, afterLength);
    JoinOptional(CONTENT_ID, p.id, afterId);
    JoinOptional(CONTENT_TYPE, p.contentType, afterType);
    JoinBoundary(b, OptionalPieces(CONTENT_TYPE, p.contentType, afterType));
    JoinedText(b, FieldsText(t), FieldsText(i), LengthText(p.body), BodyText(p));
  }

  lemma JoinedText(b: string, t: string, i: string, l: string, body: string)
    ensures CRLF + HYPHENS + b + CRLF + (t + (i + (l + (CRLF + body))))
         == CRLF + HYPHENS + b + CRLF + (t + i + l + CRLF + body)
  {
  }

  lemma JoinBody(p: Part)
    ensures Join([CRLF] + BodyPieces(p.body)) == CRLF + BodyText(p)
  {
    FittedFirst(CRLF, BodyPieces(p.body), 0);
    if p.body.Some? {
      FittedFirst(p.body.value, [], 0);
      assert p.body.value + "" == p.body.value;
    }
  }

  lemma JoinLength(body: Option<string>, rest: seq<string>)
    ensures Join(LengthPieces(body, rest)) == LengthText(body) + Join(rest)
  {
    if body.Some? {
      var digits := Digits(|body.value|);
      FittedFirst(CONTENT_LENGTH + ": ", DigitPieces(digits, [CRLF] + rest), 0);
      DigitsFitted(digits, [CRLF] + rest, 1);
      FittedFirst(CRLF, rest, 0);
      FourPieces(CONTENT_LENGTH + ": ", digits, CRLF, Join(rest));
    } else {
      assert "" + Join(rest) == Join(rest);
    }
  }

  lemma FourPieces<T>(a: seq<T>, b: seq<T>, c: seq<T>, d: seq<T>)
    ensures a + (b + (c + d)) == (a + b + c) + d
  {
  }

  lemma JoinOptional(name: string, value: Option<string>, rest: seq<string>)
    ensures Join(OptionalPieces(name, value, rest)) == FieldsText(OptionalField(name, value)) + Join(rest)
  {
    if value.Some? {
      OptionalText(name, value.value);
      FittedFirst(name + ": " + value.value, [CRLF] + rest, 0);
      FittedFirst(CRLF, rest, 0);
      Sequences.Reassociate(name + ": " + value.value, CRLF, Join(rest));
    } else {
      assert "" + Join(rest) == Join(rest);
    }
  }

  lemma JoinBoundary(b: string, rest: seq<string>)
    ensures Join(BoundaryPieces(b, rest)) == CRLF + HYPHENS + b + CRLF + Join(rest)
  {
    FittedFirst(CRLF, rest, 0);
    FittedFirst(b, [CRLF] + rest, 0);
    FittedFirst(HYPHENS, [b] + ([CRLF] + rest), 0);
    FittedFirst(CRLF, [HYPHENS] + ([b] + ([CRLF] + rest)), 0);
    FivePieces(CRLF, HYPHENS, b, CRLF, Join(rest));
  }

  lemma FivePieces<T>(a: seq<T>, b: seq<T>, c: seq<T>, d: seq<T>, e: seq<T>)
    ensures a + (b + (c + (d + e))) == a + b + c + d + e
  {
  }

  lemma LengthFields(p: Part)
    ensures FieldsText(if p.body.Some? then [Field(CONTENT_LENGTH, Digits(|p.body.value|))] else [])
         == LengthText(p.body)
  {
  }

  lemma {:induction false} FieldsTextConcat(a: seq<Field>, b: seq<Field>)
    ensures FieldsText(a + b) == FieldsText(a) + FieldsText(b)
    decreases |a|
  {
    if a == [] {
      assert a + b == b;
    } else {
      assert (a + b)[0] == a[0] && (a + b)[1..] == a[1..] + b;
      FieldsTextConcat(a[1..], b);
    }
  }

  // ----- the reader -----

  /** The end of the stream is hit only where no line is left. */
  lemma {:induction false} FoldEnds(s: string)
    ensures FoldLines(s).2 ==> !HasLine(FoldLines(s).1)
    decreases |s|
  {
    if s != "" && s[0] in WSP {
      var t := s[Scan(s, 0, WSP, false)..];
      if HasLine(t) {
        FoldEnds(AfterLine(t));
      }
    }
  }

  lemma {:induction false} SectionEnds(before: seq<Field>, s: string)
    ensures SectionRead(before, s).eos ==> !HasLine(SectionRead(before, s).rest)
    decreases |s|
  {
    if HasLine(s) {
      FoldEnds(AfterLine(s));
      var r := FieldRead(s);
      if r.rest != "" && !r.eos {
        SectionEnds(if r.field.Some? then before + [r.field.value] else before, r.rest);
      }
    }
  }

  lemma NoLineLater(s: string, n: nat)
    requires n <= |s| && !HasLine(s)
    ensures !HasLine(s[n..])
  {
    assert forall k | 0 <= k < |s[n..]| :: s[n..][k] == s[n + k];
  }

  class MultipartReader {
    const stream: TextReader
    var boundary: string

    ghost predicate Valid() reads this, stream { stream.Valid() }

    /** An empty boundary stands for one to be learnt from the content. */
    constructor (body: string, boundary: string)
      ensures Valid() && fresh(stream) && stream.Rest() == body && !stream.isEos && this.boundary == boundary
    {
      stream := new TextReader(body);
      this.boundary := boundary;
    }

    method HyphensSkip() returns (found: bool)
      requires Valid() && !stream.isEos
      modifies stream`pos
      ensures Valid() && stream.Rest() == SkipHyphens(old(stream.Rest())) && found == (stream.Rest() != "")
    {
      stream.Skip({'-'}, false);
      if stream.AtEnd() { return false; }
      stream.Skip({'-'}, true);
      found := !stream.AtEnd();
    }

    /** Moves past the next boundary line. */
    method DelimiterRead() returns (r: Option<Delimiter>)
      requires Valid() && !stream.isEos
      modifies stream
      ensures Valid()
      ensures r == ReadDelimiter(old(stream.Rest()))
      ensures r.Some? ==> stream.Rest() == r.value.rest && !stream.isEos
    {
      var found := HyphensSkip();
      if !found { return None; }
      var ok, line := stream.LineRead();
      if !ok { return None; }
      var d := ParseDelimiter(line, stream.Rest());
      r := Some(d);
    }

    /** The body of a part whose header values are `v`. */
    method BodyRead(v: Values) returns (r: PartResult)
      requires Valid()
      modifies stream`pos
      ensures Valid()
      ensures r == PartBody(boundary, v, old(stream.Rest())) && (r.Got? ==> r.rest == stream.Rest())
      ensures !HasLine(old(stream.Rest())) && r.Got? ==> !HasLine(stream.Rest())
    {
      var body := None;
      if v.length.Some? {
        body := Some("");
        if v.length.value != "" {
          var length := ContentLength(v.length.value);
          if length.None? || length.value > |stream.text| - stream.pos {
            return Failed;
          }
          var text := stream.Peek(0, length.value);
          body := Some(text);
          ghost var before := stream.Rest();
          stream.pos := stream.pos + length.value;
          assert stream.Rest() == before[length.value..];
          if !HasLine(before) {
            NoLineLater(before, length.value);
          }
        }
      }
      return Got(boundary, Part(v.contentType, v.id, body), stream.Rest());
    }

    /** The header section and the body of a part. */
    method PartRead() returns (r: PartResult)
      requires Valid() && !stream.isEos
      modifies stream
      ensures Valid()
      ensures r == ReadSection(boundary, old(stream.Rest()))
      ensures r.Got? ==> r.rest == stream.Rest() && (stream.isEos ==> !HasLine(stream.Rest()))
    {
      SectionEnds([], stream.Rest());
      var done, fields := HeaderSectionParse(stream, []);
      if !done {
        return Failed;
      }
      var v := Classify(fields);
      r := BodyRead(v);
    }

    /** The next part, or the final boundary; nothing once the end of the stream was hit. */
    method Get() returns (r: PartResult)
      requires Valid()
      modifies this`boundary, stream
      ensures Valid()
      ensures r == if old(stream.isEos) then Failed else ReadPart(old(boundary), old(stream.Rest()))
      ensures !r.Failed? ==> boundary == r.boundary && stream.Rest() == r.rest
      ensures r.Got? && stream.isEos ==> !HasLine(stream.Rest())
    {
      if stream.isEos {
        return Failed;
      }
      var d := DelimiterRead();
      if d.None? {
        return Failed;
      }
      if boundary == "" {
        boundary := d.value.boundary;
      } else if !SameText(boundary, d.value.boundary) {
        return Failed;
      }
      if d.value.final {
        return Final(boundary, stream.Rest());
      }
      r := PartRead();
    }
  }

  /** Removes trailing spaces and recognises the final boundary. */
  method ParseDelimiter(line: string, rest: string) returns (d: Delimiter)
    ensures d == LineDelimiter(line, rest)
  {
    var b := line;
    while b != "" && b[|b| - 1] == SP
      invariant TrimSpaces(line) == TrimSpaces(b)
      decreases |b|
    {
      b := b[..|b| - 1];
    }
    if |b| >= 2 && b[|b| - 1] == '-' && b[|b| - 2] == '-' {
      return Delimiter(b[..|b| - 2], true, rest);
    }
    return Delimiter(b, false, rest);
  }

  method Classify(fields: seq<Field>) returns (v: Values)
    ensures v == PartValues(fields)
  {
    v := Values(None, None, None);
    var i := 0;
    while i < |fields|
      invariant i <= |fields| && v == PartValues(fields[..i])
    {
      var f := fields[i];
      assert fields[..i + 1][..i] == fields[..i];
      if f.name <= CONTENT_LENGTH {
        v := v.(length := Some(f.value));
      } else if f.name <= CONTENT_TYPE {
        v := v.(contentType := Some(f.value));
      } else if f.name <= CONTENT_ID {
        v := v.(id := Some(f.value));
      }
      i := i + 1;
    }
    assert fields[..|fields|] == fields;
  }
}
