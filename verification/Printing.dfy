/** The printers of header fields and sections are the inverse of the parsers. */
module Printing {
  import opened Options
  import opened TextStream
  import opened TextMessage
  import Sequences

  predicate NoEol(s: string) { forall i | 0 <= i < |s| :: s[i] !in EOL }

  /** The fields that survive printing and parsing. */
  predicate GoodField(f: Field)
  {
    && f.name != "" && f.name[0] !in WSP && NoEol(f.name)
    && (forall i | 1 <= i < |f.name| :: f.name[i] != ':')
    && NoEol(f.value) && (f.value == "" || f.value[0] !in WSP)
  }

  predicate GoodFields(fields: seq<Field>) { forall i | 0 <= i < |fields| :: GoodField(fields[i]) }

  /** What follows does not continue a folded value. */
  predicate NoFoldAt(s: string) { s == "" || s[0] !in WSP }

  lemma PairRoundTrip(f: Field)
    requires GoodField(f)
    ensures ParsePair(f.name + ": " + f.value) == Some(f)
  {
    var line := f.name + ": " + f.value;
    var n := |f.name|;
    assert line[0] == f.name[0] && Scan(line, 0, WSP, false) == 0;
    assert line[n] == ':' && forall i | 1 <= i < n :: line[i] == f.name[i];
    assert Scan(line, 1, {':'}, true) == n;
    assert line[n + 1] == SP && forall i | n + 2 <= i < |line| :: line[i] == f.value[i - n - 2];
    assert Scan(line, n + 1, WSP, false) == n + 2;
    assert line[0..n] == f.name && line[n + 2..] == f.value;
  }

  /** A line, its terminator, and whatever follows. */
  lemma LineRoundTrip(line: string, rest: string)
    requires NoEol(line)
    ensures var s := line + CRLF + rest;
            HasLine(s) && FirstLine(s) == line && AfterLine(s) == rest
  {
    var s := line + CRLF + rest;
    assert forall i | 0 <= i < |line| :: s[i] == line[i];
    assert s[|line|] == CR && s[|line| + 1] == LF;
    assert LineLength(s) == |line|;
  }

  lemma FieldRoundTrip(f: Field, rest: string)
    requires GoodField(f) && NoFoldAt(rest)
    ensures FieldRead(FieldText(f) + rest) == FieldResult(Some(f), rest, false)
  {
    var line := f.name + ": " + f.value;
    assert NoEol(line);
    assert FieldText(f) + rest == line + CRLF + rest;
    LineRoundTrip(line, rest);
    PairRoundTrip(f);
    assert f.value + "" == f.value;
  }

  /** Whatever is parsed is good, apart from the empty field that ends a section. */
  lemma ParsedFieldIsGood(s: string)
    requires FieldRead(s).field.Some?
    ensures GoodField(FieldRead(s).field.value) || FieldRead(s).field.value.name == ""
  {
    PairIsGood(FirstLine(s));
    FoldedIsGood(AfterLine(s));
  }

  lemma PairIsGood(line: string)
    requires NoEol(line) && ParsePair(line).Some?
    ensures GoodField(ParsePair(line).value) || ParsePair(line).value.name == ""
  {
    var b := Scan(line, 0, WSP, false);
    if b < |line| {
      var c := Scan(line, b + 1, {':'}, true);
      var v := Scan(line, c + 1, WSP, false);
      var name, value := line[b..c], line[v..];
      assert ParsePair(line) == Some(Field(name, value));
      assert forall i | 0 <= i < |name| :: name[i] == line[b + i];
      assert NoEol(name) && forall i | 1 <= i < |name| :: name[i] != ':';
      assert forall i | 0 <= i < |value| :: value[i] == line[v + i];
    }
  }

  lemma {:induction false} FoldedIsGood(s: string)
    ensures var added := FoldLines(s).0; NoEol(added) && (added == "" || added[0] !in WSP)
    decreases |s|
  {
    if s != "" && s[0] in WSP {
      var t := s[Scan(s, 0, WSP, false)..];
      if HasLine(t) {
        FoldedIsGood(AfterLine(t));
        FirstLineIsGood(t);
        JoinedIsGood(FirstLine(t), FoldLines(AfterLine(t)).0);
      }
    }
  }

  predicate Continues(s: string) { NoEol(s) && NoFoldAt(s) }

  lemma FirstLineIsGood(t: string)
    requires HasLine(t) && NoFoldAt(t)
    ensures Continues(FirstLine(t))
  {
  }

  lemma JoinedIsGood(a: string, b: string)
    requires Continues(a) && Continues(b)
    ensures Continues(a + b)
  {
    assert a == "" ==> a + b == b;
  }

  /** All fields read from any text are good. */
  lemma {:induction false} SectionFieldsAreGood(before: seq<Field>, s: string)
    requires GoodFields(before)
    ensures GoodFields(SectionRead(before, s).fields)
    decreases |s|
  {
    var r := FieldRead(s);
    if r.field.Some? {
      ParsedFieldIsGood(s);
    }
    if !(r.field.Some? && r.field.value.name == "") && r.rest != "" && !r.eos {
      SectionFieldsAreGood(if r.field.Some? then before + [r.field.value] else before, r.rest);
    }
  }

  /** A field comes back from its printed line exactly if it is good. */
  lemma FieldRoundTripsIff(f: Field, rest: string)
    requires NoFoldAt(rest)
    ensures GoodField(f) <==> FieldRead(FieldText(f) + rest) == FieldResult(Some(f), rest, false)
  {
    if GoodField(f) {
      FieldRoundTrip(f, rest);
    } else if FieldRead(FieldText(f) + rest).field.Some? {
      ParsedFieldIsGood(FieldText(f) + rest);
      if f.name == "" {
        ColonStartsName(FieldText(f) + rest);
      }
    }
  }

  /** A colon at the start of a line belongs to the name. */
  lemma ColonStartsName(s: string)
    requires |s| >= 2 && s[0] == ':' && s[1] !in EOL
    ensures FieldRead(s).field.Some? ==> FieldRead(s).field.value.name != ""
  {
    if HasLine(s) {
      var line := FirstLine(s);
      assert line[0] == ':' && Scan(line, 0, WSP, false) == 0;
    }
  }

  /** The empty line, too, takes white space after it for a folded value. */
  lemma EmptyLineRead(rest: string)
    ensures var r := FieldRead(CRLF + rest);
            && r.field.Some? && r.field.value.name == ""
            && r.rest == FoldLines(rest).1 && r.eos == FoldLines(rest).2
  {
    LineRoundTrip("", rest);
    assert "" + CRLF + rest == CRLF + rest;
  }

  lemma SectionReadField(before: seq<Field>, s: string, f: Field, rest: string)
    requires FieldRead(s) == FieldResult(Some(f), rest, false) && f.name != "" && rest != ""
    ensures SectionRead(before, s) == SectionRead(before + [f], rest)
  {
  }

  lemma SectionReadEnd(before: seq<Field>, rest: string)
    ensures SectionRead(before, SectionText([]) + rest)
            == SectionResult(before, true, FoldLines(rest).1, FoldLines(rest).2)
  {
    EmptyLineRead(rest);
    assert SectionText([]) + rest == CRLF + rest;
    SectionReadDone(before, CRLF + rest);
  }

  lemma SectionReadDone(before: seq<Field>, s: string)
    requires FieldRead(s).field.Some? && FieldRead(s).field.value.name == ""
    ensures SectionRead(before, s) == SectionResult(before, true, FieldRead(s).rest, FieldRead(s).eos)
  {
  }

  lemma SectionTextCons(fields: seq<Field>, rest: string)
    requires fields != []
    ensures SectionText(fields) + rest == FieldText(fields[0]) + (SectionText(fields[1..]) + rest)
  {
  }

  /** A printed section is read back, and `rest` is left untouched unless it
      begins with white space (see `FoldLines`). */
  lemma {:induction false} SectionRoundTrip(before: seq<Field>, fields: seq<Field>, rest: string)
    requires GoodFields(fields)
    ensures SectionRead(before, SectionText(fields) + rest)
            == SectionResult(before + fields, true, FoldLines(rest).1, FoldLines(rest).2)
    decreases |fields|
  {
    if fields == [] {
      SectionReadEnd(before, rest);
      assert before + fields == before;
    } else {
      SectionTextCons(fields, rest);
      SectionStart(fields[1..], rest);
      var s := SectionText(fields[1..]) + rest;
      FieldRoundTrip(fields[0], s);
      SectionReadField(before, SectionText(fields) + rest, fields[0], s);
      SectionRoundTrip(before + [fields[0]], fields[1..], rest);
      Sequences.Shift(before, fields);
    }
  }

  lemma SectionStart(fields: seq<Field>, rest: string)
    requires GoodFields(fields)
    ensures var s := SectionText(fields) + rest; s != "" && NoFoldAt(s)
  {
    if fields != [] {
      assert FieldText(fields[0])[0] == fields[0].name[0];
    }
  }

  /** With room for the whole section nothing is left out. */
  lemma {:induction false} SectionFits(fields: seq<Field>, room: int)
    requires |SectionText(fields)| < room
    ensures FieldsPrinted(fields, room) == FieldsText(fields)
    decreases |fields|
  {
    if fields != [] {
      SectionFits(fields[1..], room - |FieldText(fields[0])|);
    }
  }

  /** When the printer reports success nothing is missing if and only if there was
      room for the whole section. */
  lemma SuccessIsCompleteIff(fields: seq<Field>, room: int)
    requires |FieldsPrinted(fields, room)| + 2 < room
    ensures FieldsPrinted(fields, room) == FieldsText(fields) <==> |SectionText(fields)| < room
  {
    if |SectionText(fields)| < room {
      SectionFits(fields, room);
    }
  }

  /** Without it the printer may report success all the same: the one field is
      too long, and the section printed is the empty one. */
  lemma LongFieldIsDropped()
    ensures FieldsPrinted([Field("a", "bcd")], 6) == "" && |SectionText([])| < 6
  {
  }

  function Joined(pieces: seq<string>): string { if pieces == [] then "" else pieces[0] + Joined(pieces[1..]) }

  /** What is printed of a field with so much room left: all of its line, its text without
      the line end, or nothing. */
  function Piece(f: Field, left: int): string
  {
    if |f.name| + |f.value| + 4 < left then f.name + ": " + f.value + "\r\n"
    else if |f.name| + |f.value| + 2 < left then f.name + ": " + f.value
    else ""
  }

  /** One piece for each field, by the room that is left at its turn. */
  predicate InTurn(fields: seq<Field>, pieces: seq<string>, room: int)
  {
    && |pieces| == |fields|
    && forall k | 0 <= k < |fields| :: pieces[k] == Piece(fields[k], room - |Joined(pieces[..k])|)
  }

  lemma TurnFirst(fields: seq<Field>, later: seq<string>, room: int)
    requires fields != [] && InTurn(fields[1..], later, room - |Piece(fields[0], room)|)
    ensures InTurn(fields, [Piece(fields[0], room)] + later, room)
  {
    var first := Piece(fields[0], room);
    var pieces := [first] + later;
    forall k | 0 <= k < |fields| ensures pieces[k] == Piece(fields[k], room - |Joined(pieces[..k])|) {
      if k > 0 {
        JoinedNext(first, later, k);
        assert pieces[k] == later[k - 1] && fields[k] == fields[1..][k - 1];
      }
    }
  }

  lemma JoinedNext(first: string, later: seq<string>, k: nat)
    requires 0 < k <= |later|
    ensures Joined(([first] + later)[..k]) == first + Joined(later[..k - 1])
  {
    assert ([first] + later)[..k][1..] == later[..k - 1];
  }

  lemma PrintedFirst(fields: seq<Field>, room: int)
    requires fields != []
    ensures var first := Piece(fields[0], room);
            FieldsPrinted(fields, room) == first + FieldsPrinted(fields[1..], room - |first|)
  {
    var f := fields[0];
    assert FieldText(f) == f.name + ": " + f.value + "\r\n";
    assert "" + FieldsPrinted(fields[1..], room) == FieldsPrinted(fields[1..], room);
  }

  /** Every field has its turn, whatever became of those before. */
  lemma {:induction false} PrintedPieces(fields: seq<Field>, room: int) returns (pieces: seq<string>)
    ensures InTurn(fields, pieces, room) && FieldsPrinted(fields, room) == Joined(pieces)
    decreases |fields|
  {
    if fields == [] {
      pieces := [];
    } else {
      var later := PrintedPieces(fields[1..], room - |Piece(fields[0], room)|);
      PrintedFirst(fields, room);
      TurnFirst(fields, later, room);
      pieces := [Piece(fields[0], room)] + later;
      assert pieces[1..] == later;
    }
  }
}
