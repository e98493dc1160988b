/** Multipart content character by character, and what the reader makes of content that the
    writer does not produce: other boundaries, lengths and ends. */
module MultipartForms {
  import opened Options
  import opened TextStream
  import opened TextMessage
  import opened Printing
  import opened Decimal
  import opened Multipart

  // ----- what is written -----

  lemma FieldsForm()
    ensures FieldsText([Field("Content-Type", "a"), Field("Content-Id", "<1>"), Field("Content-Length", "2")])
         == "Content-Type: a\r\n" + ("Content-Id: <1>\r\n" + "Content-Length: 2\r\n")
  {
    var t, i, l := Field("Content-Type", "a"), Field("Content-Id", "<1>"), Field("Content-Length", "2");
    assert [t, i, l][1..] == [i, l] && [i, l][1..] == [l];
    assert FieldText(t) == "Content-Type: a\r\n";
    assert FieldText(i) == "Content-Id: <1>\r\n";
    assert FieldText(l) == "Content-Length: 2\r\n";
    assert FieldsText([l]) == FieldText(l) + "" == FieldText(l);
  }

  /** A part, and what ends the content. */
  lemma ContentForm()
    ensures PartText("b", Part(Some("a"), Some("<1>"), Some("hi")))
         == "\r\n--b\r\n" + (("Content-Type: a\r\n" + ("Content-Id: <1>\r\n" + "Content-Length: 2\r\n"))
                              + "\r\n" + "hi")
    ensures FinalText("b") == "\r\n--b--\r\n"
  {
    FieldsForm();
    var p := Part(Some("a"), Some("<1>"), Some("hi"));
    assert PartFields(p)
        == [Field("Content-Type", "a"), Field("Content-Id", "<1>"), Field("Content-Length", "2")];
  }

  // ----- lengths -----

  lemma NumberAndRest(n: nat, rest: string)
    requires rest == "" || !IsDigit(rest[0])
    ensures Number(Digits(n) + rest, 0) == n
  {
    NumberOfDigits(n);
    NumberConcat(Digits(n), rest, 0);
  }

  /** A length may carry a plus sign and anything behind its digits; more than an int holds
      is none, and neither is a negative number. */
  lemma LengthsRead(n: nat, rest: string)
    requires rest == "" || !IsDigit(rest[0])
    ensures ContentLength(Digits(n) + rest) == if n <= 0x7FFF_FFFF then Some(n) else None
    ensures ContentLength("+" + (Digits(n) + rest)) == if n <= 0x7FFF_FFFF then Some(n) else None
    ensures ContentLength("-" + (Digits(n) + rest)) == None
  {
    NumberAndRest(n, rest);
    assert IsDigit((Digits(n) + rest)[0]) by { assert IsDigit(Digits(n)[0]); }
    assert ("+" + (Digits(n) + rest))[1..] == Digits(n) + rest;
  }

  /** Without digits the length is zero. */
  lemma NoDigitsIsZero(s: string)
    requires s != "" && !IsDigit(s[0]) && s[0] != '+' && s[0] != '-'
    ensures ContentLength(s) == Some(0)
  {
  }

  // ----- boundaries -----

  /** Boundaries are the same up to the case of their letters. */
  lemma SameTextIff(a: string, b: string)
    ensures SameText(a, b) <==>
            |a| == |b| > 0 && forall i | 0 <= i < |a| :: SameLetter(a[i], b[i])
  {
  }

  predicate SameLetter(x: char, y: char)
  {
    || x == y
    || ('A' <= x <= 'Z' && y as int - x as int == 32)
    || ('A' <= y <= 'Z' && x as int - y as int == 32)
  }

  /** A reader that knows its boundary takes no other. */
  lemma OtherBoundaryFails(known: string, b: string, p: Part, rest: string)
    requires known != "" && GoodBoundary(b) && !SameText(known, b)
    ensures ReadPart(known, PartText(b, p) + rest) == Failed
    ensures ReadPart(known, FinalText(b) + rest) == Failed
  {
    PartTextEnds(b, p, rest);
    PartDelimiter(b, SectionText(PartFields(p)) + (BodyText(p) + rest));
    FinalDelimiter(b, rest);
  }

  /** The final boundary ends the content, whatever follows it. */
  lemma FinalIsRead(known: string, b: string, rest: string)
    requires GoodBoundary(b) && Knows(known, b)
    ensures ReadPart(known, FinalText(b) + rest) == Final(if known == "" then b else known, rest)
  {
    FinalDelimiter(b, rest);
  }

  lemma NoHyphens(s: string)
    requires '-' !in s
    ensures Scan(s, 0, {'-'}, true) == |s|
  {
  }

  /** Text without hyphens holds no part. */
  lemma NoBoundaryFails(known: string, s: string)
    requires '-' !in s
    ensures ReadPart(known, s) == Failed
  {
    NoHyphens(s);
    assert s[|s|..] == "";
  }

  // ----- sections -----

  lemma {:induction false} NotDone(before: seq<Field>, fields: seq<Field>)
    requires GoodFields(fields)
    ensures !SectionRead(before, FieldsText(fields)).done
    decreases |fields|
  {
    if fields != [] {
      var f, rest := fields[0], FieldsText(fields[1..]);
      FieldsStart(fields[1..]);
      FieldRoundTrip(f, rest);
      if rest != "" {
        NotDone(before + [f], fields[1..]);
      }
    }
  }

  lemma FieldsStart(fields: seq<Field>)
    requires GoodFields(fields)
    ensures NoFoldAt(FieldsText(fields))
  {
    if fields != [] {
      assert FieldText(fields[0])[0] == fields[0].name[0];
    }
  }

  /** A header section without its empty line is no part. */
  lemma UnfinishedSectionFails(known: string, fields: seq<Field>)
    requires GoodFields(fields)
    ensures ReadSection(known, FieldsText(fields)) == Failed
  {
    NotDone([], fields);
  }

  lemma SectionIs(fields: seq<Field>, rest: string)
    requires GoodFields(fields) && NoFoldAt(rest)
    ensures SectionRead([], SectionText(fields) + rest) == SectionResult(fields, true, rest, false)
  {
    SectionRoundTrip([], fields, rest);
    assert [] + fields == fields;
  }

  /** A part without a length has no body, and what follows is left. */
  lemma NoLengthNoBody(known: string, p: Part, rest: string)
    requires GoodPart(p) && p.body == None && NoFoldAt(rest)
    ensures ReadSection(known, SectionText(PartFields(p)) + rest) == Got(known, p, rest)
  {
    GoodPartFields(p);
    SectionIs(PartFields(p), rest);
    PartValuesOf(p);
  }

  /** One with an empty length has an empty body. */
  lemma EmptyLengthEmptyBody(known: string, rest: string)
    requires NoFoldAt(rest)
    ensures ReadSection(known, SectionText([Field("Content-Length", "")]) + rest)
         == Got(known, Part(None, None, Some("")), rest)
  {
    var f := Field("Content-Length", "");
    LengthGood(f);
    SectionIs([f], rest);
    OneValue(f);
  }

  lemma LengthGood(f: Field)
    requires f == Field("Content-Length", "")
    ensures GoodFields([f])
  {
  }

  lemma OneValue(f: Field)
    requires f.name == "Content-Length"
    ensures PartValues([f]) == Values(Some(f.value), None, None)
  {
    assert [f][..0] == [];
    assert PartValues([]) == Values(None, None, None);
  }

  /** A body that is not there to its end is no part. */
  lemma CutBodyFails(known: string, p: Part, k: nat)
    requires GoodPart(p) && p.body.Some? && k < |p.body.value|
    ensures ReadSection(known, SectionText(PartFields(p)) + p.body.value[..k]) == Failed
  {
    GoodPartFields(p);
    SectionIs(PartFields(p), p.body.value[..k]);
    PartValuesOf(p);
    NumberIsGood(|p.body.value|);
  }

  // ----- header values -----

  /** Of several headers the last one counts, and a name that is only a beginning of
      Content-Length stands for it, before one that begins another. */
  lemma LastLengthCounts(fields: seq<Field>, name: string, value: string)
    requires name <= "Content-Length"
    ensures PartValues(fields + [Field(name, value)]) == PartValues(fields).(length := Some(value))
  {
    assert (fields + [Field(name, value)])[..|fields|] == fields;
  }

  lemma LastTypeCounts(fields: seq<Field>, name: string, value: string)
    requires name <= "Content-Type" && "Content-T" <= name
    ensures PartValues(fields + [Field(name, value)]) == PartValues(fields).(contentType := Some(value))
  {
    assert (fields + [Field(name, value)])[..|fields|] == fields;
    assert name[8] == "Content-T"[8] == 'T' && "Content-Length"[8] == 'L';
  }

  lemma LastIdCounts(fields: seq<Field>, name: string, value: string)
    requires name <= "Content-Id" && "Content-I" <= name
    ensures PartValues(fields + [Field(name, value)]) == PartValues(fields).(id := Some(value))
  {
    assert (fields + [Field(name, value)])[..|fields|] == fields;
    assert name[8] == "Content-I"[8] == 'I' && "Content-Length"[8] == 'L' && "Content-Type"[8] == 'T';
  }

  /** Any other header is passed over. */
  lemma OthersIgnored(fields: seq<Field>, f: Field)
    requires !(f.name <= "Content-Length") && !(f.name <= "Content-Type") && !(f.name <= "Content-Id")
    ensures PartValues(fields + [f]) == PartValues(fields)
  {
    assert (fields + [f])[..|fields|] == fields;
  }
}
