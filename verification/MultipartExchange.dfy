/** Whole multipart contents: parts are added until one does not fit, and read until
    the final boundary; what is composed is what is read. */
module MultipartExchange {
  import opened Options
  import opened TextStream
  import opened TextMessage
  import opened Multipart
  import Sequences

  /** The parts before the final boundary. */
  function PartsText(boundary: string, parts: seq<Part>): string
  {
    if parts == [] then "" else PartsText(boundary, parts[..|parts| - 1]) + PartText(boundary, parts[|parts| - 1])
  }

  lemma {:induction false} PartsThenRest(boundary: string, parts: seq<Part>, i: nat)
    requires i <= |parts|
    ensures ContentText(boundary, parts) == PartsText(boundary, parts[..i]) + ContentText(boundary, parts[i..])
  {
    if i == 0 {
      assert parts[0..] == parts;
    } else {
      PartsThenRest(boundary, parts, i - 1);
      PartsStep(boundary, parts, i - 1);
      var s := parts[i - 1..];
      assert s[0] == parts[i - 1] && s[1..] == parts[i..];
      Sequences.Reassociate(PartsText(boundary, parts[..i - 1]), PartText(boundary, parts[i - 1]),
                            ContentText(boundary, parts[i..]));
    }
  }

  lemma PartsStep(boundary: string, parts: seq<Part>, i: nat)
    requires i < |parts|
    ensures PartsText(boundary, parts[..i + 1]) == PartsText(boundary, parts[..i]) + PartText(boundary, parts[i])
  {
    var s := parts[..i + 1];
    assert s[..|s| - 1] == parts[..i] && s[|s| - 1] == parts[i];
  }

  // ----- composing -----

  /** What is in the stream once the parts were added, whether each fitted or not. */
  function Added(boundary: string, parts: seq<Part>, size: int): string
  {
    if parts == [] then ""
    else
      var before := Added(boundary, parts[..|parts| - 1], size);
      before + Fitted(PartPieces(boundary, parts[|parts| - 1]), size - |before|)
  }

  lemma AddedStep(boundary: string, parts: seq<Part>, size: int, i: nat)
    requires i < |parts|
    ensures var before := Added(boundary, parts[..i], size);
            Added(boundary, parts[..i + 1], size) == before + Fitted(PartPieces(boundary, parts[i]), size - |before|)
  {
    var s := parts[..i + 1];
    assert s[..|s| - 1] == parts[..i] && s[|s| - 1] == parts[i];
  }

  /** All parts are in the stream if they fit, and something is missing if they do not. */
  lemma {:induction false} AddedAll(boundary: string, parts: seq<Part>, size: int)
    requires size > 0
    ensures |Added(boundary, parts, size)| < size
    ensures if |PartsText(boundary, parts)| < size then Added(boundary, parts, size) == PartsText(boundary, parts)
            else |Added(boundary, parts, size)| < |PartsText(boundary, parts)|
    decreases |parts|
  {
    if parts != [] {
      var front, last := parts[..|parts| - 1], parts[|parts| - 1];
      AddedAll(boundary, front, size);
      FittedAll(PartPieces(boundary, last), size - |Added(boundary, front, size)|);
      PartTextPieces(boundary, last);
    }
  }

  function Composed(boundary: string, parts: seq<Part>, size: int): Option<string>
  {
    var text := Added(boundary, parts, size) + FinalText(boundary);
    if |text| < size then Some(text) else None
  }

  lemma ContentIs(boundary: string, parts: seq<Part>)
    ensures ContentText(boundary, parts) == PartsText(boundary, parts) + FinalText(boundary)
  {
    PartsThenRest(boundary, parts, |parts|);
    assert parts[..|parts|] == parts && parts[|parts|..] == [];
  }

  /** A content that is returned is whole if and only if it fits: where a part was too
      long, what was written of it stays. */
  lemma ComposedWholeIff(boundary: string, parts: seq<Part>, size: int)
    requires size > 0
    ensures Composed(boundary, parts, size) == Some(ContentText(boundary, parts)) <==>
            |ContentText(boundary, parts)| < size
  {
    ContentIs(boundary, parts);
    AddedAll(boundary, parts, size);
  }

  function SizeOf(maxContentSize: nat): nat { if maxContentSize == 0 then DEFAULT_SIZE else maxContentSize }

  /** The i-th part is added behind those before it. */
  method PartAdd(writer: MultipartWriter, parts: seq<Part>, i: nat)
    requires i < |parts| && writer.Open()
    requires writer.stream.Written() == Added(writer.boundary, parts[..i], writer.stream.end)
    modifies writer.stream`pos, writer.stream.buf
    ensures writer.Open() && writer.stream.end == old(writer.stream.end) && writer.stream.buf == old(writer.stream.buf)
    ensures writer.stream.Written() == Added(writer.boundary, parts[..i + 1], writer.stream.end)
  {
    AddedStep(writer.boundary, parts, writer.stream.end, i);
    assert writer.stream.pos == |writer.stream.Written()|;
    var ok := writer.Add2(parts[i]);
  }

  /** Adds the parts, whatever the outcome of each, and finalises. */
  method Compose(maxContentSize: nat, boundary: string, parts: seq<Part>) returns (content: Option<string>)
    ensures content == Composed(boundary, parts, SizeOf(maxContentSize))
  {
    var writer := new MultipartWriter(maxContentSize, Some(boundary));
    ghost var size := SizeOf(maxContentSize);
    var i := 0;
    while i < |parts|
      invariant i <= |parts| && fresh(writer.stream) && fresh(writer.stream.buf)
      invariant writer.Open() && writer.stream.end == size && writer.boundary == boundary
      invariant writer.stream.Written() == Added(boundary, parts[..i], size)
    {
      PartAdd(writer, parts, i);
      i := i + 1;
    }
    assert parts[..|parts|] == parts;
    assert writer.stream.pos == |writer.stream.Written()|;
    content := writer.Finalize();
  }

  // ----- reading -----

  /** What is still to be read once `parts` were read. */
  function Reading(parts: seq<Part>, boundary: string, rest: string): Option<seq<Part>>
  {
    var more := ReadContent(boundary, rest);
    if more.None? then None else Some(parts + more.value)
  }

  lemma ReadingStart(boundary: string, s: string)
    ensures Reading([], boundary, s) == ReadContent(boundary, s)
  {
    var more := ReadContent(boundary, s);
    assert more.Some? ==> [] + more.value == more.value;
  }

  lemma ReadingStep(parts: seq<Part>, boundary: string, s: string)
    ensures match ReadPart(boundary, s)
            case Failed => Reading(parts, boundary, s) == None
            case Final(_, _) => Reading(parts, boundary, s) == Some(parts)
            case Got(b, part, rest) => Reading(parts, boundary, s) == Reading(parts + [part], b, rest)
  {
    match ReadPart(boundary, s)
    case Failed =>
    case Final(_, _) => assert parts + [] == parts;
    case Got(b, part, rest) =>
      var more := ReadContent(b, rest);
      if more.Some? {
        assert (parts + [part]) + more.value == parts + ([part] + more.value);
      }
  }

  /** No boundary line is found where no line is left. */
  lemma NothingToRead(boundary: string, s: string)
    requires !HasLine(s)
    ensures ReadPart(boundary, s) == Failed
  {
    var n := Scan(s, 0, {'-'}, true);
    NoLineLater(s, n);
    NoLineLater(s[n..], Scan(s[n..], 0, {'-'}, false));
  }

  /** Reads part after part up to the final boundary. */
  method Read(body: string, boundary: string) returns (parts: Option<seq<Part>>)
    ensures parts == ReadContent(boundary, body)
  {
    var reader := new MultipartReader(body, boundary);
    var got: seq<Part> := [];
    ReadingStart(boundary, body);
    while true
      invariant fresh(reader) && fresh(reader.stream) && reader.Valid()
      invariant ReadContent(boundary, body) == Reading(got, reader.boundary, reader.stream.Rest())
      invariant reader.stream.isEos ==> !HasLine(reader.stream.Rest())
      decreases |reader.stream.Rest()|
    {
      ReadingStep(got, reader.boundary, reader.stream.Rest());
      if reader.stream.isEos {
        NothingToRead(reader.boundary, reader.stream.Rest());
      }
      var r := reader.Get();
      match r
      case Failed => return None;
      case Final(_, _) => return Some(got);
      case Got(_, part, _) => got := got + [part];
    }
  }

  /** Composes a content and reads it, as the original's test suite does. */
  method Exchange(maxContentSize: nat, boundary: string, known: string, parts: seq<Part>)
    returns (received: Option<seq<Part>>)
    ensures var content := Composed(boundary, parts, SizeOf(maxContentSize));
            received == if content.None? then None else ReadContent(known, content.value)
  {
    var content := Compose(maxContentSize, boundary, parts);
    if content.None? {
      return None;
    }
    received := Read(content.value, known);
  }

  /** Whatever good parts fit come back, all of them and in order. */
  lemma ExchangeWhole(size: int, boundary: string, known: string, parts: seq<Part>)
    requires GoodBoundary(boundary) && Knows(known, boundary)
    requires forall i | 0 <= i < |parts| :: GoodPart(parts[i])
    requires |ContentText(boundary, parts)| < size
    ensures Composed(boundary, parts, size).Some?
    ensures ReadContent(known, Composed(boundary, parts, size).value) == Some(parts)
  {
    ComposedWholeIff(boundary, parts, size);
    ContentRoundTrip(known, boundary, parts);
  }
}
