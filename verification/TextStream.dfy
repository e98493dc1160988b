/** The text stream: a position moving through a fixed buffer, shared by the
    parsers (which only move it) and the printers (which also write). */
module TextStream {
  import opened Options

  const SP := ' '
  const HTAB := '\t'
  const CR := '\r'
  const LF := '\n'

  const WSP: set<char> := {SP, HTAB}
  const EOL: set<char> := {CR, LF}
  const CRLF: string := [CR, LF]

  /** A header field: a name and a value. */
  datatype Field = Field(name: string, value: string)

  /** The first index at or after `i` whose character is (or, with
      `member == false`, is not) in `cs`; the length of `s` if there is none. */
  function Scan(s: string, i: nat, cs: set<char>, member: bool): (k: nat)
    requires i <= |s|
    ensures i <= k <= |s|
    ensures forall j | i <= j < k :: (s[j] in cs) != member
    ensures k < |s| ==> (s[k] in cs) == member
    decreases |s| - i
  {
    if i == |s| || (s[i] in cs) == member then i else Scan(s, i + 1, cs, member)
  }

  /** Length of the first line of `s`, without its terminator. */
  function LineLength(s: string): (n: nat)
    ensures n <= |s|
  {
    Scan(s, 0, EOL, true)
  }

  /** Length of the line terminator at index `i`: CR LF counts as one. */
  function EolWidth(s: string, i: nat): (w: nat)
    requires i < |s|
    ensures 1 <= w && i + w <= |s|
  {
    if s[i] == CR && i + 1 < |s| && s[i + 1] == LF then 2 else 1
  }

  predicate HasLine(s: string) { LineLength(s) < |s| }

  function FirstLine(s: string): string { s[..LineLength(s)] }

  /** What follows the first line and its terminator. */
  function AfterLine(s: string): (t: string)
    requires HasLine(s)
    ensures |t| < |s|
  {
    var n := LineLength(s);
    s[n + EolWidth(s, n)..]
  }

  /** The name:value pair of one line. A line of white space is the empty field,
      which ends a header section; a line without separator is malformed. */
  function ParsePair(line: string): Option<Field>
  {
    var b := Scan(line, 0, WSP, false);
    if b == |line| then Some(Field("", ""))
    else
      var c := Scan(line, b + 1, {':'}, true);
      if c == |line| then None
      else Some(Field(line[b..c], line[Scan(line, c + 1, WSP, false)..]))
  }

  /** What one pass over the first `n` characters of a line has marked: the index
      of the name, its length once the separator was met, and the index of the
      value (-1 for a mark not set). */
  ghost predicate Marks(s: string, n: nat, name: int, length: nat, value: int)
    requires n <= |s|
  {
    if name == -1 then
      length == 0 && value == -1 && forall j | 0 <= j < n :: s[j] in WSP
    else
      && 0 <= name < n && s[name] !in WSP
      && (forall j | 0 <= j < name :: s[j] in WSP)
      && if length == 0 then
           value == -1 && forall j | name < j < n :: s[j] != ':'
         else
           && name + length < n && s[name + length] == ':'
           && (forall j | name < j < name + length :: s[j] != ':')
           && if value == -1 then
                forall j | name + length < j < n :: s[j] in WSP
              else
                && name + length < value < n && s[value] !in WSP
                && forall j | name + length < j < value :: s[j] in WSP
  }

  /** One more character leaves the marks as the scanning loop sets them. */
  lemma MarksExtend(s: string, n: nat, name: int, length: nat, value: int)
    requires n < |s| && Marks(s, n, name, length, value)
    ensures var name' := if name == -1 && s[n] !in WSP then n else name;
            if length == 0 then
              Marks(s, n + 1, name', if s[n] == ':' && name' != -1 then n - name' else 0, -1)
            else
              Marks(s, n + 1, name, length, if value == -1 && s[n] !in WSP then n else value)
  {
  }

  lemma SliceOfPrefix(s: string, n: nat, a: nat, b: nat)
    requires a <= b <= n <= |s|
    ensures s[..n][a..b] == s[a..b]
  {
  }

  lemma MarksGivePair(s: string, n: nat, name: int, length: nat, value: int)
    requires n <= |s| && Marks(s, n, name, length, value)
    ensures ParsePair(s[..n]) ==
            if name == -1 then Some(Field("", ""))
            else if length == 0 then None
            else Some(Field(s[name..name + length], if value == -1 then "" else s[value..n]))
  {
    if name != -1 && length != 0 {
      MarksGiveField(s, n, name, length, value);
    } else if name != -1 {
      assert Scan(s[..n], 0, WSP, false) == name;
    }
  }

  lemma MarksGiveField(s: string, n: nat, name: nat, length: nat, value: int)
    requires n <= |s| && Marks(s, n, name, length, value) && length != 0
    ensures ParsePair(s[..n]) == Some(Field(s[name..name + length], if value == -1 then "" else s[value..n]))
  {
    var line := s[..n];
    MarksScanned(s, n, name, length, value);
    SliceOfPrefix(s, n, name, name + length);
    if value == -1 {
      assert line[n..] == "";
    } else {
      SliceOfPrefix(s, n, value, n);
    }
  }

  /** The marks are where the scans stop. */
  lemma MarksScanned(s: string, n: nat, name: nat, length: nat, value: int)
    requires n <= |s| && Marks(s, n, name, length, value) && length != 0
    ensures 0 <= name < name + length < n && (value == -1 || 0 <= value <= n)
    ensures Scan(s[..n], 0, WSP, false) == name && Scan(s[..n], name + 1, {':'}, true) == name + length
    ensures Scan(s[..n], name + length + 1, WSP, false) == if value == -1 then n else value
  {
  }

  /** The stream as the parsers use it: they move the position and never write. */
  class TextReader {
    const text: string
    var pos: nat
    var isEos: bool

    ghost predicate Valid() reads this { pos <= |text| }

    /** What is left to read. */
    function Rest(): string
      requires Valid()
      reads this
    {
      text[pos..]
    }

    predicate AtEnd() reads this { pos >= |text| || isEos }

    constructor (text: string)
      ensures Valid() && this.text == text && Rest() == text && !isEos
    {
      this.text, pos, isEos := text, 0, false;
    }

    method LineRead() returns (ok: bool, line: string)
      requires Valid()
      modifies this`pos, this`isEos
      ensures Valid()
      ensures ok == HasLine(old(Rest()))
      ensures line == FirstLine(old(Rest()))
      ensures ok ==> Rest() == AfterLine(old(Rest())) && isEos == old(isEos)
      ensures !ok ==> pos == old(pos) && isEos
    {
      ghost var s := Rest();
      var i := 0; // offset of the next character from pos
      while pos + i < |text| && text[pos + i] != CR && text[pos + i] != LF
        invariant pos + i <= |text|
        invariant forall j | 0 <= j < i :: s[j] !in EOL
      {
        i := i + 1;
      }
      assert LineLength(s) == i;
      line := text[pos..pos + i];
      if pos + i < |text| {
        EolSkip(i);
        ok := true;
      } else {
        isEos := true;
        ok := false;
      }
    }

    /** The single pass over a line: its length `i` and the marks set on the way. */
    method HeaderScan() returns (i: nat, nameBuf: int, nameLength: nat, valueBuf: int)
      requires Valid()
      ensures i == LineLength(Rest()) && Marks(Rest(), i, nameBuf, nameLength, valueBuf)
    {
      ghost var s := Rest();
      i, nameBuf, nameLength, valueBuf := 0, -1, 0, -1;
      while pos + i < |text|
        invariant pos + i <= |text|
        invariant forall j | 0 <= j < i :: s[j] !in EOL
        invariant Marks(s, i, nameBuf, nameLength, valueBuf)
      {
        var c := text[pos + i];
        assert c == s[i];
        if c == CR || c == LF {
          break;
        }
        MarksExtend(s, i, nameBuf, nameLength, valueBuf);
        if nameLength == 0 {
          if nameBuf == -1 && c !in WSP {
            nameBuf := i;
          }
          if c == ':' && nameBuf != -1 {
            nameLength := i - nameBuf;
          }
        } else if valueBuf == -1 && c !in WSP {
          valueBuf := i;
        }
        i := i + 1;
      }
    }

    /** Reads one line as a name:value pair. The line is consumed even when it is
        malformed; without a terminator nothing is consumed. */
    method HeaderRead() returns (ok: bool, pair: Field)
      requires Valid()
      modifies this`pos, this`isEos
      ensures Valid()
      ensures ok == (HasLine(old(Rest())) && ParsePair(FirstLine(old(Rest()))).Some?)
      ensures ok ==> pair == ParsePair(FirstLine(old(Rest()))).value
      ensures HasLine(old(Rest())) ==> Rest() == AfterLine(old(Rest())) && isEos == old(isEos)
      ensures !HasLine(old(Rest())) ==> pos == old(pos) && isEos
    {
      var i, nameBuf, nameLength, valueBuf := HeaderScan();
      if pos + i == |text| {
        isEos := true;
        return false, Field("", "");
      }
      ok, pair := PairTake(i, nameBuf, nameLength, valueBuf);
      EolSkip(i);
    }

    /** The pair that the marks of a line of length `i` delimit. */
    method PairTake(i: nat, nameBuf: int, nameLength: nat, valueBuf: int) returns (ok: bool, pair: Field)
      requires Valid() && i <= |Rest()| && Marks(Rest(), i, nameBuf, nameLength, valueBuf)
      ensures ok == ParsePair(Rest()[..i]).Some? && (ok ==> pair == ParsePair(Rest()[..i]).value)
    {
      MarksGivePair(Rest(), i, nameBuf, nameLength, valueBuf);
      var name, value := "", "";
      if nameLength != 0 {
        name := Peek(nameBuf, nameBuf + nameLength);
      }
      if valueBuf != -1 {
        value := Peek(valueBuf, i);
      }
      pair := Field(name, value);
      ok := nameLength != 0 || nameBuf == -1;
    }

    /** A copy of the characters lying `a` to `b` places ahead. */
    method Peek(a: nat, b: nat) returns (t: string)
      requires Valid() && a <= b <= |Rest()|
      ensures t == Rest()[a..b]
    {
      t := text[pos..][a..b];
    }

    /** Moves past the line terminator found `n` characters ahead: CR, LF or CR LF. */
    method EolSkip(n: nat)
      requires Valid() && n < |Rest()| && Rest()[n] in EOL
      modifies this`pos
      ensures Valid() && Rest() == old(Rest())[n + EolWidth(old(Rest()), n)..]
    {
      var cr := text[pos + n] == CR;
      pos := pos + n + 1;
      if cr && pos < |text| && text[pos] == LF {
        pos := pos + 1;
      }
    }

    /** Skips the characters of `cs`, or with `member == false` up to the first of them. */
    method Skip(cs: set<char>, member: bool)
      requires Valid()
      modifies this`pos
      ensures Valid()
      ensures Rest() == old(Rest())[Scan(old(Rest()), 0, cs, !member)..]
    {
      ghost var s := Rest();
      ghost var start := pos;
      while pos < |text| && (text[pos] in cs) == member
        invariant start <= pos <= |text|
        invariant forall j | 0 <= j < pos - start :: (s[j] in cs) == member
      {
        pos := pos + 1;
      }
      assert Scan(s, 0, cs, !member) == pos - start;
    }

    /** Skips one `ch`, if it comes next. */
    method CharSkip(ch: char)
      requires Valid()
      modifies this`pos
      ensures Valid()
      ensures Rest() == if [ch] <= old(Rest()) then old(Rest())[1..] else old(Rest())
    {
      if pos < |text| && text[pos] == ch {
        pos := pos + 1;
      }
    }
  }

  /** The stream as the printers use it: a buffer of fixed size filled from its start. */
  class TextWriter {
    var buf: array<char>
    var pos: nat
    var end: nat

    ghost predicate Valid() reads this { pos <= end <= buf.Length }

    /** What was written so far. */
    ghost function Written(): string
      requires Valid()
      reads this, buf
    {
      buf[..pos]
    }

    constructor (buffer: array<char>, size: nat)
      requires size <= buffer.Length
      ensures Valid() && buf == buffer && pos == 0 && end == size
    {
      buf, pos, end := buffer, 0, size;
    }

    /** Every insertion leaves one free place: it must end strictly before `end`. */
    method StringInsert(str: string) returns (ok: bool)
      requires Valid()
      modifies this`pos, buf
      ensures Valid() && end == old(end) && buf == old(buf)
      ensures ok == (old(pos) + |str| < end)
      ensures ok ==> Written() == old(Written()) + str
      ensures !ok ==> pos == old(pos) && buf[..] == old(buf[..])
    {
      if pos + |str| >= end {
        return false;
      }
      ghost var before := Written();
      var i := 0;
      while i < |str|
        invariant i <= |str| && pos == old(pos)
        invariant buf[..pos + i] == before + str[..i]
      {
        buf[pos + i] := str[i];
        i := i + 1;
      }
      pos := pos + |str|;
      ok := true;
    }

    /** A copy that may fill the whole stream. */
    method Copy(str: string)
      requires Valid() && pos + |str| <= end
      modifies this`pos, buf
      ensures Valid() && end == old(end) && buf == old(buf) && Written() == old(Written()) + str
    {
      forall i | 0 <= i < |str| {
        buf[pos + i] := str[i];
      }
      pos := pos + |str|;
    }

    method EolInsert() returns (ok: bool)
      requires Valid()
      modifies this`pos, buf
      ensures Valid() && end == old(end) && buf == old(buf)
      ensures ok == (old(pos) + 2 < end)
      ensures ok ==> Written() == old(Written()) + CRLF
      ensures !ok ==> pos == old(pos) && buf[..] == old(buf[..])
    {
      if pos + 2 < end {
        buf[pos], buf[pos + 1] := CR, LF;
        pos := pos + 2;
        return true;
      }
      return false;
    }

    method HeaderNameInsert(name: string) returns (ok: bool)
      requires Valid()
      modifies this`pos, buf
      ensures Valid() && end == old(end) && buf == old(buf)
      ensures ok == (old(pos) + |name| + 2 < end)
      ensures ok ==> Written() == old(Written()) + name + ": "
      ensures !ok ==> pos == old(pos) && buf[..] == old(buf[..])
    {
      if pos + |name| + 2 >= end {
        return false;
      }
      ok := StringInsert(name);
      ok := StringInsert(": ");
    }

    method NameValueInsert(name: string, value: string) returns (ok: bool)
      requires Valid()
      modifies this`pos, buf
      ensures Valid() && end == old(end) && buf == old(buf)
      ensures ok == (old(pos) + |name| + |value| + 4 < end)
      ensures Written() == old(Written()) + if ok then FieldText(Field(name, value))
                           else if old(pos) + |name| + |value| + 2 < end then name + ": " + value else ""
    {
      if pos + |name| + |value| + 2 >= end {
        return false;
      }
      LineAppended(Written(), name, value);
      ok := StringInsert(name);
      ok := StringInsert(": ");
      ok := StringInsert(value);
      ok := EolInsert();
    }
  }

  lemma LineAppended(s: string, name: string, value: string)
    ensures s + name + ": " + value == s + (name + ": " + value)
    ensures s + name + ": " + value + CRLF == s + FieldText(Field(name, value))
  {
  }

  /** One printed header field line. */
  function FieldText(f: Field): string { f.name + ": " + f.value + CRLF }
}
