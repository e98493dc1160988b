/** A buffer of media chunks read in frames of any size: a byte stream, with the types
    of the chunks that a frame touches. */
module ChunkBuffer {
  import opened Options

  datatype Chunk = Chunk(kind: bv8, data: seq<bv8>)

  const AUDIO: bv8 := 1

  function Bytes(chunks: seq<Chunk>): seq<bv8>
  {
    if chunks == [] then [] else chunks[0].data + Bytes(chunks[1..])
  }

  function Min(a: nat, b: nat): nat { if a < b then a else b }

  // ----- what a read does -----

  /** The bytes, the types of the chunks touched, and the chunks left. */
  datatype Outcome = Outcome(bytes: seq<bv8>, kind: bv8, rest: seq<Chunk>)

  function Taken(chunks: seq<Chunk>, n: nat): Outcome
    decreases |chunks|
  {
    if chunks == [] then Outcome([], 0, [])
    else
      var c := chunks[0];
      if n < |c.data| then Outcome(c.data[..n], c.kind, [c.(data := c.data[n..])] + chunks[1..])
      else if n == |c.data| then Outcome(c.data, c.kind, chunks[1..])
      else
        var o := Taken(chunks[1..], n - |c.data|);
        Outcome(c.data + o.bytes, c.kind | o.kind, o.rest)
  }

  lemma SplitBytes(a: seq<bv8>, b: seq<bv8>, n: nat)
    requires n <= |a| + |b|
    ensures n <= |a| ==> (a + b)[..n] == a[..n] && (a + b)[n..] == a[n..] + b
    ensures n >= |a| ==> (a + b)[..n] == a + b[..n - |a|] && (a + b)[n..] == b[n - |a|..]
  {
  }

  /** A read takes the next bytes of the stream and leaves the others. */
  lemma {:induction false} TakenBytes(chunks: seq<Chunk>, n: nat)
    ensures var o, all := Taken(chunks, n), Bytes(chunks);
            o.bytes == all[..Min(n, |all|)] && Bytes(o.rest) == all[Min(n, |all|)..]
    decreases |chunks|
  {
    if chunks != [] {
      var c, later := chunks[0], Bytes(chunks[1..]);
      SplitBytes(c.data, later, Min(n, |c.data| + |later|));
      if n < |c.data| {
        var left := c.(data := c.data[n..]);
        assert ([left] + chunks[1..])[1..] == chunks[1..];
      } else if n > |c.data| {
        TakenBytes(chunks[1..], n - |c.data|);
      }
    }
  }

  /** Where a chunk starts in the stream. */
  function Start(chunks: seq<Chunk>, k: nat): nat
    requires k <= |chunks|
  {
    if k == 0 then 0 else |chunks[0].data| + Start(chunks[1..], k - 1)
  }

  /** The first chunk is touched in any case, another if it starts before the frame is full. */
  predicate IsTouched(chunks: seq<Chunk>, n: nat, k: nat)
    requires k < |chunks|
  {
    k == 0 || Start(chunks, k) < n
  }

  function Bit(b: nat): bv8
    requires b < 8
  {
    (1 as bv8) << b
  }

  lemma OrBit(x: bv8, y: bv8, b: nat)
    requires b < 8
    ensures (x | y) & Bit(b) != 0 <==> x & Bit(b) != 0 || y & Bit(b) != 0
    ensures (0 as bv8) & Bit(b) == 0
  {
  }

  /** A type is reported exactly if some chunk touched has it. */
  lemma {:induction false} TakenKinds(chunks: seq<Chunk>, n: nat, b: nat)
    requires b < 8
    ensures Taken(chunks, n).kind & Bit(b) != 0 <==>
            exists k | 0 <= k < |chunks| :: IsTouched(chunks, n, k) && chunks[k].kind & Bit(b) != 0
    decreases |chunks|
  {
    if chunks == [] {
      OrBit(0, 0, b);
    } else {
      var c, later := chunks[0], chunks[1..];
      assert IsTouched(chunks, n, 0);
      forall k | 0 < k < |chunks|
        ensures IsTouched(chunks, n, k) <==> n > |c.data| && IsTouched(later, n - |c.data|, k - 1)
      {
        assert k > 1 || Start(later, 0) == 0;
      }
      if n > |c.data| {
        TakenKinds(later, n - |c.data|, b);
        OrBit(c.kind, Taken(later, n - |c.data|).kind, b);
        if k :| 0 <= k < |later| && IsTouched(later, n - |c.data|, k) && later[k].kind & Bit(b) != 0 {
          assert chunks[k + 1] == later[k] && IsTouched(chunks, n, k + 1);
        }
        if k :| 0 <= k < |chunks| && IsTouched(chunks, n, k) && chunks[k].kind & Bit(b) != 0 {
          assert k > 0 ==> later[k - 1] == chunks[k] && IsTouched(later, n - |c.data|, k - 1);
        }
      }
    }
  }

  // ----- the buffer as an object -----

  /** The chunks still to be read, what is left of the current one first. */
  function Pending(cur: Option<Chunk>, remaining: nat, ring: seq<Chunk>): seq<Chunk>
    requires cur.Some? ==> remaining <= |cur.value.data|
  {
    if cur.None? then ring else [cur.value.(data := cur.value.data[|cur.value.data| - remaining..])] + ring
  }

  lemma {:induction false} BytesAppend(a: seq<Chunk>, c: Chunk)
    ensures Bytes(a + [c]) == Bytes(a) + c.data
  {
    if a == [] {
      assert a + [c] == [c] && Bytes([c]) == c.data + Bytes([]);
    } else {
      assert (a + [c])[1..] == a[1..] + [c];
      BytesAppend(a[1..], c);
    }
  }

  class Buffer {
    var ring: seq<Chunk>
    var curChunk: Option<Chunk>
    var remainingChunkSize: nat
    var size: nat

    ghost predicate Whole()
      reads this
    {
      curChunk.Some? ==> remainingChunkSize <= |curChunk.value.data|
    }

    ghost function Chunks(): seq<Chunk>
      requires Whole()
      reads this
    {
      Pending(curChunk, remainingChunkSize, ring)
    }

    /** The size is the number of bytes not read yet. */
    ghost predicate Valid()
      reads this
    {
      Whole() && size == |Bytes(Chunks())|
    }

    constructor ()
      ensures Valid() && Chunks() == []
    {
      ring, curChunk, remainingChunkSize, size := [], None, 0, 0;
    }

    method ChunkWrite(c: Chunk)
      requires Valid()
      modifies this
      ensures Valid() && Chunks() == old(Chunks()) + [c]
    {
      BytesAppend(Chunks(), c);
      assert curChunk.Some? ==> Chunks() + [c] == Pending(curChunk, remainingChunkSize, ring + [c]);
      ring := ring + [c];
      size := size + |c.data|;
    }

    method AudioWrite(data: seq<bv8>)
      requires Valid()
      modifies this
      ensures Valid() && Chunks() == old(Chunks()) + [Chunk(1, data)]
    {
      ChunkWrite(Chunk(AUDIO, data));
    }

    method EventWrite(kind: bv8)
      requires Valid()
      modifies this
      ensures Valid() && Chunks() == old(Chunks()) + [Chunk(kind, [])]
    {
      ChunkWrite(Chunk(kind, []));
    }

    /** The first chunk becomes current; false if there is none. */
    method ChunkTake() returns (ok: bool)
      requires Whole()
      modifies this`ring, this`curChunk, this`remainingChunkSize
      ensures Whole() && Chunks() == old(Chunks()) && ok == (Chunks() != []) && ok == curChunk.Some?
    {
      ok := true;
      if curChunk.None? {
        if ring == [] {
          return false;
        }
        curChunk, ring := Some(ring[0]), ring[1..];
        remainingChunkSize := |curChunk.value.data|;
      }
    }

    /** Up to `room` bytes of the current chunk; a chunk used up is dropped. */
    method ChunkCopy(room: nat) returns (bytes: seq<bv8>)
      requires Valid() && curChunk.Some?
      modifies this`curChunk, this`remainingChunkSize, this`size
      ensures Valid()
      ensures var c := old(Chunks())[0];
              if room < |c.data| then
                bytes == c.data[..room] && Chunks() == [c.(data := c.data[room..])] + old(Chunks())[1..]
              else bytes == c.data && Chunks() == old(Chunks())[1..]
    {
      var data := curChunk.value.data;
      var from := |data| - remainingChunkSize;
      ghost var c := Chunks()[0];
      assert c.data == data[from..];
      if room < remainingChunkSize {
        bytes := data[from..from + room];
        remainingChunkSize, size := remainingChunkSize - room, size - room;
        assert data[from..][room..] == data[from + room..] && bytes == c.data[..room];
        assert Chunks()[1..] == ring == old(Chunks())[1..];
      } else {
        bytes := data[from..];
        size := size - remainingChunkSize;
        remainingChunkSize, curChunk := 0, None;
        assert Chunks() == ring == old(Chunks())[1..];
      }
    }

    /** One round of the read loop: a chunk is touched, and `more` tells whether the
        next one is needed. */
    method ChunkRead(bytes: seq<bv8>, kind: bv8, room: nat) returns (more: bool, all: seq<bv8>, r: bv8, left: nat)
      requires Valid()
      modifies this
      ensures Valid() && (more ==> |Chunks()| < |old(Chunks())|)
      ensures Joined(bytes, kind, Taken(old(Chunks()), room))
           == if more then Joined(all, r, Taken(Chunks(), left)) else Outcome(all, r, Chunks())
    {
      more, all, r, left := false, bytes, kind, room;
      var ok := ChunkTake();
      if !ok {
        assert bytes + [] == bytes;
        return;
      }
      TakenFirst(bytes, kind, Chunks(), room);
      r := kind | curChunk.value.kind;
      var copied := ChunkCopy(room);
      all, left := bytes + copied, room - |copied|;
      more := left > 0;
    }

    /** The bytes that fill a frame of `n`, the types of the chunks touched. */
    method FrameFill(n: nat, kind: bv8) returns (bytes: seq<bv8>, r: bv8)
      requires Valid()
      modifies this
      ensures Valid() && Outcome(bytes, r, Chunks()) == Joined([], kind, Taken(old(Chunks()), n))
    {
      bytes, r := [], kind;
      var left: nat := n;
      var more := true;
      while more
        invariant Valid()
        invariant Joined([], kind, Taken(old(Chunks()), n))
               == if more then Joined(bytes, r, Taken(Chunks(), left)) else Outcome(bytes, r, Chunks())
        decreases more, |Chunks()|
      {
        more, bytes, r, left := ChunkRead(bytes, r, left);
      }
    }

    /** The frame is filled up with zeros. */
    method FrameRead(frame: array<bv8>, kind: bv8) returns (r: bv8)
      requires Valid()
      modifies this, frame
      ensures var o := Taken(old(Chunks()), frame.Length);
              && Valid() && Chunks() == o.rest && r == kind | o.kind
              && |o.bytes| <= frame.Length && frame[..|o.bytes|] == o.bytes
              && forall k | |o.bytes| <= k < frame.Length :: frame[k] == 0
    {
      TakenBytes(Chunks(), frame.Length);
      var bytes;
      bytes, r := FrameFill(frame.Length, kind);
      forall k | 0 <= k < frame.Length {
        frame[k] := if k < |bytes| then bytes[k] else 0;
      }
    }
  }

  /** What was read before, and what a read adds to it. */
  function Joined(bytes: seq<bv8>, kind: bv8, o: Outcome): Outcome { Outcome(bytes + o.bytes, kind | o.kind, o.rest) }

  lemma TakenFirst(bytes: seq<bv8>, kind: bv8, chunks: seq<Chunk>, n: nat)
    requires chunks != []
    ensures var c := chunks[0];
            Joined(bytes, kind, Taken(chunks, n))
            == if n < |c.data| then Outcome(bytes + c.data[..n], kind | c.kind, [c.(data := c.data[n..])] + chunks[1..])
               else if n == |c.data| then Outcome(bytes + c.data, kind | c.kind, chunks[1..])
               else Joined(bytes + c.data, kind | c.kind, Taken(chunks[1..], n - |c.data|))
  {
    var c := chunks[0];
    if n > |c.data| {
      var o := Taken(chunks[1..], n - |c.data|);
      assert bytes + (c.data + o.bytes) == (bytes + c.data) + o.bytes;
      assert kind | (c.kind | o.kind) == (kind | c.kind) | o.kind;
    }
  }
}
