/** A media context: an association matrix between the terminations in its slots,
    with counts cached in the header, and the processing objects derived from it. */
module MediaContext {
  import opened Machine

  /** The directions of a termination's audio stream, if it has one. */
  datatype Audio = NoAudio | Audio(sends: bool, receives: bool)

  class Termination {
    const audio: Audio
    var slot: int

    constructor (audio: Audio)
      ensures this.audio == audio && slot == -1
    {
      this.audio, slot := audio, -1;
    }
  }

  /** What the first receives the second can send. */
  predicate Compatible(source: Termination, sink: Termination)
  {
    source.audio.Audio? && source.audio.receives && sink.audio.Audio? && sink.audio.sends
  }

  /** The streams that something can be taken from, and those that it can be put into. */
  const RECEIVING := {Audio(false, true), Audio(true, true)}
  const SENDING := {Audio(true, false), Audio(true, true)}

  /** A termination without a stream is joined to nothing, and a stream in one direction
      in that direction alone. */
  lemma CompatibleIff(source: Termination, sink: Termination)
    ensures Compatible(source, sink) <==> source.audio in RECEIVING && sink.audio in SENDING
  {
  }

  // ----- the matrix -----

  type Matrix = seq<seq<bool>>

  predicate Square(on: Matrix, n: nat) { |on| == n && forall i | 0 <= i < n :: |on[i]| == n }

  function Sinks(on: Matrix, n: nat, i: nat): set<nat>
    requires Square(on, n) && i < n
  {
    set j: nat | 0 <= j < n && on[i][j]
  }

  function Sources(on: Matrix, n: nat, j: nat): set<nat>
    requires Square(on, n) && j < n
  {
    set i: nat | 0 <= i < n && on[i][j]
  }

  function Set(on: Matrix, i: nat, j: nat, value: bool): (r: Matrix)
    requires i < |on| && j < |on[i]|
  {
    on[i := on[i][j := value]]
  }

  lemma SetSinks(on: Matrix, n: nat, i: nat, j: nat, value: bool, k: nat)
    requires Square(on, n) && i < n && j < n && k < n
    ensures Square(Set(on, i, j, value), n)
    ensures Sinks(Set(on, i, j, value), n, k)
         == if k != i then Sinks(on, n, k) else if value then Sinks(on, n, i) + {j} else Sinks(on, n, i) - {j}
  {
  }

  lemma SetSources(on: Matrix, n: nat, i: nat, j: nat, value: bool, k: nat)
    requires Square(on, n) && i < n && j < n && k < n
    ensures Square(Set(on, i, j, value), n)
    ensures Sources(Set(on, i, j, value), n, k)
         == if k != j then Sources(on, n, k) else if value then Sources(on, n, j) + {i} else Sources(on, n, j) - {i}
  {
  }

  predicate Counted(on: Matrix, n: nat, tx: seq<byte>, rx: seq<byte>)
  {
    && Square(on, n) && |tx| == |rx| == n
    && (forall i | 0 <= i < n :: tx[i] == |Sinks(on, n, i)|)
    && (forall j | 0 <= j < n :: rx[j] == |Sources(on, n, j)|)
  }

  function Inc(b: byte): byte { (b + 1) % 256 }
  function Dec(b: byte): byte { (b - 1) % 256 }

  /** Counters of one byte are wide enough for a capacity of 255. */
  lemma CountBelow(on: Matrix, n: nat, i: nat, j: nat)
    requires Square(on, n) && i < n && j < n && !on[i][j]
    ensures |Sinks(on, n, i)| < n && |Sources(on, n, j)| < n
  {
    Smaller(Sinks(on, n, i), j, n);
    Smaller(Sources(on, n, j), i, n);
  }

  function Range(n: nat): (s: set<nat>)
    ensures |s| == n && forall k: nat :: k in s <==> k < n
  {
    if n == 0 then {} else Range(n - 1) + {n - 1}
  }

  lemma Smaller(s: set<nat>, x: nat, n: nat)
    requires s <= Range(n) - {x} && x < n
    ensures |s| < n
  {
    Subset(s, Range(n) - {x});
  }

  lemma Subset(a: set<nat>, b: set<nat>)
    requires a <= b
    ensures |a| <= |b|
  {
    assert b == a + (b - a);
  }

  /** One counter of each header follows the set that it counts. */
  lemma TxConnected(on: Matrix, n: nat, tx: seq<byte>, i: nat, j: nat, k: nat)
    requires Square(on, n) && |tx| == n && i < n && j < n && k < n && n <= 255 && !on[i][j]
    requires tx[k] == |Sinks(on, n, k)|
    ensures Square(Set(on, i, j, true), n) && tx[i := Inc(tx[i])][k] == |Sinks(Set(on, i, j, true), n, k)|
  {
    CountBelow(on, n, i, j);
    SetSinks(on, n, i, j, true, k);
  }

  lemma RxConnected(on: Matrix, n: nat, rx: seq<byte>, i: nat, j: nat, k: nat)
    requires Square(on, n) && |rx| == n && i < n && j < n && k < n && n <= 255 && !on[i][j]
    requires rx[k] == |Sources(on, n, k)|
    ensures Square(Set(on, i, j, true), n) && rx[j := Inc(rx[j])][k] == |Sources(Set(on, i, j, true), n, k)|
  {
    CountBelow(on, n, i, j);
    SetSources(on, n, i, j, true, k);
  }

  lemma ConnectCounted(on: Matrix, n: nat, tx: seq<byte>, rx: seq<byte>, i: nat, j: nat)
    requires Counted(on, n, tx, rx) && n <= 255 && i < n && j < n && !on[i][j]
    ensures Counted(Set(on, i, j, true), n, tx[i := Inc(tx[i])], rx[j := Inc(rx[j])])
  {
    forall k | 0 <= k < n ensures tx[i := Inc(tx[i])][k] == |Sinks(Set(on, i, j, true), n, k)| {
      TxConnected(on, n, tx, i, j, k);
    }
    forall k | 0 <= k < n ensures rx[j := Inc(rx[j])][k] == |Sources(Set(on, i, j, true), n, k)| {
      RxConnected(on, n, rx, i, j, k);
    }
  }

  lemma TxDisconnected(on: Matrix, n: nat, tx: seq<byte>, i: nat, j: nat, k: nat)
    requires Square(on, n) && |tx| == n && i < n && j < n && k < n && on[i][j]
    requires tx[k] == |Sinks(on, n, k)|
    ensures Square(Set(on, i, j, false), n) && tx[i := Dec(tx[i])][k] == |Sinks(Set(on, i, j, false), n, k)|
  {
    assert j in Sinks(on, n, i);
    SetSinks(on, n, i, j, false, k);
  }

  lemma RxDisconnected(on: Matrix, n: nat, rx: seq<byte>, i: nat, j: nat, k: nat)
    requires Square(on, n) && |rx| == n && i < n && j < n && k < n && on[i][j]
    requires rx[k] == |Sources(on, n, k)|
    ensures Square(Set(on, i, j, false), n) && rx[j := Dec(rx[j])][k] == |Sources(Set(on, i, j, false), n, k)|
  {
    assert i in Sources(on, n, j);
    SetSources(on, n, i, j, false, k);
  }

  lemma DisconnectCounted(on: Matrix, n: nat, tx: seq<byte>, rx: seq<byte>, i: nat, j: nat)
    requires Counted(on, n, tx, rx) && i < n && j < n && on[i][j]
    ensures Counted(Set(on, i, j, false), n, tx[i := Dec(tx[i])], rx[j := Dec(rx[j])])
  {
    forall k | 0 <= k < n ensures tx[i := Dec(tx[i])][k] == |Sinks(Set(on, i, j, false), n, k)| {
      TxDisconnected(on, n, tx, i, j, k);
    }
    forall k | 0 <= k < n ensures rx[j := Dec(rx[j])][k] == |Sources(Set(on, i, j, false), n, k)| {
      RxDisconnected(on, n, rx, i, j, k);
    }
  }

  // ----- slots -----

  function Occupied(slots: seq<Termination?>): set<nat> { set i: nat | 0 <= i < |slots| && slots[i] != null }

  /** The occupied slots among the first `k`. */
  function Below(slots: seq<Termination?>, k: nat): (s: set<nat>)
    requires k <= |slots|
    ensures s <= Occupied(slots)
  {
    set i: nat | 0 <= i < k && slots[i] != null
  }

  lemma BelowNext(slots: seq<Termination?>, k: nat)
    requires k < |slots|
    ensures |Below(slots, k + 1)| == |Below(slots, k)| + if slots[k] != null then 1 else 0
  {
    assert Below(slots, k + 1) == if slots[k] != null then Below(slots, k) + {k} else Below(slots, k);
  }

  /** Once as many occupied slots were seen as there are, the rest is empty. */
  lemma SeenAll(slots: seq<Termination?>, k: nat)
    requires k <= |slots| && (k == |slots| || |Below(slots, k)| >= |Occupied(slots)|)
    ensures forall j | k <= j < |slots| :: slots[j] == null
  {
    if k < |slots| {
      var rest := Occupied(slots) - Below(slots, k);
      assert Occupied(slots) == Below(slots, k) + rest;
      assert |Occupied(slots)| == |Below(slots, k)| + |rest|;
      forall j | k <= j < |slots| ensures slots[j] == null {
        assert j !in Below(slots, k) && j !in rest;
        assert slots[j] != null ==> j in Occupied(slots);
      }
    }
  }

  /** Associations join occupied slots only. */
  predicate Joined(on: Matrix, slots: seq<Termination?>)
    requires Square(on, |slots|)
  {
    forall i, j | 0 <= i < |slots| && 0 <= j < |slots| :: on[i][j] ==> Taken(slots, i, j)
  }

  predicate Taken(slots: seq<Termination?>, i: nat, j: nat)
    requires i < |slots| && j < |slots|
  {
    slots[i] != null && slots[j] != null
  }

  lemma JoinedSet(on: Matrix, slots: seq<Termination?>, i: nat, j: nat, value: bool)
    requires Square(on, |slots|) && Joined(on, slots) && i < |slots| && j < |slots|
    requires value ==> slots[i] != null && slots[j] != null
    ensures Square(Set(on, i, j, value), |slots|) && Joined(Set(on, i, j, value), slots)
  {
    var r := Set(on, i, j, value);
    forall a, b | 0 <= a < |slots| && 0 <= b < |slots| ensures r[a][b] ==> Taken(slots, a, b) {
      assert r[a][b] ==> (a == i && b == j) || on[a][b];
    }
  }

  /** A free slot has no associations, so its counters are zero already. */
  lemma AddedCounted(on: Matrix, slots: seq<Termination?>, tx: seq<byte>, rx: seq<byte>, i: nat, t: Termination)
    requires Counted(on, |slots|, tx, rx) && Joined(on, slots) && i < |slots| && slots[i] == null
    ensures tx[i := 0] == tx && rx[i := 0] == rx && Joined(on, slots[i := t])
    ensures |Occupied(slots[i := t])| == |Occupied(slots)| + 1
  {
    assert Sinks(on, |slots|, i) == {} && Sources(on, |slots|, i) == {};
    assert Occupied(slots[i := t]) == Occupied(slots) + {i};
    forall a, b | 0 <= a < |slots| && 0 <= b < |slots| ensures on[a][b] ==> Taken(slots[i := t], a, b) {
      assert on[a][b] ==> Taken(slots, a, b);
    }
  }

  lemma FreeSlot(slots: seq<Termination?>, i: nat)
    requires i <= |slots| && forall k | 0 <= k < i :: slots[k] != null
    ensures i < |slots| && slots[i] == null ==> |Occupied(slots)| < |slots|
    ensures i == |slots| ==> |Occupied(slots)| == |slots|
  {
    if i == |slots| {
      assert Occupied(slots) == Range(|slots|);
    } else if slots[i] == null {
      Smaller(Occupied(slots), i, |slots|);
    }
  }

  /** The matrix without what touches slot `i` up to column `j`. */
  predicate Cleared(on: Matrix, before: Matrix, n: nat, i: nat, j: nat)
    requires Square(on, n) && Square(before, n)
  {
    forall a, b | 0 <= a < n && 0 <= b < n :: on[a][b] == (before[a][b] && !((a == i && b < j) || (b == i && a < j)))
  }

  /** The matrix without what touches a slot before `i`, or slot `i` before column `j`. */
  predicate Remaining(on: Matrix, before: Matrix, n: nat, i: nat, j: nat)
    requires Square(on, n) && Square(before, n)
  {
    forall a, b | 0 <= a < n && 0 <= b < n ::
      on[a][b] == (before[a][b] && a >= i && b >= i && !((a == i && b < j) || (b == i && a < j)))
  }

  lemma RemainingNext(on: Matrix, before: Matrix, start: Matrix, slots: seq<Termination?>, i: nat, j: nat)
    requires Square(on, |slots|) && Square(before, |slots|) && Square(start, |slots|) && i <= j < |slots|
    requires Remaining(before, start, |slots|, i, j) && Joined(before, slots)
    requires on == if slots[j] != null then Set(Set(before, i, j, false), j, i, false) else before
    ensures Remaining(on, start, |slots|, i, j + 1)
  {
  }

  lemma NothingAt(on: Matrix, n: nat, i: nat)
    requires Square(on, n) && i < n && |Sinks(on, n, i)| == 0 && |Sources(on, n, i)| == 0
    ensures forall j | 0 <= j < n :: !on[i][j] && !on[j][i]
  {
    forall j | 0 <= j < n ensures !on[i][j] && !on[j][i] {
      assert j !in Sinks(on, n, i) && j !in Sources(on, n, i);
    }
  }

  /** What a context asks to be created, in terms of slots. */
  datatype MpfObject = Bridge(source: nat, sink: nat) | Multiplier(source: nat, sinks: seq<nat>)
                     | Mixer(sources: seq<nat>, sink: nat)

  // ----- rows and columns -----

  function Column(on: Matrix, n: nat, j: nat): (line: seq<bool>)
    requires Square(on, n) && j < n
    ensures |line| == n && forall i | 0 <= i < n :: line[i] == on[i][j]
  {
    seq(n, i requires 0 <= i < n => on[i][j])
  }

  /** The marked places before `k`, in ascending order. */
  function Indices(line: seq<bool>, k: nat): (r: seq<nat>)
    requires k <= |line|
    ensures forall i | 0 <= i < |r| :: r[i] < k
  {
    if k == 0 then [] else Indices(line, k - 1) + (if line[k - 1] then [k - 1] else [])
  }

  function Marked(line: seq<bool>): set<nat> { set k: nat | 0 <= k < |line| && line[k] }

  function MarkedBelow(line: seq<bool>, k: nat): (s: set<nat>)
    requires k <= |line|
    ensures s <= Marked(line)
  {
    set j: nat | 0 <= j < k && line[j]
  }

  lemma {:induction false} IndicesMembers(line: seq<bool>, k: nat)
    requires k <= |line|
    ensures forall j: nat :: j in Indices(line, k) <==> j < k && line[j]
  {
    if k > 0 {
      IndicesMembers(line, k - 1);
    }
  }

  lemma {:induction false} IndicesAscending(line: seq<bool>, k: nat)
    requires k <= |line|
    ensures forall a, b | 0 <= a < b < |Indices(line, k)| :: Indices(line, k)[a] < Indices(line, k)[b]
  {
    if k > 0 {
      IndicesAscending(line, k - 1);
    }
  }

  /** Every sink list and every source list holds exactly the row or the column. */
  lemma ListsExact(on: Matrix, n: nat, i: nat, x: nat)
    requires Square(on, n) && i < n
    ensures x in Indices(on[i], n) <==> x in Sinks(on, n, i)
    ensures x in Indices(Column(on, n, i), n) <==> x in Sources(on, n, i)
  {
    IndicesMembers(on[i], n);
    IndicesMembers(Column(on, n, i), n);
  }

  lemma {:induction false} IndicesCount(line: seq<bool>, k: nat)
    requires k <= |line|
    ensures |Indices(line, k)| == |MarkedBelow(line, k)|
    ensures k == |line| ==> MarkedBelow(line, k) == Marked(line)
  {
    if k > 0 {
      IndicesCount(line, k - 1);
      assert MarkedBelow(line, k) == MarkedBelow(line, k - 1) + if line[k - 1] then {k - 1} else {};
    } else {
      assert MarkedBelow(line, 0) == {};
    }
  }

  /** Once all marked places were found the rest of the line adds nothing. */
  lemma IndicesComplete(line: seq<bool>, k: nat)
    requires k <= |line| && (k == |line| || |Indices(line, k)| >= |Marked(line)|)
    ensures Indices(line, |line|) == Indices(line, k) && |Indices(line, k)| == |Marked(line)|
  {
    IndicesCount(line, k);
    var rest := Marked(line) - MarkedBelow(line, k);
    assert Marked(line) == MarkedBelow(line, k) + rest;
    if k < |line| {
      assert rest == {};
      forall j | k <= j < |line| ensures !line[j] {
        assert j !in rest;
      }
      NoMoreIndices(line, k, |line|);
    }
  }

  lemma {:induction false} NoMoreIndices(line: seq<bool>, k: nat, m: nat)
    requires k <= m <= |line| && forall j | k <= j < m :: !line[j]
    ensures Indices(line, m) == Indices(line, k)
  {
    if k < m {
      NoMoreIndices(line, k, m - 1);
    }
  }

  // ----- the objects of a matrix -----

  /** What is created for a slot as a source: a bridge to its only sink, unless a
      mixer feeds that sink, or a multiplier to all of them. */
  function SourceObject(on: Matrix, n: nat, i: nat): seq<MpfObject>
    requires Square(on, n) && i < n
  {
    var sinks := Indices(on[i], n);
    if sinks == [] then []
    else if |sinks| > 1 then [Multiplier(i, sinks)]
    else if |Sources(on, n, sinks[0])| > 1 then []
    else [Bridge(i, sinks[0])]
  }

  /** What is created for a slot as a sink: a mixer if it has several sources. */
  function SinkObject(on: Matrix, n: nat, j: nat): seq<MpfObject>
    requires Square(on, n) && j < n
  {
    var sources := Indices(Column(on, n, j), n);
    if |sources| > 1 then [Mixer(sources, j)] else []
  }

  function ObjectsAt(on: Matrix, n: nat, i: nat): seq<MpfObject>
    requires Square(on, n) && i < n
  {
    SourceObject(on, n, i) + SinkObject(on, n, i)
  }

  /** A slot with several sinks and several sources asks for the multiplier first. */
  lemma MultiplierBeforeMixer(on: Matrix, n: nat, i: nat)
    requires Square(on, n) && i < n && |Sinks(on, n, i)| > 1 && |Sources(on, n, i)| > 1
    ensures ObjectsAt(on, n, i) == [Multiplier(i, Indices(on[i], n)), Mixer(Indices(Column(on, n, i), n), i)]
  {
    LinesCounted(on, n, i);
  }

  function Table<T>(f: nat -> T, n: nat, k: nat): (r: seq<T>)
    requires k <= n
    ensures |r| == n - k
    decreases n - k
  {
    if k == n then [] else [f(k)] + Table(f, n, k + 1)
  }

  lemma {:induction false} TableAt<T>(f: nat -> T, n: nat, k: nat, i: nat)
    requires k <= i < n
    ensures Table(f, n, k)[i - k] == f(i)
    decreases n - k
  {
    if k < i {
      TableAt(f, n, k + 1, i);
    }
  }

  /** The objects slot by slot. */
  function Parts(on: Matrix, n: nat): (parts: seq<seq<MpfObject>>)
    requires Square(on, n)
    ensures |parts| == n
  {
    Table((i: nat) => if i < n && Square(on, n) then ObjectsAt(on, n, i) else [], n, 0)
  }

  lemma PartsAt(on: Matrix, n: nat, i: nat)
    requires Square(on, n) && i < n
    ensures Parts(on, n)[i] == ObjectsAt(on, n, i)
  {
    TableAt((i: nat) => if i < n && Square(on, n) then ObjectsAt(on, n, i) else [], n, 0, i);
  }

  function Concat(parts: seq<seq<MpfObject>>, k: nat): seq<MpfObject>
    requires k <= |parts|
  {
    if k == 0 then [] else Concat(parts, k - 1) + parts[k - 1]
  }

  /** The objects of the first `k` slots. */
  function Topology(on: Matrix, n: nat, k: nat): seq<MpfObject>
    requires Square(on, n) && k <= n
  {
    Concat(Parts(on, n), k)
  }

  lemma LinesCounted(on: Matrix, n: nat, i: nat)
    requires Square(on, n) && i < n
    ensures |Indices(on[i], n)| == |Sinks(on, n, i)| && |Indices(Column(on, n, i), n)| == |Sources(on, n, i)|
  {
    IndicesCount(on[i], n);
    IndicesCount(Column(on, n, i), n);
    assert Sinks(on, n, i) == Marked(on[i]) && Sources(on, n, i) == Marked(Column(on, n, i));
  }

  lemma OnlyIndex(on: Matrix, n: nat, i: nat, j: nat)
    requires Square(on, n) && i < n && j < n && |Sinks(on, n, i)| == 1 && Indices(on[i], j) == [] && on[i][j]
    ensures Indices(on[i], n) == [j]
  {
    assert Sinks(on, n, i) == Marked(on[i]);
    assert Indices(on[i], j + 1) == [j];
    IndicesComplete(on[i], j + 1);
  }

  lemma OnlySink(on: Matrix, n: nat, i: nat, j: nat)
    requires Square(on, n) && i < n && j < n && Indices(on[i], n) == [j]
    ensures SourceObject(on, n, i) == if |Sources(on, n, j)| > 1 then [] else [Bridge(i, j)]
  {
  }

  lemma FirstSink(on: Matrix, n: nat, i: nat, j: nat)
    requires Square(on, n) && i < n && j < n && |Sinks(on, n, i)| == 1 && Indices(on[i], j) == [] && on[i][j]
    ensures SourceObject(on, n, i) == if |Sources(on, n, j)| > 1 then [] else [Bridge(i, j)]
  {
    OnlyIndex(on, n, i, j);
    OnlySink(on, n, i, j);
  }

  /** The counts tell whether the only sink, which is at `j` if there is one, is mixed. */
  lemma BridgeIs(on: Matrix, n: nat, tx: seq<byte>, rx: seq<byte>, i: nat, j: nat)
    requires Square(on, n) && Counted(on, n, tx, rx) && i < n && j <= n
    requires tx[i] == 1 && Indices(on[i], j) == [] && (j < n ==> on[i][j])
    ensures SourceObject(on, n, i) == if j < n && rx[j] <= 1 then [Bridge(i, j)] else []
  {
    if j < n {
      FirstSink(on, n, i, j);
    } else {
      NoSink(on, n, i);
    }
  }

  lemma NoSource(on: Matrix, n: nat, i: nat)
    requires Square(on, n) && i < n && |Sinks(on, n, i)| == 0
    ensures SourceObject(on, n, i) == []
  {
    LinesCounted(on, n, i);
  }

  lemma NoMixer(on: Matrix, n: nat, j: nat)
    requires Square(on, n) && j < n && |Sources(on, n, j)| <= 1
    ensures SinkObject(on, n, j) == []
  {
    LinesCounted(on, n, j);
  }

  lemma SkippedSink(on: Matrix, slots: seq<Termination?>, i: nat, j: nat)
    requires Square(on, |slots|) && Joined(on, slots) && i < |slots| && j < |slots| && !(slots[j] != null && on[i][j])
    ensures Indices(on[i], j + 1) == Indices(on[i], j)
  {
    assert on[i][j] ==> Taken(slots, i, j);
  }

  lemma NoSink(on: Matrix, n: nat, i: nat)
    requires Square(on, n) && i < n && Indices(on[i], n) == []
    ensures SourceObject(on, n, i) == []
  {
  }

  lemma FreeHasNoObjects(on: Matrix, slots: seq<Termination?>, i: nat)
    requires Square(on, |slots|) && Joined(on, slots) && i < |slots| && slots[i] == null
    ensures ObjectsAt(on, |slots|, i) == []
  {
    var n := |slots|;
    NoMoreIndices(on[i], 0, n);
    NoMoreIndices(Column(on, n, i), 0, n);
  }

  lemma FreePart(on: Matrix, slots: seq<Termination?>, i: nat)
    requires Square(on, |slots|) && Joined(on, slots) && i < |slots| && slots[i] == null
    ensures Parts(on, |slots|)[i] == []
  {
    FreeHasNoObjects(on, slots, i);
    PartsAt(on, |slots|, i);
  }

  lemma {:induction false} ConcatEmpty(parts: seq<seq<MpfObject>>, i: nat, m: nat)
    requires i <= m <= |parts| && forall k | i <= k < m :: parts[k] == []
    ensures Concat(parts, m) == Concat(parts, i)
  {
    if i < m {
      ConcatEmpty(parts, i, m - 1);
    }
  }

  lemma RestIsFree(on: Matrix, slots: seq<Termination?>, i: nat)
    requires Square(on, |slots|) && Joined(on, slots) && i <= |slots|
    requires i == |slots| || |Below(slots, i)| >= |Occupied(slots)|
    ensures Topology(on, |slots|, |slots|) == Topology(on, |slots|, i)
  {
    var n := |slots|;
    SeenAll(slots, i);
    forall k | i <= k < n ensures Parts(on, n)[k] == [] {
      FreePart(on, slots, k);
    }
    ConcatEmpty(Parts(on, n), i, n);
  }

  // ----- coverage -----

  predicate Carries(o: MpfObject, a: nat, b: nat)
  {
    match o
    case Bridge(source, sink) => a == source && b == sink
    case Multiplier(source, sinks) => a == source && b in sinks
    case Mixer(sources, sink) => a in sources && b == sink
  }

  /** How many of the objects carry audio from `a` to `b`. */
  function Carriers(objects: seq<MpfObject>, a: nat, b: nat): nat
  {
    if objects == [] then 0
    else Carriers(objects[..|objects| - 1], a, b) + if Carries(objects[|objects| - 1], a, b) then 1 else 0
  }

  lemma {:induction false} CarriersAppend(s: seq<MpfObject>, t: seq<MpfObject>, a: nat, b: nat)
    ensures Carriers(s + t, a, b) == Carriers(s, a, b) + Carriers(t, a, b)
  {
    if t == [] {
      assert s + t == s;
    } else {
      CarriersAppend(s, t[..|t| - 1], a, b);
      assert (s + t)[..|s + t| - 1] == s + t[..|t| - 1];
    }
  }

  lemma SourceCarries(on: Matrix, n: nat, i: nat, a: nat, b: nat)
    requires Square(on, n) && i < n && a < n && b < n
    ensures Carriers(SourceObject(on, n, i), a, b)
         == if i == a && on[a][b] && (|Sinks(on, n, a)| > 1 || |Sources(on, n, b)| <= 1) then 1 else 0
  {
    var sinks := Indices(on[i], n);
    IndicesCount(on[i], n);
    IndicesMembers(on[i], n);
    assert Sinks(on, n, i) == Marked(on[i]);
    if |sinks| == 1 {
      assert sinks[0] in sinks && (b in sinks <==> b == sinks[0]);
    }
  }

  lemma SinkCarries(on: Matrix, n: nat, j: nat, a: nat, b: nat)
    requires Square(on, n) && j < n && a < n && b < n
    ensures Carriers(SinkObject(on, n, j), a, b) == if j == b && on[a][b] && |Sources(on, n, b)| > 1 then 1 else 0
  {
    var line := Column(on, n, j);
    IndicesCount(line, n);
    IndicesMembers(line, n);
    assert Sources(on, n, j) == Marked(line);
  }

  /** What a slot contributes as a source, and as a sink. */
  lemma PartCarries(on: Matrix, n: nat, i: nat, a: nat, b: nat)
    requires Square(on, n) && i < n && a < n && b < n
    ensures Carriers(Parts(on, n)[i], a, b)
         == (if i == a && on[a][b] && (|Sinks(on, n, a)| > 1 || |Sources(on, n, b)| <= 1) then 1 else 0)
          + (if i == b && on[a][b] && |Sources(on, n, b)| > 1 then 1 else 0)
  {
    PartsAt(on, n, i);
    SourceCarries(on, n, i, a, b);
    SinkCarries(on, n, i, a, b);
    CarriersAppend(SourceObject(on, n, i), SinkObject(on, n, i), a, b);
  }

  lemma {:induction false} CarriersUpTo(on: Matrix, n: nat, k: nat, a: nat, b: nat)
    requires Square(on, n) && k <= n && a < n && b < n
    ensures Carriers(Topology(on, n, k), a, b)
         == (if a < k && on[a][b] && (|Sinks(on, n, a)| > 1 || |Sources(on, n, b)| <= 1) then 1 else 0)
          + (if b < k && on[a][b] && |Sources(on, n, b)| > 1 then 1 else 0)
  {
    if k > 0 {
      CarriersUpTo(on, n, k - 1, a, b);
      PartCarries(on, n, k - 1, a, b);
      CarriersNext(on, n, k, a, b);
    }
  }

  lemma CarriersNext(on: Matrix, n: nat, k: nat, a: nat, b: nat)
    requires Square(on, n) && 0 < k <= n && a < n && b < n
    ensures Carriers(Topology(on, n, k), a, b)
         == Carriers(Topology(on, n, k - 1), a, b) + Carriers(Parts(on, n)[k - 1], a, b)
  {
    CarriersAppend(Topology(on, n, k - 1), Parts(on, n)[k - 1], a, b);
  }

  /** The objects carry exactly the associations, each once, but twice where the
      source has several sinks and the sink several sources. */
  lemma TopologyCovers(on: Matrix, n: nat, a: nat, b: nat)
    requires Square(on, n) && a < n && b < n
    ensures Carriers(Topology(on, n, n), a, b)
         == if !on[a][b] then 0 else if |Sinks(on, n, a)| > 1 && |Sources(on, n, b)| > 1 then 2 else 1
  {
    CarriersUpTo(on, n, n, a, b);
    if on[a][b] {
      assert a in Sources(on, n, b) && b in Sinks(on, n, a);
    }
  }

  class Factory {
    var ring: seq<Context>

    constructor ()
      ensures ring == []
    {
      ring := [];
    }
  }

  function Without(ring: seq<Context>, c: Context): seq<Context>
  {
    if ring == [] then [] else if ring[0] == c then ring[1..] else [ring[0]] + Without(ring[1..], c)
  }

  lemma WithoutCount(ring: seq<Context>, c: Context, d: Context)
    ensures multiset(Without(ring, c))[d] == multiset(ring)[d] - (if d == c && c in ring then 1 else 0)
  {
    if ring != [] {
      assert ring == [ring[0]] + ring[1..];
      if ring[0] != c {
        WithoutCount(ring[1..], c, d);
      }
    }
  }

  class Context {
    const factory: Factory
    const capacity: nat
    var count: nat
    var slots: seq<Termination?>
    var tx: seq<byte>
    var rx: seq<byte>
    var on: Matrix
    var objects: seq<MpfObject>

    /** The counts agree with the matrix, the matrix with the slots, the ring with the count. */
    ghost predicate Valid()
      reads this`count, this`slots, this`tx, this`rx, this`on, factory
    {
      && capacity <= 255 && |slots| == capacity && Square(on, capacity)
      && count == |Occupied(slots)| && Counted(on, capacity, tx, rx) && Joined(on, slots)
      && multiset(factory.ring)[this] == (if count > 0 then 1 else 0)
    }

    constructor (factory: Factory, capacity: nat)
      requires capacity <= 255
      ensures this.factory == factory && this.capacity == capacity && count == 0 && slots == seq(capacity, _ => null)
      ensures on == seq(capacity, _ => seq(capacity, _ => false)) && objects == []
      ensures this !in factory.ring ==> Valid()
    {
      this.factory, this.capacity, count := factory, capacity, 0;
      slots := seq(capacity, _ => null);
      tx, rx := seq(capacity, _ => 0), seq(capacity, _ => 0);
      on, objects := seq(capacity, _ => seq(capacity, _ => false)), [];
      new;
      assert Occupied(slots) == {};
      forall i | 0 <= i < capacity ensures |Sinks(on, capacity, i)| == 0 && |Sources(on, capacity, i)| == 0 {
        assert Sinks(on, capacity, i) == {} && Sources(on, capacity, i) == {};
      }
    }

    method Connect(i: nat, j: nat)
      requires Valid() && i < capacity && j < capacity && slots[i] != null && slots[j] != null && !on[i][j]
      modifies this`on, this`tx, this`rx
      ensures Valid() && on == Set(old(on), i, j, true)
    {
      ConnectCounted(on, capacity, tx, rx, i, j);
      JoinedSet(on, slots, i, j, true);
      on := Set(on, i, j, true);
      tx := tx[i := Inc(tx[i])];
      rx := rx[j := Inc(rx[j])];
    }

    method Disconnect(i: nat, j: nat)
      requires Valid() && i < capacity && j < capacity
      modifies this`on, this`tx, this`rx
      ensures Valid() && on == Set(old(on), i, j, false)
    {
      if on[i][j] {
        DisconnectCounted(on, capacity, tx, rx, i, j);
        JoinedSet(on, slots, i, j, false);
        on := Set(on, i, j, false);
        tx := tx[i := Dec(tx[i])];
        rx := rx[j := Dec(rx[j])];
      } else {
        assert on[i][j := false] == on[i];
      }
    }

    /** The first free slot is taken. */
    method TerminationAdd(t: Termination) returns (ok: bool)
      requires Valid()
      modifies this`count, this`slots, this`tx, this`rx, t, factory
      ensures Valid() && ok == (old(count) < capacity) && on == old(on)
      ensures !ok ==> slots == old(slots) && factory.ring == old(factory.ring) && t.slot == old(t.slot)
      ensures ok ==> 0 <= t.slot < capacity && old(slots)[t.slot] == null && slots == old(slots)[t.slot := t]
                     && (forall k | 0 <= k < t.slot :: old(slots)[k] != null)
      ensures ok ==> factory.ring == if old(count) == 0 then old(factory.ring) + [this] else old(factory.ring)
    {
      var i := 0;
      while i < capacity
        invariant i <= capacity && forall k | 0 <= k < i :: slots[k] != null
      {
        if slots[i] == null {
          FreeSlot(slots, i);
          AddedCounted(on, slots, tx, rx, i, t);
          if count == 0 {
            factory.ring := factory.ring + [this];
          }
          slots, count := slots[i := t], count + 1;
          tx, rx := tx[i := 0], rx[i := 0];
          t.slot := i;
          return true;
        }
        i := i + 1;
      }
      FreeSlot(slots, i);
      ok := false;
    }

    /** A termination is known by the slot it remembers. */
    predicate Holds(t: Termination)
      reads this, t
    {
      0 <= t.slot < |slots| && slots[t.slot] == t
    }

    method TerminationSubtract(t: Termination) returns (ok: bool)
      requires Valid()
      modifies this`count, this`slots, this`tx, this`rx, this`on, t, factory
      ensures Valid() && ok == old(Holds(t))
      ensures !ok ==> slots == old(slots) && on == old(on) && factory.ring == old(factory.ring) && t.slot == old(t.slot)
      ensures ok ==> t.slot == -1 && slots == old(slots)[old(t.slot) := null]
                     && Cleared(on, old(on), capacity, old(t.slot), capacity)
      ensures ok ==> factory.ring == if old(count) == 1 then Without(old(factory.ring), this) else old(factory.ring)
    {
      if !Holds(t) {
        return false;
      }
      var i := t.slot;
      ClearSlot(i);
      SubtractedSlot(on, slots, i);
      slots, count := slots[i := null], count - 1;
      t.slot := -1;
      if count == 0 {
        WithoutCount(factory.ring, this, this);
        factory.ring := Without(factory.ring, this);
      }
      ok := true;
    }

    /** The loop ends once every occupied slot was seen. */
    method ClearSlot(i: nat)
      requires Valid() && i < capacity && slots[i] != null
      modifies this`on, this`tx, this`rx
      ensures Valid() && Cleared(on, old(on), capacity, i, capacity)
    {
      var j, k := 0, 0;
      while j < capacity && k < count
        invariant j <= capacity && Valid() && k == |Below(slots, j)|
        invariant Cleared(on, old(on), capacity, i, j)
      {
        BelowNext(slots, j);
        ghost var before := on;
        if slots[j] != null {
          k := k + 1;
          Disconnect(i, j);
          Disconnect(j, i);
        }
        ClearedNext(on, before, old(on), slots, i, j);
        j := j + 1;
      }
      SeenAll(slots, j);
      ClearedRest(on, old(on), slots, i, j);
    }

    method AssociationAdd(t1: Termination, t2: Termination) returns (ok: bool)
      requires Valid()
      modifies this`on, this`tx, this`rx
      ensures Valid() && ok == (Holds(t1) && Holds(t2)) && (!ok ==> on == old(on))
      ensures ok ==> forall a, b | 0 <= a < capacity && 0 <= b < capacity ::
                       on[a][b] == (
                         || old(on)[a][b]
                         || (a == t1.slot && b == t2.slot && t1.audio in RECEIVING && t2.audio in SENDING)
                         || (a == t2.slot && b == t1.slot && t2.audio in RECEIVING && t1.audio in SENDING))
    {
      if !Holds(t1) || !Holds(t2) {
        return false;
      }
      var i, j := t1.slot, t2.slot;
      CompatibleIff(t1, t2);
      CompatibleIff(t2, t1);
      if !on[i][j] && Compatible(t1, t2) {
        Connect(i, j);
      }
      if !on[j][i] && Compatible(t2, t1) {
        Connect(j, i);
      }
      ok := true;
    }

    method AssociationRemove(t1: Termination, t2: Termination) returns (ok: bool)
      requires Valid()
      modifies this`on, this`tx, this`rx
      ensures Valid() && ok == (Holds(t1) && Holds(t2)) && (!ok ==> on == old(on))
      ensures ok ==> forall a, b | 0 <= a < capacity && 0 <= b < capacity ::
                       on[a][b] == (old(on)[a][b] && !(a == t1.slot && b == t2.slot) && !(a == t2.slot && b == t1.slot))
    {
      if !Holds(t1) || !Holds(t2) {
        return false;
      }
      var i, j := t1.slot, t2.slot;
      Disconnect(i, j);
      Disconnect(j, i);
      ok := true;
    }

    /** The whole matrix is cleared although both loops skip and stop early. */
    method AssociationsReset()
      requires Valid()
      modifies this`on, this`tx, this`rx, this`objects
      ensures Valid() && objects == []
      ensures forall a, b | 0 <= a < capacity && 0 <= b < capacity :: !on[a][b]
    {
      objects := [];
      var i, k := 0, 0;
      while i < capacity && k < count
        invariant i <= capacity && Valid() && k == |Below(slots, i)| && objects == []
        invariant Remaining(on, old(on), capacity, i, i)
      {
        BelowNext(slots, i);
        if slots[i] != null {
          k := k + 1;
          if tx[i] != 0 || rx[i] != 0 {
            ClearFrom(i, old(on));
          } else {
            NothingAt(on, capacity, i);
          }
        }
        i := i + 1;
      }
      SeenAll(slots, i);
    }

    method ClearFrom(i: nat, ghost start: Matrix)
      requires Valid() && i < capacity && Square(start, capacity) && Remaining(on, start, capacity, i, i)
      modifies this`on, this`tx, this`rx
      ensures Valid() && Remaining(on, start, capacity, i + 1, i + 1)
    {
      var j := i;
      while j < capacity
        invariant i <= j <= capacity && Valid() && Remaining(on, start, capacity, i, j)
      {
        ghost var before := on;
        if slots[j] != null {
          Disconnect(i, j);
          Disconnect(j, i);
        }
        RemainingNext(on, before, start, slots, i, j);
        j := j + 1;
      }
    }

    /** The objects are created anew from the matrix, slot by slot. */
    method TopologyApply()
      requires Valid()
      modifies this`objects
      ensures objects == Topology(on, capacity, capacity)
    {
      objects := [];
      var i, k := 0, 0;
      ghost var parts := Parts(on, capacity);
      while i < capacity && k < count
        invariant i <= capacity && k == |Below(slots, i)| && objects == Concat(parts, i)
      {
        BelowNext(slots, i);
        if slots[i] != null {
          k := k + 1;
          ObjectsPut(i);
        } else {
          FreePart(on, slots, i);
        }
        i := i + 1;
      }
      RestIsFree(on, slots, i);
    }

    method ObjectsPut(i: nat)
      requires Valid() && i < capacity && slots[i] != null
      modifies this`objects
      ensures objects == old(objects) + Parts(on, capacity)[i]
    {
      var created := ObjectsCreate(i);
      PartsAt(on, capacity, i);
      objects := objects + created;
    }

    method ObjectsCreate(i: nat) returns (created: seq<MpfObject>)
      requires Valid() && i < capacity && slots[i] != null
      ensures created == ObjectsAt(on, capacity, i)
    {
      var source, sink := [], [];
      if tx[i] > 0 {
        if tx[i] == 1 {
          source := BridgeCreate(i);
        } else {
          source := MultiplierCreate(i);
        }
      } else {
        NoSource(on, capacity, i);
      }
      if rx[i] > 1 {
        sink := MixerCreate(i);
      } else {
        NoMixer(on, capacity, i);
      }
      created := source + sink;
    }

    /** Nothing is created if the sink is fed by a mixer. */
    method BridgeCreate(i: nat) returns (created: seq<MpfObject>)
      requires Valid() && i < capacity && tx[i] == 1
      ensures created == SourceObject(on, capacity, i)
    {
      var j := SinkFind(i);
      BridgeIs(on, capacity, tx, rx, i, j);
      created := [];
      if j < capacity && rx[j] <= 1 {
        created := [Bridge(i, j)];
      }
    }

    method SinkFind(i: nat) returns (j: nat)
      requires Square(on, capacity) && |slots| == capacity && Joined(on, slots) && i < capacity
      ensures j <= capacity && Indices(on[i], j) == [] && (j < capacity ==> on[i][j])
    {
      j := 0;
      while j < capacity
        invariant j <= capacity && Indices(on[i], j) == []
      {
        if slots[j] != null && on[i][j] {
          return;
        }
        SkippedSink(on, slots, i, j);
        j := j + 1;
      }
    }

    method MultiplierCreate(i: nat) returns (created: seq<MpfObject>)
      requires Valid() && i < capacity && tx[i] > 1
      ensures created == SourceObject(on, capacity, i)
    {
      var sinks, j := [], 0;
      while j < capacity && |sinks| < tx[i]
        invariant j <= capacity && sinks == Indices(on[i], j)
      {
        if slots[j] != null && on[i][j] {
          sinks := sinks + [j];
        }
        j := j + 1;
      }
      assert Sinks(on, capacity, i) == Marked(on[i]);
      IndicesComplete(on[i], j);
      created := [Multiplier(i, sinks)];
    }

    method MixerCreate(j: nat) returns (created: seq<MpfObject>)
      requires Valid() && j < capacity && rx[j] > 1
      ensures created == SinkObject(on, capacity, j)
    {
      var sources, i := [], 0;
      ghost var line := Column(on, capacity, j);
      while i < capacity && |sources| < rx[j]
        invariant i <= capacity && sources == Indices(line, i)
      {
        if slots[i] != null && on[i][j] {
          sources := sources + [i];
        }
        i := i + 1;
      }
      assert Sources(on, capacity, j) == Marked(line);
      IndicesComplete(line, i);
      created := [Mixer(sources, j)];
    }
  }

  /** One more column is clear: it was cleared, or its slot is free. */
  lemma ClearedNext(on: Matrix, before: Matrix, start: Matrix, slots: seq<Termination?>, i: nat, j: nat)
    requires Square(on, |slots|) && Square(before, |slots|) && Square(start, |slots|) && i < |slots| && j < |slots|
    requires Cleared(before, start, |slots|, i, j) && Joined(before, slots)
    requires on == if slots[j] != null then Set(Set(before, i, j, false), j, i, false) else before
    ensures Cleared(on, start, |slots|, i, j + 1)
  {
  }

  lemma ClearedRest(on: Matrix, start: Matrix, slots: seq<Termination?>, i: nat, j: nat)
    requires Square(on, |slots|) && Square(start, |slots|) && i < |slots| && j <= |slots|
    requires Cleared(on, start, |slots|, i, j) && Joined(on, slots) && forall k | j <= k < |slots| :: slots[k] == null
    ensures Cleared(on, start, |slots|, i, |slots|)
  {
  }

  lemma SubtractedSlot(on: Matrix, slots: seq<Termination?>, i: nat)
    requires Square(on, |slots|) && Joined(on, slots) && i < |slots| && slots[i] != null
    requires forall a, b | 0 <= a < |slots| && 0 <= b < |slots| && (a == i || b == i) :: !on[a][b]
    ensures Joined(on, slots[i := null]) && |Occupied(slots[i := null])| == |Occupied(slots)| - 1
  {
    assert Occupied(slots[i := null]) == Occupied(slots) - {i};
    forall a, b | 0 <= a < |slots| && 0 <= b < |slots| ensures on[a][b] ==> Taken(slots[i := null], a, b) {
      assert on[a][b] ==> Taken(slots, a, b);
    }
  }
}
