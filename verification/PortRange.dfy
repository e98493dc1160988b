/** RTP ports: the configured range is split among media engines, and an engine
    searches its part for a free pair of ports. */
module PortRange {
  import opened Machine
  import opened Options
  import Multiples

  datatype Ports = Ports(min: u16, max: u16, cur: u16)

  datatype Slot = Slot(engine: nat, ports: Ports)

  // ----- splitting -----

  function Even(x: nat): nat { if x % 2 != 0 then x - 1 else x }

  /** An even number of ports for each of `n` engines. */
  function PerEngine(c: Ports, n: nat): (p: u16)
    requires n > 0 && c.min <= c.max
    ensures p % 2 == 0 && p * n <= c.max - c.min
  {
    Multiples.Floor(c.max - c.min, n);
    Shared((c.max - c.min) / n, n);
    Even((c.max - c.min) / n)
  }

  lemma Shared(q: nat, n: nat)
    ensures Even(q) % 2 == 0 && Even(q) * n <= n * q
  {
    Multiples.Monotone(Even(q), q, n);
    assert Even(q) * n == n * Even(q);
  }

  /** No larger even number of ports is there for each of them. */
  lemma PerEngineIsLargest(c: Ports, n: nat, x: nat)
    requires n > 0 && c.min <= c.max && x % 2 == 0 && x * n <= c.max - c.min
    ensures x <= PerEngine(c, n)
  {
    var q := (c.max - c.min) / n;
    assert c.max - c.min == n * q + (c.max - c.min) % n;
    assert n * x == x * n;
    if x > q {
      Multiples.Ordered(q, x, n);
    }
  }

  /** Where the part of the i-th of `n` engines begins. */
  function Edge(c: Ports, n: nat, i: nat): int
    requires n > 0 && c.min <= c.max
  {
    c.min + PerEngine(c, n) * i
  }

  lemma EdgeFits(c: Ports, n: nat, i: nat)
    requires n > 0 && c.min <= c.max && i < n
    ensures c.min <= Edge(c, n, i) && Edge(c, n, i + 1) == Edge(c, n, i) + PerEngine(c, n) <= c.max
  {
    var p := PerEngine(c, n);
    Multiples.Monotone(0, i, p);
    Multiples.Monotone(i + 1, n, p);
    Multiples.Next(i, p);
  }

  predicate PartIs(c: Ports, n: nat, i: nat, p: Ports)
    requires i < n && c.min <= c.max
  {
    p.min == Edge(c, n, i) && p.max == if i == n - 1 then c.max else Edge(c, n, i + 1)
  }

  /** Consecutive parts of the range, all but the last of the same even length. */
  predicate Split(c: Ports, slots: seq<Slot>)
    requires c.min <= c.max
  {
    forall i | 0 <= i < |slots| :: PartIs(c, |slots|, i, slots[i].ports)
  }

  /** All cursors but the first engine's are at the beginning of their parts. */
  predicate Reset(slots: seq<Slot>) { forall i | 1 <= i < |slots| :: slots[i].ports.cur == slots[i].ports.min }

  /** The engine that a port falls to. */
  function Owner(c: Ports, n: nat, port: u16): nat
    requires n > 0 && c.min <= port < c.max
  {
    var p := PerEngine(c, n);
    if p == 0 then n - 1
    else
      Multiples.Floor(port - c.min, p);
      if (port - c.min) / p >= n then n - 1 else (port - c.min) / p
  }

  /** Every port of the range falls to exactly one engine. */
  lemma PortsPartitioned(c: Ports, slots: seq<Slot>, port: u16, i: nat)
    requires i < |slots| && c.min <= port < c.max && Split(c, slots)
    ensures slots[i].ports.min <= port < slots[i].ports.max <==> i == Owner(c, |slots|, port)
  {
    var n, p := |slots|, PerEngine(c, |slots|);
    assert PartIs(c, n, i, slots[i].ports);
    EdgeFits(c, n, i);
    if p > 0 {
      PartHolds(port - c.min, p, i);
    }
  }

  lemma PartHolds(x: nat, p: nat, i: nat)
    requires p > 0
    ensures p * i <= x <==> i <= x / p
    ensures x < p * (i + 1) <==> x / p <= i
  {
    assert x == p * (x / p) + x % p;
    Multiples.Ordered(x / p, i, p);
    Multiples.Ordered(i, x / p, p);
    Multiples.Next(i, p);
    Multiples.Ordered(i + 1, x / p, p);
  }

  /** And no port outside of it does; the parts are whole pairs, but for the last. */
  lemma PartsInRange(c: Ports, slots: seq<Slot>, i: nat)
    requires i < |slots| && c.min <= c.max && Split(c, slots)
    ensures c.min <= slots[i].ports.min <= slots[i].ports.max <= c.max
    ensures i < |slots| - 1 ==> (slots[i].ports.max - slots[i].ports.min) % 2 == 0
                                && slots[i].ports.max == slots[i + 1].ports.min
  {
    assert PartIs(c, |slots|, i, slots[i].ports);
    EdgeFits(c, |slots|, i);
    if i < |slots| - 1 {
      assert PartIs(c, |slots|, i + 1, slots[i + 1].ports);
    }
  }

  /** The first `i` parts are computed. */
  predicate Cut(c: Ports, before: seq<Slot>, slots: seq<Slot>, i: nat)
    requires c.min <= c.max && i <= |slots|
  {
    && |slots| == |before| > 0 && slots[0].ports.cur == before[0].ports.cur
    && (forall j | 1 <= j < i :: slots[j].ports.cur == slots[j].ports.min)
    && (forall j | 0 <= j < i :: PartIs(c, |slots|, j, slots[j].ports))
    && (forall j | 0 <= j < |slots| :: slots[j].engine == before[j].engine)
  }

  lemma CutNext(c: Ports, before: seq<Slot>, slots: seq<Slot>, i: nat, ports: Ports)
    requires c.min <= c.max && 1 <= i < |slots| && Cut(c, before, slots, i)
    requires PartIs(c, |slots|, i, ports) && ports.cur == ports.min
    ensures Cut(c, before, slots[i := slots[i].(ports := ports)], i + 1)
  {
  }

  predicate Knows(slots: seq<Slot>, engine: nat) { exists i :: 0 <= i < |slots| && slots[i].engine == engine }

  class Factory {
    const config: Ports
    var slots: seq<Slot>

    ghost predicate Valid()
      reads this
    {
      && config.min <= config.max && config.cur == config.min
      && Split(config, slots)
      && forall i, j | 0 <= i < j < |slots| :: slots[i].engine != slots[j].engine
    }

    constructor (min: u16, max: u16)
      requires min <= max
      ensures Valid() && config == Ports(min, max, min) && slots == []
    {
      config, slots := Ports(min, max, min), [];
    }

    method EngineAssign(engine: nat)
      requires Valid()
      modifies this`slots
      ensures Valid() && Knows(slots, engine)
      ensures if Knows(old(slots), engine) then slots == old(slots)
              else |slots| == old(|slots|) + 1 && slots[old(|slots|)].engine == engine
                   && (forall i | 0 <= i < old(|slots|) :: slots[i].engine == old(slots)[i].engine)
                   && Reset(slots)
                   && slots[0].ports.cur == (if old(slots) == [] then config.min else old(slots)[0].ports.cur)
    {
      var k := 0;
      while k < |slots|
        invariant k <= |slots| && forall i | 0 <= i < k :: slots[i].engine != engine
      {
        if slots[k].engine == engine {
          return;
        }
        k := k + 1;
      }
      FirstPart(config, slots);
      slots := slots + [Slot(engine, config)];
      if |slots| > 1 {
        RangesRewrite();
      }
      assert slots[|slots| - 1].engine == engine;
    }

    method PortsSet(i: nat, ports: Ports)
      requires i < |slots|
      modifies this`slots
      ensures slots == old(slots)[i := old(slots)[i].(ports := ports)]
    {
      slots := slots[i := slots[i].(ports := ports)];
    }

    /** The parts are computed anew, each beginning where the one before ends. */
    method RangesRewrite()
      requires |slots| > 1 && config.min <= config.max && config.cur == config.min
      requires slots[0].ports.min == config.min && slots[|slots| - 1].ports == config
      modifies this`slots
      ensures Split(config, slots) && Reset(slots) && |slots| == old(|slots|)
      ensures slots[0].ports.cur == old(slots)[0].ports.cur
      ensures forall i | 0 <= i < |slots| :: slots[i].engine == old(slots)[i].engine
    {
      var n := |slots|;
      var p := PerEngine(config, n);
      EdgeFits(config, n, 0);
      PortsSet(0, slots[0].ports.(max := Wrap16(slots[0].ports.min + p)));
      var prev, i := slots[0].ports, 1;
      while i < n - 1
        invariant 1 <= i <= n - 1 && |slots| == n && prev.max == Edge(config, n, i)
        invariant slots[n - 1].ports == config && Cut(config, old(slots), slots, i)
      {
        EdgeFits(config, n, i);
        prev := Ports(prev.max, Wrap16(prev.max + p), prev.max);
        CutNext(config, old(slots), slots, i, prev);
        PortsSet(i, prev);
        i := i + 1;
      }
      EdgeFits(config, n, n - 1);
      CutNext(config, old(slots), slots, n - 1, slots[n - 1].ports.(min := prev.max, cur := prev.max));
      PortsSet(n - 1, slots[n - 1].ports.(min := prev.max, cur := prev.max));
    }
  }

  /** The first engine keeps the beginning of the range. */
  lemma FirstPart(c: Ports, slots: seq<Slot>)
    requires c.min <= c.max && Split(c, slots)
    ensures slots != [] ==> slots[0].ports.min == c.min
    ensures forall e :: Split(c, [Slot(e, c)])
  {
    assert slots != [] ==> PartIs(c, |slots|, 0, slots[0].ports);
    assert forall e :: PartIs(c, 1, 0, [Slot(e, c)][0].ports);
  }

  // ----- searching -----

  /** The pairs of a part: every other port from its first on. */
  function Pairs(c: Ports): nat
    requires c.min < c.max
  {
    (c.max - c.min + 1) / 2
  }

  predicate OnPair(c: Ports) { c.min <= c.cur < c.max && (c.cur - c.min) % 2 == 0 }

  /** The cursor is a 16-bit number: what follows the last pair still fits, or is the
      first pair. */
  predicate Unwrapped(c: Ports) { c.max < 0xFFFF || (c.max - c.min) % 2 == 0 || c.min == 0 }

  predicate Searchable(c: Ports) { OnPair(c) && Unwrapped(c) }

  /** The k-th candidate of a search, which goes round the part. */
  function Candidate(c: Ports, k: nat): int
    requires Searchable(c) && k <= Pairs(c)
  {
    var a := (c.cur - c.min) / 2 + k;
    c.min + 2 * (if a < Pairs(c) then a else a - Pairs(c))
  }

  /** The candidates are all the pairs, each of them once. */
  lemma CandidatesAreThePairs(c: Ports, port: u16, k: nat, j: nat)
    requires Searchable(c) && k < Pairs(c) && j < Pairs(c)
    ensures c.min <= Candidate(c, k) < c.max && (Candidate(c, k) - c.min) % 2 == 0
    ensures Candidate(c, k) == Candidate(c, j) ==> k == j
    ensures c.min <= port < c.max && (port - c.min) % 2 == 0 ==>
              exists i :: 0 <= i < Pairs(c) && Candidate(c, i) == port
  {
    if c.min <= port < c.max && (port - c.min) % 2 == 0 {
      var a, b := (port - c.min) / 2, (c.cur - c.min) / 2;
      var i := if b <= a then a - b else a - b + Pairs(c);
      assert Candidate(c, i) == port;
    }
  }

  /** A port and the next one are both inside the part for each candidate if and only if
      the length is even: otherwise the last candidate's second port is the one after it. */
  lemma PairsInsideIff(c: Ports)
    requires Searchable(c)
    ensures (forall k: nat | k < Pairs(c) :: Candidate(c, k) + 1 < c.max) <==> (c.max - c.min) % 2 == 0
    ensures forall k: nat | k < Pairs(c) :: Candidate(c, k) + 1 <= c.max
    ensures forall k: nat | k < Pairs(c) && Candidate(c, k) + 1 == c.max ::
              Candidate(c, k) == c.min + 2 * (Pairs(c) - 1)
  {
    if (c.max - c.min) % 2 != 0 {
      var b := (c.cur - c.min) / 2;
      assert Candidate(c, Pairs(c) - 1 - b) == c.max - 1;
    }
  }

  /** Where a search goes next. */
  function NextCursor(c: Ports): u16
  {
    var next := Wrap16(c.cur + 2);
    if next >= c.max then c.min else next
  }

  function CursorAfter(c: Ports, k: nat): u16
  {
    if k == 0 then c.cur else NextCursor(c.(cur := CursorAfter(c, k - 1)))
  }

  lemma NextIs(c: Ports)
    requires c.cur < 0xFFFE || Searchable(c)
    ensures NextCursor(c) == if c.cur + 2 >= c.max then c.min else c.cur + 2
  {
  }

  lemma CandidateNext(c: Ports, k: nat)
    requires Searchable(c) && k < Pairs(c)
    ensures Candidate(c, k + 1) == if Candidate(c, k) + 2 >= c.max then c.min else Candidate(c, k) + 2
  {
  }

  lemma CandidateSearchable(c: Ports, k: nat)
    requires Searchable(c) && k <= Pairs(c)
    ensures 0 <= Candidate(c, k) < 0xFFFF && Searchable(c.(cur := Candidate(c, k)))
    ensures Candidate(c, k) == c.cur <==> k == 0 || k == Pairs(c)
  {
  }

  lemma {:induction false} CursorIsCandidate(c: Ports, k: nat)
    requires Searchable(c) && k <= Pairs(c)
    ensures CursorAfter(c, k) == Candidate(c, k)
  {
    if k > 0 {
      CursorIsCandidate(c, k - 1);
      CandidateNext(c, k - 1);
      CandidateSearchable(c, k - 1);
      NextIs(c.(cur := CursorAfter(c, k - 1)));
    }
  }

  lemma {:induction false} CursorStays(c: Ports, k: nat)
    requires Searchable(c)
    ensures Searchable(c.(cur := CursorAfter(c, k)))
  {
    if k > 0 {
      CursorStays(c, k - 1);
      var d := c.(cur := CursorAfter(c, k - 1));
      NextIs(d);
      SameParity(d.cur - c.min);
    }
  }

  lemma {:induction false} CursorRuns(c: Ports, k: nat)
    requires c.cur + 2 * k < c.max
    ensures CursorAfter(c, k) == c.cur + 2 * k
  {
    if k > 0 {
      CursorRuns(c, k - 1);
    }
  }

  lemma WrapsToZero(c: Ports, k: nat)
    requires OnPair(c) && !Unwrapped(c) && k == (0xFFFE - c.cur) / 2
    ensures CursorAfter(c, k + 1) == 0 < c.min
  {
    CursorRuns(c, k);
    assert (0xFFFE - c.cur) % 2 == 0;
  }

  /** A search begun at a pair never leaves the part if and only if the cursor does not
      wrap behind the last pair: otherwise it goes on at port zero, below the part. */
  lemma StaysInPartIff(c: Ports)
    requires OnPair(c)
    ensures (forall k: nat :: c.min <= CursorAfter(c, k) < c.max) <==> Unwrapped(c)
    ensures !Unwrapped(c) ==> CursorAfter(c, (0xFFFE - c.cur) / 2 + 1) == 0 < c.min
  {
    if Unwrapped(c) {
      forall k: nat ensures c.min <= CursorAfter(c, k) < c.max {
        CursorStays(c, k);
      }
    } else {
      WrapsToZero(c, (0xFFFE - c.cur) / 2);
    }
  }

  /** A cursor that was never on a pair of the part does not come back to where it was. */
  lemma {:induction false} CursorLeaves(c: Ports, k: nat)
    requires c.min < c.max < 0xFFFF && c.min <= c.cur < 0xFFFE && k >= 1
    ensures var x := CursorAfter(c, k);
            c.min <= x < c.max && ((x - c.min) % 2 == 0 || ((c.cur - c.min) % 2 != 0 && x == c.cur + 2 * k))
    decreases k
  {
    var y := CursorAfter(c, k - 1);
    if k > 1 {
      CursorLeaves(c, k - 1);
    }
    NextIs(c.(cur := y));
    SameParity(y - c.min);
    SameParity(c.cur - c.min);
  }

  lemma SameParity(x: int)
    ensures (x + 2) % 2 == x % 2
  {
  }

  /** A search that finds nothing ends if and only if it began at a pair of the part:
      only then does the cursor come back to where the search began. */
  lemma SearchEndsIff(c: Ports)
    requires c.min < c.max < 0xFFFF && c.min <= c.cur < 0xFFFE
    ensures (exists k: nat :: k >= 1 && CursorAfter(c, k) == c.cur) <==> Searchable(c)
  {
    if Searchable(c) {
      CursorIsCandidate(c, Pairs(c));
      assert CursorAfter(c, Pairs(c)) == c.cur;
    } else {
      forall k: nat | k >= 1 ensures CursorAfter(c, k) != c.cur {
        CursorLeaves(c, k);
      }
    }
  }

  /** When one more engine is assigned, the first engine keeps its cursor: it is still on
      a pair of its part if and only if it lies before the new end. */
  lemma KeptCursorIff(c: Ports, before: seq<Slot>, after: seq<Slot>)
    requires c.min <= c.max && before != [] && |after| == |before| + 1
    requires Split(c, before) && Split(c, after) && after[0].ports.cur == before[0].ports.cur
    requires Searchable(before[0].ports)
    ensures Searchable(after[0].ports) <==> before[0].ports.cur < after[0].ports.max
  {
    FirstPart(c, before);
    FirstPart(c, after);
    PartsInRange(c, after, 0);
  }

  /** None of the first `k` candidates is free. */
  predicate NoneFree(c: Ports, k: nat, free: set<u16>)
    requires Searchable(c) && k <= Pairs(c)
  {
    forall j | 0 <= j < k :: Candidate(c, j) !in free
  }

  class PortPool {
    const min: u16
    const max: u16
    var cur: u16

    function Value(): Ports
      reads this
    {
      Ports(min, max, cur)
    }

    constructor (ports: Ports)
      ensures Value() == ports
    {
      min, max, cur := ports.min, ports.max, ports.cur;
    }

    /** The first free candidate, or none after each was tried once. */
    method PortFind(free: set<u16>) returns (port: Option<u16>, ghost tried: nat)
      requires Searchable(Value())
      modifies this`cur
      ensures Searchable(Value()) && 1 <= tried <= Pairs(old(Value())) && cur == Candidate(old(Value()), tried)
      ensures port.Some? ==> port.value == Candidate(old(Value()), tried - 1) && port.value in free
                             && NoneFree(old(Value()), tried - 1, free)
      ensures port.None? ==> tried == Pairs(old(Value())) && cur == old(cur) && NoneFree(old(Value()), tried, free)
    {
      var first := cur;
      ghost var start := Value();
      tried := 0;
      port := None;
      var more := true;
      while more
        invariant Searchable(Value()) && tried <= Pairs(start) && cur == Candidate(start, tried)
        invariant more ==> tried < Pairs(start) && port.None?
        invariant port.None? ==> NoneFree(start, tried, free) && (!more ==> tried == Pairs(start))
        invariant port.Some? ==> tried >= 1 && !more && port.value == Candidate(start, tried - 1) && port.value in free
                                 && NoneFree(start, tried - 1, free)
        decreases more, Pairs(start) - tried
      {
        var candidate := cur;
        NextIs(Value());
        CursorMove();
        CandidateNext(start, tried);
        CandidateSearchable(start, tried + 1);
        tried := tried + 1;
        if candidate in free {
          port, more := Some(candidate), false;
        } else {
          more := first != cur;
        }
      }
    }

    method CursorMove()
      modifies this`cur
      ensures cur == NextCursor(old(Value()))
    {
      cur := Wrap16(cur + 2);
      if cur >= max {
        cur := min;
      }
    }
  }
}
