/** The list of timers as it is linked: each timer holds the next and the previous one,
    and a sentinel closes the ring, as in the rings of the Apache Portable Runtime. While
    every call fits, the links are the list; a timer inserted twice breaks them. */
module TimerLinks {
  import opened Machine
  import opened TimerQueue
  import opened TimerFiring
  import opened TimerRuns
  import Sequences

  /** The nodes are the timers below `n` and the sentinel `n`. */
  datatype Links = Links(next: seq<nat>, prev: seq<nat>)
  {
    predicate Valid(n: nat)
    {
      && |next| == n + 1 == |prev|
      && (forall k | 0 <= k <= n :: next[k] <= n) && (forall k | 0 <= k <= n :: prev[k] <= n)
    }
  }

  function SpliceAfter(l: Links, n: nat, p: nat, x: nat): (r: Links)
    requires l.Valid(n) && p <= n && x <= n
    ensures r.Valid(n)
  {
    var s := l.next[p];
    Links(l.next[x := s][p := x], l.prev[x := p][s := x])
  }

  function SpliceBefore(l: Links, n: nat, p: nat, x: nat): (r: Links)
    requires l.Valid(n) && p <= n && x <= n
    ensures r.Valid(n)
  {
    var o := l.prev[p];
    Links(l.next[x := p][o := x], l.prev[x := o][p := x])
  }

  function Unsplice(l: Links, n: nat, x: nat): (r: Links)
    requires l.Valid(n) && x <= n
    ensures r.Valid(n)
  {
    var o, s := l.prev[x], l.next[x];
    Links(l.next[o := s], l.prev[s := o])
  }

  // ----- rings -----

  /** The nodes in their order, from the sentinel to the sentinel. */
  function NodeAt(ring: seq<nat>, n: nat, i: nat): nat
    requires i <= |ring| + 1
  {
    if i == 0 || i == |ring| + 1 then n else ring[i - 1]
  }

  predicate Linked(l: Links, n: nat, ring: seq<nat>, i: nat)
    requires l.Valid(n) && Known(ring, n) && i <= |ring|
  {
    l.next[NodeAt(ring, n, i)] == NodeAt(ring, n, i + 1) && l.prev[NodeAt(ring, n, i + 1)] == NodeAt(ring, n, i)
  }

  predicate IsRing(l: Links, n: nat, ring: seq<nat>)
  {
    && l.Valid(n) && Known(ring, n) && (forall i, j | 0 <= i < j < |ring| :: ring[i] != ring[j])
    && forall i | 0 <= i <= |ring| :: Linked(l, n, ring, i)
  }

  lemma NodesDistinct(ring: seq<nat>, n: nat, i: nat, j: nat)
    requires Known(ring, n) && (forall i, j | 0 <= i < j < |ring| :: ring[i] != ring[j]) && i < j <= |ring| + 1
    ensures NodeAt(ring, n, i) != NodeAt(ring, n, j) || (i == 0 && j == |ring| + 1)
  {
  }

  /** Linking a new node after the k-th. */
  lemma SpliceAfterRing(l: Links, n: nat, ring: seq<nat>, k: nat, x: nat)
    requires IsRing(l, n, ring) && k <= |ring| && x < n && x !in ring
    ensures IsRing(SpliceAfter(l, n, NodeAt(ring, n, k), x), n, ring[..k] + [x] + ring[k..])
  {
    var r := ring[..k] + [x] + ring[k..];
    Sequences.InsertedElements(ring, k, x);
    forall i, j | 0 <= i < j < |r| ensures r[i] != r[j] {
    }
    forall i | 0 <= i <= |r| ensures Linked(SpliceAfter(l, n, NodeAt(ring, n, k), x), n, r, i) {
      SplicedLink(l, n, ring, k, x, i);
    }
  }

  lemma SplicedLink(l: Links, n: nat, ring: seq<nat>, k: nat, x: nat, i: nat)
    requires IsRing(l, n, ring) && k <= |ring| && x < n && x !in ring && i <= |ring| + 1
    ensures var r := ring[..k] + [x] + ring[k..];
            Known(r, n) && Linked(SpliceAfter(l, n, NodeAt(ring, n, k), x), n, r, i)
  {
    NodesShift(ring, n, k, x, i);
    NodesShift(ring, n, k, x, i + 1);
    assert Linked(l, n, ring, k);
    if i < k {
      OtherLink(l, n, ring, k, x, i);
    } else if i > k + 1 {
      OtherLink(l, n, ring, k, x, i - 1);
    }
  }

  /** The links between other nodes stay. */
  lemma OtherLink(l: Links, n: nat, ring: seq<nat>, k: nat, x: nat, i: nat)
    requires IsRing(l, n, ring) && k <= |ring| && x < n && x !in ring && i <= |ring| && i != k
    ensures Linked(SpliceAfter(l, n, NodeAt(ring, n, k), x), n, ring, i)
  {
    assert Linked(l, n, ring, i) && Linked(l, n, ring, k);
    assert i > 0 ==> ring[i - 1] in ring;
    assert i < |ring| ==> ring[i] in ring;
    if i < k {
      NodesDistinct(ring, n, i, k);
      NodesDistinct(ring, n, i + 1, k + 1);
    } else {
      NodesDistinct(ring, n, k, i);
      NodesDistinct(ring, n, k + 1, i + 1);
    }
  }

  lemma NodesShift(ring: seq<nat>, n: nat, k: nat, x: nat, i: nat)
    requires k <= |ring| && i <= |ring| + 2
    ensures var r := ring[..k] + [x] + ring[k..];
            && |r| == |ring| + 1
            && NodeAt(r, n, i)
               == if i <= k then NodeAt(ring, n, i) else if i == k + 1 then x else NodeAt(ring, n, i - 1)
  {
    Sequences.InsertedElements(ring, k, x);
  }

  /** Taking the k-th timer out. */
  lemma UnspliceRing(l: Links, n: nat, ring: seq<nat>, k: nat, left: seq<nat>)
    requires IsRing(l, n, ring) && k < |ring| && left == ring[..k] + ring[k + 1..]
    ensures IsRing(Unsplice(l, n, ring[k]), n, left)
  {
    Sequences.RemovedElements(ring, k);
    forall i, j | 0 <= i < j < |left| ensures left[i] != left[j] {
    }
    forall i | 0 <= i <= |left| ensures Linked(Unsplice(l, n, ring[k]), n, left, i) {
      UnsplicedLink(l, n, ring, k, i);
    }
  }

  lemma UnsplicedLink(l: Links, n: nat, ring: seq<nat>, k: nat, i: nat)
    requires IsRing(l, n, ring) && k < |ring| && i < |ring|
    ensures var r := ring[..k] + ring[k + 1..]; Known(r, n) && Linked(Unsplice(l, n, ring[k]), n, r, i)
  {
    NodesBack(ring, n, k, i);
    NodesBack(ring, n, k, i + 1);
    assert Linked(l, n, ring, k) && Linked(l, n, ring, k + 1);
    if i < k {
      FarLink(l, n, ring, k, i);
    } else if i > k {
      FarLink(l, n, ring, k, i + 1);
    }
  }

  /** The links that the k-th timer has no part in stay. */
  lemma FarLink(l: Links, n: nat, ring: seq<nat>, k: nat, i: nat)
    requires IsRing(l, n, ring) && k < |ring| && i <= |ring| && i != k && i != k + 1
    ensures Linked(Unsplice(l, n, ring[k]), n, ring, i)
  {
    assert Linked(l, n, ring, k) && Linked(l, n, ring, k + 1);
    assert Linked(l, n, ring, i);
    if i < k {
      NodesDistinct(ring, n, i, k);
      NodesDistinct(ring, n, i + 1, k + 2);
    } else {
      NodesDistinct(ring, n, k + 2, i + 1);
      NodesDistinct(ring, n, k, i);
    }
  }

  lemma NodesBack(ring: seq<nat>, n: nat, k: nat, i: nat)
    requires k < |ring| && i <= |ring|
    ensures var r := ring[..k] + ring[k + 1..];
            |r| == |ring| - 1 && NodeAt(r, n, i) == if i <= k then NodeAt(ring, n, i) else NodeAt(ring, n, i + 1)
  {
    Sequences.RemovedElements(ring, k);
  }

  // ----- the queue on its links -----

  datatype LinkedQueue = LinkedQueue(links: Links, at: seq<u32>, elapsed: u32, reset: bool)
  {
    predicate Valid() { links.Valid(|at|) }

    predicate Empty()
      requires Valid()
    {
      links.next[|at|] == |at|
    }
  }

  function NewLinked(count: nat): (t: LinkedQueue)
    ensures t.Valid() && |t.at| == count
  {
    LinkedQueue(Links(seq(count + 1, _ => count), seq(count + 1, _ => count)), seq(count, _ => 0), 0, false)
  }

  /** Backward from `it` to a timer that is not scheduled later, or to the sentinel; a
      ring has no more steps than timers. */
  function Search(l: Links, at: seq<u32>, time: u32, it: nat, steps: nat): (p: nat)
    requires l.Valid(|at|) && it <= |at|
    ensures p <= |at|
    decreases steps
  {
    if it == |at| || at[it] <= time || steps == 0 then it else Search(l, at, time, l.prev[it], steps - 1)
  }

  function LinkInserted(t: LinkedQueue, x: nat): (r: LinkedQueue)
    requires t.Valid() && x < |t.at|
    ensures r.Valid() && r.at == t.at
  {
    var n := |t.at|;
    if t.Empty() then t.(links := SpliceBefore(t.links, n, n, x))
    else t.(links := SpliceAfter(t.links, n, Search(t.links, t.at, t.at[x], t.links.prev[n], n), x))
  }

  function LinkRemoved(t: LinkedQueue, x: nat): (r: LinkedQueue)
    requires t.Valid() && x < |t.at|
    ensures r.Valid() && |r.at| == |t.at|
  {
    var t := t.(links := Unsplice(t.links, |t.at|, x), at := t.at[x := 0]);
    if t.Empty() then t.(elapsed := 0, reset := true) else t
  }

  function LinkCalled(t: LinkedQueue, c: Call): (r: LinkedQueue)
    requires t.Valid() && c.timer < |t.at|
    ensures r.Valid() && |r.at| == |t.at|
  {
    match c
    case Set(x, timeout) =>
      if timeout == 0 then t
      else
        var t := if t.at[x] != 0 then LinkRemoved(t, x) else t;
        LinkInserted(t.(at := t.at[x := Wrap(t.elapsed + timeout)]), x)
    case Kill(x) => if t.at[x] == 0 then t else LinkRemoved(t, x)
  }

  function LinkCallAll(t: LinkedQueue, calls: seq<Call>): (r: LinkedQueue)
    requires t.Valid() && CallsKnown(calls, |t.at|)
    ensures r.Valid() && |r.at| == |t.at|
    decreases |calls|
  {
    if calls == [] then t else LinkCallAll(LinkCalled(t, calls[0]), calls[1..])
  }

  predicate LinkFirstDue(t: LinkedQueue)
    requires t.Valid()
  {
    !t.Empty() && t.at[t.links.next[|t.at|]] <= t.elapsed
  }

  function LinkFirstRemoved(t: LinkedQueue): (r: LinkedQueue)
    requires t.Valid() && !t.Empty()
    ensures r.Valid() && |r.at| == |t.at|
  {
    var x := t.links.next[|t.at|];
    t.(links := Unsplice(t.links, |t.at|, x), at := t.at[x := 0])
  }

  /** As much of the loop over due timers as `steps` rounds make: it has ended if no
      timer is due then. */
  function LoopOn(t: LinkedQueue, callbacks: seq<seq<Call>>, steps: nat): (r: (LinkedQueue, seq<nat>))
    requires t.Valid() && AllKnown(callbacks, |t.at|)
    ensures r.0.Valid() && |r.0.at| == |t.at|
    decreases steps
  {
    if steps == 0 || !LinkFirstDue(t) then (t, [])
    else
      var (r, fired) := LoopOn(LinkCallAll(LinkFirstRemoved(t), First(callbacks)), Rest(callbacks), steps - 1);
      (r, [t.links.next[|t.at|]] + fired)
  }

  /** The timers met on the way backward. */
  function Behind(l: Links, n: nat, it: nat, steps: nat): seq<nat>
    requires l.Valid(n) && it <= n
    decreases steps
  {
    if it == n || steps == 0 then [] else Behind(l, n, l.prev[it], steps - 1) + [it]
  }

  function LinkMoved(t: LinkedQueue, time: u32): (r: LinkedQueue)
    requires t.Valid()
    ensures r.Valid() && |r.at| == |t.at|
  {
    LinkRebasedIfLate(t.(elapsed := Wrap(t.elapsed + time)))
  }

  function LinkRebasedIfLate(t: LinkedQueue): (r: LinkedQueue)
    requires t.Valid()
    ensures r.Valid() && |r.at| == |t.at|
  {
    if t.elapsed < REBASE_AT then t
    else
      var met := Behind(t.links, |t.at|, t.links.prev[|t.at|], |t.at|);
      t.(at := Counted(t.at, met, t.elapsed), elapsed := 0)
  }

  function LinkAdvanced(t: LinkedQueue, time: u32, callbacks: seq<seq<Call>>, steps: nat): (r: (LinkedQueue, seq<nat>))
    requires t.Valid() && AllKnown(callbacks, |t.at|)
    ensures r.0.Valid() && |r.0.at| == |t.at|
  {
    if t.Empty() || t.reset then (t, []) else LoopOn(LinkMoved(t, time), callbacks, steps)
  }

  // ----- the links are the list -----

  predicate Shows(t: LinkedQueue, q: Queue)
  {
    && q.Valid() && t.at == q.at && t.elapsed == q.elapsed && t.reset == q.reset && IsRing(t.links, |q.at|, q.ring)
  }

  lemma EmptyIff(t: LinkedQueue, q: Queue)
    requires Shows(t, q)
    ensures t.Empty() <==> q.ring == []
    ensures q.ring != [] ==> t.links.next[|t.at|] == q.ring[0]
    ensures t.links.prev[|t.at|] == NodeAt(q.ring, |q.at|, |q.ring|)
  {
    assert Linked(t.links, |q.at|, q.ring, 0) && Linked(t.links, |q.at|, q.ring, |q.ring|);
  }

  /** No more timers are in the list than there are. */
  lemma RingFits(ring: seq<nat>, n: nat)
    requires Known(ring, n) && forall i, j | 0 <= i < j < |ring| :: ring[i] != ring[j]
    ensures |ring| <= n
  {
    var all := seq(n, i => i);
    forall k | 0 <= k < |ring| ensures ring[k] in all {
      assert all[ring[k]] == ring[k];
    }
    DistinctFit(ring, all);
  }

  lemma {:induction false} SearchIs(l: Links, at: seq<u32>, ring: seq<nat>, time: u32, j: nat, k: nat, steps: nat)
    requires IsRing(l, |at|, ring) && k <= j <= |ring| && j <= steps
    requires forall i | k <= i < j :: at[ring[i]] > time
    requires k > 0 ==> at[ring[k - 1]] <= time
    ensures Search(l, at, time, NodeAt(ring, |at|, j), steps) == NodeAt(ring, |at|, k)
    decreases j
  {
    if j > k {
      assert Linked(l, |at|, ring, j - 1);
      SearchIs(l, at, ring, time, j - 1, k, steps - 1);
    }
  }

  /** A timer is linked where the list takes it in, be it in the list already or not. */
  lemma InsertPlace(t: LinkedQueue, q: Queue, x: nat) returns (k: nat)
    requires Shows(t, q) && x < |q.at|
    ensures k <= |q.ring| && Inserted(q.ring, q.at, x) == q.ring[..k] + [x] + q.ring[k..]
    ensures forall j | k <= j < |q.ring| :: q.at[q.ring[j]] > q.at[x]
    ensures k > 0 ==> q.at[q.ring[k - 1]] <= q.at[x]
    ensures LinkInserted(t, x) == t.(links := SpliceAfter(t.links, |q.at|, NodeAt(q.ring, |q.at|, k), x))
  {
    k := InsertedAt(q.ring, q.at, x);
    EmptyIff(t, q);
    RingFits(q.ring, |q.at|);
    SearchIs(t.links, q.at, q.ring, q.at[x], |q.ring|, k, |q.at|);
  }

  lemma InsertShows(t: LinkedQueue, q: Queue, x: nat)
    requires Shows(t, q) && x < |q.at| && x !in q.ring
    ensures Shows(LinkInserted(t, x), q.(ring := Inserted(q.ring, q.at, x)))
  {
    var k := InsertPlace(t, q, x);
    SpliceAfterRing(t.links, |q.at|, q.ring, k, x);
  }

  lemma RemoveShows(t: LinkedQueue, q: Queue, x: nat)
    requires Shows(t, q) && x in q.ring
    ensures x < |q.at| && Shows(LinkRemoved(t, x), TimerRemoved(q, x))
  {
    var k := RemovedAt(q.ring, x);
    UnspliceRing(t.links, |q.at|, q.ring, k, Removed(q.ring, x));
    var left := q.(ring := Removed(q.ring, x), at := q.at[x := 0]);
    EmptyIff(t.(links := Unsplice(t.links, |q.at|, x), at := q.at[x := 0]), left);
  }

  lemma ScheduleShows(t: LinkedQueue, q: Queue, x: nat, timeout: u32)
    requires Shows(t, q) && x < |q.at| && x !in q.ring
    ensures Shows(LinkInserted(t.(at := t.at[x := Wrap(t.elapsed + timeout)]), x), Scheduled(q, x, timeout))
  {
    var at := q.at[x := Wrap(q.elapsed + timeout)];
    InsertShows(t.(at := at), q.(at := at), x);
  }

  lemma KillShows(t: LinkedQueue, q: Queue, x: nat)
    requires Shows(t, q) && Mid(q) && x < |q.at|
    ensures Shows(LinkCalled(t, Kill(x)), Called(q, Kill(x)))
  {
    if q.at[x] != 0 {
      RemoveShows(t, q, x);
    }
  }

  lemma SetAnewShows(t: LinkedQueue, q: Queue, x: nat, timeout: u32)
    requires Shows(t, q) && Mid(q) && x < |q.at| && timeout > 0 && q.at[x] != 0
    ensures Shows(LinkCalled(t, Set(x, timeout)), Called(q, Set(x, timeout)))
  {
    var r, r' := LinkRemoved(t, x), TimerRemoved(q, x);
    RemoveShows(t, q, x);
    RemovedMid(q, x);
    SetAnewIs(t, q, x, timeout, r, r');
    ScheduleShows(r, r', x, timeout);
  }

  /** A timer set anew is removed first. */
  lemma SetAnewIs(t: LinkedQueue, q: Queue, x: nat, timeout: u32, r: LinkedQueue, r': Queue)
    requires t.Valid() && q.Valid() && x < |t.at| == |q.at| && timeout > 0 && t.at[x] != 0 && q.at[x] != 0
    requires r == LinkRemoved(t, x) && r' == TimerRemoved(q, x)
    ensures LinkCalled(t, Set(x, timeout)) == LinkInserted(r.(at := r.at[x := Wrap(r.elapsed + timeout)]), x)
    ensures Called(q, Set(x, timeout)) == Scheduled(r', x, timeout)
  {
  }

  lemma SetShows(t: LinkedQueue, q: Queue, x: nat, timeout: u32)
    requires Shows(t, q) && x < |q.at| && timeout > 0 && q.at[x] == 0 && x !in q.ring
    ensures Shows(LinkCalled(t, Set(x, timeout)), Called(q, Set(x, timeout)))
  {
    ScheduleShows(t, q, x, timeout);
  }

  /** While a call inserts nothing twice, the links stay the list. */
  lemma CallShows(t: LinkedQueue, q: Queue, c: Call)
    requires Shows(t, q) && Mid(q) && c.timer < |q.at| && !InsertsTwice(q, c)
    ensures Shows(LinkCalled(t, c), Called(q, c))
  {
    match c
    case Kill(x) => KillShows(t, q, x);
    case Set(x, timeout) =>
      if timeout > 0 && q.at[x] != 0 {
        SetAnewShows(t, q, x, timeout);
      } else if timeout > 0 {
        SetShows(t, q, x, timeout);
      }
  }

  // ----- a timer inserted twice -----

  /** Up to the timer inserted twice the links lead on as before. */
  lemma {:induction false} SameStart(l: Links, n: nat, ring: seq<nat>, m: nat, p: nat, ring': seq<nat>, i: nat)
    requires IsRing(l, n, ring) && m < |ring| && p <= n && i <= m + 1
    requires forall j | 0 <= j <= m :: p != NodeAt(ring, n, j)
    requires IsRing(SpliceAfter(l, n, p, ring[m]), n, ring')
    ensures i <= |ring'| && NodeAt(ring', n, i) == NodeAt(ring, n, i)
  {
    if i > 0 {
      SameStart(l, n, ring, m, p, ring', i - 1);
      assert Linked(l, n, ring, i - 1);
      assert Linked(SpliceAfter(l, n, p, ring[m]), n, ring', i - 1);
      NodesDistinct(ring, n, i - 1, m + 1);
    }
  }

  /** Linking a timer of the ring once more, behind its place, leaves no ring. */
  lemma TwiceIsNoRing(l: Links, n: nat, ring: seq<nat>, m: nat, k: nat, ring': seq<nat>)
    requires IsRing(l, n, ring) && m < k <= |ring|
    ensures !IsRing(SpliceAfter(l, n, NodeAt(ring, n, k), ring[m]), n, ring')
  {
    var p := NodeAt(ring, n, k);
    forall j | 0 <= j <= m ensures p != NodeAt(ring, n, j) {
      NodesDistinct(ring, n, j, k);
    }
    assert Linked(l, n, ring, k);
    NodesDistinct(ring, n, m + 1, k + 1);
    var l' := SpliceAfter(l, n, p, ring[m]);
    assert l'.prev[ring[m]] == p != NodeAt(ring, n, m);
    if IsRing(l', n, ring') {
      SameStart(l, n, ring, m, p, ring', m + 1);
      SameStart(l, n, ring, m, p, ring', m);
      PreviousIn(l', n, ring', m);
    }
  }

  lemma PreviousIn(l: Links, n: nat, ring: seq<nat>, i: nat)
    requires IsRing(l, n, ring) && i <= |ring|
    ensures l.prev[NodeAt(ring, n, i + 1)] == NodeAt(ring, n, i)
  {
    assert Linked(l, n, ring, i);
  }

  lemma TwiceBreaks(t: LinkedQueue, q: Queue, c: Call, ring: seq<nat>)
    requires Shows(t, q) && c.timer < |q.at| && InsertsTwice(q, c)
    ensures !IsRing(LinkCalled(t, c).links, |q.at|, ring)
  {
    var x := c.timer;
    var m :| 0 <= m < |q.ring| && q.ring[m] == x;
    var at := q.at[x := Wrap(q.elapsed + c.timeout)];
    var k := InsertPlace(t.(at := at), q.(at := at), x);
    assert at[q.ring[m]] == at[x];
    TwiceIsNoRing(t.links, |q.at|, q.ring, m, k, ring);
  }

  /** After a call the links are a ring if and only if it inserted nothing twice. */
  lemma CallKeepsRingIff(t: LinkedQueue, q: Queue, c: Call)
    requires Shows(t, q) && Mid(q) && c.timer < |q.at|
    ensures (exists ring :: IsRing(LinkCalled(t, c).links, |q.at|, ring)) <==> !InsertsTwice(q, c)
  {
    if InsertsTwice(q, c) {
      forall ring ensures !IsRing(LinkCalled(t, c).links, |q.at|, ring) {
        TwiceBreaks(t, q, c, ring);
      }
    } else {
      CallShows(t, q, c);
    }
  }

  // ----- whole runs on the links -----

  lemma {:induction false} CallAllShows(t: LinkedQueue, q: Queue, calls: seq<Call>)
    requires Shows(t, q) && Mid(q) && CallsKnown(calls, |q.at|) && CallsFit(q, calls)
    ensures Shows(LinkCallAll(t, calls), CallAll(q, calls))
    decreases |calls|
  {
    if calls != [] {
      CallShows(t, q, calls[0]);
      CallEffect(q, calls[0]);
      CallAllShows(LinkCalled(t, calls[0]), Called(q, calls[0]), calls[1..]);
    }
  }

  lemma FirstDueShows(t: LinkedQueue, q: Queue)
    requires Shows(t, q)
    ensures LinkFirstDue(t) <==> FirstDue(q)
    ensures FirstDue(q) ==> t.links.next[|t.at|] == q.ring[0]
  {
    EmptyIff(t, q);
  }

  lemma FirstShows(t: LinkedQueue, q: Queue)
    requires Shows(t, q) && q.ring != [] && !t.Empty() && t.links.next[|t.at|] == q.ring[0]
    ensures Shows(LinkFirstRemoved(t), FirstRemoved(q))
  {
    assert q.ring[1..] == q.ring[..0] + q.ring[1..];
    UnspliceRing(t.links, |q.at|, q.ring, 0, q.ring[1..]);
  }

  /** One round of the loop. */
  lemma RoundShows(t: LinkedQueue, q: Queue, calls: seq<Call>)
    requires Shows(t, q) && Mid(q) && FirstDue(q)
    requires CallsKnown(calls, |q.at|) && CallsFit(FirstRemoved(q), calls)
    ensures LinkFirstDue(t) && t.links.next[|t.at|] == q.ring[0]
    ensures var r := CallAll(FirstRemoved(q), calls); Shows(LinkCallAll(LinkFirstRemoved(t), calls), r) && Mid(r)
  {
    FirstDueShows(t, q);
    FirstShows(t, q);
    FirstRemovedMid(q);
    CallAllShows(LinkFirstRemoved(t), FirstRemoved(q), calls);
    CallAllEffect(FirstRemoved(q), calls);
  }

  /** The loop on the links fires the same, leaves the same, and has ended. */
  predicate LoopsAlike(t: LinkedQueue, q: Queue, callbacks: seq<seq<Call>>, steps: nat)
    requires t.Valid() && q.Valid() && |t.at| == |q.at| && AllKnown(callbacks, |q.at|)
  {
    var ((r, fired), (r', fired')) := (LoopOn(t, callbacks, steps), Fired(q, callbacks));
    fired == fired' && Shows(r, r') && !LinkFirstDue(r)
  }

  lemma LoopStep(t: LinkedQueue, q: Queue, callbacks: seq<seq<Call>>, steps: nat, p: LinkedQueue, p': Queue)
    requires t.Valid() && q.Valid() && |t.at| == |q.at| && AllKnown(callbacks, |q.at|) && steps > 0
    requires LinkFirstDue(t) && FirstDue(q) && t.links.next[|t.at|] == q.ring[0]
    requires p == LinkCallAll(LinkFirstRemoved(t), First(callbacks)) && p' == CallAll(FirstRemoved(q), First(callbacks))
    requires LoopsAlike(p, p', Rest(callbacks), steps - 1)
    ensures LoopsAlike(t, q, callbacks, steps)
  {
  }

  lemma FitsNext(q: Queue, callbacks: seq<seq<Call>>)
    requires q.Valid() && AllKnown(callbacks, |q.at|) && FirstDue(q) && CallbacksFit(q, callbacks)
    ensures CallsFit(FirstRemoved(q), First(callbacks))
    ensures var p := CallAll(FirstRemoved(q), First(callbacks));
            CallbacksFit(p, Rest(callbacks)) && |Fired(q, callbacks).1| == |Fired(p, Rest(callbacks)).1| + 1
  {
  }

  lemma LoopEnds(t: LinkedQueue, q: Queue, callbacks: seq<seq<Call>>, steps: nat)
    requires Shows(t, q) && AllKnown(callbacks, |q.at|) && !FirstDue(q)
    ensures LoopsAlike(t, q, callbacks, steps)
  {
    FirstDueShows(t, q);
  }

  /** What is known at every turn of the loop. */
  predicate AtTurn(t: LinkedQueue, q: Queue, callbacks: seq<seq<Call>>, steps: nat)
  {
    && Shows(t, q) && Mid(q) && AllKnown(callbacks, |q.at|) && CallbacksFit(q, callbacks)
    && |Fired(q, callbacks).1| <= steps
  }

  lemma NextTurn(t: LinkedQueue, q: Queue, callbacks: seq<seq<Call>>, steps: nat)
      returns (p: LinkedQueue, p': Queue)
    requires AtTurn(t, q, callbacks, steps) && FirstDue(q)
    ensures steps > 0 && LinkFirstDue(t) && t.links.next[|t.at|] == q.ring[0]
    ensures p == LinkCallAll(LinkFirstRemoved(t), First(callbacks)) && p' == CallAll(FirstRemoved(q), First(callbacks))
    ensures AtTurn(p, p', Rest(callbacks), steps - 1)
  {
    FitsNext(q, callbacks);
    RoundShows(t, q, First(callbacks));
    p, p' := LinkCallAll(LinkFirstRemoved(t), First(callbacks)), CallAll(FirstRemoved(q), First(callbacks));
  }

  lemma {:induction false} LoopShows(t: LinkedQueue, q: Queue, callbacks: seq<seq<Call>>, steps: nat)
    requires AtTurn(t, q, callbacks, steps)
    ensures LoopsAlike(t, q, callbacks, steps)
    decreases steps
  {
    if FirstDue(q) {
      var p, p' := NextTurn(t, q, callbacks, steps);
      LoopShows(p, p', Rest(callbacks), steps - 1);
      LoopStep(t, q, callbacks, steps, p, p');
    } else {
      LoopEnds(t, q, callbacks, steps);
    }
  }

  lemma {:induction false} BehindIs(l: Links, n: nat, ring: seq<nat>, j: nat, steps: nat)
    requires IsRing(l, n, ring) && j <= |ring| && j <= steps
    ensures Behind(l, n, NodeAt(ring, n, j), steps) == ring[..j]
    decreases j
  {
    if j > 0 {
      assert Linked(l, n, ring, j - 1);
      BehindIs(l, n, ring, j - 1, steps - 1);
      assert ring[..j] == ring[..j - 1] + [ring[j - 1]];
    }
  }

  lemma RebasedShows(t: LinkedQueue, q: Queue)
    requires Shows(t, q)
    ensures Shows(LinkRebasedIfLate(t), RebasedIfLate(q))
  {
    if t.elapsed >= REBASE_AT {
      RebaseMeets(t, q);
    }
  }

  /** The walk of the rebase meets the timers of the list, in order. */
  lemma RebaseMeets(t: LinkedQueue, q: Queue)
    requires Shows(t, q)
    ensures Behind(t.links, |t.at|, t.links.prev[|t.at|], |t.at|) == q.ring
  {
    EmptyIff(t, q);
    RingFits(q.ring, |q.at|);
    BehindIs(t.links, |q.at|, q.ring, |q.ring|, |q.at|);
    assert q.ring[..|q.ring|] == q.ring;
  }

  lemma MovedShows(t: LinkedQueue, q: Queue, time: u32)
    requires Shows(t, q)
    ensures Shows(LinkMoved(t, time), Moved(q, time))
  {
    var e := Wrap(t.elapsed + time);
    var t', q' := t.(elapsed := e), q.(elapsed := e);
    ElapsedShows(t, q, e);
    RebasedShows(t', q');
    LinkMovedIs(t, time, e, t');
    MovedWith(q, time, e, q');
  }

  lemma LinkMovedIs(t: LinkedQueue, time: u32, e: u32, t': LinkedQueue)
    requires t.Valid() && e == Wrap(t.elapsed + time) && t' == t.(elapsed := e)
    ensures LinkMoved(t, time) == LinkRebasedIfLate(t')
  {
    assert t.(elapsed := Wrap(t.elapsed + time)) == t';
  }

  lemma MovedWith(q: Queue, time: u32, e: u32, q': Queue)
    requires q.Valid() && e == Wrap(q.elapsed + time) && q' == q.(elapsed := e)
    ensures Moved(q, time) == RebasedIfLate(q')
  {
  }

  lemma ElapsedShows(t: LinkedQueue, q: Queue, e: u32)
    requires Shows(t, q)
    ensures Shows(t.(elapsed := e), q.(elapsed := e))
  {
  }

  /** An advance on the links fires what it fires on the list, and its loop ends. */
  lemma AdvanceShows(t: LinkedQueue, q: Queue, time: u32, callbacks: seq<seq<Call>>, steps: nat)
    requires Shows(t, q) && Good(q) && AllKnown(callbacks, |q.at|) && steps >= |q.ring|
    requires q.ring != [] && !q.reset ==> AdvanceFits(q, time, callbacks)
    ensures var (r, fired) := LinkAdvanced(t, time, callbacks, steps);
            fired == Advanced(q, time, callbacks).1 && Shows(r, Advanced(q, time, callbacks).0)
    ensures q.ring != [] && !q.reset ==> !LinkFirstDue(LinkAdvanced(t, time, callbacks, steps).0)
  {
    EmptyIff(t, q);
    if q.ring != [] && !q.reset {
      AdvanceGood(q, time, callbacks);
      AdvanceFitsIff(q, time, callbacks);
      MovedMid(q, time);
      MovedShows(t, q, time);
      LoopShows(LinkMoved(t, time), Moved(q, time), callbacks, steps);
    }
  }

  function LinkStep(t: LinkedQueue, op: Op): (r: LinkedQueue)
    requires t.Valid() && OpKnown(op, |t.at|)
    ensures r.Valid() && |r.at| == |t.at|
  {
    match op
    case Make(c) => LinkCalled(t, c)
    case Advance(time, callbacks) => LinkAdvanced(t, time, callbacks, |t.at|).0
    case GetTimeout => t.(reset := false)
  }

  lemma StepShows(t: LinkedQueue, q: Queue, op: Op)
    requires Shows(t, q) && Good(q) && OpKnown(op, |q.at|) && OpFits(q, op)
    ensures Shows(LinkStep(t, op), Step(q, op))
  {
    match op
    case Make(c) => CallShows(t, q, c);
    case Advance(time, callbacks) =>
      RingFits(q.ring, |q.at|);
      AdvanceShows(t, q, time, callbacks, |q.at|);
    case GetTimeout =>
  }

  predicate OpsKnown(ops: seq<Op>, n: nat) { forall k | 0 <= k < |ops| :: OpKnown(ops[k], n) }

  function LinkRun(t: LinkedQueue, ops: seq<Op>): (r: LinkedQueue)
    requires t.Valid() && OpsKnown(ops, |t.at|)
    ensures r.Valid() && |r.at| == |t.at|
    decreases |ops|
  {
    if ops == [] then t else LinkRun(LinkStep(t, ops[0]), ops[1..])
  }

  lemma {:induction false} RunShows(t: LinkedQueue, q: Queue, ops: seq<Op>)
    requires Shows(t, q) && Good(q) && RunFits(q, ops) && OpsKnown(ops, |q.at|)
    ensures Shows(LinkRun(t, ops), Run(q, ops))
    decreases |ops|
  {
    if ops != [] {
      StepShows(t, q, ops[0]);
      StepGood(q, ops[0]);
      RunShows(LinkStep(t, ops[0]), Step(q, ops[0]), ops[1..]);
    }
  }

  /** From creation on the links are the list, over any run that fits. */
  lemma LinksAreTheList(count: nat, ops: seq<Op>)
    requires RunFits(Created(count), ops) && OpsKnown(ops, count)
    ensures Shows(LinkRun(NewLinked(count), ops), Run(Created(count), ops))
  {
    CreatedGood(count);
    assert Shows(NewLinked(count), Created(count));
    RunShows(NewLinked(count), Created(count), ops);
  }

  // ----- an advance without end -----

  /** The first timer leads to itself. */
  predicate LeadsToItself(t: LinkedQueue, y: nat)
    requires t.Valid()
  {
    y < |t.at| && t.links.next[|t.at|] == y == t.links.next[y] == t.links.prev[y]
  }

  function Times(y: nat, k: nat): (s: seq<nat>)
    ensures |s| == k
  {
    if k == 0 then [] else [y] + Times(y, k - 1)
  }

  /** `y` was called in every turn, and is due still. */
  predicate GoesOn(r: (LinkedQueue, seq<nat>), y: nat, steps: nat)
    requires r.0.Valid()
  {
    r.1 == Times(y, steps) && LinkFirstDue(r.0)
  }

  /** Once such a timer is due, its callback is called as often as one waits, and it is
      due still, unless a callback sets it. */
  lemma {:induction false} NeverEnds(t: LinkedQueue, y: nat, steps: nat)
    requires t.Valid() && LeadsToItself(t, y) && t.at[y] <= t.elapsed
    ensures GoesOn(LoopOn(t, [], steps), y, steps)
    decreases steps
  {
    if steps > 0 {
      var p := LinkFirstRemoved(t);
      assert p.links == t.links;
      assert LinkCallAll(p, []) == p;
      NeverEnds(p, y, steps - 1);
    }
  }

  /** Two timers due at a rebase, the first of which sets the second to a time before
      that of any other: the second then leads to itself. */
  lemma SetLoops(t: LinkedQueue, q: Queue, time: u32, timeout: u32, steps: nat)
    requires Shows(t, q) && Good(q) && !q.reset && TimeFits(q, time) && q.elapsed + time >= REBASE_AT
    requires |q.ring| >= 2 && q.at[q.ring[0]] == q.at[q.ring[1]] == q.elapsed + time
    requires 0 < timeout <= TIMEOUT_MAX && steps > 0
    requires forall k | 2 <= k < |q.ring| :: q.at[q.ring[k]] - (q.elapsed + time) > timeout
    ensures var y := q.ring[1];
            var (r, fired) := LinkAdvanced(t, time, [[Set(y, timeout)]], steps);
            fired == [q.ring[0]] && LeadsToItself(r, y) && r.elapsed == 0 && r.at[y] == timeout && !r.reset
  {
    EmptyIff(t, q);
    MovedShows(t, q, time);
    MovedMid(q, time);
    MovedZeros(q, time);
    var p, p' := LinkMoved(t, time), Moved(q, time);
    SetLoopsMoved(p, p', timeout, steps);
  }

  lemma SetLoopsMoved(t: LinkedQueue, q: Queue, timeout: u32, steps: nat)
    requires Shows(t, q) && Mid(q) && q.elapsed == 0 && |q.ring| >= 2 && steps > 0
    requires q.at[q.ring[0]] == 0 == q.at[q.ring[1]] && 0 < timeout <= TIMEOUT_MAX
    requires forall k | 2 <= k < |q.ring| :: q.at[q.ring[k]] > timeout
    ensures var y := q.ring[1];
            var (r, fired) := LoopOn(t, [[Set(y, timeout)]], steps);
            fired == [q.ring[0]] && LeadsToItself(r, y) && r.elapsed == 0 && r.at[y] == timeout && r.reset == q.reset
  {
    var y := q.ring[1];
    FirstDueShows(t, q);
    FirstShows(t, q);
    FirstRemovedMid(q);
    var p, p' := LinkFirstRemoved(t), FirstRemoved(q);
    SetItself(p, p', timeout);
    var r := LinkCalled(p, Set(y, timeout));
    assert LinkCallAll(p, [Set(y, timeout)]) == r;
    assert LoopOn(r, [], steps - 1) == (r, []);
  }

  /** Linking the first timer behind itself. */
  lemma SpliceItself(l: Links, n: nat, ring: seq<nat>)
    requires IsRing(l, n, ring) && ring != []
    ensures var y, r := ring[0], SpliceAfter(l, n, ring[0], ring[0]);
            r.next[n] == y == r.next[y] == r.prev[y]
  {
    assert Linked(l, n, ring, 0) && Linked(l, n, ring, 1);
    NodesDistinct(ring, n, 1, 2);
  }

  lemma SetItself(t: LinkedQueue, q: Queue, timeout: u32)
    requires Shows(t, q) && Mid(q) && q.elapsed == 0 && q.ring != []
    requires q.at[q.ring[0]] == 0 && 0 < timeout <= TIMEOUT_MAX
    requires forall k | 1 <= k < |q.ring| :: q.at[q.ring[k]] > timeout
    ensures var y := q.ring[0];
            var r := LinkCalled(t, Set(y, timeout));
            && LeadsToItself(r, y) && r.elapsed == 0 && r.at[y] == timeout && r.reset == q.reset
            && !LinkFirstDue(r)
  {
    var y := q.ring[0];
    WrapExact(timeout);
    PlaceOfItself(t.(at := q.at[y := timeout]), q.(at := q.at[y := timeout]));
    SpliceItself(t.links, |q.at|, q.ring);
  }

  /** Before all others a timer in the list is linked behind itself. */
  lemma PlaceOfItself(t: LinkedQueue, q: Queue)
    requires Shows(t, q) && q.ring != [] && forall k | 1 <= k < |q.ring| :: q.at[q.ring[k]] > q.at[q.ring[0]]
    ensures LinkInserted(t, q.ring[0]) == t.(links := SpliceAfter(t.links, |q.at|, q.ring[0], q.ring[0]))
  {
    var k := InsertPlace(t, q, q.ring[0]);
    assert k == 1;
  }

  /** The next advance that finds it due calls its callback without end. */
  lemma AdvanceNeverEnds(t: LinkedQueue, q: Queue, time: u32, timeout: u32, later: u32, steps: nat)
    requires Shows(t, q) && Good(q) && !q.reset && TimeFits(q, time) && q.elapsed + time >= REBASE_AT
    requires |q.ring| >= 2 && q.at[q.ring[0]] == q.at[q.ring[1]] == q.elapsed + time
    requires 0 < timeout <= later < REBASE_AT
    requires forall k | 2 <= k < |q.ring| :: q.at[q.ring[k]] - (q.elapsed + time) > timeout
    ensures var y := q.ring[1];
            var (r, fired) := LinkAdvanced(t, time, [[Set(y, timeout)]], |q.at|);
            && fired == [q.ring[0]] && !r.reset
            && GoesOn(LinkAdvanced(r, later, [], steps), y, steps)
  {
    RingFits(q.ring, |q.at|);
    SetLoops(t, q, time, timeout, |q.at|);
    var r := LinkAdvanced(t, time, [[Set(q.ring[1], timeout)]], |q.at|).0;
    LaterNeverEnds(r, q.ring[1], later, steps);
  }

  lemma LaterNeverEnds(t: LinkedQueue, y: nat, time: u32, steps: nat)
    requires t.Valid() && LeadsToItself(t, y) && !t.reset && t.elapsed == 0 && t.at[y] <= time < REBASE_AT
    ensures GoesOn(LinkAdvanced(t, time, [], steps), y, steps)
  {
    LaterLoops(t, y, time, steps);
    NeverEnds(t.(elapsed := time), y, steps);
  }

  lemma LaterLoops(t: LinkedQueue, y: nat, time: u32, steps: nat)
    requires t.Valid() && LeadsToItself(t, y) && !t.reset && t.elapsed == 0 && time < REBASE_AT
    ensures LinkAdvanced(t, time, [], steps) == LoopOn(t.(elapsed := time), [], steps)
  {
    WrapExact(time);
  }
}
