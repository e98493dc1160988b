/** How the list of timers is kept sorted while due timers fire and their callbacks
    set and kill others. */
module TimerFiring {
  import opened Machine
  import opened TimerQueue
  import Sequences

  // ----- order -----

  /** Scheduled earlier, or at the same time and set earlier. */
  predicate Before(at: seq<u32>, stamp: seq<nat>, x: nat, y: nat)
    requires x < |at| == |stamp| && y < |at|
  {
    at[x] < at[y] || (at[x] == at[y] && stamp[x] < stamp[y])
  }

  predicate Sorted(ring: seq<nat>, at: seq<u32>, stamp: seq<nat>)
    requires Known(ring, |at|) && |stamp| == |at|
  {
    forall i, j | 0 <= i < j < |ring| :: Before(at, stamp, ring[i], ring[j])
  }

  /** A timer set last goes behind those scheduled at the same time. */
  lemma {:induction false} InsertedSorted(ring: seq<nat>, at: seq<u32>, stamp: seq<nat>, x: nat)
    requires Known(ring, |at|) && |stamp| == |at| && x < |at| && Sorted(ring, at, stamp)
    requires forall k | 0 <= k < |ring| :: stamp[ring[k]] < stamp[x]
    ensures Sorted(Inserted(ring, at, x), at, stamp)
    ensures forall y :: y in Inserted(ring, at, x) <==> y in ring || y == x
  {
    if ring != [] {
      var n := |ring| - 1;
      var last := ring[n];
      assert ring == ring[..n] + [last];
      if at[last] <= at[x] {
        forall i | 0 <= i < |ring| ensures Before(at, stamp, ring[i], x) {
          assert i < n ==> Before(at, stamp, ring[i], last);
        }
      } else {
        InsertedSorted(ring[..n], at, stamp, x);
        var front := Inserted(ring[..n], at, x);
        forall i | 0 <= i < |front| ensures Before(at, stamp, front[i], last) {
          assert front[i] in ring[..n] || front[i] == x;
        }
      }
    }
  }

  lemma {:induction false} RemovedSorted(ring: seq<nat>, at: seq<u32>, stamp: seq<nat>, x: nat)
    requires Known(ring, |at|) && |stamp| == |at| && Sorted(ring, at, stamp)
    ensures Known(Removed(ring, x), |at|) && Sorted(Removed(ring, x), at, stamp)
    ensures forall y :: y in Removed(ring, x) <==> y in ring && y != x
  {
    if ring != [] {
      assert ring == [ring[0]] + ring[1..];
      if ring[0] == x {
        forall k | 0 < k < |ring| ensures ring[k] != ring[0] {
          assert Before(at, stamp, ring[0], ring[k]);
        }
      } else {
        RemovedSorted(ring[1..], at, stamp, x);
        var rest := Removed(ring[1..], x);
        forall i | 0 <= i < |rest| ensures Before(at, stamp, ring[0], rest[i]) {
          assert rest[i] in ring[1..];
        }
      }
    }
  }

  /** Only the times of the timers in the list matter. */
  lemma SortedSame(ring: seq<nat>, at: seq<u32>, stamp: seq<nat>, at': seq<u32>, stamp': seq<nat>)
    requires Known(ring, |at|) && |at'| == |at| == |stamp| == |stamp'| && Sorted(ring, at, stamp)
    requires forall k | 0 <= k < |ring| :: at'[ring[k]] == at[ring[k]] && stamp'[ring[k]] == stamp[ring[k]]
    ensures Sorted(ring, at', stamp')
  {
    forall i, j | 0 <= i < j < |ring| ensures Before(at', stamp', ring[i], ring[j]) {
      assert Before(at, stamp, ring[i], ring[j]);
    }
  }

  /** Where a timer is inserted, and where one is removed. */
  lemma {:induction false} InsertedAt(ring: seq<nat>, at: seq<u32>, x: nat) returns (k: nat)
    requires Known(ring, |at|) && x < |at|
    ensures k <= |ring| && Inserted(ring, at, x) == ring[..k] + [x] + ring[k..]
    ensures forall j | k <= j < |ring| :: at[ring[j]] > at[x]
    ensures k > 0 ==> at[ring[k - 1]] <= at[x]
    decreases |ring|
  {
    var n := |ring| - 1;
    if ring == [] || at[ring[n]] <= at[x] {
      k := |ring|;
    } else {
      k := InsertedAt(ring[..n], at, x);
      assert ring[..n][k..] + [ring[n]] == ring[k..] && ring[..n][..k] == ring[..k];
    }
  }

  lemma {:induction false} RemovedAt(ring: seq<nat>, x: nat) returns (k: nat)
    requires x in ring
    ensures k < |ring| && ring[k] == x && Removed(ring, x) == ring[..k] + ring[k + 1..]
    ensures x !in ring[..k]
    decreases |ring|
  {
    if ring[0] == x {
      k := 0;
    } else {
      k := RemovedAt(ring[1..], x);
      Sequences.WithoutLater(ring, k);
      k := k + 1;
    }
  }

  // ----- invariants -----

  /** While timers are being processed. */
  predicate Mid(q: Queue)
  {
    && q.Valid() && Sorted(q.ring, q.at, q.stamp) && q.elapsed < REBASE_AT
    && (forall x | 0 <= x < |q.at| && q.at[x] != 0 :: x in q.ring)
    && (forall x | 0 <= x < |q.at| :: q.stamp[x] < q.next)
  }

  /** Between calls nothing is due. */
  predicate Good(q: Queue) { Mid(q) && forall k | 0 <= k < |q.ring| :: q.elapsed < q.at[q.ring[k]] }

  predicate Due(q: Queue, x: nat)
    requires q.Valid() && x < |q.at|
  {
    x in q.ring && q.at[x] <= q.elapsed
  }

  lemma CreatedGood(count: nat)
    ensures Good(Created(count))
  {
  }

  /** The call sets a timer that is in the list with time zero, so that it is not taken
      out before it is inserted. */
  predicate InsertsTwice(q: Queue, c: Call)
    requires q.Valid() && c.timer < |q.at|
  {
    c.Set? && c.timeout > 0 && c.timer in q.ring && q.at[c.timer] == 0
  }

  /** Nothing is inserted twice, and the time does not overflow. */
  predicate CallFits(q: Queue, c: Call)
    requires q.Valid() && c.timer < |q.at|
  {
    !InsertsTwice(q, c) && (c.Set? ==> q.elapsed + c.timeout < 0x1_0000_0000)
  }

  lemma RemovedMid(q: Queue, x: nat)
    requires Mid(q) && x < |q.at| && q.at[x] != 0
    ensures var r := TimerRemoved(q, x);
            Mid(r) && (forall y :: y in r.ring <==> y in q.ring && y != x) && (r.elapsed == q.elapsed || r.ring == [])
  {
    RemovedSorted(q.ring, q.at, q.stamp, x);
    SortedSame(Removed(q.ring, x), q.at, q.stamp, q.at[x := 0], q.stamp);
  }

  lemma ScheduledMid(q: Queue, x: nat, timeout: u32)
    requires Mid(q) && x < |q.at| && x !in q.ring
    ensures var r := Scheduled(q, x, timeout);
            Mid(r) && forall y :: y in r.ring <==> y in q.ring || y == x
  {
    var at, stamp := q.at[x := Wrap(q.elapsed + timeout)], q.stamp[x := q.next];
    SortedSame(q.ring, q.at, q.stamp, at, stamp);
    InsertedSorted(q.ring, at, stamp, x);
    var r := Scheduled(q, x, timeout);
    assert r.at == at && r.stamp == stamp && r.ring == Inserted(q.ring, at, x);
    forall y | 0 <= y < |at| && at[y] != 0 ensures y in r.ring {
      assert y != x ==> q.at[y] != 0;
    }
  }

  lemma {:induction false} InsertedTwice(ring: seq<nat>, at: seq<u32>, x: nat) returns (i: nat, j: nat)
    requires Known(ring, |at|) && x < |at| && x in ring
    ensures i < j < |Inserted(ring, at, x)| && Inserted(ring, at, x)[i] == x == Inserted(ring, at, x)[j]
  {
    var n := |ring| - 1;
    if at[ring[n]] <= at[x] {
      i :| 0 <= i <= n && ring[i] == x;
      j := n + 1;
    } else {
      assert ring == ring[..n] + [ring[n]];
      i, j := InsertedTwice(ring[..n], at, x);
    }
  }

  /** A call keeps the list in order if and only if it inserts nothing twice. */
  lemma CallKeepsMidIff(q: Queue, c: Call)
    requires Mid(q) && c.timer < |q.at|
    ensures Mid(Called(q, c)) <==> !InsertsTwice(q, c)
  {
    var x := c.timer;
    if InsertsTwice(q, c) {
      var r := Called(q, c);
      var i, j := InsertedTwice(q.ring, r.at, x);
      assert r.ring[i] == x == r.ring[j];
    } else {
      if q.at[x] != 0 {
        RemovedMid(q, x);
      }
      if c.Set? && c.timeout > 0 {
        ScheduledMid(if q.at[x] != 0 then TimerRemoved(q, x) else q, x, c.timeout);
      }
    }
  }

  /** A timer is scheduled later than now if and only if the time does not overflow. */
  lemma SetIsLaterIff(q: Queue, x: nat, timeout: u32)
    requires q.Valid() && x < |q.at| && timeout > 0
    ensures Scheduled(q, x, timeout).at[x] > q.elapsed <==> q.elapsed + timeout < 0x1_0000_0000
  {
    WrapSum(q.elapsed, timeout);
  }

  lemma WrapSum(a: u32, b: u32)
    ensures Wrap(a + b) == a + b - if a + b < 0x1_0000_0000 then 0 else 0x1_0000_0000
  {
  }

  // ----- callbacks -----

  /** What calls may do to the due timers: none becomes due, none changes its place,
      and those that are not touched stay. */
  ghost predicate Effect(q: Queue, r: Queue, touched: set<nat>)
    requires q.Valid()
  {
    && Mid(r) && |r.at| == |q.at|
    && (forall y | 0 <= y < |q.at| && Due(r, y) :: Due(q, y) && r.at[y] == q.at[y] && r.stamp[y] == q.stamp[y])
    && (forall y | 0 <= y < |q.at| && Due(q, y) :: y in touched || Due(r, y))
  }

  lemma RemovedEffect(q: Queue, x: nat)
    requires Mid(q) && x < |q.at| && q.at[x] != 0
    ensures Effect(q, TimerRemoved(q, x), {x}) && x !in TimerRemoved(q, x).ring
  {
    RemovedMid(q, x);
  }

  lemma CallEffect(q: Queue, c: Call)
    requires Mid(q) && c.timer < |q.at| && CallFits(q, c)
    ensures Effect(q, Called(q, c), {c.timer})
  {
    var x := c.timer;
    if q.at[x] != 0 {
      RemovedEffect(q, x);
    }
    if c.Set? && c.timeout != 0 {
      var p := if q.at[x] != 0 then TimerRemoved(q, x) else q;
      ScheduledEffect(p, x, c.timeout);
      EffectTwice(q, p, Scheduled(p, x, c.timeout), {x}, {x});
      assert {x} + {x} == {x};
    }
  }

  lemma ScheduledEffect(q: Queue, x: nat, timeout: u32)
    requires Mid(q) && x < |q.at| && x !in q.ring && timeout > 0 && q.elapsed + timeout < 0x1_0000_0000
    ensures Effect(q, Scheduled(q, x, timeout), {x})
  {
    ScheduledMid(q, x, timeout);
    WrapSum(q.elapsed, timeout);
  }

  lemma EffectTwice(q: Queue, p: Queue, r: Queue, first: set<nat>, second: set<nat>)
    requires q.Valid() && Effect(q, p, first) && Effect(p, r, second)
    ensures Effect(q, r, first + second)
  {
  }

  function Touched(calls: seq<Call>): set<nat> { if calls == [] then {} else {calls[0].timer} + Touched(calls[1..]) }

  predicate CallsFit(q: Queue, calls: seq<Call>)
    requires q.Valid() && CallsKnown(calls, |q.at|)
    decreases |calls|
  {
    calls == [] || (CallFits(q, calls[0]) && CallsFit(Called(q, calls[0]), calls[1..]))
  }

  lemma {:induction false} CallAllEffect(q: Queue, calls: seq<Call>)
    requires Mid(q) && CallsKnown(calls, |q.at|) && CallsFit(q, calls)
    ensures Effect(q, CallAll(q, calls), Touched(calls))
    decreases |calls|
  {
    if calls != [] {
      var p := Called(q, calls[0]);
      CallEffect(q, calls[0]);
      CallAllEffect(p, calls[1..]);
      EffectTwice(q, p, CallAll(q, calls), {calls[0].timer}, Touched(calls[1..]));
    }
  }

  lemma FirstRemovedMid(q: Queue)
    requires Mid(q) && FirstDue(q)
    ensures var r := FirstRemoved(q);
            && Mid(r) && (forall y | 0 <= y < |q.at| :: Due(r, y) <==> Due(q, y) && y != q.ring[0])
            && (forall y | 0 <= y < |q.at| && Due(r, y) :: r.at[y] == q.at[y] && Before(q.at, q.stamp, q.ring[0], y))
  {
    var x := q.ring[0];
    assert q.ring == [x] + q.ring[1..];
    forall k | 0 < k < |q.ring| ensures q.ring[k] != x && Before(q.at, q.stamp, x, q.ring[k]) {
      assert Before(q.at, q.stamp, x, q.ring[k]);
    }
    forall i, j | 0 <= i < j < |q.ring| - 1 ensures Before(q.at, q.stamp, q.ring[1..][i], q.ring[1..][j]) {
      assert Before(q.at, q.stamp, q.ring[i + 1], q.ring[j + 1]);
    }
    SortedSame(q.ring[1..], q.at, q.stamp, q.at[x := 0], q.stamp);
  }

  // ----- firing -----

  predicate CallbacksFit(q: Queue, callbacks: seq<seq<Call>>)
    requires q.Valid() && AllKnown(callbacks, |q.at|)
    decreases |callbacks|, |q.ring|
  {
    FirstDue(q) ==>
      && CallsFit(FirstRemoved(q), First(callbacks))
      && CallbacksFit(CallAll(FirstRemoved(q), First(callbacks)), Rest(callbacks))
  }

  function AllTouched(callbacks: seq<seq<Call>>): set<nat>
  {
    if callbacks == [] then {} else Touched(callbacks[0]) + AllTouched(callbacks[1..])
  }

  /** The callbacks that `n` timers call. */
  function Upto(callbacks: seq<seq<Call>>, n: nat): seq<seq<Call>>
  {
    if n <= |callbacks| then callbacks[..n] else callbacks
  }

  lemma UptoNext(callbacks: seq<seq<Call>>, n: nat)
    ensures AllTouched(Upto(callbacks, n + 1)) == Touched(First(callbacks)) + AllTouched(Upto(Rest(callbacks), n))
  {
    if callbacks != [] {
      assert Upto(callbacks, n + 1)[1..] == Upto(callbacks[1..], n);
    }
  }

  /** The timers fired were due from the start, and come in their order, each once. */
  predicate InOrder(q: Queue, fired: seq<nat>)
    requires q.Valid()
  {
    && Known(fired, |q.at|) && |q.stamp| == |q.at|
    && (forall k | 0 <= k < |fired| :: Due(q, fired[k]))
    && forall i, j | 0 <= i < j < |fired| :: Before(q.at, q.stamp, fired[i], fired[j])
  }

  /** A due timer is fired unless a callback set or killed it. */
  predicate Complete(q: Queue, fired: seq<nat>, touched: set<nat>)
    requires q.Valid()
  {
    forall y | 0 <= y < |q.at| && Due(q, y) :: y in fired || y in touched
  }

  lemma NothingDue(q: Queue)
    requires Mid(q) && !FirstDue(q)
    ensures Good(q) && forall y | 0 <= y < |q.at| :: !Due(q, y)
  {
    forall k | 0 <= k < |q.ring| ensures q.elapsed < q.at[q.ring[k]] {
      if k > 0 {
        assert Before(q.at, q.stamp, q.ring[0], q.ring[k]);
      }
    }
  }

  /** What fires after the first timer was due from the start, and comes behind it. */
  lemma FiredBehind(q: Queue, r: Queue, touched: set<nat>, fired: seq<nat>)
    requires Mid(q) && FirstDue(q) && Effect(FirstRemoved(q), r, touched) && InOrder(r, fired)
    ensures InOrder(q, fired) && forall k | 0 <= k < |fired| :: Before(q.at, q.stamp, q.ring[0], fired[k])
  {
    FirstRemovedMid(q);
    var p := FirstRemoved(q);
    forall k | 0 <= k < |fired|
      ensures Due(p, fired[k]) && Due(q, fired[k]) && Before(q.at, q.stamp, q.ring[0], fired[k])
    {
      assert Due(r, fired[k]);
    }
    forall i, j | 0 <= i < j < |fired| ensures Before(q.at, q.stamp, fired[i], fired[j]) {
      assert Before(r.at, r.stamp, fired[i], fired[j]);
    }
  }

  lemma FirstInOrder(q: Queue, fired: seq<nat>)
    requires Mid(q) && FirstDue(q) && InOrder(q, fired)
    requires forall k | 0 <= k < |fired| :: Before(q.at, q.stamp, q.ring[0], fired[k])
    ensures InOrder(q, [q.ring[0]] + fired)
  {
    assert Due(q, q.ring[0]);
  }

  lemma FiredComplete(q: Queue, r: Queue, touched: set<nat>, fired: seq<nat>, later: set<nat>)
    requires Mid(q) && FirstDue(q) && Effect(FirstRemoved(q), r, touched) && Complete(r, fired, later)
    ensures Complete(q, [q.ring[0]] + fired, touched + later)
  {
    FirstRemovedMid(q);
    forall y | 0 <= y < |q.at| && Due(q, y) ensures y in [q.ring[0]] + fired || y in touched + later {
      assert y == q.ring[0] || Due(FirstRemoved(q), y);
    }
  }

  lemma FiredNext(q: Queue, r: Queue, touched: set<nat>, fired: seq<nat>, later: set<nat>)
    requires Mid(q) && FirstDue(q) && Effect(FirstRemoved(q), r, touched)
    requires InOrder(r, fired) && Complete(r, fired, later)
    ensures InOrder(q, [q.ring[0]] + fired) && Complete(q, [q.ring[0]] + fired, touched + later)
  {
    FiredBehind(q, r, touched, fired);
    FirstInOrder(q, fired);
    FiredComplete(q, r, touched, fired, later);
  }

  /** What fires is in order, and what was due and is not touched fires. */
  predicate FiresWell(q: Queue, callbacks: seq<seq<Call>>)
    requires q.Valid() && AllKnown(callbacks, |q.at|)
  {
    var (r, fired) := Fired(q, callbacks);
    Good(r) && InOrder(q, fired) && Complete(q, fired, AllTouched(Upto(callbacks, |fired|)))
  }

  lemma FiredStep(q: Queue, callbacks: seq<seq<Call>>, r: Queue)
    requires Mid(q) && AllKnown(callbacks, |q.at|) && FirstDue(q) && r == CallAll(FirstRemoved(q), First(callbacks))
    requires Mid(r) && FiresWell(r, Rest(callbacks))
    requires Effect(FirstRemoved(q), r, Touched(First(callbacks)))
    ensures FiresWell(q, callbacks)
  {
    var later := Fired(r, Rest(callbacks)).1;
    FiredNext(q, r, Touched(First(callbacks)), later, AllTouched(Upto(Rest(callbacks), |later|)));
    UptoNext(callbacks, |later|);
  }

  lemma {:induction false} FiredGood(q: Queue, callbacks: seq<seq<Call>>)
    requires Mid(q) && AllKnown(callbacks, |q.at|) && CallbacksFit(q, callbacks)
    ensures FiresWell(q, callbacks)
    decreases |callbacks|, |q.ring|
  {
    if FirstDue(q) {
      FirstRemovedMid(q);
      var p := FirstRemoved(q);
      CallAllEffect(p, First(callbacks));
      var r := CallAll(p, First(callbacks));
      FiredGood(r, Rest(callbacks));
      FiredStep(q, callbacks, r);
    } else {
      NothingDue(q);
    }
  }

  // ----- timers with time zero -----

  /** The timers of the list with time zero are `zeros`, and come first. */
  predicate HasZeros(q: Queue, zeros: seq<nat>)
    requires q.Valid()
  {
    ZerosFirst(q.ring, q.at, zeros)
  }

  predicate ZerosFirst(ring: seq<nat>, at: seq<u32>, zeros: seq<nat>)
    requires Known(ring, |at|)
  {
    && zeros <= ring && (forall k | 0 <= k < |zeros| :: at[ring[k]] == 0)
    && (forall k | |zeros| <= k < |ring| :: at[ring[k]] != 0)
  }

  predicate Sets(c: Call) { c.Set? && c.timeout > 0 }

  /** No timer of `zeros` is set. */
  predicate SetsNone(calls: seq<Call>, zeros: seq<nat>)
  {
    forall k | 0 <= k < |calls| && Sets(calls[k]) :: calls[k].timer !in zeros
  }

  /** A timeout that does not overflow, whatever the time base is. */
  const TIMEOUT_MAX := 0xFFFF_0000

  predicate CallsShort(calls: seq<Call>)
  {
    forall k | 0 <= k < |calls| && calls[k].Set? :: calls[k].timeout <= TIMEOUT_MAX
  }

  predicate AllShort(callbacks: seq<seq<Call>>) { forall k | 0 <= k < |callbacks| :: CallsShort(callbacks[k]) }

  lemma FitsIff(q: Queue, zeros: seq<nat>, c: Call)
    requires Mid(q) && HasZeros(q, zeros) && c.timer < |q.at| && (c.Set? ==> c.timeout <= TIMEOUT_MAX)
    ensures CallFits(q, c) <==> !(Sets(c) && c.timer in zeros)
  {
  }

  lemma RemovedZeros(q: Queue, zeros: seq<nat>, x: nat)
    requires Mid(q) && HasZeros(q, zeros) && x < |q.at| && q.at[x] != 0
    ensures HasZeros(TimerRemoved(q, x), zeros)
  {
    RemovedMid(q, x);
    forall j | 0 <= j < |Removed(q.ring, x)| ensures Removed(q.ring, x)[j] != x {
      assert Removed(q.ring, x)[j] in TimerRemoved(q, x).ring;
    }
    LeftZeros(q.ring, q.at, x, zeros);
  }

  lemma LeftZeros(ring: seq<nat>, at: seq<u32>, x: nat, zeros: seq<nat>)
    requires Known(ring, |at|) && ZerosFirst(ring, at, zeros) && x in ring && at[x] != 0
    requires forall j | 0 <= j < |Removed(ring, x)| :: Removed(ring, x)[j] != x
    ensures Known(Removed(ring, x), |at|) && ZerosFirst(Removed(ring, x), at[x := 0], zeros)
  {
    var k := RemovedAt(ring, x);
    ZerosStay(ring, at, Removed(ring, x), at[x := 0], zeros, k);
  }

  /** Zeros stay first when the list changes behind them. */
  lemma ZerosStay(ring: seq<nat>, at: seq<u32>, ring': seq<nat>, at': seq<u32>, zeros: seq<nat>, k: nat)
    requires Known(ring, |at|) && Known(ring', |at'|) && ZerosFirst(ring, at, zeros)
    requires |zeros| <= k <= |ring| && k <= |ring'| && ring'[..k] == ring[..k]
    requires forall j | 0 <= j < k :: at'[ring[j]] == at[ring[j]]
    requires forall j | k <= j < |ring'| :: at'[ring'[j]] != 0
    ensures ZerosFirst(ring', at', zeros)
  {
    assert forall j | 0 <= j < k :: ring'[j] == ring'[..k][j] == ring[j];
    assert zeros == ring[..k][..|zeros|];
  }

  lemma InsertedZeros(ring: seq<nat>, at: seq<u32>, x: nat, time: u32, zeros: seq<nat>)
    requires Known(ring, |at|) && ZerosFirst(ring, at, zeros) && x < |at| && x !in ring && time > 0
    ensures ZerosFirst(Inserted(ring, at[x := time], x), at[x := time], zeros)
  {
    var at' := at[x := time];
    var k := InsertedAt(ring, at', x);
    forall j | 0 <= j < |ring| ensures at'[ring[j]] == at[ring[j]] {
      assert ring[j] in ring;
    }
    assert zeros != [] ==> at'[ring[|zeros| - 1]] == 0;
    var ring' := Inserted(ring, at', x);
    forall j | k <= j < |ring'| ensures at'[ring'[j]] != 0 {
      assert ring'[j] == if j == k then x else ring[j - 1];
    }
    ZerosStay(ring, at, ring', at', zeros, k);
  }

  lemma ScheduledZeros(q: Queue, zeros: seq<nat>, x: nat, timeout: u32)
    requires Mid(q) && HasZeros(q, zeros) && x < |q.at| && x !in q.ring && 0 < timeout <= TIMEOUT_MAX
    ensures HasZeros(Scheduled(q, x, timeout), zeros)
  {
    WrapSum(q.elapsed, timeout);
    InsertedZeros(q.ring, q.at, x, Wrap(q.elapsed + timeout), zeros);
  }

  lemma CalledZeros(q: Queue, zeros: seq<nat>, c: Call)
    requires Mid(q) && HasZeros(q, zeros) && c.timer < |q.at| && CallFits(q, c)
    requires c.Set? ==> c.timeout <= TIMEOUT_MAX
    ensures HasZeros(Called(q, c), zeros) && Called(q, c).elapsed in {q.elapsed, 0}
  {
    var x := c.timer;
    if q.at[x] != 0 {
      RemovedZeros(q, zeros, x);
      RemovedMid(q, x);
    }
    if Sets(c) {
      ScheduledZeros(if q.at[x] != 0 then TimerRemoved(q, x) else q, zeros, x, c.timeout);
    }
  }

  lemma {:induction false} CallsFitIff(q: Queue, zeros: seq<nat>, calls: seq<Call>)
    requires Mid(q) && HasZeros(q, zeros) && CallsKnown(calls, |q.at|) && CallsShort(calls)
    ensures CallsFit(q, calls) <==> SetsNone(calls, zeros)
    ensures var r := CallAll(q, calls); CallsFit(q, calls) ==> HasZeros(r, zeros) && r.elapsed in {q.elapsed, 0}
    decreases |calls|
  {
    if calls != [] {
      FitsIff(q, zeros, calls[0]);
      if CallFits(q, calls[0]) {
        CalledZeros(q, zeros, calls[0]);
        CallEffect(q, calls[0]);
        CallsFitIff(Called(q, calls[0]), zeros, calls[1..]);
        assert forall k | 1 <= k < |calls| :: calls[k] == calls[1..][k - 1];
      }
    }
  }

  /** The callback of each timer of `zeros` sets none of those that come after it. */
  predicate NoneAhead(zeros: seq<nat>, callbacks: seq<seq<Call>>)
    decreases |zeros|
  {
    zeros == [] || (SetsNone(First(callbacks), zeros[1..]) && NoneAhead(zeros[1..], Rest(callbacks)))
  }

  lemma FirstZero(q: Queue, zeros: seq<nat>)
    requires Mid(q) && HasZeros(q, zeros) && FirstDue(q) && (zeros == [] ==> q.elapsed > 0)
    ensures HasZeros(FirstRemoved(q), if zeros == [] then [] else zeros[1..])
  {
    FirstRemovedMid(q);
    var r := FirstRemoved(q);
    forall k | 0 <= k < |r.ring| ensures r.ring[k] != q.ring[0] {
      assert Before(q.at, q.stamp, q.ring[0], q.ring[k + 1]);
    }
  }

  lemma FirstIsZero(q: Queue, zeros: seq<nat>)
    requires Mid(q) && HasZeros(q, zeros) && FirstDue(q)
    ensures q.elapsed == 0 ==> zeros != [] && zeros[0] == q.ring[0]
  {
  }

  /** That all calls fit says no more than this of the timers with time zero. */
  lemma {:induction false} CallbacksFitIff(q: Queue, zeros: seq<nat>, callbacks: seq<seq<Call>>)
    requires Mid(q) && HasZeros(q, zeros) && AllKnown(callbacks, |q.at|) && AllShort(callbacks)
    requires zeros == [] || q.elapsed == 0
    ensures CallbacksFit(q, callbacks) <==> NoneAhead(zeros, callbacks)
    ensures q.elapsed == 0 && NoneAhead(zeros, callbacks) ==> Fired(q, callbacks).1 == zeros
    decreases |callbacks|, |q.ring|
  {
    if FirstDue(q) {
      FirstRemovedMid(q);
      FirstIsZero(q, zeros);
      FirstZero(q, zeros);
      var p, left := FirstRemoved(q), if zeros == [] then [] else zeros[1..];
      CallsFitIff(p, left, First(callbacks));
      if CallsFit(p, First(callbacks)) {
        CallAllEffect(p, First(callbacks));
        CallbacksFitIff(CallAll(p, First(callbacks)), left, Rest(callbacks));
      }
    }
  }

  // ----- the time base -----

  /** The time does not overflow, and at a rebase no timer is overdue. */
  predicate TimeFits(q: Queue, time: u32)
    requires q.Valid()
  {
    && q.elapsed + time < 0x1_0000_0000
    && (q.elapsed + time >= REBASE_AT ==> forall k | 0 <= k < |q.ring| :: q.elapsed + time <= q.at[q.ring[k]])
  }

  /** A rebase keeps what remains of a timer if and only if it is not overdue. */
  lemma RebaseKeepsIff(q: Queue, x: nat)
    requires q.Valid() && x < |q.at| && x in q.ring
    ensures Rebased(q).at[x] - Rebased(q).elapsed == q.at[x] - q.elapsed <==> q.at[x] >= q.elapsed
  {
    if q.at[x] >= q.elapsed {
      WrapExact(q.at[x] - q.elapsed);
    }
  }

  lemma RebasedTimes(q: Queue)
    requires q.Valid() && forall k | 0 <= k < |q.ring| :: q.elapsed <= q.at[q.ring[k]]
    ensures forall k | 0 <= k < |q.ring| :: Rebased(q).at[q.ring[k]] == q.at[q.ring[k]] - q.elapsed
    ensures forall x | 0 <= x < |q.at| && x !in q.ring :: Rebased(q).at[x] == q.at[x]
  {
    forall k | 0 <= k < |q.ring| ensures Rebased(q).at[q.ring[k]] == q.at[q.ring[k]] - q.elapsed {
      WrapExact(q.at[q.ring[k]] - q.elapsed);
    }
  }

  lemma EarlierSorted(ring: seq<nat>, at: seq<u32>, stamp: seq<nat>, at': seq<u32>, past: int)
    requires Known(ring, |at|) && |stamp| == |at| == |at'| && Sorted(ring, at, stamp)
    requires forall k | 0 <= k < |ring| :: at'[ring[k]] == at[ring[k]] - past
    ensures Sorted(ring, at', stamp)
  {
    forall i, j | 0 <= i < j < |ring| ensures Before(at', stamp, ring[i], ring[j]) {
      assert Before(at, stamp, ring[i], ring[j]);
    }
  }

  lemma RebasedMid(q: Queue)
    requires q.Valid() && Sorted(q.ring, q.at, q.stamp)
    requires forall x | 0 <= x < |q.at| && q.at[x] != 0 :: x in q.ring
    requires forall x | 0 <= x < |q.at| :: q.stamp[x] < q.next
    requires forall k | 0 <= k < |q.ring| :: q.elapsed <= q.at[q.ring[k]]
    ensures Mid(Rebased(q)) && forall k | 0 <= k < |q.ring| :: Rebased(q).at[q.ring[k]] == q.at[q.ring[k]] - q.elapsed
  {
    RebasedTimes(q);
    EarlierSorted(q.ring, q.at, q.stamp, Rebased(q).at, q.elapsed);
  }

  lemma RebasedIfLateMid(q: Queue)
    requires q.Valid() && Sorted(q.ring, q.at, q.stamp)
    requires forall x | 0 <= x < |q.at| && q.at[x] != 0 :: x in q.ring
    requires forall x | 0 <= x < |q.at| :: q.stamp[x] < q.next
    requires q.elapsed >= REBASE_AT ==> forall k | 0 <= k < |q.ring| :: q.elapsed <= q.at[q.ring[k]]
    ensures var r := RebasedIfLate(q);
            Mid(r) && r.ring == q.ring && r.stamp == q.stamp
            && forall k | 0 <= k < |q.ring| :: r.at[q.ring[k]] - r.elapsed == q.at[q.ring[k]] - q.elapsed
  {
    if q.elapsed >= REBASE_AT {
      RebasedMid(q);
    }
  }

  /** Moving the time keeps the order, and of every timer the time that remains. */
  lemma MovedMid(q: Queue, time: u32)
    requires Mid(q) && TimeFits(q, time)
    ensures var r := Moved(q, time);
            Mid(r) && r.ring == q.ring && r.stamp == q.stamp && |r.at| == |q.at|
            && forall k | 0 <= k < |q.ring| :: r.at[q.ring[k]] - r.elapsed == q.at[q.ring[k]] - q.elapsed - time
  {
    var p := q.(elapsed := q.elapsed + time);
    MovedIs(q, time, p);
    RebasedIfLateMid(p);
  }

  lemma MovedIs(q: Queue, time: u32, p: Queue)
    requires q.Valid() && q.elapsed + time < 0x1_0000_0000 && p == q.(elapsed := q.elapsed + time)
    ensures p.Valid() && Moved(q, time) == RebasedIfLate(p)
  {
    WrapExact(q.elapsed + time);
    assert q.(elapsed := Wrap(q.elapsed + time)) == p;
  }
}
