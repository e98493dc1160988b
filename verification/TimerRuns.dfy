/** Runs of the timer queue: between calls the list is sorted and nothing is due, and
    an advance fires what is due, once, in order, whatever the callbacks do. */
module TimerRuns {
  import opened Machine
  import opened Options
  import opened TimerQueue
  import opened TimerFiring

  // ----- what a caller can check -----

  /** The first timers of a list whose time is not later than `now`. */
  function DueIn(ring: seq<nat>, at: seq<u32>, now: int): (due: seq<nat>)
    requires Known(ring, |at|)
    ensures due <= ring
  {
    if ring == [] || at[ring[0]] > now then [] else [ring[0]] + DueIn(ring[1..], at, now)
  }

  /** The timers that an advance finds due. */
  function DueBy(q: Queue, time: u32): seq<nat>
    requires q.Valid()
  {
    DueIn(q.ring, q.at, q.elapsed + time)
  }

  /** Timeouts do not overflow the time, no timer is overdue at a rebase, and there the
      callback of a due timer sets no timer due at the same moment that comes after it. */
  predicate AdvanceFits(q: Queue, time: u32, callbacks: seq<seq<Call>>)
    requires q.Valid()
  {
    && TimeFits(q, time) && AllShort(callbacks)
    && (q.elapsed + time >= REBASE_AT ==> NoneAhead(DueBy(q, time), callbacks))
  }

  lemma {:induction false} DueInZeros(ring: seq<nat>, at: seq<u32>, now: int, at': seq<u32>)
    requires Known(ring, |at|) && |at'| == |at|
    requires forall k | 0 <= k < |ring| :: at'[ring[k]] == at[ring[k]] - now
    requires forall i, j | 0 <= i < j < |ring| :: at[ring[i]] <= at[ring[j]]
    ensures ZerosFirst(ring, at', DueIn(ring, at, now))
  {
    if ring != [] && at[ring[0]] <= now {
      var rest := ring[1..];
      forall k | 0 <= k < |rest| ensures at'[rest[k]] == at[rest[k]] - now {
        assert rest[k] == ring[k + 1];
      }
      forall i, j | 0 <= i < j < |rest| ensures at[rest[i]] <= at[rest[j]] {
        assert rest[i] == ring[i + 1] && rest[j] == ring[j + 1];
      }
      DueInZeros(rest, at, now, at');
      ZerosCons(ring, at', DueIn(rest, at, now));
    } else if ring != [] {
      forall k | 0 <= k < |ring| ensures at'[ring[k]] != 0 {
        assert k > 0 ==> at[ring[0]] <= at[ring[k]];
      }
    }
  }

  lemma ZerosCons(ring: seq<nat>, at: seq<u32>, zeros: seq<nat>)
    requires Known(ring, |at|) && ring != [] && at[ring[0]] == 0 && ZerosFirst(ring[1..], at, zeros)
    ensures ZerosFirst(ring, at, [ring[0]] + zeros)
  {
    assert forall k | 1 <= k < |ring| :: ring[k] == ring[1..][k - 1];
    assert ring[1..][..|zeros|] == zeros;
  }

  lemma AscendingTimes(q: Queue)
    requires Mid(q)
    ensures forall i, j | 0 <= i < j < |q.ring| :: q.at[q.ring[i]] <= q.at[q.ring[j]]
  {
    forall i, j | 0 <= i < j < |q.ring| ensures q.at[q.ring[i]] <= q.at[q.ring[j]] {
      assert Before(q.at, q.stamp, q.ring[i], q.ring[j]);
    }
  }

  /** The timers with time zero once the time has moved. */
  function ZerosBy(q: Queue, time: u32): seq<nat>
    requires q.Valid()
  {
    if q.elapsed + time >= REBASE_AT then DueBy(q, time) else []
  }

  /** After a rebase that finds no timer overdue, those with time zero are the ones due. */
  lemma MovedZeros(q: Queue, time: u32)
    requires Good(q) && TimeFits(q, time)
    ensures var r := Moved(q, time);
            HasZeros(r, ZerosBy(q, time)) && (q.elapsed + time >= REBASE_AT ==> r.elapsed == 0)
  {
    var p := q.(elapsed := q.elapsed + time);
    MovedIs(q, time, p);
    ZerosByIs(q, time, p);
    LateZeros(q, p, ZerosBy(q, time));
  }

  lemma ZerosByIs(q: Queue, time: u32, p: Queue)
    requires q.Valid() && p == q.(elapsed := p.elapsed) && p.elapsed == q.elapsed + time
    ensures ZerosBy(q, time) == if p.elapsed >= REBASE_AT then DueIn(q.ring, q.at, p.elapsed) else []
  {
  }

  lemma LateZeros(q: Queue, p: Queue, zeros: seq<nat>)
    requires Good(q) && p.Valid() && p == q.(elapsed := p.elapsed)
    requires zeros == if p.elapsed >= REBASE_AT then DueIn(q.ring, q.at, p.elapsed) else []
    requires p.elapsed >= REBASE_AT ==> forall k | 0 <= k < |q.ring| :: p.elapsed <= q.at[q.ring[k]]
    ensures var r := RebasedIfLate(p);
            && HasZeros(r, zeros)
            && (p.elapsed >= REBASE_AT ==> r.elapsed == 0)
  {
    if p.elapsed >= REBASE_AT {
      RebaseZeros(q, p);
    } else {
      NoZeros(p, q);
    }
  }

  lemma RebaseZeros(q: Queue, p: Queue)
    requires Good(q) && p == q.(elapsed := p.elapsed)
    requires forall k | 0 <= k < |q.ring| :: p.elapsed <= q.at[q.ring[k]]
    ensures HasZeros(Rebased(p), DueIn(q.ring, q.at, p.elapsed))
  {
    RebasedMid(p);
    AscendingTimes(q);
    DueInZeros(q.ring, q.at, p.elapsed, Rebased(p).at);
  }

  lemma NoZeros(p: Queue, q: Queue)
    requires Good(q) && p == q.(elapsed := p.elapsed)
    ensures p.Valid() && HasZeros(p, [])
  {
  }

  /** What a caller can check says exactly that all calls made on the way fit; and at a
      rebase exactly the timers due at that moment fire, whatever is killed. */
  lemma AdvanceFitsIff(q: Queue, time: u32, callbacks: seq<seq<Call>>)
    requires Good(q) && AllKnown(callbacks, |q.at|) && TimeFits(q, time) && AllShort(callbacks)
    ensures AdvanceFits(q, time, callbacks) <==> CallbacksFit(Moved(q, time), callbacks)
    ensures AdvanceFits(q, time, callbacks) && q.elapsed + time >= REBASE_AT ==>
              Fired(Moved(q, time), callbacks).1 == DueBy(q, time)
  {
    MovedMid(q, time);
    MovedZeros(q, time);
    CallbacksFitIff(Moved(q, time), ZerosBy(q, time), callbacks);
  }

  // ----- whole runs -----

  datatype Op = Make(call: Call) | Advance(time: u32, callbacks: seq<seq<Call>>) | GetTimeout

  predicate OpKnown(op: Op, n: nat)
  {
    match op
    case Make(c) => c.timer < n
    case Advance(_, callbacks) => AllKnown(callbacks, n)
    case GetTimeout => true
  }

  function Step(q: Queue, op: Op): (r: Queue)
    requires q.Valid() && OpKnown(op, |q.at|)
    ensures r.Valid() && |r.at| == |q.at|
  {
    match op
    case Make(c) => Called(q, c)
    case Advance(time, callbacks) => Advanced(q, time, callbacks).0
    case GetTimeout => TimeoutGot(q).0
  }

  predicate OpFits(q: Queue, op: Op)
    requires q.Valid() && OpKnown(op, |q.at|)
  {
    match op
    case Make(c) => c.Set? ==> c.timeout <= TIMEOUT_MAX
    case Advance(time, callbacks) => q.ring == [] || q.reset || AdvanceFits(q, time, callbacks)
    case GetTimeout => true
  }

  function Run(q: Queue, ops: seq<Op>): (r: Queue)
    requires q.Valid() && RunFits(q, ops)
    ensures r.Valid()
    decreases |ops|
  {
    if ops == [] then q else Run(Step(q, ops[0]), ops[1..])
  }

  predicate RunFits(q: Queue, ops: seq<Op>)
    requires q.Valid()
    decreases |ops|
  {
    ops == [] || (OpKnown(ops[0], |q.at|) && OpFits(q, ops[0]) && RunFits(Step(q, ops[0]), ops[1..]))
  }

  lemma CallGood(q: Queue, c: Call)
    requires Good(q) && c.timer < |q.at| && CallFits(q, c)
    ensures Good(Called(q, c))
  {
    CallEffect(q, c);
    var r := Called(q, c);
    forall k | 0 <= k < |r.ring| ensures r.elapsed < r.at[r.ring[k]] {
      assert !Due(r, r.ring[k]);
    }
  }

  lemma {:induction false} DistinctFit(a: seq<nat>, b: seq<nat>)
    requires forall i, j | 0 <= i < j < |a| :: a[i] != a[j]
    requires forall k | 0 <= k < |a| :: a[k] in b
    ensures |a| <= |b|
    decreases |a|
  {
    if a != [] {
      assert a[0] in b;
      var m :| 0 <= m < |b| && b[m] == a[0];
      var left := b[..m] + b[m + 1..];
      forall k | 0 <= k < |a[1..]| ensures a[1..][k] in left {
        assert a[k + 1] in b && a[k + 1] != b[m];
        var j :| 0 <= j < |b| && b[j] == a[k + 1];
        assert left[if j < m then j else j - 1] == b[j];
      }
      DistinctFit(a[1..], left);
    }
  }

  lemma FiredBound(q: Queue, fired: seq<nat>)
    requires q.Valid() && InOrder(q, fired)
    ensures |fired| <= |q.ring|
  {
    forall i, j | 0 <= i < j < |fired| ensures fired[i] != fired[j] {
      assert Before(q.at, q.stamp, fired[i], fired[j]);
    }
    forall k | 0 <= k < |fired| ensures fired[k] in q.ring {
      assert Due(q, fired[k]);
    }
    DistinctFit(fired, q.ring);
  }

  /** An advance fires what has become due, in order, unless a callback that ran before
      touched it, and ends after as many callbacks as there were timers, even if each sets
      its timer again. At a rebase it fires all that is due, touched or not. */
  lemma AdvanceGood(q: Queue, time: u32, callbacks: seq<seq<Call>>)
    requires Good(q) && AllKnown(callbacks, |q.at|) && q.ring != [] && !q.reset
    requires AdvanceFits(q, time, callbacks)
    ensures var (r, fired) := Advanced(q, time, callbacks);
            && Good(r) && Known(fired, |q.at|) && |fired| <= |q.ring|
            && (forall k | 0 <= k < |fired| :: fired[k] in q.ring && q.at[fired[k]] <= q.elapsed + time)
            && (forall i, j | 0 <= i < j < |fired| :: Before(q.at, q.stamp, fired[i], fired[j]))
            && (forall k | 0 <= k < |q.ring| && q.at[q.ring[k]] <= q.elapsed + time ::
                  q.ring[k] in fired || q.ring[k] in AllTouched(Upto(callbacks, |fired|)))
            && (q.elapsed + time >= REBASE_AT ==> fired == DueBy(q, time))
  {
    var p := Moved(q, time);
    MovedMid(q, time);
    AdvanceFitsIff(q, time, callbacks);
    FiredGood(p, callbacks);
    var fired := Fired(p, callbacks).1;
    FiredBound(p, fired);
    forall x | x in q.ring ensures x < |q.at| && p.at[x] - p.elapsed == q.at[x] - q.elapsed - time {
    }
    forall k | 0 <= k < |fired| ensures fired[k] in q.ring && q.at[fired[k]] <= q.elapsed + time {
      assert Due(p, fired[k]);
    }
    forall i, j | 0 <= i < j < |fired| ensures Before(q.at, q.stamp, fired[i], fired[j]) {
      assert Before(p.at, p.stamp, fired[i], fired[j]);
    }
    forall k | 0 <= k < |q.ring| && q.at[q.ring[k]] <= q.elapsed + time
      ensures q.ring[k] in fired || q.ring[k] in AllTouched(Upto(callbacks, |fired|))
    {
      assert Due(p, q.ring[k]);
    }
  }

  /** Callbacks past those that are called do not matter. */
  lemma {:induction false} FiredExtended(q: Queue, callbacks: seq<seq<Call>>, more: seq<seq<Call>>)
    requires q.Valid() && AllKnown(callbacks, |q.at|) && AllKnown(more, |q.at|)
    requires |Fired(q, callbacks).1| <= |callbacks|
    ensures AllKnown(callbacks + more, |q.at|) && Fired(q, callbacks + more) == Fired(q, callbacks)
    decreases |callbacks|
  {
    if FirstDue(q) {
      assert (callbacks + more)[0] == callbacks[0] && (callbacks + more)[1..] == callbacks[1..] + more;
      FiredExtended(CallAll(FirstRemoved(q), callbacks[0]), callbacks[1..], more);
    }
  }

  /** As many callbacks as there are timers are all that an advance can call: what
      would be called after them changes nothing, so the supply never runs out. */
  lemma CallbacksSuffice(q: Queue, time: u32, callbacks: seq<seq<Call>>, more: seq<seq<Call>>)
    requires Good(q) && AllKnown(callbacks, |q.at|) && AllKnown(more, |q.at|) && |callbacks| >= |q.ring|
    requires AdvanceFits(q, time, callbacks)
    ensures AllKnown(callbacks + more, |q.at|) && Advanced(q, time, callbacks + more) == Advanced(q, time, callbacks)
  {
    if q.ring != [] && !q.reset {
      AdvanceGood(q, time, callbacks);
      FiredExtended(Moved(q, time), callbacks, more);
    }
  }

  lemma StepGood(q: Queue, op: Op)
    requires Good(q) && OpKnown(op, |q.at|) && OpFits(q, op)
    ensures Good(Step(q, op))
  {
    match op
    case Make(c) => CallGood(q, c); // a timer in the list lies in the future, so its time is not zero
    case Advance(time, callbacks) =>
      if q.ring != [] && !q.reset {
        AdvanceGood(q, time, callbacks);
      }
    case GetTimeout =>
  }

  lemma {:induction false} RunKeeps(q: Queue, ops: seq<Op>)
    requires Good(q) && RunFits(q, ops)
    ensures Good(Run(q, ops)) && TimeoutExact(Run(q, ops))
    decreases |ops|
  {
    if ops == [] {
      if q.ring != [] {
        WrapExact(q.at[q.ring[0]] - q.elapsed);
      }
    } else {
      StepGood(q, ops[0]);
      RunKeeps(Step(q, ops[0]), ops[1..]);
    }
  }

  /** From creation on, between calls the list is sorted, every timer lies in the future
      and the time base is small, so that the timeout reported never underflows. */
  lemma RunGood(count: nat, ops: seq<Op>)
    requires RunFits(Created(count), ops)
    ensures var q := Run(Created(count), ops); Good(q) && TimeoutExact(q)
  {
    CreatedGood(count);
    RunKeeps(Created(count), ops);
  }

  predicate TimeoutExact(q: Queue)
    requires q.Valid()
  {
    match TimeoutGot(q).1
    case None => q.ring == []
    case Some(timeout) => q.ring != [] && timeout == q.at[q.ring[0]] - q.elapsed
  }
}
