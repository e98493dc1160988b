/** When timers fire, told by the numbers: an advance with callbacks that do nothing, from
    the time base on which it is rebased, and a timer's way from being set to firing. */
module TimerTimes {
  import opened Machine
  import opened TimerQueue
  import opened TimerFiring
  import opened TimerRuns
  import TimerRebase

  // ----- one advance -----

  /** The timers fired are the first of the list, those due by `now`; the others stay, with
      the time that remains to them counted from `base` on. */
  predicate FiresDue(q: Queue, r: Queue, fired: seq<nat>, now: int, base: int)
  {
    && q.Valid() && |r.at| == |q.at| && |fired| <= |q.ring|
    && fired == q.ring[..|fired|] && r.ring == q.ring[|fired|..]
    && (forall k | 0 <= k < |q.ring| :: q.at[q.ring[k]] <= now <==> k < |fired|)
    && (forall x | 0 <= x < |q.at| :: r.at[x] == if x in fired || x !in q.ring then 0 else q.at[x] - base)
  }

  /** `fired` has left the beginning of the list, and nothing else has changed. */
  predicate Leaves(q: Queue, r: Queue, fired: seq<nat>)
  {
    && |r.at| == |q.at| && r.elapsed == q.elapsed && r.reset == q.reset && |fired| <= |q.ring|
    && fired == q.ring[..|fired|] && r.ring == q.ring[|fired|..]
    && (forall x | 0 <= x < |q.at| :: r.at[x] == if x in fired then 0 else q.at[x])
  }

  lemma {:induction false} IdleFired(q: Queue)
    requires Mid(q)
    ensures var (r, fired) := Fired(q, []); Leaves(q, r, fired)
    decreases |q.ring|
  {
    if FirstDue(q) {
      FirstRemovedMid(q);
      IdleFired(FirstRemoved(q));
      IdleRound(q);
      var (r, fired) := Fired(FirstRemoved(q), []);
      LeavesFirst(q, r, fired);
    } else {
      NoneLeaves(q);
    }
  }

  lemma IdleRound(q: Queue)
    requires q.Valid() && FirstDue(q)
    ensures var (r, fired) := Fired(FirstRemoved(q), []); Fired(q, []) == (r, [q.ring[0]] + fired)
  {
    assert CallAll(FirstRemoved(q), []) == FirstRemoved(q);
  }

  lemma NoneLeaves(q: Queue)
    requires q.Valid() && !FirstDue(q)
    ensures var (r, fired) := Fired(q, []); Leaves(q, r, fired)
  {
  }

  lemma LeavesFirst(q: Queue, r: Queue, fired: seq<nat>)
    requires q.Valid() && q.ring != [] && Leaves(FirstRemoved(q), r, fired)
    ensures Leaves(q, r, [q.ring[0]] + fired)
  {
    FirstBack(q.ring, fired);
  }

  lemma FirstBack(ring: seq<nat>, fired: seq<nat>)
    requires ring != [] && fired <= ring[1..]
    ensures [ring[0]] + fired == ring[..|fired| + 1] && ring[1..][|fired|..] == ring[|fired| + 1..]
  {
  }

  /** What is due by a time is a beginning of the list and no more. */
  lemma DueCut(q: Queue, now: int)
    requires Mid(q)
    ensures var m := |DueIn(q.ring, q.at, now)|;
            forall k | 0 <= k < |q.ring| :: q.at[q.ring[k]] <= now <==> k < m
  {
    TimerRebase.DueTimes(q.ring, q.at, now);
    AscendingTimes(q);
  }

  /** `p` is the queue once the time has moved. */
  lemma FiresDueIs(q: Queue, p: Queue, r: Queue, fired: seq<nat>, now: int, base: int)
    requires Good(q) && |p.at| == |q.at| && p.ring == q.ring && Leaves(p, r, fired)
    requires forall x | 0 <= x < |q.at| :: p.at[x] == if x in q.ring then q.at[x] - base else 0
    requires fired == DueIn(q.ring, q.at, now)
    ensures FiresDue(q, r, fired, now, base)
  {
    DueCut(q, now);
  }

  /** The time has moved to `now`, and is counted from `base` on. */
  predicate MovedTo(q: Queue, p: Queue, now: int, base: int)
  {
    && q.Valid() && Mid(p) && p.ring == q.ring && |p.at| == |q.at| && p.reset == q.reset
    && (forall x | 0 <= x < |q.at| :: p.at[x] == if x in q.ring then q.at[x] - base else 0)
    && DueIn(p.ring, p.at, p.elapsed) == DueIn(q.ring, q.at, now)
  }

  /** An advance without calls fires what is due by `now` and leaves the time `elapsed`. */
  predicate AdvancesTo(q: Queue, time: u32, now: int, elapsed: int, base: int)
    requires q.Valid()
  {
    var (r, fired) := Advanced(q, time, []);
    r.elapsed == elapsed && !r.reset && FiresDue(q, r, fired, now, base)
  }

  lemma AdvanceIs(q: Queue, time: u32, p: Queue, now: int, base: int)
    requires Good(q) && q.ring != [] && !q.reset && p == Moved(q, time) && MovedTo(q, p, now, base)
    ensures AdvancesTo(q, time, now, p.elapsed, base)
  {
    IdleFired(p);
    TimerRebase.IdleFires(p);
    var (r, fired) := Fired(p, []);
    FiresDueIs(q, p, r, fired, now, base);
  }

  /** Below 0xFFFF the time only moves on. */
  lemma AdvanceBelow(q: Queue, time: u32)
    requires Good(q) && q.ring != [] && !q.reset && q.elapsed + time < 0xFFFF
    ensures AdvancesTo(q, time, q.elapsed + time, q.elapsed + time, 0)
  {
    TimerRebase.MovedBelow(q, time);
    BelowAdvance(q, time, q.(elapsed := q.elapsed + time), q.elapsed + time);
  }

  lemma BelowAdvance(q: Queue, time: u32, p: Queue, now: u32)
    requires Good(q) && q.ring != [] && !q.reset && p == q.(elapsed := now) == Moved(q, time) && Mid(p)
    ensures AdvancesTo(q, time, now, now, 0)
  {
    AdvanceIs(q, time, p, now, 0);
  }

  /** From 0xFFFF on the time begins anew at zero, and each timer keeps what remains to it. */
  lemma AdvanceRebased(q: Queue, time: u32)
    requires Good(q) && q.ring != [] && !q.reset && 0xFFFF <= q.elapsed + time < 0x1_0000_0000
    requires forall k | 0 <= k < |q.ring| :: q.elapsed + time <= q.at[q.ring[k]]
    ensures AdvancesTo(q, time, q.elapsed + time, 0, q.elapsed + time)
  {
    var p := q.(elapsed := q.elapsed + time);
    MovedIs(q, time, p);
    RebasedAdvance(q, time, p, Rebased(p), p.elapsed);
  }

  lemma RebasedAdvance(q: Queue, time: u32, p: Queue, m: Queue, now: u32)
    requires Good(q) && q.ring != [] && !q.reset && p == q.(elapsed := now) && m == Rebased(p) == Moved(q, time)
    requires forall k | 0 <= k < |q.ring| :: now <= q.at[q.ring[k]]
    ensures AdvancesTo(q, time, now, 0, now)
  {
    RebasedTo(q, p, m);
    AdvanceIs(q, time, m, now, now);
  }

  lemma RebasedTo(q: Queue, p: Queue, m: Queue)
    requires Good(q) && p == q.(elapsed := p.elapsed) && m == Rebased(p)
    requires forall k | 0 <= k < |q.ring| :: p.elapsed <= q.at[q.ring[k]]
    ensures m.elapsed == 0 && MovedTo(q, m, p.elapsed, p.elapsed)
  {
    RebasedMid(p);
    RebasedTimes(p);
    TimesLeft(q.ring, q.at, p.elapsed, m.at);
    DueShifted(q.ring, q.at, p.elapsed, m.at);
  }

  lemma TimesLeft(ring: seq<nat>, at: seq<u32>, now: int, at': seq<u32>)
    requires Known(ring, |at|) && |at'| == |at|
    requires forall k | 0 <= k < |ring| :: at'[ring[k]] == at[ring[k]] - now
    ensures forall x | 0 <= x < |at| && x in ring :: at'[x] == at[x] - now
  {
  }

  lemma {:induction false} DueShifted(ring: seq<nat>, at: seq<u32>, now: int, at': seq<u32>)
    requires Known(ring, |at|) && |at'| == |at|
    requires forall x | 0 <= x < |at| && x in ring :: at'[x] == at[x] - now
    ensures DueIn(ring, at', 0) == DueIn(ring, at, now)
  {
    if ring != [] {
      assert ring[0] in ring;
      DueShifted(ring[1..], at, now, at');
    }
  }

  // ----- the answers -----

  /** Setting fails for no time at all, and killing for a timer that is not set; a failure
      changes nothing. */
  lemma AnswersTell(q: Queue, x: nat, timeout: u32)
    requires q.Valid() && x < |q.at|
    ensures var (r, ok) := TimerSet(q, x, timeout); ok == (timeout > 0) && (!ok ==> r == q)
    ensures var (r, ok) := TimerKilled(q, x); ok == (q.at[x] != 0) && (!ok ==> r == q)
  {
  }

  /** A killed timer is neither set nor in the list, and the others stay as they were. */
  lemma KilledIsOut(q: Queue, x: nat)
    requires Mid(q) && x < |q.at| && q.at[x] != 0
    ensures var r := TimerKilled(q, x).0;
            && r.at == q.at[x := 0] && (forall y :: y in r.ring <==> y in q.ring && y != x)
            && (if r.ring == [] then r.elapsed == 0 && r.reset else r.elapsed == q.elapsed && r.reset == q.reset)
  {
    RemovedMid(q, x);
  }

  // ----- from being set to firing -----

  /** What remains until a timer of the list is due. */
  function Left(q: Queue, x: nat): int
    requires q.Valid() && x < |q.at|
  {
    q.at[x] - q.elapsed
  }

  /** A timer fires in the advance that takes up what remains of its time, and in no other. */
  lemma FiresWhenDue(q: Queue, x: nat, time: u32)
    requires Good(q) && !q.reset && TimeFits(q, time) && x in q.ring && x < |q.at|
    ensures var (r, fired) := Advanced(q, time, []);
            && (x in fired <==> Left(q, x) <= time)
            && (x !in fired ==> x in r.ring && Left(r, x) == Left(q, x) - time)
            && (x in fired ==> x !in r.ring)
  {
    if q.elapsed + time < 0xFFFF {
      AdvanceBelow(q, time);
      DueFires(q, x, time, q.elapsed + time, 0);
    } else {
      AdvanceRebased(q, time);
      DueFires(q, x, time, 0, q.elapsed + time);
    }
  }

  lemma DueFires(q: Queue, x: nat, time: u32, elapsed: int, base: int)
    requires Good(q) && x in q.ring && x < |q.at| && elapsed + base == q.elapsed + time
    requires AdvancesTo(q, time, q.elapsed + time, elapsed, base)
    ensures var (r, fired) := Advanced(q, time, []);
            && (x in fired <==> Left(q, x) <= time)
            && (x !in fired ==> x in r.ring && Left(r, x) == Left(q, x) - time)
            && (x in fired ==> x !in r.ring)
  {
    var (r, fired) := Advanced(q, time, []);
    var k :| 0 <= k < |q.ring| && q.ring[k] == x;
    assert if k < |fired| then fired[k] == x else r.ring[k - |fired|] == x;
    RingDistinct(q);
  }

  lemma RingDistinct(q: Queue)
    requires Mid(q)
    ensures forall i, j | 0 <= i < j < |q.ring| :: q.ring[i] != q.ring[j]
  {
    forall i, j | 0 <= i < j < |q.ring| ensures q.ring[i] != q.ring[j] {
      assert Before(q.at, q.stamp, q.ring[i], q.ring[j]);
    }
  }

  /** An advance fires no timer that is not in the list, and takes none in. */
  lemma OthersStayOut(q: Queue, x: nat, time: u32)
    requires Good(q) && !q.reset && TimeFits(q, time) && x !in q.ring
    ensures var (r, fired) := Advanced(q, time, []); x !in fired && x !in r.ring
  {
    if q.ring != [] {
      if q.elapsed + time < 0xFFFF {
        AdvanceBelow(q, time);
      } else {
        AdvanceRebased(q, time);
      }
    }
  }

  lemma StaysGood(q: Queue, time: u32)
    requires Good(q) && !q.reset && TimeFits(q, time)
    ensures Good(Advanced(q, time, []).0) && !Advanced(q, time, []).0.reset
  {
    if q.ring != [] {
      TimerRebase.IdleNoneAhead(DueBy(q, time));
      AdvanceGood(q, time, []);
      if q.elapsed + time < 0xFFFF {
        AdvanceBelow(q, time);
      } else {
        AdvanceRebased(q, time);
      }
    }
  }

  function Sum(times: seq<u32>): nat { if times == [] then 0 else times[0] + Sum(times[1..]) }

  /** No advance finds a timer overdue at a rebase. */
  predicate AllFit(q: Queue, times: seq<u32>)
    requires q.Valid()
    decreases |times|
  {
    times == [] || (TimeFits(q, times[0]) && AllFit(Advanced(q, times[0], []).0, times[1..]))
  }

  /** What each of several advances fires. */
  function FiredEach(q: Queue, times: seq<u32>): (r: seq<seq<nat>>)
    requires q.Valid()
    ensures |r| == |times|
    decreases |times|
  {
    if times == [] then []
    else var (r, fired) := Advanced(q, times[0], []); [fired] + FiredEach(r, times[1..])
  }

  lemma FiredLater(q: Queue, times: seq<u32>, k: nat)
    requires q.Valid() && 0 < k < |times|
    ensures FiredEach(q, times)[k] == FiredEach(Advanced(q, times[0], []).0, times[1..])[k - 1]
  {
  }

  lemma {:induction false} NeverFires(q: Queue, x: nat, times: seq<u32>, k: nat)
    requires Good(q) && !q.reset && AllFit(q, times) && k < |times| && x !in q.ring
    ensures x !in FiredEach(q, times)[k]
    decreases k
  {
    OthersStayOut(q, x, times[0]);
    if k > 0 {
      StaysGood(q, times[0]);
      FiredLater(q, times, k);
      NeverFires(Advanced(q, times[0], []).0, x, times[1..], k - 1);
    }
  }

  lemma SumOfPrefix(times: seq<u32>, k: nat)
    requires 0 < k <= |times|
    ensures Sum(times[..k]) == times[0] + Sum(times[1..][..k - 1])
  {
    assert times[..k][1..] == times[1..][..k - 1];
  }

  lemma {:induction false} FiresInTurn(q: Queue, x: nat, times: seq<u32>, k: nat)
    requires Good(q) && !q.reset && AllFit(q, times) && k < |times| && x in q.ring && x < |q.at|
    ensures x in FiredEach(q, times)[k] <==> Sum(times[..k]) < Left(q, x) <= Sum(times[..k + 1])
    decreases k
  {
    var t := times[0];
    FiresWhenDue(q, x, t);
    StaysGood(q, t);
    SumOfPrefix(times, k + 1);
    var (r, fired) := Advanced(q, t, []);
    if k == 0 {
      LeftInFuture(q, x);
    } else {
      SumOfPrefix(times, k);
      FiredLater(q, times, k);
      if x in fired {
        NeverFires(r, x, times[1..], k - 1);
      } else {
        FiresInTurn(r, x, times[1..], k - 1);
      }
    }
  }

  lemma LeftInFuture(q: Queue, x: nat)
    requires Good(q) && x in q.ring && x < |q.at|
    ensures Left(q, x) > 0
  {
  }

  /** A timer that was set fires in the one of the advances to come in which their times
      together reach its timeout, and in no other. */
  lemma SetFiresOnTime(q: Queue, x: nat, timeout: u32, times: seq<u32>, k: nat)
    requires Good(q) && x < |q.at| && timeout > 0 && q.elapsed + timeout < 0x1_0000_0000 && k < |times|
    requires AllFit(TimeoutGot(Called(q, Set(x, timeout))).0, times)
    ensures var r := TimeoutGot(Called(q, Set(x, timeout))).0;
            x in FiredEach(r, times)[k] <==> Sum(times[..k]) < timeout <= Sum(times[..k + 1])
  {
    var c := Called(q, Set(x, timeout));
    SetIn(q, x, timeout);
    FiresInTurn(TimeoutGot(c).0, x, times, k);
  }

  lemma SetIn(q: Queue, x: nat, timeout: u32)
    requires Good(q) && x < |q.at| && timeout > 0 && q.elapsed + timeout < 0x1_0000_0000
    ensures var c := TimeoutGot(Called(q, Set(x, timeout))).0;
            Good(c) && !c.reset && x in c.ring && Left(c, x) == timeout
  {
    CallGood(q, Set(x, timeout));
    if q.at[x] != 0 {
      RemovedMid(q, x);
      ScheduledIn(TimerRemoved(q, x), x, timeout);
    } else {
      ScheduledIn(q, x, timeout);
    }
  }

  lemma ScheduledIn(q: Queue, x: nat, timeout: u32)
    requires q.Valid() && x < |q.at| && q.elapsed + timeout < 0x1_0000_0000
    ensures var s := Scheduled(q, x, timeout); x in s.ring && s.at[x] - s.elapsed == timeout && s.elapsed == q.elapsed
  {
    WrapExact(q.elapsed + timeout);
    var at := q.at[x := Wrap(q.elapsed + timeout)];
    var k := InsertedAt(q.ring, at, x);
    assert Inserted(q.ring, at, x)[k] == x;
  }
}
