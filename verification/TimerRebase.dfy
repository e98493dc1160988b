/** What a rebase of the time does: overdue timers are lost, and those due at that very
    moment can neither be killed nor be set before they fire. */
module TimerRebase {
  import opened Machine
  import opened TimerQueue
  import opened TimerFiring
  import opened TimerRuns
  import Sequences

  // ----- overdue timers -----

  /** What a rebase leaves to a timer with a time `at`. */
  function LeftTo(at: u32, elapsed: int): int
  {
    at - elapsed + if at < elapsed then 0x1_0000_0000 else 0
  }

  predicate IsLeft(q: Queue, r: Queue, now: int)
    requires |r.at| == |q.at|
  {
    forall y | 0 <= y < |q.at| && y in q.ring :: r.at[y] == LeftTo(q.at[y], now)
  }

  /** A rebase that finds any timer overdue fires nothing at all, and to each overdue
      timer it leaves almost the whole 32-bit range. */
  lemma OverdueIsLost(q: Queue, x: nat, time: u32, callbacks: seq<seq<Call>>)
    requires Good(q) && x in q.ring && !q.reset && REBASE_AT <= q.elapsed + time < 0x1_0000_0000
    requires x < |q.at| && q.at[x] < q.elapsed + time && AllKnown(callbacks, |q.at|)
    ensures var (r, fired) := Advanced(q, time, callbacks);
            fired == [] && r.ring == q.ring && r.elapsed == 0 && IsLeft(q, r, q.elapsed + time)
  {
    HeadFirst(q, x);
    HeadIsLost(q, time, callbacks);
  }

  lemma HeadIsLost(q: Queue, time: u32, callbacks: seq<seq<Call>>)
    requires q.Valid() && q.ring != [] && !q.reset && REBASE_AT <= q.elapsed + time < 0x1_0000_0000
    requires q.at[q.ring[0]] < q.elapsed + time && AllKnown(callbacks, |q.at|)
    ensures var (r, fired) := Advanced(q, time, callbacks);
            fired == [] && r.ring == q.ring && r.elapsed == 0 && IsLeft(q, r, q.elapsed + time)
  {
    var p := q.(elapsed := q.elapsed + time);
    MovedIs(q, time, p);
    AdvancedIs(q, time, callbacks);
    NothingFires(p, q.elapsed + time, callbacks);
  }

  lemma AdvancedIs(q: Queue, time: u32, callbacks: seq<seq<Call>>)
    requires q.Valid() && q.ring != [] && !q.reset && AllKnown(callbacks, |q.at|)
    ensures Advanced(q, time, callbacks) == Fired(Moved(q, time), callbacks)
  {
  }

  lemma NothingFires(q: Queue, now: int, callbacks: seq<seq<Call>>)
    requires q.Valid() && q.elapsed == now >= REBASE_AT && q.ring != [] && q.at[q.ring[0]] < now
    requires AllKnown(callbacks, |q.at|)
    ensures var (r, fired) := Fired(RebasedIfLate(q), callbacks);
            fired == [] && r.ring == q.ring && r.elapsed == 0 && IsLeft(q, r, now)
  {
    RebasedTimes(q);
    HeadLater(q);
    FirstLater(Rebased(q), callbacks);
  }

  lemma HeadLater(q: Queue)
    requires q.Valid() && q.ring != [] && q.at[q.ring[0]] < q.elapsed
    ensures Rebased(q).at[q.ring[0]] > 0
  {
    assert q.ring[0] in q.ring;
    RebasedTimes(q);
  }

  lemma RebasedTimes(q: Queue)
    requires q.Valid()
    ensures forall y | 0 <= y < |q.at| && y in q.ring ::
              Rebased(q).at[y] == LeftTo(q.at[y], q.elapsed)
  {
    forall y | 0 <= y < |q.at| && y in q.ring
      ensures Rebased(q).at[y] == LeftTo(q.at[y], q.elapsed)
    {
      WrapSigned(q.at[y] - q.elapsed);
    }
  }

  lemma FirstLater(q: Queue, callbacks: seq<seq<Call>>)
    requires q.Valid() && AllKnown(callbacks, |q.at|) && q.ring != [] && q.elapsed < q.at[q.ring[0]]
    ensures Fired(q, callbacks) == (q, [])
  {
  }

  /** No timer is scheduled before the first one. */
  lemma HeadFirst(q: Queue, x: nat)
    requires Mid(q) && x in q.ring
    ensures x < |q.at| && q.at[q.ring[0]] <= q.at[x]
  {
    var k :| 0 <= k < |q.ring| && q.ring[k] == x;
    if k > 0 {
      assert Before(q.at, q.stamp, q.ring[0], q.ring[k]);
    }
  }

  // ----- timers due together -----

  /** The due timers are the longest beginning of the list that is not later than now. */
  lemma {:induction false} DueIs(ring: seq<nat>, at: seq<u32>, now: int, m: nat)
    requires Known(ring, |at|) && m <= |ring|
    requires forall k | 0 <= k < m :: at[ring[k]] <= now
    requires m < |ring| ==> at[ring[m]] > now
    ensures DueIn(ring, at, now) == ring[..m]
    decreases m
  {
    if m > 0 {
      DueIs(ring[1..], at, now, m - 1);
      assert [ring[0]] + ring[1..][..m - 1] == ring[..m];
    }
  }

  lemma {:induction false} DueTimes(ring: seq<nat>, at: seq<u32>, now: int)
    requires Known(ring, |at|)
    ensures var m := |DueIn(ring, at, now)|;
            && (forall k | 0 <= k < m :: at[ring[k]] <= now) && (m < |ring| ==> at[ring[m]] > now)
  {
    if ring != [] && at[ring[0]] <= now {
      DueTimes(ring[1..], at, now);
      assert forall k | 1 <= k < |ring| :: ring[k] == ring[1..][k - 1];
    }
  }

  /** With callbacks that do nothing all that is due fires. */
  lemma {:induction false} IdleFires(q: Queue)
    requires Mid(q)
    ensures Fired(q, []).1 == DueIn(q.ring, q.at, q.elapsed)
    decreases |q.ring|
  {
    if FirstDue(q) {
      FirstRemovedMid(q);
      IdleFires(FirstRemoved(q));
      assert CallAll(FirstRemoved(q), []) == FirstRemoved(q);
      OthersDue(q.ring, q.at, q.stamp, q.elapsed);
    }
  }

  lemma OthersDue(ring: seq<nat>, at: seq<u32>, stamp: seq<nat>, now: int)
    requires Known(ring, |at|) && |stamp| == |at| && Sorted(ring, at, stamp) && ring != []
    ensures DueIn(ring[1..], at[ring[0] := 0], now) == DueIn(ring[1..], at, now)
  {
    forall k | 1 <= k < |ring| ensures ring[k] != ring[0] {
      assert Before(at, stamp, ring[0], ring[k]);
    }
    DueSame(ring[1..], at, at[ring[0] := 0], now);
  }

  lemma {:induction false} DueSame(ring: seq<nat>, at: seq<u32>, at': seq<u32>, now: int)
    requires Known(ring, |at|) && |at'| == |at| && forall k | 0 <= k < |ring| :: at'[ring[k]] == at[ring[k]]
    ensures DueIn(ring, at', now) == DueIn(ring, at, now)
  {
    if ring != [] {
      assert forall k | 1 <= k < |ring| :: ring[1..][k - 1] == ring[k];
      DueSame(ring[1..], at, at', now);
    }
  }

  /** A due timer taken out of the list is taken out of those that are due. */
  lemma {:induction false} DueWithout(ring: seq<nat>, at: seq<u32>, now: int, y: nat)
    requires Known(ring, |at|) && y in DueIn(ring, at, now)
    requires forall i, j | 0 <= i < j < |ring| :: ring[i] != ring[j]
    ensures DueIn(Removed(ring, y), at[y := 0], now) == Removed(DueIn(ring, at, now), y)
  {
    var x, rest := ring[0], ring[1..];
    assert forall k | 0 <= k < |rest| :: rest[k] == ring[k + 1];
    FirstOfDue(x, rest, at, now);
    assert ring == [x] + rest;
    if x == y {
      DueSame(rest, at, at[y := 0], now);
      FirstIsOut(x, DueIn(rest, at, now));
    } else {
      DueWithout(rest, at, now, y);
      FirstIsLeft(x, DueIn(rest, at, now), y);
      FirstOfDue(x, Removed(rest, y), at[y := 0], now);
    }
  }

  lemma FirstOfDue(x: nat, rest: seq<nat>, at: seq<u32>, now: int)
    requires x < |at| && at[x] <= now && Known(rest, |at|)
    ensures Known([x] + rest, |at|) && DueIn([x] + rest, at, now) == [x] + DueIn(rest, at, now)
  {
    assert ([x] + rest)[1..] == rest;
  }

  lemma FirstIsOut(x: nat, s: seq<nat>)
    ensures Removed([x] + s, x) == s
  {
    assert ([x] + s)[1..] == s;
  }

  lemma FirstIsLeft(x: nat, s: seq<nat>, y: nat)
    requires x != y
    ensures Removed([x] + s, y) == [x] + Removed(s, y)
  {
    assert ([x] + s)[1..] == s;
  }

  /** A timer set for later does not change what is due. */
  lemma DueInserted(ring: seq<nat>, at: seq<u32>, now: int, y: nat)
    requires Known(ring, |at|) && y < |at| && at[y] > now
    ensures DueIn(Inserted(ring, at, y), at, now) == DueIn(ring, at, now)
  {
    var k := InsertedAt(ring, at, y);
    var m := |DueIn(ring, at, now)|;
    DueTimes(ring, at, now);
    assert m > 0 ==> at[ring[m - 1]] <= now;
    var ring' := Inserted(ring, at, y);
    Sequences.InsertedElements(ring, k, y);
    DueIs(ring', at, now, m);
    assert ring'[..m] == ring[..m];
  }

  lemma {:induction false} IdleNoneAhead(zeros: seq<nat>)
    ensures NoneAhead(zeros, [])
  {
    if zeros != [] {
      IdleNoneAhead(zeros[1..]);
    }
  }

  /** What a callback may do to the timer `y`. */
  predicate TakesOut(c: Call, y: nat)
  {
    c == Kill(y) || (Sets(c) && c.timer == y && c.timeout <= TIMEOUT_MAX)
  }

  /** Below the rebase the first callback takes the timer out of what is due. */
  lemma TakenOut(q: Queue, y: nat, c: Call)
    requires Mid(q) && HasZeros(q, []) && FirstDue(q) && y in DueIn(q.ring, q.at, q.elapsed) && y != q.ring[0]
    requires TakesOut(c, y)
    ensures y < |q.at| && CallsKnown([c], |q.at|)
    ensures Fired(q, [[c]]).1 == Removed(DueIn(q.ring, q.at, q.elapsed), y)
  {
    var p := FirstRemoved(q);
    FirstGone(q, y);
    CalledOut(p, y, c);
    IdleFires(Called(p, c));
    FirstFires(q, c);
    FirstIsLeft(q.ring[0], DueIn(p.ring, p.at, p.elapsed), y);
  }

  lemma FirstFires(q: Queue, c: Call)
    requires q.Valid() && FirstDue(q) && CallsKnown([c], |q.at|)
    ensures Fired(q, [[c]]).1 == [q.ring[0]] + Fired(Called(FirstRemoved(q), c), []).1
  {
    var p, none: seq<Call> := FirstRemoved(q), [];
    assert [c][1..] == none;
    assert CallAll(p, [c]) == CallAll(Called(p, c), none);
    assert Rest([[c]]) == [];
  }

  lemma FirstGone(q: Queue, y: nat)
    requires Mid(q) && HasZeros(q, []) && FirstDue(q) && y in DueIn(q.ring, q.at, q.elapsed) && y != q.ring[0]
    ensures var p := FirstRemoved(q);
            && Mid(p) && y < |p.at| && p.at[y] != 0 && y in DueIn(p.ring, p.at, p.elapsed)
            && DueIn(q.ring, q.at, q.elapsed) == [q.ring[0]] + DueIn(p.ring, p.at, p.elapsed)
  {
    FirstRemovedMid(q);
    OthersDue(q.ring, q.at, q.stamp, q.elapsed);
    assert y in q.ring;
  }

  lemma CalledOut(p: Queue, y: nat, c: Call)
    requires Mid(p) && y < |p.at| && p.at[y] != 0 && y in DueIn(p.ring, p.at, p.elapsed)
    requires TakesOut(c, y)
    ensures var r := Called(p, c);
            Mid(r) && DueIn(r.ring, r.at, r.elapsed) == Removed(DueIn(p.ring, p.at, p.elapsed), y)
  {
    var k := TimerRemoved(p, y);
    RemovedMid(p, y);
    forall i, j | 0 <= i < j < |p.ring| ensures p.ring[i] != p.ring[j] {
      assert Before(p.at, p.stamp, p.ring[i], p.ring[j]);
    }
    DueWithout(p.ring, p.at, p.elapsed, y);
    if c.Set? {
      SetOut(k, y, c.timeout);
    }
  }

  lemma SetOut(q: Queue, y: nat, timeout: u32)
    requires Mid(q) && y < |q.at| && y !in q.ring && 0 < timeout <= TIMEOUT_MAX
    ensures var r := Scheduled(q, y, timeout);
            Mid(r) && DueIn(r.ring, r.at, r.elapsed) == DueIn(q.ring, q.at, q.elapsed)
  {
    ScheduledMid(q, y, timeout);
    SetIsLaterIff(q, y, timeout);
    var at := Scheduled(q, y, timeout).at;
    DueInserted(q.ring, at, q.elapsed, y);
    DueSame(q.ring, q.at, at, q.elapsed);
  }

  lemma MovedBelow(q: Queue, time: u32)
    requires Good(q) && TimeFits(q, time) && q.elapsed + time < REBASE_AT
    ensures var r := Moved(q, time);
            && r == q.(elapsed := q.elapsed + time) && Mid(r) && HasZeros(r, [])
            && DueIn(r.ring, r.at, r.elapsed) == DueBy(q, time)
            && (DueBy(q, time) != [] ==> FirstDue(r))
  {
    var p := q.(elapsed := q.elapsed + time);
    MovedIs(q, time, p);
    MovedMid(q, time);
    NoZeros(p, q);
  }

  lemma TakenOutBelow(q: Queue, y: nat, time: u32, c: Call)
    requires Good(q) && !q.reset && TimeFits(q, time) && q.elapsed + time < REBASE_AT
    requires y in DueBy(q, time) && y != q.ring[0] && TakesOut(c, y)
    ensures y < |q.at| && AllKnown([[c]], |q.at|)
    ensures Advanced(q, time, [[c]]).1 == Removed(DueBy(q, time), y)
  {
    MovedBelow(q, time);
    TakenOut(Moved(q, time), y, c);
  }

  lemma DueKnown(q: Queue, y: nat, time: u32)
    requires q.Valid() && y in DueBy(q, time)
    ensures y < |q.at| && q.ring != [] && y in q.ring
  {
  }

  /** A due timer that the callback of the first one kills does not fire, unless the time
      is rebased: then the kill misses it. */
  lemma KillMissesIff(q: Queue, y: nat, time: u32)
    requires Good(q) && !q.reset && TimeFits(q, time) && y in DueBy(q, time) && y != q.ring[0]
    ensures y < |q.at| && AllKnown([[Kill(y)]], |q.at|)
    ensures Advanced(q, time, [[Kill(y)]]).1
         == if q.elapsed + time >= REBASE_AT then DueBy(q, time) else Removed(DueBy(q, time), y)
  {
    DueKnown(q, y, time);
    if q.elapsed + time >= REBASE_AT {
      IdleNoneAhead(DueBy(q, time)[1..]);
      AdvanceFitsIff(q, time, [[Kill(y)]]);
    } else {
      TakenOutBelow(q, y, time, Kill(y));
    }
  }

  lemma SetAhead(due: seq<nat>, y: nat, timeout: u32)
    requires y in due && y != due[0] && timeout > 0
    ensures !NoneAhead(due, [[Set(y, timeout)]])
  {
    var calls := [Set(y, timeout)];
    assert y in due[1..] && Sets(calls[0]) && First([calls]) == calls;
  }

  /** Setting it anew in place of killing it postpones it, and the call fits, if and only
      if the time is not rebased: then the timer would be inserted twice. */
  lemma SetMissesIff(q: Queue, y: nat, timeout: u32, time: u32)
    requires Good(q) && !q.reset && TimeFits(q, time) && 0 < timeout <= TIMEOUT_MAX
    requires y in DueBy(q, time) && y != q.ring[0]
    ensures y < |q.at| && AllKnown([[Set(y, timeout)]], |q.at|)
    ensures AdvanceFits(q, time, [[Set(y, timeout)]]) <==> q.elapsed + time < REBASE_AT
    ensures q.elapsed + time < REBASE_AT ==>
              Advanced(q, time, [[Set(y, timeout)]]).1 == Removed(DueBy(q, time), y)
  {
    DueKnown(q, y, time);
    SetAhead(DueBy(q, time), y, timeout);
    if q.elapsed + time < REBASE_AT {
      TakenOutBelow(q, y, time, Set(y, timeout));
    }
  }
}
