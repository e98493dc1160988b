/** A queue of one-shot timers, sorted by the time they are scheduled at. Callbacks
    may set and kill timers while due ones are being processed. */
module TimerQueue {
  import opened Machine
  import opened Options
  import Sequences

  const REBASE_AT := 0xFFFF

  /** Timers are numbered. `at` is their scheduled time, zero if not set; `stamp` tells
      in what order they were set, and is not used by any operation. */
  datatype Queue = Queue(ring: seq<nat>, at: seq<u32>, elapsed: u32, reset: bool, stamp: seq<nat>, next: nat)
  {
    predicate Valid() { |stamp| == |at| && forall k | 0 <= k < |ring| :: ring[k] < |at| }
  }

  /** `count` timers, none of which is set. */
  function Created(count: nat): (q: Queue)
    ensures q.Valid() && |q.at| == count
  {
    Queue([], seq(count, _ => 0), 0, false, seq(count, _ => 0), 1)
  }

  // ----- the sorted list -----

  predicate Known(ring: seq<nat>, n: nat) { forall k | 0 <= k < |ring| :: ring[k] < n }

  /** After the last timer that is not scheduled later. */
  function Inserted(ring: seq<nat>, at: seq<u32>, x: nat): (r: seq<nat>)
    requires Known(ring, |at|) && x < |at|
    ensures Known(r, |at|)
  {
    if ring == [] then [x]
    else if at[ring[|ring| - 1]] <= at[x] then ring + [x]
    else Inserted(ring[..|ring| - 1], at, x) + [ring[|ring| - 1]]
  }

  function Removed(ring: seq<nat>, x: nat): (r: seq<nat>)
    ensures forall k | 0 <= k < |r| :: r[k] in ring
  {
    if ring == [] then [] else if ring[0] == x then ring[1..] else [ring[0]] + Removed(ring[1..], x)
  }

  // ----- operations -----

  /** An emptied list resets the time base. */
  function TimerRemoved(q: Queue, x: nat): (r: Queue)
    requires q.Valid() && x < |q.at|
    ensures r.Valid() && |r.at| == |q.at|
  {
    var ring := Removed(q.ring, x);
    assert Known(q.ring, |q.at|);
    var q := q.(ring := ring, at := q.at[x := 0]);
    if ring == [] then q.(elapsed := 0, reset := true) else q
  }

  function Scheduled(q: Queue, x: nat, timeout: u32): (r: Queue)
    requires q.Valid() && x < |q.at|
    ensures r.Valid() && |r.at| == |q.at|
  {
    var at := q.at[x := Wrap(q.elapsed + timeout)];
    assert Known(q.ring, |at|);
    q.(at := at, ring := Inserted(q.ring, at, x), stamp := q.stamp[x := q.next], next := q.next + 1)
  }

  function TimerSet(q: Queue, x: nat, timeout: u32): (r: (Queue, bool))
    requires q.Valid() && x < |q.at|
    ensures r.0.Valid() && |r.0.at| == |q.at|
  {
    if timeout == 0 then (q, false) else (Scheduled(if q.at[x] != 0 then TimerRemoved(q, x) else q, x, timeout), true)
  }

  function TimerKilled(q: Queue, x: nat): (r: (Queue, bool))
    requires q.Valid() && x < |q.at|
    ensures r.0.Valid() && |r.0.at| == |q.at|
  {
    if q.at[x] == 0 then (q, false) else (TimerRemoved(q, x), true)
  }

  datatype Call = Set(timer: nat, timeout: u32) | Kill(timer: nat)

  predicate CallsKnown(calls: seq<Call>, n: nat) { forall k | 0 <= k < |calls| :: calls[k].timer < n }

  function Called(q: Queue, c: Call): (r: Queue)
    requires q.Valid() && c.timer < |q.at|
    ensures r.Valid() && |r.at| == |q.at|
  {
    match c
    case Set(x, timeout) => TimerSet(q, x, timeout).0
    case Kill(x) => TimerKilled(q, x).0
  }

  /** What a callback does. */
  function CallAll(q: Queue, calls: seq<Call>): (r: Queue)
    requires q.Valid() && CallsKnown(calls, |q.at|)
    ensures r.Valid() && |r.at| == |q.at|
    decreases |calls|
  {
    if calls == [] then q else CallAll(Called(q, calls[0]), calls[1..])
  }

  /** The first timer is due and leaves the list. */
  predicate FirstDue(q: Queue)
    requires q.Valid()
  {
    q.ring != [] && q.at[q.ring[0]] <= q.elapsed
  }

  function FirstRemoved(q: Queue): (r: Queue)
    requires q.Valid() && q.ring != []
    ensures r.Valid() && |r.at| == |q.at|
  {
    q.(ring := q.ring[1..], at := q.at[q.ring[0] := 0])
  }

  predicate AllKnown(callbacks: seq<seq<Call>>, n: nat)
  {
    forall k | 0 <= k < |callbacks| :: CallsKnown(callbacks[k], n)
  }

  /** The calls of the next callback, none when the list is exhausted. */
  function First(callbacks: seq<seq<Call>>): seq<Call> { if callbacks == [] then [] else callbacks[0] }
  function Rest(callbacks: seq<seq<Call>>): seq<seq<Call>> { if callbacks == [] then [] else callbacks[1..] }

  /** The timers fired, one after the other; the k-th callback makes the k-th list of calls. */
  function Fired(q: Queue, callbacks: seq<seq<Call>>): (r: (Queue, seq<nat>))
    requires q.Valid() && AllKnown(callbacks, |q.at|)
    ensures r.0.Valid() && |r.0.at| == |q.at|
    decreases |callbacks|, |q.ring|
  {
    if !FirstDue(q) then (q, [])
    else
      var (q', fired) := Fired(CallAll(FirstRemoved(q), First(callbacks)), Rest(callbacks));
      (q', [q.ring[0]] + fired)
  }

  /** The times of the timers in the list, counted from a later moment. */
  function Counted(at: seq<u32>, ring: seq<nat>, elapsed: u32): (r: seq<u32>)
    ensures |r| == |at|
  {
    seq(|at|, x requires 0 <= x < |at| => if x in ring then Wrap(at[x] - elapsed) else at[x])
  }

  function Rebased(q: Queue): (r: Queue)
    requires q.Valid()
    ensures r.Valid() && |r.at| == |q.at|
  {
    q.(at := Counted(q.at, q.ring, q.elapsed), elapsed := 0)
  }

  function RebasedIfLate(q: Queue): (r: Queue)
    requires q.Valid()
    ensures r.Valid() && |r.at| == |q.at|
  {
    if q.elapsed >= REBASE_AT then Rebased(q) else q
  }

  function Moved(q: Queue, time: u32): (r: Queue)
    requires q.Valid()
    ensures r.Valid() && |r.at| == |q.at|
  {
    RebasedIfLate(q.(elapsed := Wrap(q.elapsed + time)))
  }

  function Advanced(q: Queue, time: u32, callbacks: seq<seq<Call>>): (r: (Queue, seq<nat>))
    requires q.Valid() && AllKnown(callbacks, |q.at|)
    ensures r.0.Valid() && |r.0.at| == |q.at|
  {
    if q.ring == [] || q.reset then (q, []) else Fired(Moved(q, time), callbacks)
  }

  function TimeoutGot(q: Queue): (r: (Queue, Option<u32>))
    requires q.Valid()
    ensures r.0.Valid() && |r.0.at| == |q.at|
  {
    (q.(reset := false), if q.ring == [] then None else Some(Wrap(q.at[q.ring[0]] - q.elapsed)))
  }

  // ----- the queue as an object -----

  lemma InsertedStep(ring: seq<nat>, at: seq<u32>, x: nat, k: nat)
    requires Known(ring, |at|) && x < |at| && 0 < k <= |ring| && at[ring[k - 1]] > at[x]
    ensures Known(ring[..k], |at|) && Known(ring[..k - 1], |at|)
    ensures Inserted(ring[..k], at, x) + ring[k..] == Inserted(ring[..k - 1], at, x) + ring[k - 1..]
  {
    Sequences.LastOfFront(ring, k);
    InsertedBeforeLast(ring[..k], at, x, ring[..k - 1]);
    Sequences.Reassociate(Inserted(ring[..k - 1], at, x), [ring[k - 1]], ring[k..]);
  }

  lemma InsertedBeforeLast(ring: seq<nat>, at: seq<u32>, x: nat, front: seq<nat>)
    requires Known(ring, |at|) && x < |at| && ring != [] && front == ring[..|ring| - 1] && Known(front, |at|)
    requires at[ring[|ring| - 1]] > at[x]
    ensures Inserted(ring, at, x) == Inserted(front, at, x) + [ring[|ring| - 1]]
  {
  }

  lemma InsertedHere(ring: seq<nat>, at: seq<u32>, x: nat, k: nat)
    requires Known(ring, |at|) && x < |at| && k <= |ring| && (k == 0 || at[ring[k - 1]] <= at[x])
    ensures Known(ring[..k], |at|) && Inserted(ring[..k], at, x) + ring[k..] == ring[..k] + [x] + ring[k..]
  {
  }

  lemma NextKnown(callbacks: seq<seq<Call>>, n: nat)
    requires AllKnown(callbacks, n)
    ensures CallsKnown(First(callbacks), n) && AllKnown(Rest(callbacks), n)
  {
  }

  lemma FiredStep(q: Queue, callbacks: seq<seq<Call>>, fired: seq<nat>)
    requires q.Valid() && AllKnown(callbacks, |q.at|) && FirstDue(q)
    ensures var (q1, f1) := Fired(CallAll(FirstRemoved(q), First(callbacks)), Rest(callbacks));
            var (q2, f2) := Fired(q, callbacks);
            q2 == q1 && fired + f2 == (fired + [q.ring[0]]) + f1
  {
    Sequences.Reassociate(fired, [q.ring[0]], Fired(CallAll(FirstRemoved(q), First(callbacks)), Rest(callbacks)).1);
  }

  class Timers {
    var ring: seq<nat>
    const scheduled: array<u32>
    var elapsedTime: u32
    var reset: bool
    ghost var stamps: seq<nat>
    ghost var next: nat

    ghost function Value(): Queue
      reads this, scheduled
    {
      Queue(ring, scheduled[..], elapsedTime, reset, stamps, next)
    }

    ghost predicate Valid()
      reads this, scheduled
    {
      Value().Valid()
    }

    constructor (count: nat)
      ensures Valid() && fresh(scheduled) && Value() == Created(count)
    {
      ring, elapsedTime, reset := [], 0, false;
      scheduled := new u32[count](_ => 0);
      stamps, next := seq(count, _ => 0), 1;
    }

    /** The list is searched from its end. */
    method TimerInsert(x: nat)
      requires Valid() && x < scheduled.Length
      modifies this`ring
      ensures Valid() && Value() == old(Value()).(ring := Inserted(old(ring), scheduled[..], x))
    {
      var k := |ring|;
      ghost var inserted := Inserted(ring, scheduled[..], x);
      assert ring[..k] == ring && ring[k..] == [];
      while k > 0 && scheduled[ring[k - 1]] > scheduled[x]
        invariant 0 <= k <= |ring| && Known(ring, scheduled.Length)
        invariant inserted == Inserted(ring[..k], scheduled[..], x) + ring[k..]
      {
        InsertedStep(ring, scheduled[..], x, k);
        k := k - 1;
      }
      InsertedHere(ring, scheduled[..], x, k);
      ring := ring[..k] + [x] + ring[k..];
    }

    method TimerRemove(x: nat)
      requires Valid() && x < scheduled.Length
      modifies this`ring, this`elapsedTime, this`reset, scheduled
      ensures Valid() && Value() == TimerRemoved(old(Value()), x)
    {
      assert Known(ring, scheduled.Length);
      ring := Removed(ring, x);
      scheduled[x] := 0;
      if ring == [] {
        elapsedTime, reset := 0, true;
      }
    }

    method Set(x: nat, timeout: u32) returns (ok: bool)
      requires Valid() && x < scheduled.Length
      modifies this, scheduled
      ensures Valid() && (Value(), ok) == TimerSet(old(Value()), x, timeout)
    {
      if timeout == 0 {
        return false;
      }
      if scheduled[x] != 0 {
        TimerRemove(x);
      }
      Schedule(x, timeout);
      ok := true;
    }

    method Schedule(x: nat, timeout: u32)
      requires Valid() && x < scheduled.Length
      modifies this`ring, this`stamps, this`next, scheduled
      ensures Valid() && Value() == Scheduled(old(Value()), x, timeout)
    {
      scheduled[x] := Wrap(elapsedTime + timeout);
      stamps, next := stamps[x := next], next + 1;
      TimerInsert(x);
    }

    method KillTimer(x: nat) returns (ok: bool)
      requires Valid() && x < scheduled.Length
      modifies this, scheduled
      ensures Valid() && (Value(), ok) == TimerKilled(old(Value()), x)
    {
      ok := scheduled[x] != 0;
      if ok {
        TimerRemove(x);
      }
    }

    method CallbackRun(calls: seq<Call>)
      requires Valid() && CallsKnown(calls, scheduled.Length)
      modifies this, scheduled
      ensures Valid() && Value() == CallAll(old(Value()), calls)
    {
      ghost var result := CallAll(Value(), calls);
      var k := 0;
      while k < |calls|
        invariant 0 <= k <= |calls| && Valid() && CallAll(Value(), calls[k..]) == result
        decreases |calls| - k
      {
        assert calls[k..][1..] == calls[k + 1..];
        var ok;
        match calls[k] {
          case Set(x, timeout) => ok := Set(x, timeout);
          case Kill(x) => ok := KillTimer(x);
        }
        k := k + 1;
      }
    }

    method Reschedule()
      requires Valid()
      modifies this`elapsedTime, scheduled
      ensures Valid() && Value() == Rebased(old(Value()))
    {
      ghost var counted := Counted(scheduled[..], ring, elapsedTime);
      forall x | 0 <= x < scheduled.Length && x in ring {
        scheduled[x] := Wrap(scheduled[x] - elapsedTime);
      }
      assert forall x | 0 <= x < scheduled.Length :: scheduled[x] == counted[x];
      assert scheduled[..] == counted;
      elapsedTime := 0;
    }

    method Advance(time: u32, callbacks: seq<seq<Call>>) returns (fired: seq<nat>)
      requires Valid() && AllKnown(callbacks, scheduled.Length)
      modifies this, scheduled
      ensures Valid() && (Value(), fired) == Advanced(old(Value()), time, callbacks)
    {
      fired := [];
      if ring == [] || reset {
        return;
      }
      TimeMove(time);
      fired := DueFire(callbacks);
    }

    method TimeMove(time: u32)
      requires Valid()
      modifies this`elapsedTime, scheduled
      ensures Valid() && Value() == Moved(old(Value()), time)
    {
      elapsedTime := Wrap(elapsedTime + time);
      TimeRebase();
    }

    method TimeRebase()
      requires Valid()
      modifies this`elapsedTime, scheduled
      ensures Valid() && Value() == RebasedIfLate(old(Value()))
    {
      if elapsedTime >= REBASE_AT {
        Reschedule();
      }
    }

    method DueFire(callbacks: seq<seq<Call>>) returns (fired: seq<nat>)
      requires Valid() && AllKnown(callbacks, scheduled.Length)
      modifies this, scheduled
      ensures Valid() && (Value(), fired) == Fired(old(Value()), callbacks)
    {
      fired := [];
      ghost var result := Fired(Value(), callbacks);
      var rest := callbacks;
      assert [] + result.1 == result.1;
      while ring != [] && scheduled[ring[0]] <= elapsedTime
        invariant Valid() && AllKnown(rest, scheduled.Length)
        invariant result == (Fired(Value(), rest).0, fired + Fired(Value(), rest).1)
        decreases |rest|, |ring|
      {
        ghost var before := Value();
        var x := ring[0];
        FiredStep(before, rest, fired);
        NextKnown(rest, scheduled.Length);
        FirstFire(First(rest));
        rest := Rest(rest);
        fired := fired + [x];
      }
      assert fired + [] == fired;
    }

    /** The timer leaves the list before its callback runs. */
    method FirstFire(calls: seq<Call>)
      requires Valid() && ring != [] && CallsKnown(calls, scheduled.Length)
      modifies this, scheduled
      ensures Valid() && Value() == CallAll(FirstRemoved(old(Value())), calls)
    {
      var x := ring[0];
      ring := ring[1..];
      scheduled[x] := 0;
      CallbackRun(calls);
    }

    method TimeoutGet() returns (timeout: Option<u32>)
      requires Valid()
      modifies this`reset
      ensures Valid() && (Value(), timeout) == TimeoutGot(old(Value()))
    {
      reset := false;
      timeout := if ring == [] then None else Some(Wrap(scheduled[ring[0]] - elapsedTime));
    }
  }
}
