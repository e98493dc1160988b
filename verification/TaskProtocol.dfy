/** One request at the root of a resting task tree, under every order in which the
    tasks take their messages: counters, completions and the number of messages. */
module TaskProtocol {
  import opened TaskTree

  /** How far a task is with a request of one kind: untouched, request in its queue,
      waiting for children, completion in the parent's queue, accounted for. */
  datatype Phase = Idle | Requested | Waiting | Completed | Done

  // ----- counting -----

  predicate Within(cs: seq<nat>, n: nat) { forall k | 0 <= k < |cs| :: cs[k] < n }

  function Tally(ph: seq<Phase>, cs: seq<nat>, p: Phase): (n: nat)
    requires Within(cs, |ph|)
    ensures n <= |cs|
  {
    if cs == [] then 0 else (if ph[cs[0]] == p then 1 else 0) + Tally(ph, cs[1..], p)
  }

  lemma {:induction false} TallySame(ph: seq<Phase>, ph': seq<Phase>, cs: seq<nat>, p: Phase)
    requires Within(cs, |ph|) && |ph'| == |ph|
    requires forall k | 0 <= k < |cs| :: ph[cs[k]] == p <==> ph'[cs[k]] == p
    ensures Tally(ph', cs, p) == Tally(ph, cs, p)
  {
    if cs != [] {
      TallySame(ph, ph', cs[1..], p);
    }
  }

  lemma {:induction false} TallyUpdate(ph: seq<Phase>, cs: seq<nat>, p: Phase, j: nat, x: Phase)
    requires Within(cs, |ph|) && Distinct(cs) && j < |ph|
    ensures Tally(ph[j := x], cs, p)
         == Tally(ph, cs, p) + (if j in cs then (if x == p then 1 else 0) - (if ph[j] == p then 1 else 0) else 0)
  {
    if cs != [] {
      TallyUpdate(ph, cs[1..], p, j, x);
      assert cs[0] !in cs[1..];
      assert j in cs <==> j == cs[0] || j in cs[1..];
    }
  }

  lemma {:induction false} TallyExtremes(ph: seq<Phase>, cs: seq<nat>, p: Phase)
    requires Within(cs, |ph|)
    ensures Tally(ph, cs, p) == |cs| <==> forall k | 0 <= k < |cs| :: ph[cs[k]] == p
    ensures Tally(ph, cs, p) == 0 <==> forall k | 0 <= k < |cs| :: ph[cs[k]] != p
  {
    if cs != [] {
      TallyExtremes(ph, cs[1..], p);
      assert forall k | 0 <= k < |cs| :: k == 0 || cs[k] == cs[1..][k - 1];
    }
  }

  /** Messages still to be handled on behalf of a task. */
  function Weight(i: nat, p: Phase): nat
  {
    match p
    case Idle => 2
    case Requested => if i == 0 then 1 else 2
    case Waiting => if i == 0 then 0 else 1
    case Completed => 1
    case Done => 0
  }

  function Sum(ph: seq<Phase>, k: nat): nat
    requires k <= |ph|
  {
    if k == 0 then 0 else Sum(ph, k - 1) + Weight(k - 1, ph[k - 1])
  }

  lemma {:induction false} SumUpdate(ph: seq<Phase>, k: nat, j: nat, x: Phase)
    requires k <= |ph| && j < |ph|
    ensures Sum(ph[j := x], k) == Sum(ph, k) + (if j < k then Weight(j, x) - Weight(j, ph[j]) else 0)
  {
    if k > 0 {
      SumUpdate(ph, k - 1, j, x);
    }
  }

  lemma {:induction false} SumSame(ph: seq<Phase>, ph': seq<Phase>, k: nat)
    requires k <= |ph| == |ph'| && forall j | 0 <= j < k :: Weight(j, ph'[j]) == Weight(j, ph[j])
    ensures Sum(ph', k) == Sum(ph, k)
  {
    if k > 0 {
      SumSame(ph, ph', k - 1);
    }
  }

  /** Messages still to be handled for the whole tree; none before the request. */
  function Left(ph: seq<Phase>): nat
    requires ph != []
  {
    if ph[0] == Idle then 0 else Sum(ph, |ph|)
  }

  // ----- the invariant -----

  predicate NodeGood(t: Tree, s: Tasks, kind: Kind, ph: seq<Phase>, i: nat)
    requires t.Valid() && s.Valid(t) && |ph| == |t.parent| && i < |ph|
  {
    var cs := t.children[i];
    && multiset(s.queues[i])[Request(kind)] == (if ph[i] == Requested then 1 else 0)
    && multiset(s.queues[i])[Complete(kind)] == Tally(ph, cs, Completed)
    && Pending(s, i, kind) == (if ph[i] == Waiting then |cs| - Tally(ph, cs, Done) else 0)
    && (ph[i] == Idle || ph[i] == Requested ==> forall k | 0 <= k < |cs| :: ph[cs[k]] == Idle)
    && (ph[i] == Waiting ==> forall k | 0 <= k < |cs| :: ph[cs[k]] != Idle)
    && (ph[i] == Completed || ph[i] == Done ==> forall k | 0 <= k < |cs| :: ph[cs[k]] == Done)
  }

  predicate Good(t: Tree, s: Tasks, kind: Kind, ph: seq<Phase>)
    requires t.Valid() && s.Valid(t)
  {
    && |ph| == |t.parent| && ph[0] != Completed
    && forall i | 0 <= i < |ph| :: NodeGood(t, s, kind, ph, i)
  }

  /** A task that waits has something to wait for. */
  predicate Busy(t: Tree, s: Tasks, kind: Kind, ph: seq<Phase>, i: nat)
    requires t.Valid() && s.Valid(t) && |ph| == |t.parent| && i < |ph|
  {
    ph[i] == Waiting ==> Pending(s, i, kind) > 0
  }

  // ----- taking a request -----

  /** A completion is expected exactly if a child is outstanding; one that is not changes
      nothing, and a request is always taken. */
  lemma AnswerTells(t: Tree, s: Tasks, i: nat, kind: Kind)
    requires t.Valid() && s.Valid(t) && i < |t.parent|
    ensures Handled(t, s, i, Request(kind)).1
    ensures var (r, ok) := Handled(t, s, i, Complete(kind)); ok == (Pending(s, i, kind) > 0) && (!ok ==> r == s)
  {
  }

  /** Each child gets the request once and is counted once. */
  lemma {:induction false} SpreadEffect(t: Tree, s: Tasks, i: nat, kind: Kind, cs: seq<nat>)
    requires t.Valid() && s.Valid(t) && i < |t.parent| && Within(cs, |t.parent|) && Distinct(cs)
    ensures var r := Spread(t, s, i, kind, cs);
            && (forall j | 0 <= j < |t.parent| ::
                  r.queues[j] == if j in cs then s.queues[j] + [Request(kind)] else s.queues[j])
            && r.Of(kind) == s.Of(kind).(pending := s.Of(kind).pending[i := Pending(s, i, kind) + |cs|])
            && (forall k | k != kind :: r.Of(k) == s.Of(k))
    decreases |cs|
  {
    SpreadQueues(t, s, i, kind, cs);
    SpreadSides(t, s, i, kind, cs);
  }

  lemma SpreadNext(t: Tree, s: Tasks, i: nat, kind: Kind, cs: seq<nat>) returns (s': Tasks)
    requires t.Valid() && s.Valid(t) && i < |t.parent| && Within(cs, |t.parent|) && cs != []
    ensures s'.Valid(t) && Within(cs[1..], |t.parent|)
    ensures s'.queues == s.queues[cs[0] := s.queues[cs[0]] + [Request(kind)]]
    ensures Spread(t, s, i, kind, cs) == Spread(t, s', i, kind, cs[1..])
  {
    s' := Counted(Signalled(s, cs[0], Request(kind)), i, kind, Pending(s, i, kind) + 1);
    SpreadFirst(s, i, kind, cs[0]);
  }

  lemma {:induction false} SpreadQueues(t: Tree, s: Tasks, i: nat, kind: Kind, cs: seq<nat>)
    requires t.Valid() && s.Valid(t) && i < |t.parent| && Within(cs, |t.parent|) && Distinct(cs)
    ensures var r := Spread(t, s, i, kind, cs);
            forall j | 0 <= j < |t.parent| ::
              r.queues[j] == if j in cs then s.queues[j] + [Request(kind)] else s.queues[j]
    decreases |cs|
  {
    if cs != [] {
      var s' := SpreadNext(t, s, i, kind, cs);
      SpreadQueues(t, s', i, kind, cs[1..]);
      QueuesStep(s.queues, s'.queues, Spread(t, s', i, kind, cs[1..]).queues, cs, Request(kind));
    }
  }

  /** One more queue has got the message. */
  lemma QueuesStep(qs: seq<seq<Msg>>, qs': seq<seq<Msg>>, r: seq<seq<Msg>>, cs: seq<nat>, m: Msg)
    requires cs != [] && Distinct(cs) && cs[0] < |qs| && |qs'| == |qs| == |r|
    requires qs' == qs[cs[0] := qs[cs[0]] + [m]]
    requires forall j | 0 <= j < |qs| :: r[j] == if j in cs[1..] then qs'[j] + [m] else qs'[j]
    ensures forall j | 0 <= j < |qs| :: r[j] == if j in cs then qs[j] + [m] else qs[j]
  {
    HeadOrTail(cs);
  }

  lemma HeadOrTail(cs: seq<nat>)
    requires cs != [] && Distinct(cs)
    ensures forall j :: j in cs <==> j == cs[0] || j in cs[1..]
    ensures cs[0] !in cs[1..]
  {
  }

  lemma {:induction false} SpreadSides(t: Tree, s: Tasks, i: nat, kind: Kind, cs: seq<nat>)
    requires t.Valid() && s.Valid(t) && i < |t.parent| && Within(cs, |t.parent|) && Distinct(cs)
    ensures var r := Spread(t, s, i, kind, cs);
            && r.Of(kind) == s.Of(kind).(pending := s.Of(kind).pending[i := Pending(s, i, kind) + |cs|])
            && (forall k | k != kind :: r.Of(k) == s.Of(k))
    decreases |cs|
  {
    if cs != [] {
      var s' := Counted(Signalled(s, cs[0], Request(kind)), i, kind, Pending(s, i, kind) + 1);
      SpreadFirst(s, i, kind, cs[0]);
      SpreadSides(t, s', i, kind, cs[1..]);
    }
  }

  lemma SpreadFirst(s: Tasks, i: nat, kind: Kind, c: nat)
    requires i < |s.Of(kind).pending| && c < |s.queues|
    ensures var p := Pending(s, i, kind) + 1;
            var r := Counted(Signalled(s, c, Request(kind)), i, kind, p);
            && r.queues == s.queues[c := s.queues[c] + [Request(kind)]]
            && r.Of(kind) == s.Of(kind).(pending := s.Of(kind).pending[i := p]) && Pending(r, i, kind) == p
            && (forall k | k != kind :: r.Of(k) == s.Of(k))
  {
  }

  function Asked(ph: seq<Phase>, i: nat, cs: seq<nat>): (r: seq<Phase>)
    ensures |r| == |ph|
    ensures forall j | 0 <= j < |ph| :: r[j] == if j == i then Waiting else if j in cs then Requested else ph[j]
  {
    seq(|ph|, j requires 0 <= j < |ph| => if j == i then Waiting else if j in cs then Requested else ph[j])
  }

  lemma PopCount(q: seq<Msg>, m: Msg)
    requires q != []
    ensures multiset(q)[m] == multiset(q[1..])[m] + (if q[0] == m then 1 else 0)
  {
    assert q == [q[0]] + q[1..];
  }

  lemma PushCount(q: seq<Msg>, x: Msg, m: Msg)
    ensures multiset(q + [x])[m] == multiset(q)[m] + (if x == m then 1 else 0)
  {
  }

  /** A task that was reached has all its ancestors reached. */
  lemma {:induction false} RootAwake(t: Tree, s: Tasks, kind: Kind, ph: seq<Phase>, i: nat)
    requires t.Valid() && s.Valid(t) && Good(t, s, kind, ph) && i < |ph| && ph[i] != Idle
    ensures ph[0] != Idle
    decreases i
  {
    if i != 0 {
      var p := t.parent[i];
      assert NodeGood(t, s, kind, ph, p);
      assert i in t.children[p];
      RootAwake(t, s, kind, ph, p);
    }
  }

  /** The children of different tasks are different. */
  lemma ChildOf(t: Tree, i: nat, c: nat)
    requires t.Valid() && i < |t.children|
    ensures c in t.children[i] <==> 0 < c < |t.parent| && t.parent[c] == i
  {
  }

  /** What a task sees of the request being handled by task `i`. */
  predicate AskedBy(t: Tree, s: Tasks, r: Tasks, kind: Kind, i: nat, j: nat)
    requires t.Valid() && s.Valid(t) && r.Valid(t) && i < |t.parent| && j < |t.parent|
  {
    var q := if j == i && s.queues[i] != [] then s.queues[i][1..] else s.queues[j];
    && r.queues[j] == (if j in t.children[i] then q + [Request(kind)] else q)
    && Pending(r, j, kind) == Pending(s, j, kind) + (if j == i then |t.children[i]| else 0)
  }

  lemma RequestSelf(t: Tree, s: Tasks, r: Tasks, kind: Kind, ph: seq<Phase>, i: nat)
    requires t.Valid() && s.Valid(t) && r.Valid(t) && |ph| == |t.parent| && i < |ph| && NodeGood(t, s, kind, ph, i)
    requires s.queues[i] != [] && s.queues[i][0] == Request(kind) && AskedBy(t, s, r, kind, i, i)
    ensures NodeGood(t, r, kind, Asked(ph, i, t.children[i]), i)
  {
    var cs, ph' := t.children[i], Asked(ph, i, t.children[i]);
    PopCount(s.queues[i], Request(kind));
    PopCount(s.queues[i], Complete(kind));
    ChildOf(t, i, i);
    TallyExtremes(ph, cs, Completed);
    TallyExtremes(ph', cs, Completed);
    TallyExtremes(ph', cs, Done);
  }

  /** Of the children of another task only task `i` itself may have moved. */
  lemma AskedTallies(t: Tree, ph: seq<Phase>, i: nat, j: nat)
    requires t.Valid() && |ph| == |t.parent| && i < |ph| && j < |ph| && j != i && ph[i] == Requested
    ensures var cs, ph' := t.children[j], Asked(ph, i, t.children[i]);
            && Tally(ph', cs, Completed) == Tally(ph, cs, Completed) && Tally(ph', cs, Done) == Tally(ph, cs, Done)
            && forall k | 0 <= k < |cs| :: ph'[cs[k]] == if cs[k] == i then Waiting else ph[cs[k]]
  {
    var cs', ph' := t.children[j], Asked(ph, i, t.children[i]);
    forall k | 0 <= k < |cs'| ensures cs'[k] !in t.children[i] {
      ChildOf(t, i, cs'[k]);
    }
    TallySame(ph, ph', cs', Completed);
    TallySame(ph, ph', cs', Done);
  }

  lemma RequestOther(t: Tree, s: Tasks, r: Tasks, kind: Kind, ph: seq<Phase>, i: nat, j: nat)
    requires t.Valid() && s.Valid(t) && r.Valid(t) && |ph| == |t.parent| && i < |ph| && j < |ph| && j != i
    requires NodeGood(t, s, kind, ph, j) && AskedBy(t, s, r, kind, i, j) && ph[i] == Requested
    requires j in t.children[i] ==> ph[j] == Idle
    ensures NodeGood(t, r, kind, Asked(ph, i, t.children[i]), j)
  {
    AskedTallies(t, ph, i, j);
    PushCount(s.queues[j], Request(kind), Request(kind));
    PushCount(s.queues[j], Request(kind), Complete(kind));
  }

  function Requesting(t: Tree, s: Tasks, i: nat, kind: Kind): (r: Tasks)
    requires t.Valid() && s.Valid(t) && i < |t.parent| && s.queues[i] != []
    ensures r.Valid(t)
  {
    Spread(t, Popped(s, i), i, kind, t.children[i])
  }

  lemma RequestSeen(t: Tree, s: Tasks, i: nat, kind: Kind, j: nat)
    requires t.Valid() && s.Valid(t) && i < |t.parent| && s.queues[i] != [] && j < |t.parent|
    ensures AskedBy(t, s, Requesting(t, s, i, kind), kind, i, j)
  {
    SpreadEffect(t, Popped(s, i), i, kind, t.children[i]);
  }

  lemma RequestNode(t: Tree, s: Tasks, kind: Kind, ph: seq<Phase>, i: nat, j: nat)
    requires t.Valid() && s.Valid(t) && Good(t, s, kind, ph) && i < |ph| && ph[i] == Requested
    requires s.queues[i] != [] && s.queues[i][0] == Request(kind) && j < |ph|
    ensures NodeGood(t, Requesting(t, s, i, kind), kind, Asked(ph, i, t.children[i]), j)
  {
    RequestSeen(t, s, i, kind, j);
    assert NodeGood(t, s, kind, ph, i) && NodeGood(t, s, kind, ph, j);
    if j == i {
      RequestSelf(t, s, Requesting(t, s, i, kind), kind, ph, i);
    } else {
      RequestOther(t, s, Requesting(t, s, i, kind), kind, ph, i, j);
    }
  }

  lemma RequestLeft(t: Tree, ph: seq<Phase>, i: nat)
    requires t.Valid() && |ph| == |t.parent| && i < |ph| && ph[i] == Requested && ph[0] != Idle
    requires forall k | 0 <= k < |t.children[i]| :: ph[t.children[i][k]] == Idle
    ensures Left(Asked(ph, i, t.children[i])) == Left(ph) - 1
  {
    var ph' := Asked(ph, i, t.children[i]);
    ChildOf(t, i, 0);
    ChildOf(t, i, i);
    SumUpdate(ph, |ph|, i, Waiting);
    SumSame(ph[i := Waiting], ph', |ph|);
  }

  lemma RequestGood(t: Tree, s: Tasks, kind: Kind, ph: seq<Phase>, i: nat)
    requires t.Valid() && s.Valid(t) && Good(t, s, kind, ph)
    requires i < |ph| && s.queues[i] != [] && s.queues[i][0] == Request(kind)
    ensures var ph' := Asked(ph, i, t.children[i]);
            Good(t, Requesting(t, s, i, kind), kind, ph') && ph[i] == Requested && Left(ph') == Left(ph) - 1
  {
    assert NodeGood(t, s, kind, ph, i);
    PopCount(s.queues[i], Request(kind));
    forall j | 0 <= j < |ph| ensures NodeGood(t, Requesting(t, s, i, kind), kind, Asked(ph, i, t.children[i]), j) {
      RequestNode(t, s, kind, ph, i, j);
    }
    RootAwake(t, s, kind, ph, i);
    ChildOf(t, i, 0);
    RequestLeft(t, ph, i);
  }

  // ----- taking a completion -----

  function Accounted(s: Tasks, i: nat, kind: Kind, pending: nat): (r: Tasks)
    requires i < |s.queues| == |s.Of(kind).pending| && s.queues[i] != []
  {
    Counted(Popped(s, i), i, kind, pending)
  }

  lemma RaisedTallies(t: Tree, ph: seq<Phase>, i: nat, j: nat, x: Phase)
    requires t.Valid() && |ph| == |t.parent| && i < |ph| && j < |ph|
    ensures var cs, ph' := t.children[j], ph[i := x];
            && Tally(ph', cs, Completed) == Tally(ph, cs, Completed)
               + (if i in cs then (if x == Completed then 1 else 0) - (if ph[i] == Completed then 1 else 0) else 0)
            && Tally(ph', cs, Done) == Tally(ph, cs, Done)
               + (if i in cs then (if x == Done then 1 else 0) - (if ph[i] == Done then 1 else 0) else 0)
  {
    TallyUpdate(ph, t.children[j], Completed, i, x);
    TallyUpdate(ph, t.children[j], Done, i, x);
  }

  lemma CompleteNode(t: Tree, s: Tasks, kind: Kind, ph: seq<Phase>, i: nat, c: nat, j: nat)
    requires t.Valid() && s.Valid(t) && |ph| == |t.parent| && i < |ph| && j < |ph| && c in t.children[i] && c < |ph|
    requires s.queues[i] != [] && s.queues[i][0] == Complete(kind) && ph[c] == Completed && ph[i] == Waiting
    requires NodeGood(t, s, kind, ph, j) && Pending(s, i, kind) > 0
    ensures NodeGood(t, Accounted(s, i, kind, Pending(s, i, kind) - 1), kind, ph[c := Done], j)
  {
    ChildOf(t, j, c);
    ChildOf(t, i, c);
    RaisedTallies(t, ph, c, j, Done);
    if j == i {
      PopCount(s.queues[i], Request(kind));
      PopCount(s.queues[i], Complete(kind));
    }
  }

  /** The completion stands for a child, for which the task is waiting. */
  lemma CompleteFound(t: Tree, s: Tasks, kind: Kind, ph: seq<Phase>, i: nat) returns (c: nat)
    requires t.Valid() && s.Valid(t) && |ph| == |t.parent| && i < |ph| && NodeGood(t, s, kind, ph, i)
    requires s.queues[i] != [] && s.queues[i][0] == Complete(kind)
    ensures c in t.children[i] && c < |ph| && ph[c] == Completed && ph[i] == Waiting && Pending(s, i, kind) > 0
  {
    var cs := t.children[i];
    PopCount(s.queues[i], Complete(kind));
    TallyExtremes(ph, cs, Completed);
    var k :| 0 <= k < |cs| && ph[cs[k]] == Completed;
    c := cs[k];
    TallyExtremes(ph, cs, Done);
  }

  lemma CompleteGood(t: Tree, s: Tasks, kind: Kind, ph: seq<Phase>, i: nat) returns (ph': seq<Phase>)
    requires t.Valid() && s.Valid(t) && Good(t, s, kind, ph)
    requires i < |ph| && s.queues[i] != [] && s.queues[i][0] == Complete(kind)
    ensures Pending(s, i, kind) > 0 && Good(t, Accounted(s, i, kind, Pending(s, i, kind) - 1), kind, ph')
    ensures ph'[i] == ph[i] == Waiting && Left(ph') == Left(ph) - 1
    ensures exists c :: 0 <= c < |ph| && ph[c] == Completed && ph' == ph[c := Done]
  {
    assert NodeGood(t, s, kind, ph, i);
    var c := CompleteFound(t, s, kind, ph, i);
    ph' := ph[c := Done];
    var r := Accounted(s, i, kind, Pending(s, i, kind) - 1);
    forall j | 0 <= j < |ph| ensures NodeGood(t, r, kind, ph', j) {
      assert NodeGood(t, s, kind, ph, j);
      CompleteNode(t, s, kind, ph, i, c, j);
    }
    ChildOf(t, i, c);
    SumUpdate(ph, |ph|, c, Done);
    RootAwake(t, s, kind, ph, c);
  }

  // ----- raising a completion -----

  function Finished(i: nat): Phase { if i == 0 then Done else Completed }

  lemma RaiseSeen(t: Tree, s: Tasks, kind: Kind, i: nat, j: nat)
    requires t.Valid() && s.Valid(t) && i < |t.parent| && j < |t.parent|
    ensures var r := Raised(t, s, i, kind);
            && r.queues[j] == (if i in t.children[j] then s.queues[j] + [Complete(kind)] else s.queues[j])
            && Pending(r, j, kind) == Pending(s, j, kind)
  {
    ChildOf(t, j, i);
  }

  lemma RaiseSelf(t: Tree, s: Tasks, r: Tasks, kind: Kind, ph: seq<Phase>, i: nat)
    requires t.Valid() && s.Valid(t) && r.Valid(t) && |ph| == |t.parent| && i < |ph| && NodeGood(t, s, kind, ph, i)
    requires r.queues[i] == s.queues[i] && Pending(r, i, kind) == Pending(s, i, kind) == 0
    requires ph[i] == Waiting && forall k | 0 <= k < |t.children[i]| :: ph[t.children[i][k]] == Done
    ensures NodeGood(t, r, kind, ph[i := Finished(i)], i)
  {
    ChildOf(t, i, i);
    TallySame(ph, ph[i := Finished(i)], t.children[i], Completed);
  }

  lemma RaiseOther(t: Tree, s: Tasks, r: Tasks, kind: Kind, ph: seq<Phase>, i: nat, j: nat)
    requires t.Valid() && s.Valid(t) && r.Valid(t) && |ph| == |t.parent| && i < |ph| && j < |ph| && j != i
    requires NodeGood(t, s, kind, ph, j) && ph[i] == Waiting && Pending(r, j, kind) == Pending(s, j, kind)
    requires r.queues[j] == if i in t.children[j] then s.queues[j] + [Complete(kind)] else s.queues[j]
    ensures NodeGood(t, r, kind, ph[i := Finished(i)], j)
  {
    ChildOf(t, j, i);
    RaisedTallies(t, ph, i, j, Finished(i));
    PushCount(s.queues[j], Complete(kind), Request(kind));
    PushCount(s.queues[j], Complete(kind), Complete(kind));
    assert i in t.children[j] ==> i != 0 && ph[j] == Waiting;
  }

  lemma RaiseGood(t: Tree, s: Tasks, kind: Kind, ph: seq<Phase>, i: nat)
    requires t.Valid() && s.Valid(t) && Good(t, s, kind, ph) && i < |ph| && ph[i] == Waiting && Pending(s, i, kind) == 0
    ensures var ph' := ph[i := Finished(i)]; Good(t, Raised(t, s, i, kind), kind, ph') && Left(ph') == Left(ph)
    ensures forall k | 0 <= k < |t.children[i]| :: ph[t.children[i][k]] == Done
  {
    assert NodeGood(t, s, kind, ph, i);
    TallyExtremes(ph, t.children[i], Done);
    var r, ph' := Raised(t, s, i, kind), ph[i := Finished(i)];
    forall j | 0 <= j < |ph| ensures NodeGood(t, r, kind, ph', j) {
      assert NodeGood(t, s, kind, ph, j);
      RaiseSeen(t, s, kind, i, j);
      ChildOf(t, i, i);
      if j == i {
        RaiseSelf(t, s, r, kind, ph, i);
      } else {
        RaiseOther(t, s, r, kind, ph, i, j);
      }
    }
    SumUpdate(ph, |ph|, i, Finished(i));
  }

  // ----- the order of completions -----

  predicate IsFinished(p: Phase) { p == Completed || p == Done }

  /** Each finished task once, children before their parents, the root last. */
  predicate LogGood(t: Tree, log: seq<nat>, ph: seq<Phase>)
    requires t.Valid() && |ph| == |t.parent|
  {
    && Within(log, |ph|) && Distinct(log)
    && (forall i | 0 <= i < |ph| :: i in log <==> IsFinished(ph[i]))
    && ChildrenFirst(t, log) && RootLast(log)
  }

  predicate ChildrenFirst(t: Tree, log: seq<nat>)
    requires Within(log, |t.parent|)
  {
    forall a, b | 0 <= a < b < |log| :: log[b] != 0 ==> t.parent[log[b]] != log[a]
  }

  predicate RootLast(log: seq<nat>) { 0 in log ==> log[|log| - 1] == 0 }

  /** Once the root is done everything is. */
  lemma {:induction false} AllDone(t: Tree, s: Tasks, kind: Kind, ph: seq<Phase>, i: nat)
    requires t.Valid() && s.Valid(t) && Good(t, s, kind, ph) && ph[0] == Done && i < |ph|
    ensures ph[i] == Done
    decreases i
  {
    if i != 0 {
      var p := t.parent[i];
      AllDone(t, s, kind, ph, p);
      assert NodeGood(t, s, kind, ph, p) && i in t.children[p];
    }
  }

  lemma LogRaised(t: Tree, s: Tasks, kind: Kind, ph: seq<Phase>, log: seq<nat>, i: nat)
    requires t.Valid() && s.Valid(t) && Good(t, s, kind, ph) && LogGood(t, log, ph) && i < |ph| && ph[i] == Waiting
    ensures LogGood(t, log + [i], ph[i := Finished(i)])
  {
    if ph[0] == Done {
      AllDone(t, s, kind, ph, i);
    }
    if i != 0 {
      assert NodeGood(t, s, kind, ph, t.parent[i]) && i in t.children[t.parent[i]];
    }
  }

  // ----- one step -----

  ghost predicate Inv(t: Tree, s: Tasks, kind: Kind, ph: seq<Phase>, from: nat)
    requires t.Valid() && s.Valid(t)
  {
    && Good(t, s, kind, ph) && (forall j | 0 <= j < |ph| :: Busy(t, s, kind, ph, j))
    && from <= |s.Of(kind).raised| && LogGood(t, s.Of(kind).raised[from..], ph)
  }

  /** As the invariant, except that task `i` may have to raise its completion. */
  ghost predicate InvBut(t: Tree, s: Tasks, kind: Kind, ph: seq<Phase>, from: nat, i: nat)
    requires t.Valid() && s.Valid(t)
  {
    && Good(t, s, kind, ph) && (forall j | 0 <= j < |ph| && j != i :: Busy(t, s, kind, ph, j))
    && from <= |s.Of(kind).raised| && LogGood(t, s.Of(kind).raised[from..], ph)
    && i < |ph| && ph[i] == Waiting
  }

  lemma SettleInv(t: Tree, s: Tasks, kind: Kind, ph: seq<Phase>, from: nat, i: nat) returns (ph': seq<Phase>)
    requires t.Valid() && s.Valid(t) && InvBut(t, s, kind, ph, from, i)
    ensures Inv(t, Settled(t, s, i, kind), kind, ph', from) && Left(ph') == Left(ph)
    ensures ph'[0] == Idle <==> ph[0] == Idle
  {
    ph' := ph;
    if Pending(s, i, kind) == 0 {
      ph' := ph[i := Finished(i)];
      RaiseGood(t, s, kind, ph, i);
      LogRaised(t, s, kind, ph, s.Of(kind).raised[from..], i);
      var r := Raised(t, s, i, kind);
      assert r.Of(kind).raised[from..] == s.Of(kind).raised[from..] + [i];
      forall j | 0 <= j < |ph| ensures Busy(t, r, kind, ph', j) {
        RaiseSeen(t, s, kind, i, j);
        assert j != i ==> Busy(t, s, kind, ph, j);
      }
    }
  }

  /** No task that was asked has finished. */
  lemma AskedLog(t: Tree, log: seq<nat>, ph: seq<Phase>, i: nat)
    requires t.Valid() && |ph| == |t.parent| && LogGood(t, log, ph) && i < |ph| && ph[i] == Requested
    requires forall k | 0 <= k < |t.children[i]| :: ph[t.children[i][k]] == Idle
    ensures LogGood(t, log, Asked(ph, i, t.children[i]))
  {
  }

  lemma AskedBusy(t: Tree, s: Tasks, kind: Kind, ph: seq<Phase>, i: nat, j: nat)
    requires t.Valid() && s.Valid(t) && |ph| == |t.parent| && i < |ph| && s.queues[i] != [] && j < |ph| && j != i
    requires Busy(t, s, kind, ph, j)
    ensures Busy(t, Requesting(t, s, i, kind), kind, Asked(ph, i, t.children[i]), j)
  {
    RequestSeen(t, s, i, kind, j);
  }

  lemma RequestInv(t: Tree, s: Tasks, kind: Kind, ph: seq<Phase>, from: nat, i: nat)
    requires t.Valid() && s.Valid(t) && Inv(t, s, kind, ph, from)
    requires i < |ph| && s.queues[i] != [] && s.queues[i][0] == Request(kind)
    ensures var ph' := Asked(ph, i, t.children[i]);
            && InvBut(t, Requesting(t, s, i, kind), kind, ph', from, i) && Left(ph') == Left(ph) - 1
            && (ph'[0] == Idle <==> ph[0] == Idle)
  {
    ChildOf(t, i, 0);
    RequestGood(t, s, kind, ph, i);
    SpreadEffect(t, Popped(s, i), i, kind, t.children[i]);
    assert NodeGood(t, s, kind, ph, i);
    AskedLog(t, s.Of(kind).raised[from..], ph, i);
    forall j | 0 <= j < |ph| && j != i
      ensures Busy(t, Requesting(t, s, i, kind), kind, Asked(ph, i, t.children[i]), j)
    {
      AskedBusy(t, s, kind, ph, i, j);
    }
  }

  lemma CompleteInv(t: Tree, s: Tasks, kind: Kind, ph: seq<Phase>, from: nat, i: nat) returns (ph': seq<Phase>)
    requires t.Valid() && s.Valid(t) && Inv(t, s, kind, ph, from)
    requires i < |ph| && s.queues[i] != [] && s.queues[i][0] == Complete(kind)
    ensures Pending(s, i, kind) > 0 && InvBut(t, Accounted(s, i, kind, Pending(s, i, kind) - 1), kind, ph', from, i)
    ensures Left(ph') == Left(ph) - 1 && (ph'[0] == Idle <==> ph[0] == Idle)
  {
    ph' := CompleteGood(t, s, kind, ph, i);
    var r := Accounted(s, i, kind, Pending(s, i, kind) - 1);
    forall j | 0 <= j < |ph| && j != i ensures Busy(t, r, kind, ph', j) {
      assert Busy(t, s, kind, ph, j);
    }
  }

  /** A message of this kind: one less is left, and none comes unexpectedly. */
  lemma StepInv(t: Tree, s: Tasks, kind: Kind, ph: seq<Phase>, from: nat, i: nat) returns (ph': seq<Phase>)
    requires t.Valid() && s.Valid(t) && Inv(t, s, kind, ph, from)
    requires i < |ph| && s.queues[i] != [] && s.queues[i][0].kind == kind
    ensures Inv(t, Step(t, s, i).0, kind, ph', from) && Step(t, s, i).1 && Left(ph') == Left(ph) - 1
    ensures ph'[0] == Idle <==> ph[0] == Idle
  {
    match s.queues[i][0]
    case Request(_) =>
      RequestInv(t, s, kind, ph, from, i);
      ph' := SettleInv(t, Requesting(t, s, i, kind), kind, Asked(ph, i, t.children[i]), from, i);
    case Complete(_) =>
      ph' := CompleteInv(t, s, kind, ph, from, i);
      ph' := SettleInv(t, Accounted(s, i, kind, Pending(s, i, kind) - 1), kind, ph', from, i);
  }

  // ----- the other kind of request -----

  /** Nothing of this kind changes. */
  ghost predicate Untouched(t: Tree, s: Tasks, r: Tasks, kind: Kind)
    requires s.Valid(t) && r.Valid(t)
  {
    && r.Of(kind) == s.Of(kind)
    && forall j | 0 <= j < |t.parent| :: SameMail(s.queues[j], r.queues[j], kind)
  }

  predicate SameMail(q: seq<Msg>, q': seq<Msg>, kind: Kind)
  {
    && multiset(q')[Request(kind)] == multiset(q)[Request(kind)]
    && multiset(q')[Complete(kind)] == multiset(q)[Complete(kind)]
  }

  lemma UntouchedInv(t: Tree, s: Tasks, r: Tasks, kind: Kind, ph: seq<Phase>, from: nat)
    requires t.Valid() && s.Valid(t) && r.Valid(t) && Inv(t, s, kind, ph, from) && Untouched(t, s, r, kind)
    ensures Inv(t, r, kind, ph, from)
  {
    forall j | 0 <= j < |ph| ensures NodeGood(t, r, kind, ph, j) && Busy(t, r, kind, ph, j) {
      assert NodeGood(t, s, kind, ph, j) && Busy(t, s, kind, ph, j) && SameMail(s.queues[j], r.queues[j], kind);
    }
  }

  lemma PopUntouched(t: Tree, s: Tasks, i: nat, kind: Kind)
    requires s.Valid(t) && i < |t.parent| && s.queues[i] != [] && s.queues[i][0].kind != kind
    ensures Untouched(t, s, Popped(s, i), kind)
  {
    PopCount(s.queues[i], Request(kind));
    PopCount(s.queues[i], Complete(kind));
  }

  lemma SpreadUntouched(t: Tree, s: Tasks, i: nat, other: Kind, kind: Kind)
    requires t.Valid() && s.Valid(t) && i < |t.parent| && other != kind
    ensures Untouched(t, s, Spread(t, s, i, other, t.children[i]), kind)
  {
    SpreadEffect(t, s, i, other, t.children[i]);
    var r := Spread(t, s, i, other, t.children[i]);
    forall j | 0 <= j < |t.parent| ensures SameMail(s.queues[j], r.queues[j], kind) {
      PushCount(s.queues[j], Request(other), Request(kind));
      PushCount(s.queues[j], Request(other), Complete(kind));
    }
  }

  lemma SettleUntouched(t: Tree, s: Tasks, i: nat, other: Kind, kind: Kind)
    requires t.Valid() && s.Valid(t) && i < |t.parent| && other != kind
    ensures Untouched(t, s, Settled(t, s, i, other), kind)
  {
  }

  lemma StepUntouched(t: Tree, s: Tasks, i: nat, kind: Kind)
    requires t.Valid() && s.Valid(t) && i < |t.parent| && s.queues[i] != [] && s.queues[i][0].kind != kind
    ensures Untouched(t, s, Step(t, s, i).0, kind)
  {
    var p, other := Popped(s, i), s.queues[i][0].kind;
    PopUntouched(t, s, i, kind);
    match s.queues[i][0]
    case Request(_) =>
      SpreadUntouched(t, p, i, other, kind);
      var r := Spread(t, p, i, other, t.children[i]);
      SettleUntouched(t, r, i, other, kind);
      UntouchedTwice(t, s, p, r, kind);
      UntouchedTwice(t, s, r, Settled(t, r, i, other), kind);
    case Complete(_) =>
      if Pending(p, i, other) > 0 {
        var r := Counted(p, i, other, Pending(p, i, other) - 1);
        assert Untouched(t, p, r, kind);
        SettleUntouched(t, r, i, other, kind);
        UntouchedTwice(t, s, p, r, kind);
        UntouchedTwice(t, s, r, Settled(t, r, i, other), kind);
      }
  }

  lemma UntouchedTwice(t: Tree, s: Tasks, p: Tasks, r: Tasks, kind: Kind)
    requires s.Valid(t) && p.Valid(t) && r.Valid(t) && Untouched(t, s, p, kind) && Untouched(t, p, r, kind)
    ensures Untouched(t, s, r, kind)
  {
    forall j | 0 <= j < |t.parent| ensures SameMail(s.queues[j], r.queues[j], kind) {
      assert SameMail(s.queues[j], p.queues[j], kind) && SameMail(p.queues[j], r.queues[j], kind);
    }
  }

  // ----- whole runs -----

  /** The tasks take their messages in the order of the schedule. */
  predicate Possible(t: Tree, s: Tasks, schedule: seq<nat>)
    requires t.Valid() && s.Valid(t)
    decreases |schedule|
  {
    schedule == [] ||
    (schedule[0] < |t.parent| && s.queues[schedule[0]] != [] && Possible(t, Step(t, s, schedule[0]).0, schedule[1..]))
  }

  function After(t: Tree, s: Tasks, schedule: seq<nat>): (r: Tasks)
    requires t.Valid() && s.Valid(t) && Possible(t, s, schedule)
    ensures r.Valid(t)
    decreases |schedule|
  {
    if schedule == [] then s else After(t, Step(t, s, schedule[0]).0, schedule[1..])
  }

  /** No completion arrives at a task with nothing pending. */
  predicate NoError(t: Tree, s: Tasks, schedule: seq<nat>)
    requires t.Valid() && s.Valid(t) && Possible(t, s, schedule)
    decreases |schedule|
  {
    schedule == [] || (Step(t, s, schedule[0]).1 && NoError(t, Step(t, s, schedule[0]).0, schedule[1..]))
  }

  datatype View = View(ph: seq<Phase>, from: nat)

  ghost predicate BothInv(t: Tree, s: Tasks, off: View, on: View)
    requires t.Valid() && s.Valid(t)
  {
    Inv(t, s, TakeOffline, off.ph, off.from) && Inv(t, s, BringOnline, on.ph, on.from)
  }

  lemma StepBoth(t: Tree, s: Tasks, off: View, on: View, i: nat) returns (off': View, on': View)
    requires t.Valid() && s.Valid(t) && BothInv(t, s, off, on) && i < |t.parent| && s.queues[i] != []
    ensures BothInv(t, Step(t, s, i).0, off', on') && Step(t, s, i).1
    ensures Left(off'.ph) + Left(on'.ph) == Left(off.ph) + Left(on.ph) - 1
    ensures off'.from == off.from && on'.from == on.from
    ensures (off'.ph[0] == Idle <==> off.ph[0] == Idle) && (on'.ph[0] == Idle <==> on.ph[0] == Idle)
  {
    off', on' := off, on;
    if s.queues[i][0].kind == TakeOffline {
      var ph := StepInv(t, s, TakeOffline, off.ph, off.from, i);
      off' := View(ph, off.from);
      StepUntouched(t, s, i, BringOnline);
      UntouchedInv(t, s, Step(t, s, i).0, BringOnline, on.ph, on.from);
    } else {
      var ph := StepInv(t, s, BringOnline, on.ph, on.from, i);
      on' := View(ph, on.from);
      StepUntouched(t, s, i, TakeOffline);
      UntouchedInv(t, s, Step(t, s, i).0, TakeOffline, off.ph, off.from);
    }
  }

  lemma {:induction false} RunBoth(t: Tree, s: Tasks, off: View, on: View, schedule: seq<nat>)
    returns (off': View, on': View)
    requires t.Valid() && s.Valid(t) && BothInv(t, s, off, on) && Possible(t, s, schedule)
    ensures BothInv(t, After(t, s, schedule), off', on') && NoError(t, s, schedule)
    ensures Left(off'.ph) + Left(on'.ph) + |schedule| == Left(off.ph) + Left(on.ph)
    ensures off'.from == off.from && on'.from == on.from
    ensures (off'.ph[0] == Idle <==> off.ph[0] == Idle) && (on'.ph[0] == Idle <==> on.ph[0] == Idle)
    decreases |schedule|
  {
    off', on' := off, on;
    if schedule != [] {
      off', on' := StepBoth(t, s, off, on, schedule[0]);
      off', on' := RunBoth(t, Step(t, s, schedule[0]).0, off', on', schedule[1..]);
    }
  }

  // ----- what is left to do -----

  /** While messages are left one can be handled. */
  lemma {:induction false} FindWork(t: Tree, s: Tasks, kind: Kind, ph: seq<Phase>, from: nat, i: nat) returns (j: nat)
    requires t.Valid() && s.Valid(t) && Inv(t, s, kind, ph, from) && i < |ph|
    requires (ph[i] == Requested || ph[i] == Waiting)
    ensures j < |t.parent| && s.queues[j] != []
    decreases |ph| - i
  {
    assert NodeGood(t, s, kind, ph, i) && Busy(t, s, kind, ph, i);
    j := i;
    if ph[i] == Waiting {
      var cs := t.children[i];
      TallyExtremes(ph, cs, Done);
      TallyExtremes(ph, cs, Completed);
      var k :| 0 <= k < |cs| && ph[cs[k]] != Done;
      if ph[cs[k]] != Completed {
        j := FindWork(t, s, kind, ph, from, cs[k]);
      }
    }
  }

  lemma {:induction false} SumZero(ph: seq<Phase>, k: nat, i: nat)
    requires i < k <= |ph| && Sum(ph, k) == 0
    ensures Weight(i, ph[i]) == 0
  {
    if i < k - 1 {
      SumZero(ph, k - 1, i);
    }
  }

  /** When nothing is left the tasks are all done, if the root was asked, or all untouched. */
  lemma NothingLeft(t: Tree, s: Tasks, kind: Kind, ph: seq<Phase>, from: nat)
    requires t.Valid() && s.Valid(t) && Inv(t, s, kind, ph, from) && Left(ph) == 0
    ensures forall i | 0 <= i < |ph| :: ph[i] == if ph[0] == Idle then Idle else Done
  {
    forall i | 0 <= i < |ph| ensures ph[i] == if ph[0] == Idle then Idle else Done {
      if ph[0] == Idle {
        if ph[i] != Idle {
          RootAwake(t, s, kind, ph, i);
        }
      } else {
        SumZero(ph, |ph|, i);
        if ph[i] != Done {
          RootWaits(t, s, kind, ph, from);
        }
      }
    }
  }

  lemma RootWaits(t: Tree, s: Tasks, kind: Kind, ph: seq<Phase>, from: nat)
    requires t.Valid() && s.Valid(t) && Inv(t, s, kind, ph, from) && ph[0] == Waiting
    ensures Sum(ph, |ph|) > 0
  {
    var cs := t.children[0];
    assert NodeGood(t, s, kind, ph, 0) && Busy(t, s, kind, ph, 0);
    TallyExtremes(ph, cs, Done);
    var k :| 0 <= k < |cs| && ph[cs[k]] != Done;
    if Sum(ph, |ph|) == 0 {
      SumZero(ph, |ph|, cs[k]);
    }
  }

  lemma NoMail(t: Tree, s: Tasks, kind: Kind, ph: seq<Phase>, from: nat, i: nat)
    requires t.Valid() && s.Valid(t) && Inv(t, s, kind, ph, from) && Left(ph) == 0 && i < |ph|
    ensures Request(kind) !in s.queues[i] && Complete(kind) !in s.queues[i] && Pending(s, i, kind) == 0
  {
    NothingLeft(t, s, kind, ph, from);
    assert NodeGood(t, s, kind, ph, i);
    TallyExtremes(ph, t.children[i], Completed);
  }

  lemma SomeLeft(t: Tree, s: Tasks, kind: Kind, ph: seq<Phase>, from: nat)
    requires t.Valid() && s.Valid(t) && Inv(t, s, kind, ph, from) && Left(ph) > 0
    ensures exists j :: 0 <= j < |t.parent| && s.queues[j] != []
  {
    if ph[0] == Done {
      forall i | 0 <= i < |ph| ensures Weight(i, ph[i]) == 0 {
        AllDone(t, s, kind, ph, i);
      }
      SumAllZero(ph, |ph|);
    } else {
      var j := FindWork(t, s, kind, ph, from, 0);
    }
  }

  lemma {:induction false} SumAllZero(ph: seq<Phase>, k: nat)
    requires k <= |ph| && forall i | 0 <= i < k :: Weight(i, ph[i]) == 0
    ensures Sum(ph, k) == 0
  {
    if k > 0 {
      SumAllZero(ph, k - 1);
    }
  }

  predicate Ended(s: Tasks) { forall i | 0 <= i < |s.queues| :: s.queues[i] == [] }

  lemma KnownMessage(m: Msg)
    ensures m.kind == TakeOffline || m.kind == BringOnline
    ensures m == Request(m.kind) || m == Complete(m.kind)
  {
  }

  lemma EndedIff(t: Tree, s: Tasks, off: View, on: View)
    requires t.Valid() && s.Valid(t) && BothInv(t, s, off, on)
    ensures Ended(s) <==> Left(off.ph) + Left(on.ph) == 0
  {
    if Left(off.ph) > 0 {
      SomeLeft(t, s, TakeOffline, off.ph, off.from);
    } else if Left(on.ph) > 0 {
      SomeLeft(t, s, BringOnline, on.ph, on.from);
    } else {
      forall i | 0 <= i < |s.queues| ensures s.queues[i] == [] {
        NoMail(t, s, TakeOffline, off.ph, off.from, i);
        NoMail(t, s, BringOnline, on.ph, on.from, i);
        if s.queues[i] != [] {
          KnownMessage(s.queues[i][0]);
        }
      }
    }
  }

  // ----- what can be seen from outside -----

  /** The completions raised since the start. */
  function Since(s: Tasks, r: Tasks, kind: Kind): seq<nat>
  {
    if |s.Of(kind).raised| <= |r.Of(kind).raised| then r.Of(kind).raised[|s.Of(kind).raised|..] else []
  }

  function Unraised(cs: seq<nat>, log: seq<nat>): nat
  {
    if cs == [] then 0 else (if cs[0] in log then 0 else 1) + Unraised(cs[1..], log)
  }

  lemma {:induction false} UnraisedTally(t: Tree, ph: seq<Phase>, log: seq<nat>, cs: seq<nat>)
    requires t.Valid() && |ph| == |t.parent| && LogGood(t, log, ph) && Within(cs, |ph|)
    ensures Unraised(cs, log) + Tally(ph, cs, Completed) + Tally(ph, cs, Done) == |cs|
  {
    if cs != [] {
      UnraisedTally(t, ph, log, cs[1..]);
    }
  }

  /** The request has reached task `c`: it waits in its queue, is being handled, or
      the task has raised its completion. */
  predicate Reached(t: Tree, r: Tasks, kind: Kind, log: seq<nat>, c: nat)
    requires t.Valid() && r.Valid(t) && c < |t.parent|
  {
    Request(kind) in r.queues[c] || Pending(r, c, kind) > 0 || c in log
  }

  /** The counter of a task is the number of its children still outstanding, not
      raised yet or raised with the message waiting in its queue, as soon as the
      request has reached a child, and zero before. */
  predicate CountsOutstanding(t: Tree, r: Tasks, kind: Kind, log: seq<nat>, i: nat)
    requires t.Valid() && r.Valid(t) && i < |t.parent|
  {
    var cs, waiting := t.children[i], multiset(r.queues[i])[Complete(kind)];
    Pending(r, i, kind) ==
      if exists k | 0 <= k < |cs| :: Reached(t, r, kind, log, cs[k]) then Unraised(cs, log) + waiting else 0
  }

  lemma ReachedIff(t: Tree, s: Tasks, kind: Kind, ph: seq<Phase>, from: nat, c: nat)
    requires t.Valid() && s.Valid(t) && Inv(t, s, kind, ph, from) && c < |ph|
    ensures Reached(t, s, kind, s.Of(kind).raised[from..], c) <==> ph[c] != Idle
  {
    assert NodeGood(t, s, kind, ph, c) && Busy(t, s, kind, ph, c);
  }

  lemma InvCounts(t: Tree, s: Tasks, kind: Kind, ph: seq<Phase>, from: nat, i: nat)
    requires t.Valid() && s.Valid(t) && Inv(t, s, kind, ph, from) && i < |ph|
    ensures CountsOutstanding(t, s, kind, s.Of(kind).raised[from..], i)
  {
    var cs := t.children[i];
    assert NodeGood(t, s, kind, ph, i);
    UnraisedTally(t, ph, s.Of(kind).raised[from..], cs);
    TallyExtremes(ph, cs, Completed);
    TallyExtremes(ph, cs, Done);
    forall k | 0 <= k < |cs|
      ensures Reached(t, s, kind, s.Of(kind).raised[from..], cs[k]) <==> ph[cs[k]] != Idle
    {
      ReachedIff(t, s, kind, ph, from, cs[k]);
    }
    if |cs| > 0 {
      assert Reached(t, s, kind, s.Of(kind).raised[from..], cs[0]) <==> ph[cs[0]] != Idle;
    }
  }

  /** No completion twice, none before those of the children, the root's last. */
  predicate OrderlyLog(t: Tree, log: seq<nat>)
  {
    Within(log, |t.parent|) && Distinct(log) && ChildrenFirst(t, log) && RootLast(log)
  }

  // ----- the theorem -----

  predicate Quiet(t: Tree, s: Tasks)
    requires s.Valid(t)
  {
    Ended(s) && forall i, kind | 0 <= i < |t.parent| :: Pending(s, i, kind) == 0
  }

  /** A single request, or one of each kind in either order. */
  predicate AreRequests(ms: seq<Msg>)
  {
    && 1 <= |ms| <= 2 && (forall k | 0 <= k < |ms| :: ms[k].Request?)
    && (|ms| == 2 ==> ms[0].kind != ms[1].kind)
  }

  function Sent(t: Tree, s: Tasks, ms: seq<Msg>): (r: Tasks)
    requires t.Valid() && s.Valid(t)
    ensures r.Valid(t)
  {
    s.(queues := s.queues[0 := ms])
  }

  function Begun(n: nat, asked: bool): (ph: seq<Phase>)
    requires n > 0
    ensures |ph| == n && forall i | 0 <= i < n :: ph[i] == if i == 0 && asked then Requested else Idle
  {
    seq(n, _ => Idle)[0 := if asked then Requested else Idle]
  }

  lemma {:induction false} BegunSum(n: nat, k: nat)
    requires 0 < k <= n
    ensures Sum(Begun(n, true), k) == 2 * k - 1
  {
    if k > 1 {
      BegunSum(n, k - 1);
    }
  }

  lemma SentMail(ms: seq<Msg>, kind: Kind)
    requires AreRequests(ms)
    ensures multiset(ms)[Request(kind)] == (if Request(kind) in ms then 1 else 0) && multiset(ms)[Complete(kind)] == 0
    ensures |ms| == (if Request(TakeOffline) in ms then 1 else 0) + (if Request(BringOnline) in ms then 1 else 0)
  {
    KnownMessage(ms[0]);
    if |ms| == 1 {
      assert ms == [ms[0]];
    } else {
      KnownMessage(ms[1]);
      assert ms == [ms[0], ms[1]];
      assert ms[0] in ms && ms[1] in ms;
    }
  }

  lemma SentInv(t: Tree, s: Tasks, ms: seq<Msg>, kind: Kind)
    requires t.Valid() && s.Valid(t) && Quiet(t, s) && AreRequests(ms)
    ensures Inv(t, Sent(t, s, ms), kind, Begun(|t.parent|, Request(kind) in ms), |s.Of(kind).raised|)
  {
    var ph, r := Begun(|t.parent|, Request(kind) in ms), Sent(t, s, ms);
    SentMail(ms, kind);
    forall i | 0 <= i < |ph| ensures NodeGood(t, r, kind, ph, i) {
      ChildOf(t, i, 0);
      TallyExtremes(ph, t.children[i], Completed);
      assert Pending(s, i, kind) == 0;
    }
    assert r.Of(kind).raised[|s.Of(kind).raised|..] == [];
  }

  /** What holds at any time, for one kind of request. */
  predicate Reported(t: Tree, s: Tasks, r: Tasks, kind: Kind)
    requires t.Valid() && r.Valid(t)
  {
    var log := Since(s, r, kind);
    OrderlyLog(t, log) && forall i | 0 <= i < |t.parent| :: CountsOutstanding(t, r, kind, log, i)
  }

  /** What holds at the end: exactly the tasks that were asked have completed. */
  predicate AllReported(t: Tree, s: Tasks, r: Tasks, kind: Kind, asked: bool)
    requires r.Valid(t)
  {
    forall i | 0 <= i < |t.parent| :: Pending(r, i, kind) == 0 && (i in Since(s, r, kind) <==> asked)
  }

  lemma InvReport(t: Tree, s: Tasks, r: Tasks, kind: Kind, ph: seq<Phase>, asked: bool)
    requires t.Valid() && r.Valid(t) && Inv(t, r, kind, ph, |s.Of(kind).raised|) && (ph[0] != Idle <==> asked)
    ensures Reported(t, s, r, kind) && (Left(ph) == 0 ==> AllReported(t, s, r, kind, asked))
  {
    var from := |s.Of(kind).raised|;
    forall i | 0 <= i < |t.parent| ensures CountsOutstanding(t, r, kind, Since(s, r, kind), i) {
      InvCounts(t, r, kind, ph, from, i);
    }
    if Left(ph) == 0 {
      NothingLeft(t, r, kind, ph, from);
      forall i | 0 <= i < |t.parent| ensures Pending(r, i, kind) == 0 {
        NoMail(t, r, kind, ph, from, i);
      }
    }
  }

  lemma BegunLeft(t: Tree, asked: bool)
    requires t.Valid()
    ensures Left(Begun(|t.parent|, asked)) == if asked then 2 * |t.parent| - 1 else 0
  {
    BegunSum(|t.parent|, |t.parent|);
  }

  /** For every tree, every schedule and one request of each kind at most: no
      completion is unexpected, the counters are the children outstanding, the
      completions come in order, and the messages end after 2n - 1 per request
      with every task completed. */
  lemma RequestsComplete(t: Tree, s: Tasks, ms: seq<Msg>, schedule: seq<nat>)
    requires t.Valid() && s.Valid(t) && Quiet(t, s) && AreRequests(ms) && Possible(t, Sent(t, s, ms), schedule)
    ensures NoError(t, Sent(t, s, ms), schedule)
    ensures var r := After(t, Sent(t, s, ms), schedule);
            && (forall kind :: Reported(t, s, r, kind))
            && |schedule| <= |ms| * (2 * |t.parent| - 1)
            && (Ended(r) <==> |schedule| == |ms| * (2 * |t.parent| - 1))
            && (Ended(r) ==> forall kind :: AllReported(t, s, r, kind, Request(kind) in ms))
  {
    var n, r0 := |t.parent|, Sent(t, s, ms);
    var asksOff, asksOn := Request(TakeOffline) in ms, Request(BringOnline) in ms;
    var off, on := View(Begun(n, asksOff), |s.off.raised|), View(Begun(n, asksOn), |s.on.raised|);
    SentInv(t, s, ms, TakeOffline);
    SentInv(t, s, ms, BringOnline);
    var off', on' := RunBoth(t, r0, off, on, schedule);
    var r := After(t, r0, schedule);
    EndedIff(t, r, off', on');
    BegunLeft(t, asksOff);
    BegunLeft(t, asksOn);
    InBoth(ms, 2 * n - 1);
    InvReport(t, s, r, TakeOffline, off'.ph, asksOff);
    InvReport(t, s, r, BringOnline, on'.ph, asksOn);
    EachKind(t, s, r, ms);
  }

  lemma InBoth(ms: seq<Msg>, each: nat)
    requires AreRequests(ms)
    ensures |ms| * each == (if Request(TakeOffline) in ms then each else 0)
                           + (if Request(BringOnline) in ms then each else 0)
  {
    SentMail(ms, TakeOffline);
  }

  lemma EachKind(t: Tree, s: Tasks, r: Tasks, ms: seq<Msg>)
    requires t.Valid() && r.Valid(t) && Reported(t, s, r, TakeOffline) && Reported(t, s, r, BringOnline)
    ensures forall kind :: Reported(t, s, r, kind)
    ensures && AllReported(t, s, r, TakeOffline, Request(TakeOffline) in ms)
            && AllReported(t, s, r, BringOnline, Request(BringOnline) in ms)
            ==> forall kind :: AllReported(t, s, r, kind, Request(kind) in ms)
  {
  }
}
