/** A tree of message-driven tasks: requests to go offline or online spread down
    the tree, completions are counted back up. A task handles one message of its
    queue at a time. */
module TaskTree {

  datatype Kind = TakeOffline | BringOnline

  datatype Msg = Request(kind: Kind) | Complete(kind: Kind)

  predicate Distinct(s: seq<nat>) { forall i, j | 0 <= i < j < |s| :: s[i] != s[j] }

  /** Task 0 is the root; a parent has a smaller number than its children. */
  datatype Tree = Tree(parent: seq<nat>, children: seq<seq<nat>>)
  {
    predicate Valid()
    {
      && 0 < |parent| == |children|
      && (forall c | 0 < c < |parent| :: parent[c] < c && c in children[parent[c]])
      && (forall i, k | 0 <= i < |children| && 0 <= k < |children[i]| ::
            0 < children[i][k] < |parent| && parent[children[i][k]] == i)
      && (forall i | 0 <= i < |children| :: Distinct(children[i]))
    }
  }

  /** For one kind of request, the pending counters and the tasks whose completion was raised. */
  datatype Side = Side(pending: seq<nat>, raised: seq<nat>)

  datatype Tasks = Tasks(queues: seq<seq<Msg>>, off: Side, on: Side)
  {
    predicate Valid(t: Tree) { |queues| == |off.pending| == |on.pending| == |t.parent| }

    function Of(kind: Kind): Side { if kind == TakeOffline then off else on }

    function With(kind: Kind, side: Side): (s: Tasks)
      ensures s.Of(kind) == side && s.queues == queues
      ensures forall k | k != kind :: s.Of(k) == Of(k)
    {
      if kind == TakeOffline then this.(off := side) else this.(on := side)
    }
  }

  // ----- handling one message -----

  function Signalled(s: Tasks, i: nat, m: Msg): Tasks
    requires i < |s.queues|
  {
    s.(queues := s.queues[i := s.queues[i] + [m]])
  }

  function Pending(s: Tasks, i: nat, kind: Kind): nat
    requires i < |s.Of(kind).pending|
  {
    s.Of(kind).pending[i]
  }

  function Counted(s: Tasks, i: nat, kind: Kind, pending: nat): Tasks
    requires i < |s.Of(kind).pending|
  {
    s.With(kind, s.Of(kind).(pending := s.Of(kind).pending[i := pending]))
  }

  /** The request goes to each child, which is counted as pending. */
  function Spread(t: Tree, s: Tasks, i: nat, kind: Kind, children: seq<nat>): (r: Tasks)
    requires s.Valid(t) && i < |t.parent| && forall k | 0 <= k < |children| :: children[k] < |t.parent|
    ensures r.Valid(t)
    decreases |children|
  {
    if children == [] then s
    else
      Spread(t, Counted(Signalled(s, children[0], Request(kind)), i, kind, Pending(s, i, kind) + 1),
             i, kind, children[1..])
  }

  function Raised(t: Tree, s: Tasks, i: nat, kind: Kind): (r: Tasks)
    requires t.Valid() && s.Valid(t) && i < |t.parent|
    ensures r.Valid(t)
  {
    var s := s.With(kind, s.Of(kind).(raised := s.Of(kind).raised + [i]));
    if i == 0 then s else Signalled(s, t.parent[i], Complete(kind))
  }

  /** With nothing pending the completion is raised. */
  function Settled(t: Tree, s: Tasks, i: nat, kind: Kind): (r: Tasks)
    requires t.Valid() && s.Valid(t) && i < |t.parent|
    ensures r.Valid(t)
  {
    if Pending(s, i, kind) == 0 then Raised(t, s, i, kind) else s
  }

  /** The result is false if a completion arrives that nothing is pending for. */
  function Handled(t: Tree, s: Tasks, i: nat, m: Msg): (r: (Tasks, bool))
    requires t.Valid() && s.Valid(t) && i < |t.parent|
    ensures r.0.Valid(t)
  {
    match m
    case Request(kind) => (Settled(t, Spread(t, s, i, kind, t.children[i]), i, kind), true)
    case Complete(kind) =>
      if Pending(s, i, kind) == 0 then (s, false)
      else (Settled(t, Counted(s, i, kind, Pending(s, i, kind) - 1), i, kind), true)
  }

  function Popped(s: Tasks, i: nat): Tasks
    requires i < |s.queues| && s.queues[i] != []
  {
    s.(queues := s.queues[i := s.queues[i][1..]])
  }

  /** Task `i` takes the next message of its queue. */
  function Step(t: Tree, s: Tasks, i: nat): (r: (Tasks, bool))
    requires t.Valid() && s.Valid(t) && i < |t.parent| && s.queues[i] != []
    ensures r.0.Valid(t)
  {
    Handled(t, Popped(s, i), i, s.queues[i][0])
  }

  // ----- the tasks as objects -----

  lemma SpreadStep(t: Tree, s: Tasks, i: nat, kind: Kind, k: nat)
    requires t.Valid() && s.Valid(t) && i < |t.parent| && k < |t.children[i]|
    ensures var s' := Counted(Signalled(s, t.children[i][k], Request(kind)), i, kind, Pending(s, i, kind) + 1);
            Spread(t, s, i, kind, t.children[i][k..]) == Spread(t, s', i, kind, t.children[i][k + 1..])
  {
    assert t.children[i][k..][1..] == t.children[i][k + 1..];
  }

  class TaskSystem {
    const tree: Tree
    var queues: seq<seq<Msg>>
    var pendingOff: seq<nat>
    var pendingOn: seq<nat>
    var raisedOff: seq<nat>
    var raisedOn: seq<nat>

    function State(): Tasks
      reads this
    {
      Tasks(queues, Side(pendingOff, raisedOff), Side(pendingOn, raisedOn))
    }

    ghost predicate Valid()
      reads this
    {
      tree.Valid() && State().Valid(tree)
    }

    constructor (tree: Tree)
      requires tree.Valid()
      ensures this.tree == tree && Valid() && State() == Resting(tree)
    {
      this.tree := tree;
      queues := seq(|tree.parent|, _ => []);
      pendingOff, pendingOn := seq(|tree.parent|, _ => 0), seq(|tree.parent|, _ => 0);
      raisedOff, raisedOn := [], [];
    }

    method MsgSignal(i: nat, m: Msg)
      requires Valid() && i < |tree.parent|
      modifies this`queues
      ensures Valid() && State() == Signalled(old(State()), i, m)
    {
      queues := queues[i := queues[i] + [m]];
    }

    method PendingSet(i: nat, kind: Kind, pending: nat)
      requires Valid() && i < |tree.parent|
      modifies this`pendingOff, this`pendingOn
      ensures Valid() && State() == Counted(old(State()), i, kind, pending)
    {
      if kind == TakeOffline {
        pendingOff := pendingOff[i := pending];
      } else {
        pendingOn := pendingOn[i := pending];
      }
    }

    method CompleteRaise(i: nat, kind: Kind)
      requires Valid() && i < |tree.parent|
      modifies this
      ensures Valid() && State() == Raised(tree, old(State()), i, kind)
    {
      if kind == TakeOffline {
        raisedOff := raisedOff + [i];
      } else {
        raisedOn := raisedOn + [i];
      }
      if i != 0 {
        MsgSignal(tree.parent[i], Complete(kind));
      }
    }

    method ChildRequest(i: nat, kind: Kind, k: nat)
      requires Valid() && i < |tree.parent| && k < |tree.children[i]|
      modifies this
      ensures Valid()
      ensures Spread(tree, State(), i, kind, tree.children[i][k + 1..])
           == Spread(tree, old(State()), i, kind, tree.children[i][k..])
    {
      SpreadStep(tree, State(), i, kind, k);
      MsgSignal(tree.children[i][k], Request(kind));
      PendingSet(i, kind, Pending(State(), i, kind) + 1);
    }

    method RequestProcess(i: nat, kind: Kind)
      requires Valid() && i < |tree.parent|
      modifies this
      ensures Valid() && State() == Settled(tree, Spread(tree, old(State()), i, kind, tree.children[i]), i, kind)
    {
      ghost var spread := Spread(tree, State(), i, kind, tree.children[i]);
      var k := 0;
      while k < |tree.children[i]|
        invariant k <= |tree.children[i]| && Valid()
        invariant Spread(tree, State(), i, kind, tree.children[i][k..]) == spread
      {
        ChildRequest(i, kind, k);
        k := k + 1;
      }
      if Pending(State(), i, kind) == 0 {
        CompleteRaise(i, kind);
      }
    }

    method RequestComplete(i: nat, kind: Kind) returns (ok: bool)
      requires Valid() && i < |tree.parent|
      modifies this
      ensures Valid() && (State(), ok) == Handled(tree, old(State()), i, Complete(kind))
    {
      var pending := Pending(State(), i, kind);
      if pending == 0 {
        return false;
      }
      PendingSet(i, kind, pending - 1);
      if pending - 1 == 0 {
        CompleteRaise(i, kind);
      }
      ok := true;
    }

    /** One turn of the loop of task `i`. */
    method MsgProcess(i: nat) returns (ok: bool)
      requires Valid() && i < |tree.parent| && queues[i] != []
      modifies this
      ensures Valid() && (State(), ok) == Step(tree, old(State()), i)
    {
      var m := queues[i][0];
      queues := queues[i := queues[i][1..]];
      match m
      case Request(kind) =>
        RequestProcess(i, kind);
        ok := true;
      case Complete(kind) =>
        ok := RequestComplete(i, kind);
    }
  }

  function Resting(t: Tree): Tasks
  {
    var none := Side(seq(|t.parent|, _ => 0), []);
    Tasks(seq(|t.parent|, _ => []), none, none)
  }
}
