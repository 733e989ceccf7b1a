// Runs of a port: any operations of its users, in any order, and any completions of polls that were started.
module EpollRuns {
  import opened EpollPort

  datatype Op =
    | Add(key: int, events: bv32, s: nat, group: nat, found: bool, created: bool, memory: bool, answers: seq<Answer>)
    | Mod(key: int, events: bv32, answers: seq<Answer>)
    | Del(key: int, cancelled: bool)
    | Begin(answers: seq<Answer>)
    | End(completions: seq<(nat, Completion)>)

  /** New sockets and groups are new, a thread comes back only after it went, and the system completes, once each,
      polls that it was asked for. */
  predicate Possible(op: Op, socks: map<nat, Sock>, size: map<nat, nat>, activePolls: nat) {
    match op
    case Add(_, _, s, group, _, _, _, _) => s !in socks && group !in size
    case End(cs) =>
      && activePolls > 0
      && (forall i | 0 <= i < |cs| :: cs[i].0 in socks && !socks[cs[i].0].status.Idle?)
      && (forall i, j | 0 <= i < j < |cs| :: cs[i].0 != cs[j].0)
    case _ => true
  }

  function FedBy(op: Op): multiset<nat> {
    if op.End? then Fed(op.completions) else multiset{}
  }

  /** One operation, if it is possible. A poll is over only when its completion has been fed. */
  method Perform(p: Port, op: Op) returns (done: bool)
    requires p.Valid()
    modifies p
    ensures p.Valid() && done == old(Possible(op, p.socks, p.size, p.activePolls))
    ensures p.completed == old(p.completed) + if done then FedBy(op) else multiset{}
  {
    hide Port.Valid;
    done := Possible(op, p.socks, p.size, p.activePolls);
    if !done {
      return;
    }
    match op {
      case Add(key, events, s, group, found, created, memory, answers) =>
        var _ := p.CtlAdd(key, events, s, group, found, created, memory, answers);
      case Mod(key, events, answers) =>
        var _ := p.CtlMod(key, events, answers);
      case Del(key, cancelled) =>
        var _ := p.CtlDel(key, cancelled);
      case Begin(answers) =>
        var _ := p.PollBegin(answers);
      case End(completions) =>
        Busy(p);
        var _ := p.PollEnd(completions);
    }
  }

  lemma Busy(p: Port)
    requires p.Valid()
    ensures forall s | s in p.socks && !p.socks[s].status.Idle? :: s in p.outstanding
  {
  }

  /** A run from a new port, without the operations that are not possible: what was fed to it. */
  method Run(ops: seq<Op>) returns (p: Port, fed: multiset<nat>)
    ensures fresh(p) && p.Valid() && p.completed == fed
    ensures PollsSafe(p) && WantedWatched(p) && QueuesApart(p) && GroupsInOrder(p)
  {
    hide Port.Valid, PollsSafe, WantedWatched, QueuesApart, GroupsInOrder;
    p := new Port();
    fed := multiset{};
    for i := 0 to |ops|
      invariant fresh(p) && p.Valid() && p.completed == fed
    {
      var done := Perform(p, ops[i]);
      fed := fed + if done then FedBy(ops[i]) else multiset{};
    }
    Safe(p);
  }

  /** A poll that was started and is not over belongs to a socket that still exists. */
  ghost predicate PollsSafe(p: Port)
    reads p
  {
    forall s :: p.completed[s] <= p.started[s] <= p.completed[s] + 1 && (p.started[s] > p.completed[s] ==> s in p.socks)
  }

  /** The system watches for all that is wanted with the outstanding poll, or the socket is queued for an update, or its
      poll was cancelled and is still to complete. */
  ghost predicate WantedWatched(p: Port)
    reads p
  {
    forall s | s in p.socks && !p.socks[s].deletePending ::
      var v := p.socks[s];
      (v.status.Pending? && s in p.outstanding && Watched(v)) || s in p.updateQueue
      || (v.status.Cancelled? && s in p.outstanding)
  }

  ghost predicate QueuesApart(p: Port)
    reads p
  {
    (forall s | s in p.updateQueue :: s !in p.deletedQueue) && NoDup(p.updateQueue) && NoDup(p.deletedQueue)
  }

  /** Full groups come before all others, and the sizes add up to the number of sockets. */
  ghost predicate GroupsInOrder(p: Port)
    reads p
  {
    && (forall g :: g in p.groups <==> g in p.size)
    && (forall i, j | 0 <= i < j < |p.groups| && p.size[p.groups[j]] == MAX_GROUP_SIZE :: p.size[p.groups[i]] == MAX_GROUP_SIZE)
    && |p.socks| == SumSizes(p.groups, p.size)
  }

  lemma Safe(p: Port)
    requires p.Valid()
    ensures PollsSafe(p) && WantedWatched(p) && QueuesApart(p) && GroupsInOrder(p)
  {
    AllInGroups(p.socks, p.groups, p.size);
    FullOnesFirst(p.groups, p.size);
    forall s | s in p.socks && !p.socks[s].deletePending && s !in p.updateQueue && p.socks[s].status.Pending?
      ensures Watched(p.socks[s])
    {
      CoveredWatched(p.socks[s]);
    }
  }

  lemma {:induction false} FullOnesFirst(q: seq<nat>, size: map<nat, nat>)
    requires (forall g | g in q :: g in size) && FullFirst(q, size)
    ensures forall i, j | 0 <= i < j < |q| && size[q[j]] == MAX_GROUP_SIZE :: size[q[i]] == MAX_GROUP_SIZE
  {
    if q != [] {
      FullOnesFirst(q[1..], size);
      forall i, j | 0 <= i < j < |q| && size[q[j]] == MAX_GROUP_SIZE ensures size[q[i]] == MAX_GROUP_SIZE {
        assert q[j] == q[1..][j - 1] && q[j] in q;
        if i > 0 { assert q[i] == q[1..][i - 1]; }
      }
    }
  }
}
