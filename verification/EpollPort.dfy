// The epoll emulation of wepoll: which events of which sockets are polled, which sockets wait for an update
// of their poll, and when a socket may be freed. Every operation runs under the lock of the port.
module EpollPort {
  const EPOLLIN: bv32 := 0x1
  const EPOLLPRI: bv32 := 0x2
  const EPOLLOUT: bv32 := 0x4
  const EPOLLERR: bv32 := 0x8
  const EPOLLHUP: bv32 := 0x10
  const EPOLLRDNORM: bv32 := 0x40
  const EPOLLRDBAND: bv32 := 0x80
  const EPOLLWRNORM: bv32 := 0x100
  const EPOLLWRBAND: bv32 := 0x200
  const EPOLLMSG: bv32 := 0x400
  const EPOLLRDHUP: bv32 := 0x2000
  const EPOLLONESHOT: bv32 := 0x8000_0000

  /** SOCK__KNOWN_EPOLL_EVENTS */
  const KNOWN: bv32 := 0x27DF

  const AFD_RECEIVE: bv32 := 0x1
  const AFD_RECEIVE_EXPEDITED: bv32 := 0x2
  const AFD_SEND: bv32 := 0x4
  const AFD_DISCONNECT: bv32 := 0x8
  const AFD_ABORT: bv32 := 0x10
  const AFD_LOCAL_CLOSE: bv32 := 0x20
  const AFD_ACCEPT: bv32 := 0x80
  const AFD_CONNECT_FAIL: bv32 := 0x100

  function If(b: bool, events: bv32): bv32 {
    if b then events else 0
  }

  /** 'sock__epoll_events_to_afd_events' */
  function EpollToAfd(e: bv32): bv32 {
    AFD_LOCAL_CLOSE
    | If(e & (EPOLLIN | EPOLLRDNORM) != 0, AFD_RECEIVE | AFD_ACCEPT)
    | If(e & (EPOLLPRI | EPOLLRDBAND) != 0, AFD_RECEIVE_EXPEDITED)
    | If(e & (EPOLLOUT | EPOLLWRNORM | EPOLLWRBAND) != 0, AFD_SEND)
    | If(e & (EPOLLIN | EPOLLRDNORM | EPOLLRDHUP) != 0, AFD_DISCONNECT)
    | If(e & EPOLLHUP != 0, AFD_ABORT)
    | If(e & EPOLLERR != 0, AFD_CONNECT_FAIL)
  }

  /** 'sock__afd_events_to_epoll_events' */
  function AfdToEpoll(a: bv32): bv32 {
    If(a & (AFD_RECEIVE | AFD_ACCEPT) != 0, EPOLLIN | EPOLLRDNORM)
    | If(a & AFD_RECEIVE_EXPEDITED != 0, EPOLLPRI | EPOLLRDBAND)
    | If(a & AFD_SEND != 0, EPOLLOUT | EPOLLWRNORM | EPOLLWRBAND)
    | If(a & AFD_DISCONNECT != 0, EPOLLIN | EPOLLRDNORM | EPOLLRDHUP)
    | If(a & AFD_ABORT != 0, EPOLLHUP)
    | If(a & AFD_CONNECT_FAIL != 0, EPOLLIN | EPOLLOUT | EPOLLERR | EPOLLRDNORM | EPOLLWRNORM | EPOLLRDHUP)
  }

  /** A poll for e can report exactly the known events of e, but for EPOLLMSG, and always the closing of the
      socket. */
  lemma EventsCovered(e: bv32)
    ensures AfdToEpoll(EpollToAfd(e)) & e == e & KNOWN & !EPOLLMSG
    ensures EpollToAfd(e) & AFD_LOCAL_CLOSE != 0
  {
  }

  predicate IsEvent(x: bv32) {
    x == EPOLLIN || x == EPOLLPRI || x == EPOLLOUT || x == EPOLLERR || x == EPOLLHUP || x == EPOLLRDNORM
    || x == EPOLLRDBAND || x == EPOLLWRNORM || x == EPOLLWRBAND || x == EPOLLMSG || x == EPOLLRDHUP
  }

  /** A poll for several events watches for what any of them does. */
  lemma PolledTogether(e: bv32, e': bv32)
    ensures EpollToAfd(e | e') == EpollToAfd(e) | EpollToAfd(e')
  {
    EitherHas(e, e', EPOLLIN | EPOLLRDNORM);
    EitherHas(e, e', EPOLLPRI | EPOLLRDBAND);
    EitherHas(e, e', EPOLLOUT | EPOLLWRNORM | EPOLLWRBAND);
    EitherHas(e, e', EPOLLIN | EPOLLRDNORM | EPOLLRDHUP);
    EitherHas(e, e', EPOLLHUP);
    EitherHas(e, e', EPOLLERR);
  }

  lemma EitherHas(e: bv32, e': bv32, m: bv32)
    ensures (e | e') & m != 0 <==> e & m != 0 || e' & m != 0
  {
  }

  /** What a poll for each single event watches for. */
  lemma PolledExactly(e: bv32)
    ensures EpollToAfd(EPOLLIN) == EpollToAfd(EPOLLRDNORM) == AFD_LOCAL_CLOSE | AFD_RECEIVE | AFD_ACCEPT | AFD_DISCONNECT
    ensures EpollToAfd(EPOLLOUT) == EpollToAfd(EPOLLWRNORM) == EpollToAfd(EPOLLWRBAND) == AFD_LOCAL_CLOSE | AFD_SEND
    ensures EpollToAfd(EPOLLPRI) == EpollToAfd(EPOLLRDBAND) == AFD_LOCAL_CLOSE | AFD_RECEIVE_EXPEDITED
    ensures EpollToAfd(EPOLLRDHUP) == AFD_LOCAL_CLOSE | AFD_DISCONNECT
    ensures EpollToAfd(EPOLLHUP) == AFD_LOCAL_CLOSE | AFD_ABORT
    ensures EpollToAfd(EPOLLERR) == AFD_LOCAL_CLOSE | AFD_CONNECT_FAIL
    ensures e & KNOWN & !EPOLLMSG == 0 ==> EpollToAfd(e) == AFD_LOCAL_CLOSE
  {
  }

  // Linux reports all these after a failed connect.
  const AFTER_FAILED_CONNECT: bv32 := 0x214D

  /** An event is reported exactly when something occurred that a poll for this event alone watches for, apart from
      those that go with a failed connect; and only known events are. */
  lemma ReportedExactly(a: bv32, x: bv32)
    requires IsEvent(x)
    ensures AfdToEpoll(a) & x != 0 <==>
      EpollToAfd(x) & a & !AFD_LOCAL_CLOSE != 0 || (a & AFD_CONNECT_FAIL != 0 && x & AFTER_FAILED_CONNECT != 0)
    ensures AfdToEpoll(a) & EPOLLERR != 0 <==> a & AFD_CONNECT_FAIL != 0
    ensures AfdToEpoll(a) & !KNOWN == 0
    ensures AFTER_FAILED_CONNECT == EPOLLIN | EPOLLOUT | EPOLLERR | EPOLLRDNORM | EPOLLWRNORM | EPOLLRDHUP
  {
  }

  // ----- sockets

  datatype Status = Idle | Pending | Cancelled

  /** 'sock_state_t'; 'asked' is what the last poll asked the system to watch for. */
  datatype Sock = Sock(key: int, group: nat, user: bv32, pending: bv32, asked: bv32, status: Status, deletePending: bool)

  /** The outstanding poll watches for every event that the user wants. */
  predicate Covered(v: Sock) {
    v.user & KNOWN & !v.pending == 0
  }

  /** The system was asked for the events that the poll is for. */
  predicate PollOk(v: Sock) {
    if v.status.Pending? then v.asked == EpollToAfd(v.pending) else v.pending == 0
  }

  /** The system watches for all that the user wants. */
  predicate Watched(v: Sock) {
    EpollToAfd(v.user) & !v.asked == 0
  }

  lemma CoveredWatched(v: Sock)
    requires Covered(v) && v.asked == EpollToAfd(v.pending)
    ensures Watched(v)
  {
  }

  predicate NoDup(q: seq<nat>) {
    q == [] || (q[0] !in q[1..] && NoDup(q[1..]))
  }

  function Without(q: seq<nat>, s: nat): (r: seq<nat>)
    ensures forall x :: x in r <==> x in q && x != s
    ensures NoDup(q) ==> NoDup(r)
    ensures |r| <= |q| && (s in q ==> |r| < |q|)
  {
    if q == [] then [] else if q[0] == s then Without(q[1..], s) else
    var r := Without(q[1..], s);
    assert ([q[0]] + r)[1..] == r;
    [q[0]] + r
  }

  lemma {:induction false} NoDupAppend(q: seq<nat>, s: nat)
    requires NoDup(q) && s !in q
    ensures NoDup(q + [s])
  {
    if q != [] {
      NoDupAppend(q[1..], s);
      assert (q + [s])[1..] == q[1..] + [s];
    }
  }

  /** The tree finds exactly the live sockets that are not being deleted, by their handles. */
  predicate TreeOk(socks: map<nat, Sock>, tree: map<int, nat>) {
    && (forall k | k in tree :: tree[k] in socks && socks[tree[k]].key == k && !socks[tree[k]].deletePending)
    && (forall s | s in socks && !socks[s].deletePending :: socks[s].key in tree && tree[socks[s].key] == s)
  }

  /** A socket is in at most one of the two queues. */
  predicate QueuesOk(socks: map<nat, Sock>, update: seq<nat>, deleted: seq<nat>) {
    && NoDup(update) && NoDup(deleted)
    && (forall s | s in update :: s in socks && !socks[s].deletePending)
    && (forall s | s in deleted :: s in socks && socks[s].deletePending)
  }

  /** A wanted event of a live socket is covered by the outstanding poll, or the socket is queued for an update,
      or its poll has been cancelled and is still to complete. A socket without a poll is always queued; a
      deleted one waits in its queue for its poll to complete. */
  predicate SockOk(v: Sock, inUpdate: bool, inDeleted: bool) {
    if v.deletePending then inDeleted && !v.status.Idle? else
    && (inUpdate || (v.status.Pending? && Covered(v)) || v.status.Cancelled?)
    && PollOk(v)
  }

  // ----- poll groups

  const MAX_GROUP_SIZE := 32
  const INVALID_SOCKET: int := -1

  /** After a group that is not full comes no full one. */
  predicate FullFirst(q: seq<nat>, size: map<nat, nat>)
    requires forall g | g in q :: g in size
  {
    q == [] || ((size[q[0]] == MAX_GROUP_SIZE || forall g | g in q :: size[g] != MAX_GROUP_SIZE) && FullFirst(q[1..], size))
  }

  /** Full groups come first; the queue holds every group once. */
  ghost predicate GroupsOk(groups: seq<nat>, size: map<nat, nat>) {
    && NoDup(groups)
    && (forall g :: g in groups <==> g in size)
    && (forall g | g in size :: size[g] <= MAX_GROUP_SIZE)
    && FullFirst(groups, size)
  }

  // Sizes that do not matter for the order.
  lemma {:induction false} FullFirstSame(q: seq<nat>, size: map<nat, nat>, size': map<nat, nat>)
    requires forall g | g in q :: g in size && g in size' && (size[g] == MAX_GROUP_SIZE <==> size'[g] == MAX_GROUP_SIZE)
    requires FullFirst(q, size)
    ensures FullFirst(q, size')
  {
    if q != [] { FullFirstSame(q[1..], size, size'); }
  }

  lemma {:induction false} FullFirstWithout(q: seq<nat>, size: map<nat, nat>, g: nat)
    requires (forall h | h in q :: h in size) && FullFirst(q, size)
    ensures FullFirst(Without(q, g), size)
  {
    if q != [] {
      FullFirstWithout(q[1..], size, g);
      var r := Without(q[1..], g);
      if q[0] != g { assert ([q[0]] + r)[1..] == r; }
    }
  }

  lemma {:induction false} FullFirstAppend(q: seq<nat>, size: map<nat, nat>, g: nat)
    requires (forall h | h in q + [g] :: h in size) && FullFirst(q, size) && size[g] != MAX_GROUP_SIZE
    ensures FullFirst(q + [g], size)
  {
    if q == [] {
      assert q + [g] == [g] && [g][1..] == [];
    } else {
      assert (q + [g])[1..] == q[1..] + [g];
      FullFirstAppend(q[1..], size, g);
    }
  }

  lemma FullFirstPrepend(q: seq<nat>, size: map<nat, nat>, g: nat)
    requires (forall h | h in q :: h in size) && g in size && FullFirst(q, size) && size[g] == MAX_GROUP_SIZE
    requires NoDup(q) && g !in q
    ensures FullFirst([g] + q, size) && NoDup([g] + q)
  {
    assert ([g] + q)[1..] == q;
  }

  /** A group that has become full goes to the start. */
  function Reordered(q: seq<nat>, g: nat, size: map<nat, nat>): seq<nat> {
    if g in size && size[g] == MAX_GROUP_SIZE then [g] + Without(q, g) else q
  }

  lemma GrowSound(q: seq<nat>, size: map<nat, nat>, g: nat)
    requires GroupsOk(q, size) && g in size && size[g] < MAX_GROUP_SIZE
    ensures var size' := size[g := size[g] + 1]; GroupsOk(Reordered(q, g, size'), size')
  {
    hide FullFirst, NoDup;
    var size' := size[g := size[g] + 1];
    if size'[g] == MAX_GROUP_SIZE {
      FullFirstWithout(q, size, g);
      FullFirstSame(Without(q, g), size, size');
      FullFirstPrepend(Without(q, g), size', g);
    } else {
      FullFirstSame(q, size, size');
    }
  }

  function Members(socks: map<nat, Sock>, g: nat): set<nat> {
    set s | s in socks && socks[s].group == g
  }

  /** The size of a group is the number of its sockets. */
  ghost predicate SizesOk(socks: map<nat, Sock>, size: map<nat, nat>) {
    && (forall s | s in socks :: socks[s].group in size)
    && (forall g | g in size :: size[g] == |Members(socks, g)|)
  }

  lemma SizesAdd(socks: map<nat, Sock>, size: map<nat, nat>, s: nat, v: Sock)
    requires SizesOk(socks, size) && s !in socks
    ensures SizesOk(socks[s := v], size[v.group := (if v.group in size then size[v.group] else 0) + 1])
  {
    hide Members;
    var socks' := socks[s := v];
    var size' := size[v.group := (if v.group in size then size[v.group] else 0) + 1];
    forall g | g in size' ensures size'[g] == |Members(socks', g)| {
      MembersAdd(socks, s, v, g);
      if g !in size { NoMembers(socks, g); }
    }
  }

  lemma MembersAdd(socks: map<nat, Sock>, s: nat, v: Sock, g: nat)
    requires s !in socks
    ensures |Members(socks[s := v], g)| == |Members(socks, g)| + if g == v.group then 1 else 0
  {
    if g == v.group {
      assert Members(socks[s := v], g) == Members(socks, g) + {s};
    } else {
      assert Members(socks[s := v], g) == Members(socks, g);
    }
  }

  lemma NoMembers(socks: map<nat, Sock>, g: nat)
    requires forall s | s in socks :: socks[s].group != g
    ensures |Members(socks, g)| == 0
  {
    assert Members(socks, g) == {};
  }

  lemma SizesRemove(socks: map<nat, Sock>, size: map<nat, nat>, s: nat)
    requires SizesOk(socks, size) && s in socks
    ensures socks[s].group in size && size[socks[s].group] > 0
    ensures SizesOk(socks - {s}, size[socks[s].group := size[socks[s].group] - 1])
  {
    var g0 := socks[s].group;
    var size' := size;
    assert Members(socks, g0) == Members(socks - {s}, g0) + {s};
    forall g | g in size && g != g0 ensures size[g] == |Members(socks - {s}, g)| {
      assert Members(socks - {s}, g) == Members(socks, g);
    }
  }

  lemma SizesSame(socks: map<nat, Sock>, size: map<nat, nat>, s: nat, v: Sock)
    requires SizesOk(socks, size) && s in socks && v.group == socks[s].group
    ensures SizesOk(socks[s := v], size)
  {
    forall g | g in size ensures size[g] == |Members(socks[s := v], g)| {
      assert Members(socks[s := v], g) == Members(socks, g);
    }
  }

  lemma StoreSound(socks: map<nat, Sock>, tree: map<int, nat>, update: seq<nat>, deleted: seq<nat>, s: nat, v: Sock)
    requires TreeOk(socks, tree) && QueuesOk(socks, update, deleted) && s in socks
    requires v.key == socks[s].key && v.deletePending == socks[s].deletePending
    ensures TreeOk(socks[s := v], tree) && QueuesOk(socks[s := v], update, deleted)
  {
  }

  lemma EnterSound(socks: map<nat, Sock>, tree: map<int, nat>, update: seq<nat>, deleted: seq<nat>, s: nat, v: Sock)
    requires TreeOk(socks, tree) && QueuesOk(socks, update, deleted) && s !in socks && v.key !in tree && !v.deletePending
    ensures TreeOk(socks[s := v], tree[v.key := s]) && QueuesOk(socks[s := v], update, deleted) && s !in update
  {
  }

  lemma CondemnSound(socks: map<nat, Sock>, tree: map<int, nat>, update: seq<nat>, deleted: seq<nat>, s: nat, v: Sock)
    requires TreeOk(socks, tree) && QueuesOk(socks, update, deleted) && s in socks && s !in update
    requires !socks[s].deletePending && v == socks[s].(deletePending := true)
    ensures TreeOk(socks[s := v], tree - {v.key}) && QueuesOk(socks[s := v], update, deleted)
    ensures forall k | k in tree - {v.key} :: tree[k] != s
  {
  }

  lemma ForgetSound(socks: map<nat, Sock>, tree: map<int, nat>, update: seq<nat>, deleted: seq<nat>, s: nat)
    requires TreeOk(socks, tree) && QueuesOk(socks, update, deleted) && s in socks
    requires s !in update && forall k | k in tree :: tree[k] != s
    ensures TreeOk(socks - {s}, tree) && QueuesOk(socks - {s}, update, Without(deleted, s))
    ensures forall x | x in socks && x != s :: x in deleted <==> x in Without(deleted, s)
  {
  }

  class Port {
    var socks: map<nat, Sock>
    var tree: map<int, nat>
    var updateQueue: seq<nat>
    var deletedQueue: seq<nat>
    var groups: seq<nat>
    var size: map<nat, nat>
    var activePolls: nat
    // The sockets with a poll whose completion is still to be fed.
    ghost var outstanding: set<nat>
    // All polls that were started, and all that are over, by the socket that they were for.
    ghost var started: multiset<nat>
    ghost var completed: multiset<nat>

    /** The state of the sockets is sound, the socket x perhaps excepted. */
    ghost predicate SocketsOkBut(x: int)
      reads this
    {
      && TreeOk(socks, tree)
      && QueuesOk(socks, updateQueue, deletedQueue)
      && (forall s | s in socks && s != x :: SockOk(socks[s], s in updateQueue, s in deletedQueue))
      && (forall s :: s in outstanding <==> s in socks && !socks[s].status.Idle?)
      && PollsOk()
      && SizesOk(socks, size)
    }

    /** A poll is outstanding from its start to its completion. */
    ghost predicate PollsOk()
      reads `outstanding, `started, `completed
    {
      forall s :: started[s] == completed[s] + if s in outstanding then 1 else 0
    }

    ghost predicate Valid()
      reads this
    {
      SocketsOkBut(-1) && GroupsOk(groups, size)
    }

    constructor ()
      ensures Valid() && socks == map[] && activePolls == 0 && completed == multiset{}
    {
      socks, tree, updateQueue, deletedQueue := map[], map[], [], [];
      groups, size, activePolls, outstanding := [], map[], 0, {};
      started, completed := multiset{}, multiset{};
    }

    /** 'poll_group__new': an empty group at the end of the queue; 'created' is the answer of the system and
        newId the identity of the group. */
    method NewGroup(newId: nat, created: bool) returns (ok: bool)
      requires GroupsOk(groups, size) && newId !in size
      modifies `groups, `size
      ensures GroupsOk(groups, size) && ok == created
      ensures if ok then groups == old(groups) + [newId] && size == old(size)[newId := 0]
              else groups == old(groups) && size == old(size)
    {
      ok := created;
      if !created {
        return;
      }
      FullFirstSame(groups, size, size[newId := 0]);
      FullFirstAppend(groups, size[newId := 0], newId);
      NoDupAppend(groups, newId);
      size := size[newId := 0];
      groups := groups + [newId];
    }

    /** 'poll_group_acquire': the last group of the queue, or a new one when that is full. */
    method Acquire(newId: nat, created: bool) returns (ok: bool, g: nat)
      requires GroupsOk(groups, size) && newId !in size
      modifies `groups, `size
      ensures GroupsOk(groups, size)
      ensures !ok ==> groups == old(groups) && size == old(size)
      ensures ok ==> g in size && size == old(size)[g := (if g in old(size) then old(size)[g] else 0) + 1]
      ensures g == if old(groups) == [] || old(size[groups[|groups| - 1]]) >= MAX_GROUP_SIZE then newId
                   else old(groups)[|old(groups)| - 1]
      ensures ok ==> groups == Reordered(if g == newId then old(groups) + [newId] else old(groups), g, size)
    {
      hide FullFirst, NoDup;
      ok, g := true, newId;
      if groups != [] {
        g := groups[|groups| - 1];
      }
      if groups == [] || size[g] >= MAX_GROUP_SIZE {
        g := newId;
        ok := NewGroup(newId, created);
      }
      if !ok {
        return;
      }
      Grow(g);
    }

    // One more socket in a group that is not full; a group that is full then goes to the start.
    method Grow(g: nat)
      requires GroupsOk(groups, size) && g in size && size[g] < MAX_GROUP_SIZE
      modifies `groups, `size
      ensures GroupsOk(groups, size) && size == old(size)[g := old(size)[g] + 1]
      ensures groups == Reordered(old(groups), g, size)
    {
      hide GroupsOk;
      GrowSound(groups, size, g);
      size := size[g := size[g] + 1];
      if size[g] == MAX_GROUP_SIZE {
        groups := [g] + Without(groups, g);
      }
    }

    /** 'poll_group_release' */
    method ReleaseGroup(g: nat)
      requires GroupsOk(groups, size) && g in size && size[g] > 0
      modifies `groups, `size
      ensures GroupsOk(groups, size) && size == old(size)[g := old(size)[g] - 1]
      ensures groups == Without(old(groups), g) + [g]
    {
      FullFirstWithout(groups, size, g);
      FullFirstSame(Without(groups, g), size, size[g := size[g] - 1]);
      FullFirstAppend(Without(groups, g), size[g := size[g] - 1], g);
      NoDupAppend(Without(groups, g), g);
      size := size[g := size[g] - 1];
      groups := Without(groups, g) + [g];
    }

    /** 'port_request_socket_update' */
    method RequestUpdate(s: nat)
      requires s in socks && !socks[s].deletePending && SocketsOkBut(s)
      modifies `updateQueue
      ensures SocketsOkBut(s) && s in updateQueue
      ensures updateQueue == old(updateQueue) + if s in old(updateQueue) then [] else [s]
    {
      if s in updateQueue || s in deletedQueue {
        return;
      }
      NoDupAppend(updateQueue, s);
      updateQueue := updateQueue + [s];
    }

    /** 'port_cancel_socket_update': the node leaves the queue that it is in. */
    method CancelUpdate(s: nat)
      requires s in socks && !socks[s].deletePending && SocketsOkBut(s)
      modifies `updateQueue
      ensures SocketsOkBut(s) && updateQueue == Without(old(updateQueue), s)
    {
      if !(s in updateQueue || s in deletedQueue) {
        WithoutAbsent(updateQueue, s);
        return;
      }
      updateQueue := Without(updateQueue, s);
    }

    /** The start or the end of a poll, if anything changes. */
    ghost method Note(s: nat, busy: bool)
      requires PollsOk()
      modifies `outstanding, `started, `completed
      ensures PollsOk() && outstanding == if busy then old(outstanding) + {s} else old(outstanding) - {s}
      ensures completed == if !busy && s in old(outstanding) then old(completed) + multiset{s} else old(completed)
    {
      if !busy && s in outstanding {
        completed := completed + multiset{s};
      } else if busy && s !in outstanding {
        started := started + multiset{s};
      }
      outstanding := if busy then outstanding + {s} else outstanding - {s};
    }

    // Store a socket; the kernel has a poll of it exactly when it is not idle.
    method Store(s: nat, v: Sock)
      requires s in socks && SocketsOkBut(s)
      requires v.key == socks[s].key && v.group == socks[s].group && v.deletePending == socks[s].deletePending
      modifies `socks, `outstanding, `started, `completed
      ensures SocketsOkBut(s) && socks == old(socks)[s := v]
      ensures outstanding == if v.status.Idle? then old(outstanding) - {s} else old(outstanding) + {s}
      ensures completed == if v.status.Idle? && s in old(outstanding) then old(completed) + multiset{s} else old(completed)
    {
      hide SockOk, SizesOk, NoDup, PollsOk, TreeOk, QueuesOk;
      SizesSame(socks, size, s, v);
      StoreSound(socks, tree, updateQueue, deletedQueue, s, v);
      socks := socks[s := v];
      Note(s, !v.status.Idle?);
    }

    /** 'sock__cancel_poll'; 'ok' is the answer of the system. */
    method CancelPoll(s: nat, ok: bool) returns (r: bool)
      requires s in socks && socks[s].status.Pending? && SocketsOkBut(s)
      modifies `socks, `outstanding, `started, `completed
      ensures SocketsOkBut(s) && r == ok && outstanding == old(outstanding) && completed == old(completed)
      ensures socks == if ok then old(socks)[s := old(socks)[s].(status := Cancelled, pending := 0)] else old(socks)
    {
      hide SocketsOkBut;
      r := ok;
      if ok {
        PollOutstanding(s);
        Store(s, socks[s].(status := Cancelled, pending := 0));
      }
    }

    // Take a socket out of everything.
    method Forget(s: nat)
      requires s in socks && SocketsOkBut(s) && GroupsOk(groups, size) && s !in updateQueue
      requires forall k | k in tree :: tree[k] != s
      modifies `socks, `deletedQueue, `groups, `size, `outstanding, `started, `completed
      ensures Valid() && socks == old(socks) - {s} && outstanding == old(outstanding) - {s}
      ensures deletedQueue == Without(old(deletedQueue), s)
      ensures completed == if s in old(outstanding) then old(completed) + multiset{s} else old(completed)
    {
      hide PollsOk, NoDup, Members, GroupsOk, SizesOk, TreeOk, QueuesOk, SockOk, Without;
      SizesRemove(socks, size, s);
      ForgetSound(socks, tree, updateQueue, deletedQueue, s);
      deletedQueue := Without(deletedQueue, s);
      ReleaseGroup(socks[s].group);
      // a socket with a poll is forgotten only after the completion port has been closed
      Note(s, false);
      socks := socks - {s};
    }

    // The socket leaves the tree and is marked.
    method Condemn(s: nat)
      requires s in socks && !socks[s].deletePending && SocketsOkBut(s) && s !in updateQueue
      modifies `socks, `tree
      ensures SocketsOkBut(s) && socks == old(socks)[s := old(socks)[s].(deletePending := true)]
      ensures tree == old(tree) - {old(socks)[s].key} && forall k | k in tree :: tree[k] != s
    {
      hide TreeOk, QueuesOk, SockOk, SizesOk, PollsOk, NoDup;
      CondemnSound(socks, tree, updateQueue, deletedQueue, s, socks[s].(deletePending := true));
      tree := tree - {socks[s].key};
      SizesSame(socks, size, s, socks[s].(deletePending := true));
      socks := socks[s := socks[s].(deletePending := true)];
    }

    lemma Condemned(s: nat)
      requires s in socks && socks[s].deletePending && SocketsOkBut(s)
      ensures s !in updateQueue && forall k | k in tree :: tree[k] != s
    {
    }

    // The first half of 'sock__delete'.
    method Withdraw(s: nat, cancelled: bool)
      requires s in socks && SocketsOkBut(s) && !socks[s].deletePending
      modifies `socks, `tree, `updateQueue, `outstanding, `started, `completed
      ensures SocketsOkBut(s) && s in socks && socks[s].deletePending && s !in updateQueue
      ensures outstanding == old(outstanding) && completed == old(completed)
      ensures updateQueue == Without(old(updateQueue), s) && tree == old(tree) - {old(socks)[s].key}
      ensures socks == old(socks)[s := socks[s]] && (socks[s].status.Idle? <==> old(socks)[s].status.Idle?)
      ensures forall k | k in tree :: tree[k] != s
    {
      hide SocketsOkBut, Without;
      if socks[s].status.Pending? {
        var _ := CancelPoll(s, cancelled);
      }
      CancelUpdate(s);
      Condemn(s);
    }

    // A condemned socket waits for its poll to complete.
    method Await(s: nat)
      requires s in socks && socks[s].deletePending && !socks[s].status.Idle? && SocketsOkBut(s)
      modifies `deletedQueue
      ensures SocketsOkBut(-1) && s in deletedQueue
    {
      if s !in deletedQueue {
        NoDupAppend(deletedQueue, s);
        deletedQueue := deletedQueue + [s];
      }
    }

    /** 'sock__delete': cancel the poll, leave the update queue and the tree; free the socket unless its poll is
        still to complete. 'cancelled' is the answer of the system to the cancellation. */
    method SockDelete(s: nat, force: bool, cancelled: bool)
      requires s in socks && SocketsOkBut(s) && GroupsOk(groups, size)
      modifies `socks, `tree, `updateQueue, `deletedQueue, `groups, `size, `outstanding, `started, `completed
      ensures Valid()
      ensures updateQueue == if old(socks)[s].deletePending then old(updateQueue) else Without(old(updateQueue), s)
      ensures tree == if old(socks)[s].deletePending then old(tree) else old(tree) - {old(socks)[s].key}
      ensures force || old(socks)[s].status.Idle? ==> socks == old(socks) - {s} && outstanding == old(outstanding) - {s}
      ensures force || old(socks)[s].status.Idle? ==> deletedQueue == Without(old(deletedQueue), s)
      ensures !force && !old(socks)[s].status.Idle? ==>
        && s in socks && socks[s].deletePending && s in deletedQueue && outstanding == old(outstanding)
        && socks == old(socks)[s := socks[s]]
      ensures !force ==> outstanding == old(outstanding) && completed == old(completed)
    {
      hide SocketsOkBut, GroupsOk, Without;
      PollOutstanding(s);
      if !socks[s].deletePending {
        Withdraw(s, cancelled);
      } else {
        Condemned(s);
      }
      if force || socks[s].status.Idle? {
        Forget(s);
      } else {
        Await(s);
      }
    }

    // A socket that is sound makes all of them sound.
    lemma AllSound(s: nat)
      requires SocketsOkBut(s) && s in socks && SockOk(socks[s], s in updateQueue, s in deletedQueue)
      ensures SocketsOkBut(-1)
    {
    }

    /** 'sock_set_event': errors and hang-ups are always wanted; the poll is updated unless it covers all that
        is wanted. */
    method SetEvent(s: nat, events: bv32)
      requires s in socks && !socks[s].deletePending && SocketsOkBut(s)
      requires PollOk(socks[s])
      modifies `socks, `updateQueue, `outstanding, `started, `completed
      ensures SocketsOkBut(-1) && outstanding == old(outstanding) && completed == old(completed)
      ensures socks == old(socks)[s := old(socks)[s].(user := events | EPOLLERR | EPOLLHUP)]
      ensures updateQueue == old(updateQueue) || (s !in old(updateQueue) && updateQueue == old(updateQueue) + [s])
    {
      hide TreeOk, QueuesOk, SizesOk, NoDup, EpollToAfd;
      ErrorsWanted(events);
      PollOutstanding(s);
      Store(s, socks[s].(user := events | EPOLLERR | EPOLLHUP));
      if socks[s].user & KNOWN & !socks[s].pending != 0 {
        RequestUpdate(s);
      }
      AllSound(s);
    }

    lemma PollOutstanding(s: nat)
      requires s in socks && SocketsOkBut(s)
      ensures s in outstanding <==> !socks[s].status.Idle?
      ensures outstanding - {s} == outstanding || s in outstanding
      ensures outstanding + {s} == outstanding || s !in outstanding
    {
    }

    /** 'sock_update': start a poll, cancel one that does not cover what is wanted, or leave things as they are;
        then the socket leaves the update queue. An error leaves it there. */
    method SockUpdate(s: nat, answer: Answer) returns (ok: bool)
      requires Valid() && s in updateQueue
      modifies `socks, `tree, `updateQueue, `deletedQueue, `groups, `size, `outstanding, `started, `completed
      ensures Valid()
      ensures updateQueue == if ok then Without(old(updateQueue), s) else old(updateQueue)
      ensures !ok ==> socks == old(socks) && outstanding == old(outstanding)
      ensures ok && s in socks && !socks[s].deletePending ==>
                (socks[s].status.Pending? && Covered(socks[s])) || socks[s].status.Cancelled?
      ensures ok && s in socks ==> socks == old(socks)[s := socks[s]]
      ensures s !in socks ==> answer.Gone? && socks == old(socks) - {s} && old(socks)[s].status.Idle?
      ensures s in socks ==> socks[s].user == old(socks)[s].user && socks[s].key == old(socks)[s].key && !socks[s].deletePending
      ensures old(outstanding) <= outstanding && completed == old(completed)
    {
      hide TreeOk, QueuesOk, SizesOk, NoDup, GroupsOk, Without, SocketsOkBut, EpollToAfd;
      QueuedLives(s);
      var v := socks[s];
      if v.status.Pending? && v.user & KNOWN & !v.pending == 0 {
      } else if v.status.Pending? {
        if answer.Error? {
          return false;
        }
        var _ := CancelPoll(s, true);
      } else if v.status.Cancelled? {
      } else {
        match answer {
          case Gone =>
            SockDelete(s, false, true);
            return true;
          case Error => return false;
          case Done =>
        }
        StartPoll(s);
      }
      CancelUpdate(s);
      AllSound(s);
      ok := true;
    }

    // Ask the system to watch for all that the user wants.
    method StartPoll(s: nat)
      requires s in socks && !socks[s].deletePending && SocketsOkBut(s)
      modifies `socks, `outstanding, `started, `completed
      ensures SocketsOkBut(s) && outstanding == old(outstanding) + {s} && completed == old(completed)
      ensures var v := old(socks)[s];
              socks == old(socks)[s := v.(status := Pending, pending := v.user, asked := EpollToAfd(v.user))]
      ensures Covered(socks[s])
    {
      hide SocketsOkBut, EpollToAfd;
      Store(s, socks[s].(status := Pending, pending := socks[s].user, asked := EpollToAfd(socks[s].user)));
      FullCover(socks[s].user);
    }

    lemma QueuedLives(s: nat)
      requires Valid() && s in updateQueue
      ensures s in socks && !socks[s].deletePending && SocketsOkBut(s) && SockOk(socks[s], true, s in deletedQueue)
      ensures s !in deletedQueue
    {
    }

    /** What updates of the sockets in q leave: all that users want, every socket that is not in q, and every one
        that has a poll. */
    twostate predicate Updated(q: seq<nat>)
      reads this
    {
      && (forall s | s in socks :: s in old(socks) && socks[s].user == old(socks)[s].user && socks[s].key == old(socks)[s].key)
      && (forall s | s in old(socks) && s !in q :: s in socks && socks[s] == old(socks)[s])
      && (forall s | s in old(socks) && s !in socks :: old(socks)[s].status.Idle?)
    }

    twostate lemma Untouched(q: seq<nat>)
      requires socks == old(socks)
      ensures Updated(q)
    {
    }

    lemma AllQueuedLive()
      requires Valid()
      ensures forall s | s in updateQueue :: s in socks
    {
    }

    /** 'port__update_events': update every socket that is queued, up to an error. */
    method UpdateEvents(answers: seq<Answer>) returns (ok: bool)
      requires Valid()
      modifies `socks, `tree, `updateQueue, `deletedQueue, `groups, `size, `outstanding, `started, `completed
      ensures Valid() && (ok ==> updateQueue == []) && |updateQueue| <= |old(updateQueue)|
      ensures old(outstanding) <= outstanding && completed == old(completed) && Updated(old(updateQueue))
    {
      hide SocketsOkBut, GroupsOk, Without;
      Untouched(updateQueue);
      AllQueuedLive();
      var left := answers;
      while updateQueue != []
        invariant Valid() && |updateQueue| <= |old(updateQueue)| && forall s | s in updateQueue :: s in old(updateQueue)
        invariant old(outstanding) <= outstanding && completed == old(completed) && Updated(old(updateQueue))
        invariant forall s | s in updateQueue :: s in socks && socks[s] == old(socks)[s]
        decreases |updateQueue|
      {
        var answer := if left == [] then Done else left[0];
        left := if left == [] then [] else left[1..];
        ok := SockUpdate(updateQueue[0], answer);
        if !ok {
          return;
        }
      }
      ok := true;
    }

    /** 'sock_feed_event': the completion of a poll. The socket is freed if it was being deleted or has been
        closed; otherwise it is queued for a new poll, and what the user asked for is reported. */
    method FeedEvent(s: nat, completion: Completion) returns (reported: bv32)
      requires Valid() && s in outstanding
      modifies `socks, `tree, `updateQueue, `deletedQueue, `groups, `size, `outstanding, `started, `completed
      ensures Valid() && outstanding == old(outstanding) - {s} && completed == old(completed) + multiset{s}
      ensures var v := old(socks)[s];
              if v.deletePending || IsClose(completion) then reported == 0 && socks == old(socks) - {s}
              else
                && reported == EventsOf(completion) & v.user && s in updateQueue
                && socks == old(socks)[s := v.(status := Idle, pending := 0,
                                               user := if reported != 0 && v.user & EPOLLONESHOT != 0 then 0 else v.user)]
    {
      hide TreeOk, QueuesOk, SizesOk, NoDup, GroupsOk, Without, SocketsOkBut, EventsOf, IsClose, Covered;
      PolledLives(s);
      var v := socks[s];
      reported := 0;
      Store(s, v.(status := Idle, pending := 0));
      if v.deletePending || IsClose(completion) {
        SockDelete(s, false, true);
        return;
      }
      RequestUpdate(s);
      AllSound(s);
      reported := Report(s, EventsOf(completion));
      assert old(socks)[s := v.(status := Idle, pending := 0)][s := socks[s]] == old(socks)[s := socks[s]];
    }

    // The end of 'sock_feed_event': filter out what the user did not ask for; a one-shot socket drops all its
    // events once some are reported.
    method Report(s: nat, events0: bv32) returns (reported: bv32)
      requires Valid() && s in socks && s in updateQueue && socks[s].status.Idle?
      modifies `socks, `outstanding, `started, `completed
      ensures Valid() && outstanding == old(outstanding) && completed == old(completed)
      ensures reported == events0 & old(socks)[s].user
      ensures var v := old(socks)[s];
              socks == old(socks)[s := v.(user := if reported != 0 && v.user & EPOLLONESHOT != 0 then 0 else v.user)]
    {
      hide SocketsOkBut, GroupsOk;
      var events := events0 & socks[s].user;
      reported := events;
      if events == 0 {
        return;
      }
      if socks[s].user & EPOLLONESHOT != 0 {
        Unmonitor(s);
      }
    }

    // A socket that is queued may drop all its events.
    method Unmonitor(s: nat)
      requires Valid() && s in socks && s in updateQueue && socks[s].status.Idle?
      modifies `socks, `outstanding, `started, `completed
      ensures Valid() && socks == old(socks)[s := old(socks)[s].(user := 0)]
      ensures outstanding == old(outstanding) && completed == old(completed)
    {
      hide TreeOk, SizesOk, NoDup, GroupsOk;
      PollOutstanding(s);
      Store(s, socks[s].(user := 0));
      AllSound(s);
    }

    lemma PolledLives(s: nat)
      requires Valid() && s in outstanding
      ensures s in socks && SocketsOkBut(s) && !socks[s].status.Idle?
      ensures socks[s].deletePending <==> s in deletedQueue
    {
    }

    /** 'port__ctl_mod' */
    method CtlMod(key: int, events: bv32, answers: seq<Answer>) returns (r: int)
      requires Valid()
      modifies `socks, `tree, `updateQueue, `deletedQueue, `groups, `size, `outstanding, `started, `completed
      ensures Valid() && r == if key in old(tree) then 0 else -1
      ensures r == -1 ==> socks == old(socks) && updateQueue == old(updateQueue)
      ensures r == 0 && activePolls == 0 ==>
        var s := old(tree)[key]; s in old(socks) && socks == old(socks)[s := old(socks)[s].(user := events | EPOLLERR | EPOLLHUP)]
      ensures old(outstanding) <= outstanding && completed == old(completed)
      ensures r == 0 ==> var s := old(tree)[key];
        && (s in socks ==> socks[s].user == events | EPOLLERR | EPOLLHUP)
        && forall x | x in socks && x != s :: x in old(socks) && socks[x].user == old(socks)[x].user
    {
      hide TreeOk, QueuesOk, SizesOk, NoDup, GroupsOk, SockOk;
      if key !in tree {
        return -1;
      }
      FoundLives(key);
      SetEvent(tree[key], events);
      UpdateIfPolling(answers);
      r := 0;
    }

    lemma FoundLives(key: int)
      requires Valid() && key in tree
      ensures var s := tree[key];
              && s in socks && socks[s].key == key && !socks[s].deletePending && SocketsOkBut(s)
              && PollOk(socks[s])
    {
    }

    /** 'port__update_events_if_polling', which ignores errors. */
    method UpdateIfPolling(answers: seq<Answer>)
      requires Valid()
      modifies `socks, `tree, `updateQueue, `deletedQueue, `groups, `size, `outstanding, `started, `completed
      ensures Valid()
      ensures activePolls == 0 ==> socks == old(socks) && tree == old(tree) && updateQueue == old(updateQueue)
                                   && outstanding == old(outstanding)
      ensures old(outstanding) <= outstanding && completed == old(completed) && Updated(old(updateQueue))
    {
      Untouched(updateQueue);
      if activePolls > 0 {
        var _ := UpdateEvents(answers);
      }
    }

    /** 'port__ctl_del' */
    method CtlDel(key: int, cancelled: bool) returns (r: int)
      requires Valid()
      modifies `socks, `tree, `updateQueue, `deletedQueue, `groups, `size, `outstanding, `started, `completed
      ensures Valid() && r == if key in old(tree) then 0 else -1
      ensures key !in tree && (r == -1 ==> socks == old(socks))
      ensures r == 0 ==> var s := old(tree)[key]; tree == old(tree) - {key} && (s in old(outstanding) <==> s in socks)
      ensures r == 0 ==> var s := old(tree)[key];
        socks == if s in socks then old(socks)[s := socks[s]] else old(socks) - {s}
      ensures outstanding == old(outstanding) && completed == old(completed)
    {
      hide QueuesOk, SizesOk, NoDup, GroupsOk, SockOk;
      if key !in tree {
        return -1;
      }
      FoundLives(key);
      PollOutstanding(tree[key]);
      SockDelete(tree[key], false, cancelled);
      r := 0;
    }

    /** 'port__ctl_add'. s and newGroup are the identities of a new socket and perhaps a new group; the other
        parameters are the answers of the system. */
    method CtlAdd(key: int, events: bv32, s: nat, newGroup: nat, found: bool, created: bool, memory: bool, answers: seq<Answer>)
      returns (r: int)
      requires Valid() && s !in socks && newGroup !in size
      modifies `socks, `tree, `updateQueue, `deletedQueue, `groups, `size, `outstanding, `started, `completed
      ensures Valid()
      ensures r == -1 ==> socks == old(socks) && tree == old(tree) && updateQueue == old(updateQueue)
      ensures key in old(tree) ==> r == -1
      ensures r == 0 && activePolls == 0 ==>
        && tree == old(tree)[key := s] && s in socks && socks == old(socks)[s := socks[s]]
        && socks[s].user == events | EPOLLERR | EPOLLHUP && s in updateQueue
      ensures old(outstanding) <= outstanding && completed == old(completed)
      ensures r == 0 ==>
        && (s in socks ==> socks[s].user == events | EPOLLERR | EPOLLHUP && socks[s].key == key)
        && forall x | x in socks && x != s :: x in old(socks) && socks[x].user == old(socks)[x].user
    {
      hide TreeOk, QueuesOk, NoDup, GroupsOk, SockOk, SizesOk, PollsOk, Reordered, EpollToAfd;
      if key == 0 || key == INVALID_SOCKET || !found {
        return -1;
      }
      var ok, g := Acquire(newGroup, created);
      if !ok {
        return -1;
      }
      if !memory || key in tree {
        UndoAcquire(old(size), g);
        return -1;
      }
      Enter(s, key, g, old(size));
      assert socks[s].user & KNOWN & !socks[s].pending == 0;
      SetEvent(s, events);
      QueuedIfUncovered(s, events);
      assert socks == old(socks)[s := socks[s]];
      UpdateIfPolling(answers);
      r := 0;
    }

    // The socket is allocated and registered.
    method Enter(s: nat, key: int, g: nat, ghost before: map<nat, nat>)
      requires SocketsFor(before) && GroupsOk(groups, size) && s !in socks && key !in tree
      requires size == before[g := (if g in before then before[g] else 0) + 1]
      modifies `socks, `tree
      ensures SocketsOkBut(s) && socks == old(socks)[s := Sock(key, g, 0, 0, 0, Idle, false)] && tree == old(tree)[key := s]
      ensures s !in updateQueue
    {
      hide NoDup, SizesOk, PollsOk, TreeOk, QueuesOk, SockOk;
      SizesAdd(socks, before, s, Sock(key, g, 0, 0, 0, Idle, false));
      EnterSound(socks, tree, updateQueue, deletedQueue, s, Sock(key, g, 0, 0, 0, Idle, false));
      socks := socks[s := Sock(key, g, 0, 0, 0, Idle, false)];
      tree := tree[key := s];
    }

    // The state of the sockets, with the sizes of the groups as they were.
    ghost predicate SocketsFor(before: map<nat, nat>)
      reads this
    {
      && TreeOk(socks, tree)
      && QueuesOk(socks, updateQueue, deletedQueue)
      && (forall s | s in socks :: SockOk(socks[s], s in updateQueue, s in deletedQueue))
      && (forall s :: s in outstanding <==> s in socks && !socks[s].status.Idle?)
      && PollsOk()
      && SizesOk(socks, before)
    }

    // The socket is not made after all: the group loses it again.
    method UndoAcquire(ghost before: map<nat, nat>, g: nat)
      requires SocketsFor(before) && GroupsOk(groups, size)
      requires size == before[g := (if g in before then before[g] else 0) + 1]
      modifies `groups, `size
      ensures Valid()
    {
      hide PollsOk, GroupsOk, TreeOk, QueuesOk, SockOk, Without;
      ReleaseGroup(g);
      if g in before {
        assert size == before;
      } else {
        NoMembers(socks, g);
        assert SizesOk(socks, size);
      }
    }

    lemma QueuedIfUncovered(s: nat, events: bv32)
      requires Valid() && s in socks && socks[s].status.Idle? && !socks[s].deletePending
      ensures s in updateQueue
    {
    }

    /** All that users want is watched, or about to be: the state in which a thread waits. */
    ghost predicate AllWatched()
      reads this
    {
      forall s | s in socks && !socks[s].deletePending ::
        (socks[s].status.Pending? && Watched(socks[s])) || socks[s].status.Cancelled?
    }

    /** The start of 'port__poll': once all updates are made, the thread waits with everything watched. */
    method PollBegin(answers: seq<Answer>) returns (ok: bool)
      requires Valid()
      modifies this
      ensures Valid() && activePolls == old(activePolls) + (if ok then 1 else 0)
      ensures ok ==> AllWatched()
      ensures old(outstanding) <= outstanding && completed == old(completed) && Updated(old(updateQueue))
    {
      hide TreeOk, SizesOk, NoDup, GroupsOk;
      ok := UpdateEvents(answers);
      if ok {
        NoneQueued();
        activePolls := activePolls + 1;
      }
    }

    lemma NoneQueued()
      requires Valid() && updateQueue == []
      ensures AllWatched()
    {
      hide Covered, Watched, EpollToAfd;
      forall s | s in socks && !socks[s].deletePending
        ensures (socks[s].status.Pending? && Watched(socks[s])) || socks[s].status.Cancelled?
      {
        assert SockOk(socks[s], s in updateQueue, s in deletedQueue);
        if socks[s].status.Pending? { CoveredWatched(socks[s]); }
      }
    }

    /** The end of 'port__poll': 'port__feed_events' for the completions that were taken from the port. */
    method PollEnd(completions: seq<(nat, Completion)>) returns (events: seq<bv32>)
      requires Valid() && activePolls > 0
      requires forall i | 0 <= i < |completions| :: completions[i].0 in outstanding
      requires forall i, j | 0 <= i < j < |completions| :: completions[i].0 != completions[j].0
      modifies this
      ensures Valid() && activePolls == old(activePolls) - 1 && 0 !in events && |events| <= |completions|
      ensures outstanding == old(outstanding) - Completed(completions)
      ensures completed == old(completed) + Fed(completions)
      ensures events == Reports(old(socks), completions)
    {
      hide SocketsOkBut, GroupsOk, ReportOf, IsClose, EventsOf, Reports, Fed, Completed, FedUpTo;
      Polled(completions);
      NoneFed(socks, outstanding, completed, completions);
      ghost var before, polled, over := socks, outstanding, completed;
      Woken();
      events := [];
      var i := 0;
      while i < |completions|
        invariant i <= |completions| && Valid() && activePolls == old(activePolls) - 1
        invariant FedUpTo(before, polled, over, completions, i, events, socks, outstanding, completed)
      {
        events := FeedNext(before, polled, over, completions, i, events);
        i := i + 1;
      }
      AllFed(before, polled, over, completions, events, socks, outstanding, completed);
    }

    // One round of 'port__feed_events'.
    method FeedNext(ghost before: map<nat, Sock>, ghost polled: set<nat>, ghost over: multiset<nat>,
                    cs: seq<(nat, Completion)>, i: nat, events0: seq<bv32>) returns (events: seq<bv32>)
      requires Valid() && i < |cs| && FedUpTo(before, polled, over, cs, i, events0, socks, outstanding, completed)
      modifies `socks, `tree, `updateQueue, `deletedQueue, `groups, `size, `outstanding, `started, `completed
      ensures Valid() && FedUpTo(before, polled, over, cs, i + 1, events, socks, outstanding, completed)
      ensures activePolls == old(activePolls)
    {
      hide Valid, EventsOf, IsClose, FedUpTo;
      var (s, c) := cs[i];
      NextIs(before, polled, over, cs, i, events0, socks, outstanding, completed);
      var reported := FeedEvent(s, c);
      ReportOfIs(before[s], c, reported);
      events := events0 + if reported != 0 then [reported] else [];
      NextFed(before, polled, over, cs, i, events0, old(socks), old(outstanding), old(completed), socks);
    }

    lemma Polled(completions: seq<(nat, Completion)>)
      requires Valid() && forall i | 0 <= i < |completions| :: completions[i].0 in outstanding
      ensures forall i | 0 <= i < |completions| :: completions[i].0 in socks
    {
    }

    // A thread is back from its wait.
    method Woken()
      requires Valid() && activePolls > 0
      modifies `activePolls
      ensures Valid() && activePolls == old(activePolls) - 1
    {
      activePolls := activePolls - 1;
    }

    /** 'port_delete', after the completion port has been closed: everything is freed, and both assertions
        hold. */
    method Delete(cancelled: bool)
      requires Valid()
      modifies this
      ensures socks == map[] && tree == map[] && updateQueue == [] && deletedQueue == [] && groups == []
    {
      hide SocketsOkBut, NoDup, GroupsOk, Without;
      while tree != map[]
        invariant Valid()
        decreases |tree|
      {
        SomeKey(tree);
        var key :| key in tree;
        FoundLives(key);
        ghost var before := tree;
        SockDelete(tree[key], true, cancelled);
        assert before == tree[key := before[key]] && key !in tree;
      }
      while deletedQueue != []
        invariant Valid() && tree == map[]
        decreases |deletedQueue|
      {
        DeletedLives();
        SockDelete(deletedQueue[0], true, cancelled);
      }
      NothingLeft();
      while groups != []
        invariant NoDup(groups) && forall g | g in groups :: g in size && size[g] == 0
        invariant socks == map[] && tree == map[] && updateQueue == [] && deletedQueue == []
      {
        var group := groups[0];
        assert size[group] == 0;
        GroupGone(groups);
        groups := groups[1..];
      }
      assert updateQueue == [];
    }

    lemma DeletedLives()
      requires Valid() && deletedQueue != []
      ensures var s := deletedQueue[0]; s in socks && socks[s].deletePending && SocketsOkBut(s)
    {
    }

    lemma NothingLeft()
      requires Valid() && tree == map[] && deletedQueue == []
      ensures socks == map[] && updateQueue == [] && NoDup(groups)
      ensures forall g | g in groups :: g in size && size[g] == 0
    {
      assert forall s :: s !in socks;
      SomeElement(updateQueue);
      forall g | g in groups ensures size[g] == 0 { NoMembers(socks, g); }
    }
  }

  lemma SomeKey(m: map<int, nat>)
    ensures m == map[] || exists k :: k in m
  {
    if !exists k :: k in m {
      assert m == map[];
    }
  }

  lemma SomeElement(q: seq<nat>)
    ensures q == [] || exists x :: x in q
  {
    if q != [] {
      assert q[0] in q;
    }
  }

  lemma GroupGone(q: seq<nat>)
    requires q != [] && NoDup(q)
    ensures NoDup(q[1..])
  {
  }

  function SumSizes(q: seq<nat>, size: map<nat, nat>): nat
    requires forall g | g in q :: g in size
  {
    if q == [] then 0 else size[q[0]] + SumSizes(q[1..], size)
  }

  function InGroups(socks: map<nat, Sock>, q: seq<nat>): set<nat> {
    set s | s in socks && socks[s].group in q
  }

  /** The sizes of the groups add up to the number of sockets. */
  lemma {:induction false} SizesSum(socks: map<nat, Sock>, q: seq<nat>, size: map<nat, nat>)
    requires SizesOk(socks, size) && NoDup(q) && forall g | g in q :: g in size
    ensures |InGroups(socks, q)| == SumSizes(q, size)
  {
    if q != [] {
      SizesSum(socks, q[1..], size);
      assert InGroups(socks, q) == InGroups(socks, q[1..]) + Members(socks, q[0]);
      assert InGroups(socks, q[1..]) !! Members(socks, q[0]);
    } else {
      assert InGroups(socks, q) == {};
    }
  }

  lemma AllInGroups(socks: map<nat, Sock>, groups: seq<nat>, size: map<nat, nat>)
    requires SizesOk(socks, size) && GroupsOk(groups, size)
    ensures |socks| == SumSizes(groups, size)
  {
    SizesSum(socks, groups, size);
    assert InGroups(socks, groups) == socks.Keys;
  }

  datatype Completion = WasCancelled | RequestFailed | NothingReported | Reported(afd: bv32)

  predicate IsClose(c: Completion) {
    c.Reported? && c.afd & AFD_LOCAL_CLOSE != 0
  }

  /** What a completion tells the user of a socket. */
  function ReportOf(v: Sock, c: Completion): bv32 {
    if v.deletePending || IsClose(c) then 0 else EventsOf(c) & v.user
  }

  lemma ReportOfIs(v: Sock, c: Completion, reported: bv32)
    requires if v.deletePending || IsClose(c) then reported == 0 else reported == EventsOf(c) & v.user
    ensures reported == ReportOf(v, c)
  {
  }

  /** The events of some completions, in order, without those that tell nothing. */
  function Reports(socks: map<nat, Sock>, cs: seq<(nat, Completion)>): seq<bv32>
    requires forall i | 0 <= i < |cs| :: cs[i].0 in socks
  {
    if cs == [] then [] else
      var n := |cs| - 1;
      var e := ReportOf(socks[cs[n].0], cs[n].1);
      Reports(socks, cs[..n]) + if e != 0 then [e] else []
  }

  function Fed(cs: seq<(nat, Completion)>): multiset<nat> {
    if cs == [] then multiset{} else Fed(cs[..|cs| - 1]) + multiset{cs[|cs| - 1].0}
  }

  /** The sockets whose polls are over. */
  function Completed(cs: seq<(nat, Completion)>): set<nat> {
    set i | 0 <= i < |cs| :: cs[i].0
  }

  // The first i of some completions have been fed, and nothing has happened to the sockets of the others.
  ghost predicate FedUpTo(before: map<nat, Sock>, polled: set<nat>, over: multiset<nat>, cs: seq<(nat, Completion)>,
                          i: nat, events: seq<bv32>, socks: map<nat, Sock>, outstanding: set<nat>, completed: multiset<nat>)
  {
    && i <= |cs| && (forall j | 0 <= j < |cs| :: cs[j].0 in before && cs[j].0 in polled)
    && (forall j, k | 0 <= j < k < |cs| :: cs[j].0 != cs[k].0)
    && outstanding == polled - Completed(cs[..i]) && completed == over + Fed(cs[..i])
    && events == Reports(before, cs[..i]) && 0 !in events && |events| <= i
    && forall j | i <= j < |cs| :: cs[j].0 in socks && socks[cs[j].0] == before[cs[j].0]
  }

  lemma NoneFed(socks: map<nat, Sock>, outstanding: set<nat>, completed: multiset<nat>, cs: seq<(nat, Completion)>)
    requires forall i | 0 <= i < |cs| :: cs[i].0 in socks && cs[i].0 in outstanding
    requires forall i, j | 0 <= i < j < |cs| :: cs[i].0 != cs[j].0
    ensures FedUpTo(socks, outstanding, completed, cs, 0, [], socks, outstanding, completed)
  {
    assert cs[..0] == [];
  }

  lemma NextIs(before: map<nat, Sock>, polled: set<nat>, over: multiset<nat>, cs: seq<(nat, Completion)>, i: nat,
               events: seq<bv32>, socks: map<nat, Sock>, outstanding: set<nat>, completed: multiset<nat>)
    requires i < |cs| && FedUpTo(before, polled, over, cs, i, events, socks, outstanding, completed)
    ensures var s := cs[i].0; s in outstanding && s in socks && s in before && socks[s] == before[s]
  {
  }

  lemma NextFed(before: map<nat, Sock>, polled: set<nat>, over: multiset<nat>, cs: seq<(nat, Completion)>, i: nat,
                events: seq<bv32>, socks: map<nat, Sock>, outstanding: set<nat>, completed: multiset<nat>,
                socks': map<nat, Sock>)
    requires i < |cs| && FedUpTo(before, polled, over, cs, i, events, socks, outstanding, completed)
    requires cs[i].0 in before && (socks' == socks - {cs[i].0} || socks' - {cs[i].0} == socks - {cs[i].0})
    ensures var (s, c) := cs[i]; var e := ReportOf(before[s], c);
      FedUpTo(before, polled, over, cs, i + 1, events + (if e != 0 then [e] else []), socks',
              outstanding - {s}, completed + multiset{s})
  {
    hide ReportOf, Reports, Fed, Completed;
    OneFed(before, cs, i);
    forall j | i < j < |cs| ensures cs[j].0 in socks' && socks'[cs[j].0] == before[cs[j].0] {
      assert cs[j].0 in socks - {cs[i].0};
    }
  }

  lemma AllFed(before: map<nat, Sock>, polled: set<nat>, over: multiset<nat>, cs: seq<(nat, Completion)>,
               events: seq<bv32>, socks: map<nat, Sock>, outstanding: set<nat>, completed: multiset<nat>)
    requires FedUpTo(before, polled, over, cs, |cs|, events, socks, outstanding, completed)
    ensures outstanding == polled - Completed(cs) && completed == over + Fed(cs)
    ensures (forall i | 0 <= i < |cs| :: cs[i].0 in before) && events == Reports(before, cs)
    ensures 0 !in events && |events| <= |cs|
  {
    assert cs[..|cs|] == cs;
  }

  lemma OneFed(socks: map<nat, Sock>, cs: seq<(nat, Completion)>, i: nat)
    requires i < |cs| && forall j | 0 <= j < |cs| :: cs[j].0 in socks
    requires forall j, k | 0 <= j < k < |cs| :: cs[j].0 != cs[k].0
    ensures cs[i].0 !in Completed(cs[..i]) && Completed(cs[..i + 1]) == Completed(cs[..i]) + {cs[i].0}
    ensures Fed(cs[..i + 1]) == Fed(cs[..i]) + multiset{cs[i].0}
    ensures var e := ReportOf(socks[cs[i].0], cs[i].1);
      Reports(socks, cs[..i + 1]) == Reports(socks, cs[..i]) + if e != 0 then [e] else []
  {
    assert cs[..i + 1][..i] == cs[..i];
  }

  function EventsOf(c: Completion): bv32 {
    match c
    case WasCancelled => 0
    case RequestFailed => EPOLLERR
    case NothingReported => 0
    case Reported(afd) => AfdToEpoll(afd)
  }

  lemma OnlyError(x: bv32)
    requires IsEvent(x)
    ensures (EPOLLERR & x != 0 <==> x == EPOLLERR) && 0 & x == 0 && EPOLLERR & !KNOWN == 0 && 0 & !KNOWN == 0
    ensures EPOLLERR & EPOLLERR != 0 && 0 & EPOLLERR == 0
  {
  }

  /** Something occurred that a poll for x alone watches for, or a connect failed that x goes with. */
  predicate Occurred(a: bv32, x: bv32) {
    EpollToAfd(x) & a & !AFD_LOCAL_CLOSE != 0 || (a & AFD_CONNECT_FAIL != 0 && x & AFTER_FAILED_CONNECT != 0)
  }

  predicate ConnectFailed(a: bv32) {
    a & AFD_CONNECT_FAIL != 0
  }

  predicate Tells(events: bv32, x: bv32) {
    events & x != 0
  }

  lemma ReportedTells(a: bv32, x: bv32)
    requires IsEvent(x)
    ensures Tells(AfdToEpoll(a), x) <==> Occurred(a, x)
    ensures Tells(AfdToEpoll(a), EPOLLERR) <==> ConnectFailed(a)
  {
    hide EpollToAfd, AfdToEpoll, IsEvent;
    ReportedExactly(a, x);
  }

  /** What is reported for a completion, event by event; an error exactly for a failed request or connect. */
  lemma ToldExactly(c: Completion, x: bv32)
    requires IsEvent(x)
    ensures Tells(EventsOf(c), x) <==>
      match c
      case Reported(a) => Occurred(a, x)
      case RequestFailed => x == EPOLLERR
      case _ => false
    ensures Tells(EventsOf(c), EPOLLERR) <==> c.RequestFailed? || (c.Reported? && ConnectFailed(c.afd))
  {
    hide AfdToEpoll, Occurred, ConnectFailed, IsEvent;
    match c
    case Reported(a) => hide Tells; ReportedTells(a, x);
    case _ => OnlyError(x);
  }

  /** What the system answers to a request: done, the socket is gone, or another error. */
  datatype Answer = Done | Gone | Error

  lemma ErrorsWanted(events: bv32)
    ensures (events | EPOLLERR | EPOLLHUP) & KNOWN & !(0 as bv32) != 0
  {
  }

  lemma FullCover(events: bv32)
    ensures events & KNOWN & !events == 0
  {
  }

  lemma {:induction false} WithoutAbsent(q: seq<nat>, s: nat)
    requires s !in q
    ensures Without(q, s) == q
  {
    if q != [] { WithoutAbsent(q[1..], s); }
  }
}
