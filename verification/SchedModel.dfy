// The scheduler as a transition system. One step is one critical section or one atomic operation; any
// number of threads take steps in any order. A thread is its call stack: the acts it has still to do.
module SchedModel {
  import opened Wrappers
  import opened SchedQueue

  /** A service: its context and its message queue, which exists from before the first and until after the
      last use of the context. The last four fields record what became of its messages. */
  datatype Service = Service(
    handle: int, q: Queue, freed: bool,   // the queue
    ref: int, init: bool,                 // the context, gone when ref is 0
    pushed: seq<Msg>, taken: seq<Msg>, fates: seq<Fate>, dropped: seq<Msg>)

  /** What a worker does with a message that it took: the callback gets it, or there is none. */
  datatype Fate = Handled(m: Msg) | Discarded(m: Msg)

  function Messages(fates: seq<Fate>): (ms: seq<Msg>)
    ensures |ms| == |fates|
  {
    seq(|fates|, i requires 0 <= i < |fates| => fates[i].m)
  }

  datatype Act =
    // a worker, skynet_context_message_dispatch; w is its weight, m the message in hand, and b how many messages
    // had been taken from the queue before this call
    | Pop(w: int)                                               // skynet_globalmq_pop with no queue in hand
    | Take(q: nat, w: int)                                      // skynet_handle_grab of the queue's handle
    | Loop(q: nat, c: nat, b: nat, i: nat, n: nat, w: int)      // the loop test and skynet_mq_pop
    | Size(q: nat, c: nat, b: nat, m: Msg, w: int)              // skynet_mq_length
    | Dispatch(q: nat, c: nat, b: nat, m: Msg, i: nat, n: nat, w: int)   // is there a callback?
    | InCall(q: nat, c: nat, b: nat, m: Msg, i: nat, n: nat, w: int)     // the callback runs
    | Next(q: nat, c: nat, w: int)                              // skynet_globalmq_pop after the loop
    | GiveBack(q: nat)                                          // skynet_globalmq_push
    // the end of a context, and of its queue
    | Drop(c: nat)                                              // skynet_context_release
    | Mark(c: nat)                                              // skynet_mq_mark_release
    | Release(q: nat)                                           // skynet_mq_release
    | Drain(q: nat)                                             // _drop_queue
    | Free(q: nat)                                              // _release
    // calls that any thread may make
    | Send(h: int, m: Msg)                                      // skynet_context_push: the grab
    | Put(c: nat, m: Msg)                                       // skynet_mq_push
    | Touch(h: int)                                             // any other use of a grabbed context
    | Kill(h: int)                                              // skynet_handle_retire
    | Launch                                                    // skynet_context_new, up to the init function
    | InInit(c: nat)                                            // the init function runs
    | InitOk(c: nat)                                            // skynet_context_release at line 165
    | SetInit(c: nat)                                           // line 167
    | Report(c: nat)                                            // skynet_error at line 171
    | ReadResult(c: nat)                                        // the caller, with the context returned
    | InitFailed(c: nat)                                        // skynet_context_release at line 177
    | FailedRetire(c: nat)                                      // skynet_handle_retire at line 178

  datatype Core = Core(services: seq<Service>, table: map<int, nat>, global: seq<nat>)
  datatype State = State(core: Core, threads: seq<seq<Act>>)

  /** What the program does not determine: what service code does, and which handle is free. */
  datatype Choice = Go | HasCallback(b: bool) | Call(x: Act) | Return(ok: bool) | Fresh(h: int)

  /** The outcome of an act: the new state of the shared data and what the thread has to do instead, or a
      failed assertion or a use of freed memory. */
  datatype Outcome = Done(core: Core, acts: seq<Act>) | Disabled | Crash

  const PTYPE_ERROR := 7

  function ErrorFrom(h: int): Msg {
    Msg(h, 0, PTYPE_ERROR, 0)
  }

  predicate IsCall(x: Act) {
    x.Send? || x.Touch? || x.Kill? || x.Launch?
  }

  // The four parts of 'Exec'.
  predicate IsWork(a: Act) {
    a.Pop? || a.Take? || a.Loop? || a.Size? || a.Dispatch? || a.InCall? || a.Next? || a.GiveBack?
  }

  predicate IsEnd(a: Act) {
    a.Drop? || a.Mark? || a.Release? || a.Drain? || a.Free?
  }

  predicate IsPush(a: Act) {
    a.Send? || a.Put? || a.Touch? || a.Kill?
  }

  predicate IsLaunch(a: Act) {
    a.Launch? || a.InInit? || a.InitOk? || a.SetInit? || a.InitFailed? || a.FailedRetire? || a.Report? || a.ReadResult?
  }

  predicate QueueLive(s: Core, q: nat) {
    q < |s.services| && !s.services[q].freed
  }

  predicate ContextLive(s: Core, c: nat) {
    c < |s.services| && s.services[c].ref > 0
  }

  function With(s: Core, x: nat, v: Service): Core
    requires x < |s.services|
  {
    s.(services := s.services[x := v])
  }

  /** Reference counting. */
  function Ref(s: Core, c: nat, d: int): Core
    requires c < |s.services|
  {
    With(s, c, s.services[c].(ref := s.services[c].ref + d))
  }

  /** The record of what is done with a message. */
  function Settle(s: Core, q: nat, f: Fate): Core
    requires q < |s.services|
  {
    With(s, q, s.services[q].(fates := s.services[q].fates + [f]))
  }

  /** 'skynet_globalmq_push', which asserts that the queue is not linked yet. */
  function Enlist(s: Core, q: nat, acts: seq<Act>): Outcome {
    if q in s.global then Crash else Done(s.(global := s.global + [q]), acts)
  }

  /** Grab the context of a handle, then go on with it. */
  function Grab(s: Core, h: int, then_: Act, else_: seq<Act>): Outcome {
    if h !in s.table then Done(s, else_)
    else if !ContextLive(s, s.table[h]) then Crash
    else Done(Ref(s, s.table[h], 1), [then_])
  }

  function DropRef(s: Core, c: nat, kept: seq<Act>, gone: seq<Act>): Outcome {
    if !ContextLive(s, c) then Crash
    else if s.services[c].ref == 1 then Done(Ref(s, c, -1), gone)
    else Done(Ref(s, c, -1), kept)
  }

  function Retire(s: Core, h: int, removed: seq<Act>, absent: seq<Act>): Outcome {
    if h !in s.table then Done(s, absent)
    else if !ContextLive(s, s.table[h]) then Crash
    else Done(s.(table := s.table - {h}), removed)
  }

  function NewService(h: int): Service {
    Service(h, Queue([], true, false), false, 2, false, [], [], [], [])
  }

  /** A handle that no context has and no live queue had. */
  predicate HandleFree(s: Core, h: int) {
    h != 0 && h !in s.table && forall y | 0 <= y < |s.services| :: s.services[y].freed || s.services[y].handle != h
  }

  /** How many messages a worker takes in one go: the length shifted right by its weight. */
  function Share(length: nat, w: int): nat
    decreases w
  {
    if w <= 0 then length else Share(length / 2, w - 1)
  }

  function ExecLoop(s: Core, q: nat, c: nat, b: nat, i: nat, n: nat, w: int): Outcome {
    if !QueueLive(s, q) || !ContextLive(s, c) then Crash
    else if i >= n then (if q != c then Crash else Done(s, [Next(q, c, w)])) else
    var v := s.services[q];
    if v.q.msgs == [] then Done(With(s, q, v.(q := Popped(v.q))), [Drop(c), Pop(w)])
    else Done(With(s, q, v.(q := Popped(v.q), taken := v.taken + [v.q.msgs[0]])),
              [if i == 0 && w >= 0 then Size(q, c, b, v.q.msgs[0], w) else Dispatch(q, c, b, v.q.msgs[0], i, n, w)])
  }

  function ExecDispatch(s: Core, a: Act, ch: Choice): Outcome
    requires IsWork(a)
  {
    match a
    case Pop(w) =>
      if s.global == [] then Done(s, [Pop(w)])
      else Done(s.(global := s.global[1..]), [Take(s.global[0], w)])
    case Take(q, w) =>
      if !QueueLive(s, q) then Crash else
      var v := s.services[q];
      Grab(s, v.handle, Loop(q, if v.handle in s.table then s.table[v.handle] else q, |v.taken|, 0, 1, w), [Release(q), Pop(w)])
    case Loop(q, c, b, i, n, w) => ExecLoop(s, q, c, b, i, n, w)
    case Size(q, c, b, m, w) =>
      if !QueueLive(s, q) then Crash
      else Done(s, [Dispatch(q, c, b, m, 0, Share(|s.services[q].q.msgs|, w), w)])
    case Dispatch(q, c, b, m, i, n, w) =>
      if !ch.HasCallback? then Disabled
      else if !ContextLive(s, c) || !QueueLive(s, q) then Crash
      else if !ch.b then Done(Settle(s, q, Discarded(m)), [Loop(q, c, b, i + 1, n, w)])
      else if !s.services[c].init then Crash
      else Done(Settle(s, q, Handled(m)), [InCall(q, c, b, m, i, n, w)])
    case InCall(q, c, b, m, i, n, w) =>
      if ch.Call? && IsCall(ch.x) then Done(s, [ch.x, a])
      else if ch.Return? then (if !ContextLive(s, c) then Crash else Done(s, [Loop(q, c, b, i + 1, n, w)]))
      else Disabled
    case Next(q, c, w) =>
      if s.global == [] then Done(s, [Drop(c), Take(q, w)])
      else Done(s.(global := s.global[1..]), [GiveBack(q), Drop(c), Take(s.global[0], w)])
    case GiveBack(q) =>
      if !QueueLive(s, q) then Crash else Enlist(s, q, [])
  }

  function ExecEnd(s: Core, a: Act): Outcome
    requires IsEnd(a)
  {
    match a
    case Drop(c) => DropRef(s, c, [], [Mark(c)])
    case Mark(c) =>
      if !QueueLive(s, c) || s.services[c].q.release then Crash else
      var v := s.services[c];
      var s' := With(s, c, v.(q := v.q.(release := true)));
      if v.q.inGlobal then Done(s', []) else Enlist(s', c, [])
    case Release(q) =>
      if !QueueLive(s, q) then Crash
      else if s.services[q].q.release then Done(s, [Drain(q)])
      else Enlist(s, q, [])
    case Drain(q) =>
      if !QueueLive(s, q) then Crash else
      var v := s.services[q];
      if v.q.msgs == [] then Done(With(s, q, v.(q := Popped(v.q))), [Free(q)])
      else Done(With(s, q, v.(q := Popped(v.q), dropped := v.dropped + [v.q.msgs[0]])),
                [Send(v.q.msgs[0].source, ErrorFrom(v.handle)), Drain(q)])
    case Free(q) =>
      if !QueueLive(s, q) || q in s.global then Crash
      else Done(With(s, q, s.services[q].(freed := true)), [])
  }

  function ExecCall(s: Core, a: Act): Outcome
    requires IsPush(a)
  {
    match a
    case Send(h, m) => Grab(s, h, Put(if h in s.table then s.table[h] else 0, m), [])
    case Put(c, m) =>
      if !ContextLive(s, c) || !QueueLive(s, c) then Crash else
      var v := s.services[c];
      var s' := With(s, c, v.(q := Pushed(v.q, m), pushed := v.pushed + [m]));
      if v.q.inGlobal then Done(s', [Drop(c)]) else Enlist(s', c, [Drop(c)])
    case Touch(h) => Grab(s, h, Drop(if h in s.table then s.table[h] else 0), [])
    case Kill(h) => Retire(s, h, [Drop(if h in s.table then s.table[h] else 0)], [])
  }

  function ExecLaunch(s: Core, a: Act, ch: Choice): Outcome
    requires IsLaunch(a)
  {
    match a
    case Launch =>
      if !ch.Fresh? || !HandleFree(s, ch.h) then Disabled
      else Done(s.(services := s.services + [NewService(ch.h)], table := s.table[ch.h := |s.services|]),
                [InInit(|s.services|)])
    case InInit(c) =>
      if ch.Call? && IsCall(ch.x) then Done(s, [ch.x, a])
      else if ch.Return? then Done(s, [if ch.ok then InitOk(c) else InitFailed(c)])
      else Disabled
    case InitOk(c) => DropRef(s, c, [SetInit(c)], [Mark(c), GiveBack(c)])
    case SetInit(c) =>
      if !ContextLive(s, c) then Crash
      else Done(With(s, c, s.services[c].(init := true)), [GiveBack(c), Report(c), ReadResult(c)])
    case Report(c) =>
      // without a logger nothing is read
      if ch.Go? then Done(s, [])
      else if !ch.Call? || !ch.x.Send? then Disabled
      else if !ContextLive(s, c) then Crash
      else Done(s, [ch.x])
    case ReadResult(c) =>
      // whether the caller reads the handle of the context
      if !ch.Return? then Disabled
      else if ch.ok && !ContextLive(s, c) then Crash
      else Done(s, [])
    case InitFailed(c) => DropRef(s, c, [FailedRetire(c)], [Mark(c), FailedRetire(c)])
    case FailedRetire(c) =>
      if !QueueLive(s, c) then Crash
      else Retire(s, s.services[c].handle, [Drop(c), Release(c)], [Release(c)])
  }

  /** One act of one thread. */
  function Exec(s: Core, a: Act, ch: Choice): Outcome {
    match a
    case Pop(_) => ExecDispatch(s, a, ch)
    case Take(_, _) => ExecDispatch(s, a, ch)
    case Loop(_, _, _, _, _, _) => ExecDispatch(s, a, ch)
    case Size(_, _, _, _, _) => ExecDispatch(s, a, ch)
    case Dispatch(_, _, _, _, _, _, _) => ExecDispatch(s, a, ch)
    case InCall(_, _, _, _, _, _, _) => ExecDispatch(s, a, ch)
    case Next(_, _, _) => ExecDispatch(s, a, ch)
    case GiveBack(_) => ExecDispatch(s, a, ch)
    case Drop(_) => ExecEnd(s, a)
    case Mark(_) => ExecEnd(s, a)
    case Release(_) => ExecEnd(s, a)
    case Drain(_) => ExecEnd(s, a)
    case Free(_) => ExecEnd(s, a)
    case Send(_, _) => ExecCall(s, a)
    case Put(_, _) => ExecCall(s, a)
    case Touch(_) => ExecCall(s, a)
    case Kill(_) => ExecCall(s, a)
    case _ => ExecLaunch(s, a, ch)
  }

  /** A step: a thread starts, or thread k does its next act. */
  datatype Label = Spawn(x: Act) | Run(k: nat, ch: Choice)

  function Step(s: State, l: Label): Option<State> {
    match l
    case Spawn(x) =>
      if x.Pop? || IsCall(x) then Some(s.(threads := s.threads + [[x]])) else None
    case Run(k, ch) =>
      if k >= |s.threads| || s.threads[k] == [] then None else
      match Exec(s.core, s.threads[k][0], ch)
      case Done(core, acts) => Some(State(core, s.threads[k := acts + s.threads[k][1..]]))
      case _ => None
  }

  const INITIAL := State(Core([], map[], []), [])

  /** The state after a run. */
  function After(ls: seq<Label>): Option<State> {
    if ls == [] then Some(INITIAL) else
    match After(ls[..|ls| - 1])
    case None => None
    case Some(s) => Step(s, ls[|ls| - 1])
  }
}
