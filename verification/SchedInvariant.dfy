// What every step of the scheduler keeps.
module SchedInvariant {
  import opened SchedQueue
  import opened SchedModel

  // ----- what the threads hold

  /** A reference to a context, the right to schedule a queue, the duty to mark a queue as released, a message that
      was taken and is still to be handled. */
  datatype Kind = Reference | Custody | Duty | Hand

  function Holds(kind: Kind, a: Act, y: nat): nat {
    match kind
    case Reference => if HoldsReference(a, y) then 1 else 0
    case Custody => if HoldsQueue(a, y) then 1 else 0
    case Duty => if a == Mark(y) then 1 else 0
    case Hand => if HasMessage(a) && a.q == y then 1 else 0
  }

  predicate HasMessage(a: Act) {
    a.Size? || a.Dispatch?
  }

  predicate HoldsReference(a: Act, y: nat) {
    match a
    case Loop(_, c, _, _, _, _) => c == y
    case Size(_, c, _, _, _) => c == y
    case Dispatch(_, c, _, _, _, _, _) => c == y
    case InCall(_, c, _, _, _, _, _) => c == y
    case Next(_, c, _) => c == y
    case Drop(c) => c == y
    case Put(c, _) => c == y
    case InInit(c) => c == y
    case InitOk(c) => c == y
    case InitFailed(c) => c == y
    case _ => false
  }

  predicate HoldsQueue(a: Act, y: nat) {
    match a
    case Take(q, _) => q == y
    case Loop(q, _, _, _, _, _) => q == y
    case Size(q, _, _, _, _) => q == y
    case Dispatch(q, _, _, _, _, _, _) => q == y
    case InCall(q, _, _, _, _, _, _) => q == y
    case Next(q, _, _) => q == y
    case GiveBack(q) => q == y
    case Release(q) => q == y
    case Drain(q) => q == y
    case Free(q) => q == y
    case InInit(c) => c == y
    case InitOk(c) => c == y
    case SetInit(c) => c == y
    case InitFailed(c) => c == y
    case FailedRetire(c) => c == y
    case _ => false
  }

  function HeldBy(kind: Kind, t: seq<Act>, y: nat): nat {
    if t == [] then 0 else Holds(kind, t[0], y) + HeldBy(kind, t[1..], y)
  }

  function Held(kind: Kind, threads: seq<seq<Act>>, y: nat): nat {
    if threads == [] then 0 else HeldBy(kind, threads[0], y) + Held(kind, threads[1..], y)
  }

  lemma {:induction false} HeldByAppend(kind: Kind, t: seq<Act>, u: seq<Act>, y: nat)
    ensures HeldBy(kind, t + u, y) == HeldBy(kind, t, y) + HeldBy(kind, u, y)
  {
    hide Holds;
    if t == [] {
      assert t + u == u;
    } else {
      assert (t + u)[1..] == t[1..] + u;
      HeldByAppend(kind, t[1..], u, y);
    }
  }

  lemma {:induction false} HeldUpdate(kind: Kind, threads: seq<seq<Act>>, k: nat, t: seq<Act>, y: nat)
    requires k < |threads|
    ensures Held(kind, threads[k := t], y) == Held(kind, threads, y) - HeldBy(kind, threads[k], y) + HeldBy(kind, t, y)
    ensures HeldBy(kind, threads[k], y) <= Held(kind, threads, y)
  {
    if k == 0 {
      assert threads[0 := t][1..] == threads[1..];
    } else {
      assert threads[k := t][1..] == threads[1..][k - 1 := t];
      HeldUpdate(kind, threads[1..], k - 1, t, y);
    }
  }

  lemma {:induction false} HeldSpawn(kind: Kind, threads: seq<seq<Act>>, t: seq<Act>, y: nat)
    ensures Held(kind, threads + [t], y) == Held(kind, threads, y) + HeldBy(kind, t, y)
  {
    if threads == [] {
      assert threads + [t] == [t] && [t][1..] == [];
    } else {
      assert (threads + [t])[1..] == threads[1..] + [t];
      HeldSpawn(kind, threads[1..], t, y);
    }
  }

  // ----- the invariant

  predicate Registered(s: Core, y: nat) {
    y < |s.services| && s.services[y].handle in s.table && s.table[s.services[y].handle] == y
  }

  /** Nobody will run the service before it is ready: it is, or it can no longer be grabbed. */
  predicate Settled(s: Core, y: nat) {
    y < |s.services| && (s.services[y].init || !Registered(s, y))
  }

  /** The number of places in which a queue has to be: one as long as there is something to do with it. */
  function Places(v: Service): nat {
    if v.freed then 0 else if v.q.release || v.q.inGlobal then 1 else 0
  }

  /** What holds of a service, given how many references, custodies, duties and messages the threads hold. */
  ghost predicate ServiceOk(s: Core, y: nat, references: int, custodies: int, duties: int, hands: int)
    requires y < |s.services|
  {
    var v := s.services[y];
    && v.ref == references + (if Registered(s, y) then 1 else 0)
    && multiset(s.global)[y] + custodies == Places(v)
    && duties == (if v.ref == 0 && !v.q.release then 1 else 0)
    && (v.freed ==> v.q.release)
    && (v.q.release ==> v.ref == 0)
    && (v.freed ==> v.q.msgs == [])
    && (!v.q.release && !v.q.inGlobal ==> v.q.msgs == [] && v.init)
    && v.pushed == v.taken + v.dropped + v.q.msgs
    && Messages(v.fates) <= v.taken && |v.taken| == |v.fates| + hands
    && (v.dropped != [] ==> v.q.release)
    && (y in s.global ==> Settled(s, y))
  }

  predicate IsLast(ms: seq<Msg>, m: Msg) {
    ms != [] && ms[|ms| - 1] == m
  }

  /** A ready service from which t messages have been taken; a worker without a weight takes one at a time. */
  predicate InGo(v: Service, t: nat, w: int, n: nat) {
    v.init && |v.taken| == t && (w < 0 ==> n == 1)
  }

  /** The thread is launching the service, which is not ready yet. */
  predicate Launching(a: Act) {
    a.InInit? || a.InitOk? || a.SetInit? || a.InitFailed? || a.FailedRetire?
  }

  predicate ActOk(s: Core, a: Act) {
    var n := |s.services|;
    match a
    case Take(q, _) => Settled(s, q)
    case GiveBack(q) => Settled(s, q)
    case Release(q) => Settled(s, q)
    case Loop(q, c, b, i, k, w) => q == c < n && InGo(s.services[q], b + i, w, k) && (if i == 0 then k == 1 else i == 1 || i <= k)
    case Size(q, c, b, m, w) => q == c < n && InGo(s.services[q], b + 1, w, 1) && IsLast(s.services[q].taken, m) && w >= 0
    case Dispatch(q, c, b, m, i, k, w) =>
      q == c < n && InGo(s.services[q], b + i + 1, w, k) && IsLast(s.services[q].taken, m) && (i == 0 || i < k)
    case InCall(q, c, b, m, i, k, w) =>
      && q == c < n && InGo(s.services[q], b + i + 1, w, k) && (i == 0 || i < k)
      && s.services[q].fates != [] && s.services[q].fates[|s.services[q].fates| - 1] == Handled(m)
    case Next(q, c, _) => q == c < n && s.services[q].init
    case Drain(q) => q < n && s.services[q].q.release
    case Free(q) => q < n && s.services[q].q.release && s.services[q].q.msgs == []
    case Drop(c) => c < n
    case Put(c, _) => c < n
    case Mark(c) => c < n
    case InInit(c) => c < n && !s.services[c].init
    case InitOk(c) => c < n && !s.services[c].init
    case SetInit(c) => c < n && !s.services[c].init
    case Report(c) => c < n
    case ReadResult(c) => c < n
    case InitFailed(c) => c < n && !s.services[c].init
    case FailedRetire(c) => c < n && !s.services[c].init
    case _ => true
  }

  /** The handle table and the global list mention services that exist; live queues have different handles. */
  ghost predicate CoreOk(s: Core) {
    && (forall h | h in s.table ::
          s.table[h] < |s.services| && s.services[s.table[h]].handle == h && !s.services[s.table[h]].freed)
    && (forall y, z | 0 <= y < z < |s.services| && !s.services[y].freed && !s.services[z].freed ::
          s.services[y].handle != s.services[z].handle)
    && (forall y | y in s.global :: y < |s.services|)
  }

  ghost predicate ServicesOk(s: State) {
    forall y: nat | y < |s.core.services| ::
      ServiceOk(s.core, y, Held(Reference, s.threads, y), Held(Custody, s.threads, y), Held(Duty, s.threads, y),
                Held(Hand, s.threads, y))
  }

  ghost predicate ThreadsOk(s: State) {
    forall k, j | 0 <= k < |s.threads| && 0 <= j < |s.threads[k]| :: ActOk(s.core, s.threads[k][j])
  }

  ghost predicate Inv(s: State) {
    CoreOk(s.core) && ServicesOk(s) && ThreadsOk(s)
  }
}
