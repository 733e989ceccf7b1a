// Every act keeps the invariant of every service.
module SchedSteps {
  import opened SchedQueue
  import opened SchedModel
  import opened SchedInvariant

  lemma HeldByFew(kind: Kind, a: Act, b: Act, c: Act, y: nat)
    ensures HeldBy(kind, [], y) == 0
    ensures HeldBy(kind, [a], y) == Holds(kind, a, y)
    ensures HeldBy(kind, [a, b], y) == Holds(kind, a, y) + Holds(kind, b, y)
    ensures HeldBy(kind, [a, b, c], y) == Holds(kind, a, y) + Holds(kind, b, y) + Holds(kind, c, y)
  {
    hide Holds;
    assert [a][1..] == [] && [a, b][1..] == [b] && [b][1..] == [];
    assert [a, b, c][1..] == [b, c] && [b, c][1..] == [c] && [c][1..] == [];
    assert HeldBy(kind, [b, c], y) == Holds(kind, b, y) + HeldBy(kind, [c], y);
    assert HeldBy(kind, [a, b, c], y) == Holds(kind, a, y) + HeldBy(kind, [b, c], y);
  }

  /** The invariant of one service around an act: the thread that does it holds what the act holds before,
      and what the acts in its place hold after; the others hold r, c, d and h. */
  ghost predicate Before(s: Core, a: Act, y: nat, r: nat, c: nat, d: nat, h: nat) {
    && CoreOk(s) && ActOk(s, a) && y < |s.services| && h <= c
    && ServiceOk(s, y, r + Holds(Reference, a, y), c + Holds(Custody, a, y), d + Holds(Duty, a, y), h + Holds(Hand, a, y))
  }

  ghost predicate Afterwards(o: Outcome, y: nat, r: nat, c: nat, d: nat, h: nat)
    requires o.Done?
  {
    && y < |o.core.services|
    && ServiceOk(o.core, y, r + HeldBy(Reference, o.acts, y), c + HeldBy(Custody, o.acts, y), d + HeldBy(Duty, o.acts, y),
                 h + HeldBy(Hand, o.acts, y))
  }

  // The holdings of one, two or three acts.
  lemma Few(acts: seq<Act>, y: nat)
    requires |acts| <= 3
    ensures forall kind ::
      HeldBy(kind, acts, y) ==
        (if |acts| > 0 then Holds(kind, acts[0], y) else 0)
        + (if |acts| > 1 then Holds(kind, acts[1], y) else 0)
        + (if |acts| > 2 then Holds(kind, acts[2], y) else 0)
  {
    hide Holds;
    forall kind
      ensures HeldBy(kind, acts, y) ==
        (if |acts| > 0 then Holds(kind, acts[0], y) else 0)
        + (if |acts| > 1 then Holds(kind, acts[1], y) else 0)
        + (if |acts| > 2 then Holds(kind, acts[2], y) else 0)
    {
      if |acts| == 0 {
      } else if |acts| == 1 {
        assert acts == [acts[0]];
        HeldByFew(kind, acts[0], acts[0], acts[0], y);
      } else if |acts| == 2 {
        assert acts == [acts[0], acts[1]];
        HeldByFew(kind, acts[0], acts[1], acts[0], y);
      } else {
        assert acts == [acts[0], acts[1], acts[2]];
        HeldByFew(kind, acts[0], acts[1], acts[2], y);
      }
    }
  }

  lemma Dequeued(g: seq<nat>, y: nat)
    requires g != []
    ensures multiset(g)[y] == multiset(g[1..])[y] + if g[0] == y then 1 else 0
  {
    assert g == [g[0]] + g[1..];
  }

  lemma Enqueued(g: seq<nat>, q: nat, y: nat)
    ensures multiset(g + [q])[y] == multiset(g)[y] + if q == y then 1 else 0
  {
  }

  lemma KeepsPop(s: Core, a: Act, ch: Choice, y: nat, r: nat, c: nat, d: nat, h: nat)
    requires a.Pop?
    requires Before(s, a, y, r, c, d, h) && ExecDispatch(s, a, ch).Done?
    ensures Afterwards(ExecDispatch(s, a, ch), y, r, c, d, h)
  {
    hide HeldBy, Messages;
    var o := ExecDispatch(s, a, ch);
    Few(o.acts, y);
    if s.global != [] { Dequeued(s.global, y); }
  }

  lemma KeepsNext(s: Core, a: Act, ch: Choice, y: nat, r: nat, c: nat, d: nat, h: nat)
    requires a.Next?
    requires Before(s, a, y, r, c, d, h) && ExecDispatch(s, a, ch).Done?
    ensures Afterwards(ExecDispatch(s, a, ch), y, r, c, d, h)
  {
    hide HeldBy, Messages;
    var o := ExecDispatch(s, a, ch);
    Few(o.acts, y);
    if s.global != [] { Dequeued(s.global, y); }
  }

  lemma KeepsTake(s: Core, a: Act, ch: Choice, y: nat, r: nat, c: nat, d: nat, h: nat)
    requires a.Take?
    requires Before(s, a, y, r, c, d, h) && ExecDispatch(s, a, ch).Done?
    ensures Afterwards(ExecDispatch(s, a, ch), y, r, c, d, h)
  {
    hide HeldBy, Messages;
    var o := ExecDispatch(s, a, ch);
    Few(o.acts, y);
  }

  lemma KeepsLoop(s: Core, a: Act, ch: Choice, y: nat, r: nat, c: nat, d: nat, h: nat)
    requires a.Loop?
    requires Before(s, a, y, r, c, d, h) && ExecDispatch(s, a, ch).Done?
    ensures Afterwards(ExecDispatch(s, a, ch), y, r, c, d, h)
  {
    hide Before, Afterwards;
    if a.i >= a.n {
      LoopIsOver(s, a, ch, y, r, c, d, h);
    } else if a.q < |s.services| && s.services[a.q].q.msgs == [] {
      LoopFindsNone(s, a, ch, y, r, c, d, h);
    } else {
      LoopTakesOne(s, a, ch, y, r, c, d, h);
    }
  }

  lemma LoopIsOver(s: Core, a: Act, ch: Choice, y: nat, r: nat, c: nat, d: nat, h: nat)
    requires a.Loop? && a.i >= a.n
    requires Before(s, a, y, r, c, d, h) && ExecDispatch(s, a, ch).Done?
    ensures Afterwards(ExecDispatch(s, a, ch), y, r, c, d, h)
  {
    hide HeldBy, CoreOk, Messages;
    Few(ExecDispatch(s, a, ch).acts, y);
  }

  lemma LoopFindsNone(s: Core, a: Act, ch: Choice, y: nat, r: nat, c: nat, d: nat, h: nat)
    requires a.Loop? && a.i < a.n && a.q < |s.services| && s.services[a.q].q.msgs == []
    requires Before(s, a, y, r, c, d, h) && ExecDispatch(s, a, ch).Done?
    ensures Afterwards(ExecDispatch(s, a, ch), y, r, c, d, h)
  {
    hide HeldBy, CoreOk, Messages;
    Few(ExecDispatch(s, a, ch).acts, y);
  }

  lemma LoopTakesOne(s: Core, a: Act, ch: Choice, y: nat, r: nat, c: nat, d: nat, h: nat)
    requires a.Loop? && a.i < a.n && a.q < |s.services| && s.services[a.q].q.msgs != []
    requires Before(s, a, y, r, c, d, h) && ExecDispatch(s, a, ch).Done?
    ensures Afterwards(ExecDispatch(s, a, ch), y, r, c, d, h)
  {
    hide HeldBy, CoreOk, Messages;
    Few(ExecDispatch(s, a, ch).acts, y);
    var v := s.services[y];
    if v.q.msgs != [] { FirstTaken(v.taken, v.q.msgs); }
  }

  lemma FirstTaken(taken: seq<Msg>, msgs: seq<Msg>)
    requires msgs != []
    ensures taken + [] + msgs == taken + [msgs[0]] + [] + msgs[1..]
  {
  }

  lemma KeepsSize(s: Core, a: Act, ch: Choice, y: nat, r: nat, c: nat, d: nat, h: nat)
    requires a.Size?
    requires Before(s, a, y, r, c, d, h) && ExecDispatch(s, a, ch).Done?
    ensures Afterwards(ExecDispatch(s, a, ch), y, r, c, d, h)
  {
    hide HeldBy, Messages;
    var o := ExecDispatch(s, a, ch);
    Few(o.acts, y);
  }

  /** The message in hand is settled: the callback gets it, or it is discarded because there is none. */
  lemma KeepsDispatch(s: Core, a: Act, ch: Choice, y: nat, r: nat, c: nat, d: nat, h: nat)
    requires a.Dispatch?
    requires Before(s, a, y, r, c, d, h) && ExecDispatch(s, a, ch).Done?
    ensures Afterwards(ExecDispatch(s, a, ch), y, r, c, d, h)
  {
    hide HeldBy, CoreOk, Messages;
    var o := ExecDispatch(s, a, ch);
    Few(o.acts, y);
    var v := s.services[y];
    if y == a.q { NextSettled(v.fates, v.taken, if ch.b then Handled(a.m) else Discarded(a.m)); }
  }

  lemma NextSettled(fates: seq<Fate>, taken: seq<Msg>, f: Fate)
    requires Messages(fates) <= taken && |taken| == |fates| + 1 && taken[|fates|] == f.m
    ensures Messages(fates + [f]) == taken
  {
  }

  lemma KeepsInCall(s: Core, a: Act, ch: Choice, y: nat, r: nat, c: nat, d: nat, h: nat)
    requires a.InCall?
    requires Before(s, a, y, r, c, d, h) && ExecDispatch(s, a, ch).Done?
    ensures Afterwards(ExecDispatch(s, a, ch), y, r, c, d, h)
  {
    hide HeldBy, Messages;
    var o := ExecDispatch(s, a, ch);
    Few(o.acts, y);
  }

  lemma KeepsGiveBack(s: Core, a: Act, ch: Choice, y: nat, r: nat, c: nat, d: nat, h: nat)
    requires a.GiveBack?
    requires Before(s, a, y, r, c, d, h) && ExecDispatch(s, a, ch).Done?
    ensures Afterwards(ExecDispatch(s, a, ch), y, r, c, d, h)
  {
    hide HeldBy, Messages;
    var o := ExecDispatch(s, a, ch);
    Few(o.acts, y);
  }

  lemma KeepsDrop(s: Core, a: Act, y: nat, r: nat, c: nat, d: nat, h: nat)
    requires a.Drop?
    requires Before(s, a, y, r, c, d, h) && ExecEnd(s, a).Done?
    ensures Afterwards(ExecEnd(s, a), y, r, c, d, h)
  {
    hide HeldBy, Messages;
    var o := ExecEnd(s, a);
    Few(o.acts, y);
  }

  lemma KeepsMark(s: Core, a: Act, y: nat, r: nat, c: nat, d: nat, h: nat)
    requires a.Mark?
    requires Before(s, a, y, r, c, d, h) && ExecEnd(s, a).Done?
    ensures Afterwards(ExecEnd(s, a), y, r, c, d, h)
  {
    hide HeldBy, CoreOk, Messages;
    var o := ExecEnd(s, a);
    Few(o.acts, y);
  }

  lemma KeepsRelease(s: Core, a: Act, y: nat, r: nat, c: nat, d: nat, h: nat)
    requires a.Release?
    requires Before(s, a, y, r, c, d, h) && ExecEnd(s, a).Done?
    ensures Afterwards(ExecEnd(s, a), y, r, c, d, h)
  {
    hide HeldBy, CoreOk, Messages;
    Enqueued(s.global, a.q, y);
    var o := ExecEnd(s, a);
    Few(o.acts, y);
  }

  lemma KeepsFree(s: Core, a: Act, y: nat, r: nat, c: nat, d: nat, h: nat)
    requires a.Free?
    requires Before(s, a, y, r, c, d, h) && ExecEnd(s, a).Done?
    ensures Afterwards(ExecEnd(s, a), y, r, c, d, h)
  {
    hide HeldBy, Messages;
    var o := ExecEnd(s, a);
    Few(o.acts, y);
  }

  lemma KeepsDrain(s: Core, a: Act, y: nat, r: nat, c: nat, d: nat, h: nat)
    requires a.Drain?
    requires Before(s, a, y, r, c, d, h) && ExecEnd(s, a).Done?
    ensures Afterwards(ExecEnd(s, a), y, r, c, d, h)
  {
    hide HeldBy, Messages;
    var o := ExecEnd(s, a);
    Few(o.acts, y);
  }

  lemma KeepsSend(s: Core, a: Act, y: nat, r: nat, c: nat, d: nat, h: nat)
    requires a.Send?
    requires Before(s, a, y, r, c, d, h) && ExecCall(s, a).Done?
    ensures Afterwards(ExecCall(s, a), y, r, c, d, h)
  {
    hide HeldBy, Messages;
    var o := ExecCall(s, a);
    Few(o.acts, y);
  }

  lemma KeepsTouch(s: Core, a: Act, y: nat, r: nat, c: nat, d: nat, h: nat)
    requires a.Touch?
    requires Before(s, a, y, r, c, d, h) && ExecCall(s, a).Done?
    ensures Afterwards(ExecCall(s, a), y, r, c, d, h)
  {
    hide HeldBy, Messages;
    var o := ExecCall(s, a);
    Few(o.acts, y);
  }

  lemma KeepsKill(s: Core, a: Act, y: nat, r: nat, c: nat, d: nat, h: nat)
    requires a.Kill?
    requires Before(s, a, y, r, c, d, h) && ExecCall(s, a).Done?
    ensures Afterwards(ExecCall(s, a), y, r, c, d, h)
  {
    hide HeldBy, Messages;
    var o := ExecCall(s, a);
    Few(o.acts, y);
  }

  lemma KeepsPut(s: Core, a: Act, y: nat, r: nat, c: nat, d: nat, h: nat)
    requires a.Put?
    requires Before(s, a, y, r, c, d, h) && ExecCall(s, a).Done?
    ensures Afterwards(ExecCall(s, a), y, r, c, d, h)
  {
    hide Before, Afterwards;
    if a.c < |s.services| && s.services[a.c].q.inGlobal {
      PutToListed(s, a, y, r, c, d, h);
    } else {
      PutEnlists(s, a, y, r, c, d, h);
    }
  }

  lemma PutToListed(s: Core, a: Act, y: nat, r: nat, c: nat, d: nat, h: nat)
    requires a.Put? && a.c < |s.services| && s.services[a.c].q.inGlobal
    requires Before(s, a, y, r, c, d, h) && ExecCall(s, a).Done?
    ensures Afterwards(ExecCall(s, a), y, r, c, d, h)
  {
    hide HeldBy, CoreOk, Messages;
    Few(ExecCall(s, a).acts, y);
    var v := s.services[y];
    LastPushed(v.taken + v.dropped, v.q.msgs, a.m);
  }

  lemma PutEnlists(s: Core, a: Act, y: nat, r: nat, c: nat, d: nat, h: nat)
    requires a.Put? && a.c < |s.services| && !s.services[a.c].q.inGlobal
    requires Before(s, a, y, r, c, d, h) && ExecCall(s, a).Done?
    ensures Afterwards(ExecCall(s, a), y, r, c, d, h)
  {
    hide HeldBy, CoreOk, Messages;
    Enqueued(s.global, a.c, y);
    Few(ExecCall(s, a).acts, y);
    var v := s.services[y];
    LastPushed(v.taken + v.dropped, v.q.msgs, a.m);
  }

  lemma LastPushed(gone: seq<Msg>, msgs: seq<Msg>, m: Msg)
    ensures gone + msgs + [m] == gone + (msgs + [m])
  {
  }

  lemma KeepsLaunch(s: Core, a: Act, ch: Choice, y: nat, r: nat, c: nat, d: nat, h: nat)
    requires a.Launch?
    requires Before(s, a, y, r, c, d, h) && ExecLaunch(s, a, ch).Done?
    ensures Afterwards(ExecLaunch(s, a, ch), y, r, c, d, h)
  {
    hide HeldBy, Messages;
    var o := ExecLaunch(s, a, ch);
    Few(o.acts, y);
  }

  lemma KeepsInInit(s: Core, a: Act, ch: Choice, y: nat, r: nat, c: nat, d: nat, h: nat)
    requires a.InInit?
    requires Before(s, a, y, r, c, d, h) && ExecLaunch(s, a, ch).Done?
    ensures Afterwards(ExecLaunch(s, a, ch), y, r, c, d, h)
  {
    hide HeldBy, Messages;
    var o := ExecLaunch(s, a, ch);
    Few(o.acts, y);
  }

  lemma KeepsSetInit(s: Core, a: Act, ch: Choice, y: nat, r: nat, c: nat, d: nat, h: nat)
    requires a.SetInit?
    requires Before(s, a, y, r, c, d, h) && ExecLaunch(s, a, ch).Done?
    ensures Afterwards(ExecLaunch(s, a, ch), y, r, c, d, h)
  {
    hide HeldBy, Holds, CoreOk, Messages;
    SetInitHolds(a.c, y);
  }

  lemma SetInitHolds(c: nat, y: nat)
    ensures forall kind :: HeldBy(kind, [GiveBack(c), Report(c), ReadResult(c)], y) == Holds(kind, SetInit(c), y)
  {
    hide HeldBy;
    Few([GiveBack(c), Report(c), ReadResult(c)], y);
  }

  lemma KeepsInitOk(s: Core, a: Act, ch: Choice, y: nat, r: nat, c: nat, d: nat, h: nat)
    requires a.InitOk?
    requires Before(s, a, y, r, c, d, h) && ExecLaunch(s, a, ch).Done?
    ensures Afterwards(ExecLaunch(s, a, ch), y, r, c, d, h)
  {
    hide HeldBy, CoreOk, Messages;
    var o := ExecLaunch(s, a, ch);
    Few(o.acts, y);
  }

  lemma KeepsInitFailed(s: Core, a: Act, ch: Choice, y: nat, r: nat, c: nat, d: nat, h: nat)
    requires a.InitFailed?
    requires Before(s, a, y, r, c, d, h) && ExecLaunch(s, a, ch).Done?
    ensures Afterwards(ExecLaunch(s, a, ch), y, r, c, d, h)
  {
    hide HeldBy, CoreOk, Messages;
    var o := ExecLaunch(s, a, ch);
    Few(o.acts, y);
  }

  lemma KeepsFailedRetire(s: Core, a: Act, ch: Choice, y: nat, r: nat, c: nat, d: nat, h: nat)
    requires a.FailedRetire?
    requires Before(s, a, y, r, c, d, h) && ExecLaunch(s, a, ch).Done?
    ensures Afterwards(ExecLaunch(s, a, ch), y, r, c, d, h)
  {
    hide HeldBy, Messages;
    var o := ExecLaunch(s, a, ch);
    Few(o.acts, y);
  }

  lemma KeepsReport(s: Core, a: Act, ch: Choice, y: nat, r: nat, c: nat, d: nat, h: nat)
    requires a.Report? || a.ReadResult?
    requires Before(s, a, y, r, c, d, h) && ExecLaunch(s, a, ch).Done?
    ensures Afterwards(ExecLaunch(s, a, ch), y, r, c, d, h)
  {
    hide HeldBy, Messages;
    var o := ExecLaunch(s, a, ch);
    Few(o.acts, y);
  }

  // ----- what an act needs to know of the other services

  ghost predicate Facts(s: Core, a: Act) {
    && CoreOk(s) && ActOk(s, a)
    && (forall y | y in s.global :: Settled(s, y))
    && (a.Free? ==> !Registered(s, a.q))
    && (a.Put? && ContextLive(s, a.c) ==> !s.services[a.c].q.release)
    && (a.InitOk? && s.services[a.c].ref == 1 ==> !Registered(s, a.c))
  }

  /** How every act but 'Launch' and 'Free' changes the shared data. */
  ghost predicate Changes(s: Core, s': Core) {
    && |s'.services| == |s.services|
    && (forall y | 0 <= y < |s.services| :: Ages(s.services[y], s'.services[y]))
    && (forall h | h in s'.table :: h in s.table && s'.table[h] == s.table[h])
    && (forall y | y in s'.global :: y in s.global || y < |s.services|)
  }

  predicate Ages(v: Service, v': Service) {
    && v'.handle == v.handle
    && v'.freed == v.freed
    && (v.init ==> v'.init)
    && (v.q.release ==> v'.q.release && (v.q.msgs == [] ==> v'.q.msgs == []))
  }

  /** Only a thread that has a queue takes messages from it, or handles them, or makes its service ready. */
  ghost predicate Kept(s: Core, s': Core, a: Act) {
    && |s.services| <= |s'.services|
    && forall y: nat | y < |s.services| && !HoldsQueue(a, y) ::
         s'.services[y].taken == s.services[y].taken && s'.services[y].fates == s.services[y].fates
         && s'.services[y].init == s.services[y].init
  }

  /** Two acts that have no queue in common. */
  ghost predicate Apart(a: Act, b: Act) {
    forall y: nat :: !(HoldsQueue(a, y) && HoldsQueue(b, y))
  }

  lemma CoreChanges(s: Core, s': Core)
    requires CoreOk(s) && Changes(s, s')
    ensures CoreOk(s')
  {
  }

  lemma ActChanges(s: Core, s': Core, a: Act, b: Act)
    requires CoreOk(s) && Changes(s, s') && ActOk(s, b) && Kept(s, s', a) && Apart(a, b)
    ensures ActOk(s', b)
  {
    if HasMessage(b) || b.Loop? || b.InCall? { assert HoldsQueue(b, b.q) && !HoldsQueue(a, b.q); }
    if Launching(b) { assert HoldsQueue(b, b.c) && !HoldsQueue(a, b.c); }
    forall y: nat | Settled(s, y) ensures Settled(s', y) {
      assert Ages(s.services[y], s'.services[y]);
    }
  }

  lemma DispatchChanges(s: Core, a: Act, ch: Choice)
    requires IsWork(a)
    requires Facts(s, a) && ExecDispatch(s, a, ch).Done?
    ensures Changes(s, ExecDispatch(s, a, ch).core) && Kept(s, ExecDispatch(s, a, ch).core, a)
  {
  }

  lemma EndChanges(s: Core, a: Act)
    requires a.Drop? || a.Mark? || a.Release? || a.Drain?
    requires Facts(s, a) && ExecEnd(s, a).Done?
    ensures Changes(s, ExecEnd(s, a).core) && Kept(s, ExecEnd(s, a).core, a)
  {
  }

  lemma CallChanges(s: Core, a: Act)
    requires IsPush(a)
    requires Facts(s, a) && ExecCall(s, a).Done?
    ensures Changes(s, ExecCall(s, a).core) && Kept(s, ExecCall(s, a).core, a)
  {
  }

  lemma LaunchChanges(s: Core, a: Act, ch: Choice)
    requires a.InInit? || a.InitOk? || a.SetInit? || a.InitFailed? || a.FailedRetire? || a.Report? || a.ReadResult?
    requires Facts(s, a) && ExecLaunch(s, a, ch).Done?
    ensures Changes(s, ExecLaunch(s, a, ch).core) && Kept(s, ExecLaunch(s, a, ch).core, a)
  {
  }

  // The two acts that add a service and end a queue.
  lemma LaunchKeeps(s: Core, ch: Choice, b: Act)
    requires CoreOk(s) && ExecLaunch(s, Launch, ch).Done? && ActOk(s, b)
    ensures CoreOk(ExecLaunch(s, Launch, ch).core) && ActOk(ExecLaunch(s, Launch, ch).core, b)
  {
    var s' := ExecLaunch(s, Launch, ch).core;
    forall y | 0 <= y < |s.services| ensures s'.services[y] == s.services[y] {}
    forall y: nat | Settled(s, y) ensures Settled(s', y) {}
  }

  lemma FreeKeeps(s: Core, q: nat, b: Act)
    requires Facts(s, Free(q)) && ExecEnd(s, Free(q)).Done? && ActOk(s, b)
    ensures CoreOk(ExecEnd(s, Free(q)).core) && ActOk(ExecEnd(s, Free(q)).core, b)
  {
    var s' := ExecEnd(s, Free(q)).core;
    forall y: nat | Settled(s, y) ensures Settled(s', y) {}
  }

  /** An act leaves the shared data sound, and the acts of the other threads possible. */
  lemma ExecKeepsOthers(s: Core, a: Act, ch: Choice, b: Act)
    requires Facts(s, a) && Exec(s, a, ch).Done? && ActOk(s, b) && Apart(a, b)
    ensures CoreOk(Exec(s, a, ch).core) && ActOk(Exec(s, a, ch).core, b)
  {
    hide ActOk, CoreOk, Facts, Changes, Kept, Apart, ExecDispatch, ExecEnd, ExecCall, ExecLaunch;
    FactsCore(s, a);
    var s' := Exec(s, a, ch).core;
    if a.Launch? {
      LaunchKeeps(s, ch, b);
    } else if a.Free? {
      FreeKeeps(s, a.q, b);
    } else {
      if a.Drop? || a.Mark? || a.Release? || a.Drain? { EndChanges(s, a); }
      else if IsPush(a) { CallChanges(s, a); }
      else if a.InInit? || a.InitOk? || a.SetInit? || a.InitFailed? || a.FailedRetire? || a.Report? || a.ReadResult? { LaunchChanges(s, a, ch); }
      else { DispatchChanges(s, a, ch); }
      CoreChanges(s, s');
      ActChanges(s, s', a, b);
    }
  }

  lemma FactsCore(s: Core, a: Act)
    requires Facts(s, a)
    ensures CoreOk(s)
  {
  }

  ghost predicate ActsOk(o: Outcome) {
    o.Done? ==> forall b | b in o.acts :: ActOk(o.core, b)
  }

  lemma DispatchActsOk(s: Core, a: Act, ch: Choice)
    requires IsWork(a)
    requires Facts(s, a)
    ensures ActsOk(ExecDispatch(s, a, ch))
  {
    hide Facts, ActsOk, ExecDispatch;
    if a.Take? { TakeActsOk(s, a, ch); }
    else if a.Pop? || a.Next? { NextActsOk(s, a, ch); }
    else { MessageActsOk(s, a, ch); }
  }

  lemma TakeActsOk(s: Core, a: Act, ch: Choice)
    requires a.Take? && Facts(s, a)
    ensures ActsOk(ExecDispatch(s, a, ch))
  {
    if QueueLive(s, a.q) && s.services[a.q].handle in s.table { GrabsOwnContext(s, a.q); }
  }

  lemma NextActsOk(s: Core, a: Act, ch: Choice)
    requires (a.Pop? || a.Next?) && Facts(s, a)
    ensures ActsOk(ExecDispatch(s, a, ch))
  {
    hide CoreOk;
    if s.global != [] {
      assert s.global[0] in s.global && Settled(s, s.global[0]);
      assert Settled(s.(global := s.global[1..]), s.global[0]);
    }
  }

  lemma MessageActsOk(s: Core, a: Act, ch: Choice)
    requires IsWork(a) && !a.Take? && !a.Pop? && !a.Next? && Facts(s, a)
    ensures ActsOk(ExecDispatch(s, a, ch))
  {
    hide CoreOk, Messages;
  }

  /** The context that a worker finds under the handle of its queue is the queue's own. */
  lemma GrabsOwnContext(s: Core, q: nat)
    requires CoreOk(s) && QueueLive(s, q) && s.services[q].handle in s.table
    ensures s.table[s.services[q].handle] == q && Registered(s, q)
  {
    var c := s.table[s.services[q].handle];
    assert !s.services[c].freed && s.services[c].handle == s.services[q].handle;
  }

  lemma EndActsOk(s: Core, a: Act)
    requires IsEnd(a)
    requires Facts(s, a)
    ensures ActsOk(ExecEnd(s, a))
  {
  }

  lemma CallActsOk(s: Core, a: Act)
    requires IsPush(a)
    requires Facts(s, a)
    ensures ActsOk(ExecCall(s, a))
  {
  }

  lemma LaunchActsOk(s: Core, a: Act, ch: Choice)
    requires IsLaunch(a)
    requires Facts(s, a)
    ensures ActsOk(ExecLaunch(s, a, ch))
  {
  }

  lemma ExecActsOk(s: Core, a: Act, ch: Choice)
    requires Facts(s, a)
    ensures ActsOk(Exec(s, a, ch))
  {
    hide Facts, ActsOk, ExecDispatch, ExecEnd, ExecCall, ExecLaunch;
    if IsEnd(a) { EndActsOk(s, a); }
    else if IsPush(a) { CallActsOk(s, a); }
    else if IsLaunch(a) { LaunchActsOk(s, a, ch); }
    else { DispatchActsOk(s, a, ch); }
  }

  lemma ExecKeeps(s: Core, a: Act, ch: Choice, y: nat, r: nat, c: nat, d: nat, h: nat)
    requires Before(s, a, y, r, c, d, h) && Exec(s, a, ch).Done?
    ensures Afterwards(Exec(s, a, ch), y, r, c, d, h)
  {
    hide Before, Afterwards, ExecDispatch, ExecEnd, ExecCall, ExecLaunch;
    match a
    case Pop(_) => KeepsPop(s, a, ch, y, r, c, d, h);
    case Take(_, _) => KeepsTake(s, a, ch, y, r, c, d, h);
    case Loop(_, _, _, _, _, _) => KeepsLoop(s, a, ch, y, r, c, d, h);
    case Size(_, _, _, _, _) => KeepsSize(s, a, ch, y, r, c, d, h);
    case Dispatch(_, _, _, _, _, _, _) => KeepsDispatch(s, a, ch, y, r, c, d, h);
    case InCall(_, _, _, _, _, _, _) => KeepsInCall(s, a, ch, y, r, c, d, h);
    case Next(_, _, _) => KeepsNext(s, a, ch, y, r, c, d, h);
    case GiveBack(_) => KeepsGiveBack(s, a, ch, y, r, c, d, h);
    case Drop(_) => KeepsDrop(s, a, y, r, c, d, h);
    case Mark(_) => KeepsMark(s, a, y, r, c, d, h);
    case Release(_) => KeepsRelease(s, a, y, r, c, d, h);
    case Drain(_) => KeepsDrain(s, a, y, r, c, d, h);
    case Free(_) => KeepsFree(s, a, y, r, c, d, h);
    case Send(_, _) => KeepsSend(s, a, y, r, c, d, h);
    case Put(_, _) => KeepsPut(s, a, y, r, c, d, h);
    case Touch(_) => KeepsTouch(s, a, y, r, c, d, h);
    case Kill(_) => KeepsKill(s, a, y, r, c, d, h);
    case Launch => KeepsLaunch(s, a, ch, y, r, c, d, h);
    case InInit(_) => KeepsInInit(s, a, ch, y, r, c, d, h);
    case InitOk(_) => KeepsInitOk(s, a, ch, y, r, c, d, h);
    case SetInit(_) => KeepsSetInit(s, a, ch, y, r, c, d, h);
    case InitFailed(_) => KeepsInitFailed(s, a, ch, y, r, c, d, h);
    case FailedRetire(_) => KeepsFailedRetire(s, a, ch, y, r, c, d, h);
    case Report(_) => KeepsReport(s, a, ch, y, r, c, d, h);
    case ReadResult(_) => KeepsReport(s, a, ch, y, r, c, d, h);
  }
}
