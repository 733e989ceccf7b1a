// The guarantees of the scheduler, for every run of any number of threads.
module SchedResults {
  import opened Wrappers
  import opened SchedQueue
  import opened SchedModel
  import opened SchedInvariant
  import opened SchedSteps
  import opened SchedSafety

  // ----- one place, one thread

  /** The act runs code of service y: its init function or its callback. */
  predicate Runs(a: Act, y: nat) {
    (a.InCall? && a.c == y) || (a.InInit? && a.c == y)
  }

  /** At most one thread runs a service's code, at one place of its stack; and the callback only runs once
      the init function has succeeded. */
  lemma OneThreadRuns(ls: seq<Label>, y: nat, k: nat, j: nat, k': nat, j': nat)
    requires After(ls).Some? && At(After(ls).value, k, j) && At(After(ls).value, k', j')
    requires Runs(After(ls).value.threads[k][j], y) && Runs(After(ls).value.threads[k'][j'], y)
    ensures k == k' && j == j'
    ensures After(ls).value.threads[k][j].InCall? ==> y < |After(ls).value.core.services| && After(ls).value.core.services[y].init
  {
    var s := After(ls).value;
    InvariantHolds(ls);
    assert ActOk(s.core, s.threads[k][j]) && ActOk(s.core, s.threads[k'][j']);
    CustodyIsUnique(s, y, k, j, k', j');
  }

  /** A service is not ready as long as it is being launched, so that no callback runs before its init function has
      succeeded. */
  lemma NotReadyYet(ls: seq<Label>, k: nat, j: nat)
    requires After(ls).Some? && At(After(ls).value, k, j) && Launching(After(ls).value.threads[k][j])
    ensures var s := After(ls).value; var c := s.threads[k][j].c;
      && c < |s.core.services| && !s.core.services[c].init
      && forall l: nat, i: nat | At(s, l, i) && s.threads[l][i].InCall? :: s.threads[l][i].c != c
  {
    hide Held, HeldBy;
    var s := After(ls).value;
    InvariantHolds(ls);
    assert ActOk(s.core, s.threads[k][j]);
    forall l: nat, i: nat | At(s, l, i) && s.threads[l][i].InCall? ensures s.threads[l][i].c != s.threads[k][j].c {
      assert ActOk(s.core, s.threads[l][i]);
    }
  }

  /** A launch is possible with every handle that is not in the table and that no live queue has. */
  lemma LaunchPossible(s: Core, h: int)
    requires h != 0 && h !in s.table && forall v | v in s.services && !v.freed :: v.handle != h
    ensures ExecLaunch(s, Launch, Fresh(h)).Done?
  {
    forall y | 0 <= y < |s.services| ensures s.services[y].freed || s.services[y].handle != h {
      assert s.services[y] in s.services;
    }
  }

  predicate CustodyAt(s: State, y: nat, k: nat, j: nat) {
    At(s, k, j) && HoldsQueue(s.threads[k][j], y)
  }

  /** A live queue that is released or flagged as scheduled is in exactly one place, the global list or the
      hands of one thread; any other queue is idle, empty and nowhere. */
  lemma OnePlace(ls: seq<Label>, y: nat) returns (k: nat, j: nat)
    requires After(ls).Some? && y < |After(ls).value.core.services|
    ensures var s := After(ls).value; var v := s.core.services[y];
            if v.freed || (!v.q.release && !v.q.inGlobal) then
              v.q.msgs == [] && y !in s.core.global && forall l: nat, m: nat :: !CustodyAt(s, y, l, m)
            else if y in s.core.global then
              multiset(s.core.global)[y] == 1 && forall l: nat, m: nat :: !CustodyAt(s, y, l, m)
            else
              forall l: nat, m: nat :: CustodyAt(s, y, l, m) <==> l == k && m == j
  {
    hide Held, HeldBy;
    var s := After(ls).value;
    InvariantHolds(ls);
    var held := Held(Custody, s.threads, y);
    assert ServiceOk(s.core, y, Held(Reference, s.threads, y), held, Held(Duty, s.threads, y), Held(Hand, s.threads, y));
    assert y in s.core.global ==> multiset(s.core.global)[y] > 0;
    k, j := 0, 0;
    if held > 0 {
      k, j := HeldPlace(Custody, s.threads, y);
      forall l: nat, m: nat | CustodyAt(s, y, l, m) ensures l == k && m == j {
        CustodyIsUnique(s, y, k, j, l, m);
      }
    } else {
      forall l: nat, m: nat ensures !CustodyAt(s, y, l, m) {
        if CustodyAt(s, y, l, m) { NoneHeld(s, y, l, m); }
      }
    }
  }

  lemma NoneHeld(s: State, y: nat, k: nat, j: nat)
    requires CustodyAt(s, y, k, j)
    ensures Held(Custody, s.threads, y) > 0
  {
    HeldTwo(Custody, s.threads, y, k, k);
    HeldByTwo(Custody, s.threads[k], y, j, j);
  }

  /** Messages that wait are never left unscheduled: the queue is in the global list or some thread has it. */
  lemma WaitingIsScheduled(ls: seq<Label>, y: nat)
    requires After(ls).Some? && y < |After(ls).value.core.services|
    requires After(ls).value.core.services[y].q.msgs != []
    ensures var s := After(ls).value;
            y in s.core.global || exists k: nat, j: nat :: CustodyAt(s, y, k, j)
  {
    var k, j := OnePlace(ls, y);
    assert !(y in After(ls).value.core.global) ==> CustodyAt(After(ls).value, y, k, j);
  }

  // ----- messages

  /** Every message pushed was given to the callback or discarded because there is none, or is in the hands of the
      one thread that has the queue, or was dropped, or still waits: each once and in order. Only a released queue
      drops messages, and a freed one has none left. */
  lemma Conservation(ls: seq<Label>, y: nat) returns (hand: seq<Msg>, k: nat, j: nat)
    requires After(ls).Some? && y < |After(ls).value.core.services|
    ensures var s := After(ls).value; var v := s.core.services[y];
            && v.taken == Messages(v.fates) + hand
            && v.pushed == Messages(v.fates) + hand + v.dropped + v.q.msgs
            && (if hand == [] then forall l: nat, i: nat :: !HandAt(s, y, l, i)
                else HandAt(s, y, k, j) && hand == [s.threads[k][j].m] && forall l: nat, i: nat :: HandAt(s, y, l, i) ==> l == k && i == j)
            && (!v.q.release ==> v.dropped == [])
            && (v.freed ==> hand == [] && v.q.msgs == [])
  {
    hide Held, HeldBy, Messages;
    var s := After(ls).value;
    var v := s.core.services[y];
    InvariantHolds(ls);
    assert ServiceOk(s.core, y, Held(Reference, s.threads, y), Held(Custody, s.threads, y), Held(Duty, s.threads, y), Held(Hand, s.threads, y));
    HandCustody(s.threads, y);
    hand := v.taken[|v.fates|..];
    k, j := 0, 0;
    if hand != [] {
      k, j := HeldPlace(Hand, s.threads, y);
      assert ActOk(s.core, s.threads[k][j]);
    }
    forall l: nat, i: nat | HandAt(s, y, l, i) ensures hand != [] && l == k && i == j {
      HandHeld(s, y, l, i);
      CustodyIsUnique(s, y, k, j, l, i);
    }
  }

  /** A thread has a message of service y in hand. */
  predicate HandAt(s: State, y: nat, k: nat, j: nat) {
    At(s, k, j) && HasMessage(s.threads[k][j]) && s.threads[k][j].q == y
  }

  lemma HandHeld(s: State, y: nat, k: nat, j: nat)
    requires HandAt(s, y, k, j)
    ensures Held(Hand, s.threads, y) > 0 && HoldsQueue(s.threads[k][j], y)
  {
    hide Held, HeldBy;
    HeldTwo(Hand, s.threads, y, k, k);
    HeldByTwo(Hand, s.threads[k], y, j, j);
  }

  /** The records only grow, and nothing happens to a service whose queue has been freed. */
  predicate Records(v: Service, v': Service) {
    && v'.handle == v.handle
    && v.pushed <= v'.pushed && v.taken <= v'.taken && v.fates <= v'.fates && v.dropped <= v'.dropped
    && (v.freed ==> v' == v)
  }

  predicate TakenSame(v: Service, v': Service) {
    v'.taken == v.taken && v'.fates == v.fates
  }

  lemma DispatchRecords(s: Core, a: Act, ch: Choice, y: nat, r: nat, c: nat, d: nat, h: nat)
    requires IsWork(a)
    requires Before(s, a, y, r, c, d, h) && ExecDispatch(s, a, ch).Done?
    ensures y < |ExecDispatch(s, a, ch).core.services|
    ensures Records(s.services[y], ExecDispatch(s, a, ch).core.services[y])
    ensures ExecDispatch(s, a, ch).core.services[y].dropped == s.services[y].dropped
  {
  }

  lemma EndRecords(s: Core, a: Act, y: nat, r: nat, c: nat, d: nat, h: nat)
    requires IsEnd(a)
    requires Before(s, a, y, r, c, d, h) && ExecEnd(s, a).Done?
    ensures y < |ExecEnd(s, a).core.services|
    ensures Records(s.services[y], ExecEnd(s, a).core.services[y])
    ensures !a.Drain? ==> ExecEnd(s, a).core.services[y].dropped == s.services[y].dropped
    ensures TakenSame(s.services[y], ExecEnd(s, a).core.services[y])
  {
  }

  lemma CallRecords(s: Core, a: Act, y: nat, r: nat, c: nat, d: nat, h: nat)
    requires IsPush(a)
    requires Before(s, a, y, r, c, d, h) && ExecCall(s, a).Done?
    ensures y < |ExecCall(s, a).core.services|
    ensures Records(s.services[y], ExecCall(s, a).core.services[y])
    ensures ExecCall(s, a).core.services[y].dropped == s.services[y].dropped
    ensures TakenSame(s.services[y], ExecCall(s, a).core.services[y])
  {
  }

  lemma LaunchRecords(s: Core, a: Act, ch: Choice, y: nat, r: nat, c: nat, d: nat, h: nat)
    requires IsLaunch(a)
    requires Before(s, a, y, r, c, d, h) && ExecLaunch(s, a, ch).Done?
    ensures y < |ExecLaunch(s, a, ch).core.services|
    ensures Records(s.services[y], ExecLaunch(s, a, ch).core.services[y])
    ensures ExecLaunch(s, a, ch).core.services[y].dropped == s.services[y].dropped
    ensures TakenSame(s.services[y], ExecLaunch(s, a, ch).core.services[y])
  {
  }

  lemma ExecRecords(s: State, k: nat, ch: Choice, y: nat)
    requires Inv(s) && Enabled(s, k) && Exec(s.core, s.threads[k][0], ch).Done? && y < |s.core.services|
    ensures y < |Exec(s.core, s.threads[k][0], ch).core.services|
    ensures Records(s.core.services[y], Exec(s.core, s.threads[k][0], ch).core.services[y])
    ensures !s.threads[k][0].Drain? ==>
      Exec(s.core, s.threads[k][0], ch).core.services[y].dropped == s.core.services[y].dropped
    ensures !IsWork(s.threads[k][0]) ==> TakenSame(s.core.services[y], Exec(s.core, s.threads[k][0], ch).core.services[y])
  {
    hide ExecDispatch, ExecEnd, ExecCall, ExecLaunch, Before, Inv, Records;
    var a := s.threads[k][0];
    var r, c, d, h := Others(s, k, Reference, y), Others(s, k, Custody, y), Others(s, k, Duty, y), Others(s, k, Hand, y);
    BeforeOf(s, k, y);
    if IsEnd(a) { EndRecords(s.core, a, y, r, c, d, h); }
    else if IsPush(a) { CallRecords(s.core, a, y, r, c, d, h); }
    else if IsLaunch(a) {
      LaunchRecords(s.core, a, ch, y, r, c, d, h);
    } else { DispatchRecords(s.core, a, ch, y, r, c, d, h); }
  }

  lemma StepRecords(s: State, l: Label, y: nat)
    requires Inv(s) && Step(s, l).Some? && y < |s.core.services|
    ensures y < |Step(s, l).value.core.services|
    ensures Records(s.core.services[y], Step(s, l).value.core.services[y])
  {
    hide Exec, Inv, Records;
    match l
    case Spawn(x) => RecordsItself(s.core.services[y]);
    case Run(k, ch) => ExecRecords(s, k, ch, y);
  }

  lemma RecordsItself(v: Service)
    ensures Records(v, v)
  {
  }

  /** Over a run and any continuation of it: what was pushed, taken or dropped stays so, in the same order,
      and a queue that was freed is never touched again. */
  lemma {:induction false} RecordsGrow(ls: seq<Label>, n: nat, y: nat)
    requires n <= |ls| && After(ls).Some?
    ensures After(ls[..n]).Some?
    ensures y < |After(ls[..n]).value.core.services| ==>
      y < |After(ls).value.core.services|
      && Records(After(ls[..n]).value.core.services[y], After(ls).value.core.services[y])
    decreases |ls| - n
  {
    hide Step, Inv;
    if n == |ls| {
      assert ls[..n] == ls;
    } else {
      RecordsGrow(ls, n + 1, y);
      assert ls[..n + 1][..n] == ls[..n];
      InvariantHolds(ls[..n]);
      if y < |After(ls[..n]).value.core.services| { StepRecords(After(ls[..n]).value, ls[n], y); }
    }
  }

  /** A step that drops a message takes the oldest one, and the thread goes on to send an error from the dead
      service to the message's source. */
  lemma DropReplies(s: State, k: nat, ch: Choice, y: nat)
    requires Inv(s) && Step(s, Run(k, ch)).Some? && y < |s.core.services|
    ensures y < |Step(s, Run(k, ch)).value.core.services|
    ensures var v, v' := s.core.services[y], Step(s, Run(k, ch)).value.core.services[y];
            v'.dropped == v.dropped
            || (v.q.msgs != [] && v'.dropped == v.dropped + [v.q.msgs[0]] && v'.q.msgs == v.q.msgs[1..]
                && k < |Step(s, Run(k, ch)).value.threads|
                && [Send(v.q.msgs[0].source, Msg(v.handle, 0, 7, 0))] <= Step(s, Run(k, ch)).value.threads[k])
  {
    hide Inv, Records, TakenSame, Exec, ExecEnd, IsWork;
    DrainIsEnd(s.core, s.threads[k][0], ch);
    ExecRecords(s, k, ch, y);
    if s.threads[k][0].Drain? { DrainReplies(s.core, s.threads[k][0], y); }
  }

  lemma DrainIsEnd(s: Core, a: Act, ch: Choice)
    ensures a.Drain? ==> Exec(s, a, ch) == ExecEnd(s, a)
  {
  }

  lemma DrainReplies(s: Core, a: Act, y: nat)
    requires a.Drain? && ExecEnd(s, a).Done? && y < |s.services|
    ensures ExecEnd(s, a).acts != [] && y < |ExecEnd(s, a).core.services|
    ensures var o := ExecEnd(s, a); var v, v' := s.services[y], o.core.services[y];
      v'.dropped == v.dropped
      || (v.q.msgs != [] && v'.dropped == v.dropped + [v.q.msgs[0]] && v'.q.msgs == v.q.msgs[1..]
          && o.acts[0] == Send(v.q.msgs[0].source, Msg(v.handle, 0, 7, 0)))
  {
  }

  // ----- the end of a service

  /** A queue is freed only after the last reference to its context is gone, with nobody left who could reach
      it; and until then some thread or the global list still has it. */
  lemma FreedLast(ls: seq<Label>, y: nat) returns (k: nat, j: nat)
    requires After(ls).Some? && y < |After(ls).value.core.services|
    ensures var s := After(ls).value; var v := s.core.services[y];
            && (v.freed ==> v.ref == 0 && !Registered(s.core, y) && y !in s.core.global)
            && (v.freed ==> forall l: nat, m: nat | At(s, l, m) ::
                  !HoldsReference(s.threads[l][m], y) && !HoldsQueue(s.threads[l][m], y) && s.threads[l][m] != Mark(y))
            && (v.ref == 0 && !v.freed ==>
                y in s.core.global || (At(s, k, j) && (HoldsQueue(s.threads[k][j], y) || s.threads[k][j] == Mark(y))))
  {
    hide Held, HeldBy;
    var s := After(ls).value;
    var v := s.core.services[y];
    InvariantHolds(ls);
    assert ServiceOk(s.core, y, Held(Reference, s.threads, y), Held(Custody, s.threads, y), Held(Duty, s.threads, y), Held(Hand, s.threads, y));
    k, j := 0, 0;
    if v.freed {
      assert y in s.core.global ==> multiset(s.core.global)[y] > 0;
      forall l: nat, m: nat | At(s, l, m)
        ensures !HoldsReference(s.threads[l][m], y) && !HoldsQueue(s.threads[l][m], y) && s.threads[l][m] != Mark(y)
      {
        AtHeld(s, y, l, m);
      }
    } else if v.ref == 0 && !v.q.release {
      k, j := HeldPlace(Duty, s.threads, y);
    } else if v.ref == 0 && y !in s.core.global {
      k, j := HeldPlace(Custody, s.threads, y);
    }
  }

  lemma AtHeld(s: State, y: nat, k: nat, j: nat)
    requires At(s, k, j)
    ensures forall kind :: Holds(kind, s.threads[k][j], y) <= Held(kind, s.threads, y)
  {
    hide Holds;
    forall kind ensures Holds(kind, s.threads[k][j], y) <= Held(kind, s.threads, y) {
      HeldTwo(kind, s.threads, y, k, k);
      HeldByTwo(kind, s.threads[k], y, j, j);
    }
  }

  // ----- assertions and freed memory

  /** What the invariant says of the services that an act is about. */
  lemma Own(s: State, k: nat, y: nat)
    requires Inv(s) && Enabled(s, k) && y < |s.core.services|
    ensures var a, v := s.threads[k][0], s.core.services[y];
            && v.ref >= 0
            && (HoldsReference(a, y) ==> v.ref > 0)
            && (HoldsQueue(a, y) ==> !v.freed && y !in s.core.global)
            && (a == Mark(y) ==> !v.freed && !v.q.release)
            && (Registered(s.core, y) ==> v.ref > 0)
            && (v.ref > 0 ==> !v.freed)
            && (!v.q.inGlobal && !v.q.release ==> y !in s.core.global)
            && (v.ref > 0 ==> !v.q.release)
  {
    BeforeOf(s, k, y);
    assert y in s.core.global ==> multiset(s.core.global)[y] > 0;
  }

  lemma TableLive(s: State, k: nat, h: int)
    requires Inv(s) && Enabled(s, k) && h in s.core.table
    ensures ContextLive(s.core, s.core.table[h])
  {
    Own(s, k, s.core.table[h]);
  }

  lemma DispatchSafe(s: State, k: nat, ch: Choice)
    requires Inv(s) && Enabled(s, k)
    requires var a := s.threads[k][0];
             IsWork(a)
    ensures ExecDispatch(s.core, s.threads[k][0], ch) != Crash
  {
    hide Inv;
    var a := s.threads[k][0];
    FactsOf(s, k);
    if !a.Pop? { Own(s, k, a.q); }
    if a.Take? && s.core.services[a.q].handle in s.core.table { TableLive(s, k, s.core.services[a.q].handle); }
  }

  lemma EndSafe(s: State, k: nat)
    requires Inv(s) && Enabled(s, k)
    requires var a := s.threads[k][0]; IsEnd(a)
    ensures ExecEnd(s.core, s.threads[k][0]) != Crash
  {
    hide Inv;
    var a := s.threads[k][0];
    FactsOf(s, k);
    Own(s, k, if a.Drop? || a.Mark? then a.c else a.q);
  }

  lemma CallSafe(s: State, k: nat)
    requires Inv(s) && Enabled(s, k)
    requires var a := s.threads[k][0]; IsPush(a)
    ensures ExecCall(s.core, s.threads[k][0]) != Crash
  {
    hide Inv;
    var a := s.threads[k][0];
    FactsOf(s, k);
    if a.Put? { Own(s, k, a.c); } else if a.h in s.core.table { TableLive(s, k, a.h); }
  }

  lemma LaunchSafe(s: State, k: nat, ch: Choice)
    requires Inv(s) && Enabled(s, k)
    requires var a := s.threads[k][0];
             IsLaunch(a)
    ensures var a := s.threads[k][0];
      ExecLaunch(s.core, a, ch) == Crash <==> LateUse(a, ch) && s.core.services[a.c].ref == 0
  {
    hide Inv;
    var a := s.threads[k][0];
    FactsOf(s, k);
    if !a.Launch? {
      Own(s, k, a.c);
      if a.FailedRetire? && s.core.services[a.c].handle in s.core.table { TableLive(s, k, s.core.services[a.c].handle); }
    }
  }

  /** What is done with a new context after its creator has given up the reference: setting its 'init' flag,
      reading its handle for the log, and reading its handle for the caller. */
  predicate LateUse(a: Act, ch: Choice) {
    a.SetInit? || (a.Report? && ch.Call? && ch.x.Send?) || (a.ReadResult? && ch == Return(true))
  }

  /** No assertion of the source fails and no freed queue or context is used, but for these three. They are uses
      of freed memory exactly when no reference is left by then. */
  lemma OnlyLateUses(ls: seq<Label>, k: nat, ch: Choice)
    requires After(ls).Some? && Enabled(After(ls).value, k)
    ensures var s := After(ls).value; var a := s.threads[k][0];
            Exec(s.core, a, ch) == Crash <==> LateUse(a, ch) && a.c < |s.core.services| && s.core.services[a.c].ref == 0
  {
    hide Inv, ExecDispatch, ExecEnd, ExecCall, ExecLaunch;
    var s := After(ls).value;
    InvariantHolds(ls);
    var a := s.threads[k][0];
    FactsOf(s, k);
    if IsEnd(a) { EndSafe(s, k); }
    else if IsPush(a) { CallSafe(s, k); }
    else if IsLaunch(a) {
      LaunchSafe(s, k, ch);
    } else { DispatchSafe(s, k, ch); }
  }

  // ----- and each of them happens: another thread retires the service in between

  const LAUNCHED := [Spawn(Launch), Run(0, Fresh(1)), Run(0, Return(true)), Run(0, Go)]
  const REPORTING := LAUNCHED + [Run(0, Go), Run(0, Go)]
  const RETURNED := REPORTING + [Run(0, Go)]
  const RETIRED := [Spawn(Kill(1)), Run(1, Go), Run(1, Go)]
  const LAUNCHED_CORE := Core([NewService(1).(ref := 1)], map[1 := 0], [])
  const GIVEN_CORE := Core([NewService(1).(ref := 1, init := true)], map[1 := 0], [0])

  const BORN_CORE := Core([NewService(1)], map[1 := 0], [])

  lemma BirthRun()
    ensures After(LAUNCHED[..2]) == Some(State(BORN_CORE, [[InInit(0)]]))
  {
    var none := Core([], map[], []);
    assert After([]) == Some(State(none, []));
    hide After;
    AfterSpawn([], State(none, []), Launch);
    var l1 := [Spawn(Launch)];
    assert [] + l1 == l1 && [] + [[Launch]] == [[Launch]];
    assert none.services + [NewService(1)] == [NewService(1)] && none.table[1 := 0] == map[1 := 0];
    AfterRun(l1, State(none, [[Launch]]), 0, Fresh(1), BORN_CORE, [InInit(0)], [[InInit(0)]]);
    assert l1 + [Run(0, Fresh(1))] == LAUNCHED[..2];
  }

  lemma LaunchRun()
    ensures After(LAUNCHED) == Some(State(LAUNCHED_CORE, [[SetInit(0)]]))
  {
    hide After;
    BirthRun();
    AfterRun(LAUNCHED[..2], State(BORN_CORE, [[InInit(0)]]), 0, Return(true), BORN_CORE, [InitOk(0)], [[InitOk(0)]]);
    assert LAUNCHED[..2] + [Run(0, Return(true))] == LAUNCHED[..3];
    assert Ref(BORN_CORE, 0, -1) == LAUNCHED_CORE;
    AfterRun(LAUNCHED[..3], State(BORN_CORE, [[InitOk(0)]]), 0, Go, LAUNCHED_CORE, [SetInit(0)], [[SetInit(0)]]);
    assert LAUNCHED[..3] + [Run(0, Go)] == LAUNCHED;
  }

  lemma ReportRun()
    ensures After(REPORTING) == Some(State(GIVEN_CORE, [[Report(0), ReadResult(0)]]))
    ensures After(RETURNED) == Some(State(GIVEN_CORE, [[ReadResult(0)]]))
  {
    hide After;
    LaunchRun();
    var ready := With(LAUNCHED_CORE, 0, LAUNCHED_CORE.services[0].(init := true));
    var acts := [GiveBack(0), Report(0), ReadResult(0)];
    AfterRun(LAUNCHED, State(LAUNCHED_CORE, [[SetInit(0)]]), 0, Go, ready, acts, [acts]);
    var l5 := LAUNCHED + [Run(0, Go)];
    assert ready.global + [0] == [0] && ready.(global := [0]) == GIVEN_CORE;
    assert acts == [GiveBack(0)] + [Report(0), ReadResult(0)] && [Report(0), ReadResult(0)] == [Report(0)] + [ReadResult(0)];
    AfterAct(l5, State(ready, [acts]), GiveBack(0), [Report(0), ReadResult(0)], Go, GIVEN_CORE);
    assert l5 + [Run(0, Go)] == REPORTING;
    AfterAct(REPORTING, State(GIVEN_CORE, [[Report(0), ReadResult(0)]]), Report(0), [ReadResult(0)], Go, GIVEN_CORE);
  }

  // The service is retired by a second thread, whatever the first has still to do.
  lemma RetireRun(ls: seq<Label>, s: Core, t: seq<Act>)
    requires After(ls) == Some(State(s, [t])) && (s == LAUNCHED_CORE || s == GIVEN_CORE)
    ensures var v := s.services[0];
      After(ls + RETIRED) == Some(State(Core([v.(ref := 0)], map[], s.global), [t, [Mark(0)]]))
  {
    hide After;
    var gone := s.(table := map[]);
    var last := Ref(gone, 0, -1);
    AfterSpawn(ls, State(s, [t]), Kill(1));
    var l1 := ls + [Spawn(Kill(1))];
    assert [t] + [[Kill(1)]] == [t, [Kill(1)]] && s.table - {1} == map[];
    AfterRun(l1, State(s, [t, [Kill(1)]]), 1, Go, gone, [Drop(0)], [t, [Drop(0)]]);
    var l2 := l1 + [Run(1, Go)];
    AfterRun(l2, State(gone, [t, [Drop(0)]]), 1, Go, last, [Mark(0)], [t, [Mark(0)]]);
    assert l2 + [Run(1, Go)] == ls + RETIRED;
    assert last == Core([s.services[0].(ref := 0)], map[], s.global);
  }

  /** After the run the first thread is about to do this, and it is a use of freed memory. */
  predicate LateCrash(ls: seq<Label>, a: Act, ch: Choice) {
    var s := After(ls);
    s.Some? && Enabled(s.value, 0) && s.value.threads[0][0] == a && Exec(s.value.core, a, ch) == Crash
  }

  lemma LateUsesHappen()
    ensures LateCrash(LAUNCHED + RETIRED, SetInit(0), Go)
    ensures forall h, m :: LateCrash(REPORTING + RETIRED, Report(0), Call(Send(h, m)))
    ensures LateCrash(RETURNED + RETIRED, ReadResult(0), Return(true))
  {
    hide After;
    LaunchRun();
    ReportRun();
    RetireRun(LAUNCHED, LAUNCHED_CORE, [SetInit(0)]);
    RetireRun(REPORTING, GIVEN_CORE, [Report(0), ReadResult(0)]);
    RetireRun(RETURNED, GIVEN_CORE, [ReadResult(0)]);
  }

  lemma AfterSpawn(ls: seq<Label>, s: State, x: Act)
    requires After(ls) == Some(s) && (x.Pop? || IsCall(x))
    ensures After(ls + [Spawn(x)]) == Some(State(s.core, s.threads + [[x]]))
  {
    assert (ls + [Spawn(x)])[..|ls|] == ls;
  }

  lemma AfterRun(ls: seq<Label>, s: State, k: nat, ch: Choice, core: Core, acts: seq<Act>, threads: seq<seq<Act>>)
    requires After(ls) == Some(s) && Enabled(s, k) && Exec(s.core, s.threads[k][0], ch) == Done(core, acts)
    requires |s.threads[k]| == 1 && threads == s.threads[k := acts]
    ensures After(ls + [Run(k, ch)]) == Some(State(core, threads))
  {
    assert acts + s.threads[k][1..] == acts;
    assert (ls + [Run(k, ch)])[..|ls|] == ls;
  }

  // The same where the thread has more to do, and the act leaves nothing in its place.
  lemma AfterAct(ls: seq<Label>, s: State, a: Act, rest: seq<Act>, ch: Choice, core: Core)
    requires After(ls) == Some(s) && s.threads == [[a] + rest] && Exec(s.core, a, ch) == Done(core, [])
    ensures After(ls + [Run(0, ch)]) == Some(State(core, [rest]))
  {
    assert s.threads[0][1..] == rest && [] + rest == rest && s.threads[0 := rest] == [rest];
    assert (ls + [Run(0, ch)])[..|ls|] == ls;
  }
}
