// What holds in every run of the scheduler.
module SchedSafety {
  import opened Wrappers
  import opened SchedQueue
  import opened SchedModel
  import opened SchedInvariant
  import opened SchedSteps

  // ----- counting acts by their place

  lemma {:induction false} HeldByTwo(kind: Kind, t: seq<Act>, y: nat, i: nat, j: nat)
    requires i <= j < |t|
    ensures (if i == j then Holds(kind, t[i], y) else Holds(kind, t[i], y) + Holds(kind, t[j], y)) <= HeldBy(kind, t, y)
  {
    hide Holds;
    if i > 0 {
      HeldByTwo(kind, t[1..], y, i - 1, j - 1);
    } else if j > 0 {
      HeldByTwo(kind, t[1..], y, j - 1, j - 1);
    }
  }

  lemma {:induction false} HeldTwo(kind: Kind, threads: seq<seq<Act>>, y: nat, k: nat, l: nat)
    requires k <= l < |threads|
    ensures (if k == l then HeldBy(kind, threads[k], y) else HeldBy(kind, threads[k], y) + HeldBy(kind, threads[l], y))
            <= Held(kind, threads, y)
  {
    hide HeldBy;
    if k > 0 {
      HeldTwo(kind, threads[1..], y, k - 1, l - 1);
    } else if l > 0 {
      HeldTwo(kind, threads[1..], y, l - 1, l - 1);
    }
  }

  lemma {:induction false} HeldByPlace(kind: Kind, t: seq<Act>, y: nat) returns (j: nat)
    requires HeldBy(kind, t, y) > 0
    ensures j < |t| && Holds(kind, t[j], y) == 1
  {
    if Holds(kind, t[0], y) == 1 {
      j := 0;
    } else {
      j := HeldByPlace(kind, t[1..], y);
      j := j + 1;
    }
  }

  lemma {:induction false} HeldPlace(kind: Kind, threads: seq<seq<Act>>, y: nat) returns (k: nat, j: nat)
    requires Held(kind, threads, y) > 0
    ensures k < |threads| && j < |threads[k]| && Holds(kind, threads[k][j], y) == 1
  {
    hide Holds, HeldBy;
    if HeldBy(kind, threads[0], y) > 0 {
      k := 0;
      j := HeldByPlace(kind, threads[0], y);
    } else {
      k, j := HeldPlace(kind, threads[1..], y);
      k := k + 1;
    }
  }

  /** Two places in the call stacks of the threads. */
  predicate At(s: State, k: nat, j: nat) {
    k < |s.threads| && j < |s.threads[k]|
  }

  lemma CustodyIsUnique(s: State, y: nat, k: nat, j: nat, k': nat, j': nat)
    requires Inv(s) && y < |s.core.services| && At(s, k, j) && At(s, k', j')
    requires HoldsQueue(s.threads[k][j], y) && HoldsQueue(s.threads[k'][j'], y)
    ensures k == k' && j == j' && y !in s.core.global
  {
    hide HeldBy, Held;
    var (k1, j1, k2, j2) := if k <= k' then (k, j, k', j') else (k', j', k, j);
    HeldTwo(Custody, s.threads, y, k1, k2);
    HeldByTwo(Custody, s.threads[k1], y, j1, j1);
    HeldByTwo(Custody, s.threads[k2], y, j2, j2);
    if k1 == k2 { HeldByTwo(Custody, s.threads[k1], y, if j1 <= j2 then j1 else j2, if j1 <= j2 then j2 else j1); }
    assert ServiceOk(s.core, y, Held(Reference, s.threads, y), Held(Custody, s.threads, y), Held(Duty, s.threads, y), Held(Hand, s.threads, y));
    assert y in s.core.global ==> multiset(s.core.global)[y] > 0;
  }

  // ----- a step

  /** The head act of thread k. */
  predicate Enabled(s: State, k: nat) {
    k < |s.threads| && s.threads[k] != []
  }

  function Others(s: State, k: nat, kind: Kind, y: nat): (n: nat)
    requires Enabled(s, k)
    ensures Held(kind, s.threads, y) == Holds(kind, s.threads[k][0], y) + n
  {
    HeldUpdate(kind, s.threads, k, [], y);
    Held(kind, s.threads, y) - Holds(kind, s.threads[k][0], y)
  }

  lemma BeforeOf(s: State, k: nat, y: nat)
    requires Inv(s) && Enabled(s, k) && y < |s.core.services|
    ensures Before(s.core, s.threads[k][0], y, Others(s, k, Reference, y), Others(s, k, Custody, y), Others(s, k, Duty, y), Others(s, k, Hand, y))
  {
    HandsOfOthers(s, k, y);
  }

  // Whoever has a message in hand has its queue.
  lemma {:induction false} HandByCustody(t: seq<Act>, y: nat)
    ensures HeldBy(Hand, t, y) <= HeldBy(Custody, t, y)
  {
    if t != [] { HandByCustody(t[1..], y); }
  }

  lemma {:induction false} HandCustody(threads: seq<seq<Act>>, y: nat)
    ensures Held(Hand, threads, y) <= Held(Custody, threads, y)
  {
    if threads != [] {
      HandByCustody(threads[0], y);
      HandCustody(threads[1..], y);
    }
  }

  lemma HandsOfOthers(s: State, k: nat, y: nat)
    requires Enabled(s, k)
    ensures Others(s, k, Hand, y) <= Others(s, k, Custody, y)
  {
    hide Holds;
    var t := s.threads[k];
    HeldUpdate(Hand, s.threads, k, t[1..], y);
    HeldUpdate(Custody, s.threads, k, t[1..], y);
    HandCustody(s.threads[k := t[1..]], y);
  }

  lemma FactsOf(s: State, k: nat)
    requires Inv(s) && Enabled(s, k)
    ensures Facts(s.core, s.threads[k][0])
  {
    var a := s.threads[k][0];
    forall y | y in s.core.global ensures Settled(s.core, y) {
      BeforeOf(s, k, y);
    }
    if a.Free? { BeforeOf(s, k, a.q); }
    if a.Put? { BeforeOf(s, k, a.c); }
    if a.InitOk? { BeforeOf(s, k, a.c); }
  }

  lemma HeldAfter(s: State, k: nat, acts: seq<Act>, kind: Kind, y: nat)
    requires Enabled(s, k)
    ensures Held(kind, s.threads[k := acts + s.threads[k][1..]], y) == HeldBy(kind, acts, y) + Others(s, k, kind, y)
  {
    hide Holds;
    var t := s.threads[k];
    HeldUpdate(kind, s.threads, k, acts + t[1..], y);
    HeldByAppend(kind, acts, t[1..], y);
  }

  // Nobody holds anything of a service that does not exist yet.
  lemma {:induction false} HeldByNone(s: Core, kind: Kind, t: seq<Act>, y: nat)
    requires y >= |s.services| && forall j | 0 <= j < |t| :: ActOk(s, t[j])
    ensures HeldBy(kind, t, y) == 0
  {
    if t != [] {
      assert ActOk(s, t[0]);
      HeldByNone(s, kind, t[1..], y);
    }
  }

  lemma {:induction false} HeldNone(s: Core, kind: Kind, threads: seq<seq<Act>>, y: nat)
    requires y >= |s.services|
    requires forall k, j | 0 <= k < |threads| && 0 <= j < |threads[k]| :: ActOk(s, threads[k][j])
    ensures Held(kind, threads, y) == 0
  {
    hide ActOk;
    if threads != [] {
      HeldByNone(s, kind, threads[0], y);
      forall k, j | 0 <= k < |threads[1..]| && 0 <= j < |threads[1..][k]| ensures ActOk(s, threads[1..][k][j]) {
        assert ActOk(s, threads[k + 1][j]);
      }
      HeldNone(s, kind, threads[1..], y);
    }
  }

  lemma NewServiceOk(s: State, k: nat, ch: Choice)
    requires Inv(s) && Enabled(s, k) && s.threads[k][0] == Launch && Exec(s.core, Launch, ch).Done?
    ensures Afterwards(Exec(s.core, Launch, ch), |s.core.services|, 0, 0, 0, 0)
  {
    var n := |s.core.services|;
    var o := ExecLaunch(s.core, Launch, ch);
    hide HeldBy, Held, ActOk;
    Few(o.acts, n);
    assert n !in s.core.global;
    assert multiset(s.core.global)[n] == 0;
    NothingSettled();
  }

  lemma NothingSettled()
    ensures Messages([]) == []
  {
  }

  lemma RunServices(s: State, k: nat, ch: Choice, y: nat)
    requires Inv(s) && Enabled(s, k) && Exec(s.core, s.threads[k][0], ch).Done?
    requires y < |Exec(s.core, s.threads[k][0], ch).core.services|
    ensures Afterwards(Exec(s.core, s.threads[k][0], ch), y,
                       Others(s, k, Reference, y), Others(s, k, Custody, y), Others(s, k, Duty, y), Others(s, k, Hand, y))
  {
    hide Exec, Afterwards, Before, Held, HeldBy;
    var a := s.threads[k][0];
    if y < |s.core.services| {
      BeforeOf(s, k, y);
      ExecKeeps(s.core, a, ch, y, Others(s, k, Reference, y), Others(s, k, Custody, y), Others(s, k, Duty, y), Others(s, k, Hand, y));
    } else {
      OnlyLaunchAdds(s, k, ch);
      HeldNone(s.core, Reference, s.threads, y);
      HeldNone(s.core, Custody, s.threads, y);
      HeldNone(s.core, Duty, s.threads, y);
      HeldNone(s.core, Hand, s.threads, y);
      NewServiceOk(s, k, ch);
    }
  }

  lemma OnlyLaunchAdds(s: State, k: nat, ch: Choice)
    requires Inv(s) && Enabled(s, k) && Exec(s.core, s.threads[k][0], ch).Done?
    ensures var n := |Exec(s.core, s.threads[k][0], ch).core.services|;
            n == |s.core.services| || (s.threads[k][0] == Launch && n == |s.core.services| + 1)
  {
    FactsOf(s, k);
    var a := s.threads[k][0];
    if a.Drop? || a.Mark? || a.Release? || a.Drain? { EndChanges(s.core, a); }
    else if IsPush(a) { CallChanges(s.core, a); }
    else if a.InInit? || a.InitOk? || a.SetInit? || a.InitFailed? || a.FailedRetire? || a.Report? || a.ReadResult? { LaunchChanges(s.core, a, ch); }
    else if !a.Launch? && !a.Free? { DispatchChanges(s.core, a, ch); }
  }

  // The act at the head of a thread and any other act.
  lemma ActsApart(s: State, k: nat, l: nat, j: nat)
    requires Inv(s) && Enabled(s, k) && At(s, l, j) && (l != k || j > 0)
    ensures Apart(s.threads[k][0], s.threads[l][j])
  {
    hide Inv, HoldsQueue;
    var a, b := s.threads[k][0], s.threads[l][j];
    forall y: nat ensures !(HoldsQueue(a, y) && HoldsQueue(b, y)) {
      if HoldsQueue(a, y) && HoldsQueue(b, y) {
        HolderKnown(s, k, 0, y);
        CustodyIsUnique(s, y, k, 0, l, j);
      }
    }
  }

  lemma PopApart(s: Core, a: Act)
    ensures ActOk(s, Pop(0)) && Apart(a, Pop(0))
  {
  }

  lemma HolderKnown(s: State, k: nat, j: nat, y: nat)
    requires Inv(s) && At(s, k, j) && HoldsQueue(s.threads[k][j], y)
    ensures y < |s.core.services|
  {
    assert ActOk(s.core, s.threads[k][j]);
  }

  lemma RunThreads(s: State, k: nat, ch: Choice)
    requires Inv(s) && Step(s, Run(k, ch)).Some?
    ensures ThreadsOk(Step(s, Run(k, ch)).value) && CoreOk(Step(s, Run(k, ch)).value.core)
  {
    hide Exec, ActOk, CoreOk;
    var a, rest := s.threads[k][0], s.threads[k][1..];
    var o := Exec(s.core, a, ch);
    var s' := Step(s, Run(k, ch)).value;
    FactsOf(s, k);
    ExecActsOk(s.core, a, ch);
    PopApart(s.core, a);
    ExecKeepsOthers(s.core, a, ch, Pop(0));
    forall l, j | 0 <= l < |s'.threads| && 0 <= j < |s'.threads[l]| ensures ActOk(s'.core, s'.threads[l][j]) {
      if l != k {
        ActsApart(s, k, l, j);
        ExecKeepsOthers(s.core, a, ch, s.threads[l][j]);
      } else if j >= |o.acts| {
        assert s'.threads[l][j] == s.threads[k][j - |o.acts| + 1];
        ActsApart(s, k, k, j - |o.acts| + 1);
        ExecKeepsOthers(s.core, a, ch, s.threads[k][j - |o.acts| + 1]);
      } else {
        assert s'.threads[l][j] == o.acts[j] && o.acts[j] in o.acts;
      }
    }
  }

  /** Every act of every thread keeps the invariant. */
  lemma RunKeeps(s: State, k: nat, ch: Choice)
    requires Inv(s) && Step(s, Run(k, ch)).Some?
    ensures Inv(Step(s, Run(k, ch)).value)
  {
    var o := Exec(s.core, s.threads[k][0], ch);
    var s' := Step(s, Run(k, ch)).value;
    hide Exec, CoreOk, ThreadsOk, ServiceOk;
    RunThreads(s, k, ch);
    forall y: nat | y < |s'.core.services|
      ensures ServiceOk(s'.core, y, Held(Reference, s'.threads, y), Held(Custody, s'.threads, y), Held(Duty, s'.threads, y), Held(Hand, s'.threads, y))
    {
      RunServices(s, k, ch, y);
      HeldAfter(s, k, o.acts, Reference, y);
      HeldAfter(s, k, o.acts, Custody, y);
      HeldAfter(s, k, o.acts, Duty, y);
      HeldAfter(s, k, o.acts, Hand, y);
    }
  }

  lemma SpawnKeeps(s: State, x: Act)
    requires Inv(s) && Step(s, Spawn(x)).Some?
    ensures Inv(Step(s, Spawn(x)).value)
  {
    var s' := Step(s, Spawn(x)).value;
    forall y: nat | y < |s'.core.services|
      ensures ServiceOk(s'.core, y, Held(Reference, s'.threads, y), Held(Custody, s'.threads, y), Held(Duty, s'.threads, y), Held(Hand, s'.threads, y))
    {
      SpawnHolds(s, x, Reference, y);
      SpawnHolds(s, x, Custody, y);
      SpawnHolds(s, x, Duty, y);
      SpawnHolds(s, x, Hand, y);
    }
    forall l, j | 0 <= l < |s'.threads| && 0 <= j < |s'.threads[l]| ensures ActOk(s'.core, s'.threads[l][j]) {
      if l < |s.threads| { assert s'.threads[l] == s.threads[l]; } else { assert s'.threads[l] == [x]; }
    }
  }

  lemma SpawnHolds(s: State, x: Act, kind: Kind, y: nat)
    requires x.Pop? || IsCall(x)
    ensures Held(kind, s.threads + [[x]], y) == Held(kind, s.threads, y)
  {
    HeldSpawn(kind, s.threads, [x], y);
    HeldByFew(kind, x, x, x, y);
  }

  /** The invariant holds in every state that any run can reach. */
  lemma {:induction false} InvariantHolds(ls: seq<Label>)
    requires After(ls).Some?
    ensures Inv(After(ls).value)
  {
    if ls != [] {
      hide Step, Inv;
      var before, l := ls[..|ls| - 1], ls[|ls| - 1];
      InvariantHolds(before);
      match l
      case Spawn(x) => SpawnKeeps(After(before).value, x);
      case Run(k, ch) => RunKeeps(After(before).value, k, ch);
    } else {
      InitialOk();
    }
  }

  lemma InitialOk()
    ensures Inv(INITIAL)
  {
  }
}
