// Tail calls: turning a call that is followed by a return into a jump preserves every result.
module LpegTail {
  import opened LpegCharset
  import opened LpegTree
  import opened LpegAnalysis
  import opened LpegVm
  import opened LpegGen
  import opened LpegShape

  /** Cell q is the same in both programs, or a call in the first and, with nothing but jumps between
      its return address and a return, a jump in the second. */
  ghost predicate TailCell(before: Code, after: Code, q: int)
    requires 0 <= q < |before| == |after|
  {
    before[q] == after[q]
    || (IsOp(before, q, ICall) && after[q] == before[q].(op := IJmp) && LeadsToRet(after, q + 2))
  }

  ghost predicate TailRel(before: Code, after: Code) {
    |before| == |after| && forall q {:trigger TailCell(before, after, q)} | 0 <= q < |before| :: TailCell(before, after, q)
  }

  // ----- jumps

  lemma {:induction false} JumpsDeterministic(code: Code, p: int, q: int, m: nat, q': int, n: nat)
    requires Jumps(code, p, q, m) && Jumps(code, p, q', n) && m <= n
    ensures Jumps(code, q, q', n - m)
    decreases m
  {
    if m > 0 { JumpsDeterministic(code, Target(code, p), q, m - 1, q', n - 1); }
  }

  lemma {:induction false} JumpsTrans(code: Code, p: int, q: int, m: nat, r: int, n: nat)
    requires Jumps(code, p, q, m) && Jumps(code, q, r, n)
    ensures Jumps(code, p, r, m + n)
    decreases m
  {
    if m > 0 { JumpsTrans(code, Target(code, p), q, m - 1, r, n); }
  }

  /** Every jump of x stands in y, a cells further on. */
  ghost predicate JumpsKept(x: Code, y: Code, a: int) {
    forall p {:trigger JumpAt(x, p)} | JumpAt(x, p) :: JumpAt(y, a + p) && Target(y, a + p) == a + Target(x, p)
  }

  lemma {:induction false} JumpsLift(x: Code, y: Code, a: int, p: int, q: int, n: nat)
    requires JumpsKept(x, y, a) && Jumps(x, p, q, n)
    ensures Jumps(y, a + p, a + q, n)
    decreases n
  {
    if n > 0 { JumpsLift(x, y, a, Target(x, p), q, n - 1); }
  }

  lemma KeptInside(pre: Code, x: Code, post: Code)
    ensures JumpsKept(x, pre + x + post, |pre|)
  {
    var y := pre + x + post;
    forall p | JumpAt(x, p) ensures JumpAt(y, |pre| + p) && Target(y, |pre| + p) == |pre| + Target(x, p) {
      assert y[|pre| + p] == x[p] && y[|pre| + p + 1] == x[p + 1];
    }
  }

  lemma LeadsLift(x: Code, y: Code, a: int, p: int)
    requires LeadsToRet(x, p) && JumpsKept(x, y, a)
    requires forall q | IsOp(x, q, IRet) :: IsOp(y, a + q, IRet)
    ensures LeadsToRet(y, a + p)
  {
    var n: nat, q :| Jumps(x, p, q, n) && IsOp(x, q, IRet);
    JumpsLift(x, y, a, p, q, n);
  }

  // ----- the simulation

  /** The stack of the second program is that of the first without some returns that only return again. */
  ghost predicate StackRel(after: Code, st0: seq<Entry>, st: seq<Entry>)
    decreases |st0|
  {
    if st0 == [] then st == []
    else
      || (Top(st0).Ret? && LeadsToRet(after, Top(st0).p) && StackRel(after, Pop(st0), st))
      || (st != [] && Top(st) == Top(st0) && StackRel(after, Pop(st0), Pop(st)))
  }

  ghost predicate PcRel(after: Code, p0: int, p: int) {
    (exists n: nat :: Jumps(after, p0, p, n)) || (IsOp(after, p, IRet) && LeadsToRet(after, p0))
  }

  ghost predicate Related(after: Code, c0: State, c: State) {
    match c0
    case Done(r) => c == Done(r)
    case Stuck => true
    case Run(p0, i, st0) => c.Run? && c.i == i && PcRel(after, p0, c.p) && StackRel(after, st0, c.stack)
  }

  lemma PcSame(after: Code, p: int)
    ensures PcRel(after, p, p)
  {
    assert Jumps(after, p, p, 0);
  }

  lemma StackPush(after: Code, st0: seq<Entry>, st: seq<Entry>, e: Entry)
    requires StackRel(after, st0, st)
    ensures StackRel(after, st0 + [e], st + [e])
  {
    assert Pop(st0 + [e]) == st0 && Pop(st + [e]) == st;
  }

  lemma StackPushRet(after: Code, st0: seq<Entry>, st: seq<Entry>, p: int)
    requires StackRel(after, st0, st) && LeadsToRet(after, p)
    ensures StackRel(after, st0 + [Ret(p)], st)
  {
    assert Pop(st0 + [Ret(p)]) == st0;
  }

  // On top of both stacks stands the same choice.
  lemma StackTop(after: Code, st0: seq<Entry>, st: seq<Entry>)
    requires StackRel(after, st0, st) && st0 != [] && Top(st0).Back?
    ensures st != [] && Top(st) == Top(st0) && StackRel(after, Pop(st0), Pop(st))
    ensures |st0| == 1 ==> |st| == 1
  {
  }

  lemma {:induction false} FailRelated(after: Code, st0: seq<Entry>, st: seq<Entry>)
    requires StackRel(after, st0, st)
    ensures Related(after, FailTo(st0), FailTo(st))
    decreases |st0|
  {
    if st0 != [] {
      if Top(st0).Back? {
        StackTop(after, st0, st);
        PcSame(after, Top(st0).p);
      } else if st != [] && Top(st) == Top(st0) && StackRel(after, Pop(st0), Pop(st)) {
        FailRelated(after, Pop(st0), Pop(st));
      } else {
        FailRelated(after, Pop(st0), st);
      }
    }
  }

  lemma CellsKept(before: Code, after: Code, p: int)
    requires TailRel(before, after)
    ensures HasLabel(before, p) ==> HasLabel(after, p) && Target(before, p) == Target(after, p)
    ensures HasBuf(before, p + 1) ==> HasBuf(after, p + 1) && before[p + 1] == after[p + 1]
    ensures HasBuf(before, p + 2) ==> HasBuf(after, p + 2) && before[p + 2] == after[p + 2]
  {
    if 0 <= p + 1 < |after| { assert TailCell(before, after, p + 1); }
    if 0 <= p + 2 < |after| { assert TailCell(before, after, p + 2); }
  }

  // The first program takes a jump, or a call that is a jump in the second: the second may wait.
  lemma StepsAhead(before: Code, after: Code, s: Subject, p0: int, p: int, i: nat, st0: seq<Entry>, st: seq<Entry>)
    requires TailRel(before, after) && PcRel(after, p0, p) && StackRel(after, st0, st)
    requires JumpAt(after, p0) && p0 != p && Step(before, s, Run(p0, i, st0)) != Stuck
    ensures Related(after, Step(before, s, Run(p0, i, st0)), Run(p, i, st))
  {
    hide StackRel, PcRel, TailRel, Step, Jumps;
    AheadStep(before, after, s, p0, i, st0);
    PcAhead(after, p0, p);
    if LeadsToRet(after, p0 + 2) { StackPushRet(after, st0, st, p0 + 2); }
  }

  lemma AheadStep(before: Code, after: Code, s: Subject, p0: int, i: nat, st0: seq<Entry>)
    requires TailRel(before, after) && JumpAt(after, p0) && Step(before, s, Run(p0, i, st0)) != Stuck
    ensures var c := Step(before, s, Run(p0, i, st0));
            || c == Run(Target(after, p0), i, st0)
            || (c == Run(Target(after, p0), i, st0 + [Ret(p0 + 2)]) && LeadsToRet(after, p0 + 2))
  {
    hide LeadsToRet, FailTo;
    CellsKept(before, after, p0);
    assert TailCell(before, after, p0) && TailCell(before, after, p0 + 1);
  }

  lemma PcAhead(after: Code, p0: int, p: int)
    requires PcRel(after, p0, p) && JumpAt(after, p0) && p0 != p
    ensures PcRel(after, Target(after, p0), p)
  {
    var t := Target(after, p0);
    if n: nat :| Jumps(after, p0, p, n) {
      assert Jumps(after, t, p, n - 1);
    } else {
      var n: nat, q :| Jumps(after, p0, q, n) && IsOp(after, q, IRet);
      assert n > 0;
      assert Jumps(after, t, q, n - 1);
    }
  }

  // Both programs stand at the same return.
  lemma ReturnsRelated(before: Code, after: Code, s: Subject, p0: int, p: int, i: nat, st0: seq<Entry>, st: seq<Entry>)
    requires StackRel(after, st0, st) && IsOp(before, p0, IRet) && IsOp(after, p, IRet)
    requires Step(before, s, Run(p0, i, st0)) != Stuck
    ensures || Related(after, Step(before, s, Run(p0, i, st0)), Run(p, i, st))
            || Related(after, Step(before, s, Run(p0, i, st0)), Step(after, s, Run(p, i, st)))
  {
    if st != [] && Top(st) == Top(st0) && StackRel(after, Pop(st0), Pop(st)) { PcSame(after, Top(st0).p); }
  }

  lemma RunRelated(after: Code, p: int, i: nat, st0: seq<Entry>, st: seq<Entry>)
    requires StackRel(after, st0, st)
    ensures Related(after, Run(p, i, st0), Run(p, i, st))
  {
    PcSame(after, p);
  }

  /** Instructions that leave the stack alone unless they fail. */
  predicate IsFlow(op: Opcode) {
    op in {IAny, IChar, ISet, ITestAny, ITestChar, ITestSet, ISpan, IBehind, IJmp, IFail}
  }

  // What an instruction of this kind does, whatever the stack.
  lemma FlowStep(code: Code, s: Subject, p: int, i: nat, st: seq<Entry>, st': seq<Entry>)
    requires 0 <= p < |code| && code[p].I? && IsFlow(code[p].op)
    ensures var c, c' := Step(code, s, Run(p, i, st)), Step(code, s, Run(p, i, st'));
            || (c == Stuck && c' == Stuck)
            || (c == FailTo(st) && c' == FailTo(st'))
            || (exists q, j :: c == Run(q, j, st) && c' == Run(q, j, st'))
  {
  }

  lemma FlowKept(before: Code, after: Code, s: Subject, p: int, i: nat, st: seq<Entry>)
    requires TailRel(before, after) && 0 <= p < |after| && before[p] == after[p] && before[p].I? && IsFlow(before[p].op)
    requires Step(before, s, Run(p, i, st)) != Stuck
    ensures Step(before, s, Run(p, i, st)) == Step(after, s, Run(p, i, st))
  {
    hide TailRel, FailTo, Has;
    CellsKept(before, after, p);
  }

  lemma FlowRelated(before: Code, after: Code, s: Subject, p: int, i: nat, st0: seq<Entry>, st: seq<Entry>)
    requires TailRel(before, after) && StackRel(after, st0, st)
    requires 0 <= p < |after| && before[p] == after[p] && before[p].I? && IsFlow(before[p].op)
    requires Step(before, s, Run(p, i, st0)) != Stuck
    ensures Related(after, Step(before, s, Run(p, i, st0)), Step(after, s, Run(p, i, st)))
  {
    hide TailRel, StackRel, Step, FailTo, Related, IsFlow;
    FlowKept(before, after, s, p, i, st0);
    FlowStep(after, s, p, i, st0, st);
    var c := Step(after, s, Run(p, i, st0));
    if c == FailTo(st0) && Step(after, s, Run(p, i, st)) == FailTo(st) {
      FailRelated(after, st0, st);
    } else {
      var q, j :| c == Run(q, j, st0) && Step(after, s, Run(p, i, st)) == Run(q, j, st);
      RunRelated(after, q, j, st0, st);
    }
  }

  lemma CallRelated(before: Code, after: Code, s: Subject, p: int, i: nat, st0: seq<Entry>, st: seq<Entry>)
    requires TailRel(before, after) && StackRel(after, st0, st)
    requires IsOp(before, p, ICall) && Step(before, s, Run(p, i, st0)) != Stuck
    ensures Related(after, Step(before, s, Run(p, i, st0)), Step(after, s, Run(p, i, st)))
  {
    hide StackRel, Related;
    CellsKept(before, after, p);
    assert TailCell(before, after, p);
    if before[p] == after[p] {
      StackPush(after, st0, st, Ret(p + 2));
      RunRelated(after, Target(before, p), i, st0 + [Ret(p + 2)], st + [Ret(p + 2)]);
    } else {
      StackPushRet(after, st0, st, p + 2);
      RunRelated(after, Target(before, p), i, st0 + [Ret(p + 2)], st);
    }
  }

  lemma ChoicesRelated(before: Code, after: Code, s: Subject, p: int, i: nat, st0: seq<Entry>, st: seq<Entry>)
    requires TailRel(before, after) && StackRel(after, st0, st)
    requires 0 <= p < |after| && before[p] == after[p] && before[p].I?
    requires before[p].op in {IChoice, ICommit, IBackCommit, IPartialCommit, IFailTwice, IEnd}
    requires Step(before, s, Run(p, i, st0)) != Stuck
    ensures Related(after, Step(before, s, Run(p, i, st0)), Step(after, s, Run(p, i, st)))
  {
    hide StackRel, FailTo, PcRel, Step, Related;
    if before[p].op in {IChoice, IPartialCommit} {
      PushesRelated(before, after, s, p, i, st0, st);
    } else {
      PopsRelated(before, after, s, p, i, st0, st);
    }
  }

  lemma ChoiceStep(code: Code, s: Subject, p: int, i: nat, st: seq<Entry>)
    requires IsOp(code, p, IChoice)
    ensures Step(code, s, Run(p, i, st)) == if HasLabel(code, p) then Run(p + 2, i, st + [Back(Target(code, p), i)]) else Stuck
  {
  }

  lemma PartialStep(code: Code, s: Subject, p: int, i: nat, st: seq<Entry>)
    requires IsOp(code, p, IPartialCommit)
    ensures Step(code, s, Run(p, i, st))
            == if st != [] && Top(st).Back? then Goto(code, p, i, Pop(st) + [Back(Top(st).p, i)]) else Stuck
  {
  }

  lemma PushesRelated(before: Code, after: Code, s: Subject, p: int, i: nat, st0: seq<Entry>, st: seq<Entry>)
    requires TailRel(before, after) && StackRel(after, st0, st)
    requires 0 <= p < |after| && before[p] == after[p] && before[p].I?
    requires before[p].op in {IChoice, IPartialCommit} && Step(before, s, Run(p, i, st0)) != Stuck
    ensures Related(after, Step(before, s, Run(p, i, st0)), Step(after, s, Run(p, i, st)))
  {
    CellsKept(before, after, p);
    hide StackRel, FailTo, PcRel, Step, Related, TailRel, Pop;
    if before[p].op == IChoice {
      ChoiceStep(before, s, p, i, st0);
      ChoiceStep(after, s, p, i, st);
      StackPush(after, st0, st, Back(Target(before, p), i));
      RunRelated(after, p + 2, i, st0 + [Back(Target(before, p), i)], st + [Back(Target(before, p), i)]);
    } else {
      PartialStep(before, s, p, i, st0);
      PartialStep(after, s, p, i, st);
      StackTop(after, st0, st);
      var e := Back(Top(st0).p, i);
      StackPush(after, Pop(st0), Pop(st), e);
      RunRelated(after, Target(before, p), i, Pop(st0) + [e], Pop(st) + [e]);
    }
  }

  lemma PopsRelated(before: Code, after: Code, s: Subject, p: int, i: nat, st0: seq<Entry>, st: seq<Entry>)
    requires TailRel(before, after) && StackRel(after, st0, st)
    requires 0 <= p < |after| && before[p] == after[p] && before[p].I?
    requires before[p].op in {ICommit, IBackCommit, IFailTwice, IEnd} && Step(before, s, Run(p, i, st0)) != Stuck
    ensures Related(after, Step(before, s, Run(p, i, st0)), Step(after, s, Run(p, i, st)))
  {
    hide TailRel, StackRel, FailTo, PcRel;
    CellsKept(before, after, p);
    StackTop(after, st0, st);
    match before[p].op
    case ICommit => RunRelated(after, Target(before, p), i, Pop(st0), Pop(st));
    case IBackCommit => RunRelated(after, Target(before, p), Top(st0).s, Pop(st0), Pop(st));
    case IFailTwice => FailRelated(after, Pop(st0), Pop(st));
    case IEnd =>
  }

  // Both programs execute the same instruction, or a call and the jump made of it.
  lemma SameStep(before: Code, after: Code, s: Subject, p: int, i: nat, st0: seq<Entry>, st: seq<Entry>)
    requires TailRel(before, after) && StackRel(after, st0, st)
    requires 0 <= p < |after| && !IsOp(before, p, IRet) && Step(before, s, Run(p, i, st0)) != Stuck
    ensures Related(after, Step(before, s, Run(p, i, st0)), Step(after, s, Run(p, i, st)))
  {
    assert before[p].I? && !before[p].op.IOpenCall?;
    hide StackRel, Related, Step;
    if IsOp(before, p, ICall) {
      CallRelated(before, after, s, p, i, st0, st);
    } else {
      assert TailCell(before, after, p);
      if IsFlow(before[p].op) {
        FlowRelated(before, after, s, p, i, st0, st);
      } else {
        ChoicesRelated(before, after, s, p, i, st0, st);
      }
    }
  }

  // One step of the first program is matched by at most one step of the second.
  lemma StepRelated(before: Code, after: Code, s: Subject, c0: State, c: State)
    requires TailRel(before, after) && Related(after, c0, c) && Step(before, s, c0) != Stuck
    ensures Related(after, Step(before, s, c0), c) || Related(after, Step(before, s, c0), Step(after, s, c))
  {
    if c0.Run? {
      var Run(p0, i, st0) := c0;
      var p, st := c.p, c.stack;
      if 0 <= p0 < |after| { assert TailCell(before, after, p0); }
      if p0 == GIVEUP {
        assert p == GIVEUP && st == [];
      } else if IsOp(before, p0, IRet) && IsOp(after, p, IRet) {
        ReturnsRelated(before, after, s, p0, p, i, st0, st);
      } else if p0 != p {
        assert JumpAt(after, p0) by {
          if n: nat :| Jumps(after, p0, p, n) {
          } else {
            var n: nat, q :| Jumps(after, p0, q, n) && IsOp(after, q, IRet);
          }
        }
        StepsAhead(before, after, s, p0, p, i, st0, st);
      } else {
        SameStep(before, after, s, p, i, st0, st);
      }
    }
  }

  /** Every run of the first program that ends has its counterpart in the second. */
  lemma {:induction false} Simulated(before: Code, after: Code, s: Subject, c0: State, c: State, n: nat, r: Result)
    requires TailRel(before, after) && Related(after, c0, c) && Steps(before, s, n, c0) == Done(r)
    ensures Halts(after, s, c, r)
    decreases n
  {
    if n == 0 {
      ReachRefl(after, s, c);
    } else {
      var c1 := Step(before, s, c0);
      StopsStay(before, s, n - 1, Stuck);
      StepRelated(before, after, s, c0, c);
      if Related(after, c1, c) {
        Simulated(before, after, s, c1, c, n - 1, r);
      } else {
        Simulated(before, after, s, c1, Step(after, s, c), n - 1, r);
        ReachStep(after, s, c);
        ReachTrans(after, s, c, Step(after, s, c), Done(r));
      }
    }
  }

  /** Tail calls as jumps: any program, any subject, any start. */
  lemma TailCallsPreserve(before: Code, after: Code, s: Subject, i: nat, r: Result)
    requires TailRel(before, after) && Halts(before, s, Start(i), r)
    ensures Halts(after, s, Start(i), r)
  {
    var n: nat :| Steps(before, s, n, Start(i)) == Done(r);
    PcSame(after, 0);
    Simulated(before, after, s, Start(i), Start(i), n, r);
  }

  // ----- the emitted code with and without tail calls

  lemma TailRefl(x: Code)
    ensures TailRel(x, x)
  {
    forall q | 0 <= q < |x| ensures TailCell(x, x, q) {}
  }

  lemma TailCat(x0: Code, x: Code, y0: Code, y: Code)
    requires TailRel(x0, x) && TailRel(y0, y)
    ensures TailRel(x0 + y0, x + y)
  {
    forall q | 0 <= q < |x + y| ensures TailCell(x0 + y0, x + y, q) {
      if q < |x| {
        assert TailCell(x0, x, q);
        if x0[q] != x[q] {
          KeptInside([], x, y);
          assert [] + x + y == x + y;
          LeadsLift(x, x + y, 0, q + 2);
        }
      } else {
        assert TailCell(y0, y, q - |x|);
        if y0[q - |x|] != y[q - |x|] {
          KeptInside(x, y, []);
          assert x + y + [] == x + y;
          LeadsLift(y, x + y, |x|, q - |x| + 2);
        }
      }
    }
  }

  /** Jumps and returns of x stand in y as well. */
  ghost predicate Kept(x: Code, y: Code) {
    JumpsKept(x, y, 0) && forall q | IsOp(x, q, IRet) :: IsOp(y, q, IRet)
  }

  lemma KeptByClose(code: Code, q: nat, pos: seq<int>)
    requires q + 1 < |code| && IsOpen(code[q]) && code[q + 1] == Op(IAny)
    ensures Kept(code, CloseCall(code, q, pos))
  {
    var code' := CloseCall(code, q, pos);
    forall k | 0 <= k < |code| && k != q && k != q + 1 ensures code'[k] == code[k] {}
  }

  lemma KeptTrans(x: Code, y: Code, z: Code)
    requires Kept(x, y) && Kept(y, z)
    ensures Kept(x, z)
  {
    forall p | JumpAt(x, p) ensures JumpAt(z, p) && Target(z, p) == Target(x, p) {
      assert JumpAt(y, 0 + p) && Target(y, 0 + p) == 0 + Target(x, p);
      assert JumpAt(z, 0 + p) && Target(z, 0 + p) == 0 + Target(y, p);
    }
  }

  /** The cells below q are closed and related to the same cells with calls only. */
  ghost predicate ClosedBelow(body0: Code, body: Code, code: Code, q: nat, pos: seq<int>) {
    && |body0| == |body| == |code| && q <= |code| && TailRel(body0, body) && Boundary(code, q)
    && (forall k | q <= k < |code| :: code[k] == body[k])
    && (q > 0 ==> !IsOpen(body[q - 1]))
    && Kept(body, code)
    && forall k {:trigger TailCell(Resolved(body0, pos), code, k)} | 0 <= k < q :: TailCell(Resolved(body0, pos), code, k)
  }

  lemma CellPersists(before: Code, x: Code, y: Code, k: nat)
    requires k < |before| == |x| == |y| && TailCell(before, x, k) && Kept(x, y) && x[k] == y[k]
    ensures TailCell(before, y, k)
  {
    if before[k] != x[k] { LeadsLift(x, y, 0, k + 2); }
  }

  // A step of 'correctcalls' over an instruction that is no open call.
  lemma PassedBelow(body0: Code, body: Code, code: Code, q: nat, pos: seq<int>)
    requires ClosedBelow(body0, body, code, q, pos) && q < |code| && InstrOk(code, q) && !IsOpen(code[q])
    ensures ClosedBelow(body0, body, code, q + Sizei(code[q].op), pos)
  {
    BoundaryStep(code, q);
    var r := q + Sizei(code[q].op);
    forall k | 0 <= k < r ensures TailCell(Resolved(body0, pos), code, k) {
      if k >= q {
        assert TailCell(body0, body, k);
        if k > 0 { assert TailCell(body0, body, k - 1); }
        assert Resolved(body0, pos)[k] == ResCell(body0, k, 0, pos);
        assert !IsOpen(body[k]) && (k > 0 ==> !IsOpen(body[k - 1]));
        if body0[k] != body[k] { LeadsLift(body, code, 0, k + 2); }
      }
    }
  }

  // A step of 'correctcalls' over an open call.
  lemma ClosedOneMore(body0: Code, body: Code, code: Code, q: nat, pos: seq<int>)
    requires ClosedBelow(body0, body, code, q, pos) && q < |code| && InstrOk(code, q) && IsOpen(code[q])
    ensures ClosedBelow(body0, body, CloseCall(code, q, pos), q + 2, pos)
  {
    var code', res := CloseCall(code, q, pos), Resolved(body0, pos);
    CloseCallWhole(code, q, pos);
    KeptByClose(code, q, pos);
    KeptTrans(body, code, code');
    assert TailCell(body0, body, q) && TailCell(body0, body, q + 1);
    assert res[q] == ResCell(body0, q, 0, pos) && res[q + 1] == ResCell(body0, q + 1, 0, pos);
    forall k | 0 <= k < q + 2 ensures TailCell(res, code', k) {
      if k < q {
        assert TailCell(res, code, k);
        CellPersists(res, code, code', k);
      } else if k == q {
        if LeadsToRet(code, q + 2) { LeadsLift(code, code', 0, q + 2); }
      }
    }
  }

  lemma {:induction false} CorrectCallsTail(body0: Code, body: Code, code: Code, q: nat, pos: seq<int>)
    requires ClosedBelow(body0, body, code, q, pos)
    ensures TailRel(Resolved(body0, pos), CorrectCalls(code, q, pos))
    decreases |code| - q
  {
    hide ClosedBelow, LeadsToRet, TailCell;
    assert q <= |code| && Boundary(code, q) && |body0| == |code| by { BelowFacts(body0, body, code, q, pos); }
    if q < |code| {
      BoundaryStep(code, q);
      if IsOpen(code[q]) {
        ClosedOneMore(body0, body, code, q, pos);
        CorrectCallsTail(body0, body, CloseCall(code, q, pos), q + 2, pos);
      } else {
        PassedBelow(body0, body, code, q, pos);
        CorrectCallsTail(body0, body, code, q + Sizei(code[q].op), pos);
      }
    } else {
      BelowIsAll(body0, body, code, pos);
    }
  }

  lemma BelowFacts(body0: Code, body: Code, code: Code, q: nat, pos: seq<int>)
    requires ClosedBelow(body0, body, code, q, pos)
    ensures q <= |code| && Boundary(code, q) && |body0| == |code|
  {
  }

  lemma BelowIsAll(body0: Code, body: Code, code: Code, pos: seq<int>)
    requires ClosedBelow(body0, body, code, |code|, pos)
    ensures TailRel(Resolved(body0, pos), code)
  {
  }

  lemma ClosedTail(body0: Code, body: Code, pos: seq<int>)
    requires TailRel(body0, body) && Whole(body)
    ensures TailRel(Closed(false, body0, pos), Closed(true, body, pos))
  {
    assert Kept(body, body);
    assert Parses(body, 0, 0);
    CorrectCallsTail(body0, body, body, 0, pos);
  }

  // Fixed cells in front of, or behind, related code.
  lemma TailFront(x: Code, y0: Code, y: Code)
    requires TailRel(y0, y)
    ensures TailRel(x + y0, x + y)
  {
    TailRefl(x);
    TailCat(x, x, y0, y);
  }

  lemma TailBack(x0: Code, x: Code, y: Code)
    requires TailRel(x0, x)
    ensures TailRel(x0 + y, x + y)
  {
    TailRefl(y);
    TailCat(x0, x, y, y);
  }

  lemma ThenElseTail(cs: Charset, x1: Code, y1: Code, x2: Code, y2: Code, emptyp2: bool)
    requires TailRel(x1, y1) && TailRel(x2, y2)
    ensures TailRel(TestThenElse(cs, x1, x2, emptyp2), TestThenElse(cs, y1, y2, emptyp2))
  {
    assert |x1| == |y1| && |x2| == |y2|;
    hide TailRel;
    var jmp := if emptyp2 then [] else Jump(IJmp, 2 + |x2|);
    var test := TestCells(cs, TestSize(cs) + |x1| + |jmp|);
    TailFront(test, x1, y1);
    TailBack(test + x1, test + y1, jmp);
    TailCat(test + x1 + jmp, test + y1 + jmp, x2, y2);
  }

  lemma OrElseTail(f: First, x1: Code, y1: Code, x2: Code, y2: Code)
    requires TailRel(x1, y1) && TailRel(x2, y2)
    ensures TailRel(OrElse(f, x1, x2), OrElse(f, y1, y2))
  {
    var head := OptTest(f, 2 + |x1| + 2) + Jump(IChoice, 2 + |x1| + 2);
    TailFront(head, x1, y1);
    TailBack(head + x1, head + y1, Jump(ICommit, 2 + |x2|));
    TailCat(head + x1 + Jump(ICommit, 2 + |x2|), head + y1 + Jump(ICommit, 2 + |x2|), x2, y2);
  }

  lemma LoopsTail(f: First, opt: bool, x: Code, y: Code)
    requires TailRel(x, y)
    ensures TailRel(TestLoop(f.cs, x), TestLoop(f.cs, y)) && TailRel(ChoiceLoop(f, opt, x), ChoiceLoop(f, opt, y))
  {
    hide TailRel, TestLoop, ChoiceLoop;
    TestLoopTail(f.cs, x, y);
    ChoiceLoopTail(f, opt, x, y);
  }

  lemma TestLoopTail(cs: Charset, x: Code, y: Code)
    requires TailRel(x, y)
    ensures TailRel(TestLoop(cs, x), TestLoop(cs, y))
  {
    assert |x| == |y|;
    hide TailRel, TestCells;
    var test := TestCells(cs, TestSize(cs) + |x| + 2);
    TailFront(test, x, y);
    TailBack(test + x, test + y, Jump(IJmp, -(TestSize(cs) + |x|)));
  }

  lemma ChoiceLoopTail(f: First, opt: bool, x: Code, y: Code)
    requires TailRel(x, y)
    ensures TailRel(ChoiceLoop(f, opt, x), ChoiceLoop(f, opt, y))
  {
    assert |x| == |y|;
    hide TailRel, OptTest;
    var head := OptTest(f, 2 + |x| + 2) + if opt then Jump(IPartialCommit, 2) else Jump(IChoice, 2 + |x| + 2);
    TailFront(head, x, y);
    TailBack(head + x, head + y, Jump(IPartialCommit, -|x|));
  }

  lemma PredicatesTail(f: First, headfail: bool, n: int, x: Code, y: Code)
    requires TailRel(x, y)
    ensures TailRel(NotCells(f, headfail, x), NotCells(f, headfail, y)) && TailRel(AndCells(n, x), AndCells(n, y))
    ensures TailRel(BehindCells(n) + x, BehindCells(n) + y)
  {
    TailRefl(NotCells(f, true, x));
    var head := OptTest(f, 2 + |x| + 1) + Jump(IChoice, 2 + |x| + 1);
    TailFront(head, x, y);
    TailBack(head + x, head + y, [Op(IFailTwice)]);
    TailBack(x, y, BehindCells(n));
    var choice := Jump(IChoice, 2 + |x| + 2);
    TailFront(choice, x, y);
    TailBack(choice + x, choice + y, Jump(IBackCommit, 3));
    TailBack(choice + x + Jump(IBackCommit, 3), choice + y + Jump(IBackCommit, 3), [Op(IFail)]);
    TailFront(BehindCells(n), x, y);
  }

  /** The code of a pattern with and without tail calls. */
  lemma {:induction false} GenTail(d: nat, g: seq<Tree>, t: Tree, opt: bool, tt: Test, fl: Charset)
    ensures TailRel(Gen(false, d, g, t, opt, tt, fl), Gen(true, d, g, t, opt, tt, fl))
    decreases t, 0
  {
    hide TailRel, Checkaux, Fixedlen, Getfirst, Headfail, Disjoint, KindOf, TestThenElse, OrElse, TestLoop, ChoiceLoop, NotCells, AndCells, CharCells, CharsetCells, Closed, GenRules;
    match t
    case TChoice(p1, p2) =>
      var f1 := Getfirst(d, g, p1, FullSet());
      GenTail(d, g, p2, opt, NoTest, fl);
      var x2, y2 := Gen(false, d, g, p2, opt, NoTest, fl), Gen(true, d, g, p2, opt, NoTest, fl);
      if ChoiceByTest(d, g, p1, p2, fl) {
        GenTail(d, g, p1, false, TestOf(f1.cs), fl);
        ThenElseTail(f1.cs, Gen(false, d, g, p1, false, TestOf(f1.cs), fl), Gen(true, d, g, p1, false, TestOf(f1.cs), fl),
                     x2, y2, p2.TTrue?);
      } else if opt && p2.TTrue? {
        GenTail(d, g, p1, true, NoTest, FullSet());
        TailFront(Jump(IPartialCommit, 2), Gen(false, d, g, p1, true, NoTest, FullSet()),
                  Gen(true, d, g, p1, true, NoTest, FullSet()));
      } else {
        GenTail(d, g, p1, p2.TTrue?, OptTestOf(f1), FullSet());
        OrElseTail(f1, Gen(false, d, g, p1, p2.TTrue?, OptTestOf(f1), FullSet()),
                   Gen(true, d, g, p1, p2.TTrue?, OptTestOf(f1), FullSet()), x2, y2);
      }
    case TRep(p) =>
      var f := Getfirst(d, g, p, FullSet());
      TailRefl(SetCells(ISpan, if IsCharPattern(p) then ToCharset(p) else FullSet()));
      GenTail(d, g, p, false, TestOf(f.cs), FullSet());
      GenTail(d, g, p, false, NoTest, FullSet());
      LoopsTail(f, opt, Gen(false, d, g, p, false, TestOf(f.cs), FullSet()), Gen(true, d, g, p, false, TestOf(f.cs), FullSet()));
      LoopsTail(f, opt, Gen(false, d, g, p, false, NoTest, FullSet()), Gen(true, d, g, p, false, NoTest, FullSet()));
    case TBehind(n, p) =>
      GenTail(d, g, p, false, NoTest, FullSet());
      PredicatesTail(First(true, fl), true, n, Gen(false, d, g, p, false, NoTest, FullSet()),
                     Gen(true, d, g, p, false, NoTest, FullSet()));
    case TNot(p) =>
      GenTail(d, g, p, false, NoTest, FullSet());
      PredicatesTail(Getfirst(d, g, p, FullSet()), Headfail(d, g, p), 0, Gen(false, d, g, p, false, NoTest, FullSet()),
                     Gen(true, d, g, p, false, NoTest, FullSet()));
    case TAnd(p) =>
      GenTail(d, g, p, false, tt, FullSet());
      PredicatesTail(First(true, fl), true, Fixedlen(d, g, p), Gen(false, d, g, p, false, tt, FullSet()),
                     Gen(true, d, g, p, false, tt, FullSet()));
    case TSeq(p1, p2) =>
      var fl1, tt2 := SeqFollow(d, g, p1, p2, fl), SeqTest(d, g, p1, tt);
      GenTail(d, g, p1, false, tt, fl1);
      GenTail(d, g, p2, opt, tt2, fl);
      TailCat(Gen(false, d, g, p1, false, tt, fl1), Gen(true, d, g, p1, false, tt, fl1),
              Gen(false, d, g, p2, opt, tt2, fl), Gen(true, d, g, p2, opt, tt2, fl));
    case TGrammar(rules) => GrammarTail(d, rules);
    case TChar(_) => TailRefl(Gen(true, d, g, t, opt, tt, fl));
    case TSet(_) => TailRefl(Gen(true, d, g, t, opt, tt, fl));
    case TAny => TailRefl(Gen(true, d, g, t, opt, tt, fl));
    case TTrue => TailRefl(Gen(true, d, g, t, opt, tt, fl));
    case TFalse => TailRefl(Gen(true, d, g, t, opt, tt, fl));
    case TCall(_) => TailRefl(Gen(true, d, g, t, opt, tt, fl));
  }

  lemma {:induction false} GrammarTail(d: nat, rules: seq<Tree>)
    ensures var x, y := GenRules(false, d, rules, |rules|), GenRules(true, d, rules, |rules|);
            TailRel(Jump(ICall, 4) + Jump(IJmp, 2 + |x|) + Closed(false, x, Positions(false, d, rules)),
                    Jump(ICall, 4) + Jump(IJmp, 2 + |y|) + Closed(true, y, Positions(true, d, rules)))
    decreases rules, |rules| + 1
  {
    hide Closed, Whole;
    var x, y := GenRules(false, d, rules, |rules|), GenRules(true, d, rules, |rules|);
    var pos, pos' := Positions(false, d, rules), Positions(true, d, rules);
    RulesTail(d, rules, |rules|);
    forall k | 0 <= k < |rules| ensures pos[k] == pos'[k] { RulesTail(d, rules, k); }
    assert pos == pos';
    RulesWhole(true, d, rules, |rules|);
    ClosedTail(x, y, pos);
    assert |x| == |y|;
    TailFront(Jump(ICall, 4) + Jump(IJmp, 2 + |x|), Closed(false, x, pos), Closed(true, y, pos));
  }

  lemma {:induction false} RulesTail(d: nat, rules: seq<Tree>, n: nat)
    requires n <= |rules|
    ensures TailRel(GenRules(false, d, rules, n), GenRules(true, d, rules, n))
    decreases rules, n
  {
    hide TailRel, Gen;
    if n == 0 {
      TailRefl([]);
    } else {
      var x, y := GenRules(false, d, rules, n - 1), GenRules(true, d, rules, n - 1);
      var x1 := Gen(false, d, rules, rules[n - 1], false, NoTest, FullSet());
      var y1 := Gen(true, d, rules, rules[n - 1], false, NoTest, FullSet());
      RulesTail(d, rules, n - 1);
      GenTail(d, rules, rules[n - 1], false, NoTest, FullSet());
      TailCat(x, y, x1, y1);
      TailBack(x + x1, y + y1, [Op(IRet)]);
    }
  }
}
