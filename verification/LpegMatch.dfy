// Compiling a pattern and matching with it.
module LpegMatch {
  import opened LpegCharset
  import opened LpegTree
  import opened LpegAnalysis
  import opened LpegVm
  import opened LpegGen
  import opened LpegShape
  import opened LpegCorrect
  import opened LpegTail
  import opened LpegChains
  import opened LpegCircles
  import opened LpegPeephole
  import opened LpegCompile
  import G = LpegGrammar

  /** A pattern that its constructors accept: no call outside a grammar, no empty loop, look-behinds of
      known length, and fine sub-grammars. */
  ghost predicate Accepted(d: nat, t: Tree) {
    G.CallFree(t) && !G.Checkloops(d, [], t) && TreeOk(d, t) && G.Fine(d, t)
  }

  /** The program 'compile' returns. */
  ghost function Compiled(d: nat, t: Tree): Code {
    Peephole(Program(true, d, t), 0)
  }

  method Compile(d: nat, t: Tree) returns (code: Code)
    requires Defined(t) && Compiles(d, [], t)
    ensures code == Compiled(d, t)
  {
    hide Gen, Defined, Compiles, AllStop;
    var compst := new CompileState(d);
    NoTestAt(compst.code);
    compst.Codegen([], t, false, NOINST, FullSet());
    var _ := compst.AddInstruction(IEnd, 0);
    assert compst.code == Program(true, d, t);
    ProgramShape(d, t);
    compst.PeepholePass();
    code := compst.code;
  }

  lemma ProgramShape(d: nat, t: Tree)
    requires Defined(t) && Compiles(d, [], t)
    ensures Whole(Program(true, d, t)) && AllStop(Program(true, d, t))
  {
    hide Gen;
    var code := Program(true, d, t);
    GenWhole(true, d, [], t, false, NoTest, FullSet());
    WholeOp(Op(IEnd));
    WholeCat(Gen(true, d, [], t, false, NoTest, FullSet()), [Op(IEnd)]);
    forall p ensures Stops(code, p) {
      if p >= 0 {
        ProgramEnds(d, t, p);
        var n: nat, q :| Jumps(code, p, q, n) && q >= 0 && !JumpAt(code, q);
      } else {
        assert Jumps(code, p, p, 0);
      }
    }
  }

  lemma {:induction false} CallFreeBehinds(t: Tree)
    requires G.CallFree(t)
    ensures G.BehindsClosed(t)
  {
    match t
    case TRep(p) => SubCallFree(t, p); CallFreeBehinds(p);
    case TNot(p) => SubCallFree(t, p); CallFreeBehinds(p);
    case TAnd(p) => SubCallFree(t, p); CallFreeBehinds(p);
    case TBehind(_, p) => SubCallFree(t, p); CallFreeBehinds(p);
    case TSeq(p1, p2) => SubCallFree(t, p1); SubCallFree(t, p2); CallFreeBehinds(p1); CallFreeBehinds(p2);
    case TChoice(p1, p2) => SubCallFree(t, p1); SubCallFree(t, p2); CallFreeBehinds(p1); CallFreeBehinds(p2);
    case _ =>
  }

  lemma SubCallFree(t: Tree, p: Tree)
    requires G.CallFree(t) && forall k: nat | G.CallsRule(p, k) :: G.CallsRule(t, k)
    ensures G.CallFree(p)
  {
  }

  /** The program with calls only gives the result of the pattern. */
  lemma PlainProgramCorrect(f: nat, d: nat, t: Tree, s: Subject, i: nat)
    requires G.CallFree(t) && TreeOk(d, t) && i <= |s| && Peg(f, [], t, s, i) != Out
    ensures Halts(Program(false, d, t), s, Start(i), Peg(f, [], t, s, i))
  {
    hide Gen, TreeOk, G.Fine, Step, Peg;
    var c, code := Gen(false, d, [], t, false, NoTest, FullSet()), Program(false, d, t);
    NoOpenCalls(d, t);
    forall k: nat | k < |c| ensures code[0 + k] == ResCell(c, k, 0, []) {}
    var st := [Back(GIVEUP, i)];
    GenCorrect(f, d, [], [], code, s, t, false, NoTest, FullSet(), 0, i, st);
    match Peg(f, [], t, s, i)
    case Fail => ReachesStep(code, s, Start(i), Run(GIVEUP, i, []), Done(Fail)) by { Giveup(code, s, i); }
    case Ok(j) => ReachesStep(code, s, Start(i), Run(|c|, j, st), Done(Ok(j))) by { EndStep(code, s, |c|, j, st); }
  }

  lemma Giveup(code: Code, s: Subject, i: nat)
    ensures Step(code, s, Run(GIVEUP, i, [])) == Done(Fail)
  {
  }

  lemma EndStep(code: Code, s: Subject, p: nat, j: nat, st: seq<Entry>)
    requires IsOp(code, p, IEnd) && |st| == 1 && Top(st).Back?
    ensures Step(code, s, Run(p, j, st)) == Done(Ok(j))
  {
  }

  lemma NoOpenCalls(d: nat, t: Tree)
    requires G.CallFree(t)
    ensures forall k | 0 <= k < |Gen(false, d, [], t, false, NoTest, FullSet())| :: !IsOpen(Gen(false, d, [], t, false, NoTest, FullSet())[k])
  {
    hide Gen;
    var x, y := Gen(false, d, [], t, false, NoTest, FullSet()), Gen(true, d, [], t, false, NoTest, FullSet());
    GenTail(d, [], t, false, NoTest, FullSet());
    GenOpenFor(d, [], t, false, NoTest, FullSet());
    forall k | 0 <= k < |x| ensures !IsOpen(x[k]) {
      assert TailCell(x, y, k);
    }
  }

  /** The main result: whenever a pattern has a result and the compiler ends, the compiled program, with all its
      optimizations, ends with that result. */
  lemma OptimizedCorrect(f: nat, d: nat, t: Tree, s: Subject, i: nat)
    requires G.CallFree(t) && Defined(t) && TreeOk(d, t) && Compiles(d, [], t)
    requires i <= |s| && Peg(f, [], t, s, i) != Out
    ensures Halts(Compiled(d, t), s, Start(i), Peg(f, [], t, s, i))
  {
    hide Gen, Halts, TreeOk, Defined, Compiles;
    var r := Peg(f, [], t, s, i);
    var plain, tails := Program(false, d, t), Program(true, d, t);
    PlainProgramCorrect(f, d, t, s, i);
    GenTail(d, [], t, false, NoTest, FullSet());
    TailBack(Gen(false, d, [], t, false, NoTest, FullSet()), Gen(true, d, [], t, false, NoTest, FullSet()), [Op(IEnd)]);
    TailCallsPreserve(plain, tails, s, i, r);
    ProgramShape(d, t);
    WholeBoundary(tails);
    PeepholePreserves(tails, 0);
    assert Preserves(tails, Peephole(tails, 0));
  }

  /** Both are so for every accepted pattern, on every subject and from every start position; and the result is
      the only one that the pattern has and the only one that the program has. */
  lemma CompiledCorrect(d: nat, t: Tree, s: Subject, i: nat) returns (r: Result)
    requires Accepted(d, t) && i <= |s|
    ensures r != Out && Halts(Compiled(d, t), s, Start(i), r) && exists f: nat :: Peg(f, [], t, s, i) == r
    ensures forall f: nat | Peg(f, [], t, s, i) != Out :: Peg(f, [], t, s, i) == r
    ensures forall r' | Halts(Compiled(d, t), s, Start(i), r') :: r' == r
  {
    hide Gen, Halts, TreeOk, G.Fine, Compiled, Peg, Defined, Compiles;
    var h := G.NestingDepth(t);
    CallFreeBehinds(t);
    FineCompiles(d, [], t);
    var f := G.Terminates(true, d, h, [], t, s, i);
    r := Peg(f, [], t, s, i);
    OptimizedCorrect(f, d, t, s, i);
    forall f': nat | Peg(f', [], t, s, i) != Out ensures Peg(f', [], t, s, i) == r { PegDeterministic(f, f', [], t, s, i); }
    forall r' | Halts(Compiled(d, t), s, Start(i), r') ensures r' == r { HaltsOnce(Compiled(d, t), s, Start(i), r, r'); }
  }

  const INITBACK := 400

  /** The interpreter: an instruction pointer, a subject position and a backtrack stack that doubles. */
  class Machine {
    const code: Code
    const s: Subject
    var p: int
    var i: nat
    var stack: array<Entry>
    var top: nat
    var result: Result  // Out while the machine runs

    ghost predicate Valid()
      reads this
    {
      top <= stack.Length && stack.Length > 0
    }

    ghost function Entries(): seq<Entry>
      reads this, stack
      requires Valid()
    {
      stack[..top]
    }

    ghost function State(): State
      reads this, stack
      requires Valid()
    {
      if result == Out then Run(p, i, Entries()) else Done(result)
    }

    constructor (code: Code, s: Subject, i: nat)
      ensures Valid() && fresh(stack) && this.code == code && this.s == s && State() == Start(i)
    {
      this.code := code;
      this.s := s;
      this.p := 0;
      this.i := i;
      this.top := 1;
      this.result := Out;
      this.stack := new Entry[INITBACK](_ => Back(GIVEUP, i));
      new;
      assert stack[..top] == [Back(GIVEUP, i)];
    }

    method Push(e: Entry)
      requires Valid()
      modifies this`stack, this`top, stack
      ensures Valid() && Entries() == old(Entries()) + [e] && (stack == old(stack) || fresh(stack))
    {
      if top == stack.Length {
        DoubleStack();
      }
      stack[top] := e;
      top := top + 1;
    }

    /** 'doublestack' without its limit. */
    method DoubleStack()
      requires Valid()
      modifies this`stack
      ensures Valid() && fresh(stack) && stack.Length == 2 * old(stack.Length) && Entries() == old(Entries())
    {
      var newStack := new Entry[2 * stack.Length](_ => Ret(0));
      var k := 0;
      while k < top
        invariant 0 <= k <= top && stack == old(stack) && stack[..] == old(stack[..])
        invariant newStack[..k] == stack[..k]
      {
        newStack[k] := stack[k];
        k := k + 1;
      }
      stack := newStack;
    }

    /** The label 'fail'. */
    method Backtrack()
      requires Valid() && FailTo(Entries()) != Stuck
      modifies this`p, this`i, this`top
      ensures Valid() && stack == old(stack) && Run(p, i, Entries()) == FailTo(old(Entries()))
    {
      assert top > 0;
      top := top - 1;
      assert old(Entries()) == Entries() + [stack[top]] && Pop(old(Entries())) == Entries();
      while stack[top].Ret?
        invariant top < stack.Length && FailTo(stack[..top + 1]) == FailTo(old(Entries()))
        invariant stack[..] == old(stack[..])
        decreases top
      {
        assert Pop(stack[..top + 1]) == stack[..top];
        top := top - 1;
      }
      assert Pop(stack[..top + 1]) == stack[..top];
      p, i := stack[top].p, stack[top].s;
    }

    /** An instruction that leaves the stack alone unless it fails. */
    method ExecFlow()
      requires Valid() && result == Out && OpIn(code, p) && IsFlow(code[p].op)
      requires Step(code, s, State()) != Stuck
      modifies this`p, this`i, this`top
      ensures Valid() && State() == Step(code, s, old(State()))
    {
      hide FailTo, Has;
      match code[p].op {
        case IAny => if i < |s| { p, i := p + 1, i + 1; } else { Backtrack(); }
        case IChar => if i < |s| && s[i] == code[p].aux { p, i := p + 1, i + 1; } else { Backtrack(); }
        case ISet =>
          if i < |s| && Has(code[p + 1].cs, s[i]) { p, i := p + CHARSETINSTSIZE, i + 1; } else { Backtrack(); }
        case ITestAny => if i < |s| { p := p + 2; } else { p := Target(code, p); }
        case ITestChar => if i < |s| && s[i] == code[p].aux { p := p + 2; } else { p := Target(code, p); }
        case ITestSet =>
          if i < |s| && Has(code[p + 2].cs, s[i]) { p := p + 1 + CHARSETINSTSIZE; } else { p := Target(code, p); }
        case IBehind =>
          var n := code[p].aux;
          if n > i { Backtrack(); } else { p, i := p + 1, i - n; }
        case ISpan => ExecSpan();
        case IJmp => p := Target(code, p);
        case IFail => Backtrack();
      }
    }

    method ExecSpan()
      requires Valid() && result == Out && IsOp(code, p, ISpan) && HasBuf(code, p + 1)
      modifies this`p, this`i
      ensures State() == Step(code, s, old(State()))
    {
      ghost var cs := code[p + 1].cs;
      while i < |s| && Has(code[p + 1].cs, s[i])
        invariant p == old(p) && SpanEnd(cs, s, i) == SpanEnd(cs, s, old(i))
        decreases |s| - i
      {
        i := i + 1;
      }
      p := p + CHARSETINSTSIZE;
    }

    /** An instruction that works on the stack. */
    method ExecStack()
      requires Valid() && result == Out && OpIn(code, p) && !IsFlow(code[p].op)
      requires Step(code, s, State()) != Stuck
      modifies this, stack
      ensures Valid() && State() == Step(code, s, old(State())) && (stack == old(stack) || fresh(stack))
    {
      hide FailTo;
      if top > 0 { assert Pop(Entries()) == stack[..top - 1] && Top(Entries()) == stack[top - 1]; }
      match code[p].op {
        case IEnd => result := Ok(i);
        case IRet => top := top - 1; p := stack[top].p;
        case IChoice =>
          Push(Back(Target(code, p), i));
          p := p + 2;
        case ICall =>
          Push(Ret(p + 2));
          p := Target(code, p);
        case ICommit => top := top - 1; p := Target(code, p);
        case IPartialCommit =>
          stack[top - 1] := Back(stack[top - 1].p, i);
          assert Entries() == stack[..top - 1] + [stack[top - 1]];
          p := Target(code, p);
        case IBackCommit =>
          top := top - 1;
          i := stack[top].s;
          p := Target(code, p);
        case IFailTwice =>
          top := top - 1;
          Backtrack();
      }
    }

    /** One turn of the loop of 'match'. */
    method Turn()
      requires Valid() && result == Out && Step(code, s, State()) != Stuck
      modifies this, stack
      ensures Valid() && State() == Step(code, s, old(State())) && (stack == old(stack) || fresh(stack))
    {
      if p == GIVEUP {
        result := Fail;
      } else if IsFlow(code[p].op) {
        ExecFlow();
      } else {
        ExecStack();
      }
    }
  }

  /** 'match' on a program that has a result. */
  method Match(code: Code, s: Subject, i: nat) returns (result: Result)
    requires exists r :: r != Out && Halts(code, s, Start(i), r)
    ensures result != Out && Halts(code, s, Start(i), result)
  {
    ghost var r :| r != Out && Halts(code, s, Start(i), r);
    ghost var n: nat :| Steps(code, s, n, Start(i)) == Done(r);
    var m := new Machine(code, s, i);
    while m.result == Out
      invariant m.Valid() && fresh(m) && fresh(m.stack)
      invariant Steps(code, s, n, m.State()) == Done(r) && m.code == code && m.s == s
      decreases n
    {
      assert n > 0;
      StopsStay(code, s, n - 1, Stuck);
      m.Turn();
      n := n - 1;
    }
    StopsStay(code, s, n, m.State());
    result := m.result;
  }

  /** Compiling and matching gives what the pattern means, whenever it means anything and the compiler ends. */
  method PatternMatch(d: nat, t: Tree, s: Subject, i: nat) returns (result: Result)
    requires G.CallFree(t) && Defined(t) && TreeOk(d, t) && Compiles(d, [], t)
    requires i <= |s| && exists f: nat :: Peg(f, [], t, s, i) != Out
    ensures result != Out && forall f: nat | Peg(f, [], t, s, i) != Out :: result == Peg(f, [], t, s, i)
  {
    hide Compiled, Halts, Peg, TreeOk, Defined, Compiles;
    var code := Compile(d, t);
    ghost var f: nat :| Peg(f, [], t, s, i) != Out;
    OptimizedCorrect(f, d, t, s, i);
    result := Match(code, s, i);
    HaltsOnce(code, s, Start(i), result, Peg(f, [], t, s, i));
    forall f': nat | Peg(f', [], t, s, i) != Out ensures result == Peg(f', [], t, s, i) { PegDeterministic(f, f', [], t, s, i); }
  }

  /** In particular for every accepted pattern. */
  method AcceptedMatch(d: nat, t: Tree, s: Subject, i: nat) returns (result: Result)
    requires Accepted(d, t) && i <= |s|
    ensures result != Out && exists f: nat :: result == Peg(f, [], t, s, i)
  {
    hide Peg, TreeOk, G.Fine, Compiles, Halts, Compiled;
    FineCompiles(d, [], t);
    ghost var r := CompiledCorrect(d, t, s, i);
    ghost var f: nat :| Peg(f, [], t, s, i) == r;
    result := PatternMatch(d, t, s, i);
  }
}
