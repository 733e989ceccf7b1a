// Emitted code is a sequence of whole instructions, and closing its calls keeps it one.
module LpegShape {
  import opened LpegCharset
  import opened LpegTree
  import opened LpegAnalysis
  import opened LpegVm
  import opened LpegGen

  predicate HasOffset(op: Opcode) {
    op in {ITestAny, ITestChar, ITestSet, IChoice, IJmp, ICall, ICommit, IPartialCommit, IBackCommit}
  }

  /** A whole instruction stands at p: its offset, if any, follows it, and none of its other cells could
      be taken for an instruction, but for the space left after an open call. */
  predicate InstrOk(code: Code, p: int) {
    && 0 <= p < |code| && code[p].I? && p + Sizei(code[p].op) <= |code|
    && (HasOffset(code[p].op) ==> code[p + 1].Off?)
    && (code[p].op.IOpenCall? ==> code[p + 1] == Op(IAny))
    && (!code[p].op.IOpenCall? ==> forall k | p < k < p + Sizei(code[p].op) :: !code[k].I?)
  }

  /** Whole instructions fill the cells from p to e. */
  predicate Parses(code: Code, p: int, e: int)
    decreases e - p
  {
    p == e || (p < e && InstrOk(code, p) && Parses(code, p + Sizei(code[p].op), e))
  }

  predicate Whole(code: Code) {
    Parses(code, 0, |code|)
  }

  lemma {:induction false} ParsesShift(x: Code, y: Code, a: int, p: int, e: int)
    requires Parses(x, p, e) && 0 <= p && e <= |x| && 0 <= a && a + |x| <= |y|
    requires forall k | p <= k < e :: y[a + k] == x[k]
    ensures Parses(y, a + p, a + e)
    decreases e - p
  {
    if p < e {
      var n := Sizei(x[p].op);
      ParsesInside(x, p, e);
      assert y[a + p] == x[p];
      if HasOffset(x[p].op) || x[p].op.IOpenCall? { assert y[a + (p + 1)] == x[p + 1]; }
      forall k | a + p < k < a + p + n ensures y[k] == x[k - a] { assert y[a + (k - a)] == x[k - a]; }
      ParsesShift(x, y, a, p + n, e);
    }
  }

  lemma {:induction false} ParsesInside(code: Code, p: int, e: int)
    requires Parses(code, p, e) && p < e
    ensures p + Sizei(code[p].op) <= e
  {
    ParsesOrdered(code, p + Sizei(code[p].op), e);
  }

  lemma ParsesOrdered(code: Code, p: int, e: int)
    requires Parses(code, p, e)
    ensures p <= e
  {
  }

  lemma {:induction false} ParsesJoin(code: Code, p: int, m: int, e: int)
    requires Parses(code, p, m) && Parses(code, m, e)
    ensures Parses(code, p, e)
    decreases m - p
  {
    if p < m {
      ParsesOrdered(code, p + Sizei(code[p].op), m);
      ParsesOrdered(code, m, e);
      ParsesJoin(code, p + Sizei(code[p].op), m, e);
    }
  }

  lemma WholeCat(x: Code, y: Code)
    requires Whole(x) && Whole(y)
    ensures Whole(x + y)
  {
    hide Parses;
    ParsesShift(x, x + y, 0, 0, |x|);
    ParsesShift(y, x + y, |x|, 0, |y|);
    ParsesJoin(x + y, 0, |x|, |x + y|);
  }

  // The last cell of whole instructions is not an open call.
  lemma {:induction false} WholeEnds(code: Code, p: int)
    requires 0 <= p <= |code| && Parses(code, p, |code|)
    ensures p < |code| ==> !IsOpen(code[|code| - 1])
    decreases |code| - p
  {
    if p < |code| && p + Sizei(code[p].op) < |code| { WholeEnds(code, p + Sizei(code[p].op)); }
  }

  lemma WholeJump(op: Opcode, offset: int)
    requires HasOffset(op) && Sizei(op) == 2
    ensures Whole(Jump(op, offset))
  {
    assert Parses(Jump(op, offset), 2, 2);
  }

  lemma WholeOp(c: Cell)
    requires c.I? && Sizei(c.op) == 1
    ensures Whole([c])
  {
    assert Parses([c], 1, 1);
  }

  lemma WholeTest(cs: Charset, offset: int)
    ensures Whole(TestCells(cs, offset))
  {
    var c := TestCells(cs, offset);
    assert Parses(c, |c|, |c|);
    assert InstrOk(c, 0);
  }

  lemma WholeOptTest(f: First, rest: nat)
    ensures Whole(OptTest(f, rest))
  {
    if !f.e { WholeTest(f.cs, TestSize(f.cs) + rest); }
  }

  lemma WholeSet(op: Opcode, cs: Charset)
    requires op == ISet || op == ISpan
    ensures Whole(SetCells(op, cs))
  {
    var c := SetCells(op, cs);
    assert InstrOk(c, 0);
    assert Parses(c, |c|, |c|);
  }

  lemma WholeOpenCall(k: nat)
    ensures Whole(OpenCall(k))
  {
    assert Parses(OpenCall(k), 2, 2);
  }

  // ----- closing calls

  /** p is reached from the start of the code by whole instructions, and so is its end from p. */
  predicate Boundary(code: Code, p: int) {
    0 <= p <= |code| && Parses(code, 0, p) && Parses(code, p, |code|)
  }

  lemma BoundaryStep(code: Code, p: int)
    requires Boundary(code, p) && p < |code|
    ensures InstrOk(code, p) && Boundary(code, p + Sizei(code[p].op))
  {
    var q := p + Sizei(code[p].op);
    ParsesOrdered(code, q, |code|);
    assert Parses(code, q, q);
    assert Parses(code, p, q);
    ParsesJoin(code, 0, p, q);
  }

  // Replacing a two-cell instruction by another one with a label.
  lemma PatchWhole(code: Code, code': Code, q: nat)
    requires Boundary(code, q) && q + 1 < |code| == |code'| && code[q].I? && Sizei(code[q].op) == 2
    requires forall k | 0 <= k < |code| && k != q && k != q + 1 :: code'[k] == code[k]
    requires code'[q].I? && Sizei(code'[q].op) == 2 && HasOffset(code'[q].op) && code'[q + 1].Off?
    ensures Boundary(code', q) && Boundary(code', q + 2)
  {
    hide Parses, InstrOk;
    BoundaryStep(code, q);
    ParsesShift(code, code', 0, 0, q);
    ParsesShift(code, code', 0, q + 2, |code|);
    OneInstr(code', q);
    ParsesJoin(code', 0, q, q + 2);
    ParsesJoin(code', q, q + 2, |code|);
  }

  lemma OneInstr(code: Code, q: nat)
    requires q + 1 < |code| && code[q].I? && Sizei(code[q].op) == 2 && HasOffset(code[q].op) && code[q + 1].Off?
    ensures Parses(code, q, q + 2)
  {
    assert Parses(code, q + 2, q + 2);
  }

  lemma CloseCallWhole(code: Code, q: nat, pos: seq<int>)
    requires Boundary(code, q) && q < |code| && IsOpen(code[q])
    ensures q + 1 < |code| && Boundary(CloseCall(code, q, pos), q + 2)
  {
    BoundaryStep(code, q);
    hide LeadsToRet, Boundary;
    PatchWhole(code, CloseCall(code, q, pos), q);
  }

  lemma {:induction false} CorrectCallsWhole(code: Code, q: nat, pos: seq<int>)
    requires Boundary(code, q)
    ensures Whole(CorrectCalls(code, q, pos))
    decreases |code| - q
  {
    if q < |code| {
      BoundaryStep(code, q);
      if IsOpen(code[q]) {
        CloseCallWhole(code, q, pos);
        CorrectCallsWhole(CloseCall(code, q, pos), q + 2, pos);
      } else {
        CorrectCallsWhole(code, q + Sizei(code[q].op), pos);
      }
    }
  }

  lemma {:induction false} ResolvedWhole(body: Code, p: nat, pos: seq<int>)
    requires p <= |body| && Parses(body, p, |body|) && (p > 0 ==> !IsOpen(body[p - 1]))
    ensures Parses(Resolved(body, pos), p, |body|)
    decreases |body| - p
  {
    if p < |body| {
      var n := Sizei(body[p].op);
      ParsesInside(body, p, |body|);
      assert Resolved(body, pos)[p] == ResCell(body, p, 0, pos);
      assert n > 1 ==> Resolved(body, pos)[p + 1] == ResCell(body, p + 1, 0, pos);
      assert InstrOk(Resolved(body, pos), p);
      ResolvedWhole(body, p + n, pos);
    }
  }

  lemma ClosedWhole(tail: bool, body: Code, pos: seq<int>)
    requires Whole(body)
    ensures Whole(Closed(tail, body, pos))
  {
    if tail { CorrectCallsWhole(body, 0, pos); } else { ResolvedWhole(body, 0, pos); }
  }

  // ----- emitted code

  lemma ThenElseWhole(cs: Charset, c1: Code, c2: Code, emptyp2: bool)
    requires Whole(c1) && Whole(c2)
    ensures Whole(TestThenElse(cs, c1, c2, emptyp2))
  {
    hide TestCells;
    var jmp := if emptyp2 then [] else Jump(IJmp, 2 + |c2|);
    var test := TestCells(cs, TestSize(cs) + |c1| + |jmp|);
    WholeTest(cs, TestSize(cs) + |c1| + |jmp|);
    WholeJump(IJmp, 2 + |c2|);
    WholeCat(test, c1);
    WholeCat(test + c1, jmp);
    WholeCat(test + c1 + jmp, c2);
  }

  lemma OrElseWhole(f: First, c1: Code, c2: Code)
    requires Whole(c1) && Whole(c2)
    ensures Whole(OrElse(f, c1, c2))
  {
    hide Whole, OptTest;
    var test, choice, commit := OptTest(f, 2 + |c1| + 2), Jump(IChoice, 2 + |c1| + 2), Jump(ICommit, 2 + |c2|);
    WholeOptTest(f, 2 + |c1| + 2);
    WholeJump(IChoice, 2 + |c1| + 2);
    WholeJump(ICommit, 2 + |c2|);
    WholeCat(test, choice);
    WholeCat(test + choice, c1);
    WholeCat(test + choice + c1, commit);
    WholeCat(test + choice + c1 + commit, c2);
  }

  lemma LoopsWhole(f: First, opt: bool, c: Code)
    requires Whole(c)
    ensures Whole(TestLoop(f.cs, c)) && Whole(ChoiceLoop(f, opt, c))
  {
    hide Whole, OptTest, TestCells;
    WholeTest(f.cs, TestSize(f.cs) + |c| + 2);
    WholeJump(IJmp, -(TestSize(f.cs) + |c|));
    WholeCat(TestCells(f.cs, TestSize(f.cs) + |c| + 2), c);
    WholeCat(TestCells(f.cs, TestSize(f.cs) + |c| + 2) + c, Jump(IJmp, -(TestSize(f.cs) + |c|)));
    var test, head := OptTest(f, 2 + |c| + 2), if opt then Jump(IPartialCommit, 2) else Jump(IChoice, 2 + |c| + 2);
    WholeOptTest(f, 2 + |c| + 2);
    WholeJump(IPartialCommit, 2);
    WholeJump(IChoice, 2 + |c| + 2);
    WholeJump(IPartialCommit, -|c|);
    WholeCat(test, head);
    WholeCat(test + head, c);
    WholeCat(test + head + c, Jump(IPartialCommit, -|c|));
  }

  lemma NotWhole(f: First, headfail: bool, c: Code)
    requires Whole(c)
    ensures Whole(NotCells(f, headfail, c))
  {
    hide Whole, OptTest;
    WholeOptTest(f, 1);
    WholeOp(Op(IFail));
    WholeCat(OptTest(f, 1), [Op(IFail)]);
    var test, head := OptTest(f, 2 + |c| + 1), Jump(IChoice, 2 + |c| + 1);
    WholeOptTest(f, 2 + |c| + 1);
    WholeJump(IChoice, 2 + |c| + 1);
    WholeOp(Op(IFailTwice));
    WholeCat(test, head);
    WholeCat(test + head, c);
    WholeCat(test + head + c, [Op(IFailTwice)]);
  }

  lemma BehindWhole(n: int)
    ensures Whole(BehindCells(n))
  {
    if n > 0 { WholeOp(I(IBehind, n, 0)); }
  }

  lemma AndWhole(n: int, c: Code)
    requires Whole(c)
    ensures Whole(AndCells(n, c))
  {
    BehindWhole(n);
    WholeCat(c, BehindCells(n));
    var head, back := Jump(IChoice, 2 + |c| + 2), Jump(IBackCommit, 3);
    WholeJump(IChoice, 2 + |c| + 2);
    WholeJump(IBackCommit, 3);
    WholeOp(Op(IFail));
    WholeCat(head, c);
    WholeCat(head + c, back);
    WholeCat(head + c + back, [Op(IFail)]);
  }

  lemma LeafWhole(c: Byte, cs: Charset, tt: Test)
    ensures Whole(CharCells(c, tt)) && Whole(CharsetCells(cs, tt))
  {
    WholeOp(Op(IAny));
    WholeOp(Op(IFail));
    forall d: Byte ensures Whole([I(IChar, d, 0)]) { WholeOp(I(IChar, d, 0)); }
    WholeSet(ISet, cs);
  }

  lemma {:induction false} GenWhole(tail: bool, d: nat, g: seq<Tree>, t: Tree, opt: bool, tt: Test, fl: Charset)
    ensures Whole(Gen(tail, d, g, t, opt, tt, fl))
    decreases t, 0
  {
    hide Whole, Checkaux, Fixedlen, Getfirst, Headfail, Disjoint, KindOf, TestThenElse, OrElse, TestLoop, ChoiceLoop, NotCells, AndCells, CharCells, CharsetCells;
    match t
    case TChar(c) => LeafWhole(c, EmptySet(), tt);
    case TSet(cs) => LeafWhole(0, cs, tt);
    case TAny => WholeOp(Op(IAny));
    case TTrue => EmptyWhole();
    case TFalse => WholeOp(Op(IFail));
    case TChoice(p1, p2) =>
      var f1 := Getfirst(d, g, p1, FullSet());
      GenWhole(tail, d, g, p2, opt, NoTest, fl);
      var c2 := Gen(tail, d, g, p2, opt, NoTest, fl);
      if ChoiceByTest(d, g, p1, p2, fl) {
        GenWhole(tail, d, g, p1, false, TestOf(f1.cs), fl);
        ThenElseWhole(f1.cs, Gen(tail, d, g, p1, false, TestOf(f1.cs), fl), c2, p2.TTrue?);
      } else if opt && p2.TTrue? {
        GenWhole(tail, d, g, p1, true, NoTest, FullSet());
        WholeJump(IPartialCommit, 2);
        WholeCat(Jump(IPartialCommit, 2), Gen(tail, d, g, p1, true, NoTest, FullSet()));
      } else {
        GenWhole(tail, d, g, p1, p2.TTrue?, OptTestOf(f1), FullSet());
        OrElseWhole(f1, Gen(tail, d, g, p1, p2.TTrue?, OptTestOf(f1), FullSet()), c2);
      }
    case TRep(p) =>
      var f := Getfirst(d, g, p, FullSet());
      if IsCharPattern(p) {
        WholeSet(ISpan, ToCharset(p));
      } else {
        GenWhole(tail, d, g, p, false, TestOf(f.cs), FullSet());
        GenWhole(tail, d, g, p, false, NoTest, FullSet());
        LoopsWhole(f, opt, Gen(tail, d, g, p, false, TestOf(f.cs), FullSet()));
        LoopsWhole(f, opt, Gen(tail, d, g, p, false, NoTest, FullSet()));
      }
    case TBehind(n, p) =>
      GenWhole(tail, d, g, p, false, NoTest, FullSet());
      BehindWhole(n);
      WholeCat(BehindCells(n), Gen(tail, d, g, p, false, NoTest, FullSet()));
    case TNot(p) =>
      GenWhole(tail, d, g, p, false, NoTest, FullSet());
      NotWhole(Getfirst(d, g, p, FullSet()), Headfail(d, g, p), Gen(tail, d, g, p, false, NoTest, FullSet()));
    case TAnd(p) =>
      GenWhole(tail, d, g, p, false, tt, FullSet());
      AndWhole(Fixedlen(d, g, p), Gen(tail, d, g, p, false, tt, FullSet()));
    case TSeq(p1, p2) =>
      GenWhole(tail, d, g, p1, false, tt, SeqFollow(d, g, p1, p2, fl));
      GenWhole(tail, d, g, p2, opt, SeqTest(d, g, p1, tt), fl);
      WholeCat(Gen(tail, d, g, p1, false, tt, SeqFollow(d, g, p1, p2, fl)),
               Gen(tail, d, g, p2, opt, SeqTest(d, g, p1, tt), fl));
    case TCall(k) => WholeOpenCall(k);
    case TGrammar(rules) =>
      RulesWhole(tail, d, rules, |rules|);
      var body := GenRules(tail, d, rules, |rules|);
      ClosedWhole(tail, body, Positions(tail, d, rules));
      WholeJump(ICall, 4);
      WholeJump(IJmp, 2 + |body|);
      WholeCat(Jump(ICall, 4), Jump(IJmp, 2 + |body|));
      WholeCat(Jump(ICall, 4) + Jump(IJmp, 2 + |body|), Closed(tail, body, Positions(tail, d, rules)));
  }

  lemma EmptyWhole()
    ensures Whole([])
  {
  }

  lemma {:induction false} RulesWhole(tail: bool, d: nat, rules: seq<Tree>, n: nat)
    requires n <= |rules|
    ensures Whole(GenRules(tail, d, rules, n))
    decreases rules, n
  {
    if n > 0 {
      var before, c := GenRules(tail, d, rules, n - 1), Gen(tail, d, rules, rules[n - 1], false, NoTest, FullSet());
      RulesWhole(tail, d, rules, n - 1);
      GenWhole(tail, d, rules, rules[n - 1], false, NoTest, FullSet());
      WholeOp(Op(IRet));
      WholeCat(before, c);
      WholeCat(before + c, [Op(IRet)]);
    }
  }

  lemma GenEnds(tail: bool, d: nat, g: seq<Tree>, t: Tree, opt: bool, tt: Test, fl: Charset)
    ensures EndsClosed(Gen(tail, d, g, t, opt, tt, fl))
  {
    hide Gen;
    GenWhole(tail, d, g, t, opt, tt, fl);
    WholeEnds(Gen(tail, d, g, t, opt, tt, fl), 0);
  }
}
