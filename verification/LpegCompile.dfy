// The compiler as it works: a growing code array, labels patched in place, calls closed at the end of
// each grammar, and the final pass over the array.
module LpegCompile {
  import opened LpegCharset
  import opened LpegTree
  import opened LpegAnalysis
  import opened LpegVm
  import opened LpegGen
  import opened LpegShape
  import opened LpegCorrect
  import opened LpegTail
  import opened LpegChains
  import opened LpegCircles
  import opened LpegPeephole
  import G = LpegGrammar

  const NOINST := -1

  /** The test found at index tt. */
  function TestAt(code: Code, tt: int): Test {
    if !(0 <= tt < |code| && code[tt].I?) then NoTest
    else if code[tt].op == ITestChar && 0 <= code[tt].aux < 256 then TestChar(code[tt].aux)
    else if code[tt].op == ITestSet && HasBuf(code, tt + 2) then TestSet(code[tt + 2].cs)
    else if code[tt].op == ITestAny then TestAny
    else if code[tt].op == IJmp then TestJmp
    else NoTest
  }

  /** tt is NOINST or the index of a complete test. */
  predicate TestIndex(code: Code, tt: int) {
    tt < 0 || (tt < |code| && code[tt].I? && (code[tt].op == ITestSet ==> HasBuf(code, tt + 2)))
  }

  // A test whose label is still open.
  ghost function HoleTest(cs: Charset): (r: Code)
    ensures |r| == TestSize(cs)
  {
    TestCells(cs, 0)[1 := Op(IAny)]
  }

  lemma TestAtStays(code: Code, x: Code, tt: int)
    requires TestIndex(code, tt)
    ensures TestIndex(code + x, tt) && TestAt(code + x, tt) == TestAt(code, tt)
  {
  }

  lemma HoleTestAt(code: Code, cs: Charset)
    ensures TestIndex(code + HoleTest(cs), |code|) && TestAt(code + HoleTest(cs), |code|) == TestOf(cs)
  {
    var c := code + HoleTest(cs);
    assert c[|code|] == HoleTest(cs)[0];
    if KindOf(cs).Generic? { assert c[|code| + 2] == HoleTest(cs)[2]; }
  }

  lemma PatchHole(pre: Code, cs: Charset, post: Code, offset: int)
    ensures (pre + HoleTest(cs) + post)[|pre| + 1 := Off(offset)] == pre + TestCells(cs, offset) + post
  {
    assert HoleTest(cs)[1 := Off(offset)] == TestCells(cs, offset);
  }

  lemma PatchJump(pre: Code, op: Opcode, post: Code, offset: int)
    ensures (pre + [Op(op), Op(IAny)] + post)[|pre| + 1 := Off(offset)] == pre + Jump(op, offset) + post
  {
  }

  lemma NoTestAt(code: Code)
    ensures TestIndex(code, NOINST) && TestAt(code, NOINST) == NoTest
  {
  }

  lemma OptTestAt(c0: Code, f: First, x: Code, test: int)
    requires test == if f.e then NOINST else |c0|
    ensures TestIndex(c0 + HoleOrNone(f) + x, test) && TestAt(c0 + HoleOrNone(f) + x, test) == OptTestOf(f)
    ensures f.e <==> test < 0
  {
    if !f.e {
      HoleTestAt(c0, f.cs);
      TestAtStays(c0 + HoleTest(f.cs), x, test);
    }
  }

  // ----- what the patches of each construction add up to

  const JMP_HOLE: Code := [Op(IJmp), Op(IAny)]

  ghost function HoleOrNone(f: First): Code {
    if f.e then [] else HoleTest(f.cs)
  }

  // Setting the label of an instruction and its space at the end of pre.
  lemma SetHole(pre: Code, op: Opcode, post: Code, offset: int)
    ensures (pre + [Op(op), Op(IAny)] + post)[|pre| + 1 := Off(offset)] == pre + (Jump(op, offset) + post)
  {
    PatchJump(pre, op, post, offset);
    assert pre + Jump(op, offset) + post == pre + (Jump(op, offset) + post);
  }

  lemma JumpLen(op: Opcode, offset: int)
    ensures |Jump(op, offset)| == 2
  {
  }

  lemma SetLast(pre: Code, op: Opcode, offset: int)
    ensures (pre + [Op(op), Op(IAny)])[|pre| + 1 := Off(offset)] == pre + Jump(op, offset)
  {
  }

  lemma SetTest(pre: Code, f: First, post: Code, rest: nat)
    ensures var x := pre + HoleOrNone(f) + post;
            (if f.e then x else x[|pre| + 1 := Off(TestSize(f.cs) + rest)]) == pre + (OptTest(f, rest) + post)
  {
    if f.e {
      assert pre + [] + post == pre + ([] + post);
    } else {
      PatchHole(pre, f.cs, post, TestSize(f.cs) + rest);
      assert pre + OptTest(f, rest) + post == pre + (OptTest(f, rest) + post);
    }
  }

  lemma Assoc(x: Code, y: Code, z: Code)
    ensures x + y + z == x + (y + z)
  {
  }

  lemma Regroup(a: Code, b: Code, c: Code, d: Code, e: Code)
    ensures a + b + c + (d + e) == a + (b + c + d + e)
    ensures a + (b + (c + (d + e))) == a + b + c + d + e
  {
  }

  lemma ThenElseAsm(c0: Code, cs: Charset, c1: Code, c2: Code, emptyp2: bool, x: Code, y: Code)
    requires x == c0 + HoleTest(cs) + c1 + (if emptyp2 then [] else JMP_HOLE)
    requires y == x[|c0| + 1 := Off(|x| - |c0|)] + c2
    ensures var j := |c0| + TestSize(cs) + |c1|;
            (if emptyp2 then y else y[j + 1 := Off(|y| - j)]) == c0 + TestThenElse(cs, c1, c2, emptyp2)
  {
    hide TestCells, KindOf;
    var hole := if emptyp2 then [] else JMP_HOLE;
    var jmp := if emptyp2 then [] else Jump(IJmp, 2 + |c2|);
    var off := TestSize(cs) + |c1| + |hole|;
    var test := TestCells(cs, off);
    Assoc(c0 + HoleTest(cs), c1, hole);
    PatchHole(c0, cs, c1 + hole, off);
    Assoc(c0 + test, c1, hole);
    if emptyp2 {
      assert c0 + test + c1 + hole == c0 + test + c1;
      assert c0 + test + c1 + c2 == c0 + test + c1 + (jmp + c2);
    } else {
      SetHole(c0 + test + c1, IJmp, c2, 2 + |c2|);
    }
    Regroup(c0, test, c1, jmp, c2);
  }

  lemma RuleAsm(a: Code, b: Code, c: Code)
    ensures a + b + c + [Op(IRet)] == a + (b + c + [Op(IRet)])
  {
  }

  lemma GenLeaf(d: nat, g: seq<Tree>, t: Tree, opt: bool, tt: Test, fl: Charset)
    ensures var c := Gen(true, d, g, t, opt, tt, fl);
            && (t.TChar? ==> c == CharCells(t.c, tt))
            && (t.TAny? ==> c == [Op(IAny)])
            && (t.TSet? ==> c == CharsetCells(t.cs, tt))
            && (t.TTrue? ==> c == [])
            && (t.TFalse? ==> c == [Op(IFail)])
            && (t.TCall? ==> c == OpenCall(t.rule))
            && (t.TBehind? ==> c == BehindCells(t.n) + Gen(true, d, g, t.p, false, NoTest, FullSet()))
  {
  }

  // What closing the calls of a body relies on.
  lemma BodyFacts(d: nat, rules: seq<Tree>, body: Code, rel: seq<int>)
    requires Defined(TGrammar(rules)) && Compiles(d, [], TGrammar(rules))
    requires body == GenRules(true, d, rules, |rules|) && rel == Positions(true, d, rules)
    ensures Whole(body) && Advances(CorrectCalls(body, 0, rel))
    ensures forall q | 0 <= q < |body| && IsOpen(body[q]) :: 0 <= body[q].key < |rel|
  {
    hide GenRules, CorrectCalls, Whole, Advances, NoCircle, CallsDefined;
    RulesWhole(true, d, rules, |rules|);
    RulesAdvances(d, rules, |rules|);
    NoCircleEnds(d, rules);
    ClosedAdvances(d, rules, body, CorrectCalls(body, 0, rel), rel);
    forall q | 0 <= q < |body| && IsOpen(body[q]) ensures 0 <= body[q].key < |rel| { OpenDefined(d, rules, q); }
  }

  lemma PositionsAre(d: nat, rules: seq<Tree>)
    ensures forall k | 0 <= k < |rules| :: Positions(true, d, rules)[k] == |GenRules(true, d, rules, k)|
  {
  }

  lemma HeadAsm(a: Code, b: Code, c: Code, x: Code)
    ensures a + b + (c + x) == a + (b + c) + x
  {
  }

  lemma PairCompiles(d: nat, g: seq<Tree>, t: Tree, p1: Tree, p2: Tree)
    requires (t == TSeq(p1, p2) || t == TChoice(p1, p2)) && Defined(t) && Compiles(d, g, t)
    ensures Defined(p1) && Compiles(d, g, p1) && Defined(p2) && Compiles(d, g, p2) && p1 < t && p2 < t
  {
  }

  lemma PartCompiles(d: nat, g: seq<Tree>, t: Tree, p: Tree)
    requires (t == TRep(p) || t == TNot(p) || t == TAnd(p)) && Defined(t) && Compiles(d, g, t)
    ensures Defined(p) && p < t && ((t.TNot? && Headfail(d, g, p)) || Compiles(d, g, p))
  {
  }

  lemma GenNoRules(d: nat, rules: seq<Tree>)
    ensures GenRules(true, d, rules, 0) == []
  {
  }

  lemma GenOneMore(d: nat, rules: seq<Tree>, k: nat)
    requires k < |rules| && Defined(TGrammar(rules)) && Compiles(d, [], TGrammar(rules))
    ensures Defined(rules[k]) && Compiles(d, rules, rules[k])
    ensures GenRules(true, d, rules, k + 1)
            == GenRules(true, d, rules, k) + Gen(true, d, rules, rules[k], false, NoTest, FullSet()) + [Op(IRet)]
  {
  }

  lemma GrammarHead(c0: Code)
    ensures (c0 + [Op(ICall), Op(IAny)] + [Op(IJmp), Op(IAny)])[|c0| + 1 := Off(4)] == c0 + Jump(ICall, 4) + [Op(IJmp), Op(IAny)]
  {
  }

  lemma OrElseRegroup(a: Code, b: Code, c: Code, d: Code, e: Code)
    ensures a + (b + c + d + e) == a + b + c + d + e
  {
  }

  lemma OrElseAsm(c0: Code, f: First, c1: Code, c2: Code, x: Code, y: Code, z: Code)
    requires x == c0 + HoleOrNone(f) + [Op(IChoice), Op(IAny)] + c1 + [Op(ICommit), Op(IAny)]
    requires var a := |c0| + |HoleOrNone(f)|; y == x[a + 1 := Off(|x| - a)]
    requires z == (if f.e then y else y[|c0| + 1 := Off(|y| - |c0|)]) + c2
    ensures var b := |c0| + |HoleOrNone(f)| + 2 + |c1|; z[b + 1 := Off(|z| - b)] == c0 + OrElse(f, c1, c2)
  {
    hide TestCells, KindOf, OptTest, HoleTest;
    var t0, hole := HoleOrNone(f), [Op(ICommit), Op(IAny)];
    var choice, test := Jump(IChoice, 2 + |c1| + 2), OptTest(f, 2 + |c1| + 2);
    Assoc(c0 + t0 + [Op(IChoice), Op(IAny)], c1, hole);
    SetHole(c0 + t0, IChoice, c1 + hole, 2 + |c1| + 2);
    SetTest(c0, f, choice + (c1 + hole), 2 + |c1| + 2);
    Regroup(c0, test, choice, c1, hole);
    var pre := c0 + test + choice + c1;
    SetHole(pre, ICommit, c2, 2 + |c2|);
    Regroup(c0 + test, choice, c1, Jump(ICommit, 2 + |c2|), c2);
    Assoc(c0, test, choice + c1 + Jump(ICommit, 2 + |c2|) + c2);
    OrElseRegroup(test, choice, c1, Jump(ICommit, 2 + |c2|), c2);
  }

  lemma TestLoopAsm(c0: Code, cs: Charset, c: Code)
    ensures var x := c0 + HoleTest(cs) + c + JMP_HOLE;
            var j := |c0| + TestSize(cs) + |c|;
            x[|c0| + 1 := Off(|x| - |c0|)][j + 1 := Off(|c0| - j)] == c0 + TestLoop(cs, c)
  {
    hide TestCells, HoleTest;
    var test := TestCells(cs, TestSize(cs) + |c| + 2);
    Assoc(c0 + HoleTest(cs), c, JMP_HOLE);
    PatchHole(c0, cs, c + JMP_HOLE, TestSize(cs) + |c| + 2);
    Assoc(c0 + test, c, JMP_HOLE);
    SetLast(c0 + test + c, IJmp, -(TestSize(cs) + |c|));
    Regroup(c0, test, c, Jump(IJmp, -(TestSize(cs) + |c|)), []);
    Assoc(c0 + test, c, Jump(IJmp, -(TestSize(cs) + |c|)));
    Assoc(c0, test, c + Jump(IJmp, -(TestSize(cs) + |c|)));
    Assoc(test, c, Jump(IJmp, -(TestSize(cs) + |c|)));
  }

  lemma ChoiceLoopAsm(c0: Code, f: First, opt: bool, c: Code, x: Code, y: Code, z: Code)
    requires x == c0 + HoleOrNone(f) + (if opt then Jump(IPartialCommit, 2) else [Op(IChoice), Op(IAny)])
                  + c + [Op(IPartialCommit), Op(IAny)]
    requires var a, b := |c0| + |HoleOrNone(f)|, |c0| + |HoleOrNone(f)| + 2 + |c|;
             y == x[b + 1 := Off(a + 2 - b)] && z == if opt then y else y[a + 1 := Off(|y| - a)]
    ensures (if f.e then z else z[|c0| + 1 := Off(|z| - |c0|)]) == c0 + ChoiceLoop(f, opt, c)
  {
    hide OptTest, HoleOrNone;
    var head' := if opt then Jump(IPartialCommit, 2) else Jump(IChoice, 2 + |c| + 2);
    LoopTail(c0, HoleOrNone(f), opt, c, x, y, z);
    LoopHead(c0, f, head', c, Jump(IPartialCommit, -|c|), z);
  }

  lemma LoopHead(c0: Code, f: First, head: Code, c: Code, last: Code, z: Code)
    requires |head| == 2 && |last| == 2 && z == c0 + HoleOrNone(f) + (head + (c + last))
    ensures (if f.e then z else z[|c0| + 1 := Off(|z| - |c0|)]) == c0 + (OptTest(f, 2 + |c| + 2) + head + c + last)
  {
    hide OptTest, HoleTest;
    SetTest(c0, f, head + (c + last), 2 + |c| + 2);
    Assoc(OptTest(f, 2 + |c| + 2), head, c + last);
    Assoc(OptTest(f, 2 + |c| + 2) + head, c, last);
  }

  lemma LoopTail(c0: Code, t0: Code, opt: bool, c: Code, x: Code, y: Code, z: Code)
    requires x == c0 + t0 + (if opt then Jump(IPartialCommit, 2) else [Op(IChoice), Op(IAny)]) + c + [Op(IPartialCommit), Op(IAny)]
    requires var a, b := |c0| + |t0|, |c0| + |t0| + 2 + |c|;
             y == x[b + 1 := Off(a + 2 - b)] && z == if opt then y else y[a + 1 := Off(|y| - a)]
    ensures z == c0 + t0 + ((if opt then Jump(IPartialCommit, 2) else Jump(IChoice, 2 + |c| + 2)) + (c + Jump(IPartialCommit, -|c|)))
  {
    var head := if opt then Jump(IPartialCommit, 2) else [Op(IChoice), Op(IAny)];
    var last := Jump(IPartialCommit, -|c|);
    SetLast(c0 + t0 + head + c, IPartialCommit, -|c|);
    Assoc(c0 + t0 + head, c, last);
    if opt { Assoc(c0 + t0, head, c + last); } else { SetHole(c0 + t0, IChoice, c + last, 2 + |c| + 2); }
  }

  lemma NotAsm(c0: Code, f: First, headfail: bool, c: Code, x: Code, y: Code)
    requires x == if headfail then c0 + HoleOrNone(f) + [Op(IFail)]
                  else c0 + HoleOrNone(f) + [Op(IChoice), Op(IAny)] + c + [Op(IFailTwice)]
    requires var a := |c0| + |HoleOrNone(f)|; y == if headfail then x else x[a + 1 := Off(|x| - a)]
    ensures (if f.e then y else y[|c0| + 1 := Off(|y| - |c0|)]) == c0 + NotCells(f, headfail, c)
  {
    hide OptTest, HoleTest;
    var t0 := HoleOrNone(f);
    if headfail {
      SetTest(c0, f, [Op(IFail)], 1);
    } else {
      var choice, last := Jump(IChoice, 2 + |c| + 1), [Op(IFailTwice)];
      Assoc(c0 + t0 + [Op(IChoice), Op(IAny)], c, last);
      SetHole(c0 + t0, IChoice, c + last, 2 + |c| + 1);
      SetTest(c0, f, choice + (c + last), 2 + |c| + 1);
      Assoc(OptTest(f, 2 + |c| + 1), choice, c + last);
      Assoc(OptTest(f, 2 + |c| + 1) + choice, c, last);
    }
  }

  lemma AndBackAsm(c0: Code, n: int, c: Code)
    requires 0 <= n <= MAXBEHIND
    ensures (if n > 0 then c0 + c + [I(IBehind, n, 0)] else c0 + c) == c0 + AndCells(n, c)
  {
    Assoc(c0, c, BehindCells(n));
    if n == 0 { assert c0 + c + [] == c0 + c; }
  }

  lemma AndAsm(c0: Code, n: int, c: Code, x: Code, y: Code)
    requires !(0 <= n <= MAXBEHIND)
    requires x == c0 + [Op(IChoice), Op(IAny)] + c + [Op(IBackCommit), Op(IAny)]
    requires y == x[|c0| + 1 := Off(|x| - |c0|)] + [Op(IFail)]
    ensures var b := |c0| + 2 + |c|; y[b + 1 := Off(|y| - b)] == c0 + AndCells(n, c)
  {
    hide Jump;
    var hole, head, back := [Op(IBackCommit), Op(IAny)], Jump(IChoice, 2 + |c| + 2), Jump(IBackCommit, 3);
    Assoc(c0 + [Op(IChoice), Op(IAny)], c, hole);
    SetHole(c0, IChoice, c + hole, 2 + |c| + 2);
    Assoc(head, c, hole);
    Assoc(c0, head + c, hole);
    Assoc(c0, head, c);
    SetHole(c0 + head + c, IBackCommit, [Op(IFail)], 3);
    Regroup(c0, head, c, back, [Op(IFail)]);
    assert |head| == 2 by { JumpLen(IChoice, 2 + |c| + 2); }
  }

  // ----- following chains in a program and in its last part

  /** Jumps of x do not lead in front of it. */
  ghost predicate JumpsUp(x: Code) {
    forall p {:trigger IsOp(x, p, IJmp)} | IsOp(x, p, IJmp) :: HasLabel(x, p) && Target(x, p) >= 0
  }

  lemma {:induction false} ChainDown(pre: Code, x: Code, p: int, r: int, n: nat)
    requires JumpsUp(x) && p >= 0 && Jumps(pre + x, |pre| + p, r, n)
    ensures r >= |pre| && Jumps(x, p, r - |pre|, n)
    decreases n
  {
    if n > 0 {
      assert (pre + x)[|pre| + p] == x[p];
      assert IsOp(x, p, IJmp);
      assert (pre + x)[|pre| + p + 1] == x[p + 1];
      ChainDown(pre, x, Target(x, p), r, n - 1);
    }
  }

  lemma {:induction false} ChainStaysUp(x: Code, p: int, r: int, n: nat)
    requires JumpsUp(x) && p >= 0 && Jumps(x, p, r, n)
    ensures r >= 0
    decreases n
  {
    if n > 0 { ChainStaysUp(x, Target(x, p), r, n - 1); }
  }

  lemma ChainUp(pre: Code, x: Code, p: int, r: int, n: nat)
    requires Jumps(x, p, r, n)
    ensures Jumps(pre + x, |pre| + p, |pre| + r, n)
  {
    KeptInside(pre, x, []);
    assert pre + x + [] == pre + x;
    JumpsLift(x, pre + x, |pre|, p, r, n);
  }

  lemma StopsInside(pre: Code, x: Code, p: int)
    requires JumpsUp(x) && p >= 0 && Stops(x, p)
    ensures Stops(pre + x, |pre| + p)
  {
    var n: nat, r :| Jumps(x, p, r, n) && !JumpAt(x, r);
    ChainUp(pre, x, p, r, n);
    ChainStaysUp(x, p, r, n);
    if JumpAt(pre + x, |pre| + r) {
      assert (pre + x)[|pre| + r] == x[r];
      assert IsOp(x, r, IJmp);
    }
  }

  // What following the chain tells about a return.
  lemma RetInside(pre: Code, x: Code, p: int, r: int)
    requires JumpsUp(x) && p >= 0 && JumpsTo(pre + x, |pre| + p, r) && !JumpAt(pre + x, r)
    ensures IsOp(pre + x, r, IRet) <==> LeadsToRet(x, p)
  {
    var n: nat :| Jumps(pre + x, |pre| + p, r, n);
    ChainDown(pre, x, p, r, n);
    if IsOp(pre + x, r, IRet) {
      assert (pre + x)[r] == x[r - |pre|];
      assert IsOp(x, r - |pre|, IRet);
    }
    if LeadsToRet(x, p) {
      var m: nat, q :| Jumps(x, p, q, m) && IsOp(x, q, IRet);
      ChainUp(pre, x, p, q, m);
      assert (pre + x)[|pre| + q] == x[q];
      assert !JumpAt(pre + x, |pre| + q);
      FinalUnique(pre + x, |pre| + p, r, |pre| + q);
    }
  }

  // A chain of code whose jumps all stand in r ends if it does there.
  lemma {:induction false} StopsBefore(code: Code, r: Code, p: int, q: int, n: nat)
    requires JumpsKept(code, r, 0) && Jumps(r, p, q, n) && !JumpAt(r, q)
    ensures Stops(code, p)
    decreases n
  {
    if JumpAt(code, p) {
      assert JumpAt(r, 0 + p) && Target(r, 0 + p) == 0 + Target(code, p);
      var t := Target(code, p);
      StopsBefore(code, r, t, q, n - 1);
      var m: nat, q' :| Jumps(code, t, q', m) && !JumpAt(code, q');
      assert Jumps(code, p, q', m + 1);
    } else {
      assert Jumps(code, p, p, 0);
    }
  }

  // In the middle of 'correctcalls' chains still stay in the body and end.
  lemma PartlyClosed(code: Code, q: nat, pos: seq<int>, r: Code)
    requires Boundary(code, q) && r == CorrectCalls(code, q, pos) && Advances(r)
    ensures JumpsUp(code)
    ensures forall p {:trigger Stops(code, p)} | p >= 0 :: Stops(code, p)
  {
    CorrectCallsCells(code, q, pos, r);
    forall k: nat | k < |code| ensures ClosedCell(code, r, k, pos) || r[k] == code[k] {
      if k >= q { assert ClosedCell(code, r, k, pos); }
    }
    forall p | IsOp(code, p, IJmp) ensures HasLabel(code, p) && Target(code, p) >= 0 && JumpAt(r, p) && Target(r, p) == Target(code, p) {
      WholeLabelAt(code, q, p);
      if p >= q { assert ClosedCell(code, r, p, pos); }
      if p + 1 >= q { assert ClosedCell(code, r, p + 1, pos); }
      assert IsOp(r, p, IJmp);
      assert AdvancesAt(r, p);
    }
    assert JumpsKept(code, r, 0);
    forall p | p >= 0 ensures Stops(code, p) {
      AllEnd(r, p);
      var n: nat, q' :| Jumps(r, p, q', n) && q' >= 0 && !JumpAt(r, q');
      StopsBefore(code, r, p, q', n);
    }
  }

  lemma WholeLabelAt(code: Code, q: int, p: int)
    requires Boundary(code, q) && 0 <= p < |code| && code[p].I? && HasOffset(code[p].op)
    ensures HasLabel(code, p)
  {
    if p < q { WholeLabel(code, 0, q, p); } else { WholeLabel(code, q, |code|, p); }
  }

  /** The state of a compilation: the code emitted so far. */
  class CompileState {
    var code: Code
    const d: nat

    constructor (d: nat)
      ensures code == [] && this.d == d
    {
      code := [];
      this.d := d;
    }

    method AddInstruction(op: Opcode, aux: int) returns (i: nat)
      modifies this
      ensures i == |old(code)| && code == old(code) + [I(op, aux, 0)]
    {
      i := |code|;
      code := code + [I(op, aux, 0)];
    }

    /** An instruction and the space for its offset. */
    method AddOffsetInst(op: Opcode) returns (i: nat)
      modifies this
      ensures i == |old(code)| && code == old(code) + [Op(op), Op(IAny)]
    {
      i := AddInstruction(op, 0);
      var _ := AddInstruction(IAny, 0);
    }

    /** 'jumptothere' */
    method JumpToThere(instruction: int, target: int)
      requires instruction + 1 < |code|
      modifies this
      ensures code == if instruction >= 0 then old(code)[instruction + 1 := Off(target - instruction)] else old(code)
    {
      if instruction >= 0 {
        code := code[instruction + 1 := Off(target - instruction)];
      }
    }

    method JumpToHere(instruction: int)
      requires instruction + 1 < |code| || instruction < 0
      modifies this
      ensures code == if instruction >= 0 then old(code)[instruction + 1 := Off(|old(code)| - instruction)] else old(code)
    {
      if instruction >= 0 {
        JumpToThere(instruction, |code|);
      }
    }

    method AddCharset(cs: Charset)
      modifies this
      ensures code == old(code) + [Buf(cs)] + PADS
    {
      code := code + [Buf(cs)] + PADS;
    }

    method CodeChar(c: Byte, tt: int)
      requires TestIndex(code, tt)
      modifies this
      ensures code == old(code) + CharCells(c, TestAt(old(code), tt))
    {
      if tt >= 0 && code[tt].op == ITestChar && code[tt].aux == c {
        var _ := AddInstruction(IAny, 0);
      } else {
        var _ := AddInstruction(IChar, c);
      }
    }

    method CodeCharset(cs: Charset, tt: int)
      requires TestIndex(code, tt)
      modifies this
      ensures code == old(code) + CharsetCells(cs, TestAt(old(code), tt))
    {
      var kind := CharsetType(cs);
      match kind {
        case Single(c) => CodeChar(c, tt);
        case Generic =>
          if tt >= 0 && code[tt].op == ITestSet && code[tt + 2].cs == cs {
            var _ := AddInstruction(IAny, 0);
          } else {
            var _ := AddInstruction(ISet, 0);
            AddCharset(cs);
          }
        case Empty => var _ := AddInstruction(IFail, 0);
        case Full => var _ := AddInstruction(IAny, 0);
      }
    }

    /** 'codetestset' for a first set: a test whose label is open, or none. */
    method CodeTestSet(f: First) returns (test: int)
      modifies this
      ensures test == if f.e then NOINST else |old(code)|
      ensures code == old(code) + HoleOrNone(f)
    {
      if f.e { return NOINST; }
      var kind := CharsetType(f.cs);
      match kind {
        case Empty => test := AddOffsetInst(IJmp);
        case Full => test := AddOffsetInst(ITestAny);
        case Single(c) =>
          test := AddInstruction(ITestChar, c);
          var _ := AddInstruction(IAny, 0);
        case Generic =>
          test := AddOffsetInst(ITestSet);
          AddCharset(f.cs);
      }
    }

    /** 'finaltarget' */
    method FinalTarget(p: int) returns (r: int)
      requires Stops(code, p)
      ensures JumpsTo(code, p, r) && !JumpAt(code, r)
    {
      r := p;
      ghost var k: nat, q :| Jumps(code, p, q, k) && !JumpAt(code, q);
      ghost var n := 0;
      assert Jumps(code, p, p, 0);
      while JumpAt(code, r)
        invariant n <= k && Jumps(code, p, r, n) && Jumps(code, r, q, k - n)
        decreases k - n
      {
        assert Jumps(code, r, Target(code, r), 1) by { assert Jumps(code, Target(code, r), Target(code, r), 0); }
        JumpsTrans(code, p, r, n, Target(code, r), 1);
        r := Target(code, r);
        n := n + 1;
      }
    }

    /** 'codegen': appends the code of t, given the test at tt and the follow set fl. */
    method Codegen(g: seq<Tree>, t: Tree, opt: bool, tt: int, fl: Charset)
      requires Defined(t) && Compiles(d, g, t) && TestIndex(code, tt)
      modifies this
      ensures code == old(code) + Gen(true, d, g, t, opt, TestAt(old(code), tt), fl)
      decreases t, 3
    {
      ghost var test := TestAt(code, tt);
      GenLeaf(d, g, t, opt, test, fl);
      hide Gen, TestAt, Fixedlen;
      match t {
        case TChar(c) => CodeChar(c, tt);
        case TAny => var _ := AddInstruction(IAny, 0);
        case TSet(cs) => CodeCharset(cs, tt);
        case TTrue =>
        case TFalse => var _ := AddInstruction(IFail, 0);
        case TChoice(p1, p2) => CodeChoice(g, t, p1, p2, opt, tt, fl);
        case TRep(p) => CodeRep(g, t, p, opt, tt, fl);
        case TBehind(n, p) => CodeBehind(g, t, n, p);
        case TNot(p) => CodeNot(g, t, p, opt, tt, fl);
        case TAnd(p) => CodeAnd(g, t, p, opt, tt, fl);
        case TSeq(p1, p2) => CodeSeq(g, t, p1, p2, opt, tt, fl);
        case TCall(k) => CodeCall(k);
        case TGrammar(rules) => CodeGrammar(g, t, rules, opt, tt, fl);
      }
    }

    method CodeBehind(g: seq<Tree>, t: Tree, n: nat, p: Tree)
      requires t == TBehind(n, p) && Defined(t) && Compiles(d, g, t)
      modifies this
      ensures code == old(code) + (BehindCells(n) + Gen(true, d, g, p, false, NoTest, FullSet()))
      decreases t, 1
    {
      hide Gen, TestAt;
      ghost var c0 := code;
      if n > 0 { var _ := AddInstruction(IBehind, n); }
      NoTestAt(code);
      Codegen(g, p, false, NOINST, FullSet());
      Assoc(c0, BehindCells(n), Gen(true, d, g, p, false, NoTest, FullSet()));
    }

    method CodeCall(k: nat)
      modifies this
      ensures code == old(code) + OpenCall(k)
    {
      var c := AddOffsetInst(IOpenCall);
      code := code[c := code[c].(key := k)];
    }

    method CodeSeq(g: seq<Tree>, t: Tree, p1: Tree, p2: Tree, opt: bool, tt: int, fl: Charset)
      requires t == TSeq(p1, p2) && Defined(t) && Compiles(d, g, t) && TestIndex(code, tt)
      modifies this
      ensures code == old(code) + Gen(true, d, g, t, opt, TestAt(old(code), tt), fl)
      decreases t, 1
    {
      hide Getfirst, Fixedlen, Checkaux, Needfollow, TestAt;
      ghost var c0 := code;
      var fl1 := FullSet();
      if Needfollow(p1) {
        fl1 := Getfirst(d, g, p2, fl).cs;
      }
      Codegen(g, p1, false, tt, fl1);
      ghost var c1 := Gen(true, d, g, p1, false, TestAt(c0, tt), fl1);
      TestAtStays(c0, c1, tt);
      var tt2 := if Fixedlen(d, g, p1) != 0 then NOINST else tt;
      NoTestAt(code);
      Codegen(g, p2, opt, tt2, fl);
      Assoc(c0, c1, Gen(true, d, g, p2, opt, SeqTest(d, g, p1, TestAt(c0, tt)), fl));
    }

    method CodeChoice(g: seq<Tree>, t: Tree, p1: Tree, p2: Tree, opt: bool, tt: int, fl: Charset)
      requires t == TChoice(p1, p2) && Defined(t) && Compiles(d, g, t) && TestIndex(code, tt)
      modifies this
      ensures code == old(code) + Gen(true, d, g, t, opt, TestAt(old(code), tt), fl)
      decreases t, 1
    {
      GenChoice(true, d, g, p1, p2, opt, TestAt(code, tt), fl);
      hide Gen;
      var emptyp2 := p2.TTrue?;
      var f1 := Getfirst(d, g, p1, FullSet());
      if Headfail(d, g, p1) || (!f1.e && Disjoint(f1.cs, Getfirst(d, g, p2, fl).cs)) {
        CodeThenElse(g, t, p1, p2, opt, fl, f1.cs);
      } else if opt && emptyp2 {
        ghost var c0 := code;
        var pc := AddOffsetInst(IPartialCommit);
        JumpToHere(pc);
        assert code == c0 + Jump(IPartialCommit, 2);
        Codegen(g, p1, true, NOINST, FullSet());
      } else {
        CodeOrElse(g, t, p1, p2, opt, fl, f1);
      }
    }

    method CodeThenElse(g: seq<Tree>, t: Tree, p1: Tree, p2: Tree, opt: bool, fl: Charset, cs: Charset)
      requires t == TChoice(p1, p2) && Defined(t) && Compiles(d, g, t)
      modifies this
      ensures code == old(code) + TestThenElse(cs, Gen(true, d, g, p1, false, TestOf(cs), fl),
                                               Gen(true, d, g, p2, opt, NoTest, fl), p2.TTrue?)
      decreases t, 0
    {
      hide Gen, TestAt, TestIndex, TestCells, KindOf, TestThenElse, Defined, Compiles, HoleTest;
      ghost var c0 := code;
      ghost var c1 := Gen(true, d, g, p1, false, TestOf(cs), fl);
      PairCompiles(d, g, t, p1, p2);
      var emptyp2 := p2.TTrue?;
      var test := CodeTestSet(First(false, cs));
      HoleTestAt(c0, cs);
      var jmp := NOINST;
      Codegen(g, p1, false, test, fl);
      if !emptyp2 {
        jmp := AddOffsetInst(IJmp);
      }
      ghost var x := code;
      assert x == c0 + HoleTest(cs) + c1 + (if emptyp2 then [] else JMP_HOLE);
      JumpToHere(test);
      NoTestAt(code);
      Codegen(g, p2, opt, NOINST, fl);
      ghost var y := code;
      JumpToHere(jmp);
      ThenElseAsm(c0, cs, c1, Gen(true, d, g, p2, opt, NoTest, fl), emptyp2, x, y);
    }

    method CodeOrElse(g: seq<Tree>, t: Tree, p1: Tree, p2: Tree, opt: bool, fl: Charset, f1: First)
      requires t == TChoice(p1, p2) && Defined(t) && Compiles(d, g, t)
      modifies this
      ensures code == old(code) + OrElse(f1, Gen(true, d, g, p1, p2.TTrue?, OptTestOf(f1), FullSet()),
                                         Gen(true, d, g, p2, opt, NoTest, fl))
      decreases t, 0
    {
      hide *;
      ghost var c0 := code;
      ghost var c1 := Gen(true, d, g, p1, p2.TTrue?, OptTestOf(f1), FullSet());
      PairCompiles(d, g, t, p1, p2);
      var test := CodeTestSet(f1);
      var pchoice := AddOffsetInst(IChoice);
      OptTestAt(c0, f1, [Op(IChoice), Op(IAny)], test);
      Codegen(g, p1, p2.TTrue?, test, FullSet());
      var pcommit := AddOffsetInst(ICommit);
      ghost var x := code;
      JumpToHere(pchoice);
      ghost var y := code;
      JumpToHere(test);
      NoTestAt(code);
      Codegen(g, p2, opt, NOINST, fl);
      ghost var z := code;
      JumpToHere(pcommit);
      OrElseAsm(c0, f1, c1, Gen(true, d, g, p2, opt, NoTest, fl), x, y, z);
    }

    method CodeRep(g: seq<Tree>, t: Tree, p: Tree, opt: bool, tt: int, fl: Charset)
      requires t == TRep(p) && Defined(t) && Compiles(d, g, t) && TestIndex(code, tt)
      modifies this
      ensures code == old(code) + Gen(true, d, g, t, opt, TestAt(old(code), tt), fl)
      decreases t, 1
    {
      if IsCharPattern(p) {
        var _ := AddInstruction(ISpan, 0);
        AddCharset(ToCharset(p));
      } else {
        var f := Getfirst(d, g, p, FullSet());
        if Headfail(d, g, p) || (!f.e && Disjoint(f.cs, fl)) {
          CodeTestLoop(g, t, p, f.cs);
        } else {
          CodeChoiceLoop(g, t, p, opt, f);
        }
      }
    }

    method CodeTestLoop(g: seq<Tree>, t: Tree, p: Tree, cs: Charset)
      requires t == TRep(p) && Defined(t) && Compiles(d, g, t)
      modifies this
      ensures code == old(code) + TestLoop(cs, Gen(true, d, g, p, false, TestOf(cs), FullSet()))
      decreases t, 0
    {
      hide Gen, TestAt, TestIndex, TestCells, KindOf, HoleTest, OptTestOf;
      ghost var c0 := code;
      var test := CodeTestSet(First(false, cs));
      HoleTestAt(c0, cs);
      Codegen(g, p, false, test, FullSet());
      var jmp := AddOffsetInst(IJmp);
      JumpToHere(test);
      JumpToThere(jmp, test);
      TestLoopAsm(c0, cs, Gen(true, d, g, p, false, TestOf(cs), FullSet()));
    }

    method CodeChoiceLoop(g: seq<Tree>, t: Tree, p: Tree, opt: bool, f: First)
      requires t == TRep(p) && Defined(t) && Compiles(d, g, t)
      modifies this
      ensures code == old(code) + ChoiceLoop(f, opt, Gen(true, d, g, p, false, NoTest, FullSet()))
      decreases t, 0
    {
      hide Gen, TestAt, TestIndex, TestCells, KindOf, HoleTest, Defined, Compiles, ChoiceLoop;
      ghost var c0 := code;
      PartCompiles(d, g, t, p);
      var test := CodeTestSet(f);
      var pchoice := LoopChoice(opt);
      var l2 := |code|;
      NoTestAt(code);
      Codegen(g, p, false, NOINST, FullSet());
      var commit := AddOffsetInst(IPartialCommit);
      ghost var x := code;
      assert pchoice + 1 < |code| && test + 1 < |code|;
      JumpToThere(commit, l2);
      ghost var y := code;
      JumpToHere(pchoice);
      ghost var z := code;
      JumpToHere(test);
      assert code == if f.e then z else z[|c0| + 1 := Off(|z| - |c0|)];
      ChoiceLoopAsm(c0, f, opt, Gen(true, d, g, p, false, NoTest, FullSet()), x, y, z);
    }

    /** The choice of a repetition, or its reuse of the choice on top of the stack. */
    method LoopChoice(opt: bool) returns (pchoice: int)
      modifies this
      ensures pchoice == if opt then NOINST else |old(code)|
      ensures code == old(code) + if opt then Jump(IPartialCommit, 2) else [Op(IChoice), Op(IAny)]
    {
      ghost var c0 := code;
      pchoice := NOINST;
      if opt {
        var pc := AddOffsetInst(IPartialCommit);
        JumpToHere(pc);
        SetLast(c0, IPartialCommit, 2);
      } else {
        pchoice := AddOffsetInst(IChoice);
      }
    }

    method CodeNot(g: seq<Tree>, t: Tree, p: Tree, opt: bool, tt: int, fl: Charset)
      requires t == TNot(p) && Defined(t) && Compiles(d, g, t) && TestIndex(code, tt)
      modifies this
      ensures code == old(code) + Gen(true, d, g, t, opt, TestAt(old(code), tt), fl)
      decreases t, 1
    {
      GenWrap(true, d, g, t, TestAt(code, tt), fl);
      GenPlain(true, d, g, t, opt, TestAt(code, tt), fl);
      hide Gen, TestAt, TestIndex;
      CodeNotCells(g, t, p, Getfirst(d, g, p, FullSet()), Headfail(d, g, p));
    }

    method CodeNotCells(g: seq<Tree>, t: Tree, p: Tree, f: First, headfail: bool)
      requires t == TNot(p) && Defined(t) && Compiles(d, g, t) && headfail == Headfail(d, g, p)
      modifies this
      ensures code == old(code) + NotCells(f, headfail, Gen(true, d, g, p, false, NoTest, FullSet()))
      decreases t, 0
    {
      hide Gen, TestAt, TestIndex, TestCells, KindOf, NotCells, HoleTest, Defined, Compiles;
      ghost var c0, c := code, Gen(true, d, g, p, false, NoTest, FullSet());
      PartCompiles(d, g, t, p);
      var test := CodeTestSet(f);
      ghost var x: Code;
      if headfail {
        var _ := AddInstruction(IFail, 0);
        x := code;
      } else {
        var pchoice := AddOffsetInst(IChoice);
        NoTestAt(code);
        Codegen(g, p, false, NOINST, FullSet());
        var _ := AddInstruction(IFailTwice, 0);
        x := code;
        JumpToHere(pchoice);
      }
      ghost var y := code;
      JumpToHere(test);
      NotAsm(c0, f, headfail, c, x, y);
    }

    method CodeAnd(g: seq<Tree>, t: Tree, p: Tree, opt: bool, tt: int, fl: Charset)
      requires t == TAnd(p) && Defined(t) && Compiles(d, g, t) && TestIndex(code, tt)
      modifies this
      ensures code == old(code) + Gen(true, d, g, t, opt, TestAt(old(code), tt), fl)
      decreases t, 1
    {
      GenWrap(true, d, g, t, TestAt(code, tt), fl);
      GenPlain(true, d, g, t, opt, TestAt(code, tt), fl);
      hide Gen, TestAt, TestIndex, Fixedlen, Defined, Compiles, AndCells;
      ghost var c0 := code;
      ghost var c := Gen(true, d, g, p, false, TestAt(c0, tt), FullSet());
      PartCompiles(d, g, t, p);
      var n := Fixedlen(d, g, p);
      if n >= 0 && n <= MAXBEHIND {
        Codegen(g, p, false, tt, FullSet());
        if n > 0 { var _ := AddInstruction(IBehind, n); }
        AndBackAsm(c0, n, c);
      } else {
        var pchoice := AddOffsetInst(IChoice);
        TestAtStays(c0, [Op(IChoice), Op(IAny)], tt);
        Codegen(g, p, false, tt, FullSet());
        var pcommit := AddOffsetInst(IBackCommit);
        ghost var x := code;
        JumpToHere(pchoice);
        var _ := AddInstruction(IFail, 0);
        ghost var y := code;
        JumpToHere(pcommit);
        AndAsm(c0, n, c, x, y);
      }
    }

    method CodeGrammar(g: seq<Tree>, t: Tree, rules: seq<Tree>, opt: bool, tt: int, fl: Charset)
      requires t == TGrammar(rules) && Defined(t) && Compiles(d, g, t)
      modifies this
      ensures code == old(code) + Gen(true, d, g, t, opt, TestAt(old(code), tt), fl)
      decreases t, 2
    {
      GenWrap(true, d, g, t, TestAt(code, tt), fl);
      GenPlain(true, d, g, t, opt, TestAt(code, tt), fl);
      hide Gen, GenRules, CorrectCalls, TestAt, Advances, Whole, Defined, Compiles, Positions, Jump;
      ghost var c0, body, rel := code, GenRules(true, d, rules, |rules|), Positions(true, d, rules);
      ghost var head := Jump(ICall, 4) + Jump(IJmp, 2 + |body|);
      var start, positions := CodeGrammarRules(t, rules);
      BodyFacts(d, rules, body, rel);
      CloseCalls(positions, start, c0 + head, body, rel);
      Assoc(c0, head, CorrectCalls(body, 0, rel));
    }

    /** The calling sequence of a grammar and its rules, with the calls still open. */
    method CodeGrammarRules(t: Tree, rules: seq<Tree>) returns (start: nat, positions: seq<int>)
      requires t == TGrammar(rules) && Defined(t) && Compiles(d, [], t)
      modifies this
      ensures var body := GenRules(true, d, rules, |rules|);
              var pre := old(code) + (Jump(ICall, 4) + Jump(IJmp, 2 + |body|));
              code == pre + body && start == |pre|
      ensures |positions| == |rules|
      ensures forall k | 0 <= k < |rules| :: positions[k] == start + Positions(true, d, rules)[k]
      decreases t, 1
    {
      hide Gen, GenRules, Defined, Compiles, Positions;
      ghost var c0, body := code, GenRules(true, d, rules, |rules|);
      var firstcall := AddOffsetInst(ICall);
      var jumptoend := AddOffsetInst(IJmp);
      start := |code|;
      JumpToHere(firstcall);
      GrammarHead(c0);
      positions := CodeRules(t, rules);
      PositionsAre(d, rules);
      JumpToHere(jumptoend);
      SetHole(c0 + Jump(ICall, 4), IJmp, body, 2 + |body|);
      HeadAsm(c0, Jump(ICall, 4), Jump(IJmp, 2 + |body|), body);
    }

    /** The loop of 'codegrammar': codes the rules and notes where each starts. */
    method CodeRules(t: Tree, rules: seq<Tree>) returns (positions: seq<int>)
      requires t == TGrammar(rules) && Defined(t) && Compiles(d, [], t)
      modifies this
      ensures code == old(code) + GenRules(true, d, rules, |rules|)
      ensures |positions| == |rules|
      ensures forall k | 0 <= k < |rules| :: positions[k] == |old(code)| + |GenRules(true, d, rules, k)|
      decreases t, 0
    {
      hide Gen, GenRules, TestAt, TestIndex, Defined, Compiles;
      ghost var c0 := code;
      positions := [];
      GenNoRules(d, rules);
      var k := 0;
      while k < |rules|
        invariant k == |positions| <= |rules|
        invariant code == c0 + GenRules(true, d, rules, k)
        invariant forall j | 0 <= j < k :: positions[j] == |c0| + |GenRules(true, d, rules, j)|
      {
        ghost var before, c := GenRules(true, d, rules, k), Gen(true, d, rules, rules[k], false, NoTest, FullSet());
        positions := positions + [|code|];
        GenOneMore(d, rules, k);
        NoTestAt(code);
        Codegen(rules, rules[k], false, NOINST, FullSet());
        var _ := AddInstruction(IRet, 0);
        RuleAsm(c0, before, c);
        k := k + 1;
      }
    }

    /** 'correctcalls' on the code from address 'from' on, which is 'body' after 'pre'. */
    method CloseCalls(positions: seq<int>, from: nat, ghost pre: Code, ghost body: Code, ghost rel: seq<int>)
      requires code == pre + body && from == |pre| && Whole(body) && Advances(CorrectCalls(body, 0, rel))
      requires |positions| == |rel| && forall k | 0 <= k < |rel| :: positions[k] == from + rel[k]
      requires forall q | 0 <= q < |body| && IsOpen(body[q]) :: 0 <= body[q].key < |rel|
      modifies this
      ensures code == pre + CorrectCalls(body, 0, rel)
    {
      hide Parses, Advances, LeadsToRet, Stops, JumpsTo, JumpsUp, JumpAt;
      ghost var r := CorrectCalls(body, 0, rel);
      ghost var part := body;
      assert Boundary(body, 0) by { WholeBoundary(body); }
      var i := from;
      while i < |code|
        invariant |part| == |body| && code == pre + part && from <= i <= |code|
        invariant Boundary(part, i - from) && CorrectCalls(part, i - from, rel) == r
        invariant forall q | i - from <= q < |body| :: part[q] == body[q]
      {
        ghost var q := i - from;
        BoundaryStep(part, q);
        assert code[i] == part[q];
        if code[i].op == IOpenCall {
          var n := code[i].key;
          PartlyClosed(part, q, rel, r);
          CloseCallWhole(part, q, rel);
          CloseOpen(i, positions[n], pre, part, rel);
          part := CloseCall(part, q, rel);
          i := i + 2;
        } else {
          i := i + Sizei(code[i].op);
        }
      }
      assert part == CorrectCalls(part, |part|, rel);
    }

    /** One open call: a jump if what follows it leads to a return, and otherwise a call. */
    method CloseOpen(i: nat, rule: int, ghost pre: Code, ghost part: Code, ghost rel: seq<int>)
      requires code == pre + part && |pre| <= i && i + 1 < |code| && IsOpen(part[i - |pre|])
      requires 0 <= part[i - |pre|].key < |rel| && rule == |pre| + rel[part[i - |pre|].key]
      requires JumpsUp(part) && Stops(part, i - |pre| + 2)
      modifies this
      ensures code == pre + CloseCall(part, i - |pre|, rel)
    {
      hide LeadsToRet, Stops, JumpsTo, JumpsUp, JumpAt;
      ghost var q := i - |pre|;
      StopsInside(pre, part, q + 2);
      var ft := FinalTarget(i + 2);
      RetInside(pre, part, q + 2, ft);
      if IsOp(code, ft, IRet) {
        code := code[i := code[i].(op := IJmp)];
      } else {
        code := code[i := code[i].(op := ICall)];
      }
      JumpToThere(i, rule);
    }

    /** The pass over the finished code. */
    method PeepholePass()
      requires Whole(code) && AllStop(code)
      modifies this
      ensures code == Peephole(old(code), 0)
    {
      hide Parses, AllStop, Preserves, PeepAt;
      assert Boundary(code, 0) by { WholeBoundary(code); }
      var i := 0;
      while i < |code|
        invariant 0 <= i <= |code| && Boundary(code, i) && AllStop(code)
        invariant Peephole(code, i) == Peephole(old(code), 0)
        decreases |code| - i
      {
        BoundaryStep(code, i);
        PeepAtPreserves(code, i);
        ghost var code' := PeepAt(code, i);
        PeepholeInstr(i);
        assert OpIn(code, i);
        i := i + Sizei(code[i].op);
      }
    }

    /** The switch of 'peephole' for the instruction at i. */
    method PeepholeInstr(i: nat)
      requires Boundary(code, i) && i < |code| && AllStop(code)
      modifies this
      ensures code == PeepAt(old(code), i)
    {
      BoundaryStep(code, i);
      if code[i].op == IJmp {
        PeepholeJump(i);
      } else if HasOffset(code[i].op) {
        assert Stops(code, Target(code, i));
        var l := FinalTarget(Target(code, i));
        FinalUnique(code, Target(code, i), l, Final(code, Target(code, i)));
        JumpToThere(i, l);
      }
    }

    method PeepholeJump(i: nat)
      requires JumpAt(code, i) && AllStop(code)
      modifies this
      ensures code == PeepAt(old(code), i)
    {
      hide JumpsTo;
      assert Stops(code, i);
      var ft := FinalTarget(i);
      FinalUnique(code, i, ft, Final(code, i));
      if OpIn(code, ft) && IsReturnLike(code[ft].op) {
        code := code[i := code[ft]];
        code := code[i + 1 := Op(IAny)];
      } else if OpIn(code, ft) && IsCommitLike(code[ft].op) && HasLabel(code, ft) {
        assert Stops(code, Target(code, ft));
        var fft := FinalTarget(Target(code, ft));
        FinalUnique(code, Target(code, ft), fft, Final(code, Target(code, ft)));
        code := code[i := code[ft]];
        JumpToThere(i, fft);
        // 'redo': the new label is final already
        FinalHere(code, fft);
        var l := FinalTarget(Target(code, i));
        FinalUnique(code, fft, l, Final(code, fft));
        JumpToThere(i, l);
      } else {
        JumpToThere(i, ft);
      }
    }
  }

  lemma FinalHere(code: Code, p: int)
    requires !JumpAt(code, p)
    ensures Stops(code, p) && JumpsTo(code, p, p)
  {
    assert Jumps(code, p, p, 0);
  }

  lemma WholeBoundary(code: Code)
    requires Whole(code)
    ensures Boundary(code, 0)
  {
    assert Parses(code, 0, 0);
  }
}
