// Chains of jumps in emitted code come to an end, so following them does.
module LpegChains {
  import opened LpegCharset
  import opened LpegTree
  import opened LpegAnalysis
  import opened LpegVm
  import opened LpegGen
  import opened LpegShape
  import opened LpegCorrect
  import opened LpegTail
  import G = LpegGrammar

  /** The jumps from p lead to an instruction that is no jump. */
  ghost predicate Ends(code: Code, p: int) {
    exists n: nat, q: int :: Jumps(code, p, q, n) && q >= 0 && !JumpAt(code, q)
  }

  /** The jump at q stays in the program, and its chain ends or gets to a greater address. */
  ghost predicate AdvancesAt(code: Code, q: int) {
    HasLabel(code, q) && Target(code, q) >= 0
    && exists n: nat, r: int :: n > 0 && Jumps(code, q, r, n) && r >= 0 && (r > q || !JumpAt(code, r))
  }

  ghost predicate Advances(code: Code) {
    forall q {:trigger AdvancesAt(code, q)} {:trigger IsOp(code, q, IJmp)} | IsOp(code, q, IJmp) :: AdvancesAt(code, q)
  }

  /** In code where every chain advances, every chain ends. */
  lemma {:induction false} AllEnd(code: Code, p: int)
    requires Advances(code) && p >= 0
    ensures Ends(code, p)
    decreases |code| - p
  {
    if JumpAt(code, p) {
      assert AdvancesAt(code, p);
      var n: nat, r :| n > 0 && Jumps(code, p, r, n) && r >= 0 && (r > p || !JumpAt(code, r));
      if JumpAt(code, r) {
        AllEnd(code, r);
        var m: nat, q :| Jumps(code, r, q, m) && q >= 0 && !JumpAt(code, q);
        JumpsTrans(code, p, r, n, q, m);
      }
    } else {
      assert Jumps(code, p, p, 0);
    }
  }

  // A chain of x within y = pre + x + post.
  lemma AdvancesLift(x: Code, y: Code, a: nat, q: int)
    requires Advances(x) && IsOp(x, q, IJmp) && JumpsKept(x, y, a) && a + |x| <= |y|
    requires forall k | 0 <= k < |x| :: y[a + k] == x[k]
    ensures AdvancesAt(y, a + q)
  {
    assert AdvancesAt(x, q);
    var n: nat, r :| n > 0 && Jumps(x, q, r, n) && r >= 0 && (r > q || !JumpAt(x, r));
    JumpsLift(x, y, a, q, r, n);
    assert JumpAt(x, q);
    assert IsOp(x, r, IJmp) ==> AdvancesAt(x, r);
  }

  lemma AdvancesCat(x: Code, y: Code)
    requires Advances(x) && Advances(y)
    ensures Advances(x + y)
  {
    hide AdvancesAt, JumpsKept;
    KeptInside([], x, y);
    KeptInside(x, y, []);
    assert [] + x + y == x + y && x + y + [] == x + y;
    forall q | IsOp(x + y, q, IJmp) ensures AdvancesAt(x + y, q) {
      if q < |x| {
        assert IsOp(x, q, IJmp);
        AdvancesLift(x, x + y, 0, q);
      } else {
        assert IsOp(y, q - |x|, IJmp);
        AdvancesLift(y, x + y, |x|, q - |x|);
      }
    }
  }

  lemma ForwardAdvances(offset: int)
    requires offset > 0
    ensures Advances(Jump(IJmp, offset))
  {
    var c := Jump(IJmp, offset);
    assert Jumps(c, offset, offset, 0);
    assert Jumps(c, 0, offset, 1);
    assert AdvancesAt(c, 0);
  }

  lemma NoJumpAdvances(c: Code)
    requires forall q :: !IsOp(c, q, IJmp)
    ensures Advances(c)
  {
  }

  lemma TestAdvances(cs: Charset, offset: int)
    requires offset > 0
    ensures Advances(TestCells(cs, offset))
  {
    if KindOf(cs).Empty? { ForwardAdvances(offset); } else { NoJumpAdvances(TestCells(cs, offset)); }
  }

  lemma OptTestAdvances(f: First, rest: nat)
    ensures Advances(OptTest(f, rest))
  {
    if f.e { NoJumpAdvances([]); } else { TestAdvances(f.cs, TestSize(f.cs) + rest); }
  }

  lemma PlainAdvances(op: Opcode, offset: int)
    requires op != IJmp
    ensures Advances(Jump(op, offset)) && Advances([Op(op)])
  {
    NoJumpAdvances(Jump(op, offset));
    NoJumpAdvances([Op(op)]);
  }

  // ----- layouts

  lemma ThenElseAdvances(cs: Charset, c1: Code, c2: Code, emptyp2: bool)
    requires Advances(c1) && Advances(c2)
    ensures Advances(TestThenElse(cs, c1, c2, emptyp2))
  {
    hide Advances;
    var jmp := if emptyp2 then [] else Jump(IJmp, 2 + |c2|);
    var test := TestCells(cs, TestSize(cs) + |c1| + |jmp|);
    TestAdvances(cs, TestSize(cs) + |c1| + |jmp|);
    ForwardAdvances(2 + |c2|);
    NoJumpAdvances([]);
    AdvancesCat(test, c1);
    AdvancesCat(test + c1, jmp);
    AdvancesCat(test + c1 + jmp, c2);
  }

  lemma OrElseAdvances(f: First, c1: Code, c2: Code)
    requires Advances(c1) && Advances(c2)
    ensures Advances(OrElse(f, c1, c2))
  {
    hide Advances;
    var test, choice, commit := OptTest(f, 2 + |c1| + 2), Jump(IChoice, 2 + |c1| + 2), Jump(ICommit, 2 + |c2|);
    OptTestAdvances(f, 2 + |c1| + 2);
    PlainAdvances(IChoice, 2 + |c1| + 2);
    PlainAdvances(ICommit, 2 + |c2|);
    AdvancesCat(test, choice);
    AdvancesCat(test + choice, c1);
    AdvancesCat(test + choice + c1, commit);
    AdvancesCat(test + choice + c1 + commit, c2);
  }

  // Code that ends in a jump of its own.
  lemma AdvancesLast(x: Code, offset: int)
    requires Advances(x) && AdvancesAt(x + Jump(IJmp, offset), |x|)
    ensures Advances(x + Jump(IJmp, offset))
  {
    hide AdvancesAt, JumpsKept;
    var y := Jump(IJmp, offset);
    KeptInside([], x, y);
    assert [] + x + y == x + y;
    forall q | IsOp(x + y, q, IJmp) ensures AdvancesAt(x + y, q) {
      if q < |x| {
        assert IsOp(x, q, IJmp);
        AdvancesLift(x, x + y, 0, q);
      } else {
        assert q == |x|;
      }
    }
  }

  // The only jump that goes back leads to a test, or to a jump over the whole loop.
  lemma TestLoopAdvances(cs: Charset, c: Code)
    requires Advances(c)
    ensures Advances(TestLoop(cs, c))
  {
    hide Advances;
    var test := TestCells(cs, TestSize(cs) + |c| + 2);
    TestAdvances(cs, TestSize(cs) + |c| + 2);
    AdvancesCat(test, c);
    LoopJump(test, c, cs);
    AdvancesLast(test + c, -(TestSize(cs) + |c|));
  }

  lemma LoopJump(test: Code, c: Code, cs: Charset)
    requires test == TestCells(cs, TestSize(cs) + |c| + 2)
    ensures AdvancesAt(test + c + Jump(IJmp, -(TestSize(cs) + |c|)), |test + c|)
  {
    var x := test + c;
    var code, q := x + Jump(IJmp, -(TestSize(cs) + |c|)), |x|;
    assert code[q + 1] == Off(-(TestSize(cs) + |c|)) && Target(code, q) == 0;
    assert code[0] == test[0] && code[1] == test[1];
    if KindOf(cs).Empty? {
      assert Jumps(code, |code|, |code|, 0);
      assert Jumps(code, 0, |code|, 1);
      assert Jumps(code, q, |code|, 2);
    } else {
      assert Jumps(code, 0, 0, 0);
      assert Jumps(code, q, 0, 1);
    }
  }

  lemma ChoiceLoopAdvances(f: First, opt: bool, c: Code)
    requires Advances(c)
    ensures Advances(ChoiceLoop(f, opt, c))
  {
    hide Advances;
    var test, head := OptTest(f, 2 + |c| + 2), if opt then Jump(IPartialCommit, 2) else Jump(IChoice, 2 + |c| + 2);
    OptTestAdvances(f, 2 + |c| + 2);
    PlainAdvances(IPartialCommit, 2);
    PlainAdvances(IChoice, 2 + |c| + 2);
    PlainAdvances(IPartialCommit, -|c|);
    AdvancesCat(test, head);
    AdvancesCat(test + head, c);
    AdvancesCat(test + head + c, Jump(IPartialCommit, -|c|));
  }

  lemma FailAdvances(f: First, c: Code)
    ensures Advances(NotCells(f, true, c))
  {
    hide Advances;
    OptTestAdvances(f, 1);
    PlainAdvances(IFail, 0);
    AdvancesCat(OptTest(f, 1), [Op(IFail)]);
  }

  lemma NotAdvances(f: First, c: Code)
    requires Advances(c)
    ensures Advances(NotCells(f, false, c))
  {
    hide Advances;
    var test, head := OptTest(f, 2 + |c| + 1), Jump(IChoice, 2 + |c| + 1);
    OptTestAdvances(f, 2 + |c| + 1);
    PlainAdvances(IChoice, 2 + |c| + 1);
    PlainAdvances(IFailTwice, 0);
    AdvancesCat(test, head);
    AdvancesCat(test + head, c);
    AdvancesCat(test + head + c, [Op(IFailTwice)]);
  }

  lemma AndAdvances(n: int, c: Code)
    requires Advances(c)
    ensures Advances(AndCells(n, c)) && Advances(BehindCells(n) + c)
  {
    hide Advances;
    NoJumpAdvances(BehindCells(n));
    AdvancesCat(c, BehindCells(n));
    AdvancesCat(BehindCells(n), c);
    var head, back := Jump(IChoice, 2 + |c| + 2), Jump(IBackCommit, 3);
    PlainAdvances(IChoice, 2 + |c| + 2);
    PlainAdvances(IBackCommit, 3);
    PlainAdvances(IFail, 0);
    AdvancesCat(head, c);
    AdvancesCat(head + c, back);
    AdvancesCat(head + c + back, [Op(IFail)]);
  }

  // ----- the calls left open in emitted code

  /** Open calls of c name rules that t calls. */
  ghost predicate OpenFor(c: Code, t: Tree) {
    forall q {:trigger IsOpen(c[q])} | 0 <= q < |c| && IsOpen(c[q]) :: c[q].key >= 0 && G.CallsRule(t, c[q].key)
  }

  lemma OpenCat(x: Code, y: Code, t: Tree)
    requires OpenFor(x, t) && OpenFor(y, t)
    ensures OpenFor(x + y, t)
  {
  }

  lemma OpenUp(c: Code, p: Tree, t: Tree)
    requires OpenFor(c, p) && forall k: nat | G.CallsRule(p, k) :: G.CallsRule(t, k)
    ensures OpenFor(c, t)
  {
  }

  lemma ThenElseOpen(cs: Charset, c1: Code, c2: Code, emptyp2: bool, t: Tree)
    requires OpenFor(c1, t) && OpenFor(c2, t)
    ensures OpenFor(TestThenElse(cs, c1, c2, emptyp2), t)
  {
    var jmp := if emptyp2 then [] else Jump(IJmp, 2 + |c2|);
    var test := TestCells(cs, TestSize(cs) + |c1| + |jmp|);
    OpenCat(test, c1, t);
    OpenCat(test + c1, jmp, t);
    OpenCat(test + c1 + jmp, c2, t);
  }

  lemma OrElseOpen(f: First, c1: Code, c2: Code, t: Tree)
    requires OpenFor(c1, t) && OpenFor(c2, t)
    ensures OpenFor(OrElse(f, c1, c2), t)
  {
    var head := OptTest(f, 2 + |c1| + 2) + Jump(IChoice, 2 + |c1| + 2);
    OpenCat(head, c1, t);
    OpenCat(head + c1, Jump(ICommit, 2 + |c2|), t);
    OpenCat(head + c1 + Jump(ICommit, 2 + |c2|), c2, t);
  }

  lemma LoopsOpen(f: First, opt: bool, c: Code, t: Tree)
    requires OpenFor(c, t)
    ensures OpenFor(TestLoop(f.cs, c), t) && OpenFor(ChoiceLoop(f, opt, c), t)
  {
    var test := TestCells(f.cs, TestSize(f.cs) + |c| + 2);
    OpenCat(test, c, t);
    OpenCat(test + c, Jump(IJmp, -(TestSize(f.cs) + |c|)), t);
    var head := OptTest(f, 2 + |c| + 2) + if opt then Jump(IPartialCommit, 2) else Jump(IChoice, 2 + |c| + 2);
    OpenCat(head, c, t);
    OpenCat(head + c, Jump(IPartialCommit, -|c|), t);
  }

  lemma PredicatesOpen(f: First, headfail: bool, n: int, c: Code, t: Tree)
    requires OpenFor(c, t)
    ensures OpenFor(NotCells(f, headfail, c), t) && OpenFor(AndCells(n, c), t) && OpenFor(BehindCells(n) + c, t)
  {
    var head := OptTest(f, 2 + |c| + 1) + Jump(IChoice, 2 + |c| + 1);
    OpenCat(head, c, t);
    OpenCat(head + c, [Op(IFailTwice)], t);
    OpenCat(c, BehindCells(n), t);
    OpenCat(BehindCells(n), c, t);
    var choice := Jump(IChoice, 2 + |c| + 2);
    OpenCat(choice, c, t);
    OpenCat(choice + c, Jump(IBackCommit, 3), t);
    OpenCat(choice + c + Jump(IBackCommit, 3), [Op(IFail)], t);
  }

  lemma {:induction false} GenOpenFor(d: nat, g: seq<Tree>, t: Tree, opt: bool, tt: Test, fl: Charset)
    ensures OpenFor(Gen(true, d, g, t, opt, tt, fl), t)
    decreases t, 0
  {
    hide OpenFor, Checkaux, Fixedlen, Getfirst, Headfail, Disjoint, KindOf, Closed, GenRules,
         TestThenElse, OrElse, TestLoop, ChoiceLoop, NotCells, AndCells;
    match t
    case TChoice(p1, p2) =>
      var f1 := Getfirst(d, g, p1, FullSet());
      var c2 := Gen(true, d, g, p2, opt, NoTest, fl);
      PartOpen(d, g, p2, t, opt, NoTest, fl);
      if ChoiceByTest(d, g, p1, p2, fl) {
        PartOpen(d, g, p1, t, false, TestOf(f1.cs), fl);
        ThenElseOpen(f1.cs, Gen(true, d, g, p1, false, TestOf(f1.cs), fl), c2, p2.TTrue?, t);
      } else if opt && p2.TTrue? {
        PartOpen(d, g, p1, t, true, NoTest, FullSet());
        JumpOpen(IPartialCommit, 2, t);
        OpenCat(Jump(IPartialCommit, 2), Gen(true, d, g, p1, true, NoTest, FullSet()), t);
      } else {
        PartOpen(d, g, p1, t, p2.TTrue?, OptTestOf(f1), FullSet());
        OrElseOpen(f1, Gen(true, d, g, p1, p2.TTrue?, OptTestOf(f1), FullSet()), c2, t);
      }
    case TRep(p) =>
      var f := Getfirst(d, g, p, FullSet());
      if IsCharPattern(p) {
        LeafOpen(d, g, t, opt, tt, fl);
      } else {
        PartOpen(d, g, p, t, false, TestOf(f.cs), FullSet());
        PartOpen(d, g, p, t, false, NoTest, FullSet());
        LoopsOpen(f, opt, Gen(true, d, g, p, false, TestOf(f.cs), FullSet()), t);
        LoopsOpen(f, opt, Gen(true, d, g, p, false, NoTest, FullSet()), t);
      }
    case TBehind(n, p) =>
      PartOpen(d, g, p, t, false, NoTest, FullSet());
      PredicatesOpen(First(true, fl), true, n, Gen(true, d, g, p, false, NoTest, FullSet()), t);
    case TNot(p) =>
      PartOpen(d, g, p, t, false, NoTest, FullSet());
      PredicatesOpen(Getfirst(d, g, p, FullSet()), Headfail(d, g, p), 0, Gen(true, d, g, p, false, NoTest, FullSet()), t);
    case TAnd(p) =>
      PartOpen(d, g, p, t, false, tt, FullSet());
      PredicatesOpen(First(true, fl), true, Fixedlen(d, g, p), Gen(true, d, g, p, false, tt, FullSet()), t);
    case TSeq(p1, p2) =>
      PartOpen(d, g, p1, t, false, tt, SeqFollow(d, g, p1, p2, fl));
      PartOpen(d, g, p2, t, opt, SeqTest(d, g, p1, tt), fl);
      OpenCat(Gen(true, d, g, p1, false, tt, SeqFollow(d, g, p1, p2, fl)),
              Gen(true, d, g, p2, opt, SeqTest(d, g, p1, tt), fl), t);
    case TGrammar(rules) =>
      var body := GenRules(true, d, rules, |rules|);
      RulesWhole(true, d, rules, |rules|);
      CorrectCallsNoOpen(body, Positions(true, d, rules), t);
      JumpOpen(ICall, 4, t);
      JumpOpen(IJmp, 2 + |body|, t);
      OpenCat(Jump(ICall, 4), Jump(IJmp, 2 + |body|), t);
      OpenCat(Jump(ICall, 4) + Jump(IJmp, 2 + |body|), Closed(true, body, Positions(true, d, rules)), t);
    case TChar(_) => LeafOpen(d, g, t, opt, tt, fl);
    case TSet(_) => LeafOpen(d, g, t, opt, tt, fl);
    case TAny => LeafOpen(d, g, t, opt, tt, fl);
    case TTrue => LeafOpen(d, g, t, opt, tt, fl);
    case TFalse => LeafOpen(d, g, t, opt, tt, fl);
    case TCall(_) => LeafOpen(d, g, t, opt, tt, fl);
  }

  lemma LeafOpen(d: nat, g: seq<Tree>, t: Tree, opt: bool, tt: Test, fl: Charset)
    requires t.TChar? || t.TSet? || t.TAny? || t.TTrue? || t.TFalse? || t.TCall? || (t.TRep? && IsCharPattern(t.p))
    ensures OpenFor(Gen(true, d, g, t, opt, tt, fl), t)
  {
  }

  lemma JumpOpen(op: Opcode, offset: int, t: Tree)
    requires op != IOpenCall
    ensures OpenFor(Jump(op, offset), t)
  {
  }

  lemma {:induction false} PartOpen(d: nat, g: seq<Tree>, p: Tree, t: Tree, opt: bool, tt: Test, fl: Charset)
    requires p < t && forall k: nat | G.CallsRule(p, k) :: G.CallsRule(t, k)
    ensures OpenFor(Gen(true, d, g, p, opt, tt, fl), t)
    decreases p, 1
  {
    hide Gen, OpenFor;
    GenOpenFor(d, g, p, opt, tt, fl);
    OpenUp(Gen(true, d, g, p, opt, tt, fl), p, t);
  }

  // ----- what 'correctcalls' writes

  /** Cell k of code and of the same code with its calls closed. */
  predicate ClosedCell(code: Code, r: Code, k: nat, pos: seq<int>)
    requires k < |code| == |r|
  {
    if IsOpen(code[k]) then
      && k + 1 < |code| && r[k].I? && (r[k].op == IJmp || r[k].op == ICall)
      && r[k + 1] == Off(CallOffset(pos, code[k].key, k))
    else if code[k] == Op(IAny) then r[k] == code[k] || r[k].Off?
    else r[k] == code[k]
  }

  lemma {:induction false} CorrectCallsCells(code: Code, q: nat, pos: seq<int>, r: Code)
    requires Boundary(code, q) && r == CorrectCalls(code, q, pos)
    ensures forall k: nat | k < q :: r[k] == code[k]
    ensures forall k: nat {:trigger ClosedCell(code, r, k, pos)} | q <= k < |code| :: ClosedCell(code, r, k, pos)
    decreases |code| - q
  {
    hide LeadsToRet;
    if q < |code| {
      BoundaryStep(code, q);
      if IsOpen(code[q]) {
        CloseCallWhole(code, q, pos);
        var code' := CloseCall(code, q, pos);
        CorrectCallsCells(code', q + 2, pos, r);
        forall k: nat | k < q ensures r[k] == code[k] { assert code'[k] == code[k]; }
        forall k: nat | q <= k < |code| ensures ClosedCell(code, r, k, pos) {
          if k < q + 2 {
            assert r[k] == code'[k];
            assert r[q + 1] == code'[q + 1];
          } else {
            assert code'[k] == code[k];
            assert ClosedCell(code', r, k, pos);
          }
        }
      } else {
        CorrectCallsCells(code, q + Sizei(code[q].op), pos, r);
        forall k: nat | q <= k < |code| ensures ClosedCell(code, r, k, pos) {
          if k < q + Sizei(code[q].op) { assert r[k] == code[k]; }
        }
      }
    }
  }

  lemma CorrectCallsNoOpen(body: Code, pos: seq<int>, t: Tree)
    requires Whole(body)
    ensures OpenFor(Closed(true, body, pos), t)
  {
    assert Parses(body, 0, 0);
    var r := CorrectCalls(body, 0, pos);
    CorrectCallsCells(body, 0, pos, r);
    forall k: nat | k < |r| ensures !IsOpen(r[k]) { assert ClosedCell(body, r, k, pos); }
  }

  // ----- grammars

  // The cells under the label of a jump.
  lemma WholeLabel(code: Code, p: int, e: int, q: int)
    requires 0 <= p && e <= |code| && Parses(code, p, e) && p <= q < e && code[q].I? && HasOffset(code[q].op)
    ensures HasLabel(code, q)
    decreases e - p
  {
    if q >= p + Sizei(code[p].op) { WholeLabel(code, p + Sizei(code[p].op), e, q); }
  }

  /** Where the machine is while it follows a chain: every hop is one of its steps. */
  lemma {:induction false} ChainRuns(before: Code, after: Code, s: Subject, p: int, n: nat, i: nat, st: seq<Entry>) returns (q: int, m: nat)
    requires TailRel(before, after) && st != [] && p >= 0
    requires var last := Steps(before, s, n, Run(p, i, st)); last.Run? && last.p < 0 && |last.stack| < |st|
    ensures Jumps(after, p, q, m) && q >= 0 && !JumpAt(after, q)
    decreases n
  {
    if !JumpAt(after, p) {
      q, m := p, 0;
    } else {
      StopsStay(before, s, n, Stuck);
      var c := Step(before, s, Run(p, i, st));
      if n > 0 {
        StopsStay(before, s, n - 1, Stuck);
        AheadStep(before, after, s, p, i, st);
        var t := Target(after, p);
        NegativeStops(before, s, c, n - 1);
        q, m := ChainRuns(before, after, s, t, n - 1, i, c.stack);
        m := m + 1;
      }
    }
  }

  // The machine does not run on from a negative address with entries on its stack.
  lemma NegativeStops(code: Code, s: Subject, c: State, n: nat)
    requires c.Run? && c.stack != []
    ensures c.p < 0 && n > 0 ==> Steps(code, s, n, c) == Stuck
  {
    if c.p < 0 && n > 0 {
      assert Step(code, s, c) == Stuck;
      StopsStay(code, s, n - 1, Stuck);
    }
  }

  // The body of a grammar with calls only, as a program of its own.
  lemma BodyReady(d: nat, rules: seq<Tree>)
    requires RulesOk(d, rules)
    ensures var pos := Positions(false, d, rules);
            Ready(Resolved(GenRules(false, d, rules, |rules|), pos), d, rules, pos)
  {
    hide Gen;
    var body, pos := GenRules(false, d, rules, |rules|), Positions(false, d, rules);
    var code := Resolved(body, pos);
    forall k: nat | k < |code| ensures code[0 + k] == ResCell(code, k, 0, []) {
      assert code[k] == ResCell(body, k, 0, pos);
    }
    ResolvedLoaded(code, 0, body, pos, []);
    assert Shift(0, pos) == pos;
    forall k: nat | k < |rules| ensures RuleLoaded(code, d, rules, pos, k) {
      RulesLoaded(code, 0, d, rules, |rules|, pos, k);
      assert pos[k] == 0 + |GenRules(false, d, rules, k)|;
    }
  }

  lemma BodyTail(d: nat, rules: seq<Tree>)
    ensures Positions(false, d, rules) == Positions(true, d, rules)
    ensures var pos := Positions(true, d, rules);
            TailRel(Resolved(GenRules(false, d, rules, |rules|), pos), CorrectCalls(GenRules(true, d, rules, |rules|), 0, pos))
  {
    hide Gen;
    var pos, pos' := Positions(false, d, rules), Positions(true, d, rules);
    forall k | 0 <= k < |rules| ensures pos[k] == pos'[k] { RulesTail(d, rules, k); }
    assert pos == pos';
    RulesTail(d, rules, |rules|);
    RulesWhole(true, d, rules, |rules|);
    ClosedTail(GenRules(false, d, rules, |rules|), GenRules(true, d, rules, |rules|), pos);
  }

  /** The chain from the start of a used rule ends: if it did not, the machine would never get through
      the rule, although matching it ends. */
  lemma RuleChainEnds(d: nat, rules: seq<Tree>, k: nat)
    requires G.Fine(d, TGrammar(rules)) && RulesOk(d, rules) && k < |rules| && G.Used(rules, k)
    ensures var pos := Positions(true, d, rules); Ends(CorrectCalls(GenRules(true, d, rules, |rules|), 0, pos), pos[k])
  {
    hide Gen, Peg, TreeOk, CorrectCalls, Resolved, TailRel, Ready, LeadsToRet;
    var pos := Positions(true, d, rules);
    var before := Resolved(GenRules(false, d, rules, |rules|), pos);
    var after := CorrectCalls(GenRules(true, d, rules, |rules|), 0, pos);
    BodyTail(d, rules);
    BodyReady(d, rules);
    var h := G.NestingDepth(TGrammar(rules));
    G.RuleIsPart(d, h - 1, rules, k);
    var f := G.Terminates(false, d, h - 1, rules, rules[k], [], 0);
    var st := [Back(GIVEUP, 0)];
    RuleCorrect(f, d, rules, pos, before, [], k, -2, 0, st);
    var st1 := st + [Ret(-2)];
    var c := if Peg(f, rules, rules[k], [], 0).Ok? then Run(-2, Peg(f, rules, rules[k], [], 0).end, st) else FailTo(st);
    assert Reach(before, [], Run(pos[k], 0, st1), c);
    var n: nat :| Steps(before, [], n, Run(pos[k], 0, st1)) == c;
    var q, m := ChainRuns(before, after, [], pos[k], n, 0, st1);
  }

  /** Open calls of the first n rules name used rules. */
  lemma {:induction false} RulesOpen(d: nat, rules: seq<Tree>, n: nat, q: int)
    requires n <= |rules| && 0 <= q < |GenRules(true, d, rules, n)| && IsOpen(GenRules(true, d, rules, n)[q])
    ensures var k := GenRules(true, d, rules, n)[q].key; k >= 0 && G.Used(rules, k)
    decreases n
  {
    hide Gen;
    var before, c := GenRules(true, d, rules, n - 1), Gen(true, d, rules, rules[n - 1], false, NoTest, FullSet());
    if q < |before| {
      RulesOpen(d, rules, n - 1, q);
    } else {
      GenOpenFor(d, rules, rules[n - 1], false, NoTest, FullSet());
      assert q - |before| < |c| && GenRules(true, d, rules, n)[q] == c[q - |before|];
      assert G.CallsRule(rules[n - 1], c[q - |before|].key);
    }
  }

  lemma ClosedKeeps(body: Code, code: Code, pos: seq<int>)
    requires |body| == |code| && forall k: nat {:trigger ClosedCell(body, code, k, pos)} | k < |body| :: ClosedCell(body, code, k, pos)
    ensures JumpsKept(body, code, 0)
  {
    forall p | JumpAt(body, p) ensures JumpAt(code, 0 + p) && Target(code, 0 + p) == 0 + Target(body, p) {
      assert ClosedCell(body, code, p, pos) && ClosedCell(body, code, p + 1, pos);
    }
  }
}
