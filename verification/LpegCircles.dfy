// When the compiler ends: it follows chains of jumps, and tail calls can close a chain to a circle.
module LpegCircles {
  import opened Sets
  import opened LpegCharset
  import opened LpegTree
  import opened LpegAnalysis
  import opened LpegVm
  import opened LpegGen
  import opened LpegShape
  import opened LpegCorrect
  import opened LpegTail
  import opened LpegChains
  import opened LpegLeads
  import G = LpegGrammar

  /** Every call in the rules names one of them. */
  ghost predicate CallsDefined(rules: seq<Tree>) {
    forall r: nat, k: nat | r < |rules| && G.CallsRule(rules[r], k) :: k < |rules|
  }

  /** No undefined rule in any sub-grammar. */
  ghost predicate Defined(t: Tree) {
    match t
    case TRep(p) => Defined(p)
    case TNot(p) => Defined(p)
    case TAnd(p) => Defined(p)
    case TBehind(_, p) => Defined(p)
    case TSeq(p1, p2) => Defined(p1) && Defined(p2)
    case TChoice(p1, p2) => Defined(p1) && Defined(p2)
    case TGrammar(rules) => rules != [] && CallsDefined(rules) && forall k: nat | k < |rules| :: Defined(rules[k])
    case _ => true
  }

  // ----- from rule to rule

  /** From the start of rule k, with nothing but jumps before each tail call, at most n rules lead out of all rules. */
  ghost predicate GetsOut(d: nat, rules: seq<Tree>, k: nat, n: nat)
    requires k < |rules|
    decreases n
  {
    var x := LeadOf(d, rules, rules[k], FullSet());
    x.ToCall? && x.last ==> n > 0 && x.rule < |rules| && GetsOut(d, rules, x.rule, n - 1)
  }

  /** No circle of tail calls with nothing but jumps in between. */
  ghost predicate NoCircle(d: nat, rules: seq<Tree>) {
    forall k: nat | k < |rules| :: GetsOut(d, rules, k, |rules|)
  }

  /** The sub-grammars of a pattern, as far as code is emitted for them, have no circle. */
  ghost predicate Compiles(d: nat, g: seq<Tree>, t: Tree)
    decreases t
  {
    match t
    case TRep(p) => Compiles(d, g, p)
    case TNot(p) => Headfail(d, g, p) || Compiles(d, g, p)
    case TAnd(p) => Compiles(d, g, p)
    case TBehind(_, p) => Compiles(d, g, p)
    case TSeq(p1, p2) => Compiles(d, g, p1) && Compiles(d, g, p2)
    case TChoice(p1, p2) => Compiles(d, g, p1) && Compiles(d, g, p2)
    case TGrammar(rules) => NoCircle(d, rules) && forall k: nat | k < |rules| :: Compiles(d, rules, rules[k])
    case _ => true
  }

  ghost function Leaving(d: nat, rules: seq<Tree>, n: nat): set<nat> {
    set k: nat | k < |rules| && GetsOut(d, rules, k, n)
  }

  lemma {:induction false} GetsOutMore(d: nat, rules: seq<Tree>, k: nat, n: nat, m: nat)
    requires k < |rules| && n <= m && GetsOut(d, rules, k, n)
    ensures GetsOut(d, rules, k, m)
    decreases n
  {
    var x := LeadOf(d, rules, rules[k], FullSet());
    if x.ToCall? && x.last { GetsOutMore(d, rules, x.rule, n - 1, m - 1); }
  }

  lemma LeavingNext(d: nat, rules: seq<Tree>, n: nat, m: nat)
    requires Leaving(d, rules, n) == Leaving(d, rules, m)
    ensures Leaving(d, rules, n + 1) == Leaving(d, rules, m + 1)
  {
    var n', m' := n + 1, m + 1;
    forall k: nat | k < |rules| ensures GetsOut(d, rules, k, n') <==> GetsOut(d, rules, k, m') {
      var x := LeadOf(d, rules, rules[k], FullSet());
      if x.ToCall? && x.last && x.rule < |rules| {
        assert x.rule in Leaving(d, rules, n) <==> x.rule in Leaving(d, rules, m);
      }
    }
  }

  lemma {:induction false} LeavingStays(d: nat, rules: seq<Tree>, n: nat, m: nat)
    requires Leaving(d, rules, n) == Leaving(d, rules, n + 1) && n <= m
    ensures Leaving(d, rules, m) == Leaving(d, rules, n)
    decreases m
  {
    if m > n {
      LeavingStays(d, rules, n, m - 1);
      LeavingNext(d, rules, m - 1, n);
    }
  }

  /** As long as another call makes a difference one more rule gets out. */
  lemma {:induction false} LeavingSettles(d: nat, rules: seq<Tree>, n: nat) returns (m: nat)
    requires n <= |Leaving(d, rules, n)|
    ensures m <= |rules| && Leaving(d, rules, m) == Leaving(d, rules, m + 1)
    decreases |rules| - n
  {
    SubsetSize(Leaving(d, rules, n), Upto(|rules|));
    if Leaving(d, rules, n) == Leaving(d, rules, n + 1) {
      m := n;
    } else {
      forall k | k in Leaving(d, rules, n) ensures k in Leaving(d, rules, n + 1) { GetsOutMore(d, rules, k, n, n + 1); }
      SubsetSize(Leaving(d, rules, n), Leaving(d, rules, n + 1));
      SubsetSize(Leaving(d, rules, n + 1), Upto(|rules|));
      m := LeavingSettles(d, rules, n + 1);
    }
  }

  /** A rule that gets out at all does so within as many rules as there are. */
  lemma OutInTime(d: nat, rules: seq<Tree>, k: nat, n: nat)
    requires k < |rules| && GetsOut(d, rules, k, n)
    ensures GetsOut(d, rules, k, |rules|)
  {
    if n <= |rules| {
      GetsOutMore(d, rules, k, n, |rules|);
    } else {
      var m := LeavingSettles(d, rules, 0);
      LeavingStays(d, rules, m, n);
      LeavingStays(d, rules, m, |rules|);
      assert k in Leaving(d, rules, n);
    }
  }

  // ----- the same in the closed code of a grammar

  /** The code when the call at q is closed: everything before q is closed, and nothing from q on. */
  lemma {:induction false} ClosingTime(code: Code, q0: nat, pos: seq<int>, q: nat) returns (part: Code)
    requires Boundary(code, q0) && q0 <= q < |code| && IsOpen(code[q])
    ensures |part| == |code| && JumpsKept(code, part, 0)
    ensures forall k | q <= k < |code| :: part[k] == code[k]
    ensures CorrectCalls(code, q0, pos)[q].I? && CorrectCalls(code, q0, pos)[q].op == if LeadsToRet(part, q + 2) then IJmp else ICall
    decreases |code| - q0
  {
    hide LeadsToRet, Jumps;
    BoundaryStep(code, q0);
    if q0 == q {
      part := code;
      CloseCallWhole(code, q, pos);
      CorrectCallsCells(CloseCall(code, q, pos), q + 2, pos, CorrectCalls(code, q, pos));
      KeptSame(code, code);
    } else if IsOpen(code[q0]) {
      CloseCallWhole(code, q0, pos);
      var code' := CloseCall(code, q0, pos);
      part := ClosingTime(code', q0 + 2, pos, q);
      CloseKeeps(code, code', q0, part);
    } else {
      part := ClosingTime(code, q0 + Sizei(code[q0].op), pos, q);
    }
  }

  lemma KeptSame(x: Code, y: Code)
    requires x == y
    ensures JumpsKept(x, y, 0)
  {
  }

  lemma CloseKeeps(code: Code, code': Code, q0: nat, part: Code)
    requires |code'| == |code| && q0 + 1 < |code| && IsOpen(code[q0]) && code[q0 + 1] == Op(IAny)
    requires forall k | 0 <= k < |code| && k != q0 && k != q0 + 1 :: code'[k] == code[k]
    requires JumpsKept(code', part, 0)
    ensures JumpsKept(code, part, 0)
  {
    forall p | JumpAt(code, p) ensures JumpAt(part, 0 + p) && Target(part, 0 + p) == 0 + Target(code, p) {
      assert JumpAt(code', p) && Target(code', p) == Target(code, p);
    }
  }

  // The code of a rule within that of all.
  lemma {:induction false} RuleWithin(d: nat, rules: seq<Tree>, n: nat, k: nat) returns (post: Code)
    requires k < n <= |rules|
    ensures var c := Gen(true, d, rules, rules[k], false, NoTest, FullSet());
      GenRules(true, d, rules, n) == GenRules(true, d, rules, k) + c + ([Op(IRet)] + post)
    decreases n
  {
    hide Gen;
    var c := Gen(true, d, rules, rules[n - 1], false, NoTest, FullSet());
    if k == n - 1 {
      post := [];
      assert GenRules(true, d, rules, n) == GenRules(true, d, rules, k) + c + [Op(IRet)];
    } else {
      var p := RuleWithin(d, rules, n - 1, k);
      post := p + c + [Op(IRet)];
      var c0, before := Gen(true, d, rules, rules[k], false, NoTest, FullSet()), GenRules(true, d, rules, k);
      assert GenRules(true, d, rules, n) == GenRules(true, d, rules, n - 1) + c + [Op(IRet)];
      assert before + c0 + ([Op(IRet)] + p) + c + [Op(IRet)] == before + c0 + ([Op(IRet)] + post);
    }
  }

  lemma OpenDefined(d: nat, rules: seq<Tree>, q: int)
    requires CallsDefined(rules) && 0 <= q < |GenRules(true, d, rules, |rules|)| && IsOpen(GenRules(true, d, rules, |rules|)[q])
    ensures 0 <= GenRules(true, d, rules, |rules|)[q].key < |rules|
  {
    hide Gen;
    RulesOpen(d, rules, |rules|, q);
    var k := GenRules(true, d, rules, |rules|)[q].key;
    assert G.Used(rules, k);
  }

  ghost function ClosedBody(d: nat, rules: seq<Tree>): Code {
    CorrectCalls(GenRules(true, d, rules, |rules|), 0, Positions(true, d, rules))
  }

  /** Whether the call at the end of a chain is closed as a jump. */
  lemma ClosedAs(body: Code, pos: seq<int>, q: int, e: int, k: nat, last: bool)
    requires Whole(body) && CallAt(body, q, e, k, last) && e < |body| && IsOp(body, e, IRet) && k < |pos|
    ensures var code := CorrectCalls(body, 0, pos);
      if last then JumpAt(code, q) && Target(code, q) == pos[k] else IsOp(code, q, ICall)
  {
    hide CorrectCalls;
    assert Parses(body, 0, 0);
    CorrectCallsCells(body, 0, pos, CorrectCalls(body, 0, pos));
    assert ClosedCell(body, CorrectCalls(body, 0, pos), q, pos);
    var part := ClosingTime(body, 0, pos, q);
    if last {
      var m: nat :| Jumps(body, q + 2, e, m);
      JumpsLift(body, part, 0, q + 2, e, m);
      assert IsOp(part, e, IRet);
    } else {
      var m: nat, r :| Jumps(body, q + 2, r, m) && q + 2 <= r < e && Other(body, r);
      JumpsLift(body, part, 0, q + 2, r, m);
      NoReturn(part, q + 2, r, m);
    }
  }

  lemma NoReturn(code: Code, p: int, r: int, m: nat)
    requires Jumps(code, p, r, m) && Other(code, r)
    ensures !LeadsToRet(code, p)
  {
    if LeadsToRet(code, p) {
      var n: nat, q :| Jumps(code, p, q, n) && IsOp(code, q, IRet);
      if m <= n { JumpsDeterministic(code, p, r, m, q, n); } else { JumpsDeterministic(code, p, q, n, r, m); }
    }
  }

  /** From the start of a rule jumps lead to that of the next, or they end. */
  lemma RuleLeads(d: nat, rules: seq<Tree>, k: nat)
    requires CallsDefined(rules) && k < |rules|
    ensures var x, code, pos := LeadOf(d, rules, rules[k], FullSet()), ClosedBody(d, rules), Positions(true, d, rules);
      if x.ToCall? && x.last then x.rule < |rules| && exists n: nat :: n > 0 && Jumps(code, pos[k], pos[x.rule], n)
      else Ends(code, pos[k])
  {
    hide Gen, CorrectCalls, GenRules, LeadOf, Jumps;
    var x, code, pos := LeadOf(d, rules, rules[k], FullSet()), ClosedBody(d, rules), Positions(true, d, rules);
    var body, c := GenRules(true, d, rules, |rules|), Gen(true, d, rules, rules[k], false, NoTest, FullSet());
    var post := RuleWithin(d, rules, |rules|, k);
    var a, e := pos[k], pos[k] + |c|;
    GenLead(d, rules, rules[k], false, NoTest, FullSet());
    LeadShift(GenRules(true, d, rules, k), c, [Op(IRet)] + post, x);
    assert body[e] == Op(IRet);
    RulesWhole(true, d, rules, |rules|);
    BodyLeads(d, rules, body, pos, a, e, x);
  }

  lemma BodyLeads(d: nat, rules: seq<Tree>, body: Code, pos: seq<int>, a: nat, e: nat, x: Lead)
    requires CallsDefined(rules) && body == GenRules(true, d, rules, |rules|) && pos == Positions(true, d, rules)
    requires Whole(body) && e < |body| && IsOp(body, e, IRet) && LeadFrom(body, a, e, x)
    ensures var code := CorrectCalls(body, 0, pos);
      if x.ToCall? && x.last then x.rule < |rules| && exists n: nat :: n > 0 && Jumps(code, a, pos[x.rule], n)
      else Ends(code, a)
  {
    hide Gen, CorrectCalls, GenRules, Jumps, CallAt;
    var code := CorrectCalls(body, 0, pos);
    assert Parses(body, 0, 0);
    CorrectCallsCells(body, 0, pos, code);
    ClosedKeeps(body, code, pos);
    match x
    case Stands =>
      var n: nat, q :| Jumps(body, a, q, n) && a <= q < e && Other(body, q) && !IsOpen(body[q]);
      JumpsLift(body, code, 0, a, q, n);
      assert ClosedCell(body, code, q, pos);
    case Through =>
      var n: nat :| Jumps(body, a, e, n);
      JumpsLift(body, code, 0, a, e, n);
      assert ClosedCell(body, code, e, pos);
    case ToCall(j, last) =>
      var n: nat, q :| Jumps(body, a, q, n) && a <= q && CallAt(body, q, e, j, last);
      JumpsLift(body, code, 0, a, q, n);
      CallCell(body, q, e, j, last);
      OpenDefined(d, rules, q);
      ClosedAs(body, pos, q, e, j, last);
      if last { OneMore(code, a, q, n); }
  }

  lemma CallCell(c: Code, q: int, e: int, k: nat, last: bool)
    requires CallAt(c, q, e, k, last)
    ensures 0 <= q && q + 1 < |c| && c[q] == I(IOpenCall, 0, k)
  {
  }

  lemma OneMore(code: Code, a: int, q: int, n: nat)
    requires Jumps(code, a, q, n) && JumpAt(code, q)
    ensures Jumps(code, a, Target(code, q), n + 1)
  {
    assert Jumps(code, Target(code, q), Target(code, q), 0);
    assert Jumps(code, q, Target(code, q), 1);
    JumpsTrans(code, a, q, n, Target(code, q), 1);
  }

  lemma {:induction false} OutEnds(d: nat, rules: seq<Tree>, k: nat, n: nat)
    requires CallsDefined(rules) && k < |rules| && GetsOut(d, rules, k, n)
    ensures Ends(ClosedBody(d, rules), Positions(true, d, rules)[k])
    decreases n
  {
    hide Jumps, LeadOf, ClosedBody, Positions;
    RuleLeads(d, rules, k);
    var x, code, pos := LeadOf(d, rules, rules[k], FullSet()), ClosedBody(d, rules), Positions(true, d, rules);
    if x.ToCall? && x.last {
      OutEnds(d, rules, x.rule, n - 1);
      var m: nat :| m > 0 && Jumps(code, pos[k], pos[x.rule], m);
      var i: nat, q :| Jumps(code, pos[x.rule], q, i) && q >= 0 && !JumpAt(code, q);
      JumpsTrans(code, pos[k], pos[x.rule], m, q, i);
    }
  }

  lemma {:induction false} EndsOut(d: nat, rules: seq<Tree>, k: nat, q: int, n: nat)
    requires CallsDefined(rules) && k < |rules|
    requires Jumps(ClosedBody(d, rules), Positions(true, d, rules)[k], q, n) && !JumpAt(ClosedBody(d, rules), q)
    ensures GetsOut(d, rules, k, n)
    decreases n
  {
    hide LeadOf, ClosedBody, Positions;
    RuleLeads(d, rules, k);
    var x, code, pos := LeadOf(d, rules, rules[k], FullSet()), ClosedBody(d, rules), Positions(true, d, rules);
    if x.ToCall? && x.last {
      var m: nat :| m > 0 && Jumps(code, pos[k], pos[x.rule], m);
      if m <= n {
        JumpsDeterministic(code, pos[k], pos[x.rule], m, q, n);
        EndsOut(d, rules, x.rule, q, n - m);
        GetsOutMore(d, rules, x.rule, n - m, n - 1);
      } else {
        JumpsDeterministic(code, pos[k], q, n, pos[x.rule], m);
      }
    }
  }

  /** The chain from the start of a rule ends exactly if the rule gets out. */
  lemma EndsExactly(d: nat, rules: seq<Tree>, k: nat)
    requires CallsDefined(rules) && k < |rules|
    ensures Ends(ClosedBody(d, rules), Positions(true, d, rules)[k]) <==> GetsOut(d, rules, k, |rules|)
  {
    hide Jumps, ClosedBody, Positions, GetsOut;
    if GetsOut(d, rules, k, |rules|) { OutEnds(d, rules, k, |rules|); }
    var code, p := ClosedBody(d, rules), Positions(true, d, rules)[k];
    if Ends(code, p) {
      var n: nat, q :| Jumps(code, p, q, n) && q >= 0 && !JumpAt(code, q);
      EndsOut(d, rules, k, q, n);
      OutInTime(d, rules, k, n);
    }
  }

  /** The chains from the starts of all rules end. */
  ghost predicate StartsEnd(d: nat, rules: seq<Tree>) {
    forall k: nat | k < |rules| :: Ends(ClosedBody(d, rules), Positions(true, d, rules)[k])
  }

  lemma NoCircleEnds(d: nat, rules: seq<Tree>)
    requires CallsDefined(rules)
    ensures NoCircle(d, rules) <==> StartsEnd(d, rules)
  {
    hide Ends, GetsOut, ClosedBody, Positions;
    forall k: nat | k < |rules| ensures Ends(ClosedBody(d, rules), Positions(true, d, rules)[k]) <==> GetsOut(d, rules, k, |rules|) {
      EndsExactly(d, rules, k);
    }
  }

  // A call that was closed as a jump leads to the start of its rule.
  lemma ClosedJumpEnds(d: nat, rules: seq<Tree>, body: Code, code: Code, pos: seq<int>, q: nat)
    requires CallsDefined(rules) && StartsEnd(d, rules)
    requires body == GenRules(true, d, rules, |rules|) && pos == Positions(true, d, rules) && code == CorrectCalls(body, 0, pos)
    requires q < |body| && IsOpen(body[q]) && ClosedCell(body, code, q, pos) && IsOp(code, q, IJmp)
    ensures HasLabel(code, q) && Target(code, q) >= 0 && Ends(code, Target(code, q))
  {
    hide Gen, GenRules, CorrectCalls, Ends;
    OpenDefined(d, rules, q);
  }

  lemma ClosedAdvances(d: nat, rules: seq<Tree>, body: Code, code: Code, pos: seq<int>)
    requires CallsDefined(rules) && StartsEnd(d, rules)
    requires body == GenRules(true, d, rules, |rules|) && pos == Positions(true, d, rules) && code == CorrectCalls(body, 0, pos)
    requires Advances(body)
    ensures Advances(code)
  {
    hide Gen, GenRules, CorrectCalls, CallsDefined, StartsEnd;
    RulesWhole(true, d, rules, |rules|);
    assert Parses(body, 0, 0);
    CorrectCallsCells(body, 0, pos, code);
    ClosedKeeps(body, code, pos);
    forall q | IsOp(code, q, IJmp) ensures AdvancesAt(code, q) {
      assert ClosedCell(body, code, q, pos);
      if IsOpen(body[q]) {
        ClosedJumpEnds(d, rules, body, code, pos, q);
        var n: nat, r :| Jumps(code, Target(code, q), r, n) && r >= 0 && !JumpAt(code, r);
        assert Jumps(code, q, r, n + 1);
      } else {
        assert AdvancesAt(body, q);
        var n: nat, r :| n > 0 && Jumps(body, q, r, n) && r >= 0 && (r > q || !JumpAt(body, r));
        JumpsLift(body, code, 0, q, r, n);
        if r <= q && JumpAt(code, r) {
          assert ClosedCell(body, code, r, pos);
          assert IsOp(body, r, IJmp) ==> AdvancesAt(body, r);
          ClosedJumpEnds(d, rules, body, code, pos, r);
          var m: nat, r' :| Jumps(code, Target(code, r), r', m) && r' >= 0 && !JumpAt(code, r');
          assert Jumps(code, r, r', m + 1);
          JumpsTrans(code, q, r, n, r', m + 1);
        }
      }
    }
  }

  // ----- all emitted code

  /** In the code of any tree whose sub-grammars have no circle, chains of jumps advance. */
  lemma {:induction false} GenAdvances(d: nat, g: seq<Tree>, t: Tree, opt: bool, tt: Test, fl: Charset)
    requires Defined(t) && Compiles(d, g, t)
    ensures Advances(Gen(true, d, g, t, opt, tt, fl))
    decreases t, 0
  {
    hide Advances, Checkaux, Fixedlen, Getfirst, Headfail, Disjoint, KindOf, Closed, GenRules,
         TestThenElse, OrElse, TestLoop, ChoiceLoop, NotCells, AndCells;
    match t
    case TChoice(p1, p2) =>
      var f1 := Getfirst(d, g, p1, FullSet());
      var c2 := Gen(true, d, g, p2, opt, NoTest, fl);
      GenAdvances(d, g, p2, opt, NoTest, fl);
      if ChoiceByTest(d, g, p1, p2, fl) {
        GenAdvances(d, g, p1, false, TestOf(f1.cs), fl);
        ThenElseAdvances(f1.cs, Gen(true, d, g, p1, false, TestOf(f1.cs), fl), c2, p2.TTrue?);
      } else if opt && p2.TTrue? {
        GenAdvances(d, g, p1, true, NoTest, FullSet());
        PlainAdvances(IPartialCommit, 2);
        AdvancesCat(Jump(IPartialCommit, 2), Gen(true, d, g, p1, true, NoTest, FullSet()));
      } else {
        GenAdvances(d, g, p1, p2.TTrue?, OptTestOf(f1), FullSet());
        OrElseAdvances(f1, Gen(true, d, g, p1, p2.TTrue?, OptTestOf(f1), FullSet()), c2);
      }
    case TRep(p) =>
      var f := Getfirst(d, g, p, FullSet());
      if IsCharPattern(p) {
        LeafAdvances(d, g, t, opt, tt, fl);
      } else {
        GenAdvances(d, g, p, false, TestOf(f.cs), FullSet());
        GenAdvances(d, g, p, false, NoTest, FullSet());
        TestLoopAdvances(f.cs, Gen(true, d, g, p, false, TestOf(f.cs), FullSet()));
        ChoiceLoopAdvances(f, opt, Gen(true, d, g, p, false, NoTest, FullSet()));
      }
    case TBehind(n, p) =>
      GenAdvances(d, g, p, false, NoTest, FullSet());
      AndAdvances(n, Gen(true, d, g, p, false, NoTest, FullSet()));
    case TNot(p) =>
      var c := Gen(true, d, g, p, false, NoTest, FullSet());
      if Headfail(d, g, p) {
        FailAdvances(Getfirst(d, g, p, FullSet()), c);
      } else {
        GenAdvances(d, g, p, false, NoTest, FullSet());
        NotAdvances(Getfirst(d, g, p, FullSet()), c);
      }
    case TAnd(p) =>
      GenAdvances(d, g, p, false, tt, FullSet());
      AndAdvances(Fixedlen(d, g, p), Gen(true, d, g, p, false, tt, FullSet()));
    case TSeq(p1, p2) =>
      GenAdvances(d, g, p1, false, tt, SeqFollow(d, g, p1, p2, fl));
      GenAdvances(d, g, p2, opt, SeqTest(d, g, p1, tt), fl);
      AdvancesCat(Gen(true, d, g, p1, false, tt, SeqFollow(d, g, p1, p2, fl)),
                  Gen(true, d, g, p2, opt, SeqTest(d, g, p1, tt), fl));
    case TGrammar(rules) =>
      var body, pos := GenRules(true, d, rules, |rules|), Positions(true, d, rules);
      RulesAdvances(d, rules, |rules|);
      GrammarAdvances(d, rules, body, pos);
    case TChar(_) => LeafAdvances(d, g, t, opt, tt, fl);
    case TSet(_) => LeafAdvances(d, g, t, opt, tt, fl);
    case TAny => LeafAdvances(d, g, t, opt, tt, fl);
    case TTrue => LeafAdvances(d, g, t, opt, tt, fl);
    case TFalse => LeafAdvances(d, g, t, opt, tt, fl);
    case TCall(_) => LeafAdvances(d, g, t, opt, tt, fl);
  }

  lemma LeafAdvances(d: nat, g: seq<Tree>, t: Tree, opt: bool, tt: Test, fl: Charset)
    requires t.TChar? || t.TSet? || t.TAny? || t.TTrue? || t.TFalse? || t.TCall? || (t.TRep? && IsCharPattern(t.p))
    ensures Advances(Gen(true, d, g, t, opt, tt, fl))
  {
    NoJumpAdvances(Gen(true, d, g, t, opt, tt, fl));
  }

  lemma GrammarAdvances(d: nat, rules: seq<Tree>, body: Code, pos: seq<int>)
    requires CallsDefined(rules) && NoCircle(d, rules) && Advances(body)
    requires body == GenRules(true, d, rules, |rules|) && pos == Positions(true, d, rules)
    ensures Advances(Jump(ICall, 4) + Jump(IJmp, 2 + |body|) + Closed(true, body, pos))
  {
    hide Advances, Gen, GenRules, CallsDefined, NoCircle, StartsEnd;
    NoCircleEnds(d, rules);
    ClosedAdvances(d, rules, body, CorrectCalls(body, 0, pos), pos);
    PlainAdvances(ICall, 4);
    ForwardAdvances(2 + |body|);
    AdvancesCat(Jump(ICall, 4), Jump(IJmp, 2 + |body|));
    AdvancesCat(Jump(ICall, 4) + Jump(IJmp, 2 + |body|), Closed(true, body, pos));
  }

  lemma {:induction false} RulesAdvances(d: nat, rules: seq<Tree>, n: nat)
    requires n <= |rules| && forall k: nat | k < |rules| :: Defined(rules[k]) && Compiles(d, rules, rules[k])
    ensures Advances(GenRules(true, d, rules, n))
    decreases rules, n
  {
    hide Advances, Gen;
    if n == 0 {
      NoJumpAdvances([]);
    } else {
      var before, c := GenRules(true, d, rules, n - 1), Gen(true, d, rules, rules[n - 1], false, NoTest, FullSet());
      RulesAdvances(d, rules, n - 1);
      GenAdvances(d, rules, rules[n - 1], false, NoTest, FullSet());
      PlainAdvances(IRet, 0);
      AdvancesCat(before, c);
      AdvancesCat(before + c, [Op(IRet)]);
    }
  }

  /** In the program of a pattern without such a circle every chain of jumps ends. */
  lemma ProgramEnds(d: nat, t: Tree, p: int)
    requires Defined(t) && Compiles(d, [], t) && p >= 0
    ensures Ends(Program(true, d, t), p)
  {
    hide Advances, Gen;
    GenAdvances(d, [], t, false, NoTest, FullSet());
    PlainAdvances(IEnd, 0);
    AdvancesCat(Gen(true, d, [], t, false, NoTest, FullSet()), [Op(IEnd)]);
    AllEnd(Program(true, d, t), p);
  }

  // ----- circles do not end

  ghost predicate LongChain(c: Code, p: int, n: nat) {
    exists q: int :: Jumps(c, p, q, n)
  }

  /** The jumps from p go on and on. */
  ghost predicate Endless(c: Code, p: int) {
    forall n: nat :: LongChain(c, p, n)
  }

  lemma EndlessNeverEnds(c: Code, p: int)
    requires Endless(c, p)
    ensures forall q: int, n: nat :: Jumps(c, p, q, n) ==> JumpAt(c, q)
  {
    forall q: int, n: nat | Jumps(c, p, q, n) ensures JumpAt(c, q) {
      assert LongChain(c, p, n + 1);
      var r :| Jumps(c, p, r, n + 1);
      JumpsDeterministic(c, p, q, n, r, n + 1);
    }
  }

  lemma {:induction false} ChainPart(c: Code, p: int, q: int, n: nat, m: nat)
    requires Jumps(c, p, q, n) && m <= n
    ensures LongChain(c, p, m)
    decreases m
  {
    if m == 0 {
      assert Jumps(c, p, p, 0);
    } else {
      ChainPart(c, Target(c, p), q, n - 1, m - 1);
      var r :| Jumps(c, Target(c, p), r, m - 1);
      assert Jumps(c, p, r, m);
    }
  }

  lemma EndlessLift(x: Code, y: Code, a: int, p: int)
    requires JumpsKept(x, y, a) && Endless(x, p)
    ensures Endless(y, a + p)
  {
    var b := a + p;
    forall n: nat ensures LongChain(y, b, n) {
      assert LongChain(x, p, n);
      var q :| Jumps(x, p, q, n);
      JumpsLift(x, y, a, p, q, n);
    }
  }

  lemma {:induction false} CircleLong(d: nat, rules: seq<Tree>, k: nat, n: nat)
    requires CallsDefined(rules) && k < |rules| && forall m: nat :: !GetsOut(d, rules, k, m)
    ensures LongChain(ClosedBody(d, rules), Positions(true, d, rules)[k], n)
    decreases n
  {
    hide Jumps, LeadOf, ClosedBody, Positions;
    RuleLeads(d, rules, k);
    assert !GetsOut(d, rules, k, 1);
    var x, code, pos := LeadOf(d, rules, rules[k], FullSet()), ClosedBody(d, rules), Positions(true, d, rules);
    var j := x.rule;
    var m: nat :| m > 0 && Jumps(code, pos[k], pos[j], m);
    if n <= m {
      ChainPart(code, pos[k], pos[j], m, n);
    } else {
      forall i: nat ensures !GetsOut(d, rules, j, i) { assert !GetsOut(d, rules, k, i + 1); }
      CircleLong(d, rules, j, n - m);
      var q :| Jumps(code, pos[j], q, n - m);
      JumpsTrans(code, pos[k], pos[j], m, q, n - m);
    }
  }

  /** A rule that does not get out starts a chain that goes on and on. */
  lemma CircleEndless(d: nat, rules: seq<Tree>, k: nat)
    requires CallsDefined(rules) && k < |rules| && !GetsOut(d, rules, k, |rules|)
    ensures Endless(ClosedBody(d, rules), Positions(true, d, rules)[k])
  {
    hide ClosedBody, Positions, GetsOut, LongChain;
    forall m: nat ensures !GetsOut(d, rules, k, m) { if GetsOut(d, rules, k, m) { OutInTime(d, rules, k, m); } }
    forall n: nat ensures LongChain(ClosedBody(d, rules), Positions(true, d, rules)[k], n) { CircleLong(d, rules, k, n); }
  }

  // Somewhere in the code.
  ghost predicate HasEndless(c: Code) {
    exists p: int :: Endless(c, p)
  }

  lemma EndlessIn(pre: Code, x: Code, post: Code)
    requires HasEndless(x)
    ensures HasEndless(pre + x + post)
  {
    hide Endless;
    var p :| Endless(x, p);
    KeptInside(pre, x, post);
    EndlessLift(x, pre + x + post, |pre|, p);
  }

  lemma EndlessInRules(d: nat, rules: seq<Tree>, k: nat)
    requires k < |rules| && HasEndless(Gen(true, d, rules, rules[k], false, NoTest, FullSet()))
    ensures HasEndless(ClosedBody(d, rules))
  {
    hide Gen, CorrectCalls, GenRules, Endless;
    var body, c, pos := GenRules(true, d, rules, |rules|), Gen(true, d, rules, rules[k], false, NoTest, FullSet()), Positions(true, d, rules);
    var post := RuleWithin(d, rules, |rules|, k);
    EndlessIn(GenRules(true, d, rules, k), c, [Op(IRet)] + post);
    RulesWhole(true, d, rules, |rules|);
    assert Parses(body, 0, 0);
    CorrectCallsCells(body, 0, pos, CorrectCalls(body, 0, pos));
    ClosedKeeps(body, CorrectCalls(body, 0, pos), pos);
    var p :| Endless(body, p);
    EndlessLift(body, CorrectCalls(body, 0, pos), 0, p);
  }

  lemma EndlessGrammar(d: nat, g: seq<Tree>, rules: seq<Tree>, opt: bool, tt: Test, fl: Charset)
    requires HasEndless(ClosedBody(d, rules))
    ensures HasEndless(Gen(true, d, g, TGrammar(rules), opt, tt, fl))
  {
    hide HasEndless, GenRules, CorrectCalls;
    var head := Jump(ICall, 4) + Jump(IJmp, 2 + |GenRules(true, d, rules, |rules|)|);
    EndlessIn(head, ClosedBody(d, rules), []);
    assert head + ClosedBody(d, rules) + [] == Gen(true, d, g, TGrammar(rules), opt, tt, fl);
  }

  lemma EndlessChoice(f: First, cs: Charset, c1: Code, c2: Code, emptyp2: bool)
    requires HasEndless(c1) || HasEndless(c2)
    ensures HasEndless(TestThenElse(cs, c1, c2, emptyp2)) && HasEndless(OrElse(f, c1, c2))
  {
    hide HasEndless, TestCells, OptTest;
    var jmp := if emptyp2 then [] else Jump(IJmp, 2 + |c2|);
    var test := TestCells(cs, TestSize(cs) + |c1| + |jmp|);
    var y := TestThenElse(cs, c1, c2, emptyp2);
    assert test + c1 + (jmp + c2) == y && (test + c1 + jmp) + c2 + [] == y;
    var head := OptTest(f, 2 + |c1| + 2) + Jump(IChoice, 2 + |c1| + 2);
    var z := OrElse(f, c1, c2);
    assert head + c1 + (Jump(ICommit, 2 + |c2|) + c2) == z && (head + c1 + Jump(ICommit, 2 + |c2|)) + c2 + [] == z;
    if HasEndless(c1) {
      EndlessIn(test, c1, jmp + c2);
      EndlessIn(head, c1, Jump(ICommit, 2 + |c2|) + c2);
    } else {
      EndlessIn(test + c1 + jmp, c2, []);
      EndlessIn(head + c1 + Jump(ICommit, 2 + |c2|), c2, []);
    }
  }

  lemma EndlessWrapped(f: First, opt: bool, n: int, c: Code)
    requires HasEndless(c)
    ensures HasEndless(TestLoop(f.cs, c)) && HasEndless(ChoiceLoop(f, opt, c)) && HasEndless(NotCells(f, false, c))
    ensures HasEndless(AndCells(n, c)) && HasEndless(BehindCells(n) + c)
  {
    hide HasEndless, TestCells, OptTest;
    EndlessIn(TestCells(f.cs, TestSize(f.cs) + |c| + 2), c, Jump(IJmp, -(TestSize(f.cs) + |c|)));
    var head := if opt then Jump(IPartialCommit, 2) else Jump(IChoice, 2 + |c| + 2);
    EndlessIn(OptTest(f, 2 + |c| + 2) + head, c, Jump(IPartialCommit, -|c|));
    EndlessIn(OptTest(f, 2 + |c| + 1) + Jump(IChoice, 2 + |c| + 1), c, [Op(IFailTwice)]);
    EndlessIn([], c, BehindCells(n));
    assert [] + c + BehindCells(n) == c + BehindCells(n);
    EndlessIn(BehindCells(n), c, []);
    assert BehindCells(n) + c + [] == BehindCells(n) + c;
    var choice, back := Jump(IChoice, 2 + |c| + 2), Jump(IBackCommit, 3);
    EndlessIn(choice, c, back + [Op(IFail)]);
    assert choice + c + (back + [Op(IFail)]) == choice + c + back + [Op(IFail)];
  }

  /** A circle in a sub-grammar stays in the code of the pattern. */
  lemma {:induction false} GenEndless(d: nat, g: seq<Tree>, t: Tree, opt: bool, tt: Test, fl: Charset)
    requires Defined(t) && !Compiles(d, g, t)
    ensures HasEndless(Gen(true, d, g, t, opt, tt, fl))
    decreases t
  {
    hide HasEndless, Checkaux, Fixedlen, Getfirst, Headfail, Disjoint, KindOf, Closed, GenRules, GetsOut,
         TestThenElse, OrElse, TestLoop, ChoiceLoop, NotCells, AndCells;
    match t
    case TChoice(p1, p2) =>
      var f1 := Getfirst(d, g, p1, FullSet());
      if !Compiles(d, g, p2) { GenEndless(d, g, p2, opt, NoTest, fl); }
      if ChoiceByTest(d, g, p1, p2, fl) {
        if !Compiles(d, g, p1) { GenEndless(d, g, p1, false, TestOf(f1.cs), fl); }
        EndlessChoice(f1, f1.cs, Gen(true, d, g, p1, false, TestOf(f1.cs), fl), Gen(true, d, g, p2, opt, NoTest, fl), p2.TTrue?);
      } else if opt && p2.TTrue? {
        var c := Gen(true, d, g, p1, true, NoTest, FullSet());
        GenEndless(d, g, p1, true, NoTest, FullSet());
        EndlessIn(Jump(IPartialCommit, 2), c, []);
        assert Jump(IPartialCommit, 2) + c + [] == Jump(IPartialCommit, 2) + c;
      } else {
        if !Compiles(d, g, p1) { GenEndless(d, g, p1, p2.TTrue?, OptTestOf(f1), FullSet()); }
        EndlessChoice(f1, f1.cs, Gen(true, d, g, p1, p2.TTrue?, OptTestOf(f1), FullSet()), Gen(true, d, g, p2, opt, NoTest, fl), p2.TTrue?);
      }
    case TRep(p) =>
      var f := Getfirst(d, g, p, FullSet());
      assert !IsCharPattern(p);
      if RepByTest(d, g, p, fl) {
        GenEndless(d, g, p, false, TestOf(f.cs), FullSet());
        EndlessWrapped(f, opt, 0, Gen(true, d, g, p, false, TestOf(f.cs), FullSet()));
      } else {
        GenEndless(d, g, p, false, NoTest, FullSet());
        EndlessWrapped(f, opt, 0, Gen(true, d, g, p, false, NoTest, FullSet()));
      }
    case TBehind(n, p) =>
      GenEndless(d, g, p, false, NoTest, FullSet());
      EndlessWrapped(First(true, fl), opt, n, Gen(true, d, g, p, false, NoTest, FullSet()));
    case TNot(p) =>
      GenEndless(d, g, p, false, NoTest, FullSet());
      EndlessWrapped(Getfirst(d, g, p, FullSet()), opt, 0, Gen(true, d, g, p, false, NoTest, FullSet()));
    case TAnd(p) =>
      GenEndless(d, g, p, false, tt, FullSet());
      EndlessWrapped(First(true, fl), opt, Fixedlen(d, g, p), Gen(true, d, g, p, false, tt, FullSet()));
    case TSeq(p1, p2) =>
      var c1 := Gen(true, d, g, p1, false, tt, SeqFollow(d, g, p1, p2, fl));
      var c2 := Gen(true, d, g, p2, opt, SeqTest(d, g, p1, tt), fl);
      if !Compiles(d, g, p1) {
        GenEndless(d, g, p1, false, tt, SeqFollow(d, g, p1, p2, fl));
        EndlessIn([], c1, c2);
        assert [] + c1 + c2 == c1 + c2;
      } else {
        GenEndless(d, g, p2, opt, SeqTest(d, g, p1, tt), fl);
        EndlessIn(c1, c2, []);
        assert c1 + c2 + [] == c1 + c2;
      }
    case TGrammar(rules) =>
      if k: nat :| k < |rules| && !Compiles(d, rules, rules[k]) {
        GenEndless(d, rules, rules[k], false, NoTest, FullSet());
        EndlessInRules(d, rules, k);
      } else {
        var j: nat :| j < |rules| && !GetsOut(d, rules, j, |rules|);
        CircleEndless(d, rules, j);
        SomeEndless(ClosedBody(d, rules), Positions(true, d, rules)[j]);
      }
      EndlessGrammar(d, g, rules, opt, tt, fl);
  }

  lemma SomeEndless(c: Code, p: int)
    requires Endless(c, p)
    ensures HasEndless(c)
  {
  }

  /** Exactly the patterns without such a circle have a program whose chains of jumps all end. */
  lemma CompilesExactly(d: nat, t: Tree)
    requires Defined(t)
    ensures Compiles(d, [], t) <==> forall p: int | p >= 0 :: Ends(Program(true, d, t), p)
  {
    hide Gen, Ends, Endless;
    var c, code := Gen(true, d, [], t, false, NoTest, FullSet()), Program(true, d, t);
    if Compiles(d, [], t) {
      forall p: int | p >= 0 ensures Ends(code, p) { ProgramEnds(d, t, p); }
    } else {
      GenEndless(d, [], t, false, NoTest, FullSet());
      EndlessIn([], c, [Op(IEnd)]);
      assert [] + c + [Op(IEnd)] == code;
      var p :| Endless(code, p);
      EndlessNotEnds(code, p);
    }
  }

  lemma EndlessNotEnds(c: Code, p: int)
    requires Endless(c, p)
    ensures p >= 0 && !Ends(c, p)
  {
    EndlessNeverEnds(c, p);
    assert LongChain(c, p, 1);
  }

  // ----- what the repaired check accepts

  /** The grammars that the repaired check accepts have no circle. */
  lemma {:induction false} FineCompiles(d: nat, g: seq<Tree>, t: Tree)
    requires G.Fine(d, t) && TreeOk(d, t)
    ensures Defined(t) && Compiles(d, g, t)
    decreases t
  {
    hide GetsOut, Headfail, G.RulesFine;
    match t
    case TRep(p) => FineCompiles(d, g, p);
    case TNot(p) => FineCompiles(d, g, p);
    case TAnd(p) => FineCompiles(d, g, p);
    case TBehind(_, p) => FineCompiles(d, g, p);
    case TSeq(p1, p2) => FineCompiles(d, g, p1); FineCompiles(d, g, p2);
    case TChoice(p1, p2) => FineCompiles(d, g, p1); FineCompiles(d, g, p2);
    case TGrammar(rules) =>
      FineDefined(d, rules);
      forall k: nat | k < |rules| ensures Defined(rules[k]) && Compiles(d, rules, rules[k]) { FineCompiles(d, rules, rules[k]); }
      forall k: nat | k < |rules| ensures GetsOut(d, rules, k, |rules|) { FineGetsOut(d, rules, k); }
    case _ =>
  }

  lemma FineDefined(d: nat, rules: seq<Tree>)
    requires G.RulesFine(d, rules)
    ensures CallsDefined(rules)
  {
  }

  lemma FineGetsOut(d: nat, rules: seq<Tree>, k: nat)
    requires G.Fine(d, TGrammar(rules)) && RulesOk(d, rules) && k < |rules|
    ensures GetsOut(d, rules, k, |rules|)
  {
    hide Ends;
    FineDefined(d, rules);
    if G.Used(rules, k) {
      RuleChainEnds(d, rules, k);
      EndsExactly(d, rules, k);
    } else {
      var x := LeadOf(d, rules, rules[k], FullSet());
      if x.ToCall? && x.last {
        LeadCalls(d, rules, rules[k], FullSet());
        assert G.CallsRule(rules[k], x.rule) && G.Used(rules, x.rule);
        RuleChainEnds(d, rules, x.rule);
        EndsExactly(d, rules, x.rule);
        OutInTime(d, rules, k, |rules| + 1);
      }
    }
  }

  lemma {:induction false} LeadCalls(d: nat, g: seq<Tree>, t: Tree, fl: Charset)
    requires LeadOf(d, g, t, fl).ToCall?
    ensures G.CallsRule(t, LeadOf(d, g, t, fl).rule)
    decreases t
  {
    match t
    case TChoice(p1, p2) => LeadCalls(d, g, p2, fl);
    case TBehind(n, p) => LeadCalls(d, g, p, FullSet());
    case TAnd(p) => LeadCalls(d, g, p, FullSet());
    case TSeq(p1, p2) =>
      if LeadOf(d, g, p1, SeqFollow(d, g, p1, p2, fl)).ToCall? { LeadCalls(d, g, p1, SeqFollow(d, g, p1, p2, fl)); }
      else { LeadCalls(d, g, p2, fl); }
    case _ =>
  }

  // ----- a pattern that the code accepts and cannot compile

  // A grammar whose only rule never matches.
  const NEVER := TGrammar([TFalse])

  /** A rule that repeats a sub-grammar and calls itself. The repetition is compiled to a jump over its body. */
  const JUMP_LOOP := TSeq(TRep(NEVER), TCall(0))

  lemma JumpLoopAccepted(d: nat)
    ensures G.Verifygrammar(d, [JUMP_LOOP]) && TreeOk(d, JUMP_LOOP)
  {
    var g := [JUMP_LOOP];
    NeverFacts(d, g);
    assert G.Verifyrule(d, g, TRep(NEVER), 0, false) == G.Nb(false);
    assert !G.Checkloops(d, g, TRep(NEVER)) && TreeOk(d, TRep(NEVER)) && TreeOk(d, TCall(0));
    forall k: nat ensures G.CallsRule(JUMP_LOOP, k) ==> k == 0 {
      assert !G.CallsRule(NEVER, k) && !G.CallsRule(TRep(NEVER), k);
      assert G.CallsRule(TCall(0), k) ==> k == 0;
    }
    G.OneRule(d, JUMP_LOOP);
  }

  /** It is a circle of one rule. */
  lemma JumpLoopCircle(d: nat)
    ensures Defined(TGrammar([JUMP_LOOP])) && !Compiles(d, [], TGrammar([JUMP_LOOP]))
  {
    hide Checkaux, Fixedlen, Getfirst, Disjoint, KindOf;
    var g := [JUMP_LOOP];
    NeverFacts(d, g);
    EmptyKind();
    assert LeadOf(d, g, JUMP_LOOP, FullSet()) == ToCall(0, true);
    assert !GetsOut(d, g, 0, 1);
    assert g[0] == JUMP_LOOP;
    forall k: nat ensures G.CallsRule(JUMP_LOOP, k) ==> k == 0 {
      assert !G.CallsRule(NEVER, k) && !G.CallsRule(TRep(NEVER), k);
      assert G.CallsRule(TCall(0), k) ==> k == 0;
    }
  }

  lemma NeverFacts(d: nat, g: seq<Tree>)
    ensures !Nullable(d, g, NEVER) && TreeOk(d, NEVER) && Headfail(d, g, NEVER) && !IsCharPattern(NEVER)
    ensures forall fl :: Getfirst(d, g, NEVER, fl) == First(false, EmptySet())
  {
    var rules := [TFalse];
    assert NEVER.rules == rules && rules[0] == TFalse;
    assert !Checkaux(d, rules, TFalse, PENullable) && Headfail(d, rules, TFalse);
    assert forall k | 0 <= k < |rules| :: rules[k] == TFalse;
    assert TreeOk(d, TFalse);
    forall fl ensures Getfirst(d, g, NEVER, fl) == First(false, EmptySet()) {
      assert Getfirst(d, rules, TFalse, fl) == First(false, EmptySet());
    }
  }

  // The code of the sub-grammar.
  const NEVER_CODE: Code := [Op(ICall), Off(4), Op(IJmp), Off(4), Op(IFail), Op(IRet)]

  lemma NeverCode(d: nat, g: seq<Tree>, opt: bool, tt: Test, fl: Charset)
    ensures Gen(true, d, g, NEVER, opt, tt, fl) == NEVER_CODE
  {
    var rules := [TFalse];
    assert NEVER.rules == rules && rules[0] == TFalse;
    var body := GenRules(true, d, rules, 1);
    assert GenRules(true, d, rules, 0) == [] && Gen(true, d, rules, TFalse, false, NoTest, FullSet()) == [Op(IFail)];
    assert body == [Op(IFail), Op(IRet)];
    var pos := Positions(true, d, rules);
    assert CorrectCalls(body, 2, pos) == body;
    assert CorrectCalls(body, 1, pos) == body;
    assert CorrectCalls(body, 0, pos) == body;
  }

  const LOOP_BODY: Code := [Op(IJmp), Off(10)] + NEVER_CODE + [Op(IJmp), Off(-8), I(IOpenCall, 0, 0), Op(IAny), Op(IRet)]

  lemma JumpLoopBody(d: nat)
    ensures GenRules(true, d, [JUMP_LOOP], 1) == LOOP_BODY
  {
    hide Checkaux, Fixedlen, Getfirst, Headfail, Disjoint, KindOf;
    var g := [JUMP_LOOP];
    NeverFacts(d, g);
    EmptyKind();
    NeverCode(d, g, false, TestOf(EmptySet()), FullSet());
    var fl := SeqFollow(d, g, TRep(NEVER), TCall(0), FullSet());
    assert RepByTest(d, g, NEVER, fl);
    assert Gen(true, d, g, TRep(NEVER), false, NoTest, fl) == TestLoop(EmptySet(), NEVER_CODE);
    assert TestLoop(EmptySet(), NEVER_CODE) == [Op(IJmp), Off(10)] + NEVER_CODE + [Op(IJmp), Off(-8)];
    assert GenRules(true, d, g, 0) == [] && g[0] == JUMP_LOOP;
  }

  lemma EmptyKind()
    ensures KindOf(EmptySet()) == Empty
  {
  }

  /** The chain of jumps at the start of the rule never ends, and neither does the compiler that follows it. */
  lemma JumpLoopHangs(d: nat, n: nat, q: int)
    ensures var code := CorrectCalls(GenRules(true, d, [JUMP_LOOP], 1), 0, Positions(true, d, [JUMP_LOOP]));
      Jumps(code, 0, q, n) ==> JumpAt(code, q)
  {
    var body, pos := LOOP_BODY, Positions(true, d, [JUMP_LOOP]);
    JumpLoopBody(d);
    assert pos == [0];
    ClosesAtTen(body, pos);
    var code := CorrectCalls(body, 0, pos);
    if Jumps(code, 0, q, n) { LoopStays(code, 0, q, n); }
  }

  lemma ClosesAtTen(body: Code, pos: seq<int>)
    requires body == LOOP_BODY && pos == [0]
    ensures var code := CorrectCalls(body, 0, pos);
      code == body[10 := I(IJmp, 0, 0)][11 := Off(-10)]
  {
    assert Jumps(body, 12, 12, 0) && IsOp(body, 12, IRet);
    var code := CloseCall(body, 10, pos);
    assert code == body[10 := I(IJmp, 0, 0)][11 := Off(-10)];
    assert CorrectCalls(code, 13, pos) == code;
    assert CorrectCalls(code, 12, pos) == code;
    assert CorrectCalls(body, 10, pos) == code;
    assert CorrectCalls(body, 8, pos) == code;
    assert CorrectCalls(body, 7, pos) == code;
    assert CorrectCalls(body, 6, pos) == code;
    assert CorrectCalls(body, 4, pos) == code;
    assert CorrectCalls(body, 2, pos) == code;
  }

  lemma {:induction false} LoopStays(code: Code, p: int, q: int, n: nat)
    requires code == LOOP_BODY[10 := I(IJmp, 0, 0)][11 := Off(-10)] && (p == 0 || p == 10) && Jumps(code, p, q, n)
    ensures JumpAt(code, q)
    decreases n
  {
    if n > 0 { LoopStays(code, Target(code, p), q, n - 1); }
  }
}
