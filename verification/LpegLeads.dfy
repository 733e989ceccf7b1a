// Where jumps lead from the start of emitted code, read off the pattern: to an instruction that is no jump, to the
// end of the code, or to a call. From that follows exactly when the chains of a grammar come to an end.
module LpegLeads {
  import opened Sets
  import opened LpegCharset
  import opened LpegTree
  import opened LpegAnalysis
  import opened LpegVm
  import opened LpegGen
  import opened LpegShape
  import opened LpegCorrect
  import opened LpegTail
  import opened LpegChains
  import G = LpegGrammar

  /** 'last': behind the call nothing but jumps comes before the end. */
  datatype Lead = Stands | Through | ToCall(rule: nat, last: bool)

  function Then(x: Lead, y: Lead): Lead {
    match x
    case Stands => Stands
    case Through => y
    case ToCall(k, last) => ToCall(k, last && y.Through?)
  }

  // The first set of a pattern that never matches; its test is a jump.
  ghost predicate Never(f: First) {
    !f.e && KindOf(f.cs).Empty?
  }

  ghost function LeadOf(d: nat, g: seq<Tree>, t: Tree, fl: Charset): Lead {
    match t
    case TTrue => Through
    case TChoice(p1, p2) => if Never(Getfirst(d, g, p1, FullSet())) then LeadOf(d, g, p2, fl) else Stands
    case TRep(p) => if !IsCharPattern(p) && Never(Getfirst(d, g, p, FullSet())) then Through else Stands
    case TBehind(n, p) => if n == 0 then LeadOf(d, g, p, FullSet()) else Stands
    case TNot(p) => if Never(Getfirst(d, g, p, FullSet())) then Through else Stands
    case TAnd(p) =>
      var n := Fixedlen(d, g, p);
      if 0 <= n <= MAXBEHIND then Then(LeadOf(d, g, p, FullSet()), if n == 0 then Through else Stands) else Stands
    case TSeq(p1, p2) => Then(LeadOf(d, g, p1, SeqFollow(d, g, p1, p2, fl)), LeadOf(d, g, p2, fl))
    case TCall(k) => ToCall(k, true)
    case _ => Stands
  }

  // ----- the same in code

  /** An instruction that is neither a jump nor a return. */
  predicate Other(c: Code, q: int) {
    0 <= q < |c| && !IsOp(c, q, IJmp) && !IsOp(c, q, IRet)
  }

  ghost predicate LeadsTo(c: Code, p: int, e: int) {
    exists n: nat :: Jumps(c, p, e, n)
  }

  ghost predicate LeadsElsewhere(c: Code, p: int, e: int) {
    exists n: nat, r: int :: Jumps(c, p, r, n) && p <= r < e && Other(c, r)
  }

  ghost predicate CallAt(c: Code, q: int, e: int, k: nat, last: bool) {
    && 0 <= q && q + 2 <= e && q + 1 < |c| && c[q] == I(IOpenCall, 0, k)
    && if last then LeadsTo(c, q + 2, e) else LeadsElsewhere(c, q + 2, e)
  }

  /** Where jumps lead from address a of code whose end is at e. */
  ghost predicate LeadFrom(c: Code, a: int, e: int, x: Lead) {
    match x
    case Stands => exists n: nat, q: int :: Jumps(c, a, q, n) && a <= q < e && Other(c, q) && !IsOpen(c[q])
    case Through => exists n: nat :: Jumps(c, a, e, n)
    case ToCall(k, last) => exists n: nat, q: int :: Jumps(c, a, q, n) && a <= q && CallAt(c, q, e, k, last)
  }

  lemma LeadJump(c: Code, a: int, b: int, n: nat, e: int, x: Lead)
    requires Jumps(c, a, b, n) && a <= b && LeadFrom(c, b, e, x)
    ensures LeadFrom(c, a, e, x)
  {
    hide CallAt;
    match x
    case Stands =>
      var m: nat, q :| Jumps(c, b, q, m) && b <= q < e && Other(c, q) && !IsOpen(c[q]);
      JumpsTrans(c, a, b, n, q, m);
    case Through =>
      var m: nat :| Jumps(c, b, e, m);
      JumpsTrans(c, a, b, n, e, m);
    case ToCall(k, last) =>
      var m: nat, q :| Jumps(c, b, q, m) && b <= q && CallAt(c, q, e, k, last);
      JumpsTrans(c, a, b, n, q, m);
  }

  /** Code that is followed by more. */
  lemma LeadOn(c: Code, a: int, b: int, e: int, x: Lead, y: Lead)
    requires LeadFrom(c, a, b, x) && LeadFrom(c, b, e, y) && a <= b <= e
    ensures LeadFrom(c, a, e, Then(x, y))
  {
    match x
    case Stands =>
    case Through =>
      var n: nat :| Jumps(c, a, b, n);
      LeadJump(c, a, b, n, e, y);
    case ToCall(k, last) =>
      var n: nat, q :| Jumps(c, a, q, n) && a <= q && CallAt(c, q, b, k, last);
      CallOn(c, q, b, e, k, last, y);
  }

  lemma CallOn(c: Code, q: int, b: int, e: int, k: nat, last: bool, y: Lead)
    requires CallAt(c, q, b, k, last) && LeadFrom(c, b, e, y) && b <= e
    ensures CallAt(c, q, e, k, last && y.Through?)
  {
    if last {
      var m: nat :| Jumps(c, q + 2, b, m);
      match y
      case Stands =>
        var n: nat, r :| Jumps(c, b, r, n) && b <= r < e && Other(c, r) && !IsOpen(c[r]);
        JumpsTrans(c, q + 2, b, m, r, n);
      case Through =>
        var n: nat :| Jumps(c, b, e, n);
        JumpsTrans(c, q + 2, b, m, e, n);
      case ToCall(j, l) =>
        var n: nat, r :| Jumps(c, b, r, n) && b <= r && CallAt(c, r, e, j, l);
        JumpsTrans(c, q + 2, b, m, r, n);
    }
  }

  /** Code within code. */
  lemma LeadShift(pre: Code, c: Code, post: Code, x: Lead)
    requires LeadFrom(c, 0, |c|, x)
    ensures LeadFrom(pre + c + post, |pre|, |pre| + |c|, x)
  {
    hide Jumps;
    var y, a := pre + c + post, |pre|;
    KeptInside(pre, c, post);
    match x
    case Stands =>
      var n: nat, q :| Jumps(c, 0, q, n) && 0 <= q < |c| && Other(c, q) && !IsOpen(c[q]);
      JumpsLift(c, y, a, 0, q, n);
      assert y[a + q] == c[q];
    case Through =>
      var n: nat :| Jumps(c, 0, |c|, n);
      JumpsLift(c, y, a, 0, |c|, n);
    case ToCall(k, last) =>
      var n: nat, q :| Jumps(c, 0, q, n) && 0 <= q && CallAt(c, q, |c|, k, last);
      JumpsLift(c, y, a, 0, q, n);
      CallShift(pre, c, post, q, k, last);
  }

  lemma CallShift(pre: Code, c: Code, post: Code, q: int, k: nat, last: bool)
    requires CallAt(c, q, |c|, k, last)
    ensures CallAt(pre + c + post, |pre| + q, |pre| + |c|, k, last)
  {
    hide Jumps;
    var y, a := pre + c + post, |pre|;
    KeptInside(pre, c, post);
    assert y[a + q] == c[q];
    if last {
      var m: nat :| Jumps(c, q + 2, |c|, m);
      JumpsLift(c, y, a, q + 2, |c|, m);
      assert Jumps(y, a + q + 2, a + |c|, m);
    } else {
      var m: nat, r :| Jumps(c, q + 2, r, m) && q + 2 <= r < |c| && Other(c, r);
      JumpsLift(c, y, a, q + 2, r, m);
      assert y[a + r] == c[r] && Jumps(y, a + q + 2, a + r, m);
    }
  }

  ghost predicate LeadIs(c: Code, x: Lead) {
    LeadFrom(c, 0, |c|, x)
  }

  lemma LeadCat(c1: Code, c2: Code, x1: Lead, x2: Lead)
    requires LeadIs(c1, x1) && LeadIs(c2, x2)
    ensures LeadIs(c1 + c2, Then(x1, x2))
  {
    hide LeadFrom;
    LeadShift([], c1, c2, x1);
    LeadShift(c1, c2, [], x2);
    assert [] + c1 + c2 == c1 + c2 && c1 + c2 + [] == c1 + c2;
    LeadOn(c1 + c2, 0, |c1|, |c1 + c2|, x1, x2);
  }

  // Code that starts with an instruction that is no jump.
  lemma StopsAtOnce(c: Code)
    requires c != [] && Other(c, 0) && !IsOpen(c[0])
    ensures LeadIs(c, Stands)
  {
    assert Jumps(c, 0, 0, 0);
  }

  // Code that starts with a jump over everything before c2.
  lemma LeadOver(c1: Code, c2: Code, x: Lead)
    requires |c1| >= 2 && c1[0] == Op(IJmp) && c1[1] == Off(|c1|) && LeadIs(c2, x)
    ensures LeadIs(c1 + c2, x)
  {
    hide LeadFrom;
    var y := c1 + c2;
    assert y[0] == c1[0] && y[1] == c1[1];
    assert Jumps(y, |c1|, |c1|, 0);
    assert Jumps(y, 0, |c1|, 1);
    LeadShift(c1, c2, [], x);
    assert c1 + c2 + [] == y;
    LeadJump(y, 0, |c1|, 1, |y|, x);
  }

  lemma NothingLeads()
    ensures LeadIs([], Through)
  {
    assert Jumps([], 0, 0, 0);
  }

  lemma TestStart(cs: Charset, offset: int, rest: Code)
    ensures KindOf(cs).Empty? ==> (TestCells(cs, offset) + rest)[..2] == Jump(IJmp, offset)
    ensures !KindOf(cs).Empty? ==> LeadIs(TestCells(cs, offset) + rest, Stands)
  {
    var c := TestCells(cs, offset) + rest;
    assert c[0] == TestCells(cs, offset)[0] && c[1] == TestCells(cs, offset)[1];
    if !KindOf(cs).Empty? { StopsAtOnce(c); }
  }

  lemma EmptyDisjoint(cs: Charset, cs': Charset)
    requires KindOf(cs).Empty?
    ensures Disjoint(cs, cs')
  {
    forall i: nat | i < CHARSETSIZE ensures cs[i] & cs'[i] == 0 {
      forall k: nat | k < 8 ensures !Bit(cs[i], k) { assert !Has(cs, 8 * i + k); }
      NoBits(cs[i]);
    }
  }

  lemma NoBits(b: bv8)
    requires forall k: nat | k < 8 :: !Bit(b, k)
    ensures b == 0
  {
    if b != 0 { var k := FirstBit(b); }
  }

  lemma TestNotEnd(d: nat, g: seq<Tree>, p: Tree)
    ensures Headfail(d, g, p) ==> !Getfirst(d, g, p, FullSet()).e
  {
    if Headfail(d, g, p) {
      HeadfailExact(d, 0, g, p, FullSet(), [], 0);
    }
  }

  // ----- layouts

  lemma ThenElseLead(cs: Charset, c1: Code, c2: Code, emptyp2: bool, x: Lead)
    requires LeadIs(c2, x)
    ensures LeadIs(TestThenElse(cs, c1, c2, emptyp2), if KindOf(cs).Empty? then x else Stands)
  {
    hide LeadIs, KindOf;
    var jmp := if emptyp2 then [] else Jump(IJmp, 2 + |c2|);
    var test := TestCells(cs, TestSize(cs) + |c1| + |jmp|);
    var y := test + c1 + jmp + c2;
    TestStart(cs, TestSize(cs) + |c1| + |jmp|, c1 + jmp + c2);
    assert test + (c1 + jmp + c2) == y;
    if KindOf(cs).Empty? {
      var head := test + c1 + jmp;
      assert head[0] == y[..2][0] && head[1] == y[..2][1];
      LeadOver(head, c2, x);
    }
  }

  lemma OrElseLead(f: First, c1: Code, c2: Code)
    requires !Never(f)
    ensures LeadIs(OrElse(f, c1, c2), Stands)
  {
    var n := 2 + |c1| + 2;
    var rest := Jump(IChoice, n) + c1 + Jump(ICommit, 2 + |c2|) + c2;
    if f.e {
      StopsAtOnce(OrElse(f, c1, c2));
    } else {
      hide LeadIs, KindOf;
      TestStart(f.cs, TestSize(f.cs) + n, rest);
      assert TestCells(f.cs, TestSize(f.cs) + n) + rest == OrElse(f, c1, c2);
    }
  }

  lemma TestLoopLead(cs: Charset, c: Code)
    ensures LeadIs(TestLoop(cs, c), if KindOf(cs).Empty? then Through else Stands)
  {
    hide LeadIs, KindOf;
    var back := Jump(IJmp, -(TestSize(cs) + |c|));
    TestStart(cs, TestSize(cs) + |c| + 2, c + back);
    var y := TestLoop(cs, c);
    assert TestCells(cs, TestSize(cs) + |c| + 2) + (c + back) == y;
    if KindOf(cs).Empty? {
      assert y[0] == y[..2][0] && y[1] == y[..2][1];
      NothingLeads();
      LeadOver(y, [], Through);
      assert y + [] == y;
    }
  }

  lemma ChoiceLoopLead(f: First, opt: bool, c: Code)
    requires !Never(f)
    ensures LeadIs(ChoiceLoop(f, opt, c), Stands)
  {
    var n := 2 + |c| + 2;
    var rest := (if opt then Jump(IPartialCommit, 2) else Jump(IChoice, n)) + c + Jump(IPartialCommit, -|c|);
    hide LeadIs, KindOf, TestCells;
    if f.e {
      assert ChoiceLoop(f, opt, c) == rest;
      assert rest[0].I? && Other(rest, 0);
      StopsAtOnce(rest);
    } else {
      SkipLead(f.cs, rest);
      assert |rest| == n && TestCells(f.cs, TestSize(f.cs) + n) + rest == ChoiceLoop(f, opt, c);
    }
  }

  // A test over the rest of the code.
  lemma SkipLead(cs: Charset, rest: Code)
    ensures LeadIs(TestCells(cs, TestSize(cs) + |rest|) + rest, if KindOf(cs).Empty? then Through else Stands)
  {
    hide LeadIs, KindOf;
    var y := TestCells(cs, TestSize(cs) + |rest|) + rest;
    TestStart(cs, TestSize(cs) + |rest|, rest);
    if KindOf(cs).Empty? {
      assert y[0] == y[..2][0] && y[1] == y[..2][1];
      NothingLeads();
      LeadOver(y, [], Through);
      assert y + [] == y;
    }
  }

  lemma NotLead(f: First, headfail: bool, c: Code)
    ensures LeadIs(NotCells(f, headfail, c), if Never(f) then Through else Stands)
  {
    var rest := if headfail then [Op(IFail)] else Jump(IChoice, 2 + |c| + 1) + c + [Op(IFailTwice)];
    hide LeadIs, KindOf, TestCells;
    if f.e {
      assert NotCells(f, headfail, c) == rest;
      assert rest[0].I? && Other(rest, 0);
      StopsAtOnce(rest);
    } else {
      SkipLead(f.cs, rest);
      assert TestCells(f.cs, TestSize(f.cs) + |rest|) + rest == NotCells(f, headfail, c);
    }
  }

  lemma AndLead(n: int, c: Code, x: Lead)
    requires LeadIs(c, x)
    ensures LeadIs(AndCells(n, c), if 0 <= n <= MAXBEHIND then Then(x, if n == 0 then Through else Stands) else Stands)
    ensures n >= 0 ==> LeadIs(BehindCells(n) + c, if n == 0 then x else Stands)
  {
    if 0 <= n <= MAXBEHIND {
      if n == 0 { NothingLeads(); } else { StopsAtOnce(BehindCells(n)); }
      hide LeadIs;
      LeadCat(c, BehindCells(n), x, if n == 0 then Through else Stands);
    } else {
      StopsAtOnce(AndCells(n, c));
    }
    if n == 0 { assert BehindCells(n) + c == c; } else if n > 0 { StopsAtOnce(BehindCells(n) + c); }
  }

  lemma LeafLead(d: nat, g: seq<Tree>, t: Tree, opt: bool, tt: Test, fl: Charset)
    requires t.TChar? || t.TSet? || t.TAny? || t.TFalse? || t.TGrammar? || (t.TRep? && IsCharPattern(t.p))
    ensures LeadIs(Gen(true, d, g, t, opt, tt, fl), Stands)
  {
    hide GenRules, CorrectCalls;
    StopsAtOnce(Gen(true, d, g, t, opt, tt, fl));
  }

  lemma CallLead(k: nat)
    ensures LeadIs(OpenCall(k), ToCall(k, true))
  {
    var c := OpenCall(k);
    assert Jumps(c, 0, 0, 0) && Jumps(c, 2, 2, 0);
    assert CallAt(c, 0, 2, k, true);
  }

  /** What is read off the pattern is so in its code. */
  lemma {:induction false} GenLead(d: nat, g: seq<Tree>, t: Tree, opt: bool, tt: Test, fl: Charset)
    ensures LeadIs(Gen(true, d, g, t, opt, tt, fl), LeadOf(d, g, t, fl))
    decreases t
  {
    hide LeadIs, Checkaux, Fixedlen, Getfirst, Headfail, Disjoint, KindOf, GenRules, Closed, Positions,
         TestThenElse, OrElse, TestLoop, ChoiceLoop, NotCells, AndCells, CharCells, CharsetCells, BehindCells;
    match t
    case TTrue => NothingLeads();
    case TChoice(p1, p2) =>
      var f1 := Getfirst(d, g, p1, FullSet());
      if Never(f1) { EmptyDisjoint(f1.cs, Getfirst(d, g, p2, fl).cs); }
      if ChoiceByTest(d, g, p1, p2, fl) {
        TestNotEnd(d, g, p1);
        GenLead(d, g, p2, opt, NoTest, fl);
        ThenElseLead(f1.cs, Gen(true, d, g, p1, false, TestOf(f1.cs), fl), Gen(true, d, g, p2, opt, NoTest, fl), p2.TTrue?, LeadOf(d, g, p2, fl));
      } else if opt && p2.TTrue? {
        StopsAtOnce(Jump(IPartialCommit, 2) + Gen(true, d, g, p1, true, NoTest, FullSet()));
      } else {
        OrElseLead(f1, Gen(true, d, g, p1, p2.TTrue?, OptTestOf(f1), FullSet()), Gen(true, d, g, p2, opt, NoTest, fl));
      }
    case TRep(p) =>
      var f := Getfirst(d, g, p, FullSet());
      if IsCharPattern(p) {
        LeafLead(d, g, t, opt, tt, fl);
      } else {
        if Never(f) { EmptyDisjoint(f.cs, fl); }
        if RepByTest(d, g, p, fl) {
          TestNotEnd(d, g, p);
          TestLoopLead(f.cs, Gen(true, d, g, p, false, TestOf(f.cs), FullSet()));
        } else {
          ChoiceLoopLead(f, opt, Gen(true, d, g, p, false, NoTest, FullSet()));
        }
      }
    case TBehind(n, p) =>
      GenLead(d, g, p, false, NoTest, FullSet());
      AndLead(n, Gen(true, d, g, p, false, NoTest, FullSet()), LeadOf(d, g, p, FullSet()));
    case TNot(p) => NotLead(Getfirst(d, g, p, FullSet()), Headfail(d, g, p), Gen(true, d, g, p, false, NoTest, FullSet()));
    case TAnd(p) =>
      GenLead(d, g, p, false, tt, FullSet());
      AndLead(Fixedlen(d, g, p), Gen(true, d, g, p, false, tt, FullSet()), LeadOf(d, g, p, FullSet()));
    case TSeq(p1, p2) =>
      var fl1, tt2 := SeqFollow(d, g, p1, p2, fl), SeqTest(d, g, p1, tt);
      GenLead(d, g, p1, false, tt, fl1);
      GenLead(d, g, p2, opt, tt2, fl);
      LeadCat(Gen(true, d, g, p1, false, tt, fl1), Gen(true, d, g, p2, opt, tt2, fl), LeadOf(d, g, p1, fl1), LeadOf(d, g, p2, fl));
    case TCall(k) => CallLead(k);
    case TChar(_) => LeafLead(d, g, t, opt, tt, fl);
    case TSet(_) => LeafLead(d, g, t, opt, tt, fl);
    case TAny => LeafLead(d, g, t, opt, tt, fl);
    case TFalse => LeafLead(d, g, t, opt, tt, fl);
    case TGrammar(_) => LeafLead(d, g, t, opt, tt, fl);
  }
}
