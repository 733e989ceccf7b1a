// The emitted code does what the pattern means.
module LpegCorrect {
  import opened LpegCharset
  import opened LpegTree
  import opened LpegAnalysis
  import opened LpegVm
  import opened LpegGen
  import opened LpegShape

  /** Every look-behind goes back by the length of its pattern ('lp_behind' admits nothing else; calls
      are still open there). */
  predicate TreeOk(d: nat, t: Tree) {
    match t
    case TRep(p) => TreeOk(d, p)
    case TNot(p) => TreeOk(d, p)
    case TAnd(p) => TreeOk(d, p)
    case TBehind(n, p) => TreeOk(d, p) && Fixedlen(d, [], p) == n && n <= MAXBEHIND
    case TSeq(p1, p2) => TreeOk(d, p1) && TreeOk(d, p2)
    case TChoice(p1, p2) => TreeOk(d, p1) && TreeOk(d, p2)
    case TGrammar(rules) => RulesOk(d, rules)
    case _ => true
  }

  predicate RulesOk(d: nat, rules: seq<Tree>) {
    rules != [] && forall k | 0 <= k < |rules| :: TreeOk(d, rules[k])
  }

  // Closing calls does not change a fixed length found while they were open.
  lemma {:induction false} FixedlenOfOpen(d: nat, g: seq<Tree>, p: Tree)
    requires Fixedlen(d, [], p) >= 0
    ensures Fixedlen(d, g, p) == Fixedlen(d, [], p)
  {
    match p
    case TSeq(p1, p2) => FixedlenOfOpen(d, g, p1); FixedlenOfOpen(d, g, p2);
    case TChoice(p1, p2) => FixedlenOfOpen(d, g, p1); FixedlenOfOpen(d, g, p2);
    case _ =>
  }

  // ----- segments of code in place

  /** seg stands at address a of code, with its open calls closed by 'pos'. */
  ghost predicate Loaded(code: Code, a: int, seg: Code, pos: seq<int>) {
    && 0 <= a && a + |seg| <= |code|
    && forall k: nat {:trigger ResCell(seg, k, a, pos)} | k < |seg| :: code[a + k] == ResCell(seg, k, a, pos)
  }

  /** Rule k of g stands in code at address pos[k]. */
  ghost predicate RuleLoaded(code: Code, d: nat, g: seq<Tree>, pos: seq<int>, k: nat)
    requires k < |g| == |pos|
  {
    TreeOk(d, g[k]) && Loaded(code, pos[k], Gen(false, d, g, g[k], false, NoTest, FullSet()) + [Op(IRet)], pos)
  }

  ghost predicate Ready(code: Code, d: nat, g: seq<Tree>, pos: seq<int>) {
    |pos| == |g| && forall k: nat {:trigger RuleLoaded(code, d, g, pos, k)} | k < |g| :: RuleLoaded(code, d, g, pos, k)
  }

  lemma EndsCat(x: Code, y: Code)
    requires EndsClosed(x) && EndsClosed(y)
    ensures EndsClosed(x + y)
  {
    if y == [] { assert x + y == x; }
  }

  lemma LoadedSplit(code: Code, a: int, x: Code, y: Code, pos: seq<int>)
    requires Loaded(code, a, x + y, pos) && EndsClosed(x)
    ensures Loaded(code, a, x, pos) && Loaded(code, a + |x|, y, pos)
  {
    var b := a + |x|;
    forall k: nat | k < |x| ensures code[a + k] == ResCell(x, k, a, pos) {
      assert code[a + k] == ResCell(x + y, k, a, pos);
    }
    forall k: nat | k < |y| ensures code[b + k] == ResCell(y, k, b, pos) {
      assert (x + y)[|x| + k] == y[k];
      assert k > 0 ==> (x + y)[|x| + k - 1] == y[k - 1];
      assert k == 0 && x != [] ==> (x + y)[|x| + k - 1] == x[|x| - 1];
      assert code[a + (|x| + k)] == ResCell(x + y, |x| + k, a, pos);
    }
  }

  lemma JumpLoaded(code: Code, a: int, op: Opcode, offset: int, pos: seq<int>)
    requires Loaded(code, a, Jump(op, offset), pos) && op != IOpenCall
    ensures IsOp(code, a, op) && HasLabel(code, a) && Target(code, a) == a + offset
  {
    assert code[a] == ResCell(Jump(op, offset), 0, a, pos);
    assert code[a + 1] == ResCell(Jump(op, offset), 1, a, pos);
  }

  lemma OpLoaded(code: Code, a: int, c: Cell, pos: seq<int>)
    requires Loaded(code, a, [c], pos) && !IsOpen(c)
    ensures 0 <= a < |code| && code[a] == c
  {
    assert code[a] == ResCell([c], 0, a, pos);
  }

  lemma SetLoaded(code: Code, a: int, op: Opcode, cs: Charset, pos: seq<int>)
    requires Loaded(code, a, SetCells(op, cs), pos) && op != IOpenCall
    ensures IsOp(code, a, op) && HasBuf(code, a + 1) && code[a + 1].cs == cs
  {
    assert code[a] == ResCell(SetCells(op, cs), 0, a, pos);
    assert code[a + 1] == ResCell(SetCells(op, cs), 1, a, pos);
  }

  /** A test instruction passes on the characters of its set and otherwise takes its label. */
  lemma TestStep(code: Code, s: Subject, a: int, cs: Charset, offset: int, pos: seq<int>, i: nat, st: seq<Entry>)
    requires Loaded(code, a, TestCells(cs, offset), pos)
    ensures Passes(TestOf(cs), s, i) <==> i < |s| && Has(cs, s[i])
    ensures Step(code, s, Run(a, i, st)) ==
            if i < |s| && Has(cs, s[i]) then Run(a + TestSize(cs), i, st) else Run(a + offset, i, st)
  {
    var seg := TestCells(cs, offset);
    assert code[a] == ResCell(seg, 0, a, pos);
    assert code[a + 1] == ResCell(seg, 1, a, pos);
    if KindOf(cs).Generic? {
      assert code[a + 2] == ResCell(seg, 2, a, pos);
    }
  }

  // ----- what it means that a piece of code is right

  /** From (a, i, st) the code behaves like a pattern with result r whose code ends at b: it fails if r
      does, and otherwise arrives at b, or fails where the next character cannot follow. The code of
      the end of an optional pattern may move the position in the choice of that pattern, which stands
      on top of the stack, and may give the pattern up in favour of that choice. */
  ghost predicate Good(code: Code, s: Subject, opt: bool, fl: Charset, a: int, b: int, i: nat, st: seq<Entry>, r: Result) {
    match r
    case Out => true
    case Fail => Reach(code, s, Run(a, i, st), FailTo(st))
    case Ok(j) =>
      if opt then
        st != [] && Top(st).Back? &&
        ((exists i': nat :: Reach(code, s, Run(a, i, st), Run(b, j, Pop(st) + [Back(Top(st).p, i')])))
         || Reach(code, s, Run(a, i, st), Run(Top(st).p, j, Pop(st))))
      else
        Reach(code, s, Run(a, i, st), Run(b, j, st))
        || (j < |s| && !Has(fl, s[j]) && Reach(code, s, Run(a, i, st), FailTo(st)))
  }

  ghost predicate CanBeOpt(opt: bool, fl: Charset, st: seq<Entry>) {
    opt ==> IsFull(fl) && st != [] && Top(st).Back?
  }

  lemma OutIsGood(code: Code, s: Subject, opt: bool, fl: Charset, a: int, b: int, i: nat, st: seq<Entry>)
    ensures Good(code, s, opt, fl, a, b, i, st, Out)
  {
  }

  // Code that is right without 'opt' is right with it.
  lemma GoodAsOpt(code: Code, s: Subject, opt: bool, fl: Charset, a: int, b: int, i: nat, st: seq<Entry>, r: Result)
    requires Good(code, s, false, fl, a, b, i, st, r) && CanBeOpt(opt, fl, st)
    ensures Good(code, s, opt, fl, a, b, i, st, r)
  {
    if opt && r.Ok? {
      assert st == Pop(st) + [Back(Top(st).p, Top(st).s)];
      assert Reach(code, s, Run(a, i, st), Run(b, r.end, Pop(st) + [Back(Top(st).p, Top(st).s)]));
    }
  }

  // Steps in front of right code.
  lemma GoodAfter(code: Code, s: Subject, opt: bool, fl: Charset, a0: int, i0: nat, a: int, b: int, i: nat,
                  st: seq<Entry>, r: Result)
    requires Reach(code, s, Run(a0, i0, st), Run(a, i, st)) && Good(code, s, opt, fl, a, b, i, st, r)
    ensures Good(code, s, opt, fl, a0, b, i0, st, r)
  {
    var c0, c := Run(a0, i0, st), Run(a, i, st);
    match r
    case Out =>
    case Fail => ReachTrans(code, s, c0, c, FailTo(st));
    case Ok(j) =>
      if opt {
        if i': nat :| Reach(code, s, c, Run(b, j, Pop(st) + [Back(Top(st).p, i')])) {
          ReachTrans(code, s, c0, c, Run(b, j, Pop(st) + [Back(Top(st).p, i')]));
        } else {
          ReachTrans(code, s, c0, c, Run(Top(st).p, j, Pop(st)));
        }
      } else if Reach(code, s, c, Run(b, j, st)) {
        ReachTrans(code, s, c0, c, Run(b, j, st));
      } else {
        ReachTrans(code, s, c0, c, FailTo(st));
      }
  }

  // A jump after right code.
  lemma GoodThenJump(code: Code, s: Subject, fl: Charset, a: int, b: int, b': int, i: nat, st: seq<Entry>, r: Result)
    requires Good(code, s, false, fl, a, b, i, st, r) && JumpAt(code, b) && Target(code, b) == b'
    ensures Good(code, s, false, fl, a, b', i, st, r)
  {
    if r.Ok? && Reach(code, s, Run(a, i, st), Run(b, r.end, st)) {
      ReachStep(code, s, Run(b, r.end, st));
      ReachTrans(code, s, Run(a, i, st), Run(b, r.end, st), Run(b', r.end, st));
    }
  }

  lemma StepReaches(code: Code, s: Subject, c: State, c': State, c'': State)
    requires Step(code, s, c) == c' && Reach(code, s, c', c'')
    ensures Reach(code, s, c, c'')
  {
    ReachStep(code, s, c);
    ReachTrans(code, s, c, c', c'');
  }

  lemma ReachesStep(code: Code, s: Subject, c: State, c': State, c'': State)
    requires Reach(code, s, c, c') && Step(code, s, c') == c''
    ensures Reach(code, s, c, c'')
  {
    ReachStep(code, s, c');
    ReachTrans(code, s, c, c', c'');
  }

  // ----- one construction at a time, whatever the code of its parts

  ghost predicate InSet(cs: Charset, s: Subject, i: nat) {
    i < |s| && Has(cs, s[i])
  }

  /** The machine may fail at position j although the pattern has result r there: what follows the
      pattern would fail at once. */
  ghost predicate MayGiveUp(fl: Charset, s: Subject, j: nat, r: Result) {
    r.Ok? ==> r.end == j && j < |s| && !Has(fl, s[j])
  }

  // A pattern may be given up in front of a character outside its first set.
  lemma GivenUp(f: nat, d: nat, g: seq<Tree>, s: Subject, p: Tree, fl: Charset, j: nat)
    requires j < |s| && !Has(Getfirst(d, g, p, fl).cs, s[j])
    ensures MayGiveUp(fl, s, j, Peg(f, g, p, s, j))
  {
    if Peg(f, g, p, s, j).Ok? {
      if Peg(f, g, p, s, j).end != j || Follows(fl, s, j) {
        GetfirstSound(d, f, g, p, fl, s, j);
      }
    }
  }

  lemma FailIsGood(code: Code, s: Subject, opt: bool, fl: Charset, a: int, b: int, i: nat, st: seq<Entry>, j: nat, r: Result)
    requires MayGiveUp(fl, s, j, r) && CanBeOpt(opt, fl, st) && Reach(code, s, Run(a, i, st), FailTo(st))
    ensures Good(code, s, opt, fl, a, b, i, st, r)
  {
  }

  // Results that do not depend on where the code ends.
  lemma StoppedIsGood(code: Code, s: Subject, opt: bool, fl: Charset, fl1: Charset, a: int, b: int, b1: int, i: nat,
                      st: seq<Entry>, r: Result)
    requires !r.Ok? && Good(code, s, false, fl1, a, b1, i, st, r)
    ensures Good(code, s, opt, fl, a, b, i, st, r)
  {
  }

  // Where the first set of a pattern rules out the next character, or the test of its code would
  // fail at the end of the subject, the pattern does not match.
  lemma NoMatch(f: nat, d: nat, g: seq<Tree>, p: Tree, s: Subject, i: nat)
    requires i <= |s|
    ensures var f1 := Getfirst(d, g, p, FullSet()); !f1.e && !InSet(f1.cs, s, i) ==> !Peg(f, g, p, s, i).Ok?
  {
    if Peg(f, g, p, s, i).Ok? { GetfirstSound(d, f, g, p, FullSet(), s, i); }
  }

  lemma CharGood(code: Code, pos: seq<int>, s: Subject, c: Byte, tt: Test, fl: Charset, a: int, i: nat, st: seq<Entry>)
    requires Loaded(code, a, CharCells(c, tt), pos) && Passes(tt, s, i)
    ensures Good(code, s, false, fl, a, a + |CharCells(c, tt)|, i, st, if i < |s| && s[i] == c then Ok(i + 1) else Fail)
  {
    OpLoaded(code, a, CharCells(c, tt)[0], pos);
    ReachStep(code, s, Run(a, i, st));
  }

  lemma SetGood(code: Code, pos: seq<int>, s: Subject, cs: Charset, tt: Test, fl: Charset, a: int, i: nat, st: seq<Entry>)
    requires Loaded(code, a, CharsetCells(cs, tt), pos) && Passes(tt, s, i)
    ensures Good(code, s, false, fl, a, a + |CharsetCells(cs, tt)|, i, st, if InSet(cs, s, i) then Ok(i + 1) else Fail)
  {
    match KindOf(cs)
    case Single(c) =>
      assert IsSingle(cs, c);
      CharGood(code, pos, s, c, tt, fl, a, i, st);
    case Generic =>
      if tt == TestSet(cs) { OpLoaded(code, a, Op(IAny), pos); } else { SetLoaded(code, a, ISet, cs, pos); }
      ReachStep(code, s, Run(a, i, st));
    case Empty =>
      OpLoaded(code, a, Op(IFail), pos);
      ReachStep(code, s, Run(a, i, st));
    case Full =>
      OpLoaded(code, a, Op(IAny), pos);
      ReachStep(code, s, Run(a, i, st));
  }

  lemma {:induction false} SpanIsRep(f: nat, g: seq<Tree>, p: Tree, s: Subject, i: nat)
    requires IsCharPattern(p) && i <= |s|
    ensures Peg(f, g, TRep(p), s, i) == Ok(SpanEnd(ToCharset(p), s, i))
    decreases |s| - i
  {
    if i < |s| && Has(ToCharset(p), s[i]) { SpanIsRep(f, g, p, s, i + 1); }
  }

  lemma SpanGood(code: Code, pos: seq<int>, s: Subject, cs: Charset, fl: Charset, a: int, i: nat, st: seq<Entry>)
    requires Loaded(code, a, SetCells(ISpan, cs), pos)
    ensures Good(code, s, false, fl, a, a + CHARSETINSTSIZE, i, st, Ok(SpanEnd(cs, s, i)))
  {
    SetLoaded(code, a, ISpan, cs, pos);
    ReachStep(code, s, Run(a, i, st));
  }

  // A first part under follow set fl1, which rules out that the second part matches anything more.
  lemma SeqGood(code: Code, s: Subject, opt: bool, fl1: Charset, fl: Charset, a: int, b: int, e: int, i: nat, st: seq<Entry>,
                j: nat, r2: Result)
    requires CanBeOpt(opt, fl, st) && Good(code, s, false, fl1, a, b, i, st, Ok(j))
    requires Good(code, s, opt, fl, b, e, j, st, r2)
    requires j < |s| && !Has(fl1, s[j]) ==> MayGiveUp(fl, s, j, r2)
    ensures Good(code, s, opt, fl, a, e, i, st, r2)
  {
    if Reach(code, s, Run(a, i, st), Run(b, j, st)) {
      GoodAfter(code, s, opt, fl, a, i, b, e, j, st, r2);
    } else {
      FailIsGood(code, s, opt, fl, a, e, i, st, j, r2);
    }
  }

  function ChoiceResult(r1: Result, r2: Result): Result {
    if r1.Fail? then r2 else r1
  }

  lemma ThenElseSplit(code: Code, a: int, cs: Charset, c1: Code, c2: Code, emptyp2: bool, pos: seq<int>)
    requires Loaded(code, a, TestThenElse(cs, c1, c2, emptyp2), pos) && EndsClosed(c1)
    ensures var jmp := if emptyp2 then [] else Jump(IJmp, 2 + |c2|);
            var a1 := a + TestSize(cs);
            && Loaded(code, a, TestCells(cs, TestSize(cs) + |c1| + |jmp|), pos)
            && Loaded(code, a1, c1, pos)
            && Loaded(code, a1 + |c1| + |jmp|, c2, pos)
            && (!emptyp2 ==> Loaded(code, a1 + |c1|, jmp, pos))
  {
    var jmp := if emptyp2 then [] else Jump(IJmp, 2 + |c2|);
    var test := TestCells(cs, TestSize(cs) + |c1| + |jmp|);
    EndsCat(test, c1);
    EndsCat(test + c1, jmp);
    LoadedSplit(code, a, test + c1 + jmp, c2, pos);
    LoadedSplit(code, a, test + c1, jmp, pos);
    LoadedSplit(code, a, test, c1, pos);
  }

  // The test passed and the first alternative ran.
  lemma ThenGood(code: Code, s: Subject, opt: bool, fl: Charset, a: int, a1: int, b1: int, e: int, i: nat, st: seq<Entry>,
                 r1: Result, r2: Result)
    requires Reach(code, s, Run(a, i, st), Run(a1, i, st)) && CanBeOpt(opt, fl, st)
    requires Good(code, s, false, fl, a1, b1, i, st, r1)
    requires b1 == e || (JumpAt(code, b1) && Target(code, b1) == e)
    requires r1.Fail? ==> MayGiveUp(fl, s, i, r2)
    ensures Good(code, s, opt, fl, a, e, i, st, ChoiceResult(r1, r2))
  {
    hide Reach;
    if r1.Fail? {
      ReachTrans(code, s, Run(a, i, st), Run(a1, i, st), FailTo(st));
      FailIsGood(code, s, opt, fl, a, e, i, st, i, r2);
    } else if r1.Ok? {
      if b1 != e { GoodThenJump(code, s, fl, a1, b1, e, i, st, r1); }
      GoodAfter(code, s, false, fl, a, i, a1, e, i, st, r1);
      GoodAsOpt(code, s, opt, fl, a, e, i, st, r1);
    }
  }

  lemma ThenElseGood(code: Code, pos: seq<int>, s: Subject, cs: Charset, c1: Code, c2: Code, emptyp2: bool,
                     opt: bool, fl: Charset, a: int, i: nat, st: seq<Entry>, r1: Result, r2: Result)
    requires Loaded(code, a, TestThenElse(cs, c1, c2, emptyp2), pos) && EndsClosed(c1) && (emptyp2 ==> c2 == [])
    requires CanBeOpt(opt, fl, st)
    requires if InSet(cs, s, i) then Good(code, s, false, fl, a + TestSize(cs), a + TestSize(cs) + |c1|, i, st, r1) else !r1.Ok?
    requires var e := a + |TestThenElse(cs, c1, c2, emptyp2)|; Good(code, s, opt, fl, e - |c2|, e, i, st, r2)
    requires InSet(cs, s, i) && r1.Fail? ==> MayGiveUp(fl, s, i, r2)
    ensures Good(code, s, opt, fl, a, a + |TestThenElse(cs, c1, c2, emptyp2)|, i, st, ChoiceResult(r1, r2))
  {
    hide Good, Loaded, Step, Reach, Has, TestCells;
    var jmp := if emptyp2 then [] else Jump(IJmp, 2 + |c2|);
    ThenElseSplit(code, a, cs, c1, c2, emptyp2, pos);
    var a1 := a + TestSize(cs);
    var a2 := a1 + |c1| + |jmp|;
    var e := a2 + |c2|;
    assert e == a + |TestThenElse(cs, c1, c2, emptyp2)|;
    TestStep(code, s, a, cs, TestSize(cs) + |c1| + |jmp|, pos, i, st);
    ReachStep(code, s, Run(a, i, st));
    if InSet(cs, s, i) {
      if !emptyp2 { JumpLoaded(code, a1 + |c1|, IJmp, 2 + |c2|, pos); }
      ThenGood(code, s, opt, fl, a, a1, a1 + |c1|, e, i, st, r1, r2);
    } else if r1.Fail? {
      GoodAfter(code, s, opt, fl, a, i, a2, e, i, st, r2);
    } else {
      OutIsGood(code, s, opt, fl, a, e, i, st);
    }
  }

  // An optional pattern at the end of another one moves the choice of that one.
  lemma PartialGood(code: Code, pos: seq<int>, s: Subject, c1: Code, fl: Charset, a: int, i: nat, st: seq<Entry>, r1: Result)
    requires Loaded(code, a, Jump(IPartialCommit, 2) + c1, pos) && st != [] && Top(st).Back?
    requires Good(code, s, true, FullSet(), a + 2, a + 2 + |c1|, i, Pop(st) + [Back(Top(st).p, i)], r1)
    ensures Good(code, s, true, fl, a, a + 2 + |c1|, i, st, ChoiceResult(r1, Ok(i)))
  {
    LoadedSplit(code, a, Jump(IPartialCommit, 2), c1, pos);
    JumpLoaded(code, a, IPartialCommit, 2, pos);
    var l := Top(st).p;
    var st' := Pop(st) + [Back(l, i)];
    assert Pop(st') == Pop(st);
    var c0, c := Run(a, i, st), Run(a + 2, i, st');
    assert Step(code, s, c0) == c;
    match r1 {
      case Out =>
      case Fail =>
        assert FailTo(st') == Run(l, i, Pop(st));
        StepReaches(code, s, c0, c, Run(l, i, Pop(st)));
      case Ok(j) =>
        var b := a + 2 + |c1|;
        if i': nat :| Reach(code, s, c, Run(b, j, Pop(st') + [Back(l, i')])) {
          StepReaches(code, s, c0, c, Run(b, j, Pop(st) + [Back(l, i')]));
        } else {
          StepReaches(code, s, c0, c, Run(l, j, Pop(st)));
        }
    }
  }

  lemma OptTestStep(code: Code, s: Subject, a: int, f: First, rest: nat, pos: seq<int>, i: nat, st: seq<Entry>)
    requires Loaded(code, a, OptTest(f, rest), pos)
    ensures var a1 := a + |OptTest(f, rest)|;
            if f.e || InSet(f.cs, s, i) then
              Passes(OptTestOf(f), s, i) && Reach(code, s, Run(a, i, st), Run(a1, i, st))
            else Reach(code, s, Run(a, i, st), Run(a1 + rest, i, st))
  {
    if f.e {
      ReachRefl(code, s, Run(a, i, st));
    } else {
      TestStep(code, s, a, f.cs, TestSize(f.cs) + rest, pos, i, st);
      ReachStep(code, s, Run(a, i, st));
    }
  }

  lemma OrElseSplit(code: Code, a: int, f: First, c1: Code, c2: Code, pos: seq<int>)
    requires Loaded(code, a, OrElse(f, c1, c2), pos) && EndsClosed(c1)
    ensures var test := OptTest(f, 2 + |c1| + 2);
            var a1 := a + |test|;
            && Loaded(code, a, test, pos)
            && Loaded(code, a1, Jump(IChoice, 2 + |c1| + 2), pos)
            && Loaded(code, a1 + 2, c1, pos)
            && Loaded(code, a1 + 2 + |c1|, Jump(ICommit, 2 + |c2|), pos)
            && Loaded(code, a1 + 2 + |c1| + 2, c2, pos)
  {
    var test, choice, commit := OptTest(f, 2 + |c1| + 2), Jump(IChoice, 2 + |c1| + 2), Jump(ICommit, 2 + |c2|);
    EndsCat(test, choice);
    EndsCat(test + choice, c1);
    EndsCat(test + choice + c1, commit);
    LoadedSplit(code, a, test + choice + c1 + commit, c2, pos);
    LoadedSplit(code, a, test + choice + c1, commit, pos);
    LoadedSplit(code, a, test + choice, c1, pos);
    LoadedSplit(code, a, test, choice, pos);
  }

  // A match of the first alternative commits, or gives itself up in favour of an empty second one.
  lemma AfterCommit(code: Code, s: Subject, emptyp2: bool, c0: State, a: int, b: int, l: int, e: int,
                    i: nat, st: seq<Entry>, j: nat)
    requires Reach(code, s, c0, Run(a, i, st + [Back(l, i)]))
    requires Good(code, s, emptyp2, FullSet(), a, b, i, st + [Back(l, i)], Ok(j))
    requires IsOp(code, b, ICommit) && HasLabel(code, b) && Target(code, b) == e
    requires emptyp2 ==> e == l
    ensures Reach(code, s, c0, Run(e, j, st))
  {
    var st1 := st + [Back(l, i)];
    var c := Run(a, i, st1);
    assert Pop(st1) == st;
    if !emptyp2 {
      ReachTrans(code, s, c0, c, Run(b, j, st1));
      ReachesStep(code, s, c0, Run(b, j, st1), Run(e, j, st));
    } else if i': nat :| Reach(code, s, c, Run(b, j, Pop(st1) + [Back(Top(st1).p, i')])) {
      var st2 := st + [Back(l, i')];
      assert Pop(st2) == st;
      ReachTrans(code, s, c0, c, Run(b, j, st2));
      ReachesStep(code, s, c0, Run(b, j, st2), Run(e, j, st));
    } else {
      ReachTrans(code, s, c0, c, Run(l, j, st));
    }
  }

  lemma OrElseGood(code: Code, pos: seq<int>, s: Subject, f: First, c1: Code, c2: Code, emptyp2: bool,
                   opt: bool, fl: Charset, a: int, i: nat, st: seq<Entry>, r1: Result, r2: Result)
    requires Loaded(code, a, OrElse(f, c1, c2), pos) && EndsClosed(c1) && (emptyp2 ==> c2 == [])
    requires CanBeOpt(opt, fl, st)
    requires var a2, e := a + |OptTest(f, 2 + |c1| + 2)| + 2, a + |OrElse(f, c1, c2)|;
             && Good(code, s, opt, fl, e - |c2|, e, i, st, r2)
             && if f.e || InSet(f.cs, s, i) then
                  Good(code, s, emptyp2, FullSet(), a2, a2 + |c1|, i, st + [Back(e - |c2|, i)], r1)
                else !r1.Ok?
    ensures Good(code, s, opt, fl, a, a + |OrElse(f, c1, c2)|, i, st, ChoiceResult(r1, r2))
  {
    hide Loaded, Reach, OptTest;
    OrElseSplit(code, a, f, c1, c2, pos);
    var a1 := a + |OptTest(f, 2 + |c1| + 2)|;
    var b1 := a1 + 2 + |c1|;
    var a3 := b1 + 2;
    var e := a3 + |c2|;
    var c0 := Run(a, i, st);
    OptTestStep(code, s, a, f, 2 + |c1| + 2, pos, i, st);
    if f.e || InSet(f.cs, s, i) {
      JumpLoaded(code, a1, IChoice, 2 + |c1| + 2, pos);
      JumpLoaded(code, b1, ICommit, 2 + |c2|, pos);
      var st1 := st + [Back(a3, i)];
      assert Pop(st1) == st;
      var c := Run(a1 + 2, i, st1);
      ReachesStep(code, s, c0, Run(a1, i, st), c);
      match r1 {
        case Out =>
        case Fail =>
          ReachTrans(code, s, c0, c, Run(a3, i, st));
          GoodAfter(code, s, opt, fl, a, i, a3, e, i, st, r2);
        case Ok(j) =>
          AfterCommit(code, s, emptyp2, c0, a1 + 2, b1, a3, e, i, st, j);
          GoodAsOpt(code, s, opt, fl, a, e, i, st, r1);
      }
    } else if r1.Fail? {
      GoodAfter(code, s, opt, fl, a, i, a3, e, i, st, r2);
    }
  }

  lemma TestLoopSplit(code: Code, a: int, cs: Charset, c: Code, pos: seq<int>)
    requires Loaded(code, a, TestLoop(cs, c), pos) && EndsClosed(c)
    ensures && Loaded(code, a, TestCells(cs, TestSize(cs) + |c| + 2), pos)
            && Loaded(code, a + TestSize(cs), c, pos)
            && Loaded(code, a + TestSize(cs) + |c|, Jump(IJmp, -(TestSize(cs) + |c|)), pos)
  {
    var test := TestCells(cs, TestSize(cs) + |c| + 2);
    EndsCat(test, c);
    LoadedSplit(code, a, test + c, Jump(IJmp, -(TestSize(cs) + |c|)), pos);
    LoadedSplit(code, a, test, c, pos);
  }

  // One round of a repetition under a test; r is the result of the body, next that of the rounds after it.
  lemma TestLoopGood(code: Code, pos: seq<int>, s: Subject, cs: Charset, c: Code, fl: Charset, a: int, i: nat, st: seq<Entry>,
                     r: Result, next: Result)
    requires Loaded(code, a, TestLoop(cs, c), pos) && EndsClosed(c)
    requires if InSet(cs, s, i) then Good(code, s, false, FullSet(), a + TestSize(cs), a + TestSize(cs) + |c|, i, st, r)
             else !r.Ok?
    requires InSet(cs, s, i) && r.Fail? ==> !Has(fl, s[i])
    requires r.Ok? ==> Good(code, s, false, fl, a, a + |TestLoop(cs, c)|, r.end, st, next)
    ensures Good(code, s, false, fl, a, a + |TestLoop(cs, c)|, i, st,
                 match r case Out => Out case Fail => Ok(i) case Ok(_) => next)
  {
    hide Loaded, Reach, TestCells;
    TestLoopSplit(code, a, cs, c, pos);
    var a1 := a + TestSize(cs);
    var b := a1 + |c|;
    JumpLoaded(code, b, IJmp, -(TestSize(cs) + |c|), pos);
    TestStep(code, s, a, cs, TestSize(cs) + |c| + 2, pos, i, st);
    ReachStep(code, s, Run(a, i, st));
    if InSet(cs, s, i) {
      match r {
        case Out =>
        case Fail => ReachTrans(code, s, Run(a, i, st), Run(a1, i, st), FailTo(st));
        case Ok(j) =>
          ReachTrans(code, s, Run(a, i, st), Run(a1, i, st), Run(b, j, st));
          ReachesStep(code, s, Run(a, i, st), Run(b, j, st), Run(a, j, st));
          GoodAfter(code, s, false, fl, a, i, a, b + 2, j, st, next);
      }
    }
  }

  // One round of a repetition under its own choice, which goes back to l with stack st.
  lemma RoundGood(code: Code, s: Subject, a: int, b: int, l: int, i: nat, st: seq<Entry>, r: Result, end: nat)
    requires Good(code, s, false, FullSet(), a, b, i, st + [Back(l, i)], r)
    requires IsOp(code, b, IPartialCommit) && HasLabel(code, b) && Target(code, b) == a
    requires r.Fail? ==> end == i
    requires r.Ok? ==> Reach(code, s, Run(a, r.end, st + [Back(l, r.end)]), Run(l, end, st))
    ensures r != Out ==> Reach(code, s, Run(a, i, st + [Back(l, i)]), Run(l, end, st))
  {
    var st1 := st + [Back(l, i)];
    assert Pop(st1) == st;
    match r {
      case Out =>
      case Fail =>
      case Ok(j) =>
        ReachesStep(code, s, Run(a, i, st1), Run(b, j, st1), Run(a, j, st + [Back(l, j)]));
        ReachTrans(code, s, Run(a, i, st1), Run(a, j, st + [Back(l, j)]), Run(l, end, st));
    }
  }

  lemma ChoiceLoopSplit(code: Code, a: int, f: First, opt: bool, c: Code, pos: seq<int>)
    requires Loaded(code, a, ChoiceLoop(f, opt, c), pos) && EndsClosed(c)
    ensures var test := OptTest(f, 2 + |c| + 2);
            var a1 := a + |test|;
            && Loaded(code, a, test, pos)
            && Loaded(code, a1, if opt then Jump(IPartialCommit, 2) else Jump(IChoice, 2 + |c| + 2), pos)
            && Loaded(code, a1 + 2, c, pos)
            && Loaded(code, a1 + 2 + |c|, Jump(IPartialCommit, -|c|), pos)
  {
    var test := OptTest(f, 2 + |c| + 2);
    var head := if opt then Jump(IPartialCommit, 2) else Jump(IChoice, 2 + |c| + 2);
    EndsCat(test, head);
    EndsCat(test + head, c);
    LoadedSplit(code, a, test + head + c, Jump(IPartialCommit, -|c|), pos);
    LoadedSplit(code, a, test + head, c, pos);
    LoadedSplit(code, a, test, head, pos);
  }

  /** Where the choice of a repetition goes back to, and the stack below it: with 'opt' the choice of
      the enclosing pattern is used. */
  function LoopLabel(opt: bool, e: int, st: seq<Entry>): int
    requires opt ==> st != [] && Top(st).Back?
  {
    if opt then Top(st).p else e
  }

  function LoopBase(opt: bool, st: seq<Entry>): seq<Entry>
    requires opt ==> st != []
  {
    if opt then Pop(st) else st
  }

  lemma ChoiceLoopGood(code: Code, pos: seq<int>, s: Subject, f: First, opt: bool, c: Code, fl: Charset, a: int, i: nat,
                       st: seq<Entry>, end: nat)
    requires Loaded(code, a, ChoiceLoop(f, opt, c), pos) && EndsClosed(c) && CanBeOpt(opt, fl, st)
    requires !f.e && !InSet(f.cs, s, i) ==> end == i
    requires var e, base := a + |ChoiceLoop(f, opt, c)|, LoopBase(opt, st);
             var a2, l := a + |OptTest(f, 2 + |c| + 2)| + 2, LoopLabel(opt, e, st);
             f.e || InSet(f.cs, s, i) ==> Reach(code, s, Run(a2, i, base + [Back(l, i)]), Run(l, end, base))
    ensures Good(code, s, opt, fl, a, a + |ChoiceLoop(f, opt, c)|, i, st, Ok(end))
  {
    hide Loaded, Reach, OptTest;
    ChoiceLoopSplit(code, a, f, opt, c, pos);
    var a1 := a + |OptTest(f, 2 + |c| + 2)|;
    var e := a1 + 2 + |c| + 2;
    var c0 := Run(a, i, st);
    OptTestStep(code, s, a, f, 2 + |c| + 2, pos, i, st);
    if f.e || InSet(f.cs, s, i) {
      var l, base := LoopLabel(opt, e, st), LoopBase(opt, st);
      JumpLoaded(code, a1, if opt then IPartialCommit else IChoice, if opt then 2 else 2 + |c| + 2, pos);
      var c1 := Run(a1 + 2, i, base + [Back(l, i)]);
      ReachesStep(code, s, c0, Run(a1, i, st), c1);
      ReachTrans(code, s, c0, c1, Run(l, end, base));
    } else {
      GoodAsOpt(code, s, opt, fl, a, e, i, st, Ok(end));
    }
  }

  lemma NotSplit(code: Code, a: int, f: First, c: Code, pos: seq<int>)
    requires Loaded(code, a, NotCells(f, false, c), pos) && EndsClosed(c)
    ensures var test := OptTest(f, 2 + |c| + 1);
            var a1 := a + |test|;
            && Loaded(code, a, test, pos)
            && Loaded(code, a1, Jump(IChoice, 2 + |c| + 1), pos)
            && Loaded(code, a1 + 2, c, pos)
            && Loaded(code, a1 + 2 + |c|, [Op(IFailTwice)], pos)
  {
    var test, head := OptTest(f, 2 + |c| + 1), Jump(IChoice, 2 + |c| + 1);
    EndsCat(test, head);
    EndsCat(test + head, c);
    LoadedSplit(code, a, test + head + c, [Op(IFailTwice)], pos);
    LoadedSplit(code, a, test + head, c, pos);
    LoadedSplit(code, a, test, head, pos);
  }

  function NotResult(r: Result, i: nat): Result {
    match r case Out => Out case Fail => Ok(i) case Ok(_) => Fail
  }

  lemma OptTestClosed(f: First, rest: nat)
    ensures EndsClosed(OptTest(f, rest))
  {
  }

  lemma NotHeadGood(code: Code, pos: seq<int>, s: Subject, f: First, c: Code, fl: Charset, a: int, i: nat, st: seq<Entry>, r: Result)
    requires Loaded(code, a, NotCells(f, true, c), pos) && !f.e
    requires if InSet(f.cs, s, i) then !r.Fail? else !r.Ok?
    ensures Good(code, s, false, fl, a, a + |NotCells(f, true, c)|, i, st, NotResult(r, i))
  {
    hide Loaded, Reach, OptTest, OptTestOf, Passes, InSet;
    OptTestClosed(f, 1);
    LoadedSplit(code, a, OptTest(f, 1), [Op(IFail)], pos);
    OptTestStep(code, s, a, f, 1, pos, i, st);
    var a1 := a + |OptTest(f, 1)|;
    OpLoaded(code, a1, Op(IFail), pos);
    if InSet(f.cs, s, i) { ReachesStep(code, s, Run(a, i, st), Run(a1, i, st), FailTo(st)); }
  }

  lemma NotGood(code: Code, pos: seq<int>, s: Subject, f: First, c: Code, fl: Charset, a: int, i: nat, st: seq<Entry>, r: Result)
    requires Loaded(code, a, NotCells(f, false, c), pos) && EndsClosed(c)
    requires var e := a + |NotCells(f, false, c)|;
             if f.e || InSet(f.cs, s, i) then Good(code, s, false, FullSet(), e - 1 - |c|, e - 1, i, st + [Back(e, i)], r)
             else !r.Ok?
    ensures Good(code, s, false, fl, a, a + |NotCells(f, false, c)|, i, st, NotResult(r, i))
  {
    hide Loaded, Reach, OptTest;
    NotSplit(code, a, f, c, pos);
    OptTestStep(code, s, a, f, 2 + |c| + 1, pos, i, st);
    var a1 := a + |OptTest(f, 2 + |c| + 1)|;
    var b := a1 + 2 + |c|;
    var e := b + 1;
    var c0 := Run(a, i, st);
    if f.e || InSet(f.cs, s, i) {
      JumpLoaded(code, a1, IChoice, 2 + |c| + 1, pos);
      OpLoaded(code, b, Op(IFailTwice), pos);
      var st1 := st + [Back(e, i)];
      assert Pop(st1) == st;
      ReachesStep(code, s, c0, Run(a1, i, st), Run(a1 + 2, i, st1));
      match r {
        case Out =>
        case Fail => ReachTrans(code, s, c0, Run(a1 + 2, i, st1), Run(e, i, st));
        case Ok(j) =>
          ReachTrans(code, s, c0, Run(a1 + 2, i, st1), Run(b, j, st1));
          ReachesStep(code, s, c0, Run(b, j, st1), FailTo(st));
      }
    }
  }

  function AndResult(r: Result, i: nat): Result {
    match r case Out => Out case Fail => Fail case Ok(_) => Ok(i)
  }

  // &p as a match followed by a step back over its fixed length.
  lemma AndBackGood(code: Code, pos: seq<int>, s: Subject, n: nat, c: Code, fl: Charset, a: int, i: nat, st: seq<Entry>, r: Result)
    requires Loaded(code, a, c + BehindCells(n), pos) && EndsClosed(c)
    requires Good(code, s, false, FullSet(), a, a + |c|, i, st, r) && (r.Ok? ==> r.end == i + n)
    ensures Good(code, s, false, fl, a, a + |c + BehindCells(n)|, i, st, AndResult(r, i))
  {
    LoadedSplit(code, a, c, BehindCells(n), pos);
    if n > 0 && r.Ok? {
      OpLoaded(code, a + |c|, I(IBehind, n, 0), pos);
      ReachesStep(code, s, Run(a, i, st), Run(a + |c|, r.end, st), Run(a + |c| + 1, i, st));
    }
  }

  lemma AndSplit(code: Code, a: int, c: Code, pos: seq<int>)
    requires Loaded(code, a, Jump(IChoice, 2 + |c| + 2) + c + Jump(IBackCommit, 3) + [Op(IFail)], pos) && EndsClosed(c)
    ensures && Loaded(code, a, Jump(IChoice, 2 + |c| + 2), pos)
            && Loaded(code, a + 2, c, pos)
            && Loaded(code, a + 2 + |c|, Jump(IBackCommit, 3), pos)
            && Loaded(code, a + 2 + |c| + 2, [Op(IFail)], pos)
  {
    var head, back := Jump(IChoice, 2 + |c| + 2), Jump(IBackCommit, 3);
    EndsCat(head, c);
    EndsCat(head + c, back);
    LoadedSplit(code, a, head + c + back, [Op(IFail)], pos);
    LoadedSplit(code, a, head + c, back, pos);
    LoadedSplit(code, a, head, c, pos);
  }

  lemma AndGood(code: Code, pos: seq<int>, s: Subject, c: Code, fl: Charset, a: int, i: nat, st: seq<Entry>, r: Result)
    requires Loaded(code, a, Jump(IChoice, 2 + |c| + 2) + c + Jump(IBackCommit, 3) + [Op(IFail)], pos) && EndsClosed(c)
    requires Good(code, s, false, FullSet(), a + 2, a + 2 + |c|, i, st + [Back(a + 2 + |c| + 2, i)], r)
    ensures Good(code, s, false, fl, a, a + 2 + |c| + 3, i, st, AndResult(r, i))
  {
    AndSplit(code, a, c, pos);
    var b := a + 2 + |c|;
    JumpLoaded(code, a, IChoice, 2 + |c| + 2, pos);
    JumpLoaded(code, b, IBackCommit, 3, pos);
    OpLoaded(code, b + 2, Op(IFail), pos);
    var st1 := st + [Back(b + 2, i)];
    assert Pop(st1) == st;
    ReachStep(code, s, Run(a, i, st));
    match r {
      case Out =>
      case Fail =>
        ReachTrans(code, s, Run(a, i, st), Run(a + 2, i, st1), Run(b + 2, i, st));
        ReachesStep(code, s, Run(a, i, st), Run(b + 2, i, st), FailTo(st));
      case Ok(j) =>
        ReachTrans(code, s, Run(a, i, st), Run(a + 2, i, st1), Run(b, j, st1));
        ReachesStep(code, s, Run(a, i, st), Run(b, j, st1), Run(b + 3, i, st));
    }
  }

  lemma BehindGood(code: Code, pos: seq<int>, s: Subject, n: nat, c: Code, fl: Charset, a: int, i: nat, st: seq<Entry>, r: Result)
    requires Loaded(code, a, BehindCells(n) + c, pos)
    requires n <= i ==> Good(code, s, false, FullSet(), a + |BehindCells(n)|, a + |BehindCells(n)| + |c|, i - n, st, r)
    requires r.Ok? ==> r.end == i
    ensures Good(code, s, false, fl, a, a + |BehindCells(n)| + |c|, i, st, if n > i then Fail else AndResult(r, i))
  {
    LoadedSplit(code, a, BehindCells(n), c, pos);
    var a1 := a + |BehindCells(n)|;
    if n > 0 {
      OpLoaded(code, a, I(IBehind, n, 0), pos);
      ReachStep(code, s, Run(a, i, st));
    } else {
      ReachRefl(code, s, Run(a, i, st));
    }
    if n <= i {
      match r {
        case Out =>
        case Fail => ReachTrans(code, s, Run(a, i, st), Run(a1, i - n, st), FailTo(st));
        case Ok(j) => ReachTrans(code, s, Run(a, i, st), Run(a1, i - n, st), Run(a1 + |c|, j, st));
      }
    }
  }

  /** What running a rule at address p does when it was called with return address q. */
  ghost predicate Returns(code: Code, s: Subject, p: int, q: int, i: nat, st: seq<Entry>, r: Result) {
    match r
    case Out => true
    case Fail => Reach(code, s, Run(p, i, st + [Ret(q)]), FailTo(st))
    case Ok(j) => Reach(code, s, Run(p, i, st + [Ret(q)]), Run(q, j, st))
  }

  lemma RuleGood(code: Code, pos: seq<int>, s: Subject, c: Code, a: int, q: int, i: nat, st: seq<Entry>, r: Result)
    requires Loaded(code, a, c + [Op(IRet)], pos) && EndsClosed(c)
    requires Good(code, s, false, FullSet(), a, a + |c|, i, st + [Ret(q)], r)
    ensures Returns(code, s, a, q, i, st, r)
  {
    LoadedSplit(code, a, c, [Op(IRet)], pos);
    OpLoaded(code, a + |c|, Op(IRet), pos);
    var st1 := st + [Ret(q)];
    assert Pop(st1) == st;
    match r {
      case Ok(j) => ReachesStep(code, s, Run(a, i, st1), Run(a + |c|, j, st1), Run(q, j, st));
      case _ =>
    }
  }

  lemma CallGood(code: Code, pos: seq<int>, s: Subject, k: nat, fl: Charset, a: int, i: nat, st: seq<Entry>, r: Result)
    requires k < |pos| && Loaded(code, a, OpenCall(k), pos) && Returns(code, s, pos[k], a + 2, i, st, r)
    ensures Good(code, s, false, fl, a, a + 2, i, st, r)
  {
    assert code[a + 0] == ResCell(OpenCall(k), 0, a, pos);
    assert code[a + 1] == ResCell(OpenCall(k), 1, a, pos);
    var st1 := st + [Ret(a + 2)];
    ReachStep(code, s, Run(a, i, st));
    match r {
      case Out =>
      case Fail => ReachTrans(code, s, Run(a, i, st), Run(pos[k], i, st1), FailTo(st));
      case Ok(j) => ReachTrans(code, s, Run(a, i, st), Run(pos[k], i, st1), Run(a + 2, j, st));
    }
  }

  // ----- grammars

  function Shift(a: int, pos: seq<int>): (r: seq<int>)
    ensures |r| == |pos| && forall k | 0 <= k < |pos| :: r[k] == a + pos[k]
  {
    seq(|pos|, k requires 0 <= k < |pos| => a + pos[k])
  }

  // A body whose calls were closed relative to its start is loaded with absolute positions.
  lemma ResolvedLoaded(code: Code, a: int, body: Code, rel: seq<int>, outer: seq<int>)
    requires Loaded(code, a, Resolved(body, rel), outer)
    ensures Loaded(code, a, body, Shift(a, rel))
  {
    forall k: nat | k < |body| ensures code[a + k] == ResCell(body, k, a, Shift(a, rel)) {
      assert code[a + k] == ResCell(Resolved(body, rel), k, a, outer);
    }
  }

  lemma {:induction false} RulesLoaded(code: Code, a: int, d: nat, rules: seq<Tree>, n: nat, pos: seq<int>, k: nat)
    requires k < n <= |rules| && Loaded(code, a, GenRules(false, d, rules, n), pos)
    ensures Loaded(code, a + |GenRules(false, d, rules, k)|,
                   Gen(false, d, rules, rules[k], false, NoTest, FullSet()) + [Op(IRet)], pos)
    decreases n
  {
    var c := Gen(false, d, rules, rules[n - 1], false, NoTest, FullSet());
    var before := GenRules(false, d, rules, n - 1);
    RulesEnd(d, rules, n - 1);
    assert before + c + [Op(IRet)] == before + (c + [Op(IRet)]);
    LoadedSplit(code, a, before, c + [Op(IRet)], pos);
    if k < n - 1 { RulesLoaded(code, a, d, rules, n - 1, pos, k); }
  }

  lemma RulesEnd(d: nat, rules: seq<Tree>, n: nat)
    requires n <= |rules|
    ensures EndsClosed(GenRules(false, d, rules, n))
  {
  }

  lemma GrammarGood(code: Code, pos: seq<int>, s: Subject, body: Code, rel: seq<int>, fl: Charset, a: int, i: nat,
                    st: seq<Entry>, r: Result)
    requires Loaded(code, a, Jump(ICall, 4) + Jump(IJmp, 2 + |body|) + Resolved(body, rel), pos)
    requires Returns(code, s, a + 4, a + 2, i, st, r)
    ensures Good(code, s, false, fl, a, a + 4 + |body|, i, st, r)
  {
    var call, jump := Jump(ICall, 4), Jump(IJmp, 2 + |body|);
    LoadedSplit(code, a, call + jump, Resolved(body, rel), pos);
    LoadedSplit(code, a, call, jump, pos);
    JumpLoaded(code, a, ICall, 4, pos);
    JumpLoaded(code, a + 2, IJmp, 2 + |body|, pos);
    ReachStep(code, s, Run(a, i, st));
    var called := Run(a + 4, i, st + [Ret(a + 2)]);
    match r {
      case Out =>
      case Fail => ReachTrans(code, s, Run(a, i, st), called, FailTo(st));
      case Ok(j) =>
        ReachTrans(code, s, Run(a, i, st), called, Run(a + 2, j, st));
        ReachesStep(code, s, Run(a, i, st), Run(a + 2, j, st), Run(a + 4 + |body|, j, st));
    }
  }

  lemma GrammarReady(code: Code, a: int, d: nat, rules: seq<Tree>, pos: seq<int>)
    requires RulesOk(d, rules)
    requires var body, rel := GenRules(false, d, rules, |rules|), Positions(false, d, rules);
             Loaded(code, a, Jump(ICall, 4) + Jump(IJmp, 2 + |body|) + Resolved(body, rel), pos)
    ensures var inner := Shift(a + 4, Positions(false, d, rules));
            Ready(code, d, rules, inner) && inner[0] == a + 4
  {
    hide Gen, ResCell;
    var body, rel := GenRules(false, d, rules, |rules|), Positions(false, d, rules);
    LoadedSplit(code, a, Jump(ICall, 4) + Jump(IJmp, 2 + |body|), Resolved(body, rel), pos);
    ResolvedLoaded(code, a + 4, body, rel, pos);
    var inner := Shift(a + 4, rel);
    forall k: nat | k < |rules| ensures RuleLoaded(code, d, rules, inner, k) {
      RulesLoaded(code, a + 4, d, rules, |rules|, inner, k);
    }
    assert inner[0] == a + 4;
  }

  // ----- the main induction

  /** What the lemmas below assume of a tree and of the state in which its code is entered. */
  ghost predicate Entered(d: nat, g: seq<Tree>, pos: seq<int>, code: Code, s: Subject, t: Tree, opt: bool, tt: Test,
                          fl: Charset, i: nat, st: seq<Entry>)
  {
    Ready(code, d, g, pos) && TreeOk(d, t) && i <= |s| && Passes(tt, s, i) && CanBeOpt(opt, fl, st)
  }

  /** The code emitted for t is right in every context: for every subject, position and stack, for any
      'opt', any dominating test that the position passes, and any follow set. */
  lemma {:induction false} GenCorrect(f: nat, d: nat, g: seq<Tree>, pos: seq<int>, code: Code, s: Subject, t: Tree,
                                      opt: bool, tt: Test, fl: Charset, a: int, i: nat, st: seq<Entry>)
    requires Entered(d, g, pos, code, s, t, opt, tt, fl, i, st)
    requires Loaded(code, a, Gen(false, d, g, t, opt, tt, fl), pos)
    ensures Good(code, s, opt, fl, a, a + |Gen(false, d, g, t, opt, tt, fl)|, i, st, Peg(f, g, t, s, i))
    decreases f, t, |s| - i, 4
  {
    hide Good, Loaded, Ready, Gen, Peg, Fixedlen, Getfirst, Headfail;
    if t.TSeq? {
      SeqCorrect(f, d, g, pos, code, s, t.p1, t.p2, opt, tt, fl, a, i, st);
    } else if t.TChoice? {
      ChoiceCorrect(f, d, g, pos, code, s, t.p1, t.p2, opt, tt, fl, a, i, st);
    } else {
      GenPlain(false, d, g, t, opt, tt, fl);
      if t.TRep? && !IsCharPattern(t.p) && !RepByTest(d, g, t.p, fl) {
        var f1, c := Getfirst(d, g, t.p, FullSet()), Gen(false, d, g, t.p, false, NoTest, FullSet());
        ChoiceLoopCorrect(f, d, g, pos, code, s, t.p, opt, fl, a, i, st, f1, c);
      } else {
        PlainCorrect(f, d, g, pos, code, s, t, tt, fl, a, i, st);
        var b := a + |Gen(false, d, g, t, opt, tt, fl)|;
        if Peg(f, g, t, s, i) != Out {
          GoodAsOpt(code, s, opt, fl, a, b, i, st, Peg(f, g, t, s, i));
        } else {
          OutIsGood(code, s, opt, fl, a, b, i, st);
        }
      }
    }
  }

  // 'opt' matters for choices, for the second part of a sequence and for repetitions that need a choice.
  lemma GenPlain(tail: bool, d: nat, g: seq<Tree>, t: Tree, opt: bool, tt: Test, fl: Charset)
    requires !t.TSeq? && !t.TChoice?
    ensures if t.TRep? && !IsCharPattern(t.p) && !RepByTest(d, g, t.p, fl) then
              Gen(tail, d, g, t, opt, tt, fl)
              == ChoiceLoop(Getfirst(d, g, t.p, FullSet()), opt, Gen(tail, d, g, t.p, false, NoTest, FullSet()))
            else Gen(tail, d, g, t, opt, tt, fl) == Gen(tail, d, g, t, false, tt, fl)
  {
  }

  lemma GenChoice(tail: bool, d: nat, g: seq<Tree>, p1: Tree, p2: Tree, opt: bool, tt: Test, fl: Charset)
    ensures var f1 := Getfirst(d, g, p1, FullSet());
            var c2 := Gen(tail, d, g, p2, opt, NoTest, fl);
            var c := Gen(tail, d, g, TChoice(p1, p2), opt, tt, fl);
            if ChoiceByTest(d, g, p1, p2, fl) then
              c == TestThenElse(f1.cs, Gen(tail, d, g, p1, false, TestOf(f1.cs), fl), c2, p2.TTrue?)
            else if opt && p2.TTrue? then
              c == Jump(IPartialCommit, 2) + Gen(tail, d, g, p1, true, NoTest, FullSet())
            else
              c == OrElse(f1, Gen(tail, d, g, p1, p2.TTrue?, OptTestOf(f1), FullSet()), c2)
    ensures Gen(tail, d, g, TTrue, opt, NoTest, fl) == []
  {
  }

  lemma {:induction false} SeqCorrect(f: nat, d: nat, g: seq<Tree>, pos: seq<int>, code: Code, s: Subject,
                                      p1: Tree, p2: Tree, opt: bool, tt: Test, fl: Charset, a: int, i: nat, st: seq<Entry>)
    requires Entered(d, g, pos, code, s, TSeq(p1, p2), opt, tt, fl, i, st)
    requires Loaded(code, a, Gen(false, d, g, TSeq(p1, p2), opt, tt, fl), pos)
    ensures Good(code, s, opt, fl, a, a + |Gen(false, d, g, TSeq(p1, p2), opt, tt, fl)|, i, st, Peg(f, g, TSeq(p1, p2), s, i))
    decreases f, TSeq(p1, p2), |s| - i, 3
  {
    hide Good, Loaded, Ready, Getfirst, Checkaux, Has;
    var fl1, tt2 := SeqFollow(d, g, p1, p2, fl), SeqTest(d, g, p1, tt);
    var c1 := Gen(false, d, g, p1, false, tt, fl1);
    var c2 := Gen(false, d, g, p2, opt, tt2, fl);
    GenEnds(false, d, g, p1, false, tt, fl1);
    LoadedSplit(code, a, c1, c2, pos);
    var b := a + |c1|;
    GenCorrect(f, d, g, pos, code, s, p1, false, tt, fl1, a, i, st);
    match Peg(f, g, p1, s, i) {
      case Ok(j) =>
        if Fixedlen(d, g, p1) == 0 { FixedlenSound(d, f, g, p1, s, i); }
        GenCorrect(f, d, g, pos, code, s, p2, opt, tt2, fl, b, j, st);
        if j < |s| && !Has(fl1, s[j]) { GivenUp(f, d, g, s, p2, fl, j); }
        SeqGood(code, s, opt, fl1, fl, a, b, b + |c2|, i, st, j, Peg(f, g, p2, s, j));
      case r => StoppedIsGood(code, s, opt, fl, fl1, a, b + |c2|, b, i, st, r);
    }
  }

  // Entering the first alternative of a choice that needs no stack entry.
  lemma {:induction false} ThenElseCorrect(f: nat, d: nat, g: seq<Tree>, pos: seq<int>, code: Code, s: Subject,
                                           p1: Tree, p2: Tree, opt: bool, fl: Charset, a: int, i: nat, st: seq<Entry>,
                                           cs: Charset, c1: Code, c2: Code)
    requires Entered(d, g, pos, code, s, TChoice(p1, p2), opt, NoTest, fl, i, st) && ChoiceByTest(d, g, p1, p2, fl)
    requires cs == Getfirst(d, g, p1, FullSet()).cs
    requires c1 == Gen(false, d, g, p1, false, TestOf(cs), fl) && c2 == Gen(false, d, g, p2, opt, NoTest, fl)
    requires Loaded(code, a, TestThenElse(cs, c1, c2, p2.TTrue?), pos) && (p2.TTrue? ==> c2 == [])
    ensures Good(code, s, opt, fl, a, a + |TestThenElse(cs, c1, c2, p2.TTrue?)|, i, st, Peg(f, g, TChoice(p1, p2), s, i))
    decreases f, TChoice(p1, p2), |s| - i, 0
  {
    hide Reach, Gen, Loaded, Ready, Fixedlen, Getfirst, Headfail;
    GenEnds(false, d, g, p1, false, TestOf(cs), fl);
    ThenElseSplit(code, a, cs, c1, c2, p2.TTrue?, pos);
    if InSet(cs, s, i) {
      TestPasses(cs, s, i);
      GenCorrect(f, d, g, pos, code, s, p1, false, TestOf(cs), fl, a + TestSize(cs), i, st);
    }
    var e := a + |TestThenElse(cs, c1, c2, p2.TTrue?)|;
    GenCorrect(f, d, g, pos, code, s, p2, opt, NoTest, fl, e - |c2|, i, st);
    ThenElseFirst(f, d, g, s, p1, p2, fl, i);
    ThenElseGood(code, pos, s, cs, c1, c2, p2.TTrue?, opt, fl, a, i, st, Peg(f, g, p1, s, i), Peg(f, g, p2, s, i));
  }

  // Why the test alone may choose between the two alternatives.
  lemma ThenElseFirst(f: nat, d: nat, g: seq<Tree>, s: Subject, p1: Tree, p2: Tree, fl: Charset, i: nat)
    requires i <= |s| && ChoiceByTest(d, g, p1, p2, fl)
    ensures var cs, r1 := Getfirst(d, g, p1, FullSet()).cs, Peg(f, g, p1, s, i);
            if InSet(cs, s, i) then r1.Fail? ==> MayGiveUp(fl, s, i, Peg(f, g, p2, s, i)) else !r1.Ok?
  {
    NoMatch(f, d, g, p1, s, i);
    if Headfail(d, g, p1) {
      HeadfailExact(d, f, g, p1, FullSet(), s, i);
    } else if InSet(Getfirst(d, g, p1, FullSet()).cs, s, i) {
      GivenUp(f, d, g, s, p2, fl, i);
    }
  }

  lemma {:induction false} PartialCorrect(f: nat, d: nat, g: seq<Tree>, pos: seq<int>, code: Code, s: Subject,
                                          p1: Tree, fl: Charset, a: int, i: nat, st: seq<Entry>, c1: Code)
    requires Entered(d, g, pos, code, s, TChoice(p1, TTrue), true, NoTest, fl, i, st)
    requires c1 == Gen(false, d, g, p1, true, NoTest, FullSet()) && Loaded(code, a, Jump(IPartialCommit, 2) + c1, pos)
    ensures Good(code, s, true, fl, a, a + 2 + |c1|, i, st, Peg(f, g, TChoice(p1, TTrue), s, i))
    decreases f, TChoice(p1, TTrue), |s| - i, 0
  {
    hide Reach, Gen, Loaded;
    LoadedSplit(code, a, Jump(IPartialCommit, 2), c1, pos);
    GenCorrect(f, d, g, pos, code, s, p1, true, NoTest, FullSet(), a + 2, i, Pop(st) + [Back(Top(st).p, i)]);
    PartialGood(code, pos, s, c1, fl, a, i, st, Peg(f, g, p1, s, i));
  }

  lemma {:induction false} OrElseCorrect(f: nat, d: nat, g: seq<Tree>, pos: seq<int>, code: Code, s: Subject,
                                         p1: Tree, p2: Tree, opt: bool, fl: Charset, a: int, i: nat, st: seq<Entry>,
                                         f1: First, c1: Code, c2: Code)
    requires Entered(d, g, pos, code, s, TChoice(p1, p2), opt, NoTest, fl, i, st)
    requires f1 == Getfirst(d, g, p1, FullSet()) && c2 == Gen(false, d, g, p2, opt, NoTest, fl)
    requires c1 == Gen(false, d, g, p1, p2.TTrue?, OptTestOf(f1), FullSet())
    requires Loaded(code, a, OrElse(f1, c1, c2), pos) && (p2.TTrue? ==> c2 == [])
    ensures Good(code, s, opt, fl, a, a + |OrElse(f1, c1, c2)|, i, st, Peg(f, g, TChoice(p1, p2), s, i))
    decreases f, TChoice(p1, p2), |s| - i, 0
  {
    hide Reach, Gen, Loaded, Ready, Fixedlen, Getfirst, Headfail;
    NoMatch(f, d, g, p1, s, i);
    GenEnds(false, d, g, p1, p2.TTrue?, OptTestOf(f1), FullSet());
    OrElseSplit(code, a, f1, c1, c2, pos);
    var a2, e := a + |OptTest(f1, 2 + |c1| + 2)| + 2, a + |OrElse(f1, c1, c2)|;
    if f1.e || InSet(f1.cs, s, i) {
      TestPasses(f1.cs, s, i);
      GenCorrect(f, d, g, pos, code, s, p1, p2.TTrue?, OptTestOf(f1), FullSet(), a2, i, st + [Back(e - |c2|, i)]);
    }
    GenCorrect(f, d, g, pos, code, s, p2, opt, NoTest, fl, e - |c2|, i, st);
    OrElseGood(code, pos, s, f1, c1, c2, p2.TTrue?, opt, fl, a, i, st, Peg(f, g, p1, s, i), Peg(f, g, p2, s, i));
  }

  lemma {:induction false} ChoiceCorrect(f: nat, d: nat, g: seq<Tree>, pos: seq<int>, code: Code, s: Subject,
                                         p1: Tree, p2: Tree, opt: bool, tt: Test, fl: Charset, a: int, i: nat, st: seq<Entry>)
    requires Entered(d, g, pos, code, s, TChoice(p1, p2), opt, tt, fl, i, st)
    requires Loaded(code, a, Gen(false, d, g, TChoice(p1, p2), opt, tt, fl), pos)
    ensures Good(code, s, opt, fl, a, a + |Gen(false, d, g, TChoice(p1, p2), opt, tt, fl)|, i, st,
                 Peg(f, g, TChoice(p1, p2), s, i))
    decreases f, TChoice(p1, p2), |s| - i, 3
  {
    hide Good, Loaded, Ready, Gen, Fixedlen, Getfirst, Headfail, Peg, Checkaux, Disjoint;
    GenChoice(false, d, g, p1, p2, opt, tt, fl);
    var f1 := Getfirst(d, g, p1, FullSet());
    var c2 := Gen(false, d, g, p2, opt, NoTest, fl);
    if ChoiceByTest(d, g, p1, p2, fl) {
      var c1 := Gen(false, d, g, p1, false, TestOf(f1.cs), fl);
      ThenElseCorrect(f, d, g, pos, code, s, p1, p2, opt, fl, a, i, st, f1.cs, c1, c2);
    } else if opt && p2.TTrue? {
      PartialCorrect(f, d, g, pos, code, s, p1, fl, a, i, st, Gen(false, d, g, p1, true, NoTest, FullSet()));
    } else {
      var c1 := Gen(false, d, g, p1, p2.TTrue?, OptTestOf(f1), FullSet());
      OrElseCorrect(f, d, g, pos, code, s, p1, p2, opt, fl, a, i, st, f1, c1, c2);
    }
  }

  lemma TestPasses(cs: Charset, s: Subject, i: nat)
    ensures Passes(TestOf(cs), s, i) <==> InSet(cs, s, i)
  {
    if KindOf(cs).Single? { assert IsSingle(cs, KindOf(cs).c); }
  }

  lemma {:induction false} ChoiceLoopCorrect(f: nat, d: nat, g: seq<Tree>, pos: seq<int>, code: Code, s: Subject, p: Tree,
                                             opt: bool, fl: Charset, a: int, i: nat, st: seq<Entry>, f1: First, c: Code)
    requires Entered(d, g, pos, code, s, TRep(p), opt, NoTest, fl, i, st)
    requires f1 == Getfirst(d, g, p, FullSet()) && c == Gen(false, d, g, p, false, NoTest, FullSet())
    requires Loaded(code, a, ChoiceLoop(f1, opt, c), pos)
    ensures Good(code, s, opt, fl, a, a + |ChoiceLoop(f1, opt, c)|, i, st, Peg(f, g, TRep(p), s, i))
    decreases f, TRep(p), |s| - i, 3
  {
    hide Reach, Gen, Loaded, Ready, Fixedlen, Getfirst, Headfail;
    GenEnds(false, d, g, p, false, NoTest, FullSet());
    ChoiceLoopSplit(code, a, f1, opt, c, pos);
    var e, base := a + |ChoiceLoop(f1, opt, c)|, LoopBase(opt, st);
    var a2, l := a + |OptTest(f1, 2 + |c| + 2)| + 2, LoopLabel(opt, e, st);
    JumpLoaded(code, a2 + |c|, IPartialCommit, -|c|, pos);
    NoMatch(f, d, g, p, s, i);
    var r := Peg(f, g, TRep(p), s, i);
    if r != Out {
      RoundsCorrect(f, d, g, pos, code, s, p, a2, l, i, base);
      ChoiceLoopGood(code, pos, s, f1, opt, c, fl, a, i, st, r.end);
    }
  }

  lemma {:induction false} RoundsCorrect(f: nat, d: nat, g: seq<Tree>, pos: seq<int>, code: Code, s: Subject, p: Tree,
                                         a: int, l: int, i: nat, st: seq<Entry>)
    requires Ready(code, d, g, pos) && TreeOk(d, p) && i <= |s|
    requires Loaded(code, a, Gen(false, d, g, p, false, NoTest, FullSet()), pos)
    requires var b := a + |Gen(false, d, g, p, false, NoTest, FullSet())|;
             IsOp(code, b, IPartialCommit) && HasLabel(code, b) && Target(code, b) == a
    requires Peg(f, g, TRep(p), s, i) != Out
    ensures var r := Peg(f, g, TRep(p), s, i);
            r.Ok? && Reach(code, s, Run(a, i, st + [Back(l, i)]), Run(l, r.end, st))
    decreases f, TRep(p), |s| - i, 0
  {
    hide Reach, Gen, Loaded;
    var b := a + |Gen(false, d, g, p, false, NoTest, FullSet())|;
    GenCorrect(f, d, g, pos, code, s, p, false, NoTest, FullSet(), a, i, st + [Back(l, i)]);
    var r := Peg(f, g, p, s, i);
    if r.Ok? { RoundsCorrect(f, d, g, pos, code, s, p, a, l, r.end, st); }
    RoundGood(code, s, a, b, l, i, st, r, Peg(f, g, TRep(p), s, i).end);
  }

  lemma {:induction false} TestLoopCorrect(f: nat, d: nat, g: seq<Tree>, pos: seq<int>, code: Code, s: Subject, p: Tree,
                                           fl: Charset, a: int, i: nat, st: seq<Entry>)
    requires Ready(code, d, g, pos) && TreeOk(d, p) && i <= |s|
    requires !IsCharPattern(p) && RepByTest(d, g, p, fl)
    requires var cs := Getfirst(d, g, p, FullSet()).cs;
             Loaded(code, a, TestLoop(cs, Gen(false, d, g, p, false, TestOf(cs), FullSet())), pos)
    ensures var cs := Getfirst(d, g, p, FullSet()).cs;
            Good(code, s, false, fl, a, a + |TestLoop(cs, Gen(false, d, g, p, false, TestOf(cs), FullSet()))|, i, st,
                 Peg(f, g, TRep(p), s, i))
    decreases f, TRep(p), |s| - i, 0
  {
    hide Reach, Gen, Loaded, Ready, Getfirst, Headfail, Good, RepByTest;
    var cs := Getfirst(d, g, p, FullSet()).cs;
    var c := Gen(false, d, g, p, false, TestOf(cs), FullSet());
    GenEnds(false, d, g, p, false, TestOf(cs), FullSet());
    TestLoopSplit(code, a, cs, c, pos);
    var r := Peg(f, g, p, s, i);
    TestDecides(f, d, g, p, fl, s, i);
    if InSet(cs, s, i) {
      TestPasses(cs, s, i);
      GenCorrect(f, d, g, pos, code, s, p, false, TestOf(cs), FullSet(), a + TestSize(cs), i, st);
    }
    if r.Ok? && r.end > i {
      TestLoopCorrect(f, d, g, pos, code, s, p, fl, a, r.end, st);
      TestLoopGood(code, pos, s, cs, c, fl, a, i, st, r, Peg(f, g, TRep(p), s, r.end));
    } else if !r.Ok? {
      TestLoopGood(code, pos, s, cs, c, fl, a, i, st, r, Out);
    } else {
      GoodOut(code, s, fl, a, a + |TestLoop(cs, c)|, i, st);
    }
  }

  // What the test in front of a round tells of the round.
  lemma TestDecides(f: nat, d: nat, g: seq<Tree>, p: Tree, fl: Charset, s: Subject, i: nat)
    requires i <= |s| && RepByTest(d, g, p, fl)
    ensures var cs, r := Getfirst(d, g, p, FullSet()).cs, Peg(f, g, p, s, i);
      (!InSet(cs, s, i) ==> !r.Ok?) && (InSet(cs, s, i) && r.Fail? ==> !Has(fl, s[i]))
  {
    hide Getfirst, Headfail, Peg;
    NoMatch(f, d, g, p, s, i);
    if Headfail(d, g, p) { HeadfailExact(d, f, g, p, FullSet(), s, i); }
  }

  lemma GoodOut(code: Code, s: Subject, fl: Charset, a: int, b: int, i: nat, st: seq<Entry>)
    ensures Good(code, s, false, fl, a, b, i, st, Out)
  {
  }

  lemma LeafCorrect(f: nat, d: nat, g: seq<Tree>, pos: seq<int>, code: Code, s: Subject, t: Tree,
                    tt: Test, fl: Charset, a: int, i: nat, st: seq<Entry>)
    requires i <= |s| && Passes(tt, s, i) && (t.TChar? || t.TSet? || t.TAny? || t.TTrue? || t.TFalse?)
    requires Loaded(code, a, Gen(false, d, g, t, false, tt, fl), pos)
    ensures Good(code, s, false, fl, a, a + |Gen(false, d, g, t, false, tt, fl)|, i, st, Peg(f, g, t, s, i))
  {
    hide Reach;
    match t
    case TChar(c) => CharGood(code, pos, s, c, tt, fl, a, i, st);
    case TSet(cs) => SetGood(code, pos, s, cs, tt, fl, a, i, st);
    case TAny => OpLoaded(code, a, Op(IAny), pos); ReachStep(code, s, Run(a, i, st));
    case TTrue => ReachRefl(code, s, Run(a, i, st));
    case TFalse => OpLoaded(code, a, Op(IFail), pos); ReachStep(code, s, Run(a, i, st));
  }

  /** The constructions that take no notice of 'opt'. */
  lemma {:induction false} PlainCorrect(f: nat, d: nat, g: seq<Tree>, pos: seq<int>, code: Code, s: Subject, t: Tree,
                                        tt: Test, fl: Charset, a: int, i: nat, st: seq<Entry>)
    requires Ready(code, d, g, pos) && TreeOk(d, t) && i <= |s| && Passes(tt, s, i)
    requires !t.TSeq? && !t.TChoice? && (t.TRep? ==> IsCharPattern(t.p) || RepByTest(d, g, t.p, fl))
    requires Loaded(code, a, Gen(false, d, g, t, false, tt, fl), pos)
    ensures Good(code, s, false, fl, a, a + |Gen(false, d, g, t, false, tt, fl)|, i, st, Peg(f, g, t, s, i))
    decreases f, t, |s| - i, 3
  {
    hide Good, Loaded, Ready, Gen, Fixedlen, Getfirst, Headfail, Checkaux, Has;
    if t.TChar? || t.TSet? || t.TAny? || t.TTrue? || t.TFalse? {
      LeafCorrect(f, d, g, pos, code, s, t, tt, fl, a, i, st);
    } else if t.TRep? {
      GenRepPlain(false, d, g, t.p, tt, fl);
      if IsCharPattern(t.p) {
        SpanIsRep(f, g, t.p, s, i);
        SpanGood(code, pos, s, ToCharset(t.p), fl, a, i, st);
      } else {
        TestLoopCorrect(f, d, g, pos, code, s, t.p, fl, a, i, st);
      }
    } else {
      WrapCorrect(f, d, g, pos, code, s, t, tt, fl, a, i, st);
    }
  }

  lemma GenRepPlain(tail: bool, d: nat, g: seq<Tree>, p: Tree, tt: Test, fl: Charset)
    requires IsCharPattern(p) || RepByTest(d, g, p, fl)
    ensures var cs := Getfirst(d, g, p, FullSet()).cs;
            Gen(tail, d, g, TRep(p), false, tt, fl)
            == if IsCharPattern(p) then SetCells(ISpan, ToCharset(p))
               else TestLoop(cs, Gen(tail, d, g, p, false, TestOf(cs), FullSet()))
  {
  }

  lemma GenWrap(tail: bool, d: nat, g: seq<Tree>, t: Tree, tt: Test, fl: Charset)
    ensures t.TNot? ==> Gen(tail, d, g, t, false, tt, fl)
                        == NotCells(Getfirst(d, g, t.p, FullSet()), Headfail(d, g, t.p), Gen(tail, d, g, t.p, false, NoTest, FullSet()))
    ensures t.TAnd? ==> Gen(tail, d, g, t, false, tt, fl)
                        == AndCells(Fixedlen(d, g, t.p), Gen(tail, d, g, t.p, false, tt, FullSet()))
    ensures t.TBehind? ==> Gen(tail, d, g, t, false, tt, fl)
                           == BehindCells(t.n) + Gen(tail, d, g, t.p, false, NoTest, FullSet())
    ensures t.TCall? ==> Gen(tail, d, g, t, false, tt, fl) == OpenCall(t.rule)
    ensures t.TGrammar? ==> var body := GenRules(tail, d, t.rules, |t.rules|);
                            Gen(tail, d, g, t, false, tt, fl)
                            == Jump(ICall, 4) + Jump(IJmp, 2 + |body|) + Closed(tail, body, Positions(tail, d, t.rules))
  {
  }

  lemma {:induction false} WrapCorrect(f: nat, d: nat, g: seq<Tree>, pos: seq<int>, code: Code, s: Subject, t: Tree,
                                       tt: Test, fl: Charset, a: int, i: nat, st: seq<Entry>)
    requires Ready(code, d, g, pos) && TreeOk(d, t) && i <= |s| && Passes(tt, s, i)
    requires t.TNot? || t.TAnd? || t.TBehind? || t.TCall? || t.TGrammar?
    requires Loaded(code, a, Gen(false, d, g, t, false, tt, fl), pos)
    ensures Good(code, s, false, fl, a, a + |Gen(false, d, g, t, false, tt, fl)|, i, st, Peg(f, g, t, s, i))
    decreases f, t, |s| - i, 2
  {
    hide Good, Loaded, Ready, Gen, GenRules, Fixedlen, Getfirst, Headfail, Checkaux, Passes, Has;
    GenWrap(false, d, g, t, tt, fl);
    match t
    case TNot(p) => NotCorrect(f, d, g, pos, code, s, p, fl, a, i, st, Getfirst(d, g, p, FullSet()),
                 Gen(false, d, g, p, false, NoTest, FullSet()));
    case TAnd(p) => AndCorrect(f, d, g, pos, code, s, p, tt, fl, a, i, st, Fixedlen(d, g, p),
                 Gen(false, d, g, p, false, tt, FullSet()));
    case TBehind(n, p) => BehindCorrect(f, d, g, pos, code, s, n, p, fl, a, i, st);
    case TCall(k) =>
      if f > 0 && k < |g| {
        RuleCorrect(f - 1, d, g, pos, code, s, k, a + 2, i, st);
        CallGood(code, pos, s, k, fl, a, i, st, Peg(f - 1, g, g[k], s, i));
      } else {
        OutIsGood(code, s, false, fl, a, a + 2, i, st);
      }
    case TGrammar(rules) => GrammarCorrect(f, d, pos, code, s, rules, fl, a, i, st);
  }

  lemma PegNot(f: nat, g: seq<Tree>, p: Tree, s: Subject, i: nat)
    requires i <= |s|
    ensures Peg(f, g, TNot(p), s, i) == NotResult(Peg(f, g, p, s, i), i)
  {
  }

  lemma {:induction false} NotCorrect(f: nat, d: nat, g: seq<Tree>, pos: seq<int>, code: Code, s: Subject, p: Tree,
                                      fl: Charset, a: int, i: nat, st: seq<Entry>, f1: First, c: Code)
    requires Ready(code, d, g, pos) && TreeOk(d, p) && i <= |s|
    requires f1 == Getfirst(d, g, p, FullSet()) && c == Gen(false, d, g, p, false, NoTest, FullSet())
    requires Loaded(code, a, NotCells(f1, Headfail(d, g, p), c), pos)
    ensures Good(code, s, false, fl, a, a + |NotCells(f1, Headfail(d, g, p), c)|, i, st, Peg(f, g, TNot(p), s, i))
    decreases f, TNot(p), |s| - i, 0
  {
    hide Good, Gen, Loaded, Ready, Fixedlen, Getfirst, Headfail, KindOf, TestSize, Peg, Has, Checkaux, OptTest, TreeOk;
    var r := Peg(f, g, p, s, i);
    PegNot(f, g, p, s, i);
    NoMatch(f, d, g, p, s, i);
    if Headfail(d, g, p) {
      HeadfailExact(d, f, g, p, FullSet(), s, i);
      NotHeadGood(code, pos, s, f1, c, fl, a, i, st, r);
    } else {
      GenEnds(false, d, g, p, false, NoTest, FullSet());
      NotSplit(code, a, f1, c, pos);
      var e := a + |NotCells(f1, false, c)|;
      GenCorrect(f, d, g, pos, code, s, p, false, NoTest, FullSet(), e - 1 - |c|, i, st + [Back(e, i)]);
      NotGood(code, pos, s, f1, c, fl, a, i, st, r);
    }
  }

  lemma {:induction false} AndCorrect(f: nat, d: nat, g: seq<Tree>, pos: seq<int>, code: Code, s: Subject, p: Tree, tt: Test,
                                      fl: Charset, a: int, i: nat, st: seq<Entry>, n: int, c: Code)
    requires Ready(code, d, g, pos) && TreeOk(d, p) && i <= |s| && Passes(tt, s, i)
    requires n == Fixedlen(d, g, p) && c == Gen(false, d, g, p, false, tt, FullSet())
    requires Loaded(code, a, AndCells(n, c), pos)
    ensures Good(code, s, false, fl, a, a + |AndCells(n, c)|, i, st, Peg(f, g, TAnd(p), s, i))
    decreases f, TAnd(p), |s| - i, 0
  {
    hide Reach, Gen, Loaded, Ready, Fixedlen, Getfirst, Headfail;
    var r := Peg(f, g, p, s, i);
    GenEnds(false, d, g, p, false, tt, FullSet());
    if 0 <= n <= MAXBEHIND {
      LoadedSplit(code, a, c, BehindCells(n), pos);
      GenCorrect(f, d, g, pos, code, s, p, false, tt, FullSet(), a, i, st);
      FixedlenSound(d, f, g, p, s, i);
      AndBackGood(code, pos, s, n, c, fl, a, i, st, r);
    } else {
      AndSplit(code, a, c, pos);
      GenCorrect(f, d, g, pos, code, s, p, false, tt, FullSet(), a + 2, i, st + [Back(a + 2 + |c| + 2, i)]);
      AndGood(code, pos, s, c, fl, a, i, st, r);
    }
  }

  lemma {:induction false} BehindCorrect(f: nat, d: nat, g: seq<Tree>, pos: seq<int>, code: Code, s: Subject, n: nat, p: Tree,
                                         fl: Charset, a: int, i: nat, st: seq<Entry>)
    requires Ready(code, d, g, pos) && TreeOk(d, TBehind(n, p)) && i <= |s|
    requires Loaded(code, a, BehindCells(n) + Gen(false, d, g, p, false, NoTest, FullSet()), pos)
    ensures Good(code, s, false, fl, a, a + |BehindCells(n)| + |Gen(false, d, g, p, false, NoTest, FullSet())|, i, st,
                 Peg(f, g, TBehind(n, p), s, i))
    decreases f, TBehind(n, p), |s| - i, 0
  {
    hide Reach, Gen, Loaded;
    var c := Gen(false, d, g, p, false, NoTest, FullSet());
    if n <= i {
      LoadedSplit(code, a, BehindCells(n), c, pos);
      GenCorrect(f, d, g, pos, code, s, p, false, NoTest, FullSet(), a + |BehindCells(n)|, i - n, st);
      FixedlenOfOpen(d, g, p);
      FixedlenSound(d, f, g, p, s, i - n);
      BehindGood(code, pos, s, n, c, fl, a, i, st, Peg(f, g, p, s, i - n));
    } else {
      BehindGood(code, pos, s, n, c, fl, a, i, st, Fail);
    }
  }

  lemma {:induction false} RuleCorrect(f: nat, d: nat, g: seq<Tree>, pos: seq<int>, code: Code, s: Subject, k: nat,
                                       q: int, i: nat, st: seq<Entry>)
    requires Ready(code, d, g, pos) && k < |g| && i <= |s|
    ensures |pos| == |g| && Returns(code, s, pos[k], q, i, st, Peg(f, g, g[k], s, i))
    decreases f, g[k], |s| - i, 5
  {
    hide Good, Loaded, Gen;
    assert RuleLoaded(code, d, g, pos, k);
    var c := Gen(false, d, g, g[k], false, NoTest, FullSet());
    GenEnds(false, d, g, g[k], false, NoTest, FullSet());
    LoadedSplit(code, pos[k], c, [Op(IRet)], pos);
    GenCorrect(f, d, g, pos, code, s, g[k], false, NoTest, FullSet(), pos[k], i, st + [Ret(q)]);
    RuleGood(code, pos, s, c, pos[k], q, i, st, Peg(f, g, g[k], s, i));
  }

  lemma {:induction false} GrammarCorrect(f: nat, d: nat, pos: seq<int>, code: Code, s: Subject,
                                          rules: seq<Tree>, fl: Charset, a: int, i: nat, st: seq<Entry>)
    requires RulesOk(d, rules) && i <= |s|
    requires var body, rel := GenRules(false, d, rules, |rules|), Positions(false, d, rules);
             Loaded(code, a, Jump(ICall, 4) + Jump(IJmp, 2 + |body|) + Resolved(body, rel), pos)
    ensures Good(code, s, false, fl, a, a + 4 + |GenRules(false, d, rules, |rules|)|, i, st, Peg(f, rules, rules[0], s, i))
    decreases f, TGrammar(rules), |s| - i, 0
  {
    hide Good, Loaded;
    var body, rel := GenRules(false, d, rules, |rules|), Positions(false, d, rules);
    GrammarReady(code, a, d, rules, pos);
    RuleCorrect(f, d, rules, Shift(a + 4, rel), code, s, 0, a + 2, i, st);
    GrammarGood(code, pos, s, body, rel, fl, a, i, st, Peg(f, rules, rules[0], s, i));
  }
}
