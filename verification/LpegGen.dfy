// What 'codegen' emits for a tree, as a function of the tree: the code is position independent, since
// every label is kept as an offset.
module LpegGen {
  import opened LpegCharset
  import opened LpegTree
  import opened LpegAnalysis
  import opened LpegVm

  /** The instruction at 'tt', if any: a test that every path to the code has passed. */
  datatype Test = NoTest | TestJmp | TestAny | TestChar(c: Byte) | TestSet(cs: Charset)

  predicate Passes(tt: Test, s: Subject, i: nat) {
    match tt
    case NoTest => true
    case TestJmp => false
    case TestAny => i < |s|
    case TestChar(c) => i < |s| && s[i] == c
    case TestSet(cs) => i < |s| && Has(cs, s[i])
  }

  const PADS: Code := [Pad, Pad, Pad, Pad, Pad, Pad, Pad]

  function Op(op: Opcode): Cell {
    I(op, 0, 0)
  }

  /** 'addoffsetinst' once its label is set. */
  function Jump(op: Opcode, offset: int): Code {
    [Op(op), Off(offset)]
  }

  // ----- tests and one-character patterns

  ghost function TestOf(cs: Charset): Test {
    match KindOf(cs)
    case Empty => TestJmp
    case Full => TestAny
    case Single(c) => TestChar(c)
    case Generic => TestSet(cs)
  }

  ghost function TestSize(cs: Charset): nat {
    if KindOf(cs).Generic? then CHARSETINSTSIZE + 1 else 2
  }

  /** 'codetestset' for a test that must not pass at the end of the subject. */
  ghost function TestCells(cs: Charset, offset: int): (r: Code)
    ensures |r| == TestSize(cs)
  {
    match KindOf(cs)
    case Empty => Jump(IJmp, offset)
    case Full => Jump(ITestAny, offset)
    case Single(c) => [I(ITestChar, c, 0), Off(offset)]
    case Generic => Jump(ITestSet, offset) + [Buf(cs)] + PADS
  }

  function SetCells(op: Opcode, cs: Charset): Code {
    [Op(op), Buf(cs)] + PADS
  }

  /** 'codechar' */
  function CharCells(c: Byte, tt: Test): Code {
    if tt == TestChar(c) then [Op(IAny)] else [I(IChar, c, 0)]
  }

  /** 'codecharset' */
  ghost function CharsetCells(cs: Charset, tt: Test): Code {
    match KindOf(cs)
    case Single(c) => CharCells(c, tt)
    case Generic => if tt == TestSet(cs) then [Op(IAny)] else SetCells(ISet, cs)
    case Empty => [Op(IFail)]
    case Full => [Op(IAny)]
  }

  // ----- layouts of the composite constructions around the code of their parts

  // test(fail(p1)) -> L1; p1; jmp L2; L1: p2; L2:
  ghost function TestThenElse(cs: Charset, c1: Code, c2: Code, emptyp2: bool): Code {
    var jmp := if emptyp2 then [] else Jump(IJmp, 2 + |c2|);
    TestCells(cs, TestSize(cs) + |c1| + |jmp|) + c1 + jmp + c2
  }

  ghost function OptTest(f: First, rest: nat): Code {
    if f.e then [] else TestCells(f.cs, TestSize(f.cs) + rest)
  }

  ghost function OptTestOf(f: First): Test {
    if f.e then NoTest else TestOf(f.cs)
  }

  // test(first(p1)) -> L1; choice L1; p1; commit L2; L1: p2; L2:
  ghost function OrElse(f: First, c1: Code, c2: Code): Code {
    OptTest(f, 2 + |c1| + 2) + Jump(IChoice, 2 + |c1| + 2) + c1 + Jump(ICommit, 2 + |c2|) + c2
  }

  // L1: test(fail(p)) -> L2; p; jmp L1; L2:
  ghost function TestLoop(cs: Charset, c: Code): Code {
    TestCells(cs, TestSize(cs) + |c| + 2) + c + Jump(IJmp, -(TestSize(cs) + |c|))
  }

  // test(fail(p)) -> L2; choice L2 (or partialcommit L1); L1: p; partialcommit L1; L2:
  ghost function ChoiceLoop(f: First, opt: bool, c: Code): Code {
    OptTest(f, 2 + |c| + 2) + (if opt then Jump(IPartialCommit, 2) else Jump(IChoice, 2 + |c| + 2))
    + c + Jump(IPartialCommit, -|c|)
  }

  // test(fail(p)) -> L1; fail; L1:   or   test(fail(p)) -> L1; choice L1; p; failtwice; L1:
  ghost function NotCells(f: First, headfail: bool, c: Code): Code {
    if headfail then OptTest(f, 1) + [Op(IFail)]
    else OptTest(f, 2 + |c| + 1) + Jump(IChoice, 2 + |c| + 1) + c + [Op(IFailTwice)]
  }

  function BehindCells(n: int): Code {
    if n > 0 then [I(IBehind, n, 0)] else []
  }

  // p; behind n   or   choice L1; p; backcommit L2; L1: fail; L2:
  function AndCells(n: int, c: Code): Code {
    if 0 <= n <= MAXBEHIND then c + BehindCells(n)
    else Jump(IChoice, 2 + |c| + 2) + c + Jump(IBackCommit, 3) + [Op(IFail)]
  }

  /** 'addoffsetinst' of an open call: the label is filled in by 'correctcalls'. */
  function OpenCall(k: nat): Code {
    [I(IOpenCall, 0, k), Op(IAny)]
  }

  predicate IsOpen(c: Cell) {
    c.I? && c.op.IOpenCall?
  }

  predicate EndsClosed(c: Code) {
    c == [] || !IsOpen(c[|c| - 1])
  }

  // ----- closing the calls of a grammar

  predicate JumpAt(code: Code, p: int) {
    IsOp(code, p, IJmp) && HasLabel(code, p)
  }

  /** n jumps lead from p to q. */
  ghost predicate Jumps(code: Code, p: int, q: int, n: nat)
    decreases n
  {
    if n == 0 then p == q else JumpAt(code, p) && Jumps(code, Target(code, p), q, n - 1)
  }

  /** Nothing but jumps stands between p and a return. */
  ghost predicate LeadsToRet(code: Code, p: int) {
    exists n: nat, q: int :: Jumps(code, p, q, n) && IsOp(code, q, IRet)
  }

  /** The offset from a call at address a to rule k. */
  function CallOffset(pos: seq<int>, k: int, a: int): int {
    if 0 <= k < |pos| then pos[k] - a else 0
  }

  /** Cell k of a segment once its open calls are closed; the segment starts at address a. */
  function ResCell(seg: Code, k: nat, a: int, pos: seq<int>): Cell
    requires k < |seg|
  {
    if IsOpen(seg[k]) then seg[k].(op := ICall)
    else if k > 0 && IsOpen(seg[k - 1]) then Off(CallOffset(pos, seg[k - 1].key, a + k - 1))
    else seg[k]
  }

  /** The body of a grammar with every open call made a call; positions are relative to the body. */
  function Resolved(body: Code, pos: seq<int>): (r: Code)
    ensures |r| == |body|
  {
    seq(|body|, k requires 0 <= k < |body| => ResCell(body, k, 0, pos))
  }

  /** One round of 'correctcalls': the open call at q becomes a jump if a return follows it, and
      otherwise a call. */
  ghost function CloseCall(code: Code, q: nat, pos: seq<int>): (r: Code)
    requires q + 1 < |code| && IsOpen(code[q])
    ensures |r| == |code|
  {
    code[q := code[q].(op := if LeadsToRet(code, q + 2) then IJmp else ICall)]
        [q + 1 := Off(CallOffset(pos, code[q].key, q))]
  }

  /** 'correctcalls' from address q on. */
  ghost function CorrectCalls(code: Code, q: nat, pos: seq<int>): (r: Code)
    ensures |r| == |code|
    decreases |code| - q
  {
    if !(q < |code| && code[q].I?) then code
    else if IsOpen(code[q]) && q + 1 < |code| then CorrectCalls(CloseCall(code, q, pos), q + 2, pos)
    else CorrectCalls(code, q + Sizei(code[q].op), pos)
  }

  ghost function Closed(tail: bool, body: Code, pos: seq<int>): (r: Code)
    ensures |r| == |body|
  {
    if tail then CorrectCalls(body, 0, pos) else Resolved(body, pos)
  }

  // ----- codegen

  /** 'codechoice' takes its first form. */
  predicate ChoiceByTest(d: nat, g: seq<Tree>, p1: Tree, p2: Tree, fl: Charset) {
    var f1 := Getfirst(d, g, p1, FullSet());
    Headfail(d, g, p1) || (!f1.e && Disjoint(f1.cs, Getfirst(d, g, p2, fl).cs))
  }

  /** 'coderep' can do with a test in front of each round. */
  predicate RepByTest(d: nat, g: seq<Tree>, p: Tree, fl: Charset) {
    var f := Getfirst(d, g, p, FullSet());
    Headfail(d, g, p) || (!f.e && Disjoint(f.cs, fl))
  }

  /** The follow set 'codeseq1' passes to the first part of a sequence. */
  function SeqFollow(d: nat, g: seq<Tree>, p1: Tree, p2: Tree, fl: Charset): Charset {
    if Needfollow(p1) then Getfirst(d, g, p2, fl).cs else FullSet()
  }

  function SeqTest(d: nat, g: seq<Tree>, p1: Tree, tt: Test): Test {
    if Fixedlen(d, g, p1) != 0 then NoTest else tt
  }

  /** 'codegen': opt says that the code ends an optional pattern, tt is the dominating test, fl the
      follow set. With 'tail' the calls that 'correctcalls' finds in tail position are jumps. */
  ghost function Gen(tail: bool, d: nat, g: seq<Tree>, t: Tree, opt: bool, tt: Test, fl: Charset): Code
    decreases t, 0
  {
    match t
    case TChar(c) => CharCells(c, tt)
    case TAny => [Op(IAny)]
    case TSet(cs) => CharsetCells(cs, tt)
    case TTrue => []
    case TFalse => [Op(IFail)]
    case TChoice(p1, p2) =>
      var f1 := Getfirst(d, g, p1, FullSet());
      var c2 := Gen(tail, d, g, p2, opt, NoTest, fl);
      if ChoiceByTest(d, g, p1, p2, fl) then
        TestThenElse(f1.cs, Gen(tail, d, g, p1, false, TestOf(f1.cs), fl), c2, p2.TTrue?)
      else if opt && p2.TTrue? then
        Jump(IPartialCommit, 2) + Gen(tail, d, g, p1, true, NoTest, FullSet())
      else
        OrElse(f1, Gen(tail, d, g, p1, p2.TTrue?, OptTestOf(f1), FullSet()), c2)
    case TRep(p) =>
      var f := Getfirst(d, g, p, FullSet());
      if IsCharPattern(p) then SetCells(ISpan, ToCharset(p))
      else if RepByTest(d, g, p, fl) then TestLoop(f.cs, Gen(tail, d, g, p, false, TestOf(f.cs), FullSet()))
      else ChoiceLoop(f, opt, Gen(tail, d, g, p, false, NoTest, FullSet()))
    case TBehind(n, p) => BehindCells(n) + Gen(tail, d, g, p, false, NoTest, FullSet())
    case TNot(p) =>
      NotCells(Getfirst(d, g, p, FullSet()), Headfail(d, g, p), Gen(tail, d, g, p, false, NoTest, FullSet()))
    case TAnd(p) => AndCells(Fixedlen(d, g, p), Gen(tail, d, g, p, false, tt, FullSet()))
    case TSeq(p1, p2) =>
      Gen(tail, d, g, p1, false, tt, SeqFollow(d, g, p1, p2, fl))
      + Gen(tail, d, g, p2, opt, SeqTest(d, g, p1, tt), fl)
    case TCall(k) => OpenCall(k)
    case TGrammar(rules) =>
      var body := GenRules(tail, d, rules, |rules|);
      Jump(ICall, 4) + Jump(IJmp, 2 + |body|) + Closed(tail, body, Positions(tail, d, rules))
  }

  /** The code of the first n rules, each with its return. */
  ghost function GenRules(tail: bool, d: nat, rules: seq<Tree>, n: nat): Code
    requires n <= |rules|
    decreases rules, n
  {
    if n == 0 then []
    else GenRules(tail, d, rules, n - 1) + Gen(tail, d, rules, rules[n - 1], false, NoTest, FullSet()) + [Op(IRet)]
  }

  /** 'positions': where each rule starts, relative to the first. */
  ghost function Positions(tail: bool, d: nat, rules: seq<Tree>): (r: seq<int>)
    ensures |r| == |rules|
    decreases rules, |rules| + 1
  {
    seq(|rules|, k requires 0 <= k < |rules| => |GenRules(tail, d, rules, k)|)
  }

  /** The program 'compile' builds before 'peephole'. */
  ghost function Program(tail: bool, d: nat, t: Tree): Code {
    Gen(tail, d, [], t, false, NoTest, FullSet()) + [Op(IEnd)]
  }
}
