// The matching machine of LPeg: instruction cells, one step of the interpreter, and its runs.
module LpegVm {
  import opened LpegCharset
  import opened LpegTree

  datatype Opcode =
    | IAny | IChar | ISet | ITestAny | ITestChar | ITestSet | ISpan | IBehind | IRet | IEnd
    | IChoice | IJmp | ICall | IOpenCall | ICommit | IPartialCommit | IBackCommit | IFailTwice | IFail

  /** A cell of the code array holds an instruction, the offset of the instruction before it, or part
      of a character set; a set fills eight cells and is kept whole in the first of them. */
  datatype Cell = I(op: Opcode, aux: int, key: int) | Off(offset: int) | Buf(cs: Charset) | Pad

  type Code = seq<Cell>

  const CHARSETINSTSIZE := 9

  /** 'sizei' */
  function Sizei(op: Opcode): (n: nat)
    ensures n > 0
  {
    match op
    case ISet => CHARSETINSTSIZE
    case ISpan => CHARSETINSTSIZE
    case ITestSet => CHARSETINSTSIZE + 1
    case ITestChar => 2 case ITestAny => 2 case IChoice => 2 case IJmp => 2 case ICall => 2
    case IOpenCall => 2 case ICommit => 2 case IPartialCommit => 2 case IBackCommit => 2
    case _ => 1
  }

  /** A stack entry is a choice (instruction and position to go back to) or a pending call. */
  datatype Entry = Back(p: int, s: nat) | Ret(p: int)

  /** Stuck stands for every state the source's assertions exclude, and for a 'failtwice' that would drop
      a pending call; emitted code is proved never to get there. */
  datatype State = Run(p: int, i: nat, stack: seq<Entry>) | Done(r: Result) | Stuck

  /** The instruction under the bottom entry of the stack. */
  const GIVEUP := -1

  predicate IsOp(code: Code, p: int, op: Opcode) {
    0 <= p < |code| && code[p].I? && code[p].op == op
  }

  function Top(st: seq<Entry>): Entry
    requires st != []
  {
    st[|st| - 1]
  }

  function Pop(st: seq<Entry>): seq<Entry>
    requires st != []
  {
    st[..|st| - 1]
  }

  /** The label 'fail': drop pending calls, then go back to the last choice. */
  function FailTo(st: seq<Entry>): State {
    if st == [] then Stuck
    else match Top(st)
      case Ret(_) => FailTo(Pop(st))
      case Back(p, s) => Run(p, s, Pop(st))
  }

  /** Where the jump or label instruction at p leads. */
  function Target(code: Code, p: int): int
    requires 0 <= p && p + 1 < |code| && code[p + 1].Off?
  {
    p + code[p + 1].offset
  }

  predicate HasLabel(code: Code, p: int) {
    0 <= p && p + 1 < |code| && code[p + 1].Off?
  }

  predicate HasBuf(code: Code, p: int) {
    0 <= p < |code| && code[p].Buf?
  }

  function Goto(code: Code, p: int, i: nat, st: seq<Entry>): State {
    if HasLabel(code, p) then Run(Target(code, p), i, st) else Stuck
  }

  /** 'ISpan': the first position from i on whose character is outside cs. */
  function SpanEnd(cs: Charset, s: Subject, i: nat): (j: nat)
    ensures i <= |s| ==> i <= j <= |s|
    decreases |s| - i
  {
    if i < |s| && Has(cs, s[i]) then SpanEnd(cs, s, i + 1) else i
  }

  /** One turn of the loop in 'match'. */
  function Step(code: Code, s: Subject, c: State): State {
    match c
    case Done(_) => c
    case Stuck => c
    case Run(p, i, st) =>
      if p == GIVEUP then (if st == [] then Done(Fail) else Stuck)
      else if !(0 <= p < |code| && code[p].I?) then Stuck
      else match code[p].op
        case IEnd => if |st| == 1 && Top(st).Back? then Done(Ok(i)) else Stuck
        case IRet => if st != [] && Top(st).Ret? then Run(Top(st).p, i, Pop(st)) else Stuck
        case IAny => if i < |s| then Run(p + 1, i + 1, st) else FailTo(st)
        case IChar => if i < |s| && s[i] == code[p].aux then Run(p + 1, i + 1, st) else FailTo(st)
        case ISet =>
          if !HasBuf(code, p + 1) then Stuck
          else if i < |s| && Has(code[p + 1].cs, s[i]) then Run(p + CHARSETINSTSIZE, i + 1, st) else FailTo(st)
        case ITestAny => if i < |s| then Run(p + 2, i, st) else Goto(code, p, i, st)
        case ITestChar => if i < |s| && s[i] == code[p].aux then Run(p + 2, i, st) else Goto(code, p, i, st)
        case ITestSet =>
          if !HasBuf(code, p + 2) then Stuck
          else if i < |s| && Has(code[p + 2].cs, s[i]) then Run(p + 1 + CHARSETINSTSIZE, i, st)
          else Goto(code, p, i, st)
        case IBehind =>
          var n := code[p].aux;
          if n < 0 then Stuck else if n > i then FailTo(st) else Run(p + 1, i - n, st)
        case ISpan =>
          if !HasBuf(code, p + 1) then Stuck
          else Run(p + CHARSETINSTSIZE, SpanEnd(code[p + 1].cs, s, i), st)
        case IJmp => Goto(code, p, i, st)
        case IChoice => if HasLabel(code, p) then Run(p + 2, i, st + [Back(Target(code, p), i)]) else Stuck
        case ICall => Goto(code, p, i, st + [Ret(p + 2)])
        case ICommit => if st != [] && Top(st).Back? then Goto(code, p, i, Pop(st)) else Stuck
        case IPartialCommit =>
          if st != [] && Top(st).Back? then Goto(code, p, i, Pop(st) + [Back(Top(st).p, i)]) else Stuck
        case IBackCommit => if st != [] && Top(st).Back? then Goto(code, p, Top(st).s, Pop(st)) else Stuck
        case IFailTwice => if st != [] && Top(st).Back? then FailTo(Pop(st)) else Stuck
        case IFail => FailTo(st)
        case IOpenCall => Stuck
  }

  function Steps(code: Code, s: Subject, n: nat, c: State): State {
    if n == 0 then c else Steps(code, s, n - 1, Step(code, s, c))
  }

  ghost predicate Reach(code: Code, s: Subject, c: State, c': State) {
    exists n: nat :: Steps(code, s, n, c) == c'
  }

  /** The state in which 'match' starts. */
  function Start(i: nat): State {
    Run(0, i, [Back(GIVEUP, i)])
  }

  ghost predicate Halts(code: Code, s: Subject, c: State, r: Result) {
    Reach(code, s, c, Done(r))
  }

  lemma {:induction false} StepsAdd(code: Code, s: Subject, m: nat, n: nat, c: State)
    ensures Steps(code, s, m + n, c) == Steps(code, s, n, Steps(code, s, m, c))
  {
    if m > 0 { StepsAdd(code, s, m - 1, n, Step(code, s, c)); }
  }

  lemma ReachRefl(code: Code, s: Subject, c: State)
    ensures Reach(code, s, c, c)
  {
    assert Steps(code, s, 0, c) == c;
  }

  lemma ReachStep(code: Code, s: Subject, c: State)
    ensures Reach(code, s, c, Step(code, s, c))
  {
    assert Steps(code, s, 1, c) == Steps(code, s, 0, Step(code, s, c));
  }

  lemma ReachTrans(code: Code, s: Subject, a: State, b: State, c: State)
    requires Reach(code, s, a, b) && Reach(code, s, b, c)
    ensures Reach(code, s, a, c)
  {
    var m: nat :| Steps(code, s, m, a) == b;
    var n: nat :| Steps(code, s, n, b) == c;
    StepsAdd(code, s, m, n, a);
  }

  lemma {:induction false} StopsStay(code: Code, s: Subject, n: nat, c: State)
    requires !c.Run?
    ensures Steps(code, s, n, c) == c
  {
    if n > 0 { StopsStay(code, s, n - 1, c); }
  }

  /** The machine has one result. */
  lemma HaltsOnce(code: Code, s: Subject, c: State, r: Result, r': Result)
    requires Halts(code, s, c, r) && Halts(code, s, c, r')
    ensures r == r'
  {
    var m: nat :| Steps(code, s, m, c) == Done(r);
    var n: nat :| Steps(code, s, n, c) == Done(r');
    if m <= n {
      StepsAdd(code, s, m, n - m, c);
      StopsStay(code, s, n - m, Done(r));
    } else {
      StepsAdd(code, s, n, m - n, c);
      StopsStay(code, s, m - n, Done(r'));
    }
  }
}
