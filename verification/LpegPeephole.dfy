// Jump threading: 'peephole' preserves every result of a program whose chains of jumps end.
module LpegPeephole {
  import opened LpegCharset
  import opened LpegTree
  import opened LpegVm
  import opened LpegGen
  import opened LpegShape
  import opened LpegTail
  import opened LpegChains

  ghost predicate JumpsTo(code: Code, p: int, q: int) {
    exists n: nat :: Jumps(code, p, q, n)
  }

  /** The jumps from p come to an end. */
  ghost predicate Stops(code: Code, p: int) {
    exists n: nat, q: int :: Jumps(code, p, q, n) && !JumpAt(code, q)
  }

  /** Every chain of jumps ends. */
  ghost predicate AllStop(code: Code) {
    forall p {:trigger Stops(code, p)} :: Stops(code, p)
  }

  /** q is where the jumps from p lead ('finaltarget'). */
  ghost predicate IsFinal(code: Code, p: int, q: int) {
    JumpsTo(code, p, q) && !JumpAt(code, q)
  }

  lemma FinalUnique(code: Code, p: int, q: int, q': int)
    requires IsFinal(code, p, q) && IsFinal(code, p, q')
    ensures q == q'
  {
    var m: nat :| Jumps(code, p, q, m);
    var n: nat :| Jumps(code, p, q', n);
    if m <= n { JumpsDeterministic(code, p, q, m, q', n); } else { JumpsDeterministic(code, p, q', n, q, m); }
  }

  ghost function Final(code: Code, p: int): (q: int)
    ensures Stops(code, p) ==> IsFinal(code, p, q)
  {
    if Stops(code, p) then
      var n: nat, q :| Jumps(code, p, q, n) && !JumpAt(code, q);
      assert JumpsTo(code, p, q);
      q
    else p
  }

  predicate IsReturnLike(op: Opcode) {
    op in {IRet, IFail, IFailTwice, IEnd}
  }

  predicate IsCommitLike(op: Opcode) {
    op in {ICommit, IPartialCommit, IBackCommit}
  }

  predicate OpIn(code: Code, p: int) {
    0 <= p < |code| && code[p].I?
  }

  /** The label of q now leads straight to r. */
  function SetLabel(code: Code, q: nat, r: int): (c: Code)
    requires q + 1 < |code|
    ensures |c| == |code|
  {
    code[q + 1 := Off(r - q)]
  }

  /** What 'peephole' does to the instruction at q. */
  ghost function PeepAt(code: Code, q: nat): (r: Code)
    ensures |r| == |code|
  {
    if !(OpIn(code, q) && HasLabel(code, q)) then code
    else if code[q].op == IJmp then
      var ft := Final(code, q);
      if OpIn(code, ft) && IsReturnLike(code[ft].op) then code[q := code[ft]][q + 1 := Op(IAny)]
      else if OpIn(code, ft) && IsCommitLike(code[ft].op) && HasLabel(code, ft) then
        var code' := SetLabel(code[q := code[ft]], q, Final(code, Target(code, ft)));
        SetLabel(code', q, Final(code', Target(code', q)))
      else SetLabel(code, q, ft)
    else if HasOffset(code[q].op) then SetLabel(code, q, Final(code, Target(code, q)))
    else code
  }

  /** The pass from address q on. */
  ghost function Peephole(code: Code, q: nat): (r: Code)
    ensures |r| == |code|
    decreases |code| - q
  {
    if !OpIn(code, q) then code
    else
      var code' := PeepAt(code, q);
      if OpIn(code', q) then Peephole(code', q + Sizei(code'[q].op)) else code'
  }

  // ----- one patch

  /** The instruction at q does in the second program what the instruction at ft, where the jumps from q
      lead, does in the first, up to jumps. */
  ghost predicate Patched(before: Code, after: Code, q: nat, ft: nat) {
    && q + 1 < |before| == |after|
    && (forall k | 0 <= k < |before| && k != q && k != q + 1 :: after[k] == before[k])
    && before[q].I? && before[q + 1].Off?
    && JumpsTo(before, q, ft) && OpIn(before, ft) && after[q] == before[ft]
    && (ft == q || IsReturnLike(before[ft].op) || IsCommitLike(before[ft].op))
    && (if HasOffset(before[ft].op) then
          HasLabel(before, ft) && after[q + 1].Off? && JumpsTo(before, Target(before, ft), Target(after, q))
        else ft != q && after[q + 1] == Op(IAny))
  }

  ghost predicate PcRel(before: Code, q: nat, ft: nat, p: int, p': int) {
    JumpsTo(before, p, p') || (p' == q && JumpsTo(before, p, ft))
  }

  ghost predicate EntryRel(before: Code, q: nat, ft: nat, e: Entry, e': Entry) {
    match (e, e')
    case (Back(p, s), Back(p', s')) => s == s' && PcRel(before, q, ft, p, p')
    case (Ret(p), Ret(p')) => PcRel(before, q, ft, p, p')
    case _ => false
  }

  ghost predicate StackRel(before: Code, q: nat, ft: nat, st: seq<Entry>, st': seq<Entry>) {
    |st| == |st'| && forall k {:trigger EntryRel(before, q, ft, st[k], st'[k])} | 0 <= k < |st| :: EntryRel(before, q, ft, st[k], st'[k])
  }

  ghost predicate Related(before: Code, q: nat, ft: nat, c: State, c': State) {
    match c
    case Stuck => true
    case Done(r) => c' == Done(r)
    case Run(p, i, st) => c'.Run? && c'.i == i && PcRel(before, q, ft, p, c'.p) && StackRel(before, q, ft, st, c'.stack)
  }

  lemma SamePc(before: Code, q: nat, ft: nat, p: int)
    ensures PcRel(before, q, ft, p, p)
  {
    assert Jumps(before, p, p, 0);
  }

  lemma TopRel(before: Code, q: nat, ft: nat, st: seq<Entry>, st': seq<Entry>)
    requires StackRel(before, q, ft, st, st') && st != []
    ensures st' != [] && EntryRel(before, q, ft, Top(st), Top(st')) && StackRel(before, q, ft, Pop(st), Pop(st'))
  {
    assert EntryRel(before, q, ft, st[|st| - 1], st'[|st| - 1]);
    forall k | 0 <= k < |st| - 1 ensures EntryRel(before, q, ft, Pop(st)[k], Pop(st')[k]) {
      assert EntryRel(before, q, ft, st[k], st'[k]);
    }
  }

  lemma PushRel(before: Code, q: nat, ft: nat, st: seq<Entry>, st': seq<Entry>, e: Entry, e': Entry)
    requires StackRel(before, q, ft, st, st') && EntryRel(before, q, ft, e, e')
    ensures StackRel(before, q, ft, st + [e], st' + [e'])
  {
    forall k | 0 <= k < |st| + 1 ensures EntryRel(before, q, ft, (st + [e])[k], (st' + [e'])[k]) {
      if k < |st| { assert EntryRel(before, q, ft, st[k], st'[k]); }
    }
  }

  lemma {:induction false} FailRel(before: Code, q: nat, ft: nat, st: seq<Entry>, st': seq<Entry>)
    requires StackRel(before, q, ft, st, st')
    ensures Related(before, q, ft, FailTo(st), FailTo(st'))
    decreases |st|
  {
    hide StackRel, PcRel;
    if st != [] {
      TopRel(before, q, ft, st, st');
      if Top(st).Ret? { FailRel(before, q, ft, Pop(st), Pop(st')); }
    } else {
      assert FailTo(st) == Stuck;
    }
  }

  // The two programs at corresponding instructions: p in the first, p' in the second.
  ghost predicate SameInstr(before: Code, after: Code, q: nat, ft: nat, p: int, p': int) {
    && OpIn(before, p) && OpIn(after, p') && after[p'] == before[p]
    && (HasLabel(before, p) && HasOffset(before[p].op) ==>
          HasLabel(after, p') && PcRel(before, q, ft, Target(before, p), Target(after, p')))
    && (HasBuf(before, p + 1) && (before[p].op == ISet || before[p].op == ISpan) ==>
          HasBuf(after, p' + 1) && after[p' + 1] == before[p + 1])
    && (HasBuf(before, p + 2) && before[p].op == ITestSet ==> HasBuf(after, p' + 2) && after[p' + 2] == before[p + 2])
    && (p == p' || IsReturnLike(before[p].op) || IsCommitLike(before[p].op))
  }

  lemma FlowRel(before: Code, after: Code, q: nat, ft: nat, s: Subject, p: int, p': int, i: nat, st: seq<Entry>, st': seq<Entry>)
    requires SameInstr(before, after, q, ft, p, p') && StackRel(before, q, ft, st, st')
    requires IsFlow(before[p].op) && before[p].op != IFail && Step(before, s, Run(p, i, st)) != Stuck
    ensures Related(before, q, ft, Step(before, s, Run(p, i, st)), Step(after, s, Run(p', i, st')))
  {
    hide StackRel, PcRel, FailTo, Has;
    FailRel(before, q, ft, st, st');
    SamePc(before, q, ft, p + 1);
    SamePc(before, q, ft, p + 2);
    SamePc(before, q, ft, p + CHARSETINSTSIZE);
    SamePc(before, q, ft, p + 1 + CHARSETINSTSIZE);
  }

  lemma StackOpRel(before: Code, after: Code, q: nat, ft: nat, s: Subject, p: int, p': int, i: nat, st: seq<Entry>, st': seq<Entry>)
    requires SameInstr(before, after, q, ft, p, p') && StackRel(before, q, ft, st, st')
    requires !IsFlow(before[p].op) || before[p].op == IFail
    requires Step(before, s, Run(p, i, st)) != Stuck
    ensures Related(before, q, ft, Step(before, s, Run(p, i, st)), Step(after, s, Run(p', i, st')))
  {
    hide StackRel, PcRel, FailTo, Has;
    FailRel(before, q, ft, st, st');
    SamePc(before, q, ft, p + 2);
    if st != [] {
      TopRel(before, q, ft, st, st');
      FailRel(before, q, ft, Pop(st), Pop(st'));
    }
    match before[p].op
    case IChoice => PushRel(before, q, ft, st, st', Back(Target(before, p), i), Back(Target(after, p'), i));
    case ICall => PushRel(before, q, ft, st, st', Ret(p + 2), Ret(p' + 2));
    case IPartialCommit => PushRel(before, q, ft, Pop(st), Pop(st'), Back(Top(st).p, i), Back(Top(st').p, i));
    case IEnd => SameLength(before, q, ft, st, st');
    case _ =>
  }

  lemma SameLength(before: Code, q: nat, ft: nat, st: seq<Entry>, st': seq<Entry>)
    requires StackRel(before, q, ft, st, st')
    ensures |st| == |st'|
  {
  }

  // At one address, the instruction is the same or has been patched in place.
  lemma InstrAtSame(before: Code, after: Code, q: nat, ft: nat, p: int)
    requires Patched(before, after, q, ft) && OpIn(before, p) && (p != q || ft == q)
    ensures SameInstr(before, after, q, ft, p, p)
  {
    if HasLabel(before, p) { SamePc(before, q, ft, Target(before, p)); }
  }

  lemma InstrAtPatch(before: Code, after: Code, q: nat, ft: nat)
    requires Patched(before, after, q, ft)
    ensures SameInstr(before, after, q, ft, ft, q)
  {
  }

  // One step of the first program is matched by at most one step of the second.
  lemma StepRel(before: Code, after: Code, q: nat, ft: nat, s: Subject, c: State, c': State)
    requires Patched(before, after, q, ft) && Related(before, q, ft, c, c') && Step(before, s, c) != Stuck
    ensures || Related(before, q, ft, Step(before, s, c), c')
            || Related(before, q, ft, Step(before, s, c), Step(after, s, c'))
  {
    hide StackRel, EntryRel, SameInstr;
    if c.Run? {
      var Run(p, i, st) := c;
      var p', st' := c'.p, c'.stack;
      if p == GIVEUP {
        SameLength(before, q, ft, st, st');
      } else if p == p' && (p != q || ft == q) {
        InstrAtSame(before, after, q, ft, p);
        Execute(before, after, q, ft, s, p, p, i, st, st');
      } else if p' == q && p == ft {
        InstrAtPatch(before, after, q, ft);
        Execute(before, after, q, ft, s, p, q, i, st, st');
      } else {
        ChainHop(before, after, q, ft, p, p');
      }
    }
  }

  lemma Execute(before: Code, after: Code, q: nat, ft: nat, s: Subject, p: int, p': int, i: nat, st: seq<Entry>, st': seq<Entry>)
    requires SameInstr(before, after, q, ft, p, p') && StackRel(before, q, ft, st, st')
    requires Step(before, s, Run(p, i, st)) != Stuck
    ensures Related(before, q, ft, Step(before, s, Run(p, i, st)), Step(after, s, Run(p', i, st')))
  {
    assert OpIn(before, p);
    hide StackRel, SameInstr, Step, Related;
    if IsFlow(before[p].op) && before[p].op != IFail {
      FlowRel(before, after, q, ft, s, p, p', i, st, st');
    } else {
      StackOpRel(before, after, q, ft, s, p, p', i, st, st');
    }
  }

  // The first program is on its way along a chain.
  lemma ChainHop(before: Code, after: Code, q: nat, ft: nat, p: int, p': int)
    requires Patched(before, after, q, ft) && PcRel(before, q, ft, p, p')
    requires if p == p' then p == q && ft != q else !(p' == q && p == ft)
    ensures JumpAt(before, p) && PcRel(before, q, ft, Target(before, p), p')
  {
    if p != p' && JumpsTo(before, p, p') {
      var n: nat :| Jumps(before, p, p', n);
      assert Jumps(before, Target(before, p), p', n - 1);
    } else {
      var n: nat :| Jumps(before, p, ft, n);
      assert Jumps(before, Target(before, p), ft, n - 1);
    }
  }

  lemma {:induction false} Simulated(before: Code, after: Code, q: nat, ft: nat, s: Subject, c: State, c': State, n: nat, r: Result)
    requires Patched(before, after, q, ft) && Related(before, q, ft, c, c') && Steps(before, s, n, c) == Done(r)
    ensures Halts(after, s, c', r)
    decreases n
  {
    hide Patched;
    if n == 0 {
      ReachRefl(after, s, c');
    } else {
      var c1 := Step(before, s, c);
      StopsStay(before, s, n - 1, Stuck);
      StepRel(before, after, q, ft, s, c, c');
      if Related(before, q, ft, c1, c') {
        Simulated(before, after, q, ft, s, c1, c', n - 1, r);
      } else {
        Simulated(before, after, q, ft, s, c1, Step(after, s, c'), n - 1, r);
        ReachStep(after, s, c');
        ReachTrans(after, s, c', Step(after, s, c'), Done(r));
      }
    }
  }

  lemma PatchPreserves(before: Code, after: Code, q: nat, ft: nat, s: Subject, i: nat, r: Result)
    requires Patched(before, after, q, ft) && Halts(before, s, Start(i), r)
    ensures Halts(after, s, Start(i), r)
  {
    var n: nat :| Steps(before, s, n, Start(i)) == Done(r);
    SamePc(before, q, ft, 0);
    SamePc(before, q, ft, GIVEUP);
    Simulated(before, after, q, ft, s, Start(i), Start(i), n, r);
  }

  // ----- the whole pass

  /** Every run of the first program that ends gives the same result in the second. */
  ghost predicate Preserves(before: Code, after: Code) {
    forall s, i, r :: Halts(before, s, Start(i), r) ==> Halts(after, s, Start(i), r)
  }

  lemma PatchedPreserves(before: Code, after: Code, q: nat, ft: nat)
    requires Patched(before, after, q, ft)
    ensures Preserves(before, after)
  {
    hide Patched, Halts;
    forall s, i, r | Halts(before, s, Start(i), r) ensures Halts(after, s, Start(i), r) {
      PatchPreserves(before, after, q, ft, s, i, r);
    }
  }

  lemma {:induction false} ChainStillEnds(before: Code, after: Code, q: nat, ft: nat, p: int, n: nat, r: int)
    requires Patched(before, after, q, ft) && Jumps(before, p, r, n) && !JumpAt(before, r)
    requires IsOp(after, q, IJmp) ==> !JumpAt(before, Target(after, q))
    ensures Stops(after, p)
    decreases n
  {
    if !JumpAt(after, p) {
      assert Jumps(after, p, p, 0);
    } else if p == q {
      var t := Target(after, q);
      assert !JumpAt(after, t);
      assert Jumps(after, t, t, 0);
      assert Jumps(after, q, t, 1);
    } else {
      assert JumpAt(before, p) && Target(before, p) == Target(after, p);
      var t := Target(before, p);
      ChainStillEnds(before, after, q, ft, t, n - 1, r);
      var m: nat, r' :| Jumps(after, t, r', m) && !JumpAt(after, r');
      assert Jumps(after, p, r', m + 1);
    }
  }

  lemma PatchedEnds(before: Code, after: Code, q: nat, ft: nat)
    requires Patched(before, after, q, ft) && AllStop(before)
    requires IsOp(after, q, IJmp) ==> !JumpAt(before, Target(after, q))
    ensures AllStop(after)
  {
    forall p ensures Stops(after, p) {
      assert Stops(before, p);
      var n: nat, r :| Jumps(before, p, r, n) && !JumpAt(before, r);
      ChainStillEnds(before, after, q, ft, p, n, r);
    }
  }

  // The jump at p and what follows it.
  lemma FinalOfJump(code: Code, p: nat)
    requires AllStop(code) && JumpAt(code, p)
    ensures var ft := Final(code, p); IsFinal(code, p, ft) && ft != p && JumpsTo(code, Target(code, p), ft)
  {
    assert Stops(code, p);
    var ft := Final(code, p);
    var n: nat :| Jumps(code, p, ft, n);
    assert Jumps(code, Target(code, p), ft, n - 1);
  }

  lemma FinalOfLabel(code: Code, t: int)
    requires AllStop(code)
    ensures IsFinal(code, t, Final(code, t))
  {
    assert Stops(code, t);
  }

  lemma PeepJump(code: Code, q: nat)
    requires AllStop(code) && Boundary(code, q) && IsOp(code, q, IJmp)
    ensures var code' := PeepAt(code, q);
            exists ft: nat :: Patched(code, code', q, ft)
                              && (IsOp(code', q, IJmp) ==> !JumpAt(code, Target(code', q)))
  {
    BoundaryStep(code, q);
    assert HasLabel(code, q);
    FinalOfJump(code, q);
    var ft := Final(code, q);
    var code' := PeepAt(code, q);
    assert Jumps(code, q, q, 0);
    if OpIn(code, ft) && IsReturnLike(code[ft].op) {
      assert Patched(code, code', q, ft);
    } else if OpIn(code, ft) && IsCommitLike(code[ft].op) && HasLabel(code, ft) {
      FinalOfLabel(code, Target(code, ft));
      var fft := Final(code, Target(code, ft));
      var code1 := SetLabel(code[q := code[ft]], q, fft);
      assert !JumpAt(code1, fft) && Jumps(code1, fft, fft, 0);
      assert Target(code1, q) == fft;
      FinalUnique(code1, fft, fft, Final(code1, fft));
      assert Patched(code, code', q, ft);
    } else {
      assert Patched(code, code', q, q);
    }
  }

  lemma PeepLabel(code: Code, q: nat)
    requires AllStop(code) && Boundary(code, q) && OpIn(code, q) && HasOffset(code[q].op) && !IsOp(code, q, IJmp)
    ensures Patched(code, PeepAt(code, q), q, q)
  {
    BoundaryStep(code, q);
    assert HasLabel(code, q);
    FinalOfLabel(code, Target(code, q));
    assert Jumps(code, q, q, 0);
  }

  // Rewriting the n cells from q on as whole instructions, the first of m cells.
  lemma RewriteWhole(before: Code, after: Code, q: nat, n: nat, m: nat)
    requires Boundary(before, q) && q + n <= |before| == |after| && Boundary(before, q + n)
    requires forall k | 0 <= k < q || q + n <= k < |before| :: after[k] == before[k]
    requires Parses(after, q, q + m) && Parses(after, q + m, q + n)
    ensures Boundary(after, q + m)
  {
    hide Parses;
    ParsesShift(before, after, 0, 0, q);
    ParsesShift(before, after, 0, q + n, |before|);
    ParsesJoin(after, 0, q, q + m);
    ParsesJoin(after, q + m, q + n, |after|);
    ParsesOrdered(after, q + m, |after|);
  }

  // An instruction with a new label, or a jump that became a one-cell instruction.
  lemma PatchedWhole(before: Code, after: Code, q: nat, ft: nat)
    requires Patched(before, after, q, ft) && Boundary(before, q) && HasOffset(before[q].op)
    requires ft == q || before[q].op == IJmp
    ensures OpIn(after, q) && Boundary(after, q + Sizei(after[q].op))
  {
    hide Boundary, Parses, JumpsTo, InstrOk;
    BoundaryStep(before, q);
    SplitInstr(before, after, q, ft);
    assert Sizei(before[q].op) >= 2;
    assert q + Sizei(before[q].op) <= |before| by { BoundaryIn(before, q + Sizei(before[q].op)); }
    RewriteWhole(before, after, q, Sizei(before[q].op), Sizei(after[q].op));
  }

  lemma BoundaryIn(code: Code, p: int)
    requires Boundary(code, p)
    ensures 0 <= p <= |code|
  {
  }

  // The cells of the patched instruction.
  lemma SplitInstr(before: Code, after: Code, q: nat, ft: nat)
    requires Patched(before, after, q, ft) && InstrOk(before, q) && HasOffset(before[q].op)
    requires ft == q || before[q].op == IJmp
    ensures var m, n := Sizei(after[q].op), Sizei(before[q].op);
            Parses(after, q, q + m) && Parses(after, q + m, q + n)
  {
    hide JumpsTo;
    if ft == q { SplitSame(before, after, q); } else { SplitJump(before, after, q, ft); }
  }

  lemma SplitSame(before: Code, after: Code, q: nat)
    requires Patched(before, after, q, q) && InstrOk(before, q) && HasOffset(before[q].op)
    ensures after[q] == before[q] && Parses(after, q, q + Sizei(before[q].op))
    ensures Parses(after, q + Sizei(before[q].op), q + Sizei(before[q].op))
  {
    hide JumpsTo;
    var n := Sizei(before[q].op);
    forall k | q < k < q + n ensures !after[k].I? { if k > q + 1 { assert after[k] == before[k]; } }
    assert InstrOk(after, q);
  }

  lemma SplitJump(before: Code, after: Code, q: nat, ft: nat)
    requires Patched(before, after, q, ft) && InstrOk(before, q) && ft != q && before[q].op == IJmp
    ensures var m := Sizei(after[q].op); Parses(after, q, q + m) && Parses(after, q + m, q + 2)
  {
    hide JumpsTo;
    assert Parses(after, q + 2, q + 2) && Parses(after, q + 1, q + 1);
    if HasOffset(after[q].op) {
      assert InstrOk(after, q);
    } else {
      assert Sizei(after[q].op) == 1 && InstrOk(after, q);
      assert InstrOk(after, q + 1);
    }
  }

  /** One instruction: the results are preserved, chains still end, and the code is still whole. */
  lemma PeepAtPreserves(code: Code, q: nat)
    requires AllStop(code) && Boundary(code, q) && q < |code|
    ensures var code' := PeepAt(code, q);
            && Preserves(code, code') && AllStop(code')
            && OpIn(code', q) && Boundary(code', q + Sizei(code'[q].op))
  {
    hide AllStop, Preserves, Boundary, Patched, Parses, JumpAt;
    BoundaryStep(code, q);
    var code' := PeepAt(code, q);
    if IsOp(code, q, IJmp) {
      PeepJump(code, q);
      var ft: nat :| Patched(code, code', q, ft) && (IsOp(code', q, IJmp) ==> !JumpAt(code, Target(code', q)));
      PatchedPreserves(code, code', q, ft);
      PatchedEnds(code, code', q, ft);
      PatchedWhole(code, code', q, ft);
    } else if HasOffset(code[q].op) {
      PeepLabel(code, q);
      PatchedPreserves(code, code', q, q);
      PatchedEnds(code, code', q, q);
      PatchedWhole(code, code', q, q);
    } else {
      assert code' == code;
      PreservesRefl(code);
    }
  }

  lemma PreservesRefl(code: Code)
    ensures Preserves(code, code)
  {
  }

  lemma PreservesTrans(a: Code, b: Code, c: Code)
    requires Preserves(a, b) && Preserves(b, c)
    ensures Preserves(a, c)
  {
    hide Halts;
  }

  /** The pass as a whole, for any program of whole instructions whose chains of jumps end. */
  lemma {:induction false} PeepholePreserves(code: Code, q: nat)
    requires AllStop(code) && Boundary(code, q)
    ensures Preserves(code, Peephole(code, q))
    decreases |code| - q
  {
    hide AllStop, Preserves, Boundary, PeepAt;
    if OpIn(code, q) {
      PeepAtPreserves(code, q);
      var code' := PeepAt(code, q);
      PeepholePreserves(code', q + Sizei(code'[q].op));
      PreservesTrans(code, code', Peephole(code, q));
    } else {
      PreservesRefl(code);
    }
  }
}
