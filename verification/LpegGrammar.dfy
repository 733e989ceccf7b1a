// The checks of 'verifygrammar', and what they are for: matching an accepted grammar ends.
module LpegGrammar {
  import opened LpegCharset
  import opened LpegTree
  import opened LpegAnalysis
  import opened LpegCorrect

  const MAXRULES := 250

  /** An error raised, or the flag returned. */
  datatype Verdict = Error | Nb(nb: bool)

  /** 'verifyrule': follow the calls that can be reached without consuming a character. */
  function Verifyrule(d: nat, g: seq<Tree>, t: Tree, npassed: nat, nb: bool): Verdict
    requires npassed <= MAXRULES
    decreases MAXRULES - npassed, t
  {
    match t
    case TChar(_) => Nb(nb)
    case TSet(_) => Nb(nb)
    case TAny => Nb(nb)
    case TFalse => Nb(nb)
    case TTrue => Nb(true)
    case TBehind(_, _) => Nb(true)
    case TNot(p) => Verifyrule(d, g, p, npassed, true)
    case TAnd(p) => Verifyrule(d, g, p, npassed, true)
    case TRep(p) => Verifyrule(d, g, p, npassed, true)
    case TCall(k) => if npassed >= MAXRULES || k >= |g| then Error else Verifyrule(d, g, g[k], npassed + 1, nb)
    case TSeq(p1, p2) =>
      (match Verifyrule(d, g, p1, npassed, false)
       case Error => Error
       case Nb(nb1) => if !nb1 then Nb(nb) else Verifyrule(d, g, p2, npassed, nb))
    case TChoice(p1, p2) =>
      (match Verifyrule(d, g, p1, npassed, nb)
       case Error => Error
       case Nb(nb1) => Verifyrule(d, g, p2, npassed, nb1))
    case TGrammar(_) => Nb(Nullable(d, g, t))
  }

  /** 'checkloops' */
  predicate Checkloops(d: nat, g: seq<Tree>, t: Tree) {
    match t
    case TRep(p) => Nullable(d, g, p) || Checkloops(d, g, p)
    case TNot(p) => Checkloops(d, g, p)
    case TAnd(p) => Checkloops(d, g, p)
    case TBehind(_, p) => Checkloops(d, g, p)
    case TSeq(p1, p2) => Checkloops(d, g, p1) || Checkloops(d, g, p2)
    case TChoice(p1, p2) => Checkloops(d, g, p1) || Checkloops(d, g, p2)
    case _ => false
  }

  /** Does t call rule k of the grammar around it? */
  predicate CallsRule(t: Tree, k: nat) {
    match t
    case TCall(r) => r == k
    case TRep(p) => CallsRule(p, k)
    case TNot(p) => CallsRule(p, k)
    case TAnd(p) => CallsRule(p, k)
    case TBehind(_, p) => CallsRule(p, k)
    case TSeq(p1, p2) => CallsRule(p1, k) || CallsRule(p2, k)
    case TChoice(p1, p2) => CallsRule(p1, k) || CallsRule(p2, k)
    case _ => false
  }

  ghost predicate CallFree(t: Tree) {
    forall k: nat :: !CallsRule(t, k)
  }

  /** A rule has a name in the grammar: it is the initial rule or some rule calls it. */
  ghost predicate Used(g: seq<Tree>, k: nat) {
    k == 0 || exists r: nat :: r < |g| && CallsRule(g[r], k)
  }

  /** 'newgrammar' raises no error for these rules: no undefined rule, no possible left recursion and no
      empty loop in a used rule. */
  ghost predicate Verifygrammar(d: nat, g: seq<Tree>) {
    && 0 < |g| <= MAXRULES
    && (forall r: nat, k: nat | r < |g| && CallsRule(g[r], k) :: k < |g|)
    && (forall k: nat | k < |g| && Used(g, k) :: Verifyrule(d, g, g[k], 0, false) != Error)
    && (forall k: nat | k < |g| && Used(g, k) :: !Checkloops(d, g, g[k]))
  }

  // ----- where the check is not what it is meant to be

  // A grammar whose only rule is the character 'b'.
  const SUB := TGrammar([TChar(98)])

  /** A rule that repeats a sub-grammar and then calls itself: the flag 'nb' is dropped at the
      sub-grammar, so the left recursion goes unnoticed. */
  const LOST_FLAG := TSeq(TRep(SUB), TCall(0))

  /** A rule that calls itself in a look-behind of length 0: bodies of look-behinds are not followed. */
  const CALL_BEHIND := TBehind(0, TNot(TCall(0)))

  // The calls of a grammar with one rule.
  lemma OneRule(d: nat, t: Tree)
    requires forall k: nat | CallsRule(t, k) :: k == 0
    requires Verifyrule(d, [t], t, 0, false) != Error && !Checkloops(d, [t], t)
    ensures Verifygrammar(d, [t])
  {
    var g := [t];
    forall r: nat, k: nat | r < |g| && CallsRule(g[r], k) ensures k < |g| { assert g[r] == t; }
    forall k: nat | k < |g| ensures g[k] == t {}
  }

  lemma SubFacts(d: nat, g: seq<Tree>, f: nat)
    ensures !Nullable(d, g, SUB) && TreeOk(d, SUB) && Peg(f, g, SUB, [], 0) == Fail
  {
    var rules := [TChar(98)];
    assert SUB.rules == rules && rules[0] == TChar(98);
    assert !Checkaux(d, rules, TChar(98), PENullable);
    assert Peg(f, rules, TChar(98), [], 0) == Fail;
    assert forall k | 0 <= k < |rules| :: rules[k] == TChar(98);
    assert TreeOk(d, TChar(98));
  }

  lemma LostFlagAccepted(d: nat)
    ensures Verifygrammar(d, [LOST_FLAG]) && TreeOk(d, LOST_FLAG)
  {
    var g := [LOST_FLAG];
    SubFacts(d, g, 0);
    assert Verifyrule(d, g, TRep(SUB), 0, false) == Nb(false);
    assert !Checkloops(d, g, TRep(SUB));
    assert forall k: nat :: !CallsRule(TRep(SUB), k) by { forall k: nat ensures !CallsRule(TRep(SUB), k) { assert !CallsRule(SUB, k); } }
    assert TreeOk(d, TRep(SUB));
    OneRule(d, LOST_FLAG);
  }

  /** The accepted rule has no result at any depth. */
  lemma {:induction false} LostFlagDiverges(f: nat)
    ensures Peg(f, [LOST_FLAG], LOST_FLAG, [], 0) == Out
  {
    var g := [LOST_FLAG];
    SubFacts(0, g, f);
    assert Peg(f, g, TRep(SUB), [], 0) == Ok(0);
    if f > 0 { LostFlagDiverges(f - 1); }
    assert Peg(f, g, TCall(0), [], 0) == Out;
  }

  lemma CallBehindAccepted(d: nat)
    ensures Verifygrammar(d, [CALL_BEHIND]) && TreeOk(d, CALL_BEHIND)
  {
    assert Fixedlen(d, [], TNot(TCall(0))) == 0;
    assert TreeOk(d, TNot(TCall(0)));
    assert !Checkloops(d, [CALL_BEHIND], TNot(TCall(0)));
    forall k: nat | CallsRule(CALL_BEHIND, k) ensures k == 0 { assert CallsRule(TNot(TCall(0)), k); assert CallsRule(TCall(0), k); }
    OneRule(d, CALL_BEHIND);
  }

  /** The accepted rule has no result at any depth. */
  lemma {:induction false} CallBehindDiverges(f: nat)
    ensures Peg(f, [CALL_BEHIND], CALL_BEHIND, [], 0) == Out
  {
    var g := [CALL_BEHIND];
    if f > 0 { CallBehindDiverges(f - 1); }
    assert Peg(f, g, TCall(0), [], 0) == Out;
    assert Peg(f, g, TNot(TCall(0)), [], 0) == Out;
  }

  /** A rule that, behind a character, looks back and calls itself there. */
  const CALL_BACK := TSeq(TChar(120), TBehind(1, TSeq(TAnd(TCall(0)), TChar(120))))

  lemma CallBackAccepted(d: nat)
    ensures Verifygrammar(d, [CALL_BACK]) && TreeOk(d, CALL_BACK)
  {
    var g, and, p := [CALL_BACK], TAnd(TCall(0)), TSeq(TAnd(TCall(0)), TChar(120));
    assert Fixedlen(d, [], and) == 0 && Fixedlen(d, [], TChar(120)) == 1 && Fixedlen(d, [], p) == 1;
    assert TreeOk(d, TChar(120)) && TreeOk(d, TCall(0)) && TreeOk(d, and) && TreeOk(d, p) && TreeOk(d, TBehind(1, p));
    assert !Checkloops(d, g, TCall(0)) && !Checkloops(d, g, TChar(120)) && !Checkloops(d, g, and) && !Checkloops(d, g, p);
    assert !Checkloops(d, g, TBehind(1, p));
    assert Verifyrule(d, g, TChar(120), 0, false) == Nb(false);
    forall k: nat ensures CallsRule(CALL_BACK, k) ==> k == 0 {
      assert !CallsRule(TChar(120), k) && (CallsRule(TCall(0), k) <==> k == 0);
      assert CallsRule(and, k) ==> k == 0;
      assert CallsRule(p, k) ==> k == 0;
      assert CallsRule(TBehind(1, p), k) ==> k == 0;
    }
    OneRule(d, CALL_BACK);
  }

  /** The accepted rule has no result at any depth. */
  lemma {:induction false} CallBackDiverges(f: nat)
    ensures Peg(f, [CALL_BACK], CALL_BACK, [120], 0) == Out
  {
    var g, s, p := [CALL_BACK], [120], TSeq(TAnd(TCall(0)), TChar(120));
    if f > 0 { CallBackDiverges(f - 1); }
    assert Peg(f, g, TCall(0), s, 0) == Out;
    assert Peg(f, g, TAnd(TCall(0)), s, 0) == Out;
    assert Peg(f, g, p, s, 0) == Out;
    assert Peg(f, g, TChar(120), s, 0) == Ok(1);
  }

  // ----- the check with these gaps closed

  /** 'verifyrule' that keeps the flag at a sub-grammar and follows a look-behind of length 0 like a predicate. */
  function VerifyKept(d: nat, g: seq<Tree>, t: Tree, npassed: nat, nb: bool): Verdict
    requires npassed <= MAXRULES
    decreases MAXRULES - npassed, t
  {
    match t
    case TChar(_) => Nb(nb)
    case TSet(_) => Nb(nb)
    case TAny => Nb(nb)
    case TFalse => Nb(nb)
    case TTrue => Nb(true)
    case TBehind(n, p) => if n == 0 then VerifyKept(d, g, p, npassed, true) else Nb(true)
    case TNot(p) => VerifyKept(d, g, p, npassed, true)
    case TAnd(p) => VerifyKept(d, g, p, npassed, true)
    case TRep(p) => VerifyKept(d, g, p, npassed, true)
    case TCall(k) => if npassed >= MAXRULES || k >= |g| then Error else VerifyKept(d, g, g[k], npassed + 1, nb)
    case TSeq(p1, p2) =>
      (match VerifyKept(d, g, p1, npassed, false)
       case Error => Error
       case Nb(nb1) => if !nb1 then Nb(nb) else VerifyKept(d, g, p2, npassed, nb))
    case TChoice(p1, p2) =>
      (match VerifyKept(d, g, p1, npassed, nb)
       case Error => Error
       case Nb(nb1) => VerifyKept(d, g, p2, npassed, nb1))
    case TGrammar(_) => Nb(nb || Nullable(d, g, t))
  }

  /** No look-behind that goes back calls a rule. */
  ghost predicate BehindsClosed(t: Tree) {
    match t
    case TRep(p) => BehindsClosed(p)
    case TNot(p) => BehindsClosed(p)
    case TAnd(p) => BehindsClosed(p)
    case TBehind(n, p) => (n == 0 || CallFree(p)) && BehindsClosed(p)
    case TSeq(p1, p2) => BehindsClosed(p1) && BehindsClosed(p2)
    case TChoice(p1, p2) => BehindsClosed(p1) && BehindsClosed(p2)
    case _ => true
  }

  /** The rules that the repaired check accepts. */
  ghost predicate RulesFine(d: nat, g: seq<Tree>) {
    && 0 < |g| <= MAXRULES
    && (forall r: nat, k: nat | r < |g| && CallsRule(g[r], k) :: k < |g|)
    && (forall k: nat | k < |g| && Used(g, k) :: VerifyKept(d, g, g[k], 0, false) != Error)
    && (forall k: nat | k < |g| && Used(g, k) :: !Checkloops(d, g, g[k]) && BehindsClosed(g[k]))
  }

  /** With more flags set the repaired check follows all that the check of the code follows. */
  lemma {:induction false} KeptFollowsMore(d: nat, g: seq<Tree>, t: Tree, npassed: nat, nb: bool, nb': bool)
    requires npassed <= MAXRULES && (nb ==> nb') && VerifyKept(d, g, t, npassed, nb') != Error
    ensures var v := Verifyrule(d, g, t, npassed, nb);
      v != Error && (v.nb ==> VerifyKept(d, g, t, npassed, nb').nb)
    decreases MAXRULES - npassed, t
  {
    if nb' { FlagStays(d, g, t, npassed); }
    match t
    case TBehind(n, p) => if n == 0 { FlagStays(d, g, p, npassed); }
    case TNot(p) => KeptFollowsMore(d, g, p, npassed, true, true);
    case TAnd(p) => KeptFollowsMore(d, g, p, npassed, true, true);
    case TRep(p) => KeptFollowsMore(d, g, p, npassed, true, true);
    case TCall(k) => KeptFollowsMore(d, g, g[k], npassed + 1, nb, nb');
    case TSeq(p1, p2) =>
      KeptFollowsMore(d, g, p1, npassed, false, false);
      if VerifyKept(d, g, p1, npassed, false) == Nb(true) { KeptFollowsMore(d, g, p2, npassed, nb, nb'); }
    case TChoice(p1, p2) =>
      KeptFollowsMore(d, g, p1, npassed, nb, nb');
      KeptFollowsMore(d, g, p2, npassed, Verifyrule(d, g, p1, npassed, nb).nb, VerifyKept(d, g, p1, npassed, nb').nb);
    case _ =>
  }

  /** What the repaired check accepts, the code accepts. */
  lemma RepairedAccepted(d: nat, g: seq<Tree>)
    requires RulesFine(d, g)
    ensures Verifygrammar(d, g)
  {
    forall k: nat | k < |g| && Used(g, k) ensures Verifyrule(d, g, g[k], 0, false) != Error {
      KeptFollowsMore(d, g, g[k], 0, false, false);
    }
  }

  /** It rejects the three rules above, and not the loops over sub-grammars that are in order: here
      S <- {'b'}* 'x' S / 'y'. */
  lemma RepairedExamples(d: nat)
    ensures !RulesFine(d, [LOST_FLAG]) && !RulesFine(d, [CALL_BEHIND]) && !RulesFine(d, [CALL_BACK])
    ensures RulesFine(d, [SUB_LOOP])
  {
    LeftRecursive(d, LOST_FLAG, 0);
    LeftRecursive(d, CALL_BEHIND, 0);
    assert Used([LOST_FLAG], 0) && Used([CALL_BEHIND], 0) && Used([CALL_BACK], 0);
    CallBackOpen();
    SubLoopFine(d);
  }

  const SUB_LOOP := TChoice(TSeq(TRep(SUB), TSeq(TChar(120), TCall(0))), TChar(121))

  lemma CallBackOpen()
    ensures !BehindsClosed(CALL_BACK)
  {
    var and, p := TAnd(TCall(0)), TSeq(TAnd(TCall(0)), TChar(120));
    assert CallsRule(TCall(0), 0) && CallsRule(and, 0);
    assert CallsRule(p, 0);
    assert !BehindsClosed(TBehind(1, p));
  }

  lemma SubLoopFine(d: nat)
    ensures RulesFine(d, [SUB_LOOP])
  {
    hide VerifyKept, Checkloops, CallsRule, BehindsClosed;
    SubLoopKept(d);
    SubLoopAdvances(d);
    SubLoopCalls();
    SubLoopClosed();
    OneRuleFine(d, SUB_LOOP);
  }

  lemma SubLoopKept(d: nat)
    ensures VerifyKept(d, [SUB_LOOP], SUB_LOOP, 0, false) == Nb(false)
  {
    var rep, more := TRep(SUB), TSeq(TChar(120), TCall(0));
    var loop, g := TSeq(rep, more), [SUB_LOOP];
    SubFacts(d, g, 0);
    assert VerifyKept(d, g, SUB, 0, true) == Nb(true) && VerifyKept(d, g, TChar(120), 0, false) == Nb(false);
    assert VerifyKept(d, g, rep, 0, false) == Nb(true) && VerifyKept(d, g, more, 0, false) == Nb(false);
    assert VerifyKept(d, g, loop, 0, false) == Nb(false) && VerifyKept(d, g, TChar(121), 0, false) == Nb(false);
  }

  lemma SubLoopAdvances(d: nat)
    ensures !Checkloops(d, [SUB_LOOP], SUB_LOOP)
  {
    var rep, more := TRep(SUB), TSeq(TChar(120), TCall(0));
    var loop, g := TSeq(rep, more), [SUB_LOOP];
    SubFacts(d, g, 0);
    assert !Checkloops(d, g, SUB) && !Checkloops(d, g, rep) && !Checkloops(d, g, TChar(120)) && !Checkloops(d, g, TCall(0));
    assert !Checkloops(d, g, more) && !Checkloops(d, g, loop);
  }

  lemma SubLoopCalls()
    ensures forall k: nat :: CallsRule(SUB_LOOP, k) ==> k == 0
  {
    var rep, more := TRep(SUB), TSeq(TChar(120), TCall(0));
    forall k: nat ensures CallsRule(SUB_LOOP, k) ==> k == 0 {
      assert !CallsRule(SUB, k) && !CallsRule(rep, k) && !CallsRule(TChar(120), k) && !CallsRule(TChar(121), k);
      assert CallsRule(TCall(0), k) ==> k == 0;
      assert CallsRule(more, k) ==> k == 0;
      assert CallsRule(TSeq(rep, more), k) ==> k == 0;
    }
  }

  lemma SubLoopClosed()
    ensures BehindsClosed(SUB_LOOP)
  {
    var rep, more := TRep(SUB), TSeq(TChar(120), TCall(0));
    assert BehindsClosed(SUB) && BehindsClosed(rep) && BehindsClosed(TChar(120)) && BehindsClosed(TCall(0));
    assert BehindsClosed(more) && BehindsClosed(TSeq(rep, more));
  }

  lemma OneRuleFine(d: nat, t: Tree)
    requires (forall k: nat :: CallsRule(t, k) ==> k == 0) && BehindsClosed(t)
    requires VerifyKept(d, [t], t, 0, false) != Error && !Checkloops(d, [t], t)
    ensures RulesFine(d, [t])
  {
    var g := [t];
    forall k: nat | k < |g| ensures g[k] == t {}
  }

  lemma {:induction false} LeftRecursive(d: nat, t: Tree, npassed: nat)
    requires npassed <= MAXRULES && (t == LOST_FLAG || t == CALL_BEHIND)
    ensures forall nb :: VerifyKept(d, [t], t, npassed, nb) == Error
    decreases MAXRULES - npassed
  {
    var g := [t];
    if npassed < MAXRULES { LeftRecursive(d, t, npassed + 1); }
    assert forall nb :: VerifyKept(d, g, TCall(0), npassed, nb) == Error;
    if t == LOST_FLAG {
      FlagStays(d, g, SUB, npassed);
      assert VerifyKept(d, g, TRep(SUB), npassed, false) == Nb(true);
    } else {
      assert VerifyKept(d, g, TNot(TCall(0)), npassed, true) == Error;
    }
  }

  /** Every sub-grammar of t is fine. */
  ghost predicate Fine(d: nat, t: Tree) {
    match t
    case TRep(p) => Fine(d, p)
    case TNot(p) => Fine(d, p)
    case TAnd(p) => Fine(d, p)
    case TBehind(_, p) => Fine(d, p)
    case TSeq(p1, p2) => Fine(d, p1) && Fine(d, p2)
    case TChoice(p1, p2) => Fine(d, p1) && Fine(d, p2)
    case TGrammar(rules) => RulesFine(d, rules) && forall k: nat | k < |rules| :: Fine(d, rules[k])
    case _ => true
  }

  lemma {:induction false} FlagStays(d: nat, g: seq<Tree>, t: Tree, npassed: nat)
    requires npassed <= MAXRULES
    ensures VerifyKept(d, g, t, npassed, true) != Nb(false)
    decreases MAXRULES - npassed, t
  {
    match t
    case TBehind(n, p) => if n == 0 { FlagStays(d, g, p, npassed); }
    case TNot(p) => FlagStays(d, g, p, npassed);
    case TAnd(p) => FlagStays(d, g, p, npassed);
    case TRep(p) => FlagStays(d, g, p, npassed);
    case TCall(k) => if npassed < MAXRULES && k < |g| { FlagStays(d, g, g[k], npassed + 1); }
    case TSeq(p1, p2) => FlagStays(d, g, p2, npassed);
    case TChoice(p1, p2) =>
      FlagStays(d, g, p1, npassed);
      FlagStays(d, g, p2, npassed);
    case _ =>
  }

  /** A cleared flag means that the pattern cannot match the empty string. */
  lemma {:induction false} VerifyruleSound(d: nat, f: nat, g: seq<Tree>, t: Tree, npassed: nat, nb: bool, s: Subject, i: nat)
    requires npassed <= MAXRULES && i <= |s|
    requires VerifyKept(d, g, t, npassed, nb) == Nb(false)
    ensures !nb && Peg(f, g, t, s, i) != Ok(i)
    decreases MAXRULES - npassed, t
  {
    if nb { FlagStays(d, g, t, npassed); }
    match t
    case TBehind(n, p) => if n == 0 { FlagStays(d, g, p, npassed); }
    case TNot(p) => FlagStays(d, g, p, npassed);
    case TAnd(p) => FlagStays(d, g, p, npassed);
    case TRep(p) => FlagStays(d, g, p, npassed);
    case TCall(k) => VerifyruleSound(d, if f > 0 then f - 1 else 0, g, g[k], npassed + 1, nb, s, i);
    case TSeq(p1, p2) =>
      if VerifyKept(d, g, p1, npassed, false) == Nb(false) {
        VerifyruleSound(d, f, g, p1, npassed, false, s, i);
      } else {
        VerifyruleSound(d, f, g, p2, npassed, nb, s, i);
      }
    case TChoice(p1, p2) =>
      var nb1 := VerifyKept(d, g, p1, npassed, nb).nb;
      VerifyruleSound(d, f, g, p2, npassed, nb1, s, i);
      VerifyruleSound(d, f, g, p1, npassed, nb, s, i);
    case TGrammar(_) => NullableSound(d, f, g, t, s, i);
    case _ =>
  }

  // ----- matching ends

  function Size(t: Tree): nat {
    match t
    case TRep(p) => 1 + Size(p)
    case TNot(p) => 1 + Size(p)
    case TAnd(p) => 1 + Size(p)
    case TBehind(_, p) => 1 + Size(p)
    case TSeq(p1, p2) => 1 + Size(p1) + Size(p2)
    case TChoice(p1, p2) => 1 + Size(p1) + Size(p2)
    case _ => 1
  }

  /** Sub-grammars are nested at most h deep in t. */
  predicate Nested(h: nat, t: Tree)
    decreases t
  {
    match t
    case TRep(p) => Nested(h, p)
    case TNot(p) => Nested(h, p)
    case TAnd(p) => Nested(h, p)
    case TBehind(_, p) => Nested(h, p)
    case TSeq(p1, p2) => Nested(h, p1) && Nested(h, p2)
    case TChoice(p1, p2) => Nested(h, p1) && Nested(h, p2)
    case TGrammar(rules) => h > 0 && forall k: nat | k < |rules| :: Nested(h - 1, rules[k])
    case _ => true
  }

  lemma {:induction false} NestedMonotone(h: nat, h': nat, t: Tree)
    requires h <= h' && Nested(h, t)
    ensures Nested(h', t)
    decreases t
  {
    match t
    case TRep(p) => NestedMonotone(h, h', p);
    case TNot(p) => NestedMonotone(h, h', p);
    case TAnd(p) => NestedMonotone(h, h', p);
    case TBehind(_, p) => NestedMonotone(h, h', p);
    case TSeq(p1, p2) => NestedMonotone(h, h', p1); NestedMonotone(h, h', p2);
    case TChoice(p1, p2) => NestedMonotone(h, h', p1); NestedMonotone(h, h', p2);
    case TGrammar(rules) =>
      forall k: nat | k < |rules| ensures Nested(h' - 1, rules[k]) { NestedMonotone(h - 1, h' - 1, rules[k]); }
    case _ =>
  }

  lemma {:induction false} NestingDepth(t: Tree) returns (h: nat)
    ensures Nested(h, t)
    decreases t, 1
  {
    match t
    case TRep(p) => h := NestingDepth(p);
    case TNot(p) => h := NestingDepth(p);
    case TAnd(p) => h := NestingDepth(p);
    case TBehind(_, p) => h := NestingDepth(p);
    case TSeq(p1, p2) => h := NestingDepth2(t, p1, p2);
    case TChoice(p1, p2) => h := NestingDepth2(t, p1, p2);
    case TGrammar(rules) =>
      h := 0;
      var n := 0;
      while n < |rules|
        invariant n <= |rules| && forall k: nat | k < n :: Nested(h, rules[k])
      {
        var h' := NestingDepth(rules[n]);
        forall k: nat | k < n + 1 ensures Nested(h + h', rules[k]) {
          NestedMonotone(if k < n then h else h', h + h', rules[k]);
        }
        h, n := h + h', n + 1;
      }
      h := h + 1;
    case _ => h := 0;
  }

  lemma {:induction false} NestingDepth2(t: Tree, p1: Tree, p2: Tree) returns (h: nat)
    requires t == TSeq(p1, p2) || t == TChoice(p1, p2)
    ensures Nested(h, p1) && Nested(h, p2)
    decreases t, 0
  {
    var h1 := NestingDepth(p1);
    var h2 := NestingDepth(p2);
    h := h1 + h2;
    NestedMonotone(h1, h, p1);
    NestedMonotone(h2, h, p2);
  }

  /** A part t of any rule of g: sub-grammars are fine, and calls go to used rules. */
  ghost predicate Piece(d: nat, h: nat, g: seq<Tree>, t: Tree) {
    Fine(d, t) && Nested(h, t) && forall k: nat | CallsRule(t, k) :: k < |g| && Used(g, k)
  }

  /** A part of a used rule: also, loops consume and look-behinds that go back call nothing. */
  ghost predicate Part(d: nat, h: nat, g: seq<Tree>, t: Tree) {
    !Checkloops(d, g, t) && BehindsClosed(t) && Piece(d, h, g, t)
  }

  ghost predicate Whole(d: nat, h: nat, g: seq<Tree>) {
    RulesFine(d, g) && forall k: nat | k < |g| :: Fine(d, g[k]) && Nested(h, g[k])
  }

  lemma RuleIsPart(d: nat, h: nat, g: seq<Tree>, k: nat)
    requires Whole(d, h, g) && k < |g| && Used(g, k)
    ensures Part(d, h, g, g[k]) && VerifyKept(d, g, g[k], 0, false) != Error
  {
    forall j: nat | CallsRule(g[k], j) ensures j < |g| && Used(g, j) {}
  }

  lemma CalledIsPart(d: nat, h: nat, g: seq<Tree>, k: nat)
    requires Part(d, h, g, TCall(k)) && Whole(d, h, g)
    ensures k < |g| && Part(d, h, g, g[k]) && VerifyKept(d, g, g[k], 0, false) != Error
  {
    assert CallsRule(TCall(k), k);
    RuleIsPart(d, h, g, k);
  }

  lemma SubGrammarIsWhole(d: nat, h: nat, g: seq<Tree>, rules: seq<Tree>)
    requires Part(d, h, g, TGrammar(rules))
    ensures h > 0 && Whole(d, h - 1, rules) && rules != [] && Part(d, h - 1, rules, rules[0])
  {
    RuleIsPart(d, h - 1, rules, 0);
  }

  /** Any part terminates at position i. Without calls this needs nothing of the rules of g; with calls,
      the called rules are entered through 'Left'. */
  lemma {:induction false} Terminates(callFree: bool, d: nat, h: nat, g: seq<Tree>, t: Tree, s: Subject, i: nat) returns (f: nat)
    requires i <= |s| && Part(d, h, g, t) && (if callFree then CallFree(t) else Whole(d, h, g))
    ensures Peg(f, g, t, s, i) != Out
    decreases h, if callFree then 0 else 1, if callFree then Size(t) else |s| - i, if callFree then |s| - i else 1, 0, Size(t)
  {
    hide Part, Whole;
    match t
    case TRep(p) =>
      PartOfOne(d, h, g, t, p);
      f := Terminates(callFree, d, h, g, p, s, i);
      NullableSound(d, f, g, p, s, i);
      if Peg(f, g, p, s, i).Ok? {
        var j := Peg(f, g, p, s, i).end;
        var f' := Terminates(callFree, d, h, g, t, s, j);
        f := Both(f, g, p, i, f', t, j, s);
      }
    case TNot(p) => PartOfOne(d, h, g, t, p); f := Terminates(callFree, d, h, g, p, s, i);
    case TAnd(p) => PartOfOne(d, h, g, t, p); f := Terminates(callFree, d, h, g, p, s, i);
    case TBehind(n, p) =>
      PartOfOne(d, h, g, t, p);
      f := 0;
      if n == 0 {
        f := Terminates(callFree, d, h, g, p, s, i);
      } else if n <= i {
        f := Terminates(true, d, h, g, p, s, i - n);
      }
    case TSeq(p1, p2) =>
      PartsOfPair(d, h, g, t, p1, p2);
      f := Terminates(callFree, d, h, g, p1, s, i);
      if Peg(f, g, p1, s, i).Ok? {
        var j := Peg(f, g, p1, s, i).end;
        var f' := Terminates(callFree, d, h, g, p2, s, j);
        f := Both(f, g, p1, i, f', p2, j, s);
      }
    case TChoice(p1, p2) =>
      PartsOfPair(d, h, g, t, p1, p2);
      f := Terminates(callFree, d, h, g, p1, s, i);
      var f' := Terminates(callFree, d, h, g, p2, s, i);
      f := Both(f, g, p1, i, f', p2, i, s);
    case TCall(k) =>
      assert CallsRule(t, k);
      CalledIsPart(d, h, g, k);
      var f' := TerminatesLeft(d, h, g, g[k], 0, false, s, i);
      f := f' + 1;
    case TGrammar(rules) =>
      SubGrammarIsWhole(d, h, g, rules);
      f := Terminates(false, d, h - 1, rules, rules[0], s, i);
    case _ => f := 0;
  }

  // A depth that serves for two results.
  lemma Both(f1: nat, g: seq<Tree>, p1: Tree, i1: nat, f2: nat, p2: Tree, i2: nat, s: Subject) returns (f: nat)
    requires i1 <= |s| && i2 <= |s| && Peg(f1, g, p1, s, i1) != Out && Peg(f2, g, p2, s, i2) != Out
    ensures Peg(f, g, p1, s, i1) == Peg(f1, g, p1, s, i1) && Peg(f, g, p2, s, i2) == Peg(f2, g, p2, s, i2)
  {
    f := f1 + f2;
    PegMonotone(f1, f, g, p1, s, i1);
    PegMonotone(f2, f, g, p2, s, i2);
  }

  lemma PartOfOne(d: nat, h: nat, g: seq<Tree>, t: Tree, p: Tree)
    requires (t == TRep(p) || t == TNot(p) || t == TAnd(p) || (t.TBehind? && t.p == p)) && Part(d, h, g, t)
    ensures Part(d, h, g, p) && (CallFree(t) || (t.TBehind? && t.n > 0) ==> CallFree(p))
    ensures t.TRep? ==> !Nullable(d, g, p)
  {
    forall k: nat | CallsRule(p, k) ensures CallsRule(t, k) {}
  }

  lemma PartsOfPair(d: nat, h: nat, g: seq<Tree>, t: Tree, p1: Tree, p2: Tree)
    requires (t == TSeq(p1, p2) || t == TChoice(p1, p2)) && Part(d, h, g, t)
    ensures Part(d, h, g, p1) && Part(d, h, g, p2)
    ensures CallFree(t) ==> CallFree(p1) && CallFree(p2)
  {
    forall k: nat | CallsRule(p1, k) || CallsRule(p2, k) ensures CallsRule(t, k) {}
  }

  /** A part that the repaired 'verifyrule' accepts terminates at position i: calls it reaches without consuming go
      down the remaining depth of the check, all others happen further on in the subject. */
  lemma {:induction false} TerminatesLeft(d: nat, h: nat, g: seq<Tree>, t: Tree, npassed: nat, nb: bool, s: Subject, i: nat)
    returns (f: nat)
    requires i <= |s| && npassed <= MAXRULES && Part(d, h, g, t) && Whole(d, h, g)
    requires VerifyKept(d, g, t, npassed, nb) != Error
    ensures Peg(f, g, t, s, i) != Out
    decreases h, 1, |s| - i, 0, MAXRULES - npassed, Size(t)
  {
    hide Part, Whole, CallFree;
    match t
    case TRep(p) =>
      PartOfOne(d, h, g, t, p);
      f := TerminatesLeft(d, h, g, p, npassed, true, s, i);
      NullableSound(d, f, g, p, s, i);
      if Peg(f, g, p, s, i).Ok? {
        var j := Peg(f, g, p, s, i).end;
        var f' := Terminates(false, d, h, g, t, s, j);
        f := Both(f, g, p, i, f', t, j, s);
      }
    case TNot(p) => PartOfOne(d, h, g, t, p); f := TerminatesLeft(d, h, g, p, npassed, true, s, i);
    case TAnd(p) => PartOfOne(d, h, g, t, p); f := TerminatesLeft(d, h, g, p, npassed, true, s, i);
    case TBehind(n, p) =>
      PartOfOne(d, h, g, t, p);
      f := 0;
      if n == 0 {
        f := TerminatesLeft(d, h, g, p, npassed, true, s, i);
      } else if n <= i {
        f := Terminates(true, d, h, g, p, s, i - n);
      }
    case TSeq(p1, p2) =>
      PartsOfPair(d, h, g, t, p1, p2);
      f := TerminatesLeft(d, h, g, p1, npassed, false, s, i);
      if Peg(f, g, p1, s, i).Ok? {
        var j := Peg(f, g, p1, s, i).end;
        var f': nat;
        if j > i {
          f' := Terminates(false, d, h, g, p2, s, j);
        } else {
          if VerifyKept(d, g, p1, npassed, false) == Nb(false) { VerifyruleSound(d, f, g, p1, npassed, false, s, i); }
          f' := TerminatesLeft(d, h, g, p2, npassed, nb, s, i);
        }
        f := Both(f, g, p1, i, f', p2, j, s);
      }
    case TChoice(p1, p2) =>
      PartsOfPair(d, h, g, t, p1, p2);
      f := TerminatesLeft(d, h, g, p1, npassed, nb, s, i);
      var f' := TerminatesLeft(d, h, g, p2, npassed, VerifyKept(d, g, p1, npassed, nb).nb, s, i);
      f := Both(f, g, p1, i, f', p2, i, s);
    case TCall(k) =>
      CalledIsPart(d, h, g, k);
      var f' := TerminatesLeft(d, h, g, g[k], npassed + 1, nb, s, i);
      f := f' + 1;
    case TGrammar(rules) =>
      SubGrammarIsWhole(d, h, g, rules);
      f := Terminates(false, d, h - 1, rules, rules[0], s, i);
    case _ => f := 0;
  }

  /** Matching a grammar that the repaired check accepts ends on every subject, from every position. */
  lemma GrammarTerminates(d: nat, rules: seq<Tree>, s: Subject, i: nat) returns (f: nat)
    requires Fine(d, TGrammar(rules)) && i <= |s|
    ensures Peg(f, [], TGrammar(rules), s, i) != Out
  {
    var h := NestingDepth(TGrammar(rules));
    assert Part(d, h, [], TGrammar(rules));
    SubGrammarIsWhole(d, h, [], rules);
    f := Terminates(false, d, h - 1, rules, rules[0], s, i);
  }
}
