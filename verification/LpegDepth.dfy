// The code recurses through rule calls as far as they go, where the analyses here stop at a call depth d. From a
// depth on at which the analyses end, the compiled program is the same; for a pattern that the repaired check accepts
// they end at a stated depth.
module LpegDepth {
  import opened Sets
  import opened LpegCharset
  import opened LpegTree
  import opened LpegAnalysis
  import opened LpegGen
  import opened LpegCorrect
  import opened LpegGrammar
  import opened LpegEnds
  import M = LpegMatch

  /** A call depth that the analyses of a pattern accepted at 'npassed' cannot exhaust, with sub-grammars
      nested h deep. */
  function Depth(h: nat, npassed: nat): nat
    requires npassed <= MAXRULES
  {
    h * (MAXRULES + 1) + (MAXRULES - npassed)
  }

  lemma DepthInside(h: nat, npassed: nat)
    requires npassed <= MAXRULES && h > 0
    ensures Depth(h, npassed) >= Depth(h - 1, 0)
  {
    assert h * (MAXRULES + 1) == (h - 1) * (MAXRULES + 1) + (MAXRULES + 1);
  }

  // ----- pieces

  lemma PieceOfOne(d: nat, h: nat, g: seq<Tree>, t: Tree, p: Tree)
    requires (t == TRep(p) || t == TNot(p) || t == TAnd(p) || (t.TBehind? && t.p == p)) && Piece(d, h, g, t)
    ensures Piece(d, h, g, p) && (CallFree(t) ==> CallFree(p))
  {
    forall k: nat | CallsRule(p, k) ensures CallsRule(t, k) {}
  }

  lemma PiecesOfPair(d: nat, h: nat, g: seq<Tree>, t: Tree, p1: Tree, p2: Tree)
    requires (t == TSeq(p1, p2) || t == TChoice(p1, p2)) && Piece(d, h, g, t)
    ensures Piece(d, h, g, p1) && Piece(d, h, g, p2)
    ensures CallFree(t) ==> CallFree(p1) && CallFree(p2)
  {
    forall k: nat | CallsRule(p1, k) || CallsRule(p2, k) ensures CallsRule(t, k) {}
  }

  lemma CalledPiece(d: nat, h: nat, g: seq<Tree>, k: nat)
    requires Piece(d, h, g, TCall(k)) && Whole(d, h, g)
    ensures k < |g| && Used(g, k) && Piece(d, h, g, g[k]) && VerifyKept(d, g, g[k], 0, false) != Error
  {
    assert CallsRule(TCall(k), k);
    RulePiece(d, h, g, k);
  }

  lemma RulePiece(d: nat, h: nat, g: seq<Tree>, k: nat)
    requires Whole(d, h, g) && k < |g|
    ensures Piece(d, h, g, g[k])
  {
    forall j: nat | CallsRule(g[k], j) ensures j < |g| && Used(g, j) {}
  }

  lemma SubGrammar(d: nat, h: nat, g: seq<Tree>, rules: seq<Tree>)
    requires Piece(d, h, g, TGrammar(rules))
    ensures h > 0 && Whole(d, h - 1, rules) && rules != []
    ensures forall k: nat | k < |rules| :: Piece(d, h - 1, rules, rules[k])
    ensures VerifyKept(d, rules, rules[0], 0, false) != Error
  {
    forall k: nat | k < |rules| ensures Piece(d, h - 1, rules, rules[k]) { RulePiece(d, h - 1, rules, k); }
  }

  // ----- what can be reached without consuming

  /** The flag the check returns is exact, and both checks of 'checkaux' end within a stated depth. */
  lemma {:induction false} VerifyruleExact(d: nat, e: nat, h: nat, g: seq<Tree>, t: Tree, npassed: nat, nb: bool)
    requires npassed <= MAXRULES && Piece(d, h, g, t) && Whole(d, h, g)
    requires d >= Depth(h, npassed) && e >= Depth(h, npassed)
    requires VerifyKept(d, g, t, npassed, nb) != Error
    ensures VerifyKept(d, g, t, npassed, nb) == Nb(nb || Nullable(e, g, t))
    ensures AuxEnds(e, g, t, PENullable) && AuxEnds(e, g, t, PENofail)
    decreases h, MAXRULES - npassed, Size(t)
  {
    match t
    case TBehind(n, p) => if n == 0 { FlagStays(d, g, p, npassed); }
    case TNot(p) => PieceOfOne(d, h, g, t, p); VerifyruleExact(d, e, h, g, p, npassed, true);
    case TAnd(p) => PieceOfOne(d, h, g, t, p); VerifyruleExact(d, e, h, g, p, npassed, true);
    case TRep(p) => PieceOfOne(d, h, g, t, p); VerifyruleExact(d, e, h, g, p, npassed, true);
    case TSeq(p1, p2) =>
      PiecesOfPair(d, h, g, t, p1, p2);
      VerifyruleExact(d, e, h, g, p1, npassed, false);
      if VerifyKept(d, g, p1, npassed, false) == Nb(true) {
        VerifyruleExact(d, e, h, g, p2, npassed, nb);
      } else if Nofail(e, g, p1) {
        NofailIsNullable(e, g, p1);
      }
    case TChoice(p1, p2) =>
      PiecesOfPair(d, h, g, t, p1, p2);
      VerifyruleExact(d, e, h, g, p1, npassed, nb);
      VerifyruleExact(d, e, h, g, p2, npassed, VerifyKept(d, g, p1, npassed, nb).nb);
    case TCall(k) =>
      CalledPiece(d, h, g, k);
      VerifyruleExact(d, e - 1, h, g, g[k], npassed + 1, nb);
    case TGrammar(rules) =>
      SubGrammar(d, h, g, rules);
      DepthInside(h, npassed);
      VerifyruleExact(d, e, h - 1, rules, rules[0], 0, false);
      VerifyruleExact(d, d, h - 1, rules, rules[0], 0, false);
    case _ =>
  }

  /** 'getfirst' ends within the same depth. */
  lemma {:induction false} FirstDepthEnough(d: nat, e: nat, h: nat, g: seq<Tree>, t: Tree, npassed: nat, nb: bool)
    requires npassed <= MAXRULES && Piece(d, h, g, t) && Whole(d, h, g) && BehindsClosed(t)
    requires d >= Depth(h, npassed) && e >= Depth(h, npassed)
    requires VerifyKept(d, g, t, npassed, nb) != Error
    ensures FirstEnds(e, g, t)
    decreases h, MAXRULES - npassed, Size(t), 1
  {
    match t
    case TNot(p) => PieceOfOne(d, h, g, t, p); FirstDepthEnough(d, e, h, g, p, npassed, true);
    case TAnd(p) => PieceOfOne(d, h, g, t, p); FirstDepthEnough(d, e, h, g, p, npassed, true);
    case TRep(p) => PieceOfOne(d, h, g, t, p); FirstDepthEnough(d, e, h, g, p, npassed, true);
    case TBehind(n, p) =>
      PieceOfOne(d, h, g, t, p);
      if n == 0 { FirstDepthEnough(d, e, h, g, p, npassed, true); } else { FirstDepthFree(d, e, h, g, p, npassed); }
    case TSeq(p1, p2) =>
      PiecesOfPair(d, h, g, t, p1, p2);
      VerifyruleExact(d, e, h, g, p1, npassed, false);
      FirstDepthEnough(d, e, h, g, p1, npassed, false);
      if VerifyKept(d, g, p1, npassed, false) == Nb(true) { FirstDepthEnough(d, e, h, g, p2, npassed, nb); }
    case TChoice(p1, p2) =>
      PiecesOfPair(d, h, g, t, p1, p2);
      FirstDepthEnough(d, e, h, g, p1, npassed, nb);
      FirstDepthEnough(d, e, h, g, p2, npassed, VerifyKept(d, g, p1, npassed, nb).nb);
    case TCall(k) =>
      CalledPiece(d, h, g, k);
      FirstDepthEnough(d, e - 1, h, g, g[k], npassed + 1, nb);
    case TGrammar(rules) => SubGrammarFirst(d, e, h, g, rules, npassed);
    case _ =>
  }

  // The body of a look-behind that goes back calls nothing.
  lemma {:induction false} FirstDepthFree(d: nat, e: nat, h: nat, g: seq<Tree>, t: Tree, npassed: nat)
    requires npassed <= MAXRULES && Piece(d, h, g, t) && CallFree(t)
    requires d >= Depth(h, npassed) && e >= Depth(h, npassed)
    ensures FirstEnds(e, g, t) && AuxEnds(e, g, t, PENullable) && AuxEnds(e, g, t, PENofail)
    decreases h, MAXRULES - npassed, Size(t), 1
  {
    match t
    case TNot(p) => PieceOfOne(d, h, g, t, p); FirstDepthFree(d, e, h, g, p, npassed);
    case TAnd(p) => PieceOfOne(d, h, g, t, p); FirstDepthFree(d, e, h, g, p, npassed);
    case TRep(p) => PieceOfOne(d, h, g, t, p); FirstDepthFree(d, e, h, g, p, npassed);
    case TBehind(_, p) => PieceOfOne(d, h, g, t, p); FirstDepthFree(d, e, h, g, p, npassed);
    case TSeq(p1, p2) =>
      PiecesOfPair(d, h, g, t, p1, p2);
      FirstDepthFree(d, e, h, g, p1, npassed);
      FirstDepthFree(d, e, h, g, p2, npassed);
    case TChoice(p1, p2) =>
      PiecesOfPair(d, h, g, t, p1, p2);
      FirstDepthFree(d, e, h, g, p1, npassed);
      FirstDepthFree(d, e, h, g, p2, npassed);
    case TCall(k) => assert CallsRule(t, k);
    case TGrammar(rules) => SubGrammarFirst(d, e, h, g, rules, npassed);
    case _ =>
  }

  lemma {:induction false} SubGrammarFirst(d: nat, e: nat, h: nat, g: seq<Tree>, rules: seq<Tree>, npassed: nat)
    requires npassed <= MAXRULES && Piece(d, h, g, TGrammar(rules)) && d >= Depth(h, npassed) && e >= Depth(h, npassed)
    ensures var t := TGrammar(rules);
      FirstEnds(e, g, t) && AuxEnds(e, g, t, PENullable) && AuxEnds(e, g, t, PENofail)
    decreases h, MAXRULES - npassed, Size(TGrammar(rules)), 0
  {
    SubGrammar(d, h, g, rules);
    DepthInside(h, npassed);
    VerifyruleExact(d, e, h - 1, rules, rules[0], 0, false);
    FirstDepthEnough(d, e, h - 1, rules, rules[0], 0, false);
  }

  // ----- any piece

  /** Where a piece without calls stands does not matter. */
  ghost predicate Home(d: nat, h: nat, g: seq<Tree>, t: Tree) {
    CallFree(t) || Whole(d, h, g)
  }

  lemma {:induction false} AuxDepth(d: nat, e: nat, h: nat, g: seq<Tree>, t: Tree)
    requires Piece(d, h, g, t) && Home(d, h, g, t) && d > Depth(h, 0) && e > Depth(h, 0)
    ensures AuxEnds(e, g, t, PENullable) && AuxEnds(e, g, t, PENofail)
    decreases t
  {
    match t
    case TAnd(p) => PieceOfOne(d, h, g, t, p); AuxDepth(d, e, h, g, p);
    case TSeq(p1, p2) => PiecesOfPair(d, h, g, t, p1, p2); AuxDepth(d, e, h, g, p1); AuxDepth(d, e, h, g, p2);
    case TChoice(p1, p2) => PiecesOfPair(d, h, g, t, p1, p2); AuxDepth(d, e, h, g, p1); AuxDepth(d, e, h, g, p2);
    case TCall(k) =>
      assert CallsRule(t, k);
      CalledPiece(d, h, g, k);
      VerifyruleExact(d, e - 1, h, g, g[k], 0, false);
    case TGrammar(rules) =>
      SubGrammar(d, h, g, rules);
      DepthInside(h, 0);
      VerifyruleExact(d, e, h - 1, rules, rules[0], 0, false);
    case _ =>
  }

  lemma {:induction false} FirstDepth(d: nat, e: nat, h: nat, g: seq<Tree>, t: Tree)
    requires Piece(d, h, g, t) && Home(d, h, g, t) && d > Depth(h, 0) && e > Depth(h, 0)
    ensures FirstEnds(e, g, t)
    decreases t
  {
    match t
    case TNot(p) => PieceOfOne(d, h, g, t, p); FirstDepth(d, e, h, g, p);
    case TAnd(p) => PieceOfOne(d, h, g, t, p); FirstDepth(d, e, h, g, p);
    case TRep(p) => PieceOfOne(d, h, g, t, p); FirstDepth(d, e, h, g, p);
    case TBehind(_, p) => PieceOfOne(d, h, g, t, p); FirstDepth(d, e, h, g, p);
    case TSeq(p1, p2) =>
      PiecesOfPair(d, h, g, t, p1, p2);
      AuxDepth(d, e, h, g, p1);
      FirstDepth(d, e, h, g, p1);
      FirstDepth(d, e, h, g, p2);
    case TChoice(p1, p2) => PiecesOfPair(d, h, g, t, p1, p2); FirstDepth(d, e, h, g, p1); FirstDepth(d, e, h, g, p2);
    case TCall(k) =>
      assert CallsRule(t, k);
      CalledPiece(d, h, g, k);
      FirstDepthEnough(d, e - 1, h, g, g[k], 0, false);
    case TGrammar(rules) => SubGrammarFirst(d, e, h, g, rules, 0);
    case _ =>
  }

  /** 'headfail' looks at the second part of a sequence wherever it stands, so that it needs the depth twice. */
  function Twice(h: nat, npassed: nat): nat
    requires npassed <= MAXRULES
  {
    Depth(h, npassed) + Depth(h, 0) + 1
  }

  lemma {:induction false} HeadfailDepthEnough(d: nat, e: nat, h: nat, g: seq<Tree>, t: Tree, npassed: nat, nb: bool)
    requires npassed <= MAXRULES && Piece(d, h, g, t) && Whole(d, h, g)
    requires d >= Twice(h, npassed) && e >= Twice(h, npassed)
    requires VerifyKept(d, g, t, npassed, nb) != Error
    ensures HeadEnds(e, g, t)
    decreases h, MAXRULES - npassed, Size(t)
  {
    match t
    case TAnd(p) => PieceOfOne(d, h, g, t, p); HeadfailDepthEnough(d, e, h, g, p, npassed, true);
    case TSeq(p1, p2) =>
      PiecesOfPair(d, h, g, t, p1, p2);
      AuxDepth(d, e, h, g, p2);
      HeadfailDepthEnough(d, e, h, g, p1, npassed, false);
    case TChoice(p1, p2) =>
      PiecesOfPair(d, h, g, t, p1, p2);
      HeadfailDepthEnough(d, e, h, g, p1, npassed, nb);
      HeadfailDepthEnough(d, e, h, g, p2, npassed, VerifyKept(d, g, p1, npassed, nb).nb);
    case TCall(k) =>
      CalledPiece(d, h, g, k);
      HeadfailDepthEnough(d, e - 1, h, g, g[k], npassed + 1, nb);
    case TGrammar(rules) =>
      SubGrammar(d, h, g, rules);
      DepthInside(h, npassed);
      DepthInside(h, 0);
      HeadfailDepthEnough(d, e, h - 1, rules, rules[0], 0, false);
    case _ =>
  }

  lemma {:induction false} HeadfailDepth(d: nat, e: nat, h: nat, g: seq<Tree>, t: Tree)
    requires Piece(d, h, g, t) && Home(d, h, g, t) && d > Twice(h, 0) && e > Twice(h, 0)
    ensures HeadEnds(e, g, t)
    decreases t
  {
    match t
    case TAnd(p) => PieceOfOne(d, h, g, t, p); HeadfailDepth(d, e, h, g, p);
    case TSeq(p1, p2) => PiecesOfPair(d, h, g, t, p1, p2); AuxDepth(d, e, h, g, p2); HeadfailDepth(d, e, h, g, p1);
    case TChoice(p1, p2) =>
      PiecesOfPair(d, h, g, t, p1, p2);
      HeadfailDepth(d, e, h, g, p1);
      HeadfailDepth(d, e, h, g, p2);
    case TCall(k) =>
      assert CallsRule(t, k);
      CalledPiece(d, h, g, k);
      HeadfailDepthEnough(d, e - 1, h, g, g[k], 0, false);
    case TGrammar(rules) =>
      SubGrammar(d, h, g, rules);
      DepthInside(h, 0);
      HeadfailDepthEnough(d, e, h - 1, rules, rules[0], 0, false);
    case _ =>
  }

  // ----- fixed lengths, which may go through any calls

  lemma {:induction false} FixedlenMonotone(d: nat, e: nat, g: seq<Tree>, t: Tree)
    requires d <= e && Fixedlen(d, g, t) >= 0
    ensures Fixedlen(e, g, t) == Fixedlen(d, g, t)
    decreases d, t
  {
    match t
    case TSeq(p1, p2) => FixedlenMonotone(d, e, g, p1); FixedlenMonotone(d, e, g, p2);
    case TChoice(p1, p2) => FixedlenMonotone(d, e, g, p1); FixedlenMonotone(d, e, g, p2);
    case TGrammar(rules) => FixedlenMonotone(d, e, rules, rules[0]);
    case TCall(k) => FixedlenMonotone(d - 1, e - 1, g, g[k]);
    case _ =>
  }

  /** Every grammar in t has at most 250 rules and at least one. */
  predicate Bounded(t: Tree) {
    match t
    case TRep(p) => Bounded(p)
    case TNot(p) => Bounded(p)
    case TAnd(p) => Bounded(p)
    case TBehind(_, p) => Bounded(p)
    case TSeq(p1, p2) => Bounded(p1) && Bounded(p2)
    case TChoice(p1, p2) => Bounded(p1) && Bounded(p2)
    case TGrammar(rules) => 0 < |rules| <= MAXRULES && forall k: nat | k < |rules| :: Bounded(rules[k])
    case _ => true
  }

  lemma {:induction false} FineBounded(d: nat, t: Tree)
    requires Fine(d, t)
    ensures Bounded(t)
  {
    match t
    case TRep(p) => FineBounded(d, p);
    case TNot(p) => FineBounded(d, p);
    case TAnd(p) => FineBounded(d, p);
    case TBehind(_, p) => FineBounded(d, p);
    case TSeq(p1, p2) => FineBounded(d, p1); FineBounded(d, p2);
    case TChoice(p1, p2) => FineBounded(d, p1); FineBounded(d, p2);
    case TGrammar(rules) => forall k: nat | k < |rules| ensures Bounded(rules[k]) { FineBounded(d, rules[k]); }
    case _ =>
  }

  predicate RulesBounded(h: nat, g: seq<Tree>) {
    |g| <= MAXRULES && forall k: nat | k < |g| :: Bounded(g[k]) && Nested(h, g[k])
  }

  /** From this call depth on fixed lengths do not change. */
  function LengthDepth(h: nat): nat {
    (h + 1) * (MAXRULES + 1)
  }

  /** One more call changes the length of no rule. */
  predicate Settled(g: seq<Tree>, j: nat) {
    forall k: nat | k < |g| :: Fixedlen(j + 1, g, g[k]) == Fixedlen(j, g, g[k])
  }

  /** The rules whose length is known after j calls. */
  function Known(g: seq<Tree>, j: nat): set<nat> {
    set k: nat | k < |g| && Fixedlen(j, g, g[k]) >= 0
  }

  /** As long as the lengths are not settled one more rule gets known, so that they are after |g| calls. */
  lemma {:induction false} Settles(g: seq<Tree>, j: nat) returns (j': nat)
    ensures j <= j' <= j + |g| - |Known(g, j)| && Settled(g, j')
    decreases |g| - |Known(g, j)|
  {
    SubsetSize(Known(g, j), Upto(|g|));
    if Settled(g, j) {
      j' := j;
    } else {
      var k: nat :| k < |g| && Fixedlen(j + 1, g, g[k]) != Fixedlen(j, g, g[k]);
      forall i: nat | i in Known(g, j) ensures i in Known(g, j + 1) { FixedlenMonotone(j, j + 1, g, g[i]); }
      if k in Known(g, j) { FixedlenMonotone(j, j + 1, g, g[k]); }
      assert k in Known(g, j + 1) && k !in Known(g, j);
      SubsetSize(Known(g, j), Known(g, j + 1));
      SubsetSize(Known(g, j + 1), Upto(|g|));
      j' := Settles(g, j + 1);
    }
  }

  /** When the lengths of the rules are settled, so are all others, if those of inner grammars are. */
  lemma {:induction false} SettledNext(h: nat, g: seq<Tree>, t: Tree, j: nat)
    requires Settled(g, j) && Bounded(t) && Nested(h, t) && (h > 0 ==> j >= LengthDepth(h - 1))
    ensures Fixedlen(j + 2, g, t) == Fixedlen(j + 1, g, t)
    decreases h, 0, t
  {
    match t
    case TSeq(p1, p2) => SettledNext(h, g, p1, j); SettledNext(h, g, p2, j);
    case TChoice(p1, p2) => SettledNext(h, g, p1, j); SettledNext(h, g, p2, j);
    case TGrammar(rules) => LengthSettled(h - 1, rules, rules[0], j + 2, j + 1);
    case _ =>
  }

  lemma {:induction false} StaysSettled(h: nat, g: seq<Tree>, j: nat, d: nat)
    requires RulesBounded(h, g) && Settled(g, j) && j <= d && (h > 0 ==> j >= LengthDepth(h - 1))
    ensures Settled(g, d)
    decreases h, 1, d
  {
    if j < d {
      StaysSettled(h, g, j, d - 1);
      forall k: nat | k < |g| ensures Fixedlen(d + 1, g, g[k]) == Fixedlen(d, g, g[k]) { SettledNext(h, g, g[k], d - 1); }
    }
  }

  lemma {:induction false} SettledUpTo(h: nat, g: seq<Tree>, t: Tree, j: nat, d: nat)
    requires RulesBounded(h, g) && Settled(g, j) && j < d && Bounded(t) && Nested(h, t)
    requires h > 0 ==> j >= LengthDepth(h - 1)
    ensures Fixedlen(d, g, t) == Fixedlen(j + 1, g, t)
    decreases h, 2, d
  {
    if j + 1 < d {
      SettledUpTo(h, g, t, j, d - 1);
      StaysSettled(h, g, j, d - 2);
      SettledNext(h, g, t, d - 2);
    }
  }

  /** Fixed lengths do not depend on the call depth from a stated depth on, also through recursive calls. */
  lemma {:induction false} LengthSettled(h: nat, g: seq<Tree>, t: Tree, d: nat, e: nat)
    requires RulesBounded(h, g) && Bounded(t) && Nested(h, t) && d >= LengthDepth(h) && e >= LengthDepth(h)
    ensures Fixedlen(d, g, t) == Fixedlen(e, g, t)
    decreases h, 3, 0
  {
    var j := Settles(g, if h > 0 then LengthDepth(h - 1) else 0);
    assert LengthDepth(h) == (if h > 0 then LengthDepth(h - 1) else 0) + (MAXRULES + 1);
    SettledUpTo(h, g, t, j, d);
    SettledUpTo(h, g, t, j, e);
  }

  // ----- the emitted code

  /** A depth that is enough for all of them. */
  function Enough(h: nat): nat {
    2 * (h + 1) * (MAXRULES + 1)
  }

  lemma EnoughIs(h: nat)
    ensures Enough(h) > Twice(h, 0) > Depth(h, 0) && Enough(h) >= LengthDepth(h)
    ensures h > 0 ==> Enough(h) >= Enough(h - 1)
  {
  }

  // The code generator asks for the analyses of t at a depth d at which they end, and at a greater one.
  predicate Asked(d: nat, e: nat, h: nat, g: seq<Tree>, t: Tree) {
    && CodeEnds(d, g, t) && LengthDepth(h) <= d <= e
    && RulesBounded(h, g) && Bounded(t) && Nested(h, t)
  }

  /** Once the analyses that the code generator asks for end, the code is the same for all greater depths. */
  lemma {:induction false} GenSettles(tail: bool, d: nat, e: nat, h: nat, g: seq<Tree>, t: Tree, opt: bool, tt: Test, fl: Charset)
    requires Asked(d, e, h, g, t)
    ensures Gen(tail, e, g, t, opt, tt, fl) == Gen(tail, d, g, t, opt, tt, fl)
    decreases t, 1
  {
    hide *;
    match t
    case TChoice(_, _) => ChoiceSettles(tail, d, e, h, g, t, opt, tt, fl);
    case TRep(_) => RepSettles(tail, d, e, h, g, t, opt, tt, fl);
    case TBehind(_, _) => BehindSettles(tail, d, e, h, g, t, opt, tt, fl);
    case TNot(_) => NotSettles(tail, d, e, h, g, t, opt, tt, fl);
    case TAnd(_) => AndSettles(tail, d, e, h, g, t, opt, tt, fl);
    case TSeq(_, _) => SeqSettles(tail, d, e, h, g, t, opt, tt, fl);
    case TGrammar(_) => GrammarSettles(tail, d, e, h, g, t, opt, tt, fl);
    case _ => LeafSettles(tail, d, e, g, t, opt, tt, fl);
  }

  lemma LeafSettles(tail: bool, d: nat, e: nat, g: seq<Tree>, t: Tree, opt: bool, tt: Test, fl: Charset)
    requires t.TChar? || t.TAny? || t.TSet? || t.TTrue? || t.TFalse? || t.TCall?
    ensures Gen(tail, e, g, t, opt, tt, fl) == Gen(tail, d, g, t, opt, tt, fl)
  {
  }

  lemma {:induction false} ChoiceSettles(tail: bool, d: nat, e: nat, h: nat, g: seq<Tree>, t: Tree, opt: bool, tt: Test, fl: Charset)
    requires t.TChoice? && Asked(d, e, h, g, t)
    ensures Gen(tail, e, g, t, opt, tt, fl) == Gen(tail, d, g, t, opt, tt, fl)
    decreases t, 0
  {
    hide RulesBounded, Bounded, Nested, FirstEnds, HeadEnds, Fixedlen, Getfirst, Headfail, Disjoint, KindOf,
         TestThenElse, OrElse, TestLoop, ChoiceLoop;
    var TChoice(p1, p2) := t;
    AskedParts(d, e, h, g, t);
    FirstSettles(d, e, g, p1, FullSet());
    HeadSettles(d, e, g, p1);
    var f1 := Getfirst(d, g, p1, FullSet());
    if !Headfail(d, g, p1) && !f1.e { FirstSettles(d, e, g, p2, fl); }
    GenSettles(tail, d, e, h, g, p2, opt, NoTest, fl);
    GenSettles(tail, d, e, h, g, p1, false, TestOf(f1.cs), fl);
    GenSettles(tail, d, e, h, g, p1, true, NoTest, FullSet());
    GenSettles(tail, d, e, h, g, p1, p2.TTrue?, OptTestOf(f1), FullSet());
  }

  lemma {:induction false} RepSettles(tail: bool, d: nat, e: nat, h: nat, g: seq<Tree>, t: Tree, opt: bool, tt: Test, fl: Charset)
    requires t.TRep? && Asked(d, e, h, g, t)
    ensures Gen(tail, e, g, t, opt, tt, fl) == Gen(tail, d, g, t, opt, tt, fl)
    decreases t, 0
  {
    hide RulesBounded, Bounded, Nested, LengthDepth, FirstEnds, HeadEnds, Fixedlen, Getfirst, Headfail, Disjoint, KindOf,
         TestThenElse, OrElse, TestLoop, ChoiceLoop;
    var p := t.p;
    if !IsCharPattern(p) {
      AskedParts(d, e, h, g, t);
      FirstSettles(d, e, g, p, FullSet());
      HeadSettles(d, e, g, p);
      GenSettles(tail, d, e, h, g, p, false, TestOf(Getfirst(d, g, p, FullSet()).cs), FullSet());
      GenSettles(tail, d, e, h, g, p, false, NoTest, FullSet());
    }
  }

  lemma {:induction false} BehindSettles(tail: bool, d: nat, e: nat, h: nat, g: seq<Tree>, t: Tree, opt: bool, tt: Test, fl: Charset)
    requires t.TBehind? && Asked(d, e, h, g, t)
    ensures Gen(tail, e, g, t, opt, tt, fl) == Gen(tail, d, g, t, opt, tt, fl)
    decreases t, 0
  {
    hide Asked;
    AskedParts(d, e, h, g, t);
    GenSettles(tail, d, e, h, g, t.p, false, NoTest, FullSet());
  }

  lemma {:induction false} NotSettles(tail: bool, d: nat, e: nat, h: nat, g: seq<Tree>, t: Tree, opt: bool, tt: Test, fl: Charset)
    requires t.TNot? && Asked(d, e, h, g, t)
    ensures Gen(tail, e, g, t, opt, tt, fl) == Gen(tail, d, g, t, opt, tt, fl)
    decreases t, 0
  {
    hide RulesBounded, Bounded, Nested, LengthDepth, FirstEnds, HeadEnds, Fixedlen, Getfirst, Headfail, Disjoint, KindOf,
         TestThenElse, OrElse, TestLoop, ChoiceLoop;
    AskedParts(d, e, h, g, t);
    FirstSettles(d, e, g, t.p, FullSet());
    HeadSettles(d, e, g, t.p);
    if !Headfail(d, g, t.p) { GenSettles(tail, d, e, h, g, t.p, false, NoTest, FullSet()); }
  }

  lemma {:induction false} AndSettles(tail: bool, d: nat, e: nat, h: nat, g: seq<Tree>, t: Tree, opt: bool, tt: Test, fl: Charset)
    requires t.TAnd? && Asked(d, e, h, g, t)
    ensures Gen(tail, e, g, t, opt, tt, fl) == Gen(tail, d, g, t, opt, tt, fl)
    decreases t, 0
  {
    hide Asked;
    AskedParts(d, e, h, g, t);
    LengthSame(d, e, h, g, t.p);
    GenSettles(tail, d, e, h, g, t.p, false, tt, FullSet());
  }

  lemma {:induction false} SeqSettles(tail: bool, d: nat, e: nat, h: nat, g: seq<Tree>, t: Tree, opt: bool, tt: Test, fl: Charset)
    requires t.TSeq? && Asked(d, e, h, g, t)
    ensures Gen(tail, e, g, t, opt, tt, fl) == Gen(tail, d, g, t, opt, tt, fl)
    decreases t, 0
  {
    hide RulesBounded, Bounded, Nested, LengthDepth, FirstEnds, HeadEnds, Fixedlen, Getfirst, Headfail, Disjoint, KindOf,
         TestThenElse, OrElse, TestLoop, ChoiceLoop;
    var TSeq(p1, p2) := t;
    AskedParts(d, e, h, g, t);
    LengthSame(d, e, h, g, p1);
    if Needfollow(p1) { FirstSettles(d, e, g, p2, fl); }
    GenSettles(tail, d, e, h, g, p1, false, tt, SeqFollow(d, g, p1, p2, fl));
    GenSettles(tail, d, e, h, g, p2, opt, SeqTest(d, g, p1, tt), fl);
  }

  lemma {:induction false} GrammarSettles(tail: bool, d: nat, e: nat, h: nat, g: seq<Tree>, t: Tree, opt: bool, tt: Test, fl: Charset)
    requires t.TGrammar? && Asked(d, e, h, g, t)
    ensures Gen(tail, e, g, t, opt, tt, fl) == Gen(tail, d, g, t, opt, tt, fl)
    decreases t, 0
  {
    hide RulesAsked, Closed, GenRules;
    AskedRules(d, e, h, g, t.rules);
    RulesSettle(tail, d, e, h - 1, t.rules, |t.rules|);
    PositionsSettle(tail, d, e, h - 1, t.rules);
  }

  lemma AskedParts(d: nat, e: nat, h: nat, g: seq<Tree>, t: Tree)
    requires Asked(d, e, h, g, t)
    ensures t.TChoice? || t.TSeq? ==> Asked(d, e, h, g, t.p1) && Asked(d, e, h, g, t.p2)
    ensures t.TBehind? || t.TAnd? ==> Asked(d, e, h, g, t.p)
    ensures t.TRep? && !IsCharPattern(t.p) ==> Asked(d, e, h, g, t.p)
    ensures t.TNot? && !Headfail(d, g, t.p) ==> Asked(d, e, h, g, t.p)
  {
  }

  lemma LengthSame(d: nat, e: nat, h: nat, g: seq<Tree>, t: Tree)
    requires Asked(d, e, h, g, t)
    ensures Fixedlen(e, g, t) == Fixedlen(d, g, t)
  {
    LengthSettled(h, g, t, d, e);
  }

  predicate RulesAsked(d: nat, e: nat, h: nat, rules: seq<Tree>) {
    forall k: nat | k < |rules| :: Asked(d, e, h, rules, rules[k])
  }

  lemma AskedRules(d: nat, e: nat, h: nat, g: seq<Tree>, rules: seq<Tree>)
    requires Asked(d, e, h, g, TGrammar(rules))
    ensures h > 0 && RulesAsked(d, e, h - 1, rules)
  {
    assert LengthDepth(h - 1) <= LengthDepth(h);
  }

  lemma {:induction false} RulesSettle(tail: bool, d: nat, e: nat, h: nat, rules: seq<Tree>, n: nat)
    requires n <= |rules| && RulesAsked(d, e, h, rules)
    ensures GenRules(tail, e, rules, n) == GenRules(tail, d, rules, n)
    decreases rules, n
  {
    hide Asked, Gen;
    if n > 0 {
      RulesSettle(tail, d, e, h, rules, n - 1);
      GenSettles(tail, d, e, h, rules, rules[n - 1], false, NoTest, FullSet());
    }
  }

  lemma {:induction false} PositionsSettle(tail: bool, d: nat, e: nat, h: nat, rules: seq<Tree>)
    requires RulesAsked(d, e, h, rules)
    ensures Positions(tail, e, rules) == Positions(tail, d, rules)
    decreases rules, |rules| + 1
  {
    hide RulesAsked, GenRules;
    forall k: nat | k < |rules| ensures Positions(tail, e, rules)[k] == Positions(tail, d, rules)[k] {
      RulesSettle(tail, d, e, h, rules, k);
    }
  }

  /** Any pattern, whatever check it passes: once the analyses that the code generator asks for end within d calls,
      the compiled program is the same for all greater depths, and so that of the unbounded recursion in the code. */
  lemma ProgramSettles(d: nat, e: nat, h: nat, t: Tree)
    requires CodeEnds(d, [], t) && Bounded(t) && Nested(h, t) && LengthDepth(h) <= d <= e
    ensures M.Compiled(e, t) == M.Compiled(d, t)
  {
    GenSettles(true, d, e, h, [], t, false, NoTest, FullSet());
  }

  // ----- accepted patterns

  /** The analyses of an accepted piece end. */
  lemma {:induction false} CodeDepth(d: nat, e: nat, h: nat, g: seq<Tree>, t: Tree)
    requires Piece(d, h, g, t) && Home(d, h, g, t) && d >= Enough(h) && e >= Enough(h)
    ensures CodeEnds(e, g, t)
    decreases t
  {
    hide Piece, Home, FirstEnds, HeadEnds, AuxEnds, Getfirst, Headfail;
    match t
    case TRep(p) => HomeOfOne(d, h, g, t, p); AnalysesEnd(d, e, h, g, p); CodeDepth(d, e, h, g, p);
    case TNot(p) => HomeOfOne(d, h, g, t, p); AnalysesEnd(d, e, h, g, p); CodeDepth(d, e, h, g, p);
    case TAnd(p) => HomeOfOne(d, h, g, t, p); CodeDepth(d, e, h, g, p);
    case TBehind(_, p) => HomeOfOne(d, h, g, t, p); CodeDepth(d, e, h, g, p);
    case TSeq(p1, p2) =>
      HomesOfPair(d, h, g, t, p1, p2);
      AnalysesEnd(d, e, h, g, p2);
      CodeDepth(d, e, h, g, p1);
      CodeDepth(d, e, h, g, p2);
    case TChoice(p1, p2) =>
      HomesOfPair(d, h, g, t, p1, p2);
      AnalysesEnd(d, e, h, g, p1);
      AnalysesEnd(d, e, h, g, p2);
      CodeDepth(d, e, h, g, p1);
      CodeDepth(d, e, h, g, p2);
    case TGrammar(rules) =>
      EnoughIs(h);
      GrammarRules(d, h, g, rules);
      forall k: nat | k < |rules| ensures CodeEnds(e, rules, rules[k]) { CodeDepth(d, e, h - 1, rules, rules[k]); }
    case _ =>
  }

  lemma AnalysesEnd(d: nat, e: nat, h: nat, g: seq<Tree>, t: Tree)
    requires Piece(d, h, g, t) && Home(d, h, g, t) && d >= Enough(h) && e >= Enough(h)
    ensures FirstEnds(e, g, t) && HeadEnds(e, g, t)
  {
    hide Piece, Home;
    EnoughIs(h);
    FirstDepth(d, e, h, g, t);
    HeadfailDepth(d, e, h, g, t);
  }

  lemma HomeOfOne(d: nat, h: nat, g: seq<Tree>, t: Tree, p: Tree)
    requires (t == TRep(p) || t == TNot(p) || t == TAnd(p) || (t.TBehind? && t.p == p))
    requires Piece(d, h, g, t) && Home(d, h, g, t)
    ensures Piece(d, h, g, p) && Home(d, h, g, p)
  {
    PieceOfOne(d, h, g, t, p);
  }

  lemma HomesOfPair(d: nat, h: nat, g: seq<Tree>, t: Tree, p1: Tree, p2: Tree)
    requires (t == TSeq(p1, p2) || t == TChoice(p1, p2)) && Piece(d, h, g, t) && Home(d, h, g, t)
    ensures Piece(d, h, g, p1) && Home(d, h, g, p1) && Piece(d, h, g, p2) && Home(d, h, g, p2)
  {
    PiecesOfPair(d, h, g, t, p1, p2);
  }

  lemma GrammarRules(d: nat, h: nat, g: seq<Tree>, rules: seq<Tree>)
    requires Piece(d, h, g, TGrammar(rules))
    ensures h > 0 && forall k: nat | k < |rules| :: Piece(d, h - 1, rules, rules[k]) && Home(d, h - 1, rules, rules[k])
  {
    SubGrammar(d, h, g, rules);
  }

  // ----- the checks

  lemma NullableSame(d: nat, e: nat, h: nat, g: seq<Tree>, t: Tree)
    requires Piece(d, h, g, t) && Home(d, h, g, t) && d > Depth(h, 0) && e > Depth(h, 0)
    ensures Nullable(e, g, t) == Nullable(d, g, t)
  {
    hide Piece, Home;
    AuxDepth(d, d, h, g, t);
    AuxDepth(d, e, h, g, t);
    AuxSame(d, e, g, t, PENullable);
  }

  lemma {:induction false} KeptDepth(d: nat, e: nat, h: nat, g: seq<Tree>, t: Tree, npassed: nat, nb: bool)
    requires npassed <= MAXRULES && Piece(d, h, g, t) && Whole(d, h, g) && d >= Enough(h) && e >= Enough(h)
    ensures VerifyKept(e, g, t, npassed, nb) == VerifyKept(d, g, t, npassed, nb)
    decreases MAXRULES - npassed, t
  {
    match t
    case TNot(p) => PieceOfOne(d, h, g, t, p); KeptDepth(d, e, h, g, p, npassed, true);
    case TAnd(p) => PieceOfOne(d, h, g, t, p); KeptDepth(d, e, h, g, p, npassed, true);
    case TRep(p) => PieceOfOne(d, h, g, t, p); KeptDepth(d, e, h, g, p, npassed, true);
    case TBehind(n, p) => PieceOfOne(d, h, g, t, p); KeptDepth(d, e, h, g, p, npassed, true);
    case TSeq(p1, p2) =>
      PiecesOfPair(d, h, g, t, p1, p2);
      KeptDepth(d, e, h, g, p1, npassed, false);
      KeptDepth(d, e, h, g, p2, npassed, nb);
    case TChoice(p1, p2) =>
      PiecesOfPair(d, h, g, t, p1, p2);
      KeptDepth(d, e, h, g, p1, npassed, nb);
      KeptDepth(d, e, h, g, p2, npassed, true);
      KeptDepth(d, e, h, g, p2, npassed, false);
    case TCall(k) =>
      CalledPiece(d, h, g, k);
      if npassed < MAXRULES { KeptDepth(d, e, h, g, g[k], npassed + 1, nb); }
    case TGrammar(_) => EnoughIs(h); NullableSame(d, e, h, g, t);
    case _ =>
  }

  lemma {:induction false} LoopsDepth(d: nat, e: nat, h: nat, g: seq<Tree>, t: Tree)
    requires Piece(d, h, g, t) && Home(d, h, g, t) && d >= Enough(h) && e >= Enough(h)
    ensures Checkloops(e, g, t) == Checkloops(d, g, t)
    decreases t
  {
    hide Piece, Home;
    match t
    case TRep(p) => HomeOfOne(d, h, g, t, p); EnoughIs(h); NullableSame(d, e, h, g, p); LoopsDepth(d, e, h, g, p);
    case TNot(p) => HomeOfOne(d, h, g, t, p); LoopsDepth(d, e, h, g, p);
    case TAnd(p) => HomeOfOne(d, h, g, t, p); LoopsDepth(d, e, h, g, p);
    case TBehind(_, p) => HomeOfOne(d, h, g, t, p); LoopsDepth(d, e, h, g, p);
    case TSeq(p1, p2) => HomesOfPair(d, h, g, t, p1, p2); LoopsDepth(d, e, h, g, p1); LoopsDepth(d, e, h, g, p2);
    case TChoice(p1, p2) => HomesOfPair(d, h, g, t, p1, p2); LoopsDepth(d, e, h, g, p1); LoopsDepth(d, e, h, g, p2);
    case _ =>
  }

  lemma {:induction false} TreeOkDepth(d: nat, e: nat, h: nat, t: Tree)
    requires TreeOk(d, t) && Bounded(t) && Nested(h, t) && d >= LengthDepth(h) && e >= LengthDepth(h)
    ensures TreeOk(e, t)
    decreases t
  {
    match t
    case TRep(p) => TreeOkDepth(d, e, h, p);
    case TNot(p) => TreeOkDepth(d, e, h, p);
    case TAnd(p) => TreeOkDepth(d, e, h, p);
    case TBehind(_, p) => TreeOkDepth(d, e, h, p); LengthSettled(h, [], p, d, e);
    case TSeq(p1, p2) => TreeOkDepth(d, e, h, p1); TreeOkDepth(d, e, h, p2);
    case TChoice(p1, p2) => TreeOkDepth(d, e, h, p1); TreeOkDepth(d, e, h, p2);
    case TGrammar(rules) =>
      forall k | 0 <= k < |rules| ensures TreeOk(e, rules[k]) { TreeOkDepth(d, e, h - 1, rules[k]); }
    case _ =>
  }

  lemma {:induction false} FineDepth(d: nat, e: nat, h: nat, t: Tree)
    requires Fine(d, t) && Nested(h, t) && d >= Enough(h) && e >= Enough(h)
    ensures Fine(e, t)
    decreases t
  {
    match t
    case TRep(p) => FineDepth(d, e, h, p);
    case TNot(p) => FineDepth(d, e, h, p);
    case TAnd(p) => FineDepth(d, e, h, p);
    case TBehind(_, p) => FineDepth(d, e, h, p);
    case TSeq(p1, p2) => FineDepth(d, e, h, p1); FineDepth(d, e, h, p2);
    case TChoice(p1, p2) => FineDepth(d, e, h, p1); FineDepth(d, e, h, p2);
    case TGrammar(rules) =>
      EnoughIs(h);
      assert Piece(d, h, [], t);
      SubGrammar(d, h, [], rules);
      forall k: nat | k < |rules| ensures Fine(e, rules[k]) { FineDepth(d, e, h - 1, rules[k]); }
      forall k: nat | k < |rules| && Used(rules, k)
        ensures VerifyKept(e, rules, rules[k], 0, false) != Error && !Checkloops(e, rules, rules[k])
      {
        KeptDepth(d, e, h - 1, rules, rules[k], 0, false);
        LoopsDepth(d, e, h - 1, rules, rules[k]);
      }
    case _ =>
  }

  /** For sub-grammars nested h deep every depth from 'Enough' on accepts the same patterns and gives the same
      program: those of the unbounded recursion in the code. */
  lemma DepthIrrelevant(d: nat, e: nat, h: nat, t: Tree)
    requires M.Accepted(d, t) && Nested(h, t) && d >= Enough(h) && e >= Enough(h)
    ensures M.Accepted(e, t) && M.Compiled(e, t) == M.Compiled(d, t)
  {
    hide Gen, Piece;
    EnoughIs(h);
    TopPiece(d, h, t);
    FineBounded(d, t);
    LoopsDepth(d, e, h, [], t);
    TreeOkDepth(d, e, h, t);
    FineDepth(d, e, h, t);
    CodeDepth(d, if d <= e then d else e, h, [], t);
    if d <= e { ProgramSettles(d, e, h, t); } else { ProgramSettles(e, d, h, t); }
  }

  lemma TopPiece(d: nat, h: nat, t: Tree)
    requires M.Accepted(d, t) && Nested(h, t)
    ensures Piece(d, h, [], t)
  {
  }
}
