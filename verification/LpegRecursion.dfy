// What the checks for left recursion reject: exactly the grammars with a circle of rules, each of which can call the
// next before anything is consumed. The code rejects no others; it misses some.
module LpegRecursion {
  import opened Sets
  import opened LpegTree
  import opened LpegAnalysis
  import opened LpegGrammar
  import opened LpegDepth

  /** Can t call rule k with nothing consumed before, as far as 'nullable' tells? */
  predicate LeftCalls(d: nat, g: seq<Tree>, t: Tree, k: nat) {
    match t
    case TCall(r) => r == k
    case TRep(p) => LeftCalls(d, g, p, k)
    case TNot(p) => LeftCalls(d, g, p, k)
    case TAnd(p) => LeftCalls(d, g, p, k)
    case TBehind(n, p) => n == 0 && LeftCalls(d, g, p, k)
    case TSeq(p1, p2) => LeftCalls(d, g, p1, k) || (Nullable(d, g, p1) && LeftCalls(d, g, p2, k))
    case TChoice(p1, p2) => LeftCalls(d, g, p1, k) || LeftCalls(d, g, p2, k)
    case _ => false
  }

  /** Rules each of which can call the next one so. */
  predicate Chain(d: nat, g: seq<Tree>, path: seq<nat>) {
    && (forall i | 0 <= i < |path| :: path[i] < |g|)
    && (forall i | 0 <= i < |path| - 1 :: LeftCalls(d, g, g[path[i]], path[i + 1]))
  }

  predicate Circle(d: nat, g: seq<Tree>, path: seq<nat>) {
    |path| >= 2 && path[0] == path[|path| - 1] && Chain(d, g, path)
  }

  ghost predicate LeftRecursive(d: nat, g: seq<Tree>) {
    exists path: seq<nat> :: Circle(d, g, path) && Used(g, path[0])
  }

  /** 'newgrammar' has found every rule that is called. */
  ghost predicate CallsKnown(g: seq<Tree>) {
    forall r: nat, k: nat | r < |g| && CallsRule(g[r], k) :: k < |g|
  }

  // ----- a rejected rule leads into a circle

  lemma {:induction false} NullableMonotone(d: nat, e: nat, g: seq<Tree>, t: Tree)
    requires d <= e && Nullable(e, g, t)
    ensures Nullable(d, g, t)
    decreases d, t
  {
    match t
    case TSeq(p1, p2) => NullableMonotone(d, e, g, p1); NullableMonotone(d, e, g, p2);
    case TChoice(p1, p2) => if Nullable(e, g, p1) { NullableMonotone(d, e, g, p1); } else { NullableMonotone(d, e, g, p2); }
    case TGrammar(rules) => if rules != [] { NullableMonotone(d, e, rules, rules[0]); }
    case TCall(k) => if d > 0 && k < |g| { NullableMonotone(d - 1, e - 1, g, g[k]); }
    case _ =>
  }

  lemma {:induction false} KeptFlag(d: nat, g: seq<Tree>, t: Tree, npassed: nat)
    requires npassed <= MAXRULES && VerifyKept(d, g, t, npassed, false) == Nb(true)
    ensures Nullable(d, g, t)
    decreases MAXRULES - npassed, t
  {
    match t
    case TSeq(p1, p2) => KeptFlag(d, g, p1, npassed); KeptFlag(d, g, p2, npassed);
    case TChoice(p1, p2) =>
      if VerifyKept(d, g, p1, npassed, false) == Nb(true) { KeptFlag(d, g, p1, npassed); } else { KeptFlag(d, g, p2, npassed); }
    case TCall(k) =>
      KeptFlag(d, g, g[k], npassed + 1);
      if d > 0 { NullableMonotone(d - 1, d, g, g[k]); }
    case _ =>
  }

  lemma {:induction false} LeftCallCalls(d: nat, g: seq<Tree>, t: Tree, k: nat)
    requires LeftCalls(d, g, t, k)
    ensures CallsRule(t, k)
  {
    match t
    case TRep(p) => LeftCallCalls(d, g, p, k);
    case TNot(p) => LeftCallCalls(d, g, p, k);
    case TAnd(p) => LeftCallCalls(d, g, p, k);
    case TBehind(_, p) => LeftCallCalls(d, g, p, k);
    case TSeq(p1, p2) => if LeftCalls(d, g, p1, k) { LeftCallCalls(d, g, p1, k); } else { LeftCallCalls(d, g, p2, k); }
    case TChoice(p1, p2) => if LeftCalls(d, g, p1, k) { LeftCallCalls(d, g, p1, k); } else { LeftCallCalls(d, g, p2, k); }
    case _ =>
  }

  /** The check gives up only behind more calls than there can be rules. */
  lemma {:induction false} KeptPath(d: nat, g: seq<Tree>, t: Tree, npassed: nat, nb: bool) returns (path: seq<nat>)
    requires npassed <= MAXRULES && VerifyKept(d, g, t, npassed, nb) == Error
    requires CallsKnown(g) && forall k: nat | CallsRule(t, k) :: k < |g|
    ensures |path| == MAXRULES - npassed + 1 && LeftCalls(d, g, t, path[0]) && Chain(d, g, path)
    decreases MAXRULES - npassed, t
  {
    match t
    case TNot(p) => assert forall k: nat :: CallsRule(p, k) ==> CallsRule(t, k); path := KeptPath(d, g, p, npassed, true);
    case TAnd(p) => assert forall k: nat :: CallsRule(p, k) ==> CallsRule(t, k); path := KeptPath(d, g, p, npassed, true);
    case TRep(p) => assert forall k: nat :: CallsRule(p, k) ==> CallsRule(t, k); path := KeptPath(d, g, p, npassed, true);
    case TBehind(n, p) => assert forall k: nat :: CallsRule(p, k) ==> CallsRule(t, k); path := KeptPath(d, g, p, npassed, true);
    case TSeq(p1, p2) =>
      assert forall k: nat :: CallsRule(p1, k) || CallsRule(p2, k) ==> CallsRule(t, k);
      if VerifyKept(d, g, p1, npassed, false) == Error {
        path := KeptPath(d, g, p1, npassed, false);
      } else {
        KeptFlag(d, g, p1, npassed);
        path := KeptPath(d, g, p2, npassed, nb);
      }
    case TChoice(p1, p2) =>
      assert forall k: nat :: CallsRule(p1, k) || CallsRule(p2, k) ==> CallsRule(t, k);
      if VerifyKept(d, g, p1, npassed, nb) == Error {
        path := KeptPath(d, g, p1, npassed, nb);
      } else {
        path := KeptPath(d, g, p2, npassed, VerifyKept(d, g, p1, npassed, nb).nb);
      }
    case TCall(k) =>
      assert CallsRule(t, k);
      path := [];
      if npassed < MAXRULES { path := KeptPath(d, g, g[k], npassed + 1, nb); }
      path := [k] + path;
  }

  function Elements(path: seq<nat>): set<nat> {
    set x | x in path
  }

  lemma {:induction false} SizeOf(path: seq<nat>)
    requires forall i, j | 0 <= i < j < |path| :: path[i] != path[j]
    ensures |Elements(path)| == |path|
  {
    if path == [] {
      assert Elements(path) == {};
    } else {
      var n := |path| - 1;
      SizeOf(path[..n]);
      assert path == path[..n] + [path[n]] && path[n] !in path[..n];
      assert Elements(path) == Elements(path[..n]) + {path[n]};
    }
  }

  lemma AllDifferent(path: seq<nat>, n: nat)
    requires forall i | 0 <= i < |path| :: path[i] < n
    requires forall i, j | 0 <= i < j < |path| :: path[i] != path[j]
    ensures |path| <= n
  {
    SizeOf(path);
    SubsetSize(Elements(path), Upto(n));
  }

  /** So the path goes through some rule twice. */
  lemma PathCircles(d: nat, g: seq<Tree>, k: nat, path: seq<nat>)
    requires k < |g| <= MAXRULES && |path| > MAXRULES && LeftCalls(d, g, g[k], path[0]) && Chain(d, g, path)
    ensures LeftRecursive(d, g)
  {
    if forall i, j | 0 <= i < j < |path| :: path[i] != path[j] { AllDifferent(path, |g|); }
    var i, j :| 0 <= i < j < |path| && path[i] == path[j];
    var round := path[i..j + 1];
    forall m | 0 <= m < |round| - 1 ensures LeftCalls(d, g, g[round[m]], round[m + 1]) {
      assert round[m] == path[i + m] && round[m + 1] == path[i + m + 1];
    }
    var before := if i == 0 then k else path[i - 1];
    LeftCallCalls(d, g, g[before], path[i]);
    assert Circle(d, g, round) && Used(g, round[0]);
  }

  /** The code rejects a rule for left recursion only if there is some. */
  lemma RejectsOnlyRecursion(d: nat, g: seq<Tree>, k: nat)
    requires k < |g| <= MAXRULES && CallsKnown(g) && Verifyrule(d, g, g[k], 0, false) == Error
    ensures LeftRecursive(d, g)
  {
    if VerifyKept(d, g, g[k], 0, false) != Error { KeptFollowsMore(d, g, g[k], 0, false, false); }
    var path := KeptPath(d, g, g[k], 0, false);
    PathCircles(d, g, k, path);
  }

  /** No sub-grammar in a rule, and no call in a look-behind. */
  ghost predicate Simple(t: Tree) {
    match t
    case TGrammar(_) => false
    case TRep(p) => Simple(p)
    case TNot(p) => Simple(p)
    case TAnd(p) => Simple(p)
    case TBehind(_, p) => Simple(p) && CallFree(p)
    case TSeq(p1, p2) => Simple(p1) && Simple(p2)
    case TChoice(p1, p2) => Simple(p1) && Simple(p2)
    case _ => true
  }

  lemma {:induction false} KeptFree(d: nat, g: seq<Tree>, t: Tree, npassed: nat, nb: bool)
    requires npassed <= MAXRULES && Simple(t) && CallFree(t)
    ensures VerifyKept(d, g, t, npassed, nb) != Error && (nb ==> VerifyKept(d, g, t, npassed, nb) == Nb(true))
    decreases t
  {
    match t
    case TRep(p) => CalleesOf(t, p); KeptFree(d, g, p, npassed, true);
    case TNot(p) => CalleesOf(t, p); KeptFree(d, g, p, npassed, true);
    case TAnd(p) => CalleesOf(t, p); KeptFree(d, g, p, npassed, true);
    case TBehind(_, p) => KeptFree(d, g, p, npassed, true);
    case TSeq(p1, p2) =>
      CalleesOf(t, p1);
      CalleesOf(t, p2);
      KeptFree(d, g, p1, npassed, false);
      KeptFree(d, g, p2, npassed, nb);
    case TChoice(p1, p2) =>
      CalleesOf(t, p1);
      CalleesOf(t, p2);
      KeptFree(d, g, p1, npassed, nb);
      KeptFree(d, g, p2, npassed, VerifyKept(d, g, p1, npassed, nb).nb);
    case TCall(k) => assert CallsRule(t, k);
    case _ =>
  }

  lemma CalleesOf(t: Tree, p: Tree)
    requires CallFree(t)
    requires match t
             case TRep(q) => q == p case TNot(q) => q == p case TAnd(q) => q == p
             case TSeq(p1, p2) => p == p1 || p == p2 case TChoice(p1, p2) => p == p1 || p == p2
             case _ => false
    ensures CallFree(p)
  {
    forall k: nat ensures !CallsRule(p, k) { assert !CallsRule(t, k); }
  }

  /** Without sub-grammars, and without calls in look-behinds, the check of the code is the repaired one. */
  lemma {:induction false} CodeAgrees(d: nat, g: seq<Tree>, t: Tree, npassed: nat, nb: bool)
    requires npassed <= MAXRULES && Simple(t) && forall k: nat | k < |g| :: Simple(g[k])
    ensures Verifyrule(d, g, t, npassed, nb) == VerifyKept(d, g, t, npassed, nb)
    decreases MAXRULES - npassed, t
  {
    match t
    case TRep(p) => CodeAgrees(d, g, p, npassed, true);
    case TNot(p) => CodeAgrees(d, g, p, npassed, true);
    case TAnd(p) => CodeAgrees(d, g, p, npassed, true);
    case TBehind(_, p) => KeptFree(d, g, p, npassed, true);
    case TSeq(p1, p2) => CodeAgrees(d, g, p1, npassed, false); CodeAgrees(d, g, p2, npassed, nb);
    case TChoice(p1, p2) =>
      CodeAgrees(d, g, p1, npassed, nb);
      CodeAgrees(d, g, p2, npassed, true);
      CodeAgrees(d, g, p2, npassed, false);
    case TCall(k) => if npassed < MAXRULES && k < |g| { CodeAgrees(d, g, g[k], npassed + 1, nb); }
    case _ =>
  }

  // ----- a circle is rejected by the repaired check

  /** What the check accepts it accepts with each rule that can be called with nothing consumed before. */
  lemma {:induction false} Follows(d: nat, h: nat, g: seq<Tree>, t: Tree, npassed: nat, nb: bool, k: nat) returns (nb': bool)
    requires npassed <= MAXRULES && Piece(d, h, g, t) && Whole(d, h, g) && d >= Depth(h, npassed)
    requires VerifyKept(d, g, t, npassed, nb) != Error && LeftCalls(d, g, t, k)
    ensures npassed < MAXRULES && k < |g| && VerifyKept(d, g, g[k], npassed + 1, nb') != Error
    decreases t
  {
    match t
    case TCall(_) => nb' := nb;
    case TNot(p) => PieceOfOne(d, h, g, t, p); nb' := Follows(d, h, g, p, npassed, true, k);
    case TAnd(p) => PieceOfOne(d, h, g, t, p); nb' := Follows(d, h, g, p, npassed, true, k);
    case TRep(p) => PieceOfOne(d, h, g, t, p); nb' := Follows(d, h, g, p, npassed, true, k);
    case TBehind(_, p) => PieceOfOne(d, h, g, t, p); nb' := Follows(d, h, g, p, npassed, true, k);
    case TSeq(p1, p2) =>
      PiecesOfPair(d, h, g, t, p1, p2);
      VerifyruleExact(d, d, h, g, p1, npassed, false);
      if LeftCalls(d, g, p1, k) {
        nb' := Follows(d, h, g, p1, npassed, false, k);
      } else {
        nb' := Follows(d, h, g, p2, npassed, nb, k);
      }
    case TChoice(p1, p2) =>
      PiecesOfPair(d, h, g, t, p1, p2);
      if LeftCalls(d, g, p1, k) {
        nb' := Follows(d, h, g, p1, npassed, nb, k);
      } else {
        nb' := Follows(d, h, g, p2, npassed, VerifyKept(d, g, p1, npassed, nb).nb, k);
      }
  }

  /** So no chain from an accepted rule is longer than the check goes. */
  lemma {:induction false} ChainsAreShort(d: nat, h: nat, g: seq<Tree>, path: seq<nat>, npassed: nat, nb: bool)
    requires npassed <= MAXRULES && Whole(d, h, g) && d >= Depth(h, 0) && path != [] && Chain(d, g, path)
    requires VerifyKept(d, g, g[path[0]], npassed, nb) != Error
    ensures npassed + |path| <= MAXRULES + 1
    decreases |path|
  {
    if |path| > 1 {
      RulePiece(d, h, g, path[0]);
      var nb' := Follows(d, h, g, g[path[0]], npassed, nb, path[1]);
      ChainFrom(d, g, path);
      ChainsAreShort(d, h, g, path[1..], npassed + 1, nb');
    }
  }

  lemma ChainFrom(d: nat, g: seq<Tree>, path: seq<nat>)
    requires Chain(d, g, path) && path != []
    ensures Chain(d, g, path[1..])
  {
    forall i | 0 <= i < |path[1..]| - 1 ensures LeftCalls(d, g, g[path[1..][i]], path[1..][i + 1]) {
      assert LeftCalls(d, g, g[path[i + 1]], path[i + 2]);
    }
  }

  /** A circle can be gone round any number of times. */
  lemma {:induction false} Rounds(d: nat, g: seq<Tree>, path: seq<nat>, n: nat) returns (long: seq<nat>)
    requires Circle(d, g, path)
    ensures |long| > n && long[0] == path[0] && Chain(d, g, long)
    decreases n
  {
    if n < |path| {
      long := path;
    } else {
      var rest := Rounds(d, g, path, n - 1);
      var m := |path| - 1;
      long := path[..m] + rest;
      forall i | 0 <= i < |long| - 1 ensures LeftCalls(d, g, g[long[i]], long[i + 1]) {
        if i < m {
          assert LeftCalls(d, g, g[path[i]], path[i + 1]);
          assert long[i + 1] == path[i + 1];
        } else {
          assert long[i] == rest[i - m] && long[i + 1] == rest[i - m + 1];
        }
      }
    }
  }

  lemma FineNotRecursive(d: nat, h: nat, g: seq<Tree>)
    requires Whole(d, h, g) && d >= Depth(h, 0)
    ensures !LeftRecursive(d, g)
  {
    if LeftRecursive(d, g) {
      var path: seq<nat> :| Circle(d, g, path) && Used(g, path[0]);
      var long := Rounds(d, g, path, MAXRULES + 1);
      ChainsAreShort(d, h, g, long, 0, false);
    }
  }

  /** All that the repaired check asks of a grammar but for left recursion. */
  ghost predicate FineOtherwise(d: nat, h: nat, g: seq<Tree>) {
    && 0 < |g| <= MAXRULES && CallsKnown(g)
    && (forall k: nat | k < |g| && Used(g, k) :: !Checkloops(d, g, g[k]) && BehindsClosed(g[k]))
    && (forall k: nat | k < |g| :: Fine(d, g[k]) && Nested(h, g[k]))
  }

  /** The repaired check rejects for left recursion exactly the grammars that have it. */
  lemma RejectsExactly(d: nat, h: nat, g: seq<Tree>)
    requires FineOtherwise(d, h, g) && d >= Depth(h, 0)
    ensures RulesFine(d, g) <==> !LeftRecursive(d, g)
  {
    if RulesFine(d, g) {
      FineNotRecursive(d, h, g);
    } else {
      var k: nat :| k < |g| && Used(g, k) && VerifyKept(d, g, g[k], 0, false) == Error;
      var path := KeptPath(d, g, g[k], 0, false);
      PathCircles(d, g, k, path);
    }
  }

  lemma {:induction false} SimpleIsFine(d: nat, t: Tree)
    requires Simple(t)
    ensures Fine(d, t) && Nested(0, t) && BehindsClosed(t)
  {
    match t
    case TRep(p) => SimpleIsFine(d, p);
    case TNot(p) => SimpleIsFine(d, p);
    case TAnd(p) => SimpleIsFine(d, p);
    case TBehind(_, p) => SimpleIsFine(d, p);
    case TSeq(p1, p2) => SimpleIsFine(d, p1); SimpleIsFine(d, p2);
    case TChoice(p1, p2) => SimpleIsFine(d, p1); SimpleIsFine(d, p2);
    case _ =>
  }

  /** So for grammars without sub-grammars and without calls in look-behinds the checks of the code are exact: they
      accept those that have between 1 and 250 rules, call no others, repeat no nullable pattern in a rule that is
      used, and are not left recursive. */
  lemma CodeExact(d: nat, g: seq<Tree>)
    requires (forall k: nat | k < |g| :: Simple(g[k])) && d >= Depth(0, 0)
    ensures Verifygrammar(d, g) <==>
      && 0 < |g| <= MAXRULES && CallsKnown(g)
      && (forall k: nat | k < |g| && Used(g, k) :: !Checkloops(d, g, g[k]))
      && !LeftRecursive(d, g)
  {
    hide Verifyrule, VerifyKept, Checkloops, LeftRecursive, Fine, Nested, BehindsClosed, Used;
    forall k: nat | k < |g| ensures Fine(d, g[k]) && Nested(0, g[k]) && BehindsClosed(g[k]) { SimpleIsFine(d, g[k]); }
    if 0 < |g| <= MAXRULES {
      forall k: nat | k < |g| ensures Verifyrule(d, g, g[k], 0, false) == VerifyKept(d, g, g[k], 0, false) {
        CodeAgrees(d, g, g[k], 0, false);
      }
      if FineOtherwise(d, 0, g) { RejectsExactly(d, 0, g); }
    }
  }
}
