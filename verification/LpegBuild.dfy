// The operators that build patterns, and the simplifications they make: each keeps the meaning that the
// operator stands for.
module LpegBuild {
  import opened LpegCharset
  import opened LpegTree
  import opened LpegAnalysis

  /** Two patterns with the same result in every grammar, at every call depth, everywhere. */
  ghost predicate Same(t: Tree, u: Tree) {
    forall f: nat, g: seq<Tree>, s: Subject, i: nat | i <= |s| :: Peg(f, g, t, s, i) == Peg(f, g, u, s, i)
  }

  /** 'lp_seq' */
  function Seq(t1: Tree, t2: Tree): (t: Tree)
    ensures Same(t, TSeq(t1, t2))
  {
    if t1 == TFalse || t2 == TTrue then t1
    else if t1 == TTrue then t2
    else TSeq(t1, t2)
  }

  /** 'lp_choice'. Its 'nofail' test looks through calls of the pattern's own grammars only. */
  function Choice(d: nat, t1: Tree, t2: Tree): (t: Tree)
  {
    if IsCharPattern(t1) && IsCharPattern(t2) then TSet(Union(ToCharset(t1), ToCharset(t2)))
    else if Nofail(d, [], t1) || t2 == TFalse then t1
    else if t1 == TFalse then t2
    else TChoice(t1, t2)
  }

  lemma CharPattern(f: nat, g: seq<Tree>, t: Tree, s: Subject, i: nat)
    requires IsCharPattern(t) && i <= |s|
    ensures Peg(f, g, t, s, i) == if i < |s| && Has(ToCharset(t), s[i]) then Ok(i + 1) else Fail
  {
  }

  // An open call never counts as 'nofail' here, so that the grammar around does not matter.
  lemma {:induction false} NofailAnywhere(d: nat, g: seq<Tree>, t: Tree)
    requires Nofail(d, [], t)
    ensures Nofail(d, g, t)
  {
    match t
    case TSeq(p1, p2) => NofailAnywhere(d, g, p1); NofailAnywhere(d, g, p2);
    case TChoice(p1, p2) => if Nofail(d, [], p1) { NofailAnywhere(d, g, p1); } else { NofailAnywhere(d, g, p2); }
    case TAnd(p) => NofailAnywhere(d, g, p);
    case _ =>
  }

  lemma ChoiceKeeps(d: nat, t1: Tree, t2: Tree)
    ensures Same(Choice(d, t1, t2), TChoice(t1, t2))
  {
    forall f: nat, g: seq<Tree>, s: Subject, i: nat | i <= |s|
      ensures Peg(f, g, Choice(d, t1, t2), s, i) == Peg(f, g, TChoice(t1, t2), s, i)
    {
      if IsCharPattern(t1) && IsCharPattern(t2) {
        CharPattern(f, g, t1, s, i);
        CharPattern(f, g, t2, s, i);
      } else if Nofail(d, [], t1) {
        NofailAnywhere(d, g, t1);
        NofailSound(d, f, g, t1, s, i);
      }
    }
  }

  /** 'lp_sub': t1 where t2 does not match. */
  function Sub(t1: Tree, t2: Tree): (t: Tree) {
    if IsCharPattern(t1) && IsCharPattern(t2) then TSet(Intersect(ToCharset(t1), Complement(ToCharset(t2))))
    else TSeq(TNot(t2), t1)
  }

  lemma SubKeeps(t1: Tree, t2: Tree)
    ensures Same(Sub(t1, t2), TSeq(TNot(t2), t1))
  {
    forall f: nat, g: seq<Tree>, s: Subject, i: nat | i <= |s|
      ensures Peg(f, g, Sub(t1, t2), s, i) == Peg(f, g, TSeq(TNot(t2), t1), s, i)
    {
      if IsCharPattern(t1) && IsCharPattern(t2) {
        CharPattern(f, g, t1, s, i);
        CharPattern(f, g, t2, s, i);
      }
    }
  }

  // ----- repetition

  /** 'nullable' of a pattern whose calls are still open: an open call is taken as not nullable, to be checked
      again when the grammar is complete. */
  predicate OpenNullable(d: nat, t: Tree) {
    match t
    case TCall(_) => false
    case TSeq(p1, p2) => OpenNullable(d, p1) && OpenNullable(d, p2)
    case TChoice(p1, p2) => OpenNullable(d, p2) || OpenNullable(d, p1)
    case _ => Nullable(d, [], t)
  }

  /** 'lp_star' with n >= 0: an error for a body that accepts the empty string. */
  method AtLeast(d: nat, p: Tree, n: nat) returns (error: bool, tree: Tree)
    ensures error == OpenNullable(d, p)
    ensures !error ==> tree == Times(p, n, TRep(p))
  {
    error, tree := OpenNullable(d, p), TRep(p);
    if error {
      return;
    }
    var left := n;
    while left > 0
      invariant 0 <= left <= n && tree == Times(p, n - left, TRep(p))
    {
      assert Times(p, n - left + 1, TRep(p)) == TSeq(p, tree);
      tree := TSeq(p, tree);
      left := left - 1;
    }
    assert n - left == n;
  }

  /** n copies of p, then t. */
  function Times(p: Tree, n: nat, t: Tree): Tree {
    if n == 0 then t else TSeq(p, Times(p, n - 1, t))
  }

  /** 'lp_star' with a negative exponent -n: up to n copies, as many as possible. */
  function AtMost(p: Tree, n: nat): Tree
    requires n > 0
  {
    if n == 1 then TChoice(p, TTrue) else TChoice(TSeq(p, AtMost(p, n - 1)), TTrue)
  }

  /** Match p again and again, at most 'limit' times, and stop at the first failure: how often it matched and
      where that ended. A match of the empty string gives no result, as in an endless repetition. */
  function Greedy(f: nat, g: seq<Tree>, p: Tree, s: Subject, i: nat, limit: nat): (r: (nat, Result))
    requires i <= |s|
    ensures r.1 != Fail && (r.1.Ok? ==> r.1.end <= |s|)
    decreases limit
  {
    if limit == 0 then (0, Ok(i)) else
    match Peg(f, g, p, s, i)
    case Out => (0, Out)
    case Fail => (0, Ok(i))
    case Ok(j) => var r := Greedy(f, g, p, s, j, limit - 1); (r.0 + 1, r.1)
  }

  /** p^-n is the greedy match of at most n copies. */
  lemma {:induction false} AtMostIsGreedy(f: nat, g: seq<Tree>, p: Tree, n: nat, s: Subject, i: nat)
    requires i <= |s| && n > 0
    ensures Peg(f, g, AtMost(p, n), s, i) == Greedy(f, g, p, s, i, n).1
  {
    match Peg(f, g, p, s, i)
    case Ok(j) =>
      if n > 1 {
        AtMostIsGreedy(f, g, p, n - 1, s, j);
        assert Peg(f, g, AtMost(p, n), s, i) == Peg(f, g, TSeq(p, AtMost(p, n - 1)), s, i);
      } else {
        assert Greedy(f, g, p, s, j, 0) == (0, Ok(j));
      }
    case _ =>
      assert AtMost(p, n).TChoice? && Peg(f, g, AtMost(p, n).p1, s, i) == Peg(f, g, p, s, i);
  }

  /** p^n for a body that is not nullable is the greedy match without a limit, the length of the subject being
      none, when that has n copies at least; with fewer it fails. */
  lemma {:induction false} AtLeastIsGreedy(d: nat, f: nat, g: seq<Tree>, p: Tree, n: nat, s: Subject, i: nat)
    requires i <= |s| && !Nullable(d, g, p)
    ensures var r := Greedy(f, g, p, s, i, |s| - i + 1);
            Peg(f, g, Times(p, n, TRep(p)), s, i) == if r.1.Ok? && r.0 < n then Fail else r.1
    decreases |s| - i, n
  {
    hide Peg, Times, Nullable;
    NullableSound(d, f, g, p, s, i);
    TimesStep(f, g, p, n, s, i);
    match Peg(f, g, p, s, i)
    case Ok(j) =>
      AtLeastIsGreedy(d, f, g, p, if n > 0 then n - 1 else 0, s, j);
      AtLeastIsGreedy(d, f, g, p, 0, s, j);
      GreedyEnough(d, f, g, p, s, j, |s| - i);
    case _ =>
  }

  // A limit beyond the rest of the subject is no limit.
  // One round of at least n copies; the body has consumed something, or no copy is left to be required.
  lemma TimesStep(f: nat, g: seq<Tree>, p: Tree, n: nat, s: Subject, i: nat)
    requires i <= |s|
    ensures var more := Times(p, if n > 0 then n - 1 else 0, TRep(p));
      match Peg(f, g, p, s, i)
      case Out => Peg(f, g, Times(p, n, TRep(p)), s, i) == Out
      case Fail => Peg(f, g, Times(p, n, TRep(p)), s, i) == if n > 0 then Fail else Ok(i)
      case Ok(j) => n > 0 || j > i ==> Peg(f, g, Times(p, n, TRep(p)), s, i) == Peg(f, g, more, s, j)
  {
  }

  lemma {:induction false} GreedyEnough(d: nat, f: nat, g: seq<Tree>, p: Tree, s: Subject, i: nat, limit: nat)
    requires i <= |s| && !Nullable(d, g, p) && limit > |s| - i
    ensures Greedy(f, g, p, s, i, limit) == Greedy(f, g, p, s, i, |s| - i + 1)
    decreases |s| - i
  {
    NullableSound(d, f, g, p, s, i);
    match Peg(f, g, p, s, i)
    case Ok(j) =>
      GreedyEnough(d, f, g, p, s, j, limit - 1);
      GreedyEnough(d, f, g, p, s, j, |s| - i);
    case _ =>
  }

  // ----- associativity

  predicate SameTag(t: Tree, u: Tree) {
    (t.TSeq? && u.TSeq?) || (t.TChoice? && u.TChoice?)
  }

  function Left(t: Tree): Tree
    requires t.TSeq? || t.TChoice?
  {
    t.p1
  }

  function Join(t: Tree, p1: Tree, p2: Tree): Tree
    requires t.TSeq? || t.TChoice?
  {
    if t.TSeq? then TSeq(p1, p2) else TChoice(p1, p2)
  }

  /** 'correctassociativity': turn the constructions at the root to the right, without a change of meaning. */
  method CorrectAssociativity(t: Tree) returns (tree: Tree)
    requires t.TSeq? || t.TChoice?
    ensures SameTag(tree, t) && !SameTag(Left(tree), tree) && Same(tree, t)
  {
    tree := t;
    while SameTag(Left(tree), tree)
      invariant SameTag(tree, t) && Same(tree, t)
      decreases Left(tree)
    {
      var t1 := tree.p1;
      ghost var before := tree;
      tree := Join(t, t1.p1, Join(t, t1.p2, tree.p2));
      RotateKeeps(before, tree);
    }
  }

  lemma RotateKeeps(t: Tree, u: Tree)
    requires (t.TSeq? || t.TChoice?) && SameTag(t.p1, t)
    requires u == Join(t, t.p1.p1, Join(t, t.p1.p2, t.p2))
    ensures Same(u, t)
  {
    forall f: nat, g: seq<Tree>, s: Subject, i: nat | i <= |s| ensures Peg(f, g, u, s, i) == Peg(f, g, t, s, i) {
      if t.TSeq? {
        assert Peg(f, g, t.p1, s, i) == Peg(f, g, TSeq(t.p1.p1, t.p1.p2), s, i);
      } else {
        assert Peg(f, g, t.p1, s, i) == Peg(f, g, TChoice(t.p1.p1, t.p1.p2), s, i);
      }
    }
  }
}
