// Where 'nullable' and 'nofail' are exact, and not only safe: without negative predicates and look-behinds both say
// what the pattern does with the empty subject.
module LpegExact {
  import opened LpegTree
  import opened LpegAnalysis
  import opened LpegGrammar
  import opened LpegEnds
  import opened LpegBuild

  /** No negative predicate and no look-behind, also inside sub-grammars; positive predicates only where allowed. */
  predicate Positive(t: Tree, ands: bool) {
    match t
    case TNot(_) => false
    case TBehind(_, _) => false
    case TAnd(p) => ands && Positive(p, ands)
    case TRep(p) => Positive(p, ands)
    case TSeq(p1, p2) => Positive(p1, ands) && Positive(p2, ands)
    case TChoice(p1, p2) => Positive(p1, ands) && Positive(p2, ands)
    case TGrammar(rules) => forall k: nat | k < |rules| :: Positive(rules[k], ands)
    case _ => true
  }

  /** 'nofail' and, without predicates, 'nullable' hold exactly of the patterns that match the empty subject, if
      their recursion ends and the match does. */
  lemma {:induction false} EmptyExact(d: nat, f: nat, g: seq<Tree>, t: Tree, pred: Pred)
    requires Positive(t, pred.PENofail?) && forall k: nat | k < |g| :: Positive(g[k], pred.PENofail?)
    requires AuxEnds(d, g, t, pred) && Peg(f, g, t, [], 0) != Out
    ensures Checkaux(d, g, t, pred) <==> Peg(f, g, t, [], 0) == Ok(0)
    decreases d, t
  {
    match t
    case TAnd(p) => EmptyExact(d, f, g, p, pred);
    case TSeq(p1, p2) =>
      EmptyExact(d, f, g, p1, pred);
      if Checkaux(d, g, p1, pred) { EmptyExact(d, f, g, p2, pred); }
    case TChoice(p1, p2) =>
      if Peg(f, g, p1, [], 0).Fail? { EmptyExact(d, f, g, p2, pred); }
      if !Checkaux(d, g, p2, pred) { EmptyExact(d, f, g, p1, pred); }
    case TGrammar(rules) => EmptyExact(d, f, rules, rules[0], pred);
    case TCall(k) => EmptyExact(d - 1, f - 1, g, g[k], pred);
    case _ =>
  }

  /** Only predicates make a difference between 'nullable' and 'nofail'. */
  lemma {:induction false} SameWithoutPredicates(d: nat, g: seq<Tree>, t: Tree)
    requires Positive(t, false) && (forall k: nat | k < |g| :: Positive(g[k], false)) && AuxEnds(d, g, t, PENullable)
    ensures Nofail(d, g, t) <==> Nullable(d, g, t)
    decreases d, t
  {
    match t
    case TSeq(p1, p2) =>
      SameWithoutPredicates(d, g, p1);
      if Nullable(d, g, p1) { SameWithoutPredicates(d, g, p2); }
    case TChoice(p1, p2) =>
      SameWithoutPredicates(d, g, p2);
      if !Nullable(d, g, p2) { SameWithoutPredicates(d, g, p1); }
    case TGrammar(rules) => SameWithoutPredicates(d, rules, rules[0]);
    case TCall(k) => SameWithoutPredicates(d - 1, g, g[k]);
    case _ =>
  }

  // ----- patterns whose calls are still open

  /** Whatever the grammar around turns out to be, if it has no nullable rule among those called, then the pattern is
      as nullable there as 'lp_star' took it to be; and it is never less so. */
  lemma {:induction false} OpenNullableIs(d: nat, g: seq<Tree>, t: Tree)
    ensures OpenNullable(d, t) ==> Nullable(d, g, t)
    ensures (forall k: nat | CallsRule(t, k) :: !Nullable(d, g, TCall(k))) ==> (OpenNullable(d, t) <==> Nullable(d, g, t))
  {
    match t
    case TSeq(p1, p2) =>
      OpenNullableIs(d, g, p1);
      OpenNullableIs(d, g, p2);
      assert forall k: nat :: CallsRule(p1, k) || CallsRule(p2, k) ==> CallsRule(t, k);
    case TChoice(p1, p2) =>
      OpenNullableIs(d, g, p1);
      OpenNullableIs(d, g, p2);
      assert forall k: nat :: CallsRule(p1, k) || CallsRule(p2, k) ==> CallsRule(t, k);
    case TCall(k) => assert CallsRule(t, k);
    case _ =>
  }

  /** 'lp_star' refuses a body without calls and predicates exactly if it matches the empty subject. */
  lemma RefusesExactly(d: nat, f: nat, t: Tree)
    requires CallFree(t) && Positive(t, false) && AuxEnds(d, [], t, PENullable) && Peg(f, [], t, [], 0) != Out
    ensures OpenNullable(d, t) <==> Peg(f, [], t, [], 0) == Ok(0)
  {
    OpenNullableIs(d, [], t);
    EmptyExact(d, f, [], t, PENullable);
  }

  /** So the error is never raised for want of a better analysis: without it p^n is the greedy repetition, with it
      the body matches the empty string. */
  lemma StarExactly(d: nat, f: nat, p: Tree, n: nat, s: Subject, i: nat)
    requires CallFree(p) && i <= |s|
    ensures OpenNullable(d, p) <==> Nullable(d, [], p)
    ensures !OpenNullable(d, p) ==> var r := Greedy(f, [], p, s, i, |s| - i + 1);
              Peg(f, [], Times(p, n, TRep(p)), s, i) == if r.1.Ok? && r.0 < n then Fail else r.1
  {
    OpenNullableIs(d, [], p);
    if !OpenNullable(d, p) { AtLeastIsGreedy(d, f, [], p, n, s, i); }
  }
}
