// The analyses of the code recurse through rule calls without a bound. Whether their recursion ends, call by call
// as the code makes them; once it does, the answers no longer depend on the bound that they have here.
module LpegEnds {
  import opened LpegCharset
  import opened LpegTree
  import opened LpegAnalysis
  import opened LpegGrammar

  /** The recursion of 'checkaux' goes through at most d calls. */
  predicate AuxEnds(d: nat, g: seq<Tree>, t: Tree, pred: Pred)
    decreases d, t
  {
    match t
    case TAnd(p) => pred.PENullable? || AuxEnds(d, g, p, pred)
    case TSeq(p1, p2) => AuxEnds(d, g, p1, pred) && (Checkaux(d, g, p1, pred) ==> AuxEnds(d, g, p2, pred))
    case TChoice(p1, p2) => AuxEnds(d, g, p2, pred) && (!Checkaux(d, g, p2, pred) ==> AuxEnds(d, g, p1, pred))
    case TGrammar(rules) => rules != [] && AuxEnds(d, rules, rules[0], pred)
    case TCall(k) => k < |g| && d > 0 && AuxEnds(d - 1, g, g[k], pred)
    case _ => true
  }

  /** The same for 'getfirst', which also goes into the bodies of predicates and look-behinds. */
  predicate FirstEnds(d: nat, g: seq<Tree>, t: Tree)
    decreases d, t
  {
    match t
    case TChoice(p1, p2) => FirstEnds(d, g, p1) && FirstEnds(d, g, p2)
    case TSeq(p1, p2) => AuxEnds(d, g, p1, PENullable) && FirstEnds(d, g, p1) && (Nullable(d, g, p1) ==> FirstEnds(d, g, p2))
    case TRep(p) => FirstEnds(d, g, p)
    case TAnd(p) => FirstEnds(d, g, p)
    case TNot(p) => IsCharPattern(p) || FirstEnds(d, g, p)
    case TBehind(_, p) => FirstEnds(d, g, p)
    case TGrammar(rules) => rules != [] && FirstEnds(d, rules, rules[0])
    case TCall(k) => k < |g| && d > 0 && FirstEnds(d - 1, g, g[k])
    case _ => true
  }

  /** The same for 'headfail'. */
  predicate HeadEnds(d: nat, g: seq<Tree>, t: Tree)
    decreases d, t
  {
    match t
    case TChoice(p1, p2) => HeadEnds(d, g, p1) && (Headfail(d, g, p1) ==> HeadEnds(d, g, p2))
    case TSeq(p1, p2) => AuxEnds(d, g, p2, PENofail) && (Nofail(d, g, p2) ==> HeadEnds(d, g, p1))
    case TAnd(p) => HeadEnds(d, g, p)
    case TGrammar(rules) => rules != [] && HeadEnds(d, rules, rules[0])
    case TCall(k) => k < |g| && d > 0 && HeadEnds(d - 1, g, g[k])
    case _ => true
  }

  // ----- once they end

  lemma {:induction false} AuxSettles(d: nat, e: nat, g: seq<Tree>, t: Tree, pred: Pred)
    requires AuxEnds(d, g, t, pred) && d <= e
    ensures AuxEnds(e, g, t, pred) && Checkaux(e, g, t, pred) == Checkaux(d, g, t, pred)
    decreases d, t
  {
    match t
    case TAnd(p) => if pred.PENofail? { AuxSettles(d, e, g, p, pred); }
    case TSeq(p1, p2) => AuxSettles(d, e, g, p1, pred); if Checkaux(d, g, p1, pred) { AuxSettles(d, e, g, p2, pred); }
    case TChoice(p1, p2) => AuxSettles(d, e, g, p2, pred); if !Checkaux(d, g, p2, pred) { AuxSettles(d, e, g, p1, pred); }
    case TGrammar(rules) => AuxSettles(d, e, rules, rules[0], pred);
    case TCall(k) => AuxSettles(d - 1, e - 1, g, g[k], pred);
    case _ =>
  }

  lemma {:induction false} FirstSettles(d: nat, e: nat, g: seq<Tree>, t: Tree, fl: Charset)
    requires FirstEnds(d, g, t) && d <= e
    ensures FirstEnds(e, g, t) && Getfirst(e, g, t, fl) == Getfirst(d, g, t, fl)
    decreases d, t
  {
    match t
    case TChoice(p1, p2) => FirstSettles(d, e, g, p1, fl); FirstSettles(d, e, g, p2, fl);
    case TSeq(p1, p2) =>
      AuxSettles(d, e, g, p1, PENullable);
      FirstSettles(d, e, g, p1, FullSet());
      if Nullable(d, g, p1) {
        FirstSettles(d, e, g, p2, fl);
        FirstSettles(d, e, g, p1, Getfirst(d, g, p2, fl).cs);
      }
    case TRep(p) => FirstSettles(d, e, g, p, fl);
    case TAnd(p) => FirstSettles(d, e, g, p, fl);
    case TNot(p) => if !IsCharPattern(p) { FirstSettles(d, e, g, p, fl); }
    case TBehind(_, p) => FirstSettles(d, e, g, p, fl);
    case TGrammar(rules) => FirstSettles(d, e, rules, rules[0], fl);
    case TCall(k) => FirstSettles(d - 1, e - 1, g, g[k], fl);
    case _ =>
  }

  lemma {:induction false} HeadSettles(d: nat, e: nat, g: seq<Tree>, t: Tree)
    requires HeadEnds(d, g, t) && d <= e
    ensures HeadEnds(e, g, t) && Headfail(e, g, t) == Headfail(d, g, t)
    decreases d, t
  {
    match t
    case TChoice(p1, p2) => HeadSettles(d, e, g, p1); if Headfail(d, g, p1) { HeadSettles(d, e, g, p2); }
    case TSeq(p1, p2) => AuxSettles(d, e, g, p2, PENofail); if Nofail(d, g, p2) { HeadSettles(d, e, g, p1); }
    case TAnd(p) => HeadSettles(d, e, g, p);
    case TGrammar(rules) => HeadSettles(d, e, rules, rules[0]);
    case TCall(k) => HeadSettles(d - 1, e - 1, g, g[k]);
    case _ =>
  }

  lemma AuxSame(d: nat, e: nat, g: seq<Tree>, t: Tree, pred: Pred)
    requires AuxEnds(d, g, t, pred) && AuxEnds(e, g, t, pred)
    ensures Checkaux(e, g, t, pred) == Checkaux(d, g, t, pred)
  {
    if d <= e { AuxSettles(d, e, g, t, pred); } else { AuxSettles(e, d, g, t, pred); }
  }

  // ----- the code generator

  /** The recursion of every analysis that 'codegen' asks for goes through at most d calls. */
  predicate CodeEnds(d: nat, g: seq<Tree>, t: Tree)
    decreases t
  {
    match t
    case TChoice(p1, p2) =>
      && FirstEnds(d, g, p1) && HeadEnds(d, g, p1)
      && (Headfail(d, g, p1) || Getfirst(d, g, p1, FullSet()).e || FirstEnds(d, g, p2))
      && CodeEnds(d, g, p1) && CodeEnds(d, g, p2)
    case TRep(p) => IsCharPattern(p) || (FirstEnds(d, g, p) && HeadEnds(d, g, p) && CodeEnds(d, g, p))
    case TNot(p) => FirstEnds(d, g, p) && HeadEnds(d, g, p) && (Headfail(d, g, p) || CodeEnds(d, g, p))
    case TAnd(p) => CodeEnds(d, g, p)
    case TBehind(_, p) => CodeEnds(d, g, p)
    case TSeq(p1, p2) => (Needfollow(p1) ==> FirstEnds(d, g, p2)) && CodeEnds(d, g, p1) && CodeEnds(d, g, p2)
    case TGrammar(rules) => forall k: nat | k < |rules| :: CodeEnds(d, rules, rules[k])
    case _ => true
  }

  // ----- accepted rules for which they do not

  /** For these two rules, which the code accepts although they are left recursive, 'getfirst' and with it the code
      generator do not end: no bound on the calls is enough. */
  lemma NeverEnds(d: nat)
    ensures !CodeEnds(d, [], TGrammar([LOST_FLAG])) && !CodeEnds(d, [], TGrammar([CALL_BEHIND]))
  {
    LostFlagGoesOn(d);
    BehindGoesOn(d);
    assert !CodeEnds(d, [LOST_FLAG], LOST_FLAG);
    assert !CodeEnds(d, [CALL_BEHIND], TNot(TCall(0)));
    assert [LOST_FLAG][0] == LOST_FLAG && [CALL_BEHIND][0] == CALL_BEHIND;
  }

  lemma {:induction false} LostFlagGoesOn(d: nat)
    ensures !FirstEnds(d, [LOST_FLAG], TCall(0))
  {
    if d > 0 {
      LostFlagGoesOn(d - 1);
      assert !FirstEnds(d - 1, [LOST_FLAG], LOST_FLAG);
    }
  }

  lemma {:induction false} BehindGoesOn(d: nat)
    ensures !FirstEnds(d, [CALL_BEHIND], TCall(0))
  {
    if d > 0 {
      BehindGoesOn(d - 1);
      assert !FirstEnds(d - 1, [CALL_BEHIND], TNot(TCall(0)));
    }
  }
}
