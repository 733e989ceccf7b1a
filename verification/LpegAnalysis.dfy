// The pattern analyses that steer code generation, and what each of them promises.
// The source recurses through rule calls without a bound. Here d bounds that recursion and the
// cautious answer is given where it runs out; every promise below holds for every d.
module LpegAnalysis {
  import opened LpegCharset
  import opened LpegTree

  datatype Pred = PENullable | PENofail

  const MAXBEHIND := 255

  /** 'checkaux' */
  predicate Checkaux(d: nat, g: seq<Tree>, t: Tree, pred: Pred)
    decreases d, t
  {
    match t
    case TChar(_) => false
    case TSet(_) => false
    case TAny => false
    case TFalse => false
    case TRep(_) => true
    case TTrue => true
    case TNot(_) => pred.PENullable?
    case TBehind(_, _) => pred.PENullable?
    case TAnd(p) => pred.PENullable? || Checkaux(d, g, p, pred)
    case TSeq(p1, p2) => Checkaux(d, g, p1, pred) && Checkaux(d, g, p2, pred)
    case TChoice(p1, p2) => Checkaux(d, g, p2, pred) || Checkaux(d, g, p1, pred)
    case TGrammar(rules) => if rules == [] then pred.PENullable? else Checkaux(d, rules, rules[0], pred)
    case TCall(k) => if d == 0 || k >= |g| then pred.PENullable? else Checkaux(d - 1, g, g[k], pred)
  }

  predicate Nullable(d: nat, g: seq<Tree>, t: Tree) {
    Checkaux(d, g, t, PENullable)
  }

  predicate Nofail(d: nat, g: seq<Tree>, t: Tree) {
    Checkaux(d, g, t, PENofail)
  }

  /** 'fixedlen': the length of every match, or -1. A rule called again from itself gives -1. */
  function Fixedlen(d: nat, g: seq<Tree>, t: Tree): (n: int)
    ensures n >= -1
    decreases d, t
  {
    match t
    case TChar(_) => 1
    case TSet(_) => 1
    case TAny => 1
    case TFalse => 0
    case TTrue => 0
    case TNot(_) => 0
    case TAnd(_) => 0
    case TBehind(_, _) => 0
    case TRep(_) => -1
    case TGrammar(rules) => if rules == [] then -1 else Fixedlen(d, rules, rules[0])
    case TCall(k) => if d == 0 || k >= |g| then -1 else Fixedlen(d - 1, g, g[k])
    case TSeq(p1, p2) =>
      var n1 := Fixedlen(d, g, p1);
      if n1 < 0 then -1 else
      var n2 := Fixedlen(d, g, p2);
      if n2 < 0 then -1 else n1 + n2
    case TChoice(p1, p2) =>
      var n1 := Fixedlen(d, g, p1);
      var n2 := Fixedlen(d, g, p2);
      if n1 != n2 || n1 < 0 then -1 else n1
  }

  /** The pair returned by 'getfirst': may the pattern accept at the end of the subject, and its first set. */
  datatype First = First(e: bool, cs: Charset)

  /** 'getfirst' without match-time captures; fl is the set of characters that may follow. */
  function Getfirst(d: nat, g: seq<Tree>, t: Tree, fl: Charset): First
    decreases d, t
  {
    match t
    case TChar(_) => First(false, ToCharset(t))
    case TSet(_) => First(false, ToCharset(t))
    case TAny => First(false, ToCharset(t))
    case TTrue => First(true, fl)
    case TFalse => First(false, EmptySet())
    case TChoice(p1, p2) =>
      var f1 := Getfirst(d, g, p1, fl);
      var f2 := Getfirst(d, g, p2, fl);
      First(f1.e || f2.e, Union(f1.cs, f2.cs))
    case TSeq(p1, p2) =>
      if !Nullable(d, g, p1) then Getfirst(d, g, p1, FullSet()) else
      var f2 := Getfirst(d, g, p2, fl);
      var f1 := Getfirst(d, g, p1, f2.cs);
      First(f1.e && f2.e, f1.cs)
    case TRep(p) => First(true, Union(Getfirst(d, g, p, fl).cs, fl))
    case TGrammar(rules) => if rules == [] then First(true, FullSet()) else Getfirst(d, rules, rules[0], fl)
    case TCall(k) => if d == 0 || k >= |g| then First(true, FullSet()) else Getfirst(d - 1, g, g[k], fl)
    case TAnd(p) =>
      var f := Getfirst(d, g, p, fl);
      First(f.e, Intersect(f.cs, fl))
    case TNot(p) => if IsCharPattern(p) then First(true, Complement(ToCharset(p))) else First(true, fl)
    case TBehind(_, _) => First(true, fl)
  }

  /** 'headfail': failure depends on the next character alone. */
  predicate Headfail(d: nat, g: seq<Tree>, t: Tree)
    decreases d, t
  {
    match t
    case TChar(_) => true
    case TSet(_) => true
    case TAny => true
    case TFalse => true
    case TTrue => false
    case TRep(_) => false
    case TNot(_) => false
    case TBehind(_, _) => false
    case TAnd(p) => Headfail(d, g, p)
    case TGrammar(rules) => rules != [] && Headfail(d, rules, rules[0])
    case TCall(k) => d != 0 && k < |g| && Headfail(d - 1, g, g[k])
    case TSeq(p1, p2) => Nofail(d, g, p2) && Headfail(d, g, p1)
    case TChoice(p1, p2) => Headfail(d, g, p1) && Headfail(d, g, p2)
  }

  /** 'needfollow' */
  predicate Needfollow(t: Tree) {
    match t
    case TChoice(_, _) => true
    case TRep(_) => true
    case TSeq(_, p2) => Needfollow(p2)
    case _ => false
  }

  // ----- what the analyses promise

  /** A pattern that is not nullable matches no empty string. */
  lemma {:induction false} NullableSound(d: nat, f: nat, g: seq<Tree>, t: Tree, s: Subject, i: nat)
    requires i <= |s| && !Nullable(d, g, t)
    ensures Peg(f, g, t, s, i) != Ok(i)
    decreases d, f, t
  {
    match t
    case TSeq(p1, p2) =>
      match Peg(f, g, p1, s, i) {
        case Ok(j) =>
          if !Nullable(d, g, p1) { NullableSound(d, f, g, p1, s, i); } else { NullableSound(d, f, g, p2, s, j); }
        case _ =>
      }
    case TChoice(p1, p2) => NullableSound(d, f, g, p1, s, i); NullableSound(d, f, g, p2, s, i);
    case TGrammar(rules) => if rules != [] { NullableSound(d, f, rules, rules[0], s, i); }
    case TCall(k) => if f > 0 && k < |g| { NullableSound(d - 1, f - 1, g, g[k], s, i); }
    case _ =>
  }

  /** A 'nofail' pattern never fails. */
  lemma {:induction false} NofailSound(d: nat, f: nat, g: seq<Tree>, t: Tree, s: Subject, i: nat)
    requires i <= |s| && Nofail(d, g, t)
    ensures !Peg(f, g, t, s, i).Fail?
    decreases d, f, t, |s| - i
  {
    match t
    case TSeq(p1, p2) =>
      NofailSound(d, f, g, p1, s, i);
      match Peg(f, g, p1, s, i) {
        case Ok(j) => NofailSound(d, f, g, p2, s, j);
        case _ =>
      }
    case TChoice(p1, p2) =>
      if Nofail(d, g, p1) { NofailSound(d, f, g, p1, s, i); } else { NofailSound(d, f, g, p2, s, i); }
    case TAnd(p) => NofailSound(d, f, g, p, s, i);
    case TGrammar(rules) => if rules != [] { NofailSound(d, f, rules, rules[0], s, i); }
    case TCall(k) => if f > 0 && k < |g| { NofailSound(d - 1, f - 1, g, g[k], s, i); }
    case TRep(p) =>
      match Peg(f, g, p, s, i) {
        case Ok(j) => if j > i { NofailSound(d, f, g, t, s, j); }
        case _ =>
      }
    case _ =>
  }

  lemma {:induction false} NofailIsNullable(d: nat, g: seq<Tree>, t: Tree)
    requires Nofail(d, g, t)
    ensures Nullable(d, g, t)
    decreases d, t
  {
    match t
    case TSeq(p1, p2) => NofailIsNullable(d, g, p1); NofailIsNullable(d, g, p2);
    case TChoice(p1, p2) => if Nofail(d, g, p1) { NofailIsNullable(d, g, p1); } else { NofailIsNullable(d, g, p2); }
    case TGrammar(rules) => if rules != [] { NofailIsNullable(d, rules, rules[0]); }
    case TCall(k) => NofailIsNullable(d - 1, g, g[k]);
    case _ =>
  }

  /** 'fixedlen' is the length of every match. */
  lemma {:induction false} FixedlenSound(d: nat, f: nat, g: seq<Tree>, t: Tree, s: Subject, i: nat)
    requires i <= |s| && Fixedlen(d, g, t) >= 0
    ensures var r := Peg(f, g, t, s, i); r.Ok? ==> r.end == i + Fixedlen(d, g, t)
    decreases d, f, t
  {
    match t
    case TSeq(p1, p2) =>
      FixedlenSound(d, f, g, p1, s, i);
      match Peg(f, g, p1, s, i) {
        case Ok(j) => FixedlenSound(d, f, g, p2, s, j);
        case _ =>
      }
    case TChoice(p1, p2) => FixedlenSound(d, f, g, p1, s, i); FixedlenSound(d, f, g, p2, s, i);
    case TGrammar(rules) => FixedlenSound(d, f, rules, rules[0], s, i);
    case TCall(k) => if f > 0 { FixedlenSound(d - 1, f - 1, g, g[k], s, i); }
    case _ =>
  }

  /** May something that starts with a character of fl come at position i? */
  predicate Follows(fl: Charset, s: Subject, i: nat) {
    i < |s| ==> Has(fl, s[i])
  }

  /** A match starts with a character of the first set, provided the follow set holds where it ends
      without having consumed anything; at the end of the subject a match needs a non-zero 'e'. */
  lemma {:induction false} GetfirstSound(d: nat, f: nat, g: seq<Tree>, t: Tree, fl: Charset, s: Subject, i: nat)
    requires i <= |s| && Peg(f, g, t, s, i).Ok?
    requires Peg(f, g, t, s, i).end == i ==> Follows(fl, s, i)
    ensures Follows(Getfirst(d, g, t, fl).cs, s, i)
    ensures i == |s| ==> Getfirst(d, g, t, fl).e
    decreases d, f, t
  {
    match t
    case TChoice(p1, p2) =>
      if Peg(f, g, p1, s, i).Ok? { GetfirstSound(d, f, g, p1, fl, s, i); } else { GetfirstSound(d, f, g, p2, fl, s, i); }
    case TSeq(p1, p2) =>
      var j := Peg(f, g, p1, s, i).end;
      if !Nullable(d, g, p1) {
        NullableSound(d, f, g, p1, s, i);
        GetfirstSound(d, f, g, p1, FullSet(), s, i);
      } else {
        if j == i { GetfirstSound(d, f, g, p2, fl, s, i); }
        GetfirstSound(d, f, g, p1, Getfirst(d, g, p2, fl).cs, s, i);
      }
    case TRep(p) =>
      if Peg(f, g, p, s, i).Ok? { GetfirstSound(d, f, g, p, fl, s, i); }
    case TAnd(p) => GetfirstSound(d, f, g, p, fl, s, i);
    case TGrammar(rules) => GetfirstSound(d, f, rules, rules[0], fl, s, i);
    case TCall(k) => if d > 0 { GetfirstSound(d - 1, f - 1, g, g[k], fl, s, i); }
    case _ =>
  }

  // A pattern that cannot fail may start with anything.
  lemma {:induction false} NofailFirst(d: nat, g: seq<Tree>, t: Tree, fl: Charset)
    requires Nofail(d, g, t) && IsFull(fl)
    ensures IsFull(Getfirst(d, g, t, fl).cs) && Getfirst(d, g, t, fl).e
    decreases d, t
  {
    match t
    case TSeq(p1, p2) =>
      NofailIsNullable(d, g, p1);
      NofailFirst(d, g, p2, fl);
      NofailFirst(d, g, p1, Getfirst(d, g, p2, fl).cs);
    case TChoice(p1, p2) => if Nofail(d, g, p1) { NofailFirst(d, g, p1, fl); } else { NofailFirst(d, g, p2, fl); }
    case TAnd(p) => NofailFirst(d, g, p, fl);
    case TGrammar(rules) => if rules != [] { NofailFirst(d, rules, rules[0], fl); }
    case TCall(k) => NofailFirst(d - 1, g, g[k], fl);
    case _ =>
  }

  /** For a 'headfail' pattern the first set decides: in front of one of its characters the pattern
      does not fail, and at the end of the subject it does not match. */
  lemma {:induction false} HeadfailExact(d: nat, f: nat, g: seq<Tree>, t: Tree, fl: Charset, s: Subject, i: nat)
    requires i <= |s| && Headfail(d, g, t) && IsFull(fl)
    ensures !Getfirst(d, g, t, fl).e
    ensures i < |s| && Has(Getfirst(d, g, t, fl).cs, s[i]) ==> !Peg(f, g, t, s, i).Fail?
    decreases d, f, t
  {
    match t
    case TSeq(p1, p2) =>
      match Peg(f, g, p1, s, i) {
        case Ok(j) => NofailSound(d, f, g, p2, s, j);
        case _ =>
      }
      if Nullable(d, g, p1) {
        NofailFirst(d, g, p2, fl);
        HeadfailExact(d, f, g, p1, Getfirst(d, g, p2, fl).cs, s, i);
      } else {
        HeadfailExact(d, f, g, p1, FullSet(), s, i);
      }
    case TChoice(p1, p2) => HeadfailExact(d, f, g, p1, fl, s, i); HeadfailExact(d, f, g, p2, fl, s, i);
    case TAnd(p) => HeadfailExact(d, f, g, p, fl, s, i);
    case TGrammar(rules) => HeadfailExact(d, f, rules, rules[0], fl, s, i);
    case TCall(k) => HeadfailExact(d - 1, if f > 0 then f - 1 else 0, g, g[k], fl, s, i);
    case _ =>
  }
}
