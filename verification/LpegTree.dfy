// Pattern trees of LPeg without captures, and their meaning as parsing expressions.
module LpegTree {
  import opened LpegCharset

  /** A called rule is named by its number in the innermost grammar around the call. */
  datatype Tree =
    | TChar(c: Byte)
    | TSet(cs: Charset)
    | TAny
    | TTrue
    | TFalse
    | TRep(p: Tree)
    | TSeq(p1: Tree, p2: Tree)
    | TChoice(p1: Tree, p2: Tree)
    | TNot(p: Tree)
    | TAnd(p: Tree)
    | TBehind(n: nat, p: Tree)
    | TCall(rule: nat)
    | TGrammar(rules: seq<Tree>)

  type Subject = seq<Byte>

  /** Out: no result within the given call depth, or a repetition of an empty match. */
  datatype Result = Out | Fail | Ok(end: nat)

  /** 'tocharset': the set of a one-character pattern. */
  predicate IsCharPattern(t: Tree) {
    t.TChar? || t.TSet? || t.TAny?
  }

  function ToCharset(t: Tree): (cs: Charset)
    requires IsCharPattern(t)
    ensures t.TChar? ==> forall c: Byte :: Has(cs, c) <==> c == t.c
    ensures t.TSet? ==> cs == t.cs
    ensures t.TAny? ==> IsFull(cs)
  {
    match t
    case TSet(cs) => cs
    case TChar(c) => Singleton(c)
    case TAny => FullSet()
  }

  /** The meaning of t at position i of s, inside grammar g; f bounds the depth of rule calls. */
  function Peg(f: nat, g: seq<Tree>, t: Tree, s: Subject, i: nat): (r: Result)
    requires i <= |s|
    ensures r.Ok? ==> i <= r.end <= |s|
    decreases f, t, |s| - i
  {
    match t
    case TChar(c) => if i < |s| && s[i] == c then Ok(i + 1) else Fail
    case TSet(cs) => if i < |s| && Has(cs, s[i]) then Ok(i + 1) else Fail
    case TAny => if i < |s| then Ok(i + 1) else Fail
    case TTrue => Ok(i)
    case TFalse => Fail
    case TRep(p) =>
      (match Peg(f, g, p, s, i)
       case Out => Out
       case Fail => Ok(i)
       case Ok(j) => if j > i then Peg(f, g, t, s, j) else Out)
    case TSeq(p1, p2) =>
      (match Peg(f, g, p1, s, i)
       case Out => Out
       case Fail => Fail
       case Ok(j) => Peg(f, g, p2, s, j))
    case TChoice(p1, p2) =>
      (match Peg(f, g, p1, s, i)
       case Out => Out
       case Fail => Peg(f, g, p2, s, i)
       case Ok(j) => Ok(j))
    case TNot(p) =>
      (match Peg(f, g, p, s, i)
       case Out => Out
       case Fail => Ok(i)
       case Ok(_) => Fail)
    case TAnd(p) =>
      (match Peg(f, g, p, s, i)
       case Out => Out
       case Fail => Fail
       case Ok(_) => Ok(i))
    case TBehind(n, p) =>
      if n > i then Fail else
      (match Peg(f, g, p, s, i - n)
       case Out => Out
       case Fail => Fail
       case Ok(_) => Ok(i))
    case TCall(k) => if f == 0 || k >= |g| then Out else Peg(f - 1, g, g[k], s, i)
    case TGrammar(rules) => if rules == [] then Out else Peg(f, rules, rules[0], s, i)
  }

  /** A result reached within call depth f is the result at every larger depth. */
  lemma {:induction false} PegMonotone(f: nat, f': nat, g: seq<Tree>, t: Tree, s: Subject, i: nat)
    requires i <= |s| && f <= f'
    requires Peg(f, g, t, s, i) != Out
    ensures Peg(f', g, t, s, i) == Peg(f, g, t, s, i)
    decreases f, t, |s| - i
  {
    match t
    case TChar(_) => case TSet(_) => case TAny => case TTrue => case TFalse =>
    case TRep(p) =>
      PegMonotone(f, f', g, p, s, i);
      match Peg(f, g, p, s, i) {
        case Ok(j) => PegMonotone(f, f', g, t, s, j);
        case _ =>
      }
    case TSeq(p1, p2) =>
      PegMonotone(f, f', g, p1, s, i);
      match Peg(f, g, p1, s, i) {
        case Ok(j) => PegMonotone(f, f', g, p2, s, j);
        case _ =>
      }
    case TChoice(p1, p2) =>
      PegMonotone(f, f', g, p1, s, i);
      if Peg(f, g, p1, s, i).Fail? { PegMonotone(f, f', g, p2, s, i); }
    case TNot(p) => PegMonotone(f, f', g, p, s, i);
    case TAnd(p) => PegMonotone(f, f', g, p, s, i);
    case TBehind(n, p) => if n <= i { PegMonotone(f, f', g, p, s, i - n); }
    case TCall(k) => PegMonotone(f - 1, f' - 1, g, g[k], s, i);
    case TGrammar(rules) => PegMonotone(f, f', rules, rules[0], s, i);
  }

  /** The meaning of a pattern does not depend on the depth at which it was found. */
  lemma PegDeterministic(f: nat, f': nat, g: seq<Tree>, t: Tree, s: Subject, i: nat)
    requires i <= |s|
    requires Peg(f, g, t, s, i) != Out && Peg(f', g, t, s, i) != Out
    ensures Peg(f, g, t, s, i) == Peg(f', g, t, s, i)
  {
    if f <= f' { PegMonotone(f, f', g, t, s, i); } else { PegMonotone(f', f, g, t, s, i); }
  }
}
