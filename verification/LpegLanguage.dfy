// Patterns without calls, predicates and look-behinds, read as regular expressions: there first sets, nullability
// and fixed lengths are exact, and not only safe.
module LpegLanguage {
  import opened LpegCharset
  import opened LpegTree
  import opened LpegAnalysis

  /** The words of a pattern, if the order of choices does not matter and repetitions may stop anywhere. */
  ghost predicate Gives(t: Tree, w: seq<Byte>)
    decreases t, |w|
  {
    match t
    case TChar(c) => w == [c]
    case TSet(cs) => |w| == 1 && Has(cs, w[0])
    case TAny => |w| == 1
    case TTrue => w == []
    case TSeq(p1, p2) => exists k: nat :: k <= |w| && Gives(p1, w[..k]) && Gives(p2, w[k..])
    case TChoice(p1, p2) => Gives(p1, w) || Gives(p2, w)
    case TRep(p) => w == [] || exists k: nat :: 0 < k <= |w| && Gives(p, w[..k]) && Gives(t, w[k..])
    case _ => false
  }

  /** No parts but those, no part that can never match, and no endless repetition. */
  ghost predicate Regular(t: Tree) {
    match t
    case TChar(_) => true
    case TSet(cs) => exists c: Byte :: Has(cs, c)
    case TAny => true
    case TTrue => true
    case TSeq(p1, p2) => Regular(p1) && Regular(p2)
    case TChoice(p1, p2) => Regular(p1) && Regular(p2)
    case TRep(p) => Regular(p) && !Gives(p, [])
    case _ => false
  }

  lemma Cuts<T>(a: seq<T>, b: seq<T>)
    ensures (a + b)[..|a|] == a && (a + b)[|a|..] == b
  {
  }

  lemma Joins(p1: Tree, p2: Tree, w1: seq<Byte>, w2: seq<Byte>)
    requires Gives(p1, w1) && Gives(p2, w2)
    ensures Gives(TSeq(p1, p2), w1 + w2)
  {
    Cuts(w1, w2);
  }

  lemma Repeats(p: Tree, w: seq<Byte>)
    requires Gives(p, w) && w != []
    ensures Gives(TRep(p), w)
  {
    assert w[..|w|] == w && w[|w|..] == [];
    assert Gives(TRep(p), []);
  }

  lemma {:induction false} SomeWord(t: Tree) returns (w: seq<Byte>)
    requires Regular(t)
    ensures Gives(t, w)
  {
    match t
    case TChar(c) => w := [c];
    case TSet(cs) => var c: Byte :| Has(cs, c); w := [c];
    case TAny => w := [0];
    case TTrue => w := [];
    case TSeq(p1, p2) =>
      var w1 := SomeWord(p1);
      var w2 := SomeWord(p2);
      w := w1 + w2;
      Joins(p1, p2, w1, w2);
    case TChoice(p1, _) => w := SomeWord(p1);
    case TRep(_) => w := [];
  }

  /** What a pattern matches is one of its words. */
  lemma {:induction false} MatchIsWord(f: nat, g: seq<Tree>, t: Tree, s: Subject, i: nat)
    requires Regular(t) && i <= |s| && Peg(f, g, t, s, i).Ok?
    ensures Gives(t, s[i..Peg(f, g, t, s, i).end])
    decreases t, |s| - i
  {
    var e := Peg(f, g, t, s, i).end;
    match t
    case TSeq(p1, p2) =>
      var j := Peg(f, g, p1, s, i).end;
      MatchIsWord(f, g, p1, s, i);
      MatchIsWord(f, g, p2, s, j);
      Joins(p1, p2, s[i..j], s[j..e]);
      Between(s, i, j, e);
    case TChoice(p1, p2) => if Peg(f, g, p1, s, i).Ok? { MatchIsWord(f, g, p1, s, i); } else { MatchIsWord(f, g, p2, s, i); }
    case TRep(p) =>
      if Peg(f, g, p, s, i).Ok? {
        var j := Peg(f, g, p, s, i).end;
        MatchIsWord(f, g, p, s, i);
        MatchIsWord(f, g, t, s, j);
        OneMore(p, s[i..j], s[j..e]);
        Between(s, i, j, e);
      }
    case _ => assert Peg(f, g, t, s, i) == Ok(e) ==> e == i || s[i..e] == [s[i]];
  }

  lemma Between<T>(s: seq<T>, i: nat, j: nat, e: nat)
    requires i <= j <= e <= |s|
    ensures s[i..j] + s[j..e] == s[i..e]
  {
  }

  lemma OneMore(p: Tree, w: seq<Byte>, rest: seq<Byte>)
    requires Gives(p, w) && w != [] && Gives(TRep(p), rest)
    ensures Gives(TRep(p), w + rest)
  {
    Cuts(w, rest);
  }

  // ----- nullability

  lemma {:induction false} NullableIsEmptyWord(d: nat, g: seq<Tree>, t: Tree)
    requires Regular(t)
    ensures Nullable(d, g, t) <==> Gives(t, [])
  {
    match t
    case TSeq(p1, p2) =>
      NullableIsEmptyWord(d, g, p1);
      NullableIsEmptyWord(d, g, p2);
      var none: seq<Byte> := [];
      assert none[..0] == none && none[0..] == none;
    case TChoice(p1, p2) => NullableIsEmptyWord(d, g, p1); NullableIsEmptyWord(d, g, p2);
    case _ =>
  }

  // ----- first sets

  /** Some word of t begins with c. */
  ghost predicate Begins(t: Tree, c: Byte) {
    exists w: seq<Byte> :: w != [] && w[0] == c && Gives(t, w)
  }

  lemma SeqBegins(p1: Tree, p2: Tree, c: Byte)
    requires Regular(p1) && Regular(p2)
    ensures Begins(TSeq(p1, p2), c) <==> Begins(p1, c) || (Gives(p1, []) && Begins(p2, c))
  {
    var t := TSeq(p1, p2);
    if Begins(t, c) {
      var w: seq<Byte> :| w != [] && w[0] == c && Gives(t, w);
      SeqBegin(p1, p2, w);
    }
    hide Gives;
    if Begins(p1, c) {
      var w1: seq<Byte> :| w1 != [] && w1[0] == c && Gives(p1, w1);
      var w2 := SomeWord(p2);
      Joins(p1, p2, w1, w2);
      assert (w1 + w2)[0] == c;
    }
    if Gives(p1, []) && Begins(p2, c) {
      var w2: seq<Byte> :| w2 != [] && w2[0] == c && Gives(p2, w2);
      Joins(p1, p2, [], w2);
      assert [] + w2 == w2;
    }
  }

  lemma SeqBegin(p1: Tree, p2: Tree, w: seq<Byte>)
    requires w != [] && Gives(TSeq(p1, p2), w)
    ensures Begins(p1, w[0]) || (Gives(p1, []) && Begins(p2, w[0]))
  {
    var k: nat :| k <= |w| && Gives(p1, w[..k]) && Gives(p2, w[k..]);
    if k > 0 { assert w[..k][0] == w[0]; } else { assert w[..0] == [] && w[0..] == w; }
  }

  lemma RepBegins(p: Tree, c: Byte)
    requires Regular(p)
    ensures Begins(TRep(p), c) <==> Begins(p, c)
  {
    if Begins(TRep(p), c) {
      var w: seq<Byte> :| w != [] && w[0] == c && Gives(TRep(p), w);
      var k: nat :| 0 < k <= |w| && Gives(p, w[..k]) && Gives(TRep(p), w[k..]);
      assert w[..k][0] == c;
    }
    if Begins(p, c) {
      var w: seq<Byte> :| w != [] && w[0] == c && Gives(p, w);
      Repeats(p, w);
    }
  }

  lemma LeafBegins(t: Tree, c: Byte)
    ensures t.TChar? ==> (Begins(t, c) <==> c == t.c)
    ensures t.TSet? ==> (Begins(t, c) <==> Has(t.cs, c))
    ensures t.TAny? ==> Begins(t, c)
    ensures t.TTrue? ==> !Begins(t, c)
  {
    if t.TAny? || (t.TChar? && c == t.c) || (t.TSet? && Has(t.cs, c)) { assert Gives(t, [c]) && [c][0] == c; }
  }

  lemma ChoiceBegins(p1: Tree, p2: Tree, c: Byte)
    ensures Begins(TChoice(p1, p2), c) <==> Begins(p1, c) || Begins(p2, c)
  {
    if Begins(TChoice(p1, p2), c) {
      var w: seq<Byte> :| w != [] && w[0] == c && Gives(TChoice(p1, p2), w);
      assert Gives(p1, w) || Gives(p2, w);
    }
    if Begins(p1, c) {
      var w: seq<Byte> :| w != [] && w[0] == c && Gives(p1, w);
      assert Gives(TChoice(p1, p2), w);
    }
    if Begins(p2, c) {
      var w: seq<Byte> :| w != [] && w[0] == c && Gives(p2, w);
      assert Gives(TChoice(p1, p2), w);
    }
  }

  /** The first set has exactly the characters with which a word can begin, and those that may follow if the empty
      word is one; and the value returned says whether it is. */
  lemma {:induction false} FirstExact(d: nat, g: seq<Tree>, t: Tree, fl: Charset, c: Byte)
    requires Regular(t)
    ensures Getfirst(d, g, t, fl).e <==> Gives(t, [])
    ensures Has(Getfirst(d, g, t, fl).cs, c) <==> Begins(t, c) || (Gives(t, []) && Has(fl, c))
    decreases t
  {
    hide Gives, Begins, Has;
    EmptyWords(t);
    match t
    case TSeq(p1, p2) =>
      NullableIsEmptyWord(d, g, p1);
      SeqBegins(p1, p2, c);
      FirstExact(d, g, p1, FullSet(), c);
      FirstExact(d, g, p2, fl, c);
      FirstExact(d, g, p1, Getfirst(d, g, p2, fl).cs, c);
    case TChoice(p1, p2) =>
      ChoiceBegins(p1, p2, c);
      FirstExact(d, g, p1, fl, c);
      FirstExact(d, g, p2, fl, c);
      UnionHas(Getfirst(d, g, p1, fl).cs, Getfirst(d, g, p2, fl).cs, c);
    case TRep(p) =>
      RepBegins(p, c);
      FirstExact(d, g, p, fl, c);
      UnionHas(Getfirst(d, g, p, fl).cs, fl, c);
    case _ =>
      LeafBegins(t, c);
      LeafFirst(d, g, t, fl, c);
  }

  lemma EmptyWords(t: Tree)
    ensures t.TChar? || t.TSet? || t.TAny? ==> !Gives(t, [])
    ensures t.TTrue? || t.TRep? ==> Gives(t, [])
    ensures t.TChoice? ==> (Gives(t, []) <==> Gives(t.p1, []) || Gives(t.p2, []))
    ensures t.TSeq? ==> (Gives(t, []) <==> Gives(t.p1, []) && Gives(t.p2, []))
  {
    var none: seq<Byte> := [];
    assert none[..0] == none && none[0..] == none;
  }

  lemma UnionHas(a: Charset, b: Charset, c: Byte)
    ensures Has(Union(a, b), c) <==> Has(a, c) || Has(b, c)
  {
  }

  lemma LeafFirst(d: nat, g: seq<Tree>, t: Tree, fl: Charset, c: Byte)
    ensures t.TChar? ==> (Has(Getfirst(d, g, t, fl).cs, c) <==> c == t.c)
    ensures t.TSet? ==> (Has(Getfirst(d, g, t, fl).cs, c) <==> Has(t.cs, c))
    ensures t.TAny? ==> Has(Getfirst(d, g, t, fl).cs, c)
    ensures t.TTrue? ==> Getfirst(d, g, t, fl) == First(true, fl)
    ensures t.TChar? || t.TSet? || t.TAny? ==> !Getfirst(d, g, t, fl).e
  {
  }

  // ----- fixed lengths

  /** A fixed length is the length of all words, and without one there are words of two lengths. */
  lemma {:induction false} LengthExact(d: nat, g: seq<Tree>, t: Tree) returns (w: seq<Byte>, w': seq<Byte>)
    requires Regular(t)
    ensures Fixedlen(d, g, t) >= 0 ==> forall v :: Gives(t, v) ==> |v| == Fixedlen(d, g, t)
    ensures Fixedlen(d, g, t) < 0 ==> Gives(t, w) && Gives(t, w') && |w| != |w'|
    decreases t
  {
    w, w' := [], [];
    match t
    case TSeq(p1, p2) =>
      var w1, w1' := LengthExact(d, g, p1);
      var w2, w2' := LengthExact(d, g, p2);
      if Fixedlen(d, g, p1) < 0 {
        var v := SomeWord(p2);
        w, w' := w1 + v, w1' + v;
        Joins(p1, p2, w1, v);
        Joins(p1, p2, w1', v);
      } else if Fixedlen(d, g, p2) < 0 {
        var v := SomeWord(p1);
        w, w' := v + w2, v + w2';
        Joins(p1, p2, v, w2);
        Joins(p1, p2, v, w2');
      }
    case TChoice(p1, p2) =>
      var w1, w1' := LengthExact(d, g, p1);
      var w2, w2' := LengthExact(d, g, p2);
      if Fixedlen(d, g, p1) < 0 {
        w, w' := w1, w1';
      } else if Fixedlen(d, g, p2) < 0 {
        w, w' := w2, w2';
      } else {
        w := SomeWord(p1);
        w' := SomeWord(p2);
      }
    case TRep(p) =>
      w' := SomeWord(p);
      Repeats(p, w');
    case _ =>
  }
}
