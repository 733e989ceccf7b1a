// 'fixedlen' as the code computes it: a call that is being visited is marked, and answers -1. The result is that of
// the recursion with a bounded depth.
module LpegMarks {
  import opened Sets
  import opened LpegCharset
  import opened LpegTree
  import opened LpegAnalysis
  import opened LpegGrammar
  import opened LpegDepth

  /** A node of a pattern is named by the way to it from the root. */
  type Path = seq<nat>

  /** The tree at a node, with the rules of the grammar around it and the node of that grammar. */
  datatype Node = Nowhere | Node(g: seq<Tree>, at: Path, t: Tree)

  /** The node that a way leads to from node 'here'. */
  function Walk(n: Node, here: Path, way: Path): Node
    decreases if n.Node? then 1 else 0, if n.Node? then n.t else TTrue
  {
    if n.Nowhere? || way == [] then n else
      var j, rest := way[0], way[1..];
      match n.t
      case TRep(p) => if j == 0 then Walk(n.(t := p), here + [0], rest) else Nowhere
      case TNot(p) => if j == 0 then Walk(n.(t := p), here + [0], rest) else Nowhere
      case TAnd(p) => if j == 0 then Walk(n.(t := p), here + [0], rest) else Nowhere
      case TBehind(_, p) => if j == 0 then Walk(n.(t := p), here + [0], rest) else Nowhere
      case TSeq(p1, p2) => if j < 2 then Walk(n.(t := if j == 0 then p1 else p2), here + [j], rest) else Nowhere
      case TChoice(p1, p2) => if j < 2 then Walk(n.(t := if j == 0 then p1 else p2), here + [j], rest) else Nowhere
      case TGrammar(rules) => if j < |rules| then Walk(Node(rules, here, rules[j]), here + [j], rest) else Nowhere
      case _ => Nowhere
  }

  function At(root: Tree, w: Path): Node {
    Walk(Node([], [], root), [], w)
  }

  lemma {:induction false} WalkOn(n: Node, here: Path, way: Path, j: nat)
    ensures Walk(n, here, way + [j]) == Walk(Walk(n, here, way), here + way, [j])
    decreases |way|
  {
    if n.Node? {
      if way == [] {
        assert way + [j] == [j] && here + way == here;
      } else {
        var i, rest := way[0], way[1..];
        assert (way + [j])[0] == i && (way + [j])[1..] == rest + [j] && here + [i] + rest == here + way;
        match n.t
        case TRep(p) => if i == 0 { WalkOn(n.(t := p), here + [0], rest, j); }
        case TNot(p) => if i == 0 { WalkOn(n.(t := p), here + [0], rest, j); }
        case TAnd(p) => if i == 0 { WalkOn(n.(t := p), here + [0], rest, j); }
        case TBehind(_, p) => if i == 0 { WalkOn(n.(t := p), here + [0], rest, j); }
        case TSeq(p1, p2) => if i < 2 { WalkOn(n.(t := if i == 0 then p1 else p2), here + [i], rest, j); }
        case TChoice(p1, p2) => if i < 2 { WalkOn(n.(t := if i == 0 then p1 else p2), here + [i], rest, j); }
        case TGrammar(rules) => if i < |rules| { WalkOn(Node(rules, here, rules[i]), here + [i], rest, j); }
        case _ =>
      }
    }
  }

  /** The calls of a tree at node w. */
  function Calls(t: Tree, w: Path): set<Path>
    decreases t, 0
  {
    match t
    case TCall(_) => {w}
    case TRep(p) => Calls(p, w + [0])
    case TNot(p) => Calls(p, w + [0])
    case TAnd(p) => Calls(p, w + [0])
    case TBehind(_, p) => Calls(p, w + [0])
    case TSeq(p1, p2) => Calls(p1, w + [0]) + Calls(p2, w + [1])
    case TChoice(p1, p2) => Calls(p1, w + [0]) + Calls(p2, w + [1])
    case TGrammar(rules) => RuleCalls(rules, w, |rules|)
    case _ => {}
  }

  function RuleCalls(rules: seq<Tree>, w: Path, n: nat): set<Path>
    requires n <= |rules|
    decreases rules, n
  {
    if n == 0 then {} else RuleCalls(rules, w, n - 1) + Calls(rules[n - 1], w + [n - 1])
  }

  lemma {:induction false} RuleCallsHas(rules: seq<Tree>, w: Path, n: nat, k: nat)
    requires k < n <= |rules|
    ensures Calls(rules[k], w + [k]) <= RuleCalls(rules, w, n)
  {
    if k < n - 1 { RuleCallsHas(rules, w, n - 1, k); }
  }

  /** All calls that can be reached from a node are among these. */
  predicate Inside(g: seq<Tree>, at: Path, t: Tree, w: Path, nodes: set<Path>) {
    Calls(t, w) <= nodes && forall k: nat | k < |g| :: Calls(g[k], at + [k]) <= nodes
  }

  lemma InsideRules(g: seq<Tree>, at: Path, rules: seq<Tree>, w: Path, nodes: set<Path>)
    requires Inside(g, at, TGrammar(rules), w, nodes) && rules != []
    ensures Inside(rules, w, rules[0], w + [0], nodes)
  {
    forall k: nat | k < |rules| ensures Calls(rules[k], w + [k]) <= nodes { RuleCallsHas(rules, w, |rules|, k); }
  }

  /** 'fixedlen' with 'callrecursive': 'seen' are the calls that are marked. */
  function Marked(g: seq<Tree>, at: Path, t: Tree, w: Path, seen: set<Path>, nodes: set<Path>): int
    requires Inside(g, at, t, w, nodes)
    decreases |nodes - seen|, t
  {
    match t
    case TChar(_) => 1
    case TSet(_) => 1
    case TAny => 1
    case TFalse => 0
    case TTrue => 0
    case TNot(_) => 0
    case TAnd(_) => 0
    case TBehind(_, _) => 0
    case TRep(_) => -1
    case TGrammar(rules) =>
      if rules == [] then -1 else
        InsideRules(g, at, rules, w, nodes);
        Marked(rules, w, rules[0], w + [0], seen, nodes)
    case TCall(k) =>
      if w in seen || k >= |g| then -1 else
        FewerLeft(nodes, seen, w);
        Marked(g, at, g[k], at + [k], seen + {w}, nodes)
    case TSeq(p1, p2) =>
      var n1 := Marked(g, at, p1, w + [0], seen, nodes);
      if n1 < 0 then -1 else
      var n2 := Marked(g, at, p2, w + [1], seen, nodes);
      if n2 < 0 then -1 else n1 + n2
    case TChoice(p1, p2) =>
      var n1 := Marked(g, at, p1, w + [0], seen, nodes);
      var n2 := Marked(g, at, p2, w + [1], seen, nodes);
      if n1 != n2 || n1 < 0 then -1 else n1
  }

  lemma FewerLeft(nodes: set<Path>, seen: set<Path>, w: Path)
    requires w in nodes && w !in seen
    ensures |nodes - (seen + {w})| < |nodes - seen|
  {
    SubsetSize(nodes - (seen + {w}), nodes - seen);
    assert w in nodes - seen;
  }

  // ----- agreement

  /** Where a tree and the rules around it stand. */
  ghost predicate Located(root: Tree, g: seq<Tree>, at: Path, t: Tree, w: Path) {
    At(root, w) == Node(g, at, t) && forall k: nat | k < |g| :: At(root, at + [k]) == Node(g, at, g[k])
  }

  lemma LocatedPair(root: Tree, g: seq<Tree>, at: Path, t: Tree, w: Path, p1: Tree, p2: Tree)
    requires Located(root, g, at, t, w) && (t == TSeq(p1, p2) || t == TChoice(p1, p2))
    ensures Located(root, g, at, p1, w + [0]) && Located(root, g, at, p2, w + [1])
  {
    WalkOn(Node([], [], root), [], w, 0);
    WalkOn(Node([], [], root), [], w, 1);
    assert [] + w == w;
  }

  lemma LocatedRules(root: Tree, g: seq<Tree>, at: Path, rules: seq<Tree>, w: Path)
    requires Located(root, g, at, TGrammar(rules), w) && rules != []
    ensures Located(root, rules, w, rules[0], w + [0])
  {
    assert [] + w == w;
    forall k: nat | k < |rules| ensures At(root, w + [k]) == Node(rules, w, rules[k]) {
      WalkOn(Node([], [], root), [], w, k);
    }
  }

  /** The call at v has a length at depth d. */
  ghost predicate HasLength(root: Tree, v: Path, d: nat) {
    var n := At(root, v);
    n.Node? && n.t.TCall? && Fixedlen(d, n.g, n.t) >= 0
  }

  lemma {:induction false} LeastDepth(d: nat, g: seq<Tree>, t: Tree) returns (l: nat)
    requires Fixedlen(d, g, t) >= 0
    ensures l <= d && Fixedlen(l, g, t) == Fixedlen(d, g, t) && (l > 0 ==> Fixedlen(l - 1, g, t) < 0)
  {
    if d > 0 && Fixedlen(d - 1, g, t) >= 0 {
      FixedlenMonotone(d - 1, d, g, t);
      l := LeastDepth(d - 1, g, t);
    } else {
      l := d;
    }
  }

  lemma InsideParts(g: seq<Tree>, at: Path, t: Tree, w: Path, nodes: set<Path>)
    requires Inside(g, at, t, w, nodes)
    ensures t.TSeq? || t.TChoice? ==> Inside(g, at, t.p1, w + [0], nodes) && Inside(g, at, t.p2, w + [1], nodes)
    ensures t.TCall? ==> w in nodes && (t.rule < |g| ==> Inside(g, at, g[t.rule], at + [t.rule], nodes))
  {
  }

  /** A length that is found at some depth is found with marks: what is marked has none at this depth. */
  lemma LocatedCall(root: Tree, g: seq<Tree>, at: Path, k: nat, w: Path)
    requires Located(root, g, at, TCall(k), w)
    ensures At(root, w) == Node(g, at, TCall(k)) && (k < |g| ==> Located(root, g, at, g[k], at + [k]))
  {
  }

  lemma {:induction false} MarkedKnown(d: nat, root: Tree, g: seq<Tree>, at: Path, t: Tree, w: Path, seen: set<Path>, nodes: set<Path>)
    requires Inside(g, at, t, w, nodes) && Located(root, g, at, t, w) && Fixedlen(d, g, t) >= 0
    requires forall v | v in seen :: !HasLength(root, v, d)
    ensures Marked(g, at, t, w, seen, nodes) == Fixedlen(d, g, t)
    decreases d, t, 1
  {
    hide Inside, Located, At;
    InsideParts(g, at, t, w, nodes);
    match t
    case TSeq(p1, p2) =>
      LocatedPair(root, g, at, t, w, p1, p2);
      MarkedKnown(d, root, g, at, p1, w + [0], seen, nodes);
      MarkedKnown(d, root, g, at, p2, w + [1], seen, nodes);
    case TChoice(p1, p2) =>
      LocatedPair(root, g, at, t, w, p1, p2);
      MarkedKnown(d, root, g, at, p1, w + [0], seen, nodes);
      MarkedKnown(d, root, g, at, p2, w + [1], seen, nodes);
    case TGrammar(rules) =>
      LocatedRules(root, g, at, rules, w);
      InsideRules(g, at, rules, w, nodes);
      MarkedKnown(d, root, rules, w, rules[0], w + [0], seen, nodes);
    case TCall(_) => MarkedCall(d, root, g, at, t, w, seen, nodes);
    case _ =>
  }

  lemma {:induction false} MarkedCall(d: nat, root: Tree, g: seq<Tree>, at: Path, t: Tree, w: Path, seen: set<Path>, nodes: set<Path>)
    requires t.TCall? && Inside(g, at, t, w, nodes) && Located(root, g, at, t, w) && Fixedlen(d, g, t) >= 0
    requires forall v | v in seen :: !HasLength(root, v, d)
    ensures Marked(g, at, t, w, seen, nodes) == Fixedlen(d, g, t)
    decreases d, t, 0
  {
    hide Inside, Located, At;
    var k := t.rule;
    InsideParts(g, at, t, w, nodes);
    LocatedCall(root, g, at, k, w);
    var l := LeastDepth(d, g, t);
    FewerLeft(nodes, seen, w);
    forall v | v in seen + {w} ensures !HasLength(root, v, l - 1) {
      if v != w && HasLength(root, v, l - 1) { FixedlenMonotone(l - 1, d, At(root, v).g, At(root, v).t); }
    }
    MarkedKnown(l - 1, root, g, at, g[k], at + [k], seen + {w}, nodes);
  }

  /** A length that is found with marks is found at some depth. */
  lemma {:induction false} MarkedFound(g: seq<Tree>, at: Path, t: Tree, w: Path, seen: set<Path>, nodes: set<Path>) returns (d: nat)
    requires Inside(g, at, t, w, nodes) && Marked(g, at, t, w, seen, nodes) >= 0
    ensures Fixedlen(d, g, t) == Marked(g, at, t, w, seen, nodes)
    decreases |nodes - seen|, t, 1
  {
    d := 0;
    match t
    case TSeq(p1, p2) => d := BothFound(g, at, t, p1, p2, w, seen, nodes);
    case TChoice(p1, p2) => d := BothFound(g, at, t, p1, p2, w, seen, nodes);
    case TGrammar(rules) =>
      InsideRules(g, at, rules, w, nodes);
      d := MarkedFound(rules, w, rules[0], w + [0], seen, nodes);
    case TCall(k) =>
      FewerLeft(nodes, seen, w);
      d := MarkedFound(g, at, g[k], at + [k], seen + {w}, nodes);
      d := d + 1;
    case _ =>
  }

  lemma {:induction false} BothFound(g: seq<Tree>, at: Path, t: Tree, p1: Tree, p2: Tree, w: Path, seen: set<Path>, nodes: set<Path>)
    returns (d: nat)
    requires t == TSeq(p1, p2) || t == TChoice(p1, p2)
    requires Inside(g, at, p1, w + [0], nodes) && Marked(g, at, p1, w + [0], seen, nodes) >= 0
    requires Inside(g, at, p2, w + [1], nodes) && Marked(g, at, p2, w + [1], seen, nodes) >= 0
    ensures Fixedlen(d, g, p1) == Marked(g, at, p1, w + [0], seen, nodes)
    ensures Fixedlen(d, g, p2) == Marked(g, at, p2, w + [1], seen, nodes)
    decreases |nodes - seen|, t, 0
  {
    var d1 := MarkedFound(g, at, p1, w + [0], seen, nodes);
    var d2 := MarkedFound(g, at, p2, w + [1], seen, nodes);
    d := d1 + d2;
    FixedlenMonotone(d1, d, g, p1);
    FixedlenMonotone(d2, d, g, p2);
  }

  /** At any node of a pattern 'fixedlen' with marks gives the length that is found at every depth from a stated
      one on. */
  lemma MarksAgree(d: nat, h: nat, root: Tree, g: seq<Tree>, at: Path, t: Tree, w: Path, nodes: set<Path>)
    requires Inside(g, at, t, w, nodes) && Located(root, g, at, t, w)
    requires RulesBounded(h, g) && Bounded(t) && Nested(h, t) && d >= LengthDepth(h)
    ensures Marked(g, at, t, w, {}, nodes) == Fixedlen(d, g, t)
  {
    hide Located, Inside, Marked, Fixedlen;
    if Fixedlen(d, g, t) >= 0 {
      MarkedKnown(d, root, g, at, t, w, {}, nodes);
    } else if Marked(g, at, t, w, {}, nodes) >= 0 {
      var e := MarkedFound(g, at, t, w, {}, nodes);
      LengthSettled(h, g, t, d, d + e);
      FixedlenMonotone(e, d + e, g, t);
    } else {
      NotBelow(g, at, t, w, {}, nodes);
    }
  }

  lemma {:induction false} NotBelow(g: seq<Tree>, at: Path, t: Tree, w: Path, seen: set<Path>, nodes: set<Path>)
    requires Inside(g, at, t, w, nodes)
    ensures Marked(g, at, t, w, seen, nodes) >= -1
    decreases |nodes - seen|, t
  {
    match t
    case TGrammar(rules) =>
      if rules != [] {
        InsideRules(g, at, rules, w, nodes);
        NotBelow(rules, w, rules[0], w + [0], seen, nodes);
      }
    case TCall(k) =>
      if w !in seen && k < |g| {
        FewerLeft(nodes, seen, w);
        NotBelow(g, at, g[k], at + [k], seen + {w}, nodes);
      }
    case _ =>
  }
}
