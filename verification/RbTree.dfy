// Red-black trees as values: order, colours and black heights, and the rebalancing steps of wepoll's tree on
// a position in the tree. The same steps on nodes with parent links are in RbHeap.
module RbTree {
  import Bytes

  datatype Side = L | R

  function Other(side: Side): Side {
    if side.L? then R else L
  }

  datatype Tree<X> = Nil | Node(left: Tree<X>, x: X, key: int, red: bool, right: Tree<X>)

  /** A position in a tree: the frames from the parent up to the root. 'side' says which child of the frame's
      node the position is under. */
  datatype Frame<X> = Frame(side: Side, x: X, key: int, red: bool, other: Tree<X>)
  type Path<X> = seq<Frame<X>>

  /** A node with its child on the given side, and the other child. */
  function Make<X>(side: Side, cis: Tree<X>, x: X, key: int, red: bool, trans: Tree<X>): Tree<X> {
    if side.L? then Node(cis, x, key, red, trans) else Node(trans, x, key, red, cis)
  }

  function Up<X>(f: Frame<X>, t: Tree<X>): Tree<X> {
    Make(f.side, t, f.x, f.key, f.red, f.other)
  }

  /** The whole tree around a position. */
  function Plug<X>(path: Path<X>, t: Tree<X>): Tree<X> {
    if path == [] then t else Plug(path[1..], Up(path[0], t))
  }

  // ----- order

  function Keys<X>(t: Tree<X>): set<int> {
    match t
    case Nil => {}
    case Node(l, _, k, _, r) => Keys(l) + {k} + Keys(r)
  }

  predicate Sorted<X>(t: Tree<X>) {
    match t
    case Nil => true
    case Node(l, _, k, _, r) =>
      Sorted(l) && Sorted(r) && (forall j | j in Keys(l) :: j < k) && (forall j | j in Keys(r) :: k < j)
  }

  function PathKeys<X>(path: Path<X>): set<int> {
    if path == [] then {} else {path[0].key} + Keys(path[0].other) + PathKeys(path[1..])
  }

  /** The frames admit any tree with keys between lo and hi, both exclusive. */
  predicate Fits<X>(path: Path<X>, ks: set<int>) {
    path == [] ||
    var f := path[0];
    && Sorted(f.other)
    && (forall j | j in ks :: if f.side.L? then j < f.key else f.key < j)
    && (forall j | j in Keys(f.other) :: if f.side.L? then f.key < j else j < f.key)
    && Fits(path[1..], ks + {f.key} + Keys(f.other))
  }

  lemma {:induction false} PlugKeys<X>(path: Path<X>, t: Tree<X>)
    ensures Keys(Plug(path, t)) == PathKeys(path) + Keys(t)
  {
    if path != [] { PlugKeys(path[1..], Up(path[0], t)); }
  }

  lemma {:induction false} FitsFewer<X>(path: Path<X>, ks: set<int>, js: set<int>)
    requires Fits(path, ks) && js <= ks
    ensures Fits(path, js)
  {
    if path != [] {
      FitsFewer(path[1..], ks + {path[0].key} + Keys(path[0].other), js + {path[0].key} + Keys(path[0].other));
    }
  }

  /** A tree is sorted exactly when what is around a position fits what is at it. */
  lemma {:induction false} PlugSorted<X>(path: Path<X>, t: Tree<X>)
    ensures Sorted(Plug(path, t)) <==> Sorted(t) && Fits(path, Keys(t))
  {
    if path != [] {
      var f := path[0];
      PlugSorted(path[1..], Up(f, t));
      assert Keys(Up(f, t)) == Keys(t) + {f.key} + Keys(f.other);
    }
  }

  /** The keys around a position are not at it. */
  lemma {:induction false} FitsApart<X>(path: Path<X>, ks: set<int>)
    requires Fits(path, ks)
    ensures PathKeys(path) !! ks
  {
    if path != [] {
      var f := path[0];
      FitsApart(path[1..], ks + {f.key} + Keys(f.other));
      forall j | j in PathKeys(path) ensures j !in ks {
        if j in PathKeys(path[1..]) { assert j !in ks + {f.key} + Keys(f.other); }
      }
    }
  }

  // ----- colours

  predicate Red<X>(t: Tree<X>) {
    t.Node? && t.red
  }

  /** No red node with a red child, and n black nodes on every way down. */
  predicate Bal<X>(t: Tree<X>, n: nat) {
    match t
    case Nil => n == 0
    case Node(l, _, _, red, r) =>
      if red then !Red(l) && !Red(r) && Bal(l, n) && Bal(r, n)
      else n > 0 && Bal(l, n - 1) && Bal(r, n - 1)
  }

  /** The frames around a position at which a tree with n black nodes on every way down is missing. The root
      is black. */
  predicate PathBal<X>(path: Path<X>, n: nat) {
    path == [] ||
    var f := path[0];
    && Bal(f.other, n)
    && if f.red then !Red(f.other) && path[1..] != [] && !path[1].red && PathBal(path[1..], n)
       else PathBal(path[1..], n + 1)
  }

  /** A red tree does not hang below a red node. */
  predicate Apart<X>(path: Path<X>, t: Tree<X>) {
    !(Red(t) && path != [] && path[0].red)
  }

  /** A red-black tree. */
  ghost predicate Valid<X>(t: Tree<X>) {
    Sorted(t) && !Red(t) && exists n: nat :: Bal(t, n)
  }

  lemma {:induction false} PlugBal<X>(path: Path<X>, t: Tree<X>, n: nat) returns (m: nat)
    requires Bal(t, n) && PathBal(path, n) && Apart(path, t) && (path == [] ==> !Red(t))
    ensures Bal(Plug(path, t), m) && !Red(Plug(path, t))
  {
    if path == [] {
      m := n;
    } else {
      var f := path[0];
      m := PlugBal(path[1..], Up(f, t), if f.red then n else n + 1);
    }
  }

  lemma {:induction false} UnplugBal<X>(path: Path<X>, t: Tree<X>, m: nat) returns (n: nat)
    requires Bal(Plug(path, t), m) && !Red(Plug(path, t))
    ensures Bal(t, n) && PathBal(path, n) && Apart(path, t) && (path == [] ==> !Red(t))
  {
    if path == [] {
      n := m;
    } else {
      var f := path[0];
      var n' := UnplugBal(path[1..], Up(f, t), m);
      n := if f.red then n' else n' - 1;
    }
  }

  // ----- height

  function Size<X>(t: Tree<X>): nat {
    match t
    case Nil => 0
    case Node(l, _, _, _, r) => Size(l) + 1 + Size(r)
  }

  function Height<X>(t: Tree<X>): nat {
    match t
    case Nil => 0
    case Node(l, _, _, _, r) => 1 + if Height(l) > Height(r) then Height(l) else Height(r)
  }

  lemma {:induction false} BalHeight<X>(t: Tree<X>, n: nat)
    requires Bal(t, n)
    ensures Bytes.Power2(n) <= Size(t) + 1 && Height(t) <= 2 * n + if Red(t) then 1 else 0
  {
    match t
    case Nil =>
    case Node(l, _, _, red, r) =>
      BalHeight(l, if red then n else n - 1);
      BalHeight(r, if red then n else n - 1);
  }

  /** The height is at most twice the binary logarithm of the size plus one. */
  lemma HeightBound<X>(t: Tree<X>) returns (n: nat)
    requires Valid(t)
    ensures Height(t) <= 2 * n && Bytes.Power2(n) <= Size(t) + 1
  {
    n :| Bal(t, n);
    BalHeight(t, n);
  }

  // ----- the steps of rebalancing after an insertion

  function Blacken<X>(t: Tree<X>): Tree<X> {
    match t
    case Nil => Nil
    case Node(l, x, k, _, r) => Node(l, x, k, false, r)
  }

  /** What the loop after an insertion keeps: a red tree at the position, all else in order. */
  ghost predicate Inserting<X>(path: Path<X>, t: Tree<X>, n: nat) {
    && Red(t) && Bal(t, n) && PathBal(path, n)
    && Sorted(t) && Fits(path, Keys(t))
  }

  /** A red uncle: both are blackened, and the red moves to the grandparent. */
  function PushUp<X>(path: Path<X>, t: Tree<X>): Tree<X>
    requires |path| >= 2
  {
    var f, g := path[0], path[1];
    Make(g.side, Make(f.side, t, f.x, f.key, false, f.other), g.x, g.key, true, Blacken(g.other))
  }

  /** A black uncle, and the red node on the same side of its parent as the parent of the grandparent: one
      rotation. */
  function RotateOuter<X>(path: Path<X>, t: Tree<X>): Tree<X>
    requires |path| >= 2
  {
    var f, g := path[0], path[1];
    Make(g.side, t, f.x, f.key, false, Make(g.side, f.other, g.x, g.key, true, g.other))
  }

  /** The red node on the other side: a rotation at the parent brings it to the outer side. */
  function Cis<X>(side: Side, t: Tree<X>): Tree<X>
    requires t.Node?
  {
    if side.L? then t.left else t.right
  }

  function Trans<X>(side: Side, t: Tree<X>): Tree<X>
    requires t.Node?
  {
    if side.L? then t.right else t.left
  }

  function RotateInner<X>(path: Path<X>, t: Tree<X>): (Path<X>, Tree<X>)
    requires |path| >= 2 && t.Node?
  {
    var f, g := path[0], path[1];
    ([Frame(g.side, t.x, t.key, true, Trans(g.side, t))] + path[1..],
     Make(g.side, f.other, f.x, f.key, true, Cis(g.side, t)))
  }

  lemma {:induction false} BlackenBal<X>(t: Tree<X>, n: nat)
    requires Bal(t, n)
    ensures Red(t) ==> Bal(Blacken(t), n + 1)
    ensures Keys(Blacken(t)) == Keys(t) && (Sorted(t) ==> Sorted(Blacken(t)))
  {
  }

  lemma FitsUp<X>(path: Path<X>, t: Tree<X>)
    requires path != [] && Sorted(t) && Fits(path, Keys(t))
    ensures Sorted(Up(path[0], t)) && Fits(path[1..], Keys(Up(path[0], t)))
    ensures Keys(Up(path[0], t)) == Keys(t) + {path[0].key} + Keys(path[0].other)
  {
    assert Keys(Up(path[0], t)) == Keys(t) + {path[0].key} + Keys(path[0].other);
  }

  lemma GrandparentIsBlack<X>(path: Path<X>, n: nat)
    requires PathBal(path, n) && path != [] && path[0].red
    ensures |path| >= 2 && !path[1].red && !Red(path[0].other) && Bal(path[0].other, n) && Bal(path[1].other, n)
    ensures PathBal(path[2..], n + 1)
  {
    assert path[1..][1..] == path[2..];
  }

  lemma PushUpKeeps<X>(path: Path<X>, t: Tree<X>, n: nat)
    requires Inserting(path, t, n) && path != [] && path[0].red && |path| >= 2 && Red(path[1].other)
    ensures Inserting(path[2..], PushUp(path, t), n + 1)
    ensures Keys(Plug(path[2..], PushUp(path, t))) == Keys(Plug(path, t))
  {
    var f, g := path[0], path[1];
    GrandparentIsBlack(path, n);
    BlackenBal(g.other, n);
    FitsUp(path, t);
    FitsUp(path[1..], Up(f, t));
    assert path[1..][1..] == path[2..];
    var t' := PushUp(path, t);
    assert Keys(t') == Keys(Up(g, Up(f, t)));
    PlugKeys(path[2..], t');
    PlugKeys(path[2..], Up(g, Up(f, t)));
    assert Plug(path, t) == Plug(path[2..], Up(g, Up(f, t))) by { assert Plug(path[1..], Up(f, t)) == Plug(path[1..][1..], Up(g, Up(f, t))); }
  }

  lemma RotateOuterKeeps<X>(path: Path<X>, t: Tree<X>, n: nat)
    requires Inserting(path, t, n) && path != [] && path[0].red && |path| >= 2
    requires !Red(path[1].other) && path[0].side == path[1].side
    ensures var t' := RotateOuter(path, t);
            && Bal(t', n + 1) && !Red(t') && PathBal(path[2..], n + 1)
            && Sorted(t') && Fits(path[2..], Keys(t'))
            && Keys(Plug(path[2..], t')) == Keys(Plug(path, t))
  {
    var f, g := path[0], path[1];
    GrandparentIsBlack(path, n);
    FitsUp(path, t);
    FitsUp(path[1..], Up(f, t));
    assert path[1..][1..] == path[2..];
    var t' := RotateOuter(path, t);
    assert Keys(t') == Keys(Up(g, Up(f, t)));
    PlugKeys(path[2..], t');
    PlugKeys(path[2..], Up(g, Up(f, t)));
    assert Plug(path, t) == Plug(path[2..], Up(g, Up(f, t))) by { assert Plug(path[1..], Up(f, t)) == Plug(path[1..][1..], Up(g, Up(f, t))); }
  }

  predicate Between<X>(l: Tree<X>, k: int, r: Tree<X>) {
    Sorted(l) && Sorted(r) && (forall j | j in Keys(l) :: j < k) && (forall j | j in Keys(r) :: k < j)
  }

  lemma RotationToLeft<X>(a: Tree<X>, p: X, pk: int, pr: bool, b: Tree<X>, q: X, qk: int, qr: bool, c: Tree<X>,
                          pr': bool, qr': bool)
    ensures var t, t' := Node(a, p, pk, pr, Node(b, q, qk, qr, c)), Node(Node(a, p, pk, pr', b), q, qk, qr', c);
            Keys(t) == Keys(t') && (Sorted(t) <==> Sorted(t'))
  {
    var inner, inner' := Node(b, q, qk, qr, c), Node(a, p, pk, pr', b);
    assert Keys(inner) == Keys(b) + {qk} + Keys(c) && qk in Keys(inner);
    assert Keys(inner') == Keys(a) + {pk} + Keys(b) && pk in Keys(inner');
    assert Between(a, pk, inner) && Between(b, qk, c) <==> Between(inner', qk, c) && Between(a, pk, b);
    hide Keys;
  }

  /** A rotation changes neither the keys nor their order. */
  lemma Rotation<X>(side: Side, a: Tree<X>, p: X, pk: int, pr: bool, b: Tree<X>, q: X, qk: int, qr: bool, c: Tree<X>,
                    pr': bool, qr': bool)
    ensures var t, t' := Make(side, a, p, pk, pr, Make(side, b, q, qk, qr, c)), Make(side, Make(side, a, p, pk, pr', b), q, qk, qr', c);
            Keys(t) == Keys(t') && (Sorted(t) <==> Sorted(t'))
  {
    hide Keys, Sorted;
    if side.L? {
      RotationToLeft(a, p, pk, pr, b, q, qk, qr, c, pr', qr');
    } else {
      RotationToLeft(c, q, qk, qr', b, p, pk, pr', a, qr, pr);
    }
  }

  lemma MadeOf<X>(side: Side, t: Tree<X>)
    requires t.Node?
    ensures t == Make(side, Cis(side, t), t.x, t.key, t.red, Trans(side, t))
  {
  }

  lemma FitsDown<X>(path: Path<X>, t: Tree<X>)
    requires path != [] && Sorted(Up(path[0], t)) && Fits(path[1..], Keys(Up(path[0], t)))
    ensures Sorted(t) && Fits(path, Keys(t))
  {
    assert Keys(Up(path[0], t)) == Keys(t) + {path[0].key} + Keys(path[0].other);
  }

  lemma RotateInnerOrder<X>(path: Path<X>, t: Tree<X>)
    requires t.Node? && Sorted(t) && Fits(path, Keys(t)) && |path| >= 2 && path[0].side != path[1].side
    ensures var (path', t') := RotateInner(path, t);
            Sorted(t') && Fits(path', Keys(t')) && Keys(Plug(path', t')) == Keys(Plug(path, t))
  {
    var f, g := path[0], path[1];
    FitsUp(path, t);
    var (path', t') := RotateInner(path, t);
    assert path'[1..] == path[1..];
    MadeOf(g.side, t);
    Rotation(g.side, f.other, f.x, f.key, f.red, Cis(g.side, t), t.x, t.key, t.red, Trans(g.side, t), true, true);
    FitsDown(path', t');
    PlugKeys(path[1..], Up(f, t));
    PlugKeys(path[1..], Up(path'[0], t'));
  }

  lemma RotateInnerKeeps<X>(path: Path<X>, t: Tree<X>, n: nat)
    requires Inserting(path, t, n) && path != [] && path[0].red && |path| >= 2 && path[0].side != path[1].side
    ensures var (path', t') := RotateInner(path, t);
            && Inserting(path', t', n) && path'[0].red && |path'| == |path| && path'[1..] == path[1..]
            && path'[0].side == path'[1].side && Keys(Plug(path', t')) == Keys(Plug(path, t))
  {
    GrandparentIsBlack(path, n);
    RotateInnerOrder(path, t);
    assert RotateInner(path, t).0[1..] == path[1..];
  }

  /** After the outer rotation the red tree hangs below the old parent, which is black. */
  function OuterPath<X>(path: Path<X>): Path<X>
    requires |path| >= 2
  {
    var f, g := path[0], path[1];
    [Frame(g.side, f.x, f.key, false, Make(g.side, f.other, g.x, g.key, true, g.other))] + path[2..]
  }

  lemma OuterPathKeeps<X>(path: Path<X>, t: Tree<X>, n: nat)
    requires Inserting(path, t, n) && path != [] && path[0].red && |path| >= 2
    requires !Red(path[1].other) && path[0].side == path[1].side
    ensures Inserting(OuterPath(path), t, n)
    ensures Plug(OuterPath(path), t) == Plug(path[2..], RotateOuter(path, t))
    ensures Keys(Plug(OuterPath(path), t)) == Keys(Plug(path, t))
  {
    var path' := OuterPath(path);
    RotateOuterKeeps(path, t, n);
    GrandparentIsBlack(path, n);
    assert path'[1..] == path[2..] && Up(path'[0], t) == RotateOuter(path, t);
    FitsDown(path', t);
  }

  /** A new red leaf. */
  lemma {:induction false} FitsKey<X>(path: Path<X>, ks: set<int>, key: int)
    requires Fits(path, ks) && KeyFits(path, key)
    ensures Fits(path, ks + {key})
  {
    if path != [] {
      var js := {path[0].key} + Keys(path[0].other);
      FitsKey(path[1..], ks + {path[0].key} + Keys(path[0].other), key);
      assert ks + {path[0].key} + Keys(path[0].other) + {key} == (ks + {key}) + {path[0].key} + Keys(path[0].other);
    }
  }

  /** The key belongs at this position, by the comparisons on the way down. */
  predicate KeyFits<X>(path: Path<X>, key: int) {
    path == [] || ((if path[0].side.L? then key < path[0].key else path[0].key < key) && KeyFits(path[1..], key))
  }

  lemma LeafKeeps<X>(path: Path<X>, x: X, key: int) returns (n: nat)
    requires Valid(Plug(path, Nil)) && KeyFits(path, key)
    ensures Inserting(path, Node(Nil, x, key, true, Nil), n)
    ensures Keys(Plug(path, Node(Nil, x, key, true, Nil))) == Keys(Plug<X>(path, Nil)) + {key}
  {
    var t := Node(Nil, x, key, true, Nil);
    var m: nat :| Bal(Plug<X>(path, Nil), m);
    n := UnplugBal(path, Nil, m);
    PlugSorted<X>(path, Nil);
    FitsKey<X>(path, {}, key);
    assert {} + {key} == Keys(t);
    PlugKeys<X>(path, Nil);
    PlugKeys(path, t);
  }

  /** At the end the root is painted black. */
  lemma InsertDone<X>(path: Path<X>, t: Tree<X>, n: nat)
    requires Inserting(path, t, n) && (path == [] || !path[0].red)
    ensures Valid(Blacken(Plug(path, t))) && Keys(Blacken(Plug(path, t))) == Keys(Plug(path, t))
  {
    PlugSorted(path, t);
    BlackenKeys(Plug(path, t));
    if path == [] {
      BlackenBal(t, n);
    } else {
      var m := PlugBal(path, t, n);
      assert Blacken(Plug(path, t)) == Plug(path, t);
    }
  }

  // ----- the steps of rebalancing after a removal

  /** What the loop after a removal keeps: one black node is missing at the position. */
  ghost predicate Removing<X>(path: Path<X>, t: Tree<X>, n: nat) {
    && !Red(t) && Bal(t, n) && PathBal(path, n + 1)
    && Sorted(t) && Fits(path, Keys(t))
  }

  /** The loop is done: the position holds a tree that can stay there. */
  ghost predicate Settled<X>(path: Path<X>, t: Tree<X>, n: nat) {
    && Bal(t, n) && PathBal(path, n) && Apart(path, t) && (path == [] ==> !Red(t))
    && Sorted(t) && Fits(path, Keys(t))
  }

  /** A red sibling: a rotation at the parent brings its black child beside the position. */
  function RedSibling<X>(path: Path<X>): Path<X>
    requires path != [] && path[0].other.Node?
  {
    var f := path[0];
    var s := f.other;
    [Frame(f.side, f.x, f.key, true, Cis(f.side, s)), Frame(f.side, s.x, s.key, false, Trans(f.side, s))] + path[1..]
  }

  /** A black sibling with black children: it turns red, and the parent is where the black node is missing. */
  function Redden<X>(t: Tree<X>): Tree<X>
    requires t.Node?
  {
    Node(t.left, t.x, t.key, true, t.right)
  }

  function PaintSibling<X>(path: Path<X>, t: Tree<X>): Tree<X>
    requires path != [] && path[0].other.Node?
  {
    var f := path[0];
    Make(f.side, t, f.x, f.key, f.red, Redden(f.other))
  }

  /** The sibling's red child on the near side: a rotation at the sibling brings it to the far side. */
  function NearNephew<X>(path: Path<X>): Path<X>
    requires path != [] && path[0].other.Node? && Cis(path[0].side, path[0].other).Node?
  {
    var f := path[0];
    var s := f.other;
    var c := Cis(f.side, s);
    [Frame(f.side, f.x, f.key, f.red,
           Make(f.side, Cis(f.side, c), c.x, c.key, false, Make(f.side, Trans(f.side, c), s.x, s.key, true, Trans(f.side, s))))] + path[1..]
  }

  /** The sibling's red child on the far side: a rotation at the parent adds the missing black node. */
  function FarNephew<X>(path: Path<X>, t: Tree<X>): Tree<X>
    requires path != [] && path[0].other.Node?
  {
    var f := path[0];
    var s := f.other;
    Make(f.side, Make(f.side, t, f.x, f.key, false, Cis(f.side, s)), s.x, s.key, f.red, Blacken(Trans(f.side, s)))
  }

  lemma PlugStep<X>(path: Path<X>, t: Tree<X>)
    requires path != []
    ensures Plug(path, t) == Plug(path[1..], Up(path[0], t))
  {
  }

  lemma SameKeys<X>(path: Path<X>, t: Tree<X>, t': Tree<X>)
    requires Keys(t) == Keys(t')
    ensures Keys(Plug(path, t)) == Keys(Plug(path, t'))
  {
    PlugKeys(path, t);
    PlugKeys(path, t');
  }

  lemma SiblingExists<X>(path: Path<X>, t: Tree<X>, n: nat)
    requires Removing(path, t, n) && path != []
    ensures path[0].other.Node? && Bal(path[0].other, n + 1)
  {
  }

  lemma RedSiblingKeeps<X>(path: Path<X>, t: Tree<X>, n: nat)
    requires Removing(path, t, n) && path != [] && Red(path[0].other)
    ensures var path' := RedSibling(path);
            && Removing(path', t, n) && path'[0].red && !Red(path'[0].other)
            && Keys(Plug(path', t)) == Keys(Plug(path, t))
  {
    var f := path[0];
    var s := f.other;
    var path' := RedSibling(path);
    MadeOf(f.side, s);
    FitsUp(path, t);
    Rotation(f.side, t, f.x, f.key, f.red, Cis(f.side, s), s.x, s.key, s.red, Trans(f.side, s), true, false);
    assert path'[1..][1..] == path[1..] && path'[1..][0] == Frame(f.side, s.x, s.key, false, Trans(f.side, s));
    FitsDown(path'[1..], Up(path'[0], t));
    FitsDown(path', t);
    PlugStep(path, t);
    PlugStep(path', t);
    PlugStep(path'[1..], Up(path'[0], t));
    SameKeys(path[1..], Up(f, t), Up(path'[1], Up(path'[0], t)));
    SiblingBlack(path, n);
  }

  lemma SiblingBlack<X>(path: Path<X>, n: nat)
    requires PathBal(path, n + 1) && path != [] && Red(path[0].other)
    ensures PathBal(RedSibling(path), n + 1) && !path[0].red && !Red(RedSibling(path)[0].other)
  {
    var f := path[0];
    MadeOf(f.side, f.other);
    var path' := RedSibling(path);
    assert path'[1..][1..] == path[1..];
  }

  lemma PaintSiblingKeeps<X>(path: Path<X>, t: Tree<X>, n: nat)
    requires Removing(path, t, n) && path != [] && path[0].other.Node? && !Red(path[0].other)
    requires !Red(path[0].other.left) && !Red(path[0].other.right)
    ensures var t' := PaintSibling(path, t);
            && (if path[0].red then Settled(path[1..], Blacken(t'), n + 1) else Removing(path[1..], t', n + 1))
            && Keys(Plug(path[1..], t')) == Keys(Plug(path, t))
            && Keys(Plug(path[1..], Blacken(t'))) == Keys(Plug(path, t))
  {
    var f := path[0];
    var t' := PaintSibling(path, t);
    FitsUp(path, t);
    BlackenKeys(t');
    assert Keys(t') == Keys(Up(f, t));
    PlugStep(path, t);
    SameKeys(path[1..], Up(f, t), t');
    SameKeys(path[1..], Up(f, t), Blacken(t'));
  }

  lemma NearNephewKeeps<X>(path: Path<X>, t: Tree<X>, n: nat)
    requires Removing(path, t, n) && path != [] && path[0].other.Node? && !Red(path[0].other)
    requires var f := path[0]; Red(Cis(f.side, f.other)) && !Red(Trans(f.side, f.other))
    ensures var path' := NearNephew(path); var f' := path'[0];
            && Removing(path', t, n) && f'.other.Node? && !Red(f'.other) && Red(Trans(f'.side, f'.other))
            && path'[1..] == path[1..] && Keys(Plug(path', t)) == Keys(Plug(path, t))
  {
    var f := path[0];
    var s := f.other;
    var c := Cis(f.side, s);
    var path' := NearNephew(path);
    MadeOf(f.side, s);
    MadeOf(f.side, c);
    FitsUp(path, t);
    Rotation(f.side, Cis(f.side, c), c.x, c.key, false, Trans(f.side, c), s.x, s.key, true, Trans(f.side, s), c.red, s.red);
    assert path'[1..] == path[1..];
    assert Keys(path'[0].other) == Keys(s) && Sorted(path'[0].other);
    PlugStep(path, t);
    PlugStep(path', t);
    SameKeys(path[1..], Up(f, t), Up(path'[0], t));
    NearNephewBal(path, n);
  }

  lemma NearNephewBal<X>(path: Path<X>, n: nat)
    requires PathBal(path, n + 1) && path != [] && path[0].other.Node? && !Red(path[0].other)
    requires var f := path[0]; Red(Cis(f.side, f.other)) && !Red(Trans(f.side, f.other))
    ensures var path' := NearNephew(path); var f' := path'[0];
            PathBal(path', n + 1) && f'.other.Node? && !Red(f'.other) && Red(Trans(f'.side, f'.other))
  {
    var f := path[0];
    var s := f.other;
    MadeOf(f.side, s);
    MadeOf(f.side, Cis(f.side, s));
    var c := Cis(f.side, s);
    assert Bal(s, n + 1) && Bal(Trans(f.side, s), n) && Bal(c, n);
    assert Bal(Cis(f.side, c), n) && Bal(Trans(f.side, c), n) && !Red(Cis(f.side, c)) && !Red(Trans(f.side, c));
    var inner := Make(f.side, Trans(f.side, c), s.x, s.key, true, Trans(f.side, s));
    assert Bal(inner, n);
    assert Bal(Make(f.side, Cis(f.side, c), c.x, c.key, false, inner), n + 1);
    assert NearNephew(path)[1..] == path[1..];
  }

  lemma FarNephewKeeps<X>(path: Path<X>, t: Tree<X>, n: nat)
    requires Removing(path, t, n) && path != [] && path[0].other.Node? && !Red(path[0].other)
    requires var f := path[0]; Red(Trans(f.side, f.other))
    ensures var t' := FarNephew(path, t);
            && Settled(path[1..], t', if path[0].red then n + 1 else n + 2)
            && Keys(Plug(path[1..], t')) == Keys(Plug(path, t))
  {
    var f := path[0];
    var s := f.other;
    var far := Trans(f.side, s);
    MadeOf(f.side, s);
    FitsUp(path, t);
    BlackenBal(far, n);
    Rotation(f.side, t, f.x, f.key, f.red, Cis(f.side, s), s.x, s.key, s.red, far, false, f.red);
    FarOrder(f.side, Make(f.side, t, f.x, f.key, false, Cis(f.side, s)), s.x, s.key, f.red, far);
    PlugStep(path, t);
    SameKeys(path[1..], Up(f, t), FarNephew(path, t));
    FarNephewBal(path, t, n);
  }

  lemma FarOrder<X>(side: Side, cis: Tree<X>, x: X, key: int, red: bool, far: Tree<X>)
    ensures var t, t' := Make(side, cis, x, key, red, far), Make(side, cis, x, key, red, Blacken(far));
            Keys(t) == Keys(t') && (Sorted(t) ==> Sorted(t'))
  {
    BlackenKeys(far);
  }

  lemma BlackenKeys<X>(t: Tree<X>)
    ensures Keys(Blacken(t)) == Keys(t) && (Sorted(t) ==> Sorted(Blacken(t)))
  {
  }

  lemma FarNephewBal<X>(path: Path<X>, t: Tree<X>, n: nat)
    requires Bal(t, n) && !Red(t) && PathBal(path, n + 1) && path != [] && path[0].other.Node? && !Red(path[0].other)
    requires var f := path[0]; Red(Trans(f.side, f.other))
    ensures var t' := FarNephew(path, t); var m := if path[0].red then n + 1 else n + 2;
            Bal(t', m) && PathBal(path[1..], m) && Apart(path[1..], t') && (path[1..] == [] ==> !Red(t'))
  {
    var f := path[0];
    MadeOf(f.side, f.other);
    BlackenBal(Trans(f.side, f.other), n);
  }

  // ----- the node that leaves

  /** What is left to do when a node without one of its children has left: nothing, paint the child black, or
      make up for a missing black node. */
  lemma RemoveBalance<X>(path: Path<X>, t: Tree<X>, kid: Tree<X>) returns (n: nat)
    requires Valid(Plug(path, t)) && t.Node?
    requires (t.left == Nil && kid == t.right) || (t.right == Nil && kid == t.left)
    ensures if t.red then Settled(path, kid, n)
            else if Red(kid) then Settled(path, Blacken(kid), n)
            else Removing(path, kid, n)
  {
    var m: nat :| Bal(Plug(path, t), m);
    var b := UnplugBal(path, t, m);
    PlugSorted(path, t);
    FitsFewer(path, Keys(t), Keys(kid));
    BlackenKeys(kid);
    n := if t.red then b else if Red(kid) then 1 else 0;
    if !t.red { BlackenBal(kid, 0); }
  }

  lemma {:induction false} PlugJoin<X>(path: Path<X>, rest: Path<X>, t: Tree<X>)
    ensures Plug(path + rest, t) == Plug(rest, Plug(path, t))
  {
    if path == [] {
      assert path + rest == rest;
    } else {
      assert (path + rest)[1..] == path[1..] + rest;
      PlugJoin(path[1..], rest, Up(path[0], t));
    }
  }

  predicate AllLeft<X>(path: Path<X>) {
    path == [] || (path[0].side.L? && AllLeft(path[1..]))
  }

  lemma {:induction false} AllLeftAbove<X>(path: Path<X>, ks: set<int>, key: int)
    requires Fits(path, ks) && AllLeft(path) && key in ks
    ensures forall j | j in PathKeys(path) :: key < j
  {
    if path != [] {
      AllLeftAbove(path[1..], ks + {path[0].key} + Keys(path[0].other), key);
    }
  }

  /** The leftmost node of the right subtree has the next key, and can stand in for the node above. */
  lemma SuccessorSorted<X>(path: Path<X>, t: Tree<X>, way: Path<X>, s: Tree<X>, x: X)
    requires Sorted(Plug(path, t)) && t.Node? && t.right == Plug(way, s) && AllLeft(way) && s.Node? && s.left == Nil
    ensures var t' := Node(t.left, x, s.key, t.red, Plug(way, s.right));
            Sorted(Plug(path, t')) && Keys(Plug(path, t')) == Keys(Plug(path, t)) - {t.key}
  {
    hide Keys, Sorted, Plug, Fits, PathKeys, AllLeft;
    var t' := Node(t.left, x, s.key, t.red, Plug(way, s.right));
    PlugSorted(path, t);
    RightSorted(t);
    LeftmostKeys(way, s);
    SuccessorKeys(t, t', s.key);
    ReplaceSorted(path, t, t', t.key);
  }

  lemma RightSorted<X>(t: Tree<X>)
    requires Sorted(t) && t.Node?
    ensures Sorted(t.right) && t.key in Keys(t)
  {
  }

  // The leftmost node holds the smallest key.
  lemma LeftmostKeys<X>(way: Path<X>, s: Tree<X>)
    requires Sorted(Plug(way, s)) && AllLeft(way) && s.Node? && s.left == Nil
    ensures var r := Plug(way, s.right);
      && Sorted(r) && Keys(r) + {s.key} == Keys(Plug(way, s)) && forall j | j in Keys(r) :: s.key < j
  {
    hide Plug, Fits, PathKeys, AllLeft;
    PlugSorted(way, s);
    AllLeftAbove(way, Keys(s), s.key);
    FitsFewer(way, Keys(s), Keys(s.right));
    PlugSorted(way, s.right);
    PlugKeys(way, s);
    PlugKeys(way, s.right);
  }

  lemma ReplaceSorted<X>(path: Path<X>, t: Tree<X>, t': Tree<X>, key: int)
    requires Sorted(Plug(path, t)) && Sorted(t') && key in Keys(t) && Keys(t') == Keys(t) - {key}
    ensures Sorted(Plug(path, t')) && Keys(Plug(path, t')) == Keys(Plug(path, t)) - {key}
  {
    hide Keys, Sorted, Plug, Fits, PathKeys;
    PlugSorted(path, t);
    FitsApart(path, Keys(t));
    FitsFewer(path, Keys(t), Keys(t'));
    PlugSorted(path, t');
    PlugKeys(path, t);
    PlugKeys(path, t');
  }

  lemma SuccessorKeys<X>(t: Tree<X>, t': Tree<X>, key: int)
    requires Sorted(t) && t.Node? && t'.Node? && t'.left == t.left && t'.key == key && key in Keys(t.right)
    requires Keys(t'.right) + {key} == Keys(t.right) && Sorted(t'.right) && forall j | j in Keys(t'.right) :: key < j
    ensures Sorted(t') && Keys(t') == Keys(t) - {t.key}
  {
    assert forall j | j in Keys(t.left) :: j < t.key < key;
  }

  /** Another node in one of the frames, with the same colour. */
  lemma {:induction false} FrameSwap<X>(way: Path<X>, f: Frame<X>, f': Frame<X>, path: Path<X>, n: nat)
    requires f'.side == f.side && f'.red == f.red && f'.other == f.other
    ensures PathBal(way + [f'] + path, n) == PathBal(way + [f] + path, n)
  {
    var a, b := way + [f] + path, way + [f'] + path;
    if way == [] {
      assert a[1..] == path && b[1..] == path && a[0] == f && b[0] == f';
    } else {
      assert a[1..] == way[1..] + [f] + path && b[1..] == way[1..] + [f'] + path;
      FrameSwap(way[1..], f, f', path, if way[0].red then n else n + 1);
      assert way[1..] == [] ==> a[1..][0] == f && b[1..][0] == f';
    }
  }

  lemma SwapKeeps<X>(way: Path<X>, f: Frame<X>, f': Frame<X>, path: Path<X>, t: Tree<X>, n: nat)
    requires f'.side == f.side && f'.red == f.red && f'.other == f.other && Sorted(Plug(way + [f'] + path, t))
    ensures Settled(way + [f] + path, t, n) ==> Settled(way + [f'] + path, t, n)
    ensures Settled(way + [f] + path, Blacken(t), n) ==> Settled(way + [f'] + path, Blacken(t), n)
    ensures Removing(way + [f] + path, t, n) ==> Removing(way + [f'] + path, t, n)
  {
    var a, b := way + [f] + path, way + [f'] + path;
    FrameSwap(way, f, f', path, n);
    FrameSwap(way, f, f', path, n + 1);
    PlugSorted(b, t);
    BlackenKeys(t);
    assert a != [] && b != [] && a[0].red == b[0].red;
  }
}
