// The red-black tree of wepoll: nodes with child and parent links, changed in place.
module RbHeap {
  import opened RbTree

  class TreeNode {
    var key: int
    var left: TreeNode?
    var right: TreeNode?
    var parent: TreeNode?
    var red: bool

    function Kid(side: Side): TreeNode?
      reads this
    {
      if side.L? then left else right
    }

    method SetKid(side: Side, kid: TreeNode?)
      modifies this
      ensures Kid(side) == kid && Kid(Other(side)) == old(Kid(Other(side)))
      ensures key == old(key) && parent == old(parent) && red == old(red)
    {
      if side.L? { left := kid; } else { right := kid; }
    }
  }

  type Shape = Tree<TreeNode>
  type Where = Path<TreeNode>

  // ----- nodes that form a tree

  function Ptr(t: Shape): TreeNode? {
    match t
    case Nil => null
    case Node(_, x, _, _, _) => x
  }

  ghost function Nodes(t: Shape): set<TreeNode> {
    match t
    case Nil => {}
    case Node(l, x, _, _, r) => Nodes(l) + {x} + Nodes(r)
  }

  /** The nodes hold the tree t, with all links, below 'parent'. */
  ghost predicate Linked(t: Shape, parent: TreeNode?)
    reads Nodes(t)
  {
    match t
    case Nil => true
    case Node(l, x, k, red, r) =>
      && x.key == k && x.red == red && x.parent == parent
      && x.left == Ptr(l) && x.right == Ptr(r)
      && Linked(l, x) && Linked(r, x)
  }

  ghost function PathNodes(path: Where): set<TreeNode> {
    if path == [] then {} else {path[0].x} + Nodes(path[0].other) + PathNodes(path[1..])
  }

  function Above(path: Where): TreeNode? {
    if path == [] then null else path[0].x
  }

  /** The nodes around a position hold the frames, with 'hole' at the position. */
  ghost predicate LinkedPath(path: Where, hole: TreeNode?)
    reads PathNodes(path)
  {
    path == [] ||
    var f := path[0];
    && f.x.key == f.key && f.x.red == f.red && f.x.parent == Above(path[1..])
    && f.x.Kid(f.side) == hole && f.x.Kid(Other(f.side)) == Ptr(f.other)
    && Linked(f.other, f.x) && LinkedPath(path[1..], f.x)
  }

  lemma {:induction false} TreeAllocated(t: Shape)
    ensures forall n | n in Nodes(t) :: allocated(n)
  {
    if t.Node? { TreeAllocated(t.left); TreeAllocated(t.right); }
  }

  lemma {:induction false} PathAllocated(path: Where)
    ensures forall n | n in PathNodes(path) :: allocated(n)
  {
    if path != [] { TreeAllocated(path[0].other); PathAllocated(path[1..]); }
  }

  lemma {:induction false} NodesOfPlug(path: Where, t: Shape)
    ensures Nodes(Plug(path, t)) == PathNodes(path) + Nodes(t)
  {
    if path != [] { NodesOfPlug(path[1..], Up(path[0], t)); }
  }

  /** A tree is linked exactly when both parts at a position are. */
  lemma {:induction false} LinkedPlug(path: Where, t: Shape)
    ensures Linked(Plug(path, t), null) <==> Linked(t, Above(path)) && LinkedPath(path, Ptr(t))
  {
    if path != [] { LinkedPlug(path[1..], Up(path[0], t)); }
  }

  lemma {:induction false} PtrPlug(path: Where, t: Shape, t': Shape)
    requires path == [] ==> Ptr(t) == Ptr(t')
    ensures Ptr(Plug(path, t)) == Ptr(Plug(path, t'))
  {
    if path != [] { PtrPlug(path[1..], Up(path[0], t), Up(path[0], t')); }
  }

  // ----- keys keep the nodes apart

  lemma {:induction false} NodeKeys(t: Shape, parent: TreeNode?)
    requires Linked(t, parent)
    ensures forall x | x in Nodes(t) :: x.key in Keys(t)
  {
    match t
    case Nil =>
    case Node(l, x, _, _, r) => NodeKeys(l, x); NodeKeys(r, x);
  }

  lemma {:induction false} PathNodeKeys(path: Where, hole: TreeNode?)
    requires LinkedPath(path, hole)
    ensures forall x | x in PathNodes(path) :: x.key in PathKeys(path)
  {
    if path != [] {
      NodeKeys(path[0].other, path[0].x);
      PathNodeKeys(path[1..], path[0].x);
    }
  }

  /** No node occurs twice. */
  lemma NodesApart(path: Where, t: Shape)
    requires Linked(Plug(path, t), null) && Sorted(Plug(path, t))
    ensures PathNodes(path) !! Nodes(t)
    ensures t.Node? ==> t.x !in Nodes(t.left) && t.x !in Nodes(t.right) && Nodes(t.left) !! Nodes(t.right)
    ensures path != [] ==> path[0].x !in Nodes(path[0].other) && path[0].x !in PathNodes(path[1..])
                           && Nodes(path[0].other) !! PathNodes(path[1..])
  {
    LinkedPlug(path, t);
    PlugSorted(path, t);
    NodeKeys(t, Above(path));
    PathNodeKeys(path, Ptr(t));
    FitsApart(path, Keys(t));
    if t.Node? {
      NodeKeys(t.left, t.x);
      NodeKeys(t.right, t.x);
      assert forall n | n in Nodes(t.left) :: n.key < t.key;
      assert forall n | n in Nodes(t.right) :: t.key < n.key;
    }
    if path != [] {
      var f := path[0];
      NodeKeys(f.other, f.x);
      PathNodeKeys(path[1..], f.x);
      FitsApart(path[1..], Keys(t) + {f.key} + Keys(f.other));
    }
  }

  class SearchTree {
    var root: TreeNode?
    ghost var shape: Shape

    /** The nodes hold the tree 'shape'. */
    ghost predicate Holds()
      reads this, Nodes(shape)
    {
      root == Ptr(shape) && Linked(shape, null) && Sorted(shape)
    }

    ghost predicate Valid()
      reads this, Nodes(shape)
    {
      Holds() && RbTree.Valid(shape)
    }

    /** 'tree_init' */
    constructor ()
      ensures Valid() && shape == Nil
    {
      root, shape := null, Nil;
      new;
      assert Bal(shape, 0);
    }

    /** 'tree_find' */
    method Find(key: int) returns (node: TreeNode?)
      requires Valid()
      ensures node != null <==> key in Keys(shape)
      ensures node != null ==> node in Nodes(shape) && node.key == key
    {
      node := root;
      ghost var t := shape;
      while node != null
        invariant node == Ptr(t) && Sorted(t) && (key in Keys(t) <==> key in Keys(shape)) && Nodes(t) <= Nodes(shape)
        invariant exists parent :: Linked(t, parent)
        decreases t
      {
        if key < node.key {
          assert Linked(t.left, node);
          node, t := node.left, t.left;
        } else if key > node.key {
          assert Linked(t.right, node);
          node, t := node.right, t.right;
        } else {
          return;
        }
      }
    }

    /** Set the colour of the node at a position. */
    method Paint(node: TreeNode, red: bool, ghost path: Where, ghost t: Shape)
      requires Holds() && shape == Plug(path, t) && t.Node? && t.x == node
      modifies `shape, node`red
      ensures Holds() && shape == Plug(path, Node(t.left, t.x, t.key, red, t.right))
      ensures Nodes(shape) == old(Nodes(shape))
    {
      hide Linked, LinkedPath, Sorted, Keys, Fits, Plug;
      ghost var t' := Node(t.left, t.x, t.key, red, t.right);
      LinkedPlug(path, t);
      NodesApart(path, t);
      PaintKeeps(path, t, t');
      TreeAllocated(t.left);
      TreeAllocated(t.right);
      PathAllocated(path);
      TopOfTree(t, Above(path));
      node.red := red;
      shape := Plug(path, t');
      TopOfTree(t', Above(path));
      LinkedPlug(path, t');
    }

    /** 'tree__rotate_left' and 'tree__rotate_right': the child on the other side of 'cis' goes up. The links of
        four nodes change. */
    method RotateLinks(cis: Side, node: TreeNode, ghost q: TreeNode, ghost b: TreeNode?, ghost up: TreeNode?)
      requires node.Kid(Other(cis)) == q && q.Kid(cis) == b && node.parent == up
      requires node != q && up != node && up != q && b != node && b != q && (b == up ==> b == null)
      requires up != null ==> up.left == node || up.right == node
      modifies `root, node, q, (if up == null then {} else {up}), (if b == null then {} else {b})
      ensures node.parent == q && node.Kid(Other(cis)) == b && node.Kid(cis) == old(node.Kid(cis))
      ensures q.parent == up && q.Kid(cis) == node && q.Kid(Other(cis)) == old(q.Kid(Other(cis)))
      ensures node.key == old(node.key) && node.red == old(node.red) && q.key == old(q.key) && q.red == old(q.red)
      ensures if up == null then root == q else root == old(root)
      ensures up != null ==> up.key == old(up.key) && up.red == old(up.red) && up.parent == old(up.parent)
      ensures up != null ==> if old(up.left) == node then up.left == q && up.right == old(up.right)
                             else up.right == q && up.left == old(up.left)
      ensures b != null ==> b.parent == node && b.key == old(b.key) && b.red == old(b.red)
                            && b.left == old(b.left) && b.right == old(b.right)
    {
      var q' := node.Kid(Other(cis));
      var parent := node.parent;
      if parent != null {
        if parent.left == node { parent.left := q'; } else { parent.right := q'; }
      } else {
        root := q';
      }
      q'.parent := parent;
      node.parent := q';
      node.SetKid(Other(cis), q'.Kid(cis));
      if node.Kid(Other(cis)) != null {
        node.Kid(Other(cis)).parent := node;
      }
      q'.SetKid(cis, node);
    }

    // The same, with what it does to the trees that hang on the four nodes.
    method RotateParts(cis: Side, p: TreeNode, ghost q: TreeNode, ghost path: Where, ghost a: Shape, ghost b: Shape, ghost c: Shape)
      requires p.Kid(Other(cis)) == q && q.Kid(cis) == Ptr(b) && p.Kid(cis) == Ptr(a) && q.Kid(Other(cis)) == Ptr(c)
      requires p.parent == Above(path) && p != q && Linked(a, p) && Linked(b, q) && Linked(c, q) && LinkedPath(path, p)
      requires PartsApart(path, p, q, a, b, c)
      modifies `root, Rim(path, p, q, b)
      ensures p.parent == q && p.Kid(Other(cis)) == Ptr(b) && p.Kid(cis) == Ptr(a)
      ensures q.parent == Above(path) && q.Kid(cis) == p && q.Kid(Other(cis)) == Ptr(c)
      ensures p.key == old(p.key) && p.red == old(p.red) && q.key == old(q.key) && q.red == old(q.red)
      ensures if path == [] then root == q else root == old(root)
      ensures Linked(a, p) && Linked(b, p) && Linked(c, q) && LinkedPath(path, q)
    {
      hide Linked, LinkedPath;
      TreeAllocated(a);
      TreeAllocated(c);
      if b.Node? { TreeAllocated(b.left); TreeAllocated(b.right); }
      if path != [] { TreeAllocated(path[0].other); PathAllocated(path[1..]); }
      TopOfTree(b, q);
      TopOfPath(path, p);
      RotateLinks(cis, p, q, Ptr(b), Above(path));
      TopOfTree(b, p);
      TopOfPath(path, q);
    }

    /** The same as a step of the tree. */
    method Rotate(cis: Side, node: TreeNode, ghost path: Where, ghost a: Shape, ghost b: Shape, ghost q: TreeNode,
                  ghost qk: int, ghost qr: bool, ghost c: Shape)
      requires Holds() && shape == Plug(path, Make(cis, a, node, node.key, node.red, Make(cis, b, q, qk, qr, c)))
      modifies this, Nodes(shape)
      ensures Holds() && Nodes(shape) == old(Nodes(shape))
      ensures shape == Plug(path, Make(cis, Make(cis, a, node, old(node.key), old(node.red), b), q, qk, qr, c))
    {
      hide Sorted, Keys, Fits, PathKeys, Make, Plug, Linked, LinkedPath, PartsApart, Rim, PathNodes;
      ghost var p, pk, pr := node, node.key, node.red;
      ghost var t := Make(cis, a, p, pk, pr, Make(cis, b, q, qk, qr, c));
      ghost var t' := Make(cis, Make(cis, a, p, pk, pr, b), q, qk, qr, c);
      RotationApart(cis, path, a, node, b, q, qk, qr, c);
      RotationNodes(cis, path, a, p, pk, pr, b, q, qk, qr, c);
      RotationSorted(cis, path, a, p, pk, pr, b, q, qk, qr, c);
      MadeLinked(cis, a, p, pk, pr, Make(cis, b, q, qk, qr, c), Above(path));
      MadeLinked(cis, b, q, qk, qr, c, p);
      RotateParts(cis, node, q, path, a, b, c);
      shape := Plug(path, t');
      MadeLinked(cis, a, p, pk, pr, b, q);
      MadeLinked(cis, Make(cis, a, p, pk, pr, b), q, qk, qr, c, Above(path));
      LinkedPlug(path, t');
    }

    // ----- insertion

    /** The way down of 'tree_add': the node with the key, or the empty place for it. */
    method Descend(key: int) returns (found: bool, parent: TreeNode?, side: Side, ghost path: Where)
      requires Valid()
      ensures Valid() && (found ==> key in Keys(shape))
      ensures !found ==> shape == Plug(path, Nil) && KeyFits(path, key) && key !in Keys(shape)
      ensures !found ==> parent == Above(path) && (path != [] ==> side == path[0].side)
    {
      hide Linked, Sorted, Fits, Plug, KeyFits;
      found, parent, side, path := false, root, L, [];
      ghost var t := shape;
      AtRoot(shape, key);
      if parent != null {
        while true
          invariant Valid() && t.Node? && parent == t.x && shape == Plug(path, t) && KeyFits(path, key)
          decreases t
        {
          LinkedPlug(path, t);
          TopOfTree(t, Above(path));
          if key < parent.key {
            DownStep(path, t, L, key);
            path, t, side := Down(path, t, L), t.left, L;
            if parent.left == null { break; }
            parent := parent.left;
          } else if key > parent.key {
            DownStep(path, t, R, key);
            path, t, side := Down(path, t, R), t.right, R;
            if parent.right == null { break; }
            parent := parent.right;
          } else {
            found := true;
            PlugKeys(path, t);
            return;
          }
        }
      }
      AbsentKey(path, key);
    }

    /** Link the new red node at that place. */
    method LinkLeaf(node: TreeNode, key: int, parent: TreeNode?, side: Side, ghost path: Where)
      requires Valid() && node !in Nodes(shape) && shape == Plug(path, Nil) && KeyFits(path, key)
      requires parent == Above(path) && (path != [] ==> side == path[0].side)
      modifies this, node, Nodes(shape)
      ensures Holds() && shape == Plug(path, Node(Nil, node, key, true, Nil))
      ensures Nodes(shape) == old(Nodes(shape)) + {node}
    {
      hide Linked, LinkedPath, Sorted, Fits, Plug;
      ghost var t := Node(Nil, node, key, true, Nil);
      LinkedPlug(path, Nil);
      NodesApart(path, Nil);
      NodesOfPlug(path, Nil);
      NodesOfPlug(path, t);
      TopOfPath(path, null);
      if path != [] { TreeAllocated(path[0].other); PathAllocated(path[1..]); PtrPlug(path, Nil, t); }
      LeafSorted(path, node, key);
      if parent != null {
        parent.SetKid(side, node);
      } else {
        root := node;
        PlugNothing(path, t);
      }
      node.key := key;
      node.left, node.right := null, null;
      node.parent := parent;
      node.red := true;
      shape := Plug(path, t);
      TopOfTree(t, Above(path));
      NoneLinked(node);
      TopOfPath(path, node);
      LinkedPlug(path, t);
    }

    /** A red uncle: the red moves up to the grandparent. */
    method RecolorUp(parent: TreeNode, grandparent: TreeNode, uncle: TreeNode, ghost path: Where, ghost t: Shape)
      requires Holds() && shape == Plug(path, t) && |path| >= 2 && parent == path[0].x && grandparent == path[1].x
      requires path[1].other.Node? && uncle == path[1].other.x
      modifies `shape, parent`red, grandparent`red, uncle`red
      ensures Holds() && shape == Plug(path[2..], PushUp(path, t)) && Nodes(shape) == old(Nodes(shape))
    {
      hide Linked, Sorted, Plug, Nodes;
      ghost var f, g := path[0], path[1];
      ghost var u := Make(f.side, t, f.x, f.key, false, f.other);
      PlugStep(path, t);
      Paint(parent, false, path[1..], Up(f, t));
      assert shape == Plug(path[1..], u);
      PlugStep(path[1..], u);
      ghost var turned := [Frame(Other(g.side), g.x, g.key, g.red, u)] + path[2..];
      assert path[1..][1..] == path[2..] && turned[1..] == path[2..];
      PlugStep(turned, g.other);
      TurnedUp(g, u);
      Paint(uncle, false, turned, g.other);
      PlugStep(turned, Blacken(g.other));
      assert shape == Plug(path[2..], Make(g.side, u, g.x, g.key, g.red, Blacken(g.other)));
      Paint(grandparent, true, path[2..], Make(g.side, u, g.x, g.key, g.red, Blacken(g.other)));
    }

    /** A black uncle: one or two rotations. */
    method RotateUp(cis: Side, node: TreeNode, parent: TreeNode, grandparent: TreeNode, ghost path: Where, ghost t: Shape)
      requires Holds() && shape == Plug(path, t) && |path| >= 2 && parent == path[0].x && grandparent == path[1].x
      requires path[0].side == path[1].side == cis && path[0].red && t.Node?
      modifies this, Nodes(shape)
      ensures Holds() && shape == Plug(OuterPath(path), t) && Nodes(shape) == old(Nodes(shape))
    {
      hide Linked, Sorted, Plug, Nodes;
      ghost var f, g := path[0], path[1];
      InNodes(path, t);
      PlugStep(path, t);
      Paint(parent, false, path[1..], Up(f, t));
      ghost var u := Make(cis, t, f.x, f.key, false, f.other);
      assert shape == Plug(path[1..], u);
      PlugStep(path[1..], u);
      assert path[1..][1..] == path[2..];
      assert shape == Plug(path[2..], Make(cis, u, g.x, g.key, g.red, g.other));
      Paint(grandparent, true, path[2..], Make(cis, u, g.x, g.key, g.red, g.other));
      assert shape == Plug(path[2..], Make(cis, u, g.x, g.key, true, g.other));
      Flip(cis, u, g.x, g.key, true, g.other);
      Flip(cis, t, f.x, f.key, false, f.other);
      KeyAndColour(path[2..], Make(cis, u, g.x, g.key, true, g.other));
      Rotate(Other(cis), grandparent, path[2..], g.other, f.other, f.x, f.key, false, t);
      assert OuterPath(path)[1..] == path[2..];
      PlugStep(OuterPath(path), t);
      Flip(Other(cis), Make(Other(cis), g.other, g.x, g.key, true, f.other), f.x, f.key, false, t);
      Flip(Other(cis), g.other, g.x, g.key, true, f.other);
    }

    /** The red node on the inner side: a rotation at its parent. */
    method RotateIn(cis: Side, node: TreeNode, parent: TreeNode, ghost path: Where, ghost t: Shape)
      requires Holds() && shape == Plug(path, t) && |path| >= 2 && parent == path[0].x && t.Node? && node == t.x
      requires path[1].side == cis && path[0].side == Other(cis) && path[0].red && t.red
      modifies this, Nodes(shape)
      ensures Holds() && shape == Plug(RotateInner(path, t).0, RotateInner(path, t).1) && Nodes(shape) == old(Nodes(shape))
    {
      hide Linked, Sorted, Plug, Nodes;
      ghost var f := path[0];
      PlugStep(path, t);
      MadeOf(cis, t);
      Flip(f.side, t, f.x, f.key, f.red, f.other);
      KeyAndColour(path[1..], Up(f, t));
      Rotate(cis, parent, path[1..], f.other, Cis(cis, t), t.x, t.key, true, Trans(cis, t));
      ghost var path' := RotateInner(path, t).0;
      assert path'[1..] == path[1..];
      PlugStep(path', RotateInner(path, t).1);
    }

    /** One round of the loop of 'tree_add'. */
    method InsertStep(node: TreeNode, parent: TreeNode, ghost path: Where, ghost t: Shape, ghost n: nat)
      returns (next: TreeNode, ghost path': Where, ghost t': Shape, ghost n': nat)
      requires Holds() && shape == Plug(path, t) && Inserting(path, t, n) && t.Node? && node == t.x
      requires path != [] && parent == path[0].x && path[0].red
      modifies this, Nodes(shape)
      ensures Holds() && shape == Plug(path', t') && Inserting(path', t', n') && t'.Node? && next == t'.x
      ensures |path'| < |path| && Keys(shape) == old(Keys(shape)) && Nodes(shape) == old(Nodes(shape))
    {
      hide Linked, Sorted, Plug, Nodes, Keys, Inserting, PushUp;
      InsertingRed(path, t, n);
      InsertingBlackAbove(path, t, n);
      Around(path, t);
      PlugStep(path, t);
      Around(path[1..], Up(path[0], t));
      InNodes(path, t);
      var grandparent := parent.parent;
      var cis := if parent == parent.parent.left then L else R;
      var uncle := grandparent.Kid(Other(cis));
      StepNames(path, t);
      if uncle != null && uncle.red {
        UncleIn(path, t);
        PushUpKeeps(path, t, n);
        RecolorUp(parent, grandparent, uncle, path, t);
        next, path', t', n' := grandparent, path[2..], PushUp(path, t), n + 1;
      } else {
        n' := n;
        next, path', t' := BlackUncle(cis, node, parent, grandparent, path, t, n);
      }
    }

    // The end of the round without a red uncle: a rotation at the parent if the node is its inner child, and one
    // at the grandparent.
    method BlackUncle(cis: Side, node: TreeNode, parent: TreeNode, grandparent: TreeNode, ghost path: Where, ghost t: Shape,
                      ghost n: nat) returns (next: TreeNode, ghost path': Where, ghost t': Shape)
      requires Holds() && shape == Plug(path, t) && Inserting(path, t, n) && t.Node? && node == t.x && |path| >= 2
      requires path[0].red && parent == path[0].x && grandparent == path[1].x && path[1].side == cis && !Red(path[1].other)
      modifies this, Nodes(shape)
      ensures Holds() && shape == Plug(path', t') && Inserting(path', t', n) && t'.Node? && next == t'.x
      ensures |path'| < |path| && Keys(shape) == old(Keys(shape)) && Nodes(shape) == old(Nodes(shape))
    {
      hide Linked, Sorted, Plug, Nodes, Keys, Inserting, RotateInner, OuterPath;
      InsertingRed(path, t, n);
      Around(path, t);
      StepNames(path, t);
      next, path', t' := node, path, t;
      var parent' := parent;
      if node == parent.Kid(Other(cis)) {
        assert path[0].side == Other(cis);
        RotateInnerKeeps(path, t, n);
        RotateIn(cis, node, parent, path, t);
        path', t' := RotateInner(path, t).0, RotateInner(path, t).1;
        next := parent;
        Around(path', t');
        parent' := next.parent;
      }
      assert path'[0].side == cis;
      InsertingRed(path', t', n);
      StepNames(path', t');
      OuterPathKeeps(path', t', n);
      RotateUp(cis, next, parent', grandparent, path', t');
      path' := OuterPath(path');
    }

    /** The loop of 'tree_add'. */
    method FixInsert(start: TreeNode, ghost path0: Where, ghost t0: Shape, ghost n0: nat)
      requires Holds() && shape == Plug(path0, t0) && Inserting(path0, t0, n0) && t0.Node? && start == t0.x
      modifies this, Nodes(shape)
      ensures Valid() && Keys(shape) == old(Keys(shape)) && Nodes(shape) == old(Nodes(shape))
    {
      hide Linked, Sorted, Plug, Nodes, Keys, Inserting;
      var node := start;
      ghost var path, t, n := path0, t0, n0;
      Around(path, t);
      var parent := node.parent;
      while parent != null && parent.red
        invariant Holds() && shape == Plug(path, t) && Inserting(path, t, n) && Keys(shape) == old(Keys(shape))
        invariant t.Node? && node == t.x && parent == Above(path) && (path != [] ==> parent.red == path[0].red)
        invariant Nodes(shape) == old(Nodes(shape))
        decreases |path|
      {
        node, path, t, n := InsertStep(node, parent, path, t, n);
        Around(path, t);
        parent := node.parent;
      }
      InsertDone(path, t, n);
      RootNode(path, t);
      ghost var whole := shape;
      AtRoot(whole, 0);
      Paint(root, false, [], whole);
      AtRoot(Blacken(whole), 0);
      assert shape == Blacken(whole);
    }

    /** 'tree_add': -1 when the key is there already. */
    method Add(node: TreeNode, key: int) returns (result: int)
      requires Valid() && node !in Nodes(shape)
      modifies this, node, Nodes(shape)
      ensures Valid() && result == if key in old(Keys(shape)) then -1 else 0
      ensures result == -1 ==> shape == old(shape)
      ensures result == 0 ==> Keys(shape) == old(Keys(shape)) + {key} && Nodes(shape) == old(Nodes(shape)) + {node}
    {
      hide Linked, Sorted, Plug, Nodes, Keys;
      var found, parent, side;
      ghost var path;
      found, parent, side, path := Descend(key);
      if found {
        return -1;
      }
      ghost var t := Node(Nil, node, key, true, Nil);
      ghost var n := LeafKeeps(path, node, key);
      LinkLeaf(node, key, parent, side, path);
      FixInsert(node, path, t, n);
      result := 0;
    }

    // ----- removal

    /** A red sibling goes up. */
    method SiblingUp(cis: Side, parent: TreeNode, sibling: TreeNode, ghost path: Where, ghost t: Shape)
      requires Holds() && shape == Plug(path, t) && path != [] && parent == path[0].x && path[0].side == cis
      requires path[0].other.Node? && sibling == path[0].other.x
      modifies this, Nodes(shape)
      ensures Holds() && shape == Plug(RedSibling(path), t) && Nodes(shape) == old(Nodes(shape))
    {
      hide Linked, Sorted, Plug, Nodes;
      ghost var f := path[0];
      ghost var s := f.other;
      FrameNodes(path, t);
      PaintOther(sibling, false, path, t);
      ghost var f' := Frame(cis, f.x, f.key, f.red, Node(s.left, s.x, s.key, false, s.right));
      PlugStep([f'] + path[1..], t);
      assert ([f'] + path[1..])[1..] == path[1..];
      Paint(parent, true, path[1..], Up(f', t));
      MadeOf(cis, f'.other);
      KeyAndColour(path[1..], Make(cis, t, f.x, f.key, true, f'.other));
      Rotate(cis, parent, path[1..], t, Cis(cis, s), s.x, s.key, false, Trans(cis, s));
      ghost var path' := RedSibling(path);
      assert path'[1..][1..] == path[1..];
      PlugStep(path', t);
      PlugStep(path'[1..], Up(path'[0], t));
    }

    /** Set the colour of the other child of the parent. */
    method PaintOther(sibling: TreeNode, red: bool, ghost path: Where, ghost t: Shape)
      requires Holds() && shape == Plug(path, t) && path != [] && path[0].other.Node? && sibling == path[0].other.x
      modifies `shape, sibling`red
      ensures Holds() && Nodes(shape) == old(Nodes(shape))
      ensures var f := path[0]; var s := f.other;
              shape == Plug([Frame(f.side, f.x, f.key, f.red, Node(s.left, s.x, s.key, red, s.right))] + path[1..], t)
    {
      hide Linked, Sorted, Plug, Nodes;
      ghost var f := path[0];
      ghost var s := f.other;
      ghost var s' := Node(s.left, s.x, s.key, red, s.right);
      ghost var turned := [Frame(Other(f.side), f.x, f.key, f.red, t)] + path[1..];
      ghost var path' := [Frame(f.side, f.x, f.key, f.red, s')] + path[1..];
      assert turned[1..] == path[1..] && path'[1..] == path[1..];
      PlugStep(path, t);
      PlugStep(turned, s);
      TurnedUp(f, t);
      Paint(sibling, red, turned, s);
      PlugStep(turned, s');
      PlugStep(path', t);
      TurnedUp(path'[0], t);
    }

    /** The sibling's red child on the near side goes up. */
    method NearTurn(cis: Side, sibling: TreeNode, near: TreeNode, ghost path: Where, ghost t: Shape)
      requires Holds() && shape == Plug(path, t) && path != [] && path[0].side == cis
      requires path[0].other.Node? && sibling == path[0].other.x
      requires Cis(cis, path[0].other).Node? && near == Cis(cis, path[0].other).x
      modifies this, Nodes(shape)
      ensures Holds() && shape == Plug(NearNephew(path), t) && Nodes(shape) == old(Nodes(shape))
    {
      hide Linked, Sorted, Plug, Nodes;
      ghost var f, s := path[0], path[0].other;
      ghost var c, d := Cis(cis, s), Trans(cis, s);
      ghost var turned := [Frame(Other(cis), f.x, f.key, f.red, t)] + path[1..];
      ghost var inside := [Frame(cis, s.x, s.key, s.red, d)] + turned;
      assert turned[1..] == path[1..] && inside[1..] == turned;
      PlugStep(path, t);
      PlugStep(turned, s);
      TurnedUp(f, t);
      MadeOf(cis, s);
      MadeOf(cis, c);
      PlugStep(inside, c);
      InNodes(inside, c);
      ghost var c' := Make(cis, Cis(cis, c), c.x, c.key, false, Trans(cis, c));
      Paint(near, false, inside, c);
      MakeRed(cis, c, false);
      PlugStep(inside, c');
      Paint(sibling, true, turned, Make(cis, c', s.x, s.key, s.red, d));
      MakeRed(cis, Make(cis, c', s.x, s.key, s.red, d), true);
      MadeParts(cis, c', s.x, s.key, s.red, d);
      Flip(cis, c', s.x, s.key, true, d);
      Flip(cis, Cis(cis, c), c.x, c.key, false, Trans(cis, c));
      KeyAndColour(turned, Make(cis, c', s.x, s.key, true, d));
      Rotate(Other(cis), sibling, turned, d, Trans(cis, c), c.x, c.key, false, Cis(cis, c));
      ghost var s' := Make(cis, Cis(cis, c), c.x, c.key, false, Make(cis, Trans(cis, c), s.x, s.key, true, d));
      Flip(cis, Cis(cis, c), c.x, c.key, false, Make(cis, Trans(cis, c), s.x, s.key, true, d));
      Flip(cis, Trans(cis, c), s.x, s.key, true, d);
      assert shape == Plug(turned, s');
      ghost var path' := NearNephew(path);
      assert path'[1..] == path[1..];
      PlugStep(turned, s');
      PlugStep(path', t);
      TurnedUp(path'[0], t);
    }

    /** The sibling goes up, in the colour of the parent, and its red child on the far side turns black. */
    method FarTurn(cis: Side, parent: TreeNode, sibling: TreeNode, far: TreeNode, ghost path: Where, ghost t: Shape)
      requires Holds() && shape == Plug(path, t) && path != [] && parent == path[0].x && path[0].side == cis
      requires path[0].other.Node? && sibling == path[0].other.x
      requires Trans(cis, path[0].other).Node? && far == Trans(cis, path[0].other).x
      modifies this, Nodes(shape)
      ensures Holds() && shape == Plug(path[1..], FarNephew(path, t)) && Nodes(shape) == old(Nodes(shape))
    {
      hide Linked, Sorted, Plug, Nodes;
      ghost var f, s := path[0], path[0].other;
      ghost var a, d := Cis(cis, s), Trans(cis, s);
      FrameNodes(path, t);
      FarNode(path, t);
      Around(path, t);
      PaintOther(sibling, parent.red, path, t);
      ghost var s1 := Node(s.left, s.x, s.key, f.red, s.right);
      ghost var f1 := Frame(cis, f.x, f.key, f.red, s1);
      PlugStep([f1] + path[1..], t);
      assert ([f1] + path[1..])[1..] == path[1..];
      Paint(parent, false, path[1..], Up(f1, t));
      ghost var f2 := Frame(cis, f.x, f.key, false, s1);
      MakeRed(cis, Up(f1, t), false);
      assert shape == Plug(path[1..], Up(f2, t));
      ghost var turned := [Frame(Other(cis), f.x, f.key, false, t)] + path[1..];
      ghost var inside := [Frame(Other(cis), s.x, s.key, f.red, a)] + turned;
      assert turned[1..] == path[1..] && inside[1..] == turned;
      TurnedUp(f2, t);
      PlugStep(turned, s1);
      MadeOf(cis, s1);
      Flip(cis, a, s.x, s.key, f.red, d);
      PlugStep(inside, d);
      Paint(far, false, inside, d);
      ghost var d' := Blacken(d);
      PlugStep(inside, d');
      Flip(cis, a, s.x, s.key, f.red, d');
      PlugStep(turned, Make(cis, a, s.x, s.key, f.red, d'));
      TurnedUp(Frame(cis, f.x, f.key, false, Make(cis, a, s.x, s.key, f.red, d')), t);
      assert shape == Plug(path[1..], Make(cis, t, f.x, f.key, false, Make(cis, a, s.x, s.key, f.red, d')));
      KeyAndColour(path[1..], Make(cis, t, f.x, f.key, false, Make(cis, a, s.x, s.key, f.red, d')));
      Rotate(cis, parent, path[1..], t, a, s.x, s.key, f.red, d');
    }

    /** The last step of a round after a removal: a sibling that is black. Either the loop is done, with a tree
        that may stay, or the parent is where a black node is missing. */
    method RemoveBlack(cis: Side, parent: TreeNode, sibling0: TreeNode, ghost path0: Where, ghost t0: Shape, ghost n: nat)
      returns (done: bool, ghost path: Where, ghost t: Shape, ghost m: nat)
      requires Holds() && shape == Plug(path0, t0) && Removing(path0, t0, n) && path0 != [] && parent == path0[0].x
      requires path0[0].side == cis && path0[0].other.Node? && sibling0 == path0[0].other.x && !path0[0].other.red
      modifies this, Nodes(shape)
      ensures Holds() && Nodes(shape) == old(Nodes(shape)) && Keys(shape) == old(Keys(shape)) && shape == Plug(path, t)
      ensures done ==> Settled(path, t, m)
      ensures !done ==> path == path0[1..] && t.Node? && t.x == parent && t.red == path0[0].red
      ensures !done && !t.red ==> Removing(path, t, m)
      ensures !done && t.red ==> Settled(path, Blacken(t), m) && Keys(Plug(path, Blacken(t))) == Keys(shape)
    {
      hide Linked, Sorted, Plug, Nodes, Keys, Removing, Settled, NearNephew, FarNephew, PaintSibling;
      var sibling := sibling0;
      path, t, m := path0, t0, n;
      Nephews(path, t);
      if (sibling.left != null && sibling.left.red) || (sibling.right != null && sibling.right.red) {
        if sibling.Kid(Other(cis)) == null || !sibling.Kid(Other(cis)).red {
          NearNephewKeeps(path, t, n);
          NearTurn(cis, sibling, sibling.Kid(cis), path, t);
          path := NearNephew(path);
          NearNames(path0);
          Around(path, t);
          sibling := parent.Kid(Other(cis));
          Nephews(path, t);
        }
        FarNephewKeeps(path, t, n);
        FarTurn(cis, parent, sibling, sibling.Kid(Other(cis)), path, t);
        done, m := true, if path[0].red then n + 1 else n + 2;
        path, t := path[1..], FarNephew(path, t);
      } else {
        PaintSiblingKeeps(path, t, n);
        FrameNodes(path, t);
        PaintOther(sibling, true, path, t);
        PaintedSibling(path, t);
        done, path, t, m := false, path[1..], PaintSibling(path, t), n + 1;
      }
    }

    /** The loop of 'tree_del'. */
    method FixRemove(node0: TreeNode?, parent0: TreeNode?, ghost path0: Where, ghost t0: Shape, ghost n0: nat)
      requires Holds() && shape == Plug(path0, t0) && Removing(path0, t0, n0)
      requires node0 == Ptr(t0) && parent0 == Above(path0)
      modifies this, Nodes(shape)
      ensures Valid() && Keys(shape) == old(Keys(shape)) && Nodes(shape) == old(Nodes(shape))
    {
      hide Linked, Sorted, Plug, Nodes, Keys, Removing, Settled, RedSibling;
      var node, parent := node0, parent0;
      ghost var path, t, n := path0, t0, n0;
      ghost var whole := shape;
      while true
        invariant Holds() && shape == Plug(path, t) && Keys(shape) == Keys(whole) && Nodes(shape) == Nodes(whole)
        invariant Removing(path, t, n) && node == Ptr(t) && parent == Above(path)
        decreases |path|
      {
        RootIs(path, t);
        if node == root {
          RemovingRoot(path, t, n);
          break;
        }
        assert path != [] by { AtRoot(t, 0); }
        SiblingThere(path, t, n);
        Around(path, t);
        var cis := if node == parent.left then L else R;
        var sibling := parent.Kid(Other(cis));
        ghost var path1 := path;
        if sibling.red {
          RedSiblingKeeps(path, t, n);
          SiblingUp(cis, parent, sibling, path, t);
          path1 := RedSibling(path);
          RedNames(path);
          SiblingThere(path1, t, n);
          Around(path1, t);
          sibling := parent.Kid(Other(cis));
        }
        var done;
        done, path1, t, n := RemoveBlack(cis, parent, sibling, path1, t, n);
        if done {
          node, path := root, path1;
          break;
        }
        node := parent;
        Around(path1, t);
        parent := node.parent;
        if node.red {
          SettledValid(path1, Blacken(t), n);
          InNode(path1, t);
          Paint(node, false, path1, t);
          return;
        }
        path := path1;
      }
      SettledValid(path, t, n);
      if node != null {
        AtRoot(shape, 0);
        RootBlack(shape);
        InNode([], shape);
        Paint(node, false, [], shape);
        AtRoot(Blacken(shape), 0);
      }
    }

    /** The first half of a removal: a node without one of its children leaves, and the other child takes its
        place. */
    method Splice(node: TreeNode, next: TreeNode?, ghost path: Where, ghost t: Shape, ghost kid: Shape)
      requires Holds() && shape == Plug(path, t) && t.Node? && node == t.x && next == Ptr(kid)
      requires (t.left == Nil && kid == t.right) || (t.right == Nil && kid == t.left)
      modifies this, Nodes(shape)
      ensures Holds() && shape == Plug(path, kid) && Nodes(shape) == old(Nodes(shape)) - {node}
      ensures node.key == old(node.key) && node.red == old(node.red)
      ensures node.left == old(node.left) && node.right == old(node.right) && node.parent == old(node.parent)
    {
      hide Linked, LinkedPath, Sorted, Fits, Plug, Nodes, PathNodes;
      LinkedPlug(path, t);
      NodesOfPlug(path, t);
      NodesOfPlug(path, kid);
      TopOfTree(t, Above(path));
      TopOfTree(kid, node);
      KidApart(path, t, kid);
      SpliceSorted(path, t, kid);
      PlugPtr(path, t, kid);
      if kid.Node? { TreeAllocated(kid.left); TreeAllocated(kid.right); }
      Hang(node.parent, node, next, path);
      if next != null {
        next.parent := node.parent;
      }
      shape := Plug(path, kid);
      TopOfTree(kid, Above(path));
      LinkedPlug(path, kid);
    }

    /** Hang another node, or none, where 'node' hangs. */
    method Hang(parent: TreeNode?, node: TreeNode, next: TreeNode?, ghost path: Where)
      requires LinkedPath(path, node) && parent == Above(path)
      requires path != [] ==> path[0].x !in Nodes(path[0].other) + PathNodes(path[1..])
      requires path != [] ==> (parent.left == node <==> path[0].side.L?)
      modifies `root, (if path == [] then {} else {path[0].x})
      ensures LinkedPath(path, next) && root == if path == [] then next else old(root)
    {
      hide Linked, LinkedPath;
      TopOfPath(path, node);
      if path != [] { TreeAllocated(path[0].other); PathAllocated(path[1..]); }
      if parent != null {
        if parent.left == node { parent.left := next; } else { parent.right := next; }
      } else {
        root := next;
      }
      TopOfPath(path, next);
    }

    /** The second half of a removal in the middle: another node takes over the links and the colour. */
    method TakePlace(node: TreeNode, next: TreeNode, ghost path: Where, ghost t: Shape)
      requires Holds() && shape == Plug(path, t) && t.Node? && node == t.x && next !in Nodes(shape)
      requires Sorted(Plug(path, Node(t.left, next, next.key, t.red, t.right)))
      modifies this, next, Nodes(shape)
      ensures Holds() && shape == Plug(path, Node(t.left, next, old(next.key), t.red, t.right))
      ensures Nodes(shape) == old(Nodes(shape)) - {node} + {next}
    {
      hide Linked, LinkedPath, Sorted, Fits, Plug, Nodes, PathNodes;
      ghost var t' := Node(t.left, next, next.key, t.red, t.right);
      LinkedPlug(path, t);
      NodesOfPlug(path, t);
      NodesOfPlug(path, t');
      PlaceApart(path, t, next);
      PlugPtr(path, t, t');
      BuildPlace(node, next, path, t);
      TreeAllocated(t');
      Hang(node.parent, node, next, path);
      shape := Plug(path, t');
      LinkedPlug(path, t');
    }

    // The subtree under its new top.
    method BuildPlace(node: TreeNode, next: TreeNode, ghost path: Where, ghost t: Shape)
      requires Linked(t, Above(path)) && LinkedPath(path, node) && t.Node? && node == t.x && PlaceFits(path, t, next)
      modifies next, Nodes(t.left) + Nodes(t.right)
      ensures Linked(Node(t.left, next, old(next.key), t.red, t.right), Above(path)) && LinkedPath(path, node)
      ensures node.parent == Above(path)
    {
      hide Linked, LinkedPath, Sorted, Fits, Nodes, PathNodes;
      ghost var l, r := t.left, t.right;
      TopOfTree(t, Above(path));
      TopOfTree(l, node);
      TopOfTree(r, node);
      if l.Node? { TreeAllocated(l.left); TreeAllocated(l.right); }
      if r.Node? { TreeAllocated(r.left); TreeAllocated(r.right); }
      PathAllocated(path);
      Connect(node, next, l, r);
      next.parent := node.parent;
      TopOfTree(l, next);
      TopOfTree(r, next);
      TopOfTree(Node(l, next, next.key, t.red, r), Above(path));
    }

    // The children of a node, and its colour, go to another one.
    method Connect(node: TreeNode, next: TreeNode, ghost l: Shape, ghost r: Shape)
      requires node.left == Ptr(l) && node.right == Ptr(r) && node != next
      requires Ptr(l) != node && Ptr(l) != next && Ptr(r) != node && Ptr(r) != next && (l.Node? ==> Ptr(l) != Ptr(r))
      modifies next, (if l.Nil? then {} else {l.x}), (if r.Nil? then {} else {r.x})
      ensures next.left == Ptr(l) && next.right == Ptr(r) && next.red == node.red && next.key == old(next.key)
      ensures l.Node? ==> l.x.parent == next && l.x.key == old(l.x.key) && l.x.red == old(l.x.red)
                          && l.x.left == old(l.x.left) && l.x.right == old(l.x.right)
      ensures r.Node? ==> r.x.parent == next && r.x.key == old(r.x.key) && r.x.red == old(r.x.red)
                          && r.x.left == old(r.x.left) && r.x.right == old(r.x.right)
    {
      next.red := node.red;
      next.left := node.left;
      if node.left != null {
        node.left.parent := next;
      }
      next.right := node.right;
      if node.right != null {
        node.right.parent := next;
      }
    }

    /** The leftmost node of the right subtree. */
    method Successor(node: TreeNode, ghost path: Where, ghost t: Shape)
      returns (next: TreeNode, ghost way: Where, ghost s: Shape)
      requires Valid() && shape == Plug(path, t) && t.Node? && node == t.x && t.right.Node?
      ensures Valid() && AllLeft(way) && t.right == Plug(way, s) && s.Node? && s.left == Nil && next == s.x
      ensures shape == Plug(way + [Frame(R, t.x, t.key, t.red, t.left)] + path, s)
    {
      hide Linked, Sorted, Plug, AllLeft;
      ghost var f := Frame(R, t.x, t.key, t.red, t.left);
      way, s := [], t.right;
      WayStart(path, t, f);
      Position(path, t);
      next := node.right;
      Position(way + [f] + path, s);
      while next.left != null
        invariant Valid() && s.Node? && next == s.x && AllLeft(way) && t.right == Plug(way, s)
        invariant shape == Plug(way + [f] + path, s) && next.left == Ptr(s.left)
        decreases s
      {
        WayDown(way, s, f, path);
        next := next.left;
        way, s := Down(way, s, L), s.left;
        Position(way + [f] + path, s);
      }
    }

    /** 'tree_del' */
    method Del(node: TreeNode)
      requires Valid() && node in Nodes(shape)
      modifies this, Nodes(shape)
      ensures Valid() && Keys(shape) == old(Keys(shape)) - {old(node.key)} && Nodes(shape) == old(Nodes(shape)) - {node}
    {
      hide Linked, Sorted, Plug, Nodes, Keys, Removing, Settled;
      ghost var path, t := Locate(shape, node);
      Position(path, t);
      var kid: TreeNode?, parent: TreeNode?, red;
      ghost var at: Where, k: Shape, n: nat;
      if node.left == null || node.right == null {
        red, parent := node.red, node.parent;
        kid := if node.left == null then node.right else node.left;
        at, k := path, if t.left.Nil? then t.right else t.left;
        n := RemoveBalance(path, t, k);
        KidKeys(path, t, k);
        Splice(node, kid, path, t, k);
      } else {
        red, kid, parent, at, k, n := DelMiddle(node, path, t);
      }
      if red {
        SettledValid(at, k, n);
        return;
      }
      Position(at, k);
      if kid != null && kid.red {
        BlackenKept(at, k, n);
        SettledValid(at, Blacken(k), n);
        InNode(at, k);
        Paint(kid, false, at, k);
        return;
      }
      FixRemove(kid, parent, at, k, n);
    }

    /** The case of two children: the successor leaves its place and takes that of the node. */
    method DelMiddle(node: TreeNode, ghost path: Where, ghost t: Shape)
      returns (red: bool, kid: TreeNode?, parent: TreeNode, ghost at: Where, ghost k: Shape, ghost n: nat)
      requires Valid() && shape == Plug(path, t) && t.Node? && node == t.x && t.left.Node? && t.right.Node?
      modifies this, Nodes(shape)
      ensures Holds() && shape == Plug(at, k) && kid == Ptr(k) && parent == Above(at)
      ensures Nodes(shape) == old(Nodes(shape)) - {node} && Keys(shape) == old(Keys(shape)) - {t.key}
      ensures if red then Settled(at, k, n) else if Red(k) then Settled(at, Blacken(k), n) else Removing(at, k, n)
    {
      hide Linked, Sorted, Plug, Nodes, Keys, Removing, Settled;
      ghost var way, s;
      var next;
      next, way, s := Successor(node, path, t);
      ghost var f, f' := Frame(R, t.x, t.key, t.red, t.left), Frame(R, next, s.key, t.red, t.left);
      ghost var from := way + [f] + path;
      at, k := way + [f'] + path, s.right;
      Position(from, s);
      Around(from, s);
      n := RemoveBalance(from, s, k);
      SuccessorSorted(path, t, way, s, next);
      InNode(from, s);
      SuccessorApart(way, f, path, s);
      Position(path, t);
      red, kid := next.red, next.right;
      parent := if next != node.right then next.parent else next;
      ParentAt(way, f, f', path);
      WayJoins(way, f, path, t, k);
      Splice(next, next.right, from, s, k);
      Position(path, Node(t.left, t.x, t.key, t.red, Plug(way, k)));
      TakePlace(node, next, path, Node(t.left, t.x, t.key, t.red, Plug(way, k)));
      WayJoins(way, f', path, Node(t.left, next, s.key, t.red, t.right), k);
      SwapKeeps(way, f, f', path, k, n);
    }
  }

  // The node at a position, by its links.
  lemma Position(path: Where, t: Shape)
    requires Linked(Plug(path, t), null)
    ensures t.Node? ==> t.x.left == Ptr(t.left) && t.x.right == Ptr(t.right) && t.x.parent == Above(path)
                        && t.x.key == t.key && t.x.red == t.red
  {
    LinkedPlug(path, t);
  }

  lemma WayStart(path: Where, t: Shape, f: Frame<TreeNode>)
    requires t.Node? && f == Frame(R, t.x, t.key, t.red, t.left)
    ensures Plug([], t.right) == t.right && AllLeft<TreeNode>([]) && Plug([] + [f] + path, t.right) == Plug(path, t)
  {
    assert [] + [f] + path == [f] + path && ([f] + path)[1..] == path;
    assert Up(f, t.right) == t;
  }

  lemma WayDown(way: Where, s: Shape, f: Frame<TreeNode>, path: Where)
    requires s.Node? && s.left.Node?
    ensures Plug(Down(way, s, L), s.left) == Plug(way, s) && (AllLeft(way) ==> AllLeft(Down(way, s, L)))
    ensures Plug(Down(way, s, L) + [f] + path, s.left) == Plug(way + [f] + path, s)
  {
    DownStep(way, s, L, 0);
    DownStep(way + [f] + path, s, L, 0);
    assert Down(way, s, L) + [f] + path == Down(way + [f] + path, s, L);
    assert Down(way, s, L)[1..] == way;
  }

  /** Every node of a tree has a position. */
  lemma {:induction false} Locate(t: Shape, x: TreeNode) returns (path: Where, s: Shape)
    requires x in Nodes(t)
    ensures Plug(path, s) == t && s.Node? && s.x == x
  {
    if x == t.x {
      path, s := [], t;
    } else if x in Nodes(t.left) {
      path, s := Locate(t.left, x);
      var f := Frame(L, t.x, t.key, t.red, t.right);
      PlugJoin(path, [f], s);
      assert [f][1..] == [];
      path := path + [f];
    } else {
      path, s := Locate(t.right, x);
      var f := Frame(R, t.x, t.key, t.red, t.left);
      PlugJoin(path, [f], s);
      assert [f][1..] == [];
      path := path + [f];
    }
  }

  lemma KidKeys(path: Where, t: Shape, kid: Shape)
    requires Sorted(Plug(path, t)) && t.Node?
    requires (t.left == Nil && kid == t.right) || (t.right == Nil && kid == t.left)
    ensures Keys(Plug(path, kid)) == Keys(Plug(path, t)) - {t.key}
  {
    hide Keys, Plug, Sorted, PathKeys, Fits;
    PlugSorted(path, t);
    FitsApart(path, Keys(t));
    PlugKeys(path, t);
    PlugKeys(path, kid);
    OneKey(t, kid);
    assert t.key !in PathKeys(path);
  }

  lemma OneKey(t: Shape, kid: Shape)
    requires Sorted(t) && t.Node?
    requires (t.left == Nil && kid == t.right) || (t.right == Nil && kid == t.left)
    ensures t.key in Keys(t) && Keys(kid) == Keys(t) - {t.key}
  {
  }

  lemma BlackenKept(path: Where, t: Shape, n: nat)
    requires t.Node?
    ensures Keys(Plug(path, Blacken(t))) == Keys(Plug(path, t))
  {
    BlackenKeys(t);
    SameKeys(path, t, Blacken(t));
  }

  lemma {:induction false} WayNodes(way: Where, f: Frame<TreeNode>, path: Where)
    ensures f.x in PathNodes(way + [f] + path) && PathNodes(way) <= PathNodes(way + [f] + path)
  {
    if way == [] {
      assert way + [f] + path == [f] + path;
    } else {
      assert (way + [f] + path)[1..] == way[1..] + [f] + path;
      WayNodes(way[1..], f, path);
    }
  }

  /** The successor is another node, and is the right child itself exactly when the way to it is empty. */
  lemma SuccessorApart(way: Where, f: Frame<TreeNode>, path: Where, s: Shape)
    requires Linked(Plug(way + [f] + path, s), null) && Sorted(Plug(way + [f] + path, s)) && s.Node?
    ensures s.x != f.x && (Ptr(Plug(way, s)) == s.x <==> way == [])
  {
    NodesApart(way + [f] + path, s);
    WayNodes(way, f, path);
    assert s.x in Nodes(s);
    if way != [] { TopNode(way, s); }
  }

  // The parent of the place that the successor leaves.
  lemma ParentAt(way: Where, f: Frame<TreeNode>, f': Frame<TreeNode>, path: Where)
    ensures way == [] ==> Above(way + [f] + path) == f.x && Above(way + [f'] + path) == f'.x
    ensures way != [] ==> Above(way + [f] + path) == Above(way + [f'] + path) == way[0].x
  {
  }

  lemma WayJoins(way: Where, f: Frame<TreeNode>, path: Where, t: Shape, k: Shape)
    requires t.Node? && f == Frame(R, t.x, t.key, t.red, t.left)
    ensures Plug(way + [f] + path, k) == Plug(path, Node(t.left, t.x, t.key, t.red, Plug(way, k)))
  {
    PlugJoin(way, [f] + path, k);
    assert way + [f] + path == way + ([f] + path);
    assert ([f] + path)[1..] == path;
    assert Up(f, Plug(way, k)) == Node(t.left, t.x, t.key, t.red, Plug(way, k));
  }

  ghost predicate PlaceFits(path: Where, t: Shape, next: TreeNode)
    requires t.Node?
  {
    var l, r := t.left, t.right;
    && t.x !in Nodes(l) + Nodes(r) + PathNodes(path) && Nodes(l) !! Nodes(r) && PathNodes(path) !! Nodes(l) + Nodes(r)
    && (l.Node? ==> l.x in Nodes(l) && l.x !in Nodes(l.left) + Nodes(l.right) && Nodes(l.left) + Nodes(l.right) <= Nodes(l))
    && (r.Node? ==> r.x in Nodes(r) && r.x !in Nodes(r.left) + Nodes(r.right) && Nodes(r.left) + Nodes(r.right) <= Nodes(r))
    && next !in PathNodes(path) + Nodes(l) + Nodes(r) + {t.x}
  }

  // The parts around a node whose place another one takes.
  lemma PlaceApart(path: Where, t: Shape, next: TreeNode)
    requires Linked(Plug(path, t), null) && Sorted(Plug(path, t)) && t.Node? && next !in Nodes(Plug(path, t))
    ensures PlaceFits(path, t, next)
    ensures var l, r := t.left, t.right;
            Nodes(t) == Nodes(l) + {t.x} + Nodes(r) && Nodes(Node(l, next, next.key, t.red, r)) == Nodes(l) + {next} + Nodes(r)
    ensures path != [] ==> path[0].x in PathNodes(path) && path[0].x !in Nodes(path[0].other) + PathNodes(path[1..])
    ensures path != [] ==> (path[0].x.left == t.x <==> path[0].side.L?)
  {
    hide Linked, Sorted, Keys, Plug;
    NodesApart(path, t);
    NodesOfPlug(path, t);
    Around(path, t);
    if t.left.Node? { ChildApart(path, t, L); }
    if t.right.Node? { ChildApart(path, t, R); }
  }

  lemma PlugPtr(path: Where, t: Shape, t': Shape)
    ensures path == [] ==> Plug(path, t) == t && Plug(path, t') == t'
    ensures path != [] ==> Ptr(Plug(path, t)) == Ptr(Plug(path, t'))
  {
    if path != [] { PtrPlug(path, t, t'); }
  }

  lemma InNode(path: Where, t: Shape)
    requires t.Node?
    ensures t.x in Nodes(Plug(path, t))
  {
    NodesOfPlug(path, t);
  }

  // A child and the nodes around its parent.
  lemma KidApart(path: Where, t: Shape, kid: Shape)
    requires Linked(Plug(path, t), null) && Sorted(Plug(path, t)) && t.Node?
    requires (t.left == Nil && kid == t.right) || (t.right == Nil && kid == t.left)
    ensures Nodes(t) == Nodes(kid) + {t.x} && t.x !in Nodes(kid) && PathNodes(path) !! Nodes(t)
    ensures kid.Node? ==> kid.x !in Nodes(kid.left) + Nodes(kid.right) && kid.x != t.x && kid.x !in PathNodes(path)
    ensures kid.Node? ==> t.x !in Nodes(kid.left) + Nodes(kid.right) && PathNodes(path) !! Nodes(kid.left) + Nodes(kid.right)
    ensures kid.Node? ==> kid.x in Nodes(t)
    ensures path != [] ==> path[0].x in PathNodes(path) && path[0].x !in Nodes(path[0].other) + PathNodes(path[1..])
    ensures path != [] ==> (path[0].x.left == t.x <==> path[0].side.L?)
  {
    hide Linked, Sorted, Keys, Plug;
    NodesApart(path, t);
    Around(path, t);
    if kid.Node? {
      if kid == t.right { ChildApart(path, t, R); } else { ChildApart(path, t, L); }
    }
  }

  lemma ChildApart(path: Where, t: Shape, side: Side)
    requires Linked(Plug(path, t), null) && Sorted(Plug(path, t)) && t.Node? && Cis(side, t).Node?
    ensures var kid := Cis(side, t); kid.x !in Nodes(kid.left) + Nodes(kid.right)
  {
    DownStep(path, t, side, 0);
    NodesApart(Down(path, t, side), Cis(side, t));
  }

  lemma SpliceSorted(path: Where, t: Shape, kid: Shape)
    requires Sorted(Plug(path, t)) && t.Node? && (kid == t.right || kid == t.left)
    ensures Sorted(Plug(path, kid))
  {
    PlugSorted(path, t);
    FitsFewer(path, Keys(t), Keys(kid));
    PlugSorted(path, kid);
  }

  lemma {:induction false} TopNode(path: Where, t: Shape)
    requires path != []
    ensures Plug(path, t).Node? && Plug(path, t).x in PathNodes(path)
  {
    if |path| > 1 { TopNode(path[1..], Up(path[0], t)); }
  }

  /** The position is the root exactly when no frame is left. */
  lemma RootIs(path: Where, t: Shape)
    requires Linked(Plug(path, t), null) && Sorted(Plug(path, t))
    ensures Ptr(Plug(path, t)) == Ptr(t) <==> path == []
  {
    NodesApart(path, t);
    if path != [] {
      TopNode(path, t);
      assert t.Node? ==> t.x in Nodes(t);
    }
  }

  lemma RemovingRoot(path: Where, t: Shape, n: nat)
    requires Removing(path, t, n) && path == []
    ensures Settled(path, t, n)
  {
  }

  lemma SiblingThere(path: Where, t: Shape, n: nat)
    requires Removing(path, t, n) && path != []
    ensures path[0].other.Node?
  {
    SiblingExists(path, t, n);
  }

  lemma RedNames(path: Where)
    requires path != [] && path[0].other.Node?
    ensures var path' := RedSibling(path);
            path' != [] && path'[0].x == path[0].x && path'[0].side == path[0].side
  {
  }

  lemma SettledValid(path: Where, t: Shape, n: nat)
    requires Settled(path, t, n)
    ensures RbTree.Valid(Plug(path, t))
  {
    var m := PlugBal(path, t, n);
    PlugSorted(path, t);
  }

  lemma RootBlack(t: Shape)
    requires RbTree.Valid(t)
    ensures Blacken(t) == t
  {
  }

  // The children of the sibling, by their links.
  lemma Nephews(path: Where, t: Shape)
    requires Linked(Plug(path, t), null) && path != [] && path[0].other.Node?
    ensures var s := path[0].other;
            && s.x.left == Ptr(s.left) && s.x.right == Ptr(s.right)
            && (s.left.Node? ==> s.left.x.red == s.left.red) && (s.right.Node? ==> s.right.x.red == s.right.red)
            && path[0].x.Kid(Other(path[0].side)) == s.x
  {
    LinkedPlug(path, t);
    TopOfPath(path, Ptr(t));
  }

  lemma NearNames(path: Where)
    requires path != [] && path[0].other.Node? && Cis(path[0].side, path[0].other).Node?
    ensures var path' := NearNephew(path);
            path' != [] && path'[0].x == path[0].x && path'[0].side == path[0].side && path'[0].red == path[0].red && path'[0].other.Node?
            && path'[1..] == path[1..]
  {
  }

  lemma PaintedSibling(path: Where, t: Shape)
    requires path != [] && path[0].other.Node?
    ensures var f := path[0]; var s := f.other;
            Plug([Frame(f.side, f.x, f.key, f.red, Node(s.left, s.x, s.key, true, s.right))] + path[1..], t)
            == Plug(path[1..], PaintSibling(path, t))
            && PaintSibling(path, t).Node? && PaintSibling(path, t).x == f.x && PaintSibling(path, t).red == f.red
  {
    var f, s := path[0], path[0].other;
    var path' := [Frame(f.side, f.x, f.key, f.red, Node(s.left, s.x, s.key, true, s.right))] + path[1..];
    assert path'[1..] == path[1..];
    PlugStep(path', t);
  }

  lemma MakeRed(side: Side, t: Shape, red: bool)
    requires t.Node?
    ensures Node(t.left, t.x, t.key, red, t.right) == Make(side, Cis(side, t), t.x, t.key, red, Trans(side, t))
  {
  }

  lemma MadeParts(side: Side, a: Shape, x: TreeNode, key: int, red: bool, b: Shape)
    ensures var t := Make(side, a, x, key, red, b);
            Cis(side, t) == a && Trans(side, t) == b && t.x == x && t.key == key && t.red == red
  {
  }

  lemma FarNode(path: Where, t: Shape)
    requires path != [] && path[0].other.Node?
    ensures var s := path[0].other;
            && (s.left.Node? ==> s.left.x in Nodes(Plug(path, t)))
            && (s.right.Node? ==> s.right.x in Nodes(Plug(path, t)))
  {
    NodesOfPlug(path, t);
    var s := path[0].other;
    assert s.left.Node? ==> s.left.x in Nodes(s.left);
    assert s.right.Node? ==> s.right.x in Nodes(s.right);
  }

  lemma FrameNodes(path: Where, t: Shape)
    requires path != []
    ensures path[0].x in Nodes(Plug(path, t))
    ensures path[0].other.Node? ==> path[0].other.x in Nodes(Plug(path, t))
  {
    NodesOfPlug(path, t);
    if path[0].other.Node? { assert path[0].other.x in Nodes(path[0].other); }
  }

  /** The links around a position. */
  lemma Around(path: Where, t: Shape)
    requires Linked(Plug(path, t), null) && Sorted(Plug(path, t))
    ensures t.Node? ==> t.x.parent == Above(path) && t.x.red == t.red && t.x.key == t.key
    ensures path != [] ==>
      var f := path[0];
      && f.x.red == f.red && f.x.key == f.key && f.x.parent == Above(path[1..])
      && f.x.Kid(f.side) == Ptr(t) && f.x.Kid(Other(f.side)) == Ptr(f.other)
      && (f.other.Node? ==> f.other.x.red == f.other.red)
      && (t.Node? ==> Ptr(t) != Ptr(f.other))
  {
    LinkedPlug(path, t);
    NodesApart(path, t);
    TopOfPath(path, Ptr(t));
    if t.Node? { assert t.x in Nodes(t); }
    if path != [] && path[0].other.Node? {
      TopOfTree(path[0].other, path[0].x);
      assert path[0].other.x in PathNodes(path);
    }
  }

  lemma InsertingRed(path: Where, t: Shape, n: nat)
    requires Inserting(path, t, n)
    ensures t.Node? && t.red
  {
  }

  lemma InsertingBlackAbove(path: Where, t: Shape, n: nat)
    requires Inserting(path, t, n) && path != [] && path[0].red
    ensures |path| >= 2 && path[1..][0] == path[1]
  {
    GrandparentIsBlack(path, n);
  }

  lemma UncleIn(path: Where, t: Shape)
    requires |path| >= 2 && path[1].other.Node?
    ensures path[1].other.x in Nodes(Plug(path, t))
  {
    NodesOfPlug(path, t);
    assert path[1..][0] == path[1];
    assert path[1].other.x in Nodes(path[1].other);
  }

  // Which nodes are where after a step.
  lemma StepNames(path: Where, t: Shape)
    requires |path| >= 2 && t.Node?
    ensures PushUp(path, t).Node? && PushUp(path, t).x == path[1].x && |OuterPath(path)| == |path| - 1
    ensures var (path', t') := RotateInner(path, t);
            t'.Node? && t'.x == path[0].x && |path'| == |path| && path'[0].x == t.x && path'[1] == path[1]
  {
  }

  lemma RootNode(path: Where, t: Shape)
    requires t.Node?
    ensures Plug(path, t).Node? && Plug(path, t).x in Nodes(Plug(path, t))
    decreases |path|
  {
    if path != [] { RootNode(path[1..], Up(path[0], t)); }
  }

  lemma TurnedUp(g: Frame<TreeNode>, u: Shape)
    ensures Up(g, u) == Up(Frame(Other(g.side), g.x, g.key, g.red, u), g.other)
  {
  }

  lemma Flip(side: Side, a: Shape, x: TreeNode, key: int, red: bool, b: Shape)
    ensures Make(side, a, x, key, red, b) == Make(Other(side), b, x, key, red, a)
  {
  }

  lemma KeyAndColour(path: Where, t: Shape)
    requires Linked(Plug(path, t), null) && t.Node?
    ensures t.x.key == t.key && t.x.red == t.red
  {
    LinkedPlug(path, t);
  }

  lemma InNodes(path: Where, t: Shape)
    requires |path| >= 2
    ensures path[0].x in Nodes(Plug(path, t)) && path[1].x in Nodes(Plug(path, t))
    ensures t.Node? ==> t.x in Nodes(Plug(path, t))
  {
    NodesOfPlug(path, t);
    assert path[1..][0] == path[1];
  }

  lemma AtRoot(t: Shape, key: int)
    ensures Plug([], t) == t && KeyFits<TreeNode>([], key)
  {
  }

  function Down(path: Where, t: Shape, side: Side): Where
    requires t.Node?
  {
    [Frame(side, t.x, t.key, t.red, Trans(side, t))] + path
  }

  lemma DownStep(path: Where, t: Shape, side: Side, key: int)
    requires t.Node?
    ensures Plug(Down(path, t, side), Cis(side, t)) == Plug(path, t)
    ensures KeyFits(path, key) && (if side.L? then key < t.key else t.key < key) ==> KeyFits(Down(path, t, side), key)
  {
    MadeOf(side, t);
    assert Down(path, t, side)[1..] == path;
  }

  lemma NoneLinked(parent: TreeNode?)
    ensures Linked(Nil, parent)
  {
  }

  lemma PlugNothing(path: Where, t: Shape)
    ensures path == [] ==> Plug(path, t) == t
  {
  }

  lemma AbsentKey(path: Where, key: int)
    requires Sorted(Plug(path, Nil)) && KeyFits(path, key)
    ensures key !in Keys(Plug(path, Nil))
  {
    PlugSorted<TreeNode>(path, Nil);
    FitsKey<TreeNode>(path, {}, key);
    FitsApart<TreeNode>(path, {} + {key});
    assert key in {} + {key};
    PlugKeys<TreeNode>(path, Nil);
  }

  lemma LeafSorted(path: Where, x: TreeNode, key: int)
    requires Sorted(Plug(path, Nil)) && KeyFits(path, key)
    ensures Sorted(Plug(path, Node(Nil, x, key, true, Nil)))
  {
    PlugSorted<TreeNode>(path, Nil);
    FitsKey<TreeNode>(path, {}, key);
    assert {} + {key} == Keys(Node(Nil, x, key, true, Nil));
    PlugSorted(path, Node(Nil, x, key, true, Nil));
  }

  lemma PaintKeeps(path: Where, t: Shape, t': Shape)
    requires t.Node? && t'.Node? && t'.left == t.left && t'.right == t.right && t'.x == t.x && t'.key == t.key
    ensures Sorted(Plug(path, t)) ==> Sorted(Plug(path, t'))
    ensures Nodes(Plug(path, t')) == PathNodes(path) + Nodes(t) == Nodes(Plug(path, t))
    ensures Ptr(Plug(path, t')) == Ptr(Plug(path, t))
    ensures Keys(Plug(path, t')) == Keys(Plug(path, t))
  {
    PlugSorted(path, t);
    PlugSorted(path, t');
    PlugKeys(path, t);
    PlugKeys(path, t');
    NodesOfPlug(path, t);
    NodesOfPlug(path, t');
    PtrPlug(path, t, t');
  }

  // The links of the topmost node, and what hangs below.
  ghost predicate Top(b: Shape, parent: TreeNode?)
    reads if b.Nil? then {} else {b.x}
  {
    b.Node? ==> b.x.key == b.key && b.x.red == b.red && b.x.parent == parent && b.x.left == Ptr(b.left) && b.x.right == Ptr(b.right)
  }

  lemma TopOfTree(b: Shape, parent: TreeNode?)
    ensures Linked(b, parent) <==> Top(b, parent) && (b.Node? ==> Linked(b.left, b.x) && Linked(b.right, b.x))
  {
  }

  ghost predicate TopFrame(path: Where, hole: TreeNode?)
    reads if path == [] then {} else {path[0].x}
  {
    path != [] ==>
      var f := path[0];
      && f.x.key == f.key && f.x.red == f.red && f.x.parent == Above(path[1..])
      && f.x.Kid(f.side) == hole && f.x.Kid(Other(f.side)) == Ptr(f.other)
  }

  lemma TopOfPath(path: Where, hole: TreeNode?)
    ensures LinkedPath(path, hole)
       <==> TopFrame(path, hole) && (path != [] ==> Linked(path[0].other, path[0].x) && LinkedPath(path[1..], path[0].x))
  {
  }

  /** The nodes that a rotation changes. */
  ghost function Rim(path: Where, p: TreeNode, q: TreeNode, b: Shape): set<TreeNode> {
    {p, q} + (if path == [] then {} else {path[0].x}) + (if b.Nil? then {} else {b.x})
  }

  ghost predicate PartsApart(path: Where, p: TreeNode, q: TreeNode, a: Shape, b: Shape, c: Shape) {
    var changed := Rim(path, p, q, b);
    && p != q && (path != [] ==> path[0].x != p && path[0].x != q) && (b.Node? ==> b.x != p && b.x != q)
    && (path != [] && b.Node? ==> path[0].x != b.x)
    && changed !! Nodes(a) && changed !! Nodes(c)
    && (b.Node? ==> changed !! Nodes(b.left) && changed !! Nodes(b.right))
    && (path != [] ==> changed !! Nodes(path[0].other) && changed !! PathNodes(path[1..]))
  }

  lemma MadeLinked(side: Side, a: Shape, x: TreeNode, k: int, red: bool, b: Shape, parent: TreeNode?)
    ensures var t := Make(side, a, x, k, red, b);
            && Ptr(t) == x && Nodes(t) == Nodes(a) + {x} + Nodes(b)
            && (Linked(t, parent) <==>
                x.key == k && x.red == red && x.parent == parent && x.Kid(side) == Ptr(a) && x.Kid(Other(side)) == Ptr(b)
                && Linked(a, x) && Linked(b, x))
  {
  }

  lemma MadeNodes(side: Side, a: Shape, x: TreeNode, k: int, red: bool, b: Shape)
    ensures var t := Make(side, a, x, k, red, b); Ptr(t) == x && Nodes(t) == Nodes(a) + {x} + Nodes(b)
  {
  }

  // What a rotation does not change.
  lemma RotationNodes(cis: Side, path: Where, a: Shape, p: TreeNode, pk: int, pr: bool, b: Shape, q: TreeNode, qk: int, qr: bool,
                      c: Shape)
    ensures var t, t' := Make(cis, a, p, pk, pr, Make(cis, b, q, qk, qr, c)), Make(cis, Make(cis, a, p, pk, pr, b), q, qk, qr, c);
            && Ptr(t') == q
            && Nodes(Plug(path, t)) == PathNodes(path) + Nodes(t) == Nodes(Plug(path, t'))
            && (path != [] ==> Ptr(Plug(path, t)) == Ptr(Plug(path, t')))
            && (path == [] ==> Ptr(Plug(path, t)) == p && Ptr(Plug(path, t')) == q)
  {
    hide Make, Nodes, PathNodes;
    var u, u' := Make(cis, b, q, qk, qr, c), Make(cis, a, p, pk, pr, b);
    var t, t' := Make(cis, a, p, pk, pr, u), Make(cis, u', q, qk, qr, c);
    MadeNodes(cis, b, q, qk, qr, c);
    MadeNodes(cis, a, p, pk, pr, u);
    MadeNodes(cis, a, p, pk, pr, b);
    MadeNodes(cis, u', q, qk, qr, c);
    NodesOfPlug(path, t);
    NodesOfPlug(path, t');
    if path != [] { PtrPlug(path, t, t'); }
    assert Nodes(t) == Nodes(t');
  }

  lemma RotationSorted(cis: Side, path: Where, a: Shape, p: TreeNode, pk: int, pr: bool, b: Shape, q: TreeNode, qk: int, qr: bool,
                       c: Shape)
    ensures var t, t' := Make(cis, a, p, pk, pr, Make(cis, b, q, qk, qr, c)), Make(cis, Make(cis, a, p, pk, pr, b), q, qk, qr, c);
            Sorted(Plug(path, t)) ==> Sorted(Plug(path, t'))
  {
    hide Sorted, Keys, Fits, Make, Plug;
    var t, t' := Make(cis, a, p, pk, pr, Make(cis, b, q, qk, qr, c)), Make(cis, Make(cis, a, p, pk, pr, b), q, qk, qr, c);
    Rotation(cis, a, p, pk, pr, b, q, qk, qr, c, pr, qr);
    PlugSorted(path, t);
    PlugSorted(path, t');
  }

  // The parts of a tree about to be rotated share no node.
  lemma RotationApart(cis: Side, path: Where, a: Shape, p: TreeNode, b: Shape, q: TreeNode, qk: int, qr: bool, c: Shape)
    requires var t := Make(cis, a, p, p.key, p.red, Make(cis, b, q, qk, qr, c));
             Linked(Plug(path, t), null) && Sorted(Plug(path, t))
    ensures var t := Make(cis, a, p, p.key, p.red, Make(cis, b, q, qk, qr, c));
            Linked(t, Above(path)) && LinkedPath(path, p)
    ensures PartsApart(path, p, q, a, b, c)
    ensures Rim(path, p, q, b) <= Nodes(Plug(path, Make(cis, a, p, p.key, p.red, Make(cis, b, q, qk, qr, c))))
  {
    var u := Make(cis, b, q, qk, qr, c);
    var t := Make(cis, a, p, p.key, p.red, u);
    LinkedPlug(path, t);
    NodesApart(path, t);
    NodesOfPlug(path, t);
    var f := Frame(Other(cis), p, p.key, p.red, a);
    assert Up(f, u) == t;
    assert ([f] + path)[1..] == path;
    assert Plug([f] + path, u) == Plug(path, t);
    NodesApart([f] + path, u);
    var g := Frame(cis, q, qk, qr, c);
    assert Up(g, b) == u;
    assert ([g] + ([f] + path))[1..] == [f] + path;
    NodesApart([g] + ([f] + path), b);
    MadeNodes(cis, b, q, qk, qr, c);
    MadeNodes(cis, a, p, p.key, p.red, u);
    ApartParts(path, p, q, a, b, c, Nodes(u), Nodes(t));
  }

  // The same, from what is known of each level.
  lemma ApartParts(path: Where, p: TreeNode, q: TreeNode, a: Shape, b: Shape, c: Shape, us: set<TreeNode>, ts: set<TreeNode>)
    requires us == Nodes(b) + {q} + Nodes(c) && ts == Nodes(a) + {p} + us
    requires PathNodes(path) !! ts && p !in Nodes(a) + us && Nodes(a) !! us
    requires q !in Nodes(b) + Nodes(c) && Nodes(b) !! Nodes(c)
    requires b.Node? ==> b.x !in Nodes(b.left) + Nodes(b.right)
    requires path != [] ==> path[0].x !in Nodes(path[0].other) + PathNodes(path[1..])
    ensures PartsApart(path, p, q, a, b, c) && Rim(path, p, q, b) <= PathNodes(path) + ts
  {
  }
}
