// The frozen hash table of shared configuration data: filled in two passes, then only read.
module ShareTable {
  import opened Bytes
  import opened Sets
  import opened Wrappers

  /** A key of a Lua table: a 64-bit integer or a string. */
  datatype Key = Int(n: int) | Str(s: seq<byte>)

  /** 'struct node'; a node without a value is empty. */
  datatype Node<V> = Node(key: Key, keyhash: uint32, next: int, nocolliding: bool, value: Option<V>)

  function Truncated(k: Key): (r: Key)
    ensures r.Int? ==> -0x8000_0000 <= r.n < 0x8000_0000
    ensures (k.Int? ==> -0x8000_0000 <= k.n < 0x8000_0000) ==> r == k
  {
    if k.Int? then Int(Int32(k.n)) else k
  }

  /** 'calchash': not all bytes of a long string count. */
  function CalcHash(h: bv32, s: seq<byte>, l1: nat, step: nat): bv32
    requires l1 <= |s| && step > 0
    decreases l1
  {
    if l1 < step then h else CalcHash(h ^ ((h << 5) + (h >> 2) + (s[l1 - 1] as bv32)), s, l1 - step, step)
  }

  function Hash(k: Key): uint32 {
    match k
    case Int(n) => n % 0x1_0000_0000
    case Str(s) => CalcHash((|s| % 0x1_0000_0000) as bv32, s, |s|, |s| / 32 + 1) as int
  }

  function Get<V>(t: map<Key, V>, k: Key): Option<V> {
    if k in t then Some(t[k]) else None
  }

  predicate InArray(k: Key, sizearray: nat) {
    k.Int? && 0 < k.n <= sizearray
  }

  /** The keys that 'countsize' asks slots for. */
  function Counted<V>(t: map<Key, V>, sizearray: nat): set<Key> {
    set k | k in t && !InArray(k, sizearray)
  }

  /** The keys that go into the slots: 'ishashkey' looks at what the cut leaves. */
  function HashKeys<V>(t: map<Key, V>, sizearray: nat): set<Key> {
    set k | k in t && !InArray(Truncated(k), sizearray)
  }

  lemma FewerHashed<V>(t: map<Key, V>, sizearray: nat)
    requires sizearray < 0x8000_0000
    ensures HashKeys(t, sizearray) <= Counted(t, sizearray) && |HashKeys(t, sizearray)| <= |Counted(t, sizearray)|
  {
    SubsetSize(HashKeys(t, sizearray), Counted(t, sizearray));
  }

  function Main(k: Key, size: nat): (m: nat)
    requires size > 0
    ensures m < size
  {
    Hash(k) % size
  }

  lemma SameHash(k: Key)
    ensures Hash(Truncated(k)) == Hash(k)
  {
  }

  // ----- nodes in chains; chains[m] lists the slots of the keys whose main position is m

  predicate Occupied<V>(nodes: seq<Node<V>>, x: nat) {
    x < |nodes| && nodes[x].value.Some?
  }

  ghost predicate NodeOk<V>(nodes: seq<Node<V>>, x: nat, t: map<Key, V>, sizearray: nat)
    requires Occupied(nodes, x)
  {
    var n := nodes[x];
    n.keyhash == Hash(n.key) && n.key in HashKeys(t, sizearray) && n.value == Some(t[n.key])
  }

  /** Slot number j of a chain and its link. */
  ghost predicate LinkOk<V>(nodes: seq<Node<V>>, chain: seq<nat>, m: nat, j: nat)
    requires j < |chain|
  {
    && Occupied(nodes, chain[j]) && Main(nodes[chain[j]].key, |nodes|) == m && (chain[j] == m <==> j == 0)
    && nodes[chain[j]].next == if j + 1 < |chain| then chain[j + 1] else -1
  }

  ghost predicate ChainOk<V>(nodes: seq<Node<V>>, chain: seq<nat>, m: nat) {
    forall j | 0 <= j < |chain| :: LinkOk(nodes, chain, m, j)
  }

  ghost predicate SlotOk<V>(nodes: seq<Node<V>>, chains: seq<seq<nat>>, x: nat, t: map<Key, V>, sizearray: nat)
    requires |chains| == |nodes| && Occupied(nodes, x)
  {
    var chain := chains[Main(nodes[x].key, |nodes|)];
    NodeOk(nodes, x, t, sizearray) && x in chain && (nodes[x].nocolliding ==> chain == [x])
  }

  ghost predicate Sound<V>(nodes: seq<Node<V>>, chains: seq<seq<nat>>, t: map<Key, V>, sizearray: nat) {
    && |chains| == |nodes|
    && (forall m | 0 <= m < |nodes| :: ChainOk(nodes, chains[m], m))
    && (forall x | 0 <= x < |nodes| && Occupied(nodes, x) :: SlotOk(nodes, chains, x, t, sizearray))
    && Different(nodes)
  }

  ghost predicate Stored<V>(nodes: seq<Node<V>>, k: Key) {
    exists x | 0 <= x < |nodes| :: Occupied(nodes, x) && nodes[x].key == k
  }

  // ----- how many there are

  ghost function KeysOf<V>(nodes: seq<Node<V>>): (s: set<Key>)
    ensures forall k :: k in s <==> Stored(nodes, k)
  {
    if nodes == [] then {} else
      var n := |nodes| - 1;
      StoredLast(nodes);
      if nodes[n].value.Some? then KeysOf(nodes[..n]) + {nodes[n].key} else KeysOf(nodes[..n])
  }

  lemma StoredLast<V>(nodes: seq<Node<V>>)
    requires nodes != []
    ensures var n := |nodes| - 1;
      forall k :: Stored(nodes, k) <==> Stored(nodes[..n], k) || (Occupied(nodes, n) && nodes[n].key == k)
  {
    var n := |nodes| - 1;
    forall k ensures Stored(nodes, k) <==> Stored(nodes[..n], k) || (Occupied(nodes, n) && nodes[n].key == k) {
      if x :| 0 <= x < |nodes| && Occupied(nodes, x) && nodes[x].key == k {
        if x < n { assert Occupied(nodes[..n], x) && nodes[..n][x].key == k; }
      }
      if x :| 0 <= x < n && Occupied(nodes[..n], x) && nodes[..n][x].key == k {
        assert Occupied(nodes, x) && nodes[x].key == k;
      }
    }
  }

  ghost function Slots<V>(nodes: seq<Node<V>>): (s: set<nat>)
    ensures forall x: nat :: x in s <==> Occupied(nodes, x)
  {
    if nodes == [] then {} else
      var n := |nodes| - 1;
      assert forall x: nat :: Occupied(nodes, x) <==> Occupied(nodes[..n], x) || (x == n && nodes[n].value.Some?);
      if nodes[n].value.Some? then Slots(nodes[..n]) + {n} else Slots(nodes[..n])
  }

  ghost predicate Different<V>(nodes: seq<Node<V>>) {
    forall x, y | 0 <= x < y < |nodes| && Occupied(nodes, x) && Occupied(nodes, y) :: nodes[x].key != nodes[y].key
  }

  lemma DifferentFront<V>(nodes: seq<Node<V>>)
    requires nodes != [] && Different(nodes)
    ensures var n := |nodes| - 1; Different(nodes[..n]) && (Occupied(nodes, n) ==> !Stored(nodes[..n], nodes[n].key))
  {
    var n := |nodes| - 1;
    forall x, y | 0 <= x < y < n && Occupied(nodes[..n], x) && Occupied(nodes[..n], y) ensures nodes[x].key != nodes[y].key {
      assert Occupied(nodes, x) && Occupied(nodes, y);
    }
    if Occupied(nodes, n) {
      forall x | 0 <= x < n && Occupied(nodes[..n], x) ensures nodes[..n][x].key != nodes[n].key { assert Occupied(nodes, x); }
    }
  }

  /** Different slots have different keys. */
  lemma {:induction false} AsManyKeys<V>(nodes: seq<Node<V>>)
    requires Different(nodes)
    ensures |KeysOf(nodes)| == |Slots(nodes)|
  {
    hide Different, Stored;
    if nodes != [] {
      var n := |nodes| - 1;
      DifferentFront(nodes);
      AsManyKeys(nodes[..n]);
      assert !Occupied(nodes[..n], n);
    }
  }

  lemma AllOccupied<V>(nodes: seq<Node<V>>)
    ensures |Slots(nodes)| == |nodes| <==> forall x | 0 <= x < |nodes| :: Occupied(nodes, x)
  {
    SubsetSize(Slots(nodes), Upto(|nodes|));
    if forall x | 0 <= x < |nodes| :: Occupied(nodes, x) {
      assert Slots(nodes) == Upto(|nodes|);
    } else {
      var x :| 0 <= x < |nodes| && !Occupied(nodes, x);
      assert x in Upto(|nodes|) && x !in Slots(nodes);
    }
  }

  /** The search for an empty slot cannot fail: there are as many slots as keys, and one key is not placed. */
  lemma SlotLeft<V>(nodes: seq<Node<V>>, chains: seq<seq<nat>>, t: map<Key, V>, sizearray: nat, k: Key)
    requires Sound(nodes, chains, t, sizearray) && |nodes| >= |HashKeys(t, sizearray)|
    requires k in HashKeys(t, sizearray) && !Stored(nodes, k)
    ensures exists x | 0 <= x < |nodes| :: !Occupied(nodes, x)
  {
    hide ChainOk;
    AsManyKeys(nodes);
    AllOccupied(nodes);
    assert KeysOf(nodes) <= HashKeys(t, sizearray) - {k};
    SubsetSize(KeysOf(nodes), HashKeys(t, sizearray) - {k});
  }

  /** And when all keys are placed, no slot is left. */
  lemma NoSlotLeft<V>(nodes: seq<Node<V>>, chains: seq<seq<nat>>, t: map<Key, V>, sizearray: nat)
    requires Sound(nodes, chains, t, sizearray) && |nodes| == |HashKeys(t, sizearray)|
    requires forall k | k in HashKeys(t, sizearray) :: Stored(nodes, k)
    ensures forall x | 0 <= x < |nodes| :: Occupied(nodes, x)
  {
    hide ChainOk;
    AsManyKeys(nodes);
    AllOccupied(nodes);
    assert KeysOf(nodes) == HashKeys(t, sizearray);
  }

  // ----- the two ways of placing a key

  /** 'fillnocolliding': in its main position, which is empty. */
  lemma PlaceMain<V>(nodes: seq<Node<V>>, chains: seq<seq<nat>>, t: map<Key, V>, sizearray: nat, k: Key)
    requires Sound(nodes, chains, t, sizearray) && k in HashKeys(t, sizearray) && |nodes| > 0
    requires !Occupied(nodes, Main(k, |nodes|)) && !Stored(nodes, k)
    ensures var m := Main(k, |nodes|);
      Sound(nodes[m := Node(k, Hash(k), -1, true, Some(t[k]))], chains[m := [m]], t, sizearray)
  {
    var m := Main(k, |nodes|);
    var nodes', chains' := nodes[m := Node(k, Hash(k), -1, true, Some(t[k]))], chains[m := [m]];
    assert ChainOk(nodes, chains[m], m) && (chains[m] != [] ==> LinkOk(nodes, chains[m], m, 0));
    assert chains[m] == [];
    forall i | 0 <= i < |nodes| ensures ChainOk(nodes', chains'[i], i) {
      assert ChainOk(nodes, chains[i], i);
      if i != m {
        forall j | 0 <= j < |chains[i]| ensures LinkOk(nodes', chains[i], i, j) {
          assert LinkOk(nodes, chains[i], i, j);
        }
      } else {
        assert LinkOk(nodes', [m], m, 0);
      }
    }
    forall x | 0 <= x < |nodes| && Occupied(nodes', x) ensures SlotOk(nodes', chains', x, t, sizearray) {
      if x != m { assert SlotOk(nodes, chains, x, t, sizearray); }
    }
  }

  /** 'fillcolliding': in an empty slot, behind the node in its main position. */
  lemma PlaceBehind<V>(nodes: seq<Node<V>>, chains: seq<seq<nat>>, t: map<Key, V>, sizearray: nat, k: Key, e: nat)
    requires Sound(nodes, chains, t, sizearray) && k in HashKeys(t, sizearray) && |nodes| > 0
    requires chains[Main(k, |nodes|)] != [] && !Stored(nodes, k) && e < |nodes| && !Occupied(nodes, e)
    ensures var m := Main(k, |nodes|);
      var c := chains[m];
      Sound(nodes[m := nodes[m].(next := e, nocolliding := false)][e := Node(k, Hash(k), nodes[m].next, false, Some(t[k]))],
            chains[m := [m, e] + c[1..]], t, sizearray)
  {
    var m := Main(k, |nodes|);
    var c := chains[m];
    assert ChainOk(nodes, c, m) && LinkOk(nodes, c, m, 0);
    var nodes' := nodes[m := nodes[m].(next := e, nocolliding := false)]
                       [e := Node(k, Hash(k), nodes[m].next, false, Some(t[k]))];
    var c' := [m, e] + c[1..];
    var chains' := chains[m := c'];
    forall i | 0 <= i < |nodes| ensures ChainOk(nodes', chains'[i], i) {
      assert ChainOk(nodes, chains[i], i);
      if i == m {
        LinkBehind(nodes, nodes', c, m, e);
      } else {
        SameChain(nodes, nodes', chains[i], i, m, e);
      }
    }
    hide ChainOk;
    forall x | 0 <= x < |nodes| && Occupied(nodes', x) ensures SlotOk(nodes', chains', x, t, sizearray) {
      if x == e {
        assert c'[1] == e;
      } else {
        assert SlotOk(nodes, chains, x, t, sizearray);
        StillIn(c, e, x);
      }
    }
  }

  lemma LinkBehind<V>(nodes: seq<Node<V>>, nodes': seq<Node<V>>, c: seq<nat>, m: nat, e: nat)
    requires ChainOk(nodes, c, m) && c != [] && |nodes'| == |nodes| && e < |nodes| && !Occupied(nodes, e)
    requires forall x | 0 <= x < |nodes| && x != m && x != e :: nodes'[x] == nodes[x]
    requires Occupied(nodes', e) && Main(nodes'[e].key, |nodes|) == m && nodes'[e].next == nodes[m].next
    requires nodes'[m].value == nodes[m].value && nodes'[m].key == nodes[m].key && nodes'[m].next == e
    ensures ChainOk(nodes', [m, e] + c[1..], m)
  {
    var c' := [m, e] + c[1..];
    assert LinkOk(nodes, c, m, 0);
    forall j | 0 <= j < |c'| ensures LinkOk(nodes', c', m, j) {
      if j >= 2 {
        LinkKept(nodes, nodes', c, m, e, j - 1);
      } else if j == 1 {
        assert 1 < |c| ==> c'[2] == c[1];
      }
    }
  }

  lemma LinkKept<V>(nodes: seq<Node<V>>, nodes': seq<Node<V>>, c: seq<nat>, m: nat, e: nat, j: nat)
    requires ChainOk(nodes, c, m) && 0 < j < |c| && |nodes'| == |nodes| && e < |nodes| && !Occupied(nodes, e)
    requires forall x | 0 <= x < |nodes| && x != m && x != e :: nodes'[x] == nodes[x]
    ensures LinkOk(nodes', [m, e] + c[1..], m, j + 1)
  {
    var c' := [m, e] + c[1..];
    assert LinkOk(nodes, c, m, j);
    assert c'[j + 1] == c[j] && (j + 1 < |c| ==> c'[j + 2] == c[j + 1]);
  }

  lemma SameChain<V>(nodes: seq<Node<V>>, nodes': seq<Node<V>>, c: seq<nat>, i: nat, m: nat, e: nat)
    requires ChainOk(nodes, c, i) && |nodes'| == |nodes| && e < |nodes| && !Occupied(nodes, e)
    requires i != m && Occupied(nodes, m) && Main(nodes[m].key, |nodes|) == m
    requires forall x | 0 <= x < |nodes| && x != m && x != e :: nodes'[x] == nodes[x]
    ensures ChainOk(nodes', c, i)
  {
    forall j | 0 <= j < |c| ensures LinkOk(nodes', c, i, j) {
      assert LinkOk(nodes, c, i, j);
    }
  }

  lemma StillIn(c: seq<nat>, e: nat, x: nat)
    requires c != []
    ensures x in c ==> x in [c[0], e] + c[1..]
  {
    assert c == [c[0]] + c[1..];
  }

  lemma EmptySound<V>(nodes: seq<Node<V>>, chains: seq<seq<nat>>, t: map<Key, V>, sizearray: nat)
    requires |chains| == |nodes| && forall x | 0 <= x < |nodes| :: nodes[x].value == None && chains[x] == []
    ensures Sound(nodes, chains, t, sizearray)
  {
  }

  lemma NoKeysLeft<V>(nodes: seq<Node<V>>, t: map<Key, V>, sizearray: nat)
    ensures |HashKeys(t, sizearray)| == 0 ==> forall k | k in HashKeys(t, sizearray) :: Stored(nodes, k)
  {
  }

  // ----- the table

  /** The order in which 'lua_next' goes through a table that does not change. */
  ghost predicate Ordered<V>(order: seq<Key>, t: map<Key, V>) {
    && (forall k :: k in order <==> k in t)
    && (forall i, j | 0 <= i < j < |order| :: order[i] != order[j])
  }

  // ----- integers that do not fit into 32 bits: 'ishashkey' cuts them off, 'countsize' does not

  predicate Fits(k: Key) {
    k.Int? ==> -0x8000_0000 <= k.n < 0x8000_0000
  }

  /** No two keys become the same, and none turns into an index of the array. */
  predicate NoClash<V>(t: map<Key, V>, sizearray: nat) {
    && Injective(t.Keys)
    && (forall k | k in t && InArray(Truncated(k), sizearray) :: InArray(k, sizearray))
  }

  /** The table with the keys cut off. */
  function Short<V>(t: map<Key, V>): (r: map<Key, V>)
    requires Injective(t.Keys)
  {
    map k | k in t :: Truncated(k) := t[k]
  }

  function ShortSet(s: set<Key>): set<Key> {
    set k | k in s :: Truncated(k)
  }

  predicate Injective(s: set<Key>) {
    forall k, l | k in s && l in s && Truncated(k) == Truncated(l) :: k == l
  }

  lemma InjectiveNext(r: set<Key>, x: Key)
    requires x !in r
    ensures Injective(r + {x}) <==> Injective(r) && Truncated(x) !in ShortSet(r)
    ensures ShortSet(r + {x}) == ShortSet(r) + {Truncated(x)}
  {
    hide Truncated;
    if Truncated(x) in ShortSet(r) {
      var l :| l in r && Truncated(l) == Truncated(x);
      assert l in r + {x} && x in r + {x};
    }
    if Injective(r + {x}) {
      forall k, l | k in r && l in r && Truncated(k) == Truncated(l) ensures k == l {
        assert k in r + {x} && l in r + {x};
      }
    }
  }

  lemma {:induction false} ShortSetSize(s: set<Key>)
    ensures |ShortSet(s)| <= |s| && (|ShortSet(s)| == |s| <==> Injective(s))
    decreases |s|
  {
    hide ShortSet, Injective, Truncated;
    if s == {} {
      NoneShort(s);
    } else {
      var x :| x in s;
      var r := s - {x};
      assert s == r + {x};
      InjectiveNext(r, x);
      ShortSetSize(r);
    }
  }

  lemma NoneShort(s: set<Key>)
    requires s == {}
    ensures ShortSet(s) == {} && Injective(s)
  {
  }

  /** The slots that 'countsize' asks for are as many as there are different keys to store exactly if no keys
      clash. */
  lemma SlotsExact<V>(t: map<Key, V>, sizearray: nat)
    requires sizearray < 0x8000_0000
    ensures |ShortSet(HashKeys(t, sizearray))| <= |Counted(t, sizearray)|
    ensures |ShortSet(HashKeys(t, sizearray))| == |Counted(t, sizearray)| <==> NoClash(t, sizearray)
  {
    var h, h' := Counted(t, sizearray), HashKeys(t, sizearray);
    ShortSetSize(h');
    SubsetSize(h', h);
    if |ShortSet(h')| == |h| {
      assert h' == h;
      forall k | k in t && InArray(Truncated(k), sizearray) ensures InArray(k, sizearray) {
        assert k !in h';
      }
      forall k, l | k in t && l in t && Truncated(k) == Truncated(l) ensures k == l {
        assert k in h <==> l in h;
      }
    }
    if NoClash(t, sizearray) {
      assert h' == h;
    }
  }

  lemma ShortFits<V>(t: map<Key, V>)
    requires Injective(t.Keys)
    ensures forall k | k in Short(t) :: Fits(k)
  {
  }

  lemma ShortHashKeys<V>(t: map<Key, V>, sizearray: nat)
    requires NoClash(t, sizearray) && sizearray < 0x8000_0000
    ensures |HashKeys(Short(t), sizearray)| == |Counted(t, sizearray)|
  {
    SlotsExact(t, sizearray);
    assert HashKeys(Short(t), sizearray) == ShortSet(HashKeys(t, sizearray));
  }

  /** 'countsize' */
  method CountSize<V>(t: map<Key, V>, order: seq<Key>, sizearray: nat) returns (n: nat)
    requires Ordered(order, t)
    ensures n == |Counted(t, sizearray)|
  {
    n := 0;
    ghost var seen: set<Key> := {};
    for i := 0 to |order|
      invariant n == |seen| && forall k :: k in seen <==> k in order[..i] && !InArray(k, sizearray)
    {
      n := n + 1;
      if InArray(order[i], sizearray) {
        n := n - 1;
      } else {
        assert order[i] !in order[..i];
        seen := seen + {order[i]};
      }
    }
    assert seen == Counted(t, sizearray);
  }

  // ----- which key of the source answers for which

  /** The first of some keys with main position m. */
  function FirstAt(ks: seq<Key>, sizearray: nat, size: nat, m: nat): Option<Key>
    requires size > 0
  {
    if ks == [] then None else
      var f, k := FirstAt(ks[..|ks| - 1], sizearray, size, m), ks[|ks| - 1];
      if f.Some? then f else if !InArray(Truncated(k), sizearray) && Main(k, size) == m then Some(k) else None
  }

  /** The last of some keys that the cut makes to c. */
  function LastWith(ks: seq<Key>, c: Key): Option<Key> {
    if ks == [] then None
    else if Truncated(ks[|ks| - 1]) == c then Some(ks[|ks| - 1]) else LastWith(ks[..|ks| - 1], c)
  }

  /** The keys of the source that come behind f in the chain of main position m. */
  function Behind(ks: seq<Key>, sizearray: nat, size: nat, m: nat, f: Key): seq<Key>
    requires size > 0
  {
    if ks == [] then [] else
      var k := ks[|ks| - 1];
      (if !InArray(Truncated(k), sizearray) && Main(k, size) == m && Truncated(k) != Truncated(f) then [k] else [])
      + Behind(ks[..|ks| - 1], sizearray, size, m, f)
  }

  /** The key of the source whose value is the answer for q, when the keys come in this order: in the array the last
      one; in the slots the one that got the main position, and otherwise the last one. */
  function Winner(order: seq<Key>, sizearray: nat, size: nat, q: Key): Option<Key> {
    var c := Truncated(q);
    if InArray(c, sizearray) then LastWith(order, c)
    else if size == 0 then None
    else match FirstAt(order, sizearray, size, Main(c, size))
    case None => None
    case Some(f) => if Truncated(f) == c then Some(f) else LastWith(order, c)
  }

  lemma {:induction false} FirstAtIs(ks: seq<Key>, sizearray: nat, size: nat, m: nat)
    requires size > 0
    ensures var f := FirstAt(ks, sizearray, size, m);
      if f.Some? then f.value in ks && !InArray(Truncated(f.value), sizearray) && Main(f.value, size) == m
      else forall k | k in ks :: InArray(Truncated(k), sizearray) || Main(k, size) != m
  {
    if ks != [] {
      FirstAtIs(ks[..|ks| - 1], sizearray, size, m);
      assert ks == ks[..|ks| - 1] + [ks[|ks| - 1]];
    }
  }

  lemma {:induction false} LastWithIs(ks: seq<Key>, c: Key)
    ensures var l := LastWith(ks, c);
      if l.Some? then l.value in ks && Truncated(l.value) == c else forall k | k in ks :: Truncated(k) != c
  {
    if ks != [] {
      LastWithIs(ks[..|ks| - 1], c);
      assert ks == ks[..|ks| - 1] + [ks[|ks| - 1]];
    }
  }

  lemma OnlyArray<V>(t: map<Key, V>, sizearray: nat)
    requires |Counted(t, sizearray)| == 0
    ensures forall k | k in t :: InArray(k, sizearray)
  {
    assert Counted(t, sizearray) == {};
    forall k | k in t ensures InArray(k, sizearray) { assert k !in Counted(t, sizearray); }
  }

  /** There is a winner exactly if a key of the source becomes the same, and it is one of those. */
  lemma WinnerIs<V>(order: seq<Key>, t: map<Key, V>, sizearray: nat, q: Key)
    requires Ordered(order, t) && sizearray < 0x8000_0000
    ensures var w := Winner(order, sizearray, |Counted(t, sizearray)|, q);
      if w.Some? then w.value in t && Truncated(w.value) == Truncated(q)
      else forall k | k in t :: Truncated(k) != Truncated(q)
  {
    var c, size := Truncated(q), |Counted(t, sizearray)|;
    LastWithIs(order, c);
    if !InArray(c, sizearray) {
      if size == 0 {
        OnlyArray(t, sizearray);
      } else {
        FirstAtIs(order, sizearray, size, Main(c, size));
        SameHash(q);
        forall k | k in t && Truncated(k) == c ensures Main(k, size) == Main(c, size) { SameHash(k); }
      }
    }
  }

  lemma {:induction false} BehindHas(ks: seq<Key>, sizearray: nat, size: nat, m: nat, f: Key, k: Key)
    requires size > 0
    ensures k in Behind(ks, sizearray, size, m, f)
       <==> k in ks && !InArray(Truncated(k), sizearray) && Main(k, size) == m && Truncated(k) != Truncated(f)
  {
    if ks != [] {
      BehindHas(ks[..|ks| - 1], sizearray, size, m, f, k);
      assert ks == ks[..|ks| - 1] + [ks[|ks| - 1]];
    }
  }

  /** The first key that the cut makes to c. */
  function FindKey(ks: seq<Key>, c: Key): Option<Key> {
    if ks == [] then None else if Truncated(ks[0]) == c then Some(ks[0]) else FindKey(ks[1..], c)
  }

  /** Behind the main position the last key comes first. */
  lemma {:induction false} BehindFinds(ks: seq<Key>, sizearray: nat, size: nat, m: nat, f: Key, c: Key)
    requires size > 0 && !InArray(c, sizearray) && Main(c, size) == m && c != Truncated(f) && Truncated(c) == c
    ensures FindKey(Behind(ks, sizearray, size, m, f), c) == LastWith(ks, c)
  {
    if ks != [] {
      var k, rest := ks[|ks| - 1], Behind(ks[..|ks| - 1], sizearray, size, m, f);
      BehindFinds(ks[..|ks| - 1], sizearray, size, m, f, c);
      SameHash(k);
      assert ([k] + rest)[1..] == rest && [] + rest == rest;
    }
  }

  // ----- slots and the keys of the source in them

  /** The nodes with the keys of the source, before the cut. */
  ghost function View<V>(nodes: seq<Node<V>>, sources: seq<Key>): (v: seq<Node<V>>)
    requires |sources| == |nodes|
    ensures |v| == |nodes|
  {
    seq(|nodes|, x requires 0 <= x < |nodes| => nodes[x].(key := sources[x]))
  }

  ghost predicate AllCut<V>(nodes: seq<Node<V>>, sources: seq<Key>) {
    |sources| == |nodes| && forall x | 0 <= x < |nodes| && Occupied(nodes, x) :: nodes[x].key == Truncated(sources[x])
  }

  lemma ViewUpdate<V>(nodes: seq<Node<V>>, sources: seq<Key>, x: nat, n: Node<V>, k: Key)
    requires |sources| == |nodes| && x < |nodes|
    ensures View(nodes[x := n], sources[x := k]) == View(nodes, sources)[x := n.(key := k)]
    ensures AllCut(nodes, sources) && n.key == Truncated(k) ==> AllCut(nodes[x := n], sources[x := k])
  {
    if AllCut(nodes, sources) && n.key == Truncated(k) {
      var nodes', sources' := nodes[x := n], sources[x := k];
      forall y | 0 <= y < |nodes| && Occupied(nodes', y) ensures nodes'[y].key == Truncated(sources'[y]) {
        if y != x { assert Occupied(nodes, y); }
      }
    }
  }

  /** After the first pass: the first key with each main position is in it. */
  ghost predicate FirstsPlaced<V>(v: seq<Node<V>>, chains: seq<seq<nat>>, ks: seq<Key>, sizearray: nat) {
    |chains| == |v| > 0
    && forall m | 0 <= m < |v| :: FirstPlaced(v, chains[m], ks, sizearray, m)
  }

  ghost predicate FirstPlaced<V>(v: seq<Node<V>>, chain: seq<nat>, ks: seq<Key>, sizearray: nat, m: nat)
    requires m < |v|
  {
    && FirstAt(ks, sizearray, |v|, m) == (if Occupied(v, m) then Some(v[m].key) else None)
    && chain == if Occupied(v, m) then [m] else []
  }

  function KeysIn<V>(v: seq<Node<V>>, chain: seq<nat>): (ks: seq<Key>)
    requires forall j | 0 <= j < |chain| :: chain[j] < |v|
    ensures |ks| == |chain| && forall j | 0 <= j < |chain| :: ks[j] == v[chain[j]].key
  {
    seq(|chain|, j requires 0 <= j < |chain| => v[chain[j]].key)
  }

  ghost predicate ChainIs<V>(v: seq<Node<V>>, chain: seq<nat>, order: seq<Key>, ks: seq<Key>, sizearray: nat, m: nat)
    requires m < |v|
  {
    && (forall j | 0 <= j < |chain| :: chain[j] < |v|)
    && match FirstAt(order, sizearray, |v|, m)
       case None => chain == []
       case Some(f) => KeysIn(v, chain) == [f] + Behind(ks, sizearray, |v|, m, f)
  }

  /** In the second pass, when some keys have been looked at. */
  ghost predicate ChainsAre<V>(v: seq<Node<V>>, chains: seq<seq<nat>>, order: seq<Key>, ks: seq<Key>, sizearray: nat) {
    |chains| == |v| > 0 && forall m | 0 <= m < |v| :: ChainIs(v, chains[m], order, ks, sizearray, m)
  }

  lemma FirstsAreChains<V>(v: seq<Node<V>>, chains: seq<seq<nat>>, order: seq<Key>, sizearray: nat)
    requires FirstsPlaced(v, chains, order, sizearray)
    ensures ChainsAre(v, chains, order, [], sizearray)
  {
    forall m | 0 <= m < |v| ensures ChainIs(v, chains[m], order, [], sizearray, m) {
      assert FirstPlaced(v, chains[m], order, sizearray, m);
    }
  }

  // ----- one key more

  lemma NextKeys(ks: seq<Key>, k: Key, sizearray: nat, size: nat, m: nat, f: Key, c: Key)
    requires size > 0
    ensures FirstAt(ks + [k], sizearray, size, m)
         == var g := FirstAt(ks, sizearray, size, m);
            if g.Some? then g else if !InArray(Truncated(k), sizearray) && Main(k, size) == m then Some(k) else None
    ensures LastWith(ks + [k], c) == if Truncated(k) == c then Some(k) else LastWith(ks, c)
    ensures Behind(ks + [k], sizearray, size, m, f)
         == (if !InArray(Truncated(k), sizearray) && Main(k, size) == m && Truncated(k) != Truncated(f) then [k] else [])
            + Behind(ks, sizearray, size, m, f)
  {
    assert (ks + [k])[..|ks|] == ks;
  }

  /** The first pass puts a key into its main position, if that is free. */
  lemma FirstsNext<V>(v: seq<Node<V>>, v': seq<Node<V>>, chains: seq<seq<nat>>, chains': seq<seq<nat>>, ks: seq<Key>, k: Key, sizearray: nat)
    requires FirstsPlaced(v, chains, ks, sizearray) && |v'| == |v| && |chains'| == |v|
    requires var m := Main(k, |v|);
      if InArray(Truncated(k), sizearray) || Occupied(v, m) then v' == v && chains' == chains
      else
        && (forall x | 0 <= x < |v| && x != m :: v'[x] == v[x]) && Occupied(v', m) && v'[m].key == k
        && chains' == chains[m := [m]]
    ensures FirstsPlaced(v', chains', ks + [k], sizearray)
  {
    forall x | 0 <= x < |v| ensures FirstPlaced(v', chains'[x], ks + [k], sizearray, x) {
      NextKeys(ks, k, sizearray, |v|, x, k, k);
      assert FirstPlaced(v, chains[x], ks, sizearray, x);
      assert FirstPlaced(v, chains[Main(k, |v|)], ks, sizearray, Main(k, |v|));
    }
  }

  lemma NotStoredFirst<V>(v: seq<Node<V>>, chains: seq<seq<nat>>, ks: seq<Key>, k: Key, sizearray: nat)
    requires FirstsPlaced(v, chains, ks, sizearray) && k !in ks
    ensures !Stored(v, k)
  {
    forall x | 0 <= x < |v| && Occupied(v, x) ensures v[x].key != k {
      assert FirstPlaced(v, chains[x], ks, sizearray, x);
      FirstAtIs(ks, sizearray, |v|, x);
    }
  }

  /** In the second pass: who is in the main position of a key, and whether the key is stored already. */
  lemma MainTaken<V>(v: seq<Node<V>>, chains: seq<seq<nat>>, t: map<Key, V>, order: seq<Key>, ks: seq<Key>, k: Key, sizearray: nat)
    returns (f: Key)
    requires Sound(v, chains, t, sizearray) && ChainsAre(v, chains, order, ks, sizearray)
    requires k in order && !InArray(Truncated(k), sizearray)
    ensures var m := Main(k, |v|);
      && FirstAt(order, sizearray, |v|, m) == Some(f) && chains[m] != [] && chains[m][0] == m
      && Occupied(v, m) && v[m].key == f
      && (Truncated(f) != Truncated(k) && k !in ks ==> !Stored(v, k))
  {
    var m := Main(k, |v|);
    FirstAtIs(order, sizearray, |v|, m);
    assert ChainIs(v, chains[m], order, ks, sizearray, m);
    f := FirstAt(order, sizearray, |v|, m).value;
    assert KeysIn(v, chains[m])[0] == f;
    assert ChainOk(v, chains[m], m) && LinkOk(v, chains[m], m, 0);
    if Truncated(f) != Truncated(k) && k !in ks && Stored(v, k) {
      var x :| 0 <= x < |v| && Occupied(v, x) && v[x].key == k;
      assert SlotOk(v, chains, x, t, sizearray);
      var j :| 0 <= j < |chains[m]| && chains[m][j] == x;
      assert KeysIn(v, chains[m])[j] == k && k in [f] + Behind(ks, sizearray, |v|, m, f);
      BehindHas(ks, sizearray, |v|, m, f, k);
    }
  }

  /** A key that was looked at: nothing changes, or it comes behind its main position. */
  lemma ChainsSkip<V>(v: seq<Node<V>>, chains: seq<seq<nat>>, order: seq<Key>, ks: seq<Key>, k: Key, sizearray: nat)
    requires ChainsAre(v, chains, order, ks, sizearray)
    requires InArray(Truncated(k), sizearray)
          || var f := FirstAt(order, sizearray, |v|, Main(k, |v|)); f.Some? && Truncated(f.value) == Truncated(k)
    ensures ChainsAre(v, chains, order, ks + [k], sizearray)
  {
    forall m | 0 <= m < |v| ensures ChainIs(v, chains[m], order, ks + [k], sizearray, m) {
      assert ChainIs(v, chains[m], order, ks, sizearray, m);
      var f := FirstAt(order, sizearray, |v|, m);
      if f.Some? {
        NextKeys(ks, k, sizearray, |v|, m, f.value, k);
        assert [] + Behind(ks, sizearray, |v|, m, f.value) == Behind(ks, sizearray, |v|, m, f.value);
      }
    }
  }

  ghost predicate Inserts<V>(v: seq<Node<V>>, v': seq<Node<V>>, e: nat, k: Key) {
    && |v'| == |v| && e < |v| && !Occupied(v, e) && v'[e].key == k
    && forall x | 0 <= x < |v| && x != e :: v'[x].key == v[x].key
  }

  lemma ChainsInsert<V>(v: seq<Node<V>>, v': seq<Node<V>>, chains: seq<seq<nat>>, t: map<Key, V>, order: seq<Key>, ks: seq<Key>, k: Key, e: nat, sizearray: nat)
    requires Sound(v, chains, t, sizearray) && ChainsAre(v, chains, order, ks, sizearray) && Inserts(v, v', e, k)
    requires !InArray(Truncated(k), sizearray) && chains[Main(k, |v|)] != []
    requires var f := FirstAt(order, sizearray, |v|, Main(k, |v|)); f.Some? && Truncated(f.value) != Truncated(k)
    ensures ChainsAre(v', chains[Main(k, |v|) := [Main(k, |v|), e] + chains[Main(k, |v|)][1..]], order, ks + [k], sizearray)
  {
    hide ChainIs, ChainOk, Inserts, SlotOk, FirstAt, Truncated, Main;
    var m := Main(k, |v|);
    var chains' := chains[m := [m, e] + chains[m][1..]];
    assert |v'| == |v| by { InsertsSize(v, v', e, k); }
    forall i | 0 <= i < |v| ensures ChainIs(v', chains'[i], order, ks + [k], sizearray, i) {
      assert ChainIs(v, chains[i], order, ks, sizearray, i) && ChainOk(v, chains[i], i);
      ChainInsert(v, v', chains[i], chains'[i], order, ks, k, e, sizearray, i);
    }
  }

  lemma InsertsSize<V>(v: seq<Node<V>>, v': seq<Node<V>>, e: nat, k: Key)
    requires Inserts(v, v', e, k)
    ensures |v'| == |v|
  {
  }

  lemma ChainInsert<V>(v: seq<Node<V>>, v': seq<Node<V>>, c: seq<nat>, c': seq<nat>, order: seq<Key>, ks: seq<Key>, k: Key, e: nat, sizearray: nat, i: nat)
    requires |v| > 0 && i < |v| && ChainIs(v, c, order, ks, sizearray, i) && ChainOk(v, c, i) && Inserts(v, v', e, k)
    requires !InArray(Truncated(k), sizearray)
    requires c' == if i == Main(k, |v|) then [i, e] + c[if c == [] then 0 else 1..] else c
    requires var f := FirstAt(order, sizearray, |v|, Main(k, |v|)); f.Some? && Truncated(f.value) != Truncated(k)
    ensures ChainIs(v', c', order, ks + [k], sizearray, i)
  {
    hide FirstAt, Behind, Main, Truncated;
    forall j | 0 <= j < |c| ensures c[j] < |v| && c[j] != e && (j == 0 ==> c[j] == i) { assert LinkOk(v, c, i, j); }
    var f := FirstAt(order, sizearray, |v|, i);
    if f.Some? {
      NextKeys(ks, k, sizearray, |v|, i, f.value, k);
      assert |KeysIn(v, c)| == |[f.value] + Behind(ks, sizearray, |v|, i, f.value)|;
      InsertKeys(v, v', c, c', e, i == Main(k, |v|), f.value, k, Behind(ks, sizearray, |v|, i, f.value));
    }
  }

  lemma InsertKeys<V>(v: seq<Node<V>>, v': seq<Node<V>>, c: seq<nat>, c': seq<nat>, e: nat, here: bool, f: Key, k: Key, b: seq<Key>)
    requires |v'| == |v| && e < |v| && v'[e].key == k && forall x | 0 <= x < |v| && x != e :: v'[x].key == v[x].key
    requires forall j | 0 <= j < |c| :: c[j] < |v| && c[j] != e
    requires KeysIn(v, c) == [f] + b && c' == if here then [c[0], e] + c[1..] else c
    ensures forall j | 0 <= j < |c'| :: c'[j] < |v'|
    ensures KeysIn(v', c') == [f] + ((if here then [k] else []) + b)
  {
    assert forall j | 0 <= j < |c| :: KeysIn(v, c)[j] == ([f] + b)[j];
    if here {
      var ks := KeysIn(v', c');
      assert [f] + ([k] + b) == [f, k] + b;
      forall j | 0 <= j < |ks| ensures ks[j] == ([f, k] + b)[j] {
        if j >= 2 { assert c'[j] == c[j - 1] && ([f] + b)[j - 1] == b[j - 2]; } else { assert KeysIn(v, c)[0] == f; }
      }
    } else {
      assert [] + b == b;
    }
  }

  // ----- looking up

  /** What 'lookup_key' finds: a slot, nothing, or that the search starts in a slot that was never filled. */
  datatype Found = At(x: nat) | Missing | Unset

  /** What the chains are good for: every node is in the chain of its main position. */
  ghost predicate Linked<V>(nodes: seq<Node<V>>, chains: seq<seq<nat>>) {
    && |chains| == |nodes|
    && (forall m | 0 <= m < |nodes| :: ChainOk(nodes, chains[m], m))
    && (forall x | 0 <= x < |nodes| && Occupied(nodes, x) :: InItsChain(nodes, chains, x))
  }

  ghost predicate InItsChain<V>(nodes: seq<Node<V>>, chains: seq<seq<nat>>, x: nat)
    requires |chains| == |nodes| && Occupied(nodes, x)
  {
    var chain := chains[Main(nodes[x].key, |nodes|)];
    nodes[x].keyhash == Hash(nodes[x].key) && x in chain && (nodes[x].nocolliding ==> chain == [x])
  }

  /** The first slot of a chain, from place j on, with this key. */
  ghost function FirstSlot<V>(nodes: seq<Node<V>>, chain: seq<nat>, j: nat, k: Key): Found
    requires j <= |chain|
    decreases |chain| - j
  {
    if j == |chain| then Missing
    else if chain[j] < |nodes| && nodes[chain[j]].key == k then At(chain[j])
    else FirstSlot(nodes, chain, j + 1, k)
  }

  ghost function Lookup<V>(nodes: seq<Node<V>>, chains: seq<seq<nat>>, k: Key): Found
    requires |chains| == |nodes|
  {
    if nodes == [] then Missing
    else if !Occupied(nodes, Main(k, |nodes|)) then Unset
    else FirstSlot(nodes, chains[Main(k, |nodes|)], 0, k)
  }

  lemma {:induction false} NotInChain<V>(nodes: seq<Node<V>>, chain: seq<nat>, m: nat, j: nat, k: Key)
    requires ChainOk(nodes, chain, m) && j <= |chain| && |nodes| > 0 && Main(k, |nodes|) != m
    ensures FirstSlot(nodes, chain, j, k) == Missing
    decreases |chain| - j
  {
    if j < |chain| {
      assert LinkOk(nodes, chain, m, j);
      NotInChain(nodes, chain, m, j + 1, k);
    }
  }

  /** Where the search starts: in the chain of the key, or in another one, where the key is not. */
  lemma StartAt<V>(nodes: seq<Node<V>>, chains: seq<seq<nat>>, k: Key) returns (m: nat, j: nat)
    requires Linked(nodes, chains) && |nodes| > 0 && Occupied(nodes, Main(k, |nodes|))
    ensures |chains| == |nodes| && m < |nodes| && j < |chains[m]| && chains[m][j] == Main(k, |nodes|)
    ensures Lookup(nodes, chains, k) == FirstSlot(nodes, chains[m], j, k)
    ensures var n := nodes[Main(k, |nodes|)]; n.keyhash == Hash(n.key) && (n.nocolliding ==> j == 0 && |chains[m]| == 1)
  {
    var n := Main(k, |nodes|);
    assert InItsChain(nodes, chains, n);
    m := Main(nodes[n].key, |nodes|);
    j :| 0 <= j < |chains[m]| && chains[m][j] == n;
    assert ChainOk(nodes, chains[m], m) && LinkOk(nodes, chains[m], m, j) && ChainOk(nodes, chains[n], n);
    if m != n {
      if chains[n] != [] { HeadSlot(nodes, chains[n], n); }
      NotInChain(nodes, chains[m], m, j, k);
    }
  }

  lemma HeadSlot<V>(nodes: seq<Node<V>>, chain: seq<nat>, m: nat)
    requires ChainOk(nodes, chain, m) && chain != []
    ensures Occupied(nodes, m) && Main(nodes[m].key, |nodes|) == m
  {
    assert LinkOk(nodes, chain, m, 0);
  }

  lemma LinkAt<V>(nodes: seq<Node<V>>, chains: seq<seq<nat>>, m: nat, j: nat)
    requires Linked(nodes, chains) && m < |nodes| && j < |chains[m]|
    ensures LinkOk(nodes, chains[m], m, j) && nodes[chains[m][j]].keyhash == Hash(nodes[chains[m][j]].key)
    ensures j + 1 < |chains[m]| ==> chains[m][j + 1] < |nodes|
  {
    assert ChainOk(nodes, chains[m], m);
    assert j + 1 < |chains[m]| ==> LinkOk(nodes, chains[m], m, j + 1);
    assert LinkOk(nodes, chains[m], m, j);
    assert InItsChain(nodes, chains, chains[m][j]);
  }

  /** The cut keeps the chains. */
  lemma CutLinked<V>(nodes: seq<Node<V>>, sources: seq<Key>, chains: seq<seq<nat>>, t: map<Key, V>, sizearray: nat)
    requires AllCut(nodes, sources) && Sound(View(nodes, sources), chains, t, sizearray)
    ensures Linked(nodes, chains)
  {
    var v := View(nodes, sources);
    forall x | 0 <= x < |nodes| && Occupied(nodes, x) ensures Hash(nodes[x].key) == Hash(v[x].key) && Occupied(v, x) { SameHash(sources[x]); }
    forall m | 0 <= m < |nodes| ensures ChainOk(nodes, chains[m], m) {
      assert ChainOk(v, chains[m], m);
      forall j | 0 <= j < |chains[m]| ensures LinkOk(nodes, chains[m], m, j) { assert LinkOk(v, chains[m], m, j); }
    }
    forall x | 0 <= x < |nodes| && Occupied(nodes, x) ensures InItsChain(nodes, chains, x) {
      assert SlotOk(v, chains, x, t, sizearray);
    }
  }

  /** A chain with the keys of the source. */
  lemma {:induction false} FirstSlotFinds<V>(nodes: seq<Node<V>>, sources: seq<Key>, chain: seq<nat>, m: nat, j: nat, c: Key)
    requires AllCut(nodes, sources) && ChainOk(nodes, chain, m) && j <= |chain|
    requires forall i | 0 <= i < |chain| :: chain[i] < |nodes|
    ensures var ks := KeysIn(View(nodes, sources), chain);
      match FirstSlot(nodes, chain, j, c)
      case At(x) => Occupied(nodes, x) && FindKey(ks[j..], c) == Some(sources[x])
      case _ => FindKey(ks[j..], c) == None
    decreases |chain| - j
  {
    if j < |chain| {
      assert LinkOk(nodes, chain, m, j);
      var ks := KeysIn(View(nodes, sources), chain);
      assert ks[j..][0] == sources[chain[j]] && ks[j..][1..] == ks[j + 1..];
      FirstSlotFinds(nodes, sources, chain, m, j + 1, c);
    }
  }

  /** What a search finds holds the winner. */
  lemma LookupWins<V>(nodes: seq<Node<V>>, sources: seq<Key>, chains: seq<seq<nat>>, t: map<Key, V>, order: seq<Key>, sizearray: nat, q: Key)
    requires AllCut(nodes, sources) && Sound(View(nodes, sources), chains, t, sizearray) && |nodes| > 0
    requires ChainsAre(View(nodes, sources), chains, order, order, sizearray) && !InArray(Truncated(q), sizearray)
    ensures FoundIs(nodes, sources, Lookup(nodes, chains, Truncated(q)), Winner(order, sizearray, |nodes|, q))
  {
    hide Behind, LastWith, FirstAt, Truncated, Main, Sound, ChainIs, ChainOk, FirstSlot;
    var v, c := View(nodes, sources), Truncated(q);
    var m := Main(c, |nodes|);
    CutLinked(nodes, sources, chains, t, sizearray);
    assert ChainIs(v, chains[m], order, order, sizearray, m) && ChainOk(nodes, chains[m], m);
    ChainWins(nodes, sources, chains[m], order, sizearray, q);
  }

  /** The winner is in the slot that was found, or there is none. */
  ghost predicate FoundIs<V>(nodes: seq<Node<V>>, sources: seq<Key>, found: Found, w: Option<Key>)
    requires |sources| == |nodes|
  {
    match found
    case At(x) => Occupied(nodes, x) && w == Some(sources[x])
    case _ => w == None
  }

  lemma ChainWins<V>(nodes: seq<Node<V>>, sources: seq<Key>, chain: seq<nat>, order: seq<Key>, sizearray: nat, q: Key)
    requires AllCut(nodes, sources) && |nodes| > 0 && !InArray(Truncated(q), sizearray)
    requires var m := Main(Truncated(q), |nodes|);
      ChainIs(View(nodes, sources), chain, order, order, sizearray, m) && ChainOk(nodes, chain, m)
    ensures var w := Winner(order, sizearray, |nodes|, q);
      && FoundIs(nodes, sources, FirstSlot(nodes, chain, 0, Truncated(q)), w)
      && (!Occupied(nodes, Main(Truncated(q), |nodes|)) ==> w == None)
  {
    hide Behind, LastWith, FirstAt, Truncated, Main;
    var v, c := View(nodes, sources), Truncated(q);
    var m := Main(c, |nodes|);
    var f := FirstAt(order, sizearray, |nodes|, m);
    if f.Some? {
      var ks, b := KeysIn(v, chain), Behind(order, sizearray, |nodes|, m, f.value);
      assert ks[0] == f.value && LinkOk(nodes, chain, m, 0);
      FirstSlotFinds(nodes, sources, chain, m, 0, c);
      assert ks[0..] == ks && ks[1..] == b;
      CutTwice(q);
      if c != Truncated(f.value) { BehindFinds(order, sizearray, |nodes|, m, f.value, c); }
    }
  }

  lemma CutTwice(k: Key)
    ensures Truncated(Truncated(k)) == Truncated(k)
  {
  }

  // ----- without clashes

  lemma LookupUnset<V>(nodes: seq<Node<V>>, chains: seq<seq<nat>>, k: Key)
    requires |chains| == |nodes|
    ensures Lookup(nodes, chains, k) == Unset <==> |nodes| > 0 && !Occupied(nodes, Main(k, |nodes|))
    ensures nodes == [] ==> Lookup(nodes, chains, k) == Missing
  {
    if |nodes| > 0 { FirstSlotSet(nodes, chains[Main(k, |nodes|)], 0, k); }
  }

  lemma {:induction false} FirstSlotSet<V>(nodes: seq<Node<V>>, chain: seq<nat>, j: nat, k: Key)
    requires j <= |chain|
    ensures FirstSlot(nodes, chain, j, k) != Unset
    decreases |chain| - j
  {
    if j < |chain| { FirstSlotSet(nodes, chain, j + 1, k); }
  }

  lemma SlotSource<V>(nodes: seq<Node<V>>, sources: seq<Key>, chains: seq<seq<nat>>, t: map<Key, V>, sizearray: nat, x: nat)
    requires AllCut(nodes, sources) && Sound(View(nodes, sources), chains, t, sizearray) && Occupied(nodes, x)
    ensures sources[x] in t && nodes[x].value == Some(t[sources[x]])
  {
    assert SlotOk(View(nodes, sources), chains, x, t, sizearray);
  }

  lemma ShortElement<V>(t: map<Key, V>, order: seq<Key>, i: nat)
    requires Ordered(order, t) && Injective(t.Keys)
    ensures Get(Short(t), Int(i + 1)) == Element(t, order, i)
  {
    LastWithIs(order, Int(i + 1));
  }

  lemma SoundShort<V>(nodes: seq<Node<V>>, sources: seq<Key>, chains: seq<seq<nat>>, t: map<Key, V>, sizearray: nat)
    requires AllCut(nodes, sources) && Sound(View(nodes, sources), chains, t, sizearray) && NoClash(t, sizearray)
    ensures Sound(nodes, chains, Short(t), sizearray)
  {
    hide ChainOk, Main, Hash, Truncated, NodeOk, Different;
    var v := View(nodes, sources);
    CutLinked(nodes, sources, chains, t, sizearray);
    forall x | 0 <= x < |nodes| && Occupied(nodes, x) ensures SlotOk(nodes, chains, x, Short(t), sizearray) {
      assert SlotOk(v, chains, x, t, sizearray) && InItsChain(nodes, chains, x);
      ShortNode(nodes, sources, t, sizearray, x);
    }
    ShortDiffer(nodes, sources, chains, t, sizearray);
  }

  lemma ShortNode<V>(nodes: seq<Node<V>>, sources: seq<Key>, t: map<Key, V>, sizearray: nat, x: nat)
    requires AllCut(nodes, sources) && Injective(t.Keys) && Occupied(nodes, x)
    requires NodeOk(View(nodes, sources), x, t, sizearray) && nodes[x].keyhash == Hash(nodes[x].key)
    ensures NodeOk(nodes, x, Short(t), sizearray)
  {
    CutTwice(sources[x]);
  }

  lemma ShortDiffer<V>(nodes: seq<Node<V>>, sources: seq<Key>, chains: seq<seq<nat>>, t: map<Key, V>, sizearray: nat)
    requires AllCut(nodes, sources) && Sound(View(nodes, sources), chains, t, sizearray) && Injective(t.Keys)
    ensures Different(nodes)
  {
    var v := View(nodes, sources);
    forall x, y | 0 <= x < y < |nodes| && Occupied(nodes, x) && Occupied(nodes, y) ensures nodes[x].key != nodes[y].key {
      assert SlotOk(v, chains, x, t, sizearray) && SlotOk(v, chains, y, t, sizearray);
      assert Occupied(v, x) && Occupied(v, y) && v[x].key != v[y].key;
      assert sources[x] in t.Keys && sources[y] in t.Keys;
    }
  }

  lemma AllStored<V>(nodes: seq<Node<V>>, sources: seq<Key>, chains: seq<seq<nat>>, t: map<Key, V>, order: seq<Key>, sizearray: nat)
    requires AllCut(nodes, sources) && Sound(View(nodes, sources), chains, t, sizearray) && NoClash(t, sizearray)
    requires Ordered(order, t) && ChainsAre(View(nodes, sources), chains, order, order, sizearray)
    ensures forall k | k in HashKeys(Short(t), sizearray) :: Stored(nodes, k)
  {
    hide Sound, ChainsAre, Truncated, Main;
    forall k | k in HashKeys(Short(t), sizearray) ensures Stored(nodes, k) {
      var l :| l in t && Truncated(l) == k;
      CutTwice(l);
      OneStored(nodes, sources, chains, t, order, sizearray, l);
    }
  }

  lemma OneStored<V>(nodes: seq<Node<V>>, sources: seq<Key>, chains: seq<seq<nat>>, t: map<Key, V>, order: seq<Key>, sizearray: nat, l: Key)
    requires AllCut(nodes, sources) && Sound(View(nodes, sources), chains, t, sizearray) && l in order && !InArray(Truncated(l), sizearray)
    requires ChainsAre(View(nodes, sources), chains, order, order, sizearray)
    ensures Stored(nodes, Truncated(l))
  {
    hide FirstAt, Behind, Truncated, Stored;
    var v := View(nodes, sources);
    var f := MainTaken(v, chains, t, order, order, l, sizearray);
    var m := Main(l, |v|);
    if Truncated(f) == Truncated(l) {
      StoredAt(nodes, m);
    } else {
      assert ChainIs(v, chains[m], order, order, sizearray, m) && ChainOk(v, chains[m], m);
      BehindHas(order, sizearray, |v|, m, f, l);
      var ks := KeysIn(v, chains[m]);
      assert l in [f] + Behind(order, sizearray, |v|, m, f);
      var j :| 0 <= j < |ks| && ks[j] == l;
      assert LinkOk(v, chains[m], m, j);
      StoredAt(nodes, chains[m][j]);
    }
  }

  lemma StoredAt<V>(nodes: seq<Node<V>>, x: nat)
    requires Occupied(nodes, x)
    ensures Stored(nodes, nodes[x].key)
  {
  }

  // ----- the table

  /** What the array has at index i after these keys. */
  function Element<V>(t: map<Key, V>, ks: seq<Key>, i: nat): Option<V> {
    match LastWith(ks, Int(i + 1))
    case None => None
    case Some(k) => Get(t, k)
  }

  lemma ElementNext<V>(t: map<Key, V>, ks: seq<Key>, k: Key, i: nat)
    ensures Element(t, ks + [k], i) == if Truncated(k) == Int(i + 1) then Get(t, k) else Element(t, ks, i)
  {
    NextKeys(ks, k, 0, 1, 0, k, Int(i + 1));
  }

  /** What a read gives: a value, nothing, or whatever is in a slot that was never filled. */
  datatype Answer<V> = Value(v: V) | Nothing | Garbage

  class Frozen<V> {
    const elements: array<Option<V>>
    const hash: array<Node<V>>
    ghost var chains: seq<seq<nat>>
    /** The keys of the source in the slots; the nodes have what the cut leaves of them. */
    ghost var sources: seq<Key>

    ghost predicate Filling(t: map<Key, V>)
      reads this, hash
    {
      && |sources| == |chains| == hash.Length
      && AllCut(hash[..], sources) && Sound(View(hash[..], sources), chains, t, elements.Length)
      && |HashKeys(t, elements.Length)| <= hash.Length
    }

    /** The array part has the values of the last of its keys among the first n. */
    ghost predicate ArrayFilled(t: map<Key, V>, order: seq<Key>, n: nat)
      requires n <= |order|
      reads elements
    {
      forall i | 0 <= i < elements.Length :: elements[i] == Element(t, order[..n], i)
    }

    /** What the two passes make of a table whose keys come in this order. */
    ghost predicate Built(t: map<Key, V>, order: seq<Key>)
      reads this, hash, elements
    {
      && Ordered(order, t) && elements.Length < 0x8000_0000
      && Filling(t) && hash.Length == |Counted(t, elements.Length)| && ArrayFilled(t, order, |order|)
      && (hash.Length > 0 ==> ChainsAre(View(hash[..], sources), chains, order, order, elements.Length))
    }

    /** A table without clashes: all slots are in use, each by one key. */
    ghost predicate Valid(t: map<Key, V>)
      reads this, hash, elements
    {
      && Sound(hash[..], chains, t, elements.Length) && hash.Length == |HashKeys(t, elements.Length)|
      && (forall i | 0 <= i < elements.Length :: elements[i] == Get(t, Int(i + 1)))
      && (forall k | k in HashKeys(t, elements.Length) :: Stored(hash[..], k))
      && (forall k | k in t :: Fits(k))
    }

    /** The first part of 'convtable': all slots are empty. */
    constructor (sizearray: nat, sizehash: nat)
      ensures elements.Length == sizearray && hash.Length == sizehash && fresh(elements) && fresh(hash)
      ensures (forall i | 0 <= i < sizearray :: elements[i] == None)
      ensures (forall i | 0 <= i < sizehash :: hash[i].value == None)
      ensures chains == seq(sizehash, _ => []) && |sources| == sizehash
    {
      elements := new Option<V>[sizearray](_ => None);
      hash := new Node<V>[sizehash](_ => Node(Int(0), 0, -1, false, None));
      chains := seq(sizehash, _ => []);
      sources := seq(sizehash, _ => Int(0));
    }

    /** 'fillnocolliding': every key whose main position is free goes there. */
    method FillNoColliding(t: map<Key, V>, order: seq<Key>)
      requires Ordered(order, t) && Filling(t) && hash.Length > 0 && ArrayFilled(t, order, 0)
      requires FirstsPlaced(View(hash[..], sources), chains, [], elements.Length)
      modifies elements, hash, `chains, `sources
      ensures Filling(t) && ArrayFilled(t, order, |order|)
      ensures FirstsPlaced(View(hash[..], sources), chains, order, elements.Length)
    {
      hide Sound, Main, FirstsPlaced, LastWith, AllCut, Truncated, Element;
      for i := 0 to |order|
        invariant Filling(t) && ArrayFilled(t, order, i)
        invariant FirstsPlaced(View(hash[..], sources), chains, order[..i], elements.Length)
      {
        var k := order[i];
        var key := Truncated(k);
        assert k in t && order[..i + 1] == order[..i] + [k] && k !in order[..i];
        ghost var before := elements[..];
        assert forall e | 0 <= e < elements.Length :: before[e] == Element(t, order[..i], e);
        if InArray(key, elements.Length) {
          elements[key.n - 1] := Some(t[k]);
          FirstsNext(View(hash[..], sources), View(hash[..], sources), chains, chains, order[..i], k, elements.Length);
        } else {
          FillMain(t, k, order[..i]);
        }
        ghost var ks := order[..i + 1];
        forall e | 0 <= e < elements.Length ensures elements[e] == Element(t, ks, e) {
          ElementNext(t, order[..i], k, e);
          assert before[e] == Element(t, order[..i], e);
        }
      }
      assert order[..|order|] == order;
    }

    method FillMain(t: map<Key, V>, k: Key, ghost ks: seq<Key>)
      requires Filling(t) && hash.Length > 0 && k in HashKeys(t, elements.Length) && k !in ks
      requires FirstsPlaced(View(hash[..], sources), chains, ks, elements.Length)
      modifies hash, `chains, `sources
      ensures Filling(t) && FirstsPlaced(View(hash[..], sources), chains, ks + [k], elements.Length)
    {
      hide Sound, FirstsPlaced, Stored, FirstAt;
      ghost var v := View(hash[..], sources);
      var key := Truncated(k);
      var m := Main(key, hash.Length);
      SameHash(k);
      NotStoredFirst(v, chains, ks, k, elements.Length);
      if hash[m].value.None? {
        PlaceMain(v, chains, t, elements.Length, k);
        ghost var nodes := hash[..];
        hash[m] := Node(key, Hash(key), -1, true, Some(t[k]));
        assert hash[..] == nodes[m := hash[m]];
        ViewUpdate(nodes, sources, m, hash[m], k);
        sources := sources[m := k];
        FirstsNext(v, View(hash[..], sources), chains, chains[m := [m]], ks, k, elements.Length);
        chains := chains[m := [m]];
      } else {
        FirstsNext(v, v, chains, chains, ks, k, elements.Length);
      }
    }

    /** 'fillcolliding': the other keys go into the slots that are left. */
    method FillColliding(t: map<Key, V>, order: seq<Key>)
      requires Ordered(order, t) && Filling(t) && hash.Length > 0
      requires FirstsPlaced(View(hash[..], sources), chains, order, elements.Length)
      modifies hash, `chains, `sources
      ensures Filling(t) && ChainsAre(View(hash[..], sources), chains, order, order, elements.Length)
    {
      FirstsAreChains(View(hash[..], sources), chains, order, elements.Length);
      hide Sound, ChainsAre, FirstsPlaced, AllCut, Truncated;
      var emptyslot := 0;
      assert order[..0] == [];
      for i := 0 to |order|
        invariant Filling(t) && 0 <= emptyslot <= hash.Length
        invariant ChainsAre(View(hash[..], sources), chains, order, order[..i], elements.Length)
        invariant forall x | 0 <= x < emptyslot :: hash[x].value.Some?
      {
        var k := order[i];
        assert order[..i + 1] == order[..i] + [k] && k !in order[..i];
        if InArray(Truncated(k), elements.Length) {
          ChainsSkip(View(hash[..], sources), chains, order, order[..i], k, elements.Length);
        } else {
          emptyslot := FillSlot(t, order, k, order[..i], emptyslot);
        }
      }
      assert order[..|order|] == order;
    }

    method FillSlot(t: map<Key, V>, ghost order: seq<Key>, k: Key, ghost ks: seq<Key>, emptyslot0: nat) returns (emptyslot: nat)
      requires Filling(t) && hash.Length > 0 && k in order && k in t && k in HashKeys(t, elements.Length) && k !in ks
      requires ChainsAre(View(hash[..], sources), chains, order, ks, elements.Length) && emptyslot0 <= hash.Length
      requires forall x | 0 <= x < emptyslot0 :: hash[x].value.Some?
      modifies hash, `chains, `sources
      ensures Filling(t) && ChainsAre(View(hash[..], sources), chains, order, ks + [k], elements.Length)
      ensures emptyslot <= hash.Length && forall x | 0 <= x < emptyslot :: hash[x].value.Some?
    {
      hide Sound, ChainsAre, Stored, FirstAt, Truncated;
      emptyslot := emptyslot0;
      ghost var v := View(hash[..], sources);
      var key := Truncated(k);
      var m := Main(key, hash.Length);
      SameHash(k);
      ghost var f := MainTaken(v, chains, t, order, ks, k, elements.Length);
      if hash[m].key != key {
        SlotLeft(v, chains, t, elements.Length, k);
        var e := EmptySlot(emptyslot);
        emptyslot := e + 1;
        InsertBehind(t, order, k, ks, m, e);
      } else {
        ChainsSkip(v, chains, order, ks, k, elements.Length);
      }
    }

    method InsertBehind(t: map<Key, V>, ghost order: seq<Key>, k: Key, ghost ks: seq<Key>, m: nat, e: nat)
      requires Filling(t) && k in t && k in HashKeys(t, elements.Length) && hash.Length > 0
      requires ChainsAre(View(hash[..], sources), chains, order, ks, elements.Length)
      requires m == Main(k, hash.Length) && chains[m] != [] && hash[m].value.Some? && e < hash.Length && hash[e].value.None?
      requires !Stored(View(hash[..], sources), k)
      requires var f := FirstAt(order, elements.Length, hash.Length, m); f.Some? && Truncated(f.value) != Truncated(k)
      modifies hash, `chains, `sources
      ensures Filling(t) && ChainsAre(View(hash[..], sources), chains, order, ks + [k], elements.Length)
      ensures hash[e].value.Some? && forall x | 0 <= x < hash.Length && old(hash[x].value.Some?) :: hash[x].value.Some?
    {
      hide Sound, ChainsAre, Stored, FirstAt, Main;
      ghost var v := View(hash[..], sources);
      var key := Truncated(k);
      SameHash(k);
      PlaceBehind(v, chains, t, elements.Length, k, e);
      ghost var nodes := hash[..];
      hash[e] := Node(key, Hash(key), hash[m].next, false, Some(t[k]));
      hash[m] := hash[m].(next := e, nocolliding := false);
      assert hash[..] == nodes[m := hash[m]][e := hash[e]];
      ViewUpdate(nodes, sources, m, hash[m], sources[m]);
      assert sources[m := sources[m]] == sources;
      ViewUpdate(nodes[m := hash[m]], sources, e, hash[e], k);
      sources := sources[e := k];
      ChainsInsert(v, View(hash[..], sources), chains, t, order, ks, k, e, elements.Length);
      chains := chains[m := [m, e] + chains[m][1..]];
    }

    /** The search for an empty slot, which succeeds. */
    method EmptySlot(from: nat) returns (e: nat)
      requires from <= hash.Length && forall x | 0 <= x < from :: hash[x].value.Some?
      requires exists x | 0 <= x < hash.Length :: hash[x].value.None?
      ensures e < hash.Length && hash[e].value.None? && forall x | 0 <= x < e :: hash[x].value.Some?
    {
      ghost var x :| 0 <= x < hash.Length && hash[x].value.None?;
      e := from;
      while hash[e].value.Some?
        invariant e <= x && forall y | 0 <= y < e :: hash[y].value.Some?
        decreases hash.Length - e
      {
        e := e + 1;
      }
    }

    /** 'convtable' */
    static method ConvTable(t: map<Key, V>, order: seq<Key>, sizearray: nat) returns (f: Frozen<V>)
      requires Ordered(order, t) && sizearray < 0x8000_0000
      ensures fresh(f) && f.elements.Length == sizearray && f.Built(t, order)
      ensures NoClash(t, sizearray) ==> f.Valid(Short(t))
    {
      hide Sound, Counted, HashKeys, Truncated, Main, Ordered, NoClash, FirstsPlaced, ChainsAre, LastWith, AllCut;
      var sizehash := CountSize(t, order, sizearray);
      f := new Frozen(sizearray, sizehash);
      FewerHashed(t, sizearray);
      f.StartEmpty(t, order);
      if sizehash > 0 {
        f.FillNoColliding(t, order);
        f.FillColliding(t, order);
      } else {
        f.FillArray(t, order);
      }
      if NoClash(t, sizearray) { f.BuiltValid(t, order); }
    }

    lemma StartEmpty(t: map<Key, V>, order: seq<Key>)
      requires forall i | 0 <= i < elements.Length :: elements[i] == None
      requires forall i | 0 <= i < hash.Length :: hash[i].value == None
      requires chains == seq(hash.Length, _ => []) && |sources| == hash.Length && |HashKeys(t, elements.Length)| <= hash.Length
      ensures Filling(t) && ArrayFilled(t, order, 0)
      ensures hash.Length > 0 ==> FirstsPlaced(View(hash[..], sources), chains, [], elements.Length)
    {
      EmptySound(View(hash[..], sources), chains, t, elements.Length);
      assert order[..0] == [];
    }

    /** The other branch of 'convtable': all keys are in the array. */
    method FillArray(t: map<Key, V>, ghost order: seq<Key>)
      requires Ordered(order, t) && Filling(t) && hash.Length == 0 == |Counted(t, elements.Length)| && elements.Length < 0x8000_0000
      modifies elements
      ensures Filling(t) && ArrayFilled(t, order, |order|)
    {
      for i := 0 to elements.Length
        invariant forall j | 0 <= j < i :: elements[j] == Get(t, Int(j + 1))
      {
        elements[i] := Get(t, Int(i + 1));
      }
      assert order[..|order|] == order;
      forall i | 0 <= i < elements.Length ensures elements[i] == Element(t, order, i) {
        LastWithIs(order, Int(i + 1));
        OnlyArray(t, elements.Length);
      }
    }

    /** Without clashes, the table with the keys cut off. */
    lemma BuiltValid(t: map<Key, V>, order: seq<Key>)
      requires Built(t, order) && NoClash(t, elements.Length)
      ensures Valid(Short(t))
    {
      hide Sound, ChainsAre, Counted, HashKeys, Stored;
      ShortFits(t);
      ShortHashKeys(t, elements.Length);
      forall i | 0 <= i < elements.Length ensures elements[i] == Get(Short(t), Int(i + 1)) {
        assert order[..|order|] == order;
        ShortElement(t, order, i);
      }
      SoundShort(hash[..], sources, chains, t, elements.Length);
      if hash.Length > 0 {
        AllStored(hash[..], sources, chains, t, order, elements.Length);
      } else {
        NoKeysLeft(hash[..], Short(t), elements.Length);
      }
    }

    /** And every slot is filled, so that no read meets one that is not. */
    lemma NoGarbage(t: map<Key, V>, order: seq<Key>)
      requires Built(t, order) && NoClash(t, elements.Length)
      ensures forall x | 0 <= x < hash.Length :: hash[x].value.Some?
    {
      hide Sound, ChainsAre, Counted, HashKeys, Stored;
      BuiltValid(t, order);
      NoSlotLeft(hash[..], chains, Short(t), elements.Length);
      forall x | 0 <= x < hash.Length ensures hash[x].value.Some? { assert Occupied(hash[..], x); }
    }

    /** 'lookup_key' */
    method LookupKey(k: Key) returns (found: Found)
      requires Linked(hash[..], chains)
      ensures found == Lookup(hash[..], chains, k)
    {
      hide Linked, Hash, Main;
      if hash.Length == 0 {
        return Missing;
      }
      ghost var nodes := hash[..];
      var x := Main(k, hash.Length);
      if hash[x].value.None? {
        return Unset;
      }
      ghost var m, j := StartAt(nodes, chains, k);
      if Hash(k) != hash[x].keyhash && hash[x].nocolliding {
        return Missing;
      }
      while true
        invariant m < |nodes| == |chains| && 0 <= j < |chains[m]| && 0 <= x < hash.Length && x == chains[m][j]
        invariant Lookup(nodes, chains, k) == FirstSlot(nodes, chains[m], j, k)
        decreases |chains[m]| - j
      {
        LinkAt(nodes, chains, m, j);
        if Hash(k) == hash[x].keyhash && hash[x].key == k {
          return At(x);
        }
        if hash[x].next < 0 {
          return Missing;
        }
        x := hash[x].next;
        j := j + 1;
      }
    }

    /** 'lindexconf', for any integer or string: the value of the winner. */
    method Index(ghost t: map<Key, V>, ghost order: seq<Key>, q: Key) returns (r: Answer<V>)
      requires Built(t, order)
      ensures var w := Winner(order, elements.Length, hash.Length, q);
        if w.Some? then w.value in t && r == Value(t[w.value]) else r == Nothing || r == Garbage
      ensures r == Garbage <==>
        var key := Truncated(q); !InArray(key, elements.Length) && hash.Length > 0 && hash[Main(key, hash.Length)].value.None?
    {
      hide Sound, ChainsAre, Counted, HashKeys, Main, Lookup, Linked, AllCut;
      WinnerIs(order, t, elements.Length, q);
      var key := Truncated(q);
      if InArray(key, elements.Length) {
        assert order[..|order|] == order && elements[key.n - 1] == Element(t, order, key.n - 1);
        return if elements[key.n - 1].Some? then Value(elements[key.n - 1].value) else Nothing;
      }
      CutLinked(hash[..], sources, chains, t, elements.Length);
      var found := LookupKey(key);
      if hash.Length > 0 { LookupWins(hash[..], sources, chains, t, order, elements.Length, q); }
      LookupUnset(hash[..], chains, key);
      match found {
        case At(x) =>
          SlotSource(hash[..], sources, chains, t, elements.Length, x);
          r := Value(hash[x].value.value);
        case Missing => r := Nothing;
        case Unset => r := Garbage;
      }
    }

    /** The first array index from i on that has a value. */
    method NextElement(i: nat) returns (k: nat)
      requires i <= elements.Length
      ensures i <= k <= elements.Length && (k < elements.Length ==> elements[k].Some?)
      ensures ArrayKeys(elements[..], i) == ArrayKeys(elements[..], k)
    {
      k := i;
      while k < elements.Length && elements[k].None?
        invariant i <= k <= elements.Length && ArrayKeys(elements[..], i) == ArrayKeys(elements[..], k)
      {
        k := k + 1;
      }
    }

    /** 'lnextkey' after an array index, or at the beginning; when the array is through, 'pushfirsthash'. */
    method NextInArray(i: nat) returns (next: Option<Key>)
      requires i <= elements.Length
      ensures next == First(KeysFrom(elements[..], hash[..], i, 0))
    {
      var k := NextElement(i);
      if k < elements.Length {
        return Some(Int(k + 1));
      }
      if hash.Length > 0 {
        return Some(hash[0].key);
      }
      next := None;
    }

    /** 'lnextkey' */
    method NextKey(ghost t: map<Key, V>, prev: Option<Key>) returns (next: Option<Key>)
      requires Valid(t)
      ensures next == First(Remaining(elements[..], hash[..], Asked(prev)))
    {
      hide Sound, HashKeys, Stored, Linked, Lookup;
      if prev.None? {
        next := NextInArray(0);
        return;
      }
      var key := Truncated(prev.value);
      if InArray(key, elements.Length) {
        next := NextInArray(key.n);
        return;
      }
      SoundLinked(hash[..], chains, t, elements.Length);
      var found := LookupKey(key);
      AtOneSlot(hash[..], chains, t, elements.Length);
      LookupIs(hash[..], chains, t, elements.Length, key);
      SlotOfIs(hash[..], key, 0, if found.At? then found.x else 0);
      if found.At? {
        var index := found.x + 1;
        assert Remaining(elements[..], hash[..], Some(key)) == KeysFrom(elements[..], hash[..], elements.Length, index);
        if index == hash.Length {
          return None;
        }
        return Some(hash[index].key);
      }
      next := None;
    }

    lemma Listed(t: map<Key, V>)
      requires Valid(t)
      ensures var es, nodes := elements[..], hash[..];
        && KeysDiffer(nodes, |es|) && EachOnce(KeysFrom(es, nodes, 0, 0), t)
        && Asked(None) == None
    {
      AtOneSlot(hash[..], chains, t, elements.Length);
      hide Sound, KeysDiffer, Stored, HashKeys;
      AllKeysOnce(elements[..], hash[..], t);
    }

    lemma HasRoom(t: map<Key, V>, k: Key)
      requires Valid(t) && k in t
      ensures Asked(Some(k)) == Some(k)
    {
    }

    /** 'pairs', the iteration from nothing until nothing comes: every key once. */
    method Pairs(ghost t: map<Key, V>) returns (visited: seq<Key>)
      requires Valid(t)
      ensures EachOnce(visited, t)
    {
      ghost var es, nodes := elements[..], hash[..];
      hide *;
      Listed(t);
      visited := [];
      var prev := None;
      var next := NextKey(t, prev);
      FirstIs(Remaining(es, nodes, prev));
      Start(es, nodes);
      while next.Some?
        invariant Valid(t) && es == elements[..] && nodes == hash[..] && Visiting(es, nodes, visited, prev)
        invariant next.None? <==> Remaining(es, nodes, prev) == []
        invariant next.Some? ==> next.value == Remaining(es, nodes, prev)[0]
        decreases |Remaining(es, nodes, prev)|
      {
        Visit(es, nodes, visited, prev, t);
        HasRoom(t, next.value);
        visited := visited + [next.value];
        prev := next;
        next := NextKey(t, prev);
        FirstIs(Remaining(es, nodes, prev));
      }
      Finish(es, nodes, visited, prev);
    }
  }

  /** What has been visited and what remains are all keys. */
  ghost predicate Visiting<V>(es: seq<Option<V>>, nodes: seq<Node<V>>, visited: seq<Key>, prev: Option<Key>) {
    visited + Remaining(es, nodes, prev) == KeysFrom(es, nodes, 0, 0)
  }

  lemma Start<V>(es: seq<Option<V>>, nodes: seq<Node<V>>)
    ensures Visiting(es, nodes, [], None)
  {
    hide KeysFrom;
    assert [] + KeysFrom(es, nodes, 0, 0) == KeysFrom(es, nodes, 0, 0);
  }

  lemma Visit<V>(es: seq<Option<V>>, nodes: seq<Node<V>>, visited: seq<Key>, prev: Option<Key>, t: map<Key, V>)
    requires KeysDiffer(nodes, |es|) && EachOnce(KeysFrom(es, nodes, 0, 0), t)
    requires Visiting(es, nodes, visited, prev) && Remaining(es, nodes, prev) != []
    ensures var k := Remaining(es, nodes, prev)[0];
      && Visiting(es, nodes, visited + [k], Some(k)) && k in t
      && |Remaining(es, nodes, Some(k))| < |Remaining(es, nodes, prev)|
  {
    hide KeysDiffer, EachOnce, KeysFrom, Remaining;
    var r := Remaining(es, nodes, prev);
    RemainingStep(es, nodes, prev);
    TakeFirst(visited, r);
    InTable(KeysFrom(es, nodes, 0, 0), r[0], t);
  }

  lemma Finish<V>(es: seq<Option<V>>, nodes: seq<Node<V>>, visited: seq<Key>, prev: Option<Key>)
    requires Visiting(es, nodes, visited, prev) && Remaining(es, nodes, prev) == []
    ensures visited == KeysFrom(es, nodes, 0, 0)
  {
    hide KeysFrom, Remaining;
    assert visited + [] == visited;
  }

  /** A sequence has every key of a table once and no other. */
  ghost predicate EachOnce<V>(ks: seq<Key>, t: map<Key, V>) {
    (forall k :: k in ks <==> k in t) && (forall i, j | 0 <= i < j < |ks| :: ks[i] != ks[j])
  }

  lemma InTable<V>(ks: seq<Key>, k: Key, t: map<Key, V>)
    requires EachOnce(ks, t) && k in ks
    ensures k in t
  {
  }

  /** How a key is read from the caller. */
  function Asked(prev: Option<Key>): Option<Key> {
    if prev.None? then None else Some(Truncated(prev.value))
  }

  lemma TakeFirst<T>(a: seq<T>, r: seq<T>)
    requires r != []
    ensures a + [r[0]] + r[1..] == a + r && r[0] in a + r
  {
    assert (a + r)[|a|] == r[0];
  }

  lemma FirstIs<T>(s: seq<T>)
    ensures First(s).None? <==> s == []
    ensures s != [] ==> First(s) == Some(s[0])
  {
  }

  /** Of the keys that the cut makes the same exactly one is answered for, and it is answered for all of them. A key
      that the source does not have is right to get nothing exactly if none of them becomes the same. */
  lemma IndexExact<V>(order: seq<Key>, t: map<Key, V>, sizearray: nat, q: Key)
    requires Ordered(order, t) && sizearray < 0x8000_0000
    ensures var size := |Counted(t, sizearray)|; var w := Winner(order, sizearray, size, q);
      && (w.None? <==> forall k | k in t :: Truncated(k) != Truncated(q))
      && (w.Some? ==> w.value in t && Truncated(w.value) == Truncated(q) && Winner(order, sizearray, size, w.value) == w)
      && ((forall k | k in t && Truncated(k) == Truncated(q) :: k == q) ==> w == if q in t then Some(q) else None)
  {
    WinnerIs(order, t, sizearray, q);
  }

  /** So the answers for all keys of 32 bits are right exactly if every longer integer of the source has such a
      rival, and loses to it. */
  lemma AlwaysRight<V>(order: seq<Key>, t: map<Key, V>, sizearray: nat)
    requires Ordered(order, t) && sizearray < 0x8000_0000
    ensures var size := |Counted(t, sizearray)|;
      (forall q | Fits(q) :: Winner(order, sizearray, size, q) == if q in t then Some(q) else None)
      <==> forall k | k in t && !Fits(k) :: Winner(order, sizearray, size, k) == Some(Truncated(k))
  {
    hide Truncated, Counted, FirstAt, LastWith;
    var size := |Counted(t, sizearray)|;
    if forall q | Fits(q) :: Winner(order, sizearray, size, q) == if q in t then Some(q) else None {
      forall k | k in t && !Fits(k) ensures Winner(order, sizearray, size, k) == Some(Truncated(k)) {
        TruncatedFits(k);
        WinnerIs(order, t, sizearray, Truncated(k));
      }
    }
    if forall k | k in t && !Fits(k) :: Winner(order, sizearray, size, k) == Some(Truncated(k)) {
      forall q | Fits(q) ensures Winner(order, sizearray, size, q) == if q in t then Some(q) else None {
        TruncatedFits(q);
        WinnerIs(order, t, sizearray, q);
        var w := Winner(order, sizearray, size, q);
        if w.Some? {
          TruncatedFits(w.value);
          WinnerSame(order, sizearray, size, q, w.value);
        }
      }
    }
  }

  lemma WinnerSame(order: seq<Key>, sizearray: nat, size: nat, q: Key, k: Key)
    requires Truncated(q) == Truncated(k)
    ensures Winner(order, sizearray, size, q) == Winner(order, sizearray, size, k)
  {
  }

  lemma TruncatedFits(k: Key)
    ensures Fits(Truncated(k)) && Truncated(Truncated(k)) == Truncated(k) && (Fits(k) <==> Truncated(k) == k)
  {
  }

  function First<T>(s: seq<T>): Option<T> {
    if s == [] then None else Some(s[0])
  }

  function ArrayKeys<V>(elements: seq<Option<V>>, i: nat): seq<Key>
    requires i <= |elements|
    decreases |elements| - i
  {
    if i == |elements| then [] else (if elements[i].Some? then [Int(i + 1)] else []) + ArrayKeys(elements, i + 1)
  }

  function SlotKeys<V>(nodes: seq<Node<V>>, x: nat): seq<Key>
    requires x <= |nodes|
    decreases |nodes| - x
  {
    if x == |nodes| then [] else [nodes[x].key] + SlotKeys(nodes, x + 1)
  }

  /** The keys from an array index and a slot on, in the order of iteration. */
  function KeysFrom<V>(elements: seq<Option<V>>, nodes: seq<Node<V>>, i: nat, x: nat): seq<Key>
    requires i <= |elements| && x <= |nodes|
  {
    ArrayKeys(elements, i) + SlotKeys(nodes, x)
  }

  /** The first slot from x on with this key. */
  function SlotOf<V>(nodes: seq<Node<V>>, k: Key, x: nat): (y: nat)
    requires x <= |nodes|
    ensures x <= y <= |nodes|
    decreases |nodes| - x
  {
    if x == |nodes| || nodes[x].key == k then x else SlotOf(nodes, k, x + 1)
  }

  lemma {:induction false} SlotOfIs<V>(nodes: seq<Node<V>>, k: Key, x: nat, z: nat)
    requires x <= |nodes|
    ensures var y := SlotOf(nodes, k, x); y < |nodes| ==> nodes[y].key == k
    ensures x <= z < |nodes| && nodes[z].key == k ==> SlotOf(nodes, k, x) <= z
    decreases |nodes| - x
  {
    if x < |nodes| && nodes[x].key != k { SlotOfIs(nodes, k, x + 1, z); }
  }

  /** What is still to come after a key, or at the beginning. */
  function Remaining<V>(elements: seq<Option<V>>, nodes: seq<Node<V>>, prev: Option<Key>): seq<Key> {
    if prev.None? then KeysFrom(elements, nodes, 0, 0)
    else if InArray(prev.value, |elements|) then KeysFrom(elements, nodes, prev.value.n, 0)
    else
      var x := SlotOf(nodes, prev.value, 0);
      if x < |nodes| then KeysFrom(elements, nodes, |elements|, x + 1) else []
  }

  lemma {:induction false} ArrayStep<V>(elements: seq<Option<V>>, i: nat)
    requires i <= |elements| && ArrayKeys(elements, i) != []
    ensures var k := ArrayKeys(elements, i)[0];
      InArray(k, |elements|) && ArrayKeys(elements, k.n) == ArrayKeys(elements, i)[1..]
    decreases |elements| - i
  {
    if elements[i].None? { ArrayStep(elements, i + 1); }
  }

  ghost predicate KeysDiffer<V>(nodes: seq<Node<V>>, sizearray: nat) {
    && (forall x, y | 0 <= x < |nodes| && 0 <= y < |nodes| && nodes[x].key == nodes[y].key :: x == y)
    && (forall x | 0 <= x < |nodes| :: !InArray(nodes[x].key, sizearray))
  }

  /** After the first of the remaining keys the others remain. */
  lemma RemainingStep<V>(elements: seq<Option<V>>, nodes: seq<Node<V>>, prev: Option<Key>)
    requires KeysDiffer(nodes, |elements|) && Remaining(elements, nodes, prev) != []
    ensures var r := Remaining(elements, nodes, prev); Remaining(elements, nodes, Some(r[0])) == r[1..]
  {
    hide SlotOf, KeysFrom, KeysDiffer;
    if prev.None? {
      StepFrom(elements, nodes, 0, 0);
    } else if InArray(prev.value, |elements|) {
      StepFrom(elements, nodes, prev.value.n, 0);
    } else {
      StepFrom(elements, nodes, |elements|, SlotOf(nodes, prev.value, 0) + 1);
    }
  }

  lemma StepFrom<V>(elements: seq<Option<V>>, nodes: seq<Node<V>>, i: nat, x: nat)
    requires KeysDiffer(nodes, |elements|) && i <= |elements| && x <= |nodes| && (x == 0 || i == |elements|)
    requires KeysFrom(elements, nodes, i, x) != []
    ensures var r := KeysFrom(elements, nodes, i, x); Remaining(elements, nodes, Some(r[0])) == r[1..]
  {
    hide ArrayKeys, SlotKeys, Remaining, KeysDiffer;
    var a, b := ArrayKeys(elements, i), SlotKeys(nodes, x);
    if a != [] {
      ArrayStep(elements, i);
      AfterElement(elements, nodes, a[0]);
      assert x == 0 by { NoElements(elements); }
      assert (a + b)[1..] == a[1..] + b;
    } else {
      SlotStep(nodes, x);
      NoElements(elements);
      AfterSlot(elements, nodes, x);
      assert a + b == b && (a + b)[1..] == SlotKeys(nodes, x + 1);
    }
  }

  lemma NoElements<V>(elements: seq<Option<V>>)
    ensures ArrayKeys(elements, |elements|) == []
  {
  }

  lemma SlotStep<V>(nodes: seq<Node<V>>, x: nat)
    requires x <= |nodes| && SlotKeys(nodes, x) != []
    ensures x < |nodes| && SlotKeys(nodes, x)[0] == nodes[x].key && SlotKeys(nodes, x)[1..] == SlotKeys(nodes, x + 1)
  {
  }

  lemma AfterElement<V>(elements: seq<Option<V>>, nodes: seq<Node<V>>, k: Key)
    requires InArray(k, |elements|)
    ensures Remaining(elements, nodes, Some(k)) == KeysFrom(elements, nodes, k.n, 0)
  {
  }

  lemma SlotFound<V>(nodes: seq<Node<V>>, sizearray: nat, x: nat)
    requires KeysDiffer(nodes, sizearray) && x < |nodes|
    ensures SlotOf(nodes, nodes[x].key, 0) == x && !InArray(nodes[x].key, sizearray)
  {
    hide SlotOf, InArray;
    SlotOfIs(nodes, nodes[x].key, 0, x);
  }

  lemma AfterSlot<V>(elements: seq<Option<V>>, nodes: seq<Node<V>>, x: nat)
    requires KeysDiffer(nodes, |elements|) && x < |nodes|
    ensures Remaining(elements, nodes, Some(nodes[x].key)) == KeysFrom(elements, nodes, |elements|, x + 1)
  {
    hide KeysFrom, SlotOf, KeysDiffer, InArray;
    SlotFound(nodes, |elements|, x);
  }

  lemma {:induction false} ArrayKeysAre<V>(elements: seq<Option<V>>, i: nat)
    requires i <= |elements|
    ensures forall k :: k in ArrayKeys(elements, i) <==> k.Int? && i < k.n <= |elements| && elements[k.n - 1].Some?
    ensures forall a, b | 0 <= a < b < |ArrayKeys(elements, i)| :: ArrayKeys(elements, i)[a] != ArrayKeys(elements, i)[b]
    decreases |elements| - i
  {
    if i < |elements| { ArrayKeysAre(elements, i + 1); }
  }

  lemma {:induction false} SlotKeysAre<V>(nodes: seq<Node<V>>, x: nat)
    requires x <= |nodes|
    ensures |SlotKeys(nodes, x)| == |nodes| - x
    ensures forall y | 0 <= y < |nodes| - x :: SlotKeys(nodes, x)[y] == nodes[x + y].key
    decreases |nodes| - x
  {
    if x < |nodes| {
      SlotKeysAre(nodes, x + 1);
      forall y | 0 <= y < |nodes| - x ensures SlotKeys(nodes, x)[y] == nodes[x + y].key {
        if y > 0 { assert SlotKeys(nodes, x)[y] == SlotKeys(nodes, x + 1)[y - 1]; }
      }
    }
  }

  /** The keys of a full table in the order of iteration: every key of the source once, and no other. */
  lemma AllKeysOnce<V>(elements: seq<Option<V>>, nodes: seq<Node<V>>, t: map<Key, V>)
    requires KeysDiffer(nodes, |elements|)
    requires forall i | 0 <= i < |elements| :: elements[i] == Get(t, Int(i + 1))
    requires forall k | k in t :: Fits(k)
    requires forall k | k in HashKeys(t, |elements|) :: Stored(nodes, k)
    requires forall x | 0 <= x < |nodes| :: nodes[x].key in HashKeys(t, |elements|)
    ensures EachOnce(KeysFrom(elements, nodes, 0, 0), t)
  {
    ArrayKeysAre(elements, 0);
    SlotKeysAre(nodes, 0);
    var a, b := ArrayKeys(elements, 0), SlotKeys(nodes, 0);
    forall k ensures k in a + b <==> k in t {
      if k in t && !InArray(k, |elements|) {
        assert k in HashKeys(t, |elements|) && Stored(nodes, k);
        var x :| 0 <= x < |nodes| && Occupied(nodes, x) && nodes[x].key == k;
        assert b[x] == k;
      }
    }
    forall i, j | 0 <= i < j < |a + b| ensures (a + b)[i] != (a + b)[j] {
      if i < |a| <= j {
        assert (a + b)[i] in a && (a + b)[j] == b[j - |a|];
      }
    }
  }

  /** In a full table different slots have different keys. */
  lemma AtOneSlot<V>(nodes: seq<Node<V>>, chains: seq<seq<nat>>, t: map<Key, V>, sizearray: nat)
    requires Sound(nodes, chains, t, sizearray) && |nodes| == |HashKeys(t, sizearray)|
    requires (forall k | k in HashKeys(t, sizearray) :: Stored(nodes, k)) && forall k | k in t :: Fits(k)
    ensures KeysDiffer(nodes, sizearray)
    ensures forall x | 0 <= x < |nodes| :: Occupied(nodes, x) && nodes[x].key in HashKeys(t, sizearray)
  {
    NoSlotLeft(nodes, chains, t, sizearray);
    forall x | 0 <= x < |nodes| ensures nodes[x].key in HashKeys(t, sizearray) {
      assert SlotOk(nodes, chains, x, t, sizearray);
    }
    hide SlotOk, ChainOk, Stored, Truncated;
    forall x, y | 0 <= x < |nodes| && 0 <= y < |nodes| && nodes[x].key == nodes[y].key ensures x == y {
      assert Occupied(nodes, x) && Occupied(nodes, y);
    }
    forall x | 0 <= x < |nodes| ensures !InArray(nodes[x].key, sizearray) { assert Fits(nodes[x].key); }
  }

  lemma SoundLinked<V>(nodes: seq<Node<V>>, chains: seq<seq<nat>>, t: map<Key, V>, sizearray: nat)
    requires Sound(nodes, chains, t, sizearray)
    ensures Linked(nodes, chains)
  {
    forall x | 0 <= x < |nodes| && Occupied(nodes, x) ensures InItsChain(nodes, chains, x) {
      assert SlotOk(nodes, chains, x, t, sizearray);
    }
  }

  /** In a full table a search finds exactly the keys that are there. */
  lemma LookupIs<V>(nodes: seq<Node<V>>, chains: seq<seq<nat>>, t: map<Key, V>, sizearray: nat, k: Key)
    requires Sound(nodes, chains, t, sizearray) && |nodes| == |HashKeys(t, sizearray)|
    requires (forall k | k in HashKeys(t, sizearray) :: Stored(nodes, k)) && forall k | k in t :: Fits(k)
    ensures match Lookup(nodes, chains, k)
      case At(x) => x < |nodes| && nodes[x].key == k
      case Missing => forall x | 0 <= x < |nodes| :: nodes[x].key != k
      case Unset => false
  {
    hide ChainOk, Main;
    AtOneSlot(nodes, chains, t, sizearray);
    if |nodes| > 0 {
      var m := Main(k, |nodes|);
      FirstSlotIs(nodes, chains[m], 0, k);
      FirstSlotSet(nodes, chains[m], 0, k);
      forall x | 0 <= x < |nodes| && nodes[x].key == k ensures Lookup(nodes, chains, k) != Missing {
        assert Occupied(nodes, x) && SlotOk(nodes, chains, x, t, sizearray);
        var j :| 0 <= j < |chains[m]| && chains[m][j] == x;
      }
    }
  }

  lemma {:induction false} FirstSlotIs<V>(nodes: seq<Node<V>>, chain: seq<nat>, j: nat, k: Key)
    requires j <= |chain|
    ensures match FirstSlot(nodes, chain, j, k)
      case At(x) => x < |nodes| && nodes[x].key == k
      case _ => forall i | j <= i < |chain| :: chain[i] >= |nodes| || nodes[chain[i]].key != k
    decreases |chain| - j
  {
    if j < |chain| { FirstSlotIs(nodes, chain, j + 1, k); }
  }
}
