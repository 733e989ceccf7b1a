// The hierarchical timing wheel: five wheels of 8+6+6+6+6 bits over a 32-bit clock that wraps around,
// proved to be a plain list of (due tick, event) pairs.
module TimerWheel {
  import opened Bytes
  import opened Wrappers

  const WRAP := 0x1_0000_0000
  const HALF := 0x8000_0000
  const TIME_NEAR := 256
  const TIME_LEVEL := 64

  /** The delays of timers that wait: positive values of a 32-bit int. */
  type Delay = d: int | 0 < d < HALF witness 1

  datatype Event = Event(handle: uint32, session: int)
  datatype Node = Node(expire: uint32, event: Event)

  /** A list of the wheel: near[i], or t[level][i]. */
  datatype Slot = Near(i: nat) | Level(level: nat, i: nat)

  predicate InWheel(x: Slot) {
    match x
    case Near(i) => i < TIME_NEAR
    case Level(level, i) => level < 4 && i < TIME_LEVEL
  }

  /** What one position of a wheel stands for: t[level][i] covers this many ticks. */
  function Span(level: nat): (n: nat)
    requires level < 4
    ensures n > 0
  {
    if level == 0 then 0x100 else if level == 1 then 0x4000 else if level == 2 then 0x10_0000 else 0x400_0000
  }

  /** The list where a timer that expires at e belongs when the clock shows c: the lowest wheel whose full
      turn holds both. */
  function SlotOf(e: uint32, c: uint32): Slot {
    if e / TIME_NEAR == c / TIME_NEAR then Near(e % TIME_NEAR)
    else if e / Span(1) == c / Span(1) then Level(0, e / Span(0) % TIME_LEVEL)
    else if e / Span(2) == c / Span(2) then Level(1, e / Span(1) % TIME_LEVEL)
    else if e / Span(3) == c / Span(3) then Level(2, e / Span(2) % TIME_LEVEL)
    else Level(3, e / Span(3) % TIME_LEVEL)
  }

  /** The nodes that belong in list x, in order. */
  function Route(nodes: seq<Node>, x: Slot, c: uint32): seq<Node> {
    if nodes == [] then [] else Only(nodes[0], x, c) + Route(nodes[1..], x, c)
  }

  function Only(n: Node, x: Slot, c: uint32): seq<Node> {
    if SlotOf(n.expire, c) == x then [n] else []
  }

  lemma {:induction false} RouteAppend(a: seq<Node>, b: seq<Node>, x: Slot, c: uint32)
    ensures Route(a + b, x, c) == Route(a, x, c) + Route(b, x, c)
  {
    hide Only;
    if a == [] {
      assert a + b == b;
    } else {
      assert (a + b)[1..] == a[1..] + b;
      RouteAppend(a[1..], b, x, c);
    }
  }

  lemma RouteOne(a: seq<Node>, n: Node, x: Slot, c: uint32)
    ensures Route(a + [n], x, c) == Route(a, x, c) + Only(n, x, c)
  {
    hide Only;
    RouteAppend(a, [n], x, c);
    assert [n][1..] == [];
    assert Route([n], x, c) == Only(n, x, c);
  }

  // ----- the plain list

  /** A timer that waits: the tick it is due at, counted without wrap-around. */
  datatype Entry = Entry(due: nat, event: Event)

  function NodeOf(p: Entry): Node {
    Node(p.due % WRAP, p.event)
  }

  function Nodes(ps: seq<Entry>): (ns: seq<Node>)
    ensures |ns| == |ps| && forall k | 0 <= k < |ps| :: ns[k] == NodeOf(ps[k])
  {
    seq(|ps|, k requires 0 <= k < |ps| => NodeOf(ps[k]))
  }

  /** The events due at tick k, in the order in which they were added. */
  function DueAt(ps: seq<Entry>, k: nat): seq<Event> {
    if ps == [] then []
    else (if ps[0].due == k then [ps[0].event] else []) + DueAt(ps[1..], k)
  }

  function Without(ps: seq<Entry>, k: nat): seq<Entry> {
    if ps == [] then []
    else (if ps[0].due == k then [] else [ps[0]]) + Without(ps[1..], k)
  }

  lemma {:induction false} WithoutHolds(ps: seq<Entry>, k: nat)
    ensures forall p :: p in Without(ps, k) <==> p in ps && p.due != k
  {
    if ps != [] { WithoutHolds(ps[1..], k); }
  }

  ghost predicate Ahead(ps: seq<Entry>, ticks: nat) {
    forall p | p in ps :: ticks < p.due < ticks + HALF
  }

  ghost predicate NotBehind(ps: seq<Entry>, ticks: nat) {
    forall p | p in ps :: ticks <= p.due < ticks + HALF
  }

  // ----- how one tick changes the slots

  /** The list that 'timer_shift' spreads over the lower wheels when the clock reaches ct. */
  function Cascade(ct: uint32): Option<Slot> {
    if ct == 0 then Some(Level(3, 0))
    else if ct % Span(0) != 0 then None
    else if ct / Span(0) % TIME_LEVEL != 0 then Some(Level(0, ct / Span(0) % TIME_LEVEL))
    else if ct / Span(1) % TIME_LEVEL != 0 then Some(Level(1, ct / Span(1) % TIME_LEVEL))
    else if ct / Span(2) % TIME_LEVEL != 0 then Some(Level(2, ct / Span(2) % TIME_LEVEL))
    else Some(Level(3, ct / Span(3) % TIME_LEVEL))
  }

  predicate Below(x: Slot, y: Slot) {
    y.Level? && (x.Near? || x.level < y.level)
  }

  // Division by the spans, one level at a time.
  lemma Nested(e: uint32, level: nat)
    requires level < 3
    ensures e / Span(level) / TIME_LEVEL == e / Span(level + 1)
    ensures e % Span(level + 1) == 0 <==> e % Span(level) == 0 && e / Span(level) % TIME_LEVEL == 0
  {
  }

  lemma Carry(c: uint32, level: nat)
    requires level < 4 && c + 1 < WRAP
    ensures (c + 1) / Span(level) == c / Span(level) + if (c + 1) % Span(level) == 0 then 1 else 0
  {
  }

  // Equal blocks lie in equal blocks above.
  lemma SameBlock(e: uint32, c: uint32, level: nat)
    requires level < 3 && e / Span(level) == c / Span(level)
    ensures e / Span(level + 1) == c / Span(level + 1)
  {
    Nested(e, level);
    Nested(c, level);
  }

  /** A timer that waits is not in the block that the clock leaves. */
  lemma LeavesBlock(e: uint32, c: uint32, level: nat)
    requires level < 4 && (c < e || e + HALF < c)
    requires (c + 1) % Span(level) == 0
    ensures e / Span(level) != c / Span(level)
  {
  }

  /** The slot, by the lowest level at which the blocks differ. */
  lemma SlotAt(e: uint32, c: uint32, level: nat)
    requires level < 4 && e / Span(level) != c / Span(level)
    requires level < 3 ==> e / Span(level + 1) == c / Span(level + 1)
    ensures SlotOf(e, c) == Level(level, e / Span(level) % TIME_LEVEL)
  {
    forall l: nat | l < level ensures e / Span(l) != c / Span(l) { DiffersBelow(e, c, l, level); }
    assert e / TIME_NEAR != c / TIME_NEAR by { assert e / Span(0) != c / Span(0); }
    assert level > 1 ==> e / Span(1) != c / Span(1);
    assert level > 2 ==> e / Span(2) != c / Span(2);
  }

  lemma {:induction false} DiffersBelow(e: uint32, c: uint32, low: nat, level: nat)
    requires low < level < 4 && e / Span(level) != c / Span(level)
    ensures e / Span(low) != c / Span(low)
    decreases level
  {
    if e / Span(level - 1) == c / Span(level - 1) {
      SameBlock(e, c, level - 1);
    } else if low < level - 1 {
      DiffersBelow(e, c, low, level - 1);
    }
  }
  /** The level of the slot of a timer that waits in another block than the clock's. */
  function LevelOf(e: uint32, c: uint32): (level: nat)
    requires e / TIME_NEAR != c / TIME_NEAR
    ensures level < 4 && e / Span(level) != c / Span(level)
    ensures level < 3 ==> e / Span(level + 1) == c / Span(level + 1)
    ensures SlotOf(e, c) == Level(level, e / Span(level) % TIME_LEVEL)
  {
    if e / Span(1) == c / Span(1) then 0
    else if e / Span(2) == c / Span(2) then 1
    else if e / Span(3) == c / Span(3) then 2
    else 3
  }

  lemma {:induction false} SameAbove(e: uint32, c: uint32, low: nat, level: nat)
    requires low <= level < 4 && e / Span(low) == c / Span(low)
    ensures e / Span(level) == c / Span(level)
    decreases level
  {
    if low < level {
      SameAbove(e, c, low, level - 1);
      SameBlock(e, c, level - 1);
    }
  }

  /** A tick inside a block of wheel 'near' moves no timer. */
  lemma StepInside(e: uint32, c: uint32)
    requires c + 1 < WRAP && (c + 1) % Span(0) != 0
    ensures SlotOf(e, c + 1) == SlotOf(e, c)
  {
    Carry(c, 0);
    SameAbove(c + 1, c, 0, 1);
    SameAbove(c + 1, c, 0, 2);
    SameAbove(c + 1, c, 0, 3);
  }

  /** The clock enters a new block at 'level' and stays in its block above. */
  predicate Enters(c: uint32, level: nat) {
    && level < 4
    && c + 1 < WRAP
    && (c + 1) % Span(level) == 0
    && (level < 3 ==> (c + 1) / Span(level) % TIME_LEVEL != 0)
  }

  lemma NearAt(e: uint32, c: uint32)
    requires e / TIME_NEAR == c / TIME_NEAR
    ensures SlotOf(e, c) == Near(e % TIME_NEAR)
  {
  }

  // What 'Enters' says of the blocks above.
  lemma StaysAbove(c: uint32, level: nat)
    requires Enters(c, level)
    ensures forall k: nat | level < k < 4 :: (c + 1) / Span(k) == c / Span(k)
  {
    if level < 3 {
      Nested(c + 1, level);
      Carry(c, level + 1);
      forall k: nat | level < k < 4 ensures (c + 1) / Span(k) == c / Span(k) { SameAbove(c + 1, c, level + 1, k); }
    }
  }

  // The timers of the block that the clock enters share one list before the tick.
  lemma EntersBlock(e: uint32, c: uint32, level: nat)
    requires Enters(c, level) && e / Span(level) == (c + 1) / Span(level) && e / Span(level) != c / Span(level)
    ensures SlotOf(e, c) == Level(level, (c + 1) / Span(level) % TIME_LEVEL)
    ensures SlotOf(e, c + 1).Near? || SlotOf(e, c + 1).level < level
  {
    hide SlotOf;
    StaysAbove(c, level);
    if level < 3 { SameAbove(e, c + 1, level, level + 1); }
    SlotAt(e, c, level);
    if e / TIME_NEAR == (c + 1) / TIME_NEAR {
      NearAt(e, c + 1);
    } else {
      var m := LevelOf(e, c + 1);
      if m >= level { SameAbove(e, c + 1, level, m); }
    }
  }

  // The others keep their list, and it is another one.
  lemma OtherBlock(e: uint32, c: uint32, level: nat)
    requires Enters(c, level) && e / Span(level) != (c + 1) / Span(level) && e / Span(level) != c / Span(level)
    ensures SlotOf(e, c + 1) == SlotOf(e, c) != Level(level, (c + 1) / Span(level) % TIME_LEVEL)
    ensures SlotOf(e, c).Level? && SlotOf(e, c).level >= level
  {
    hide SlotOf, Span;
    StaysAbove(c, level);
    if e / TIME_NEAR == c / TIME_NEAR { NearIsSpan(e, c); SameAbove(e, c, 0, level); }
    var l := LevelOf(e, c);
    if l < level { SameAbove(e, c, l + 1, level); }
    SlotAt(e, c + 1, l);
    if l == level { DigitsDiffer(e, c + 1, level); }
  }

  lemma NearIsSpan(e: uint32, c: uint32)
    requires e / TIME_NEAR == c / TIME_NEAR
    ensures e / Span(0) == c / Span(0)
  {
  }

  // Different blocks of one block above have different positions in it.
  lemma DigitsDiffer(e: uint32, c: uint32, level: nat)
    requires level < 4 && e / Span(level) != c / Span(level)
    requires level < 3 ==> e / Span(level + 1) == c / Span(level + 1)
    ensures e / Span(level) % TIME_LEVEL != c / Span(level) % TIME_LEVEL
  {
    if level < 3 {
      Nested(e, level);
      Nested(c, level);
    }
  }

  /** Such a tick moves exactly the timers of one list, and moves them down. */
  lemma StepEnters(e: uint32, c: uint32, level: nat)
    requires Enters(c, level) && (c < e || e + HALF < c)
    ensures var x, y, z := SlotOf(e, c), SlotOf(e, c + 1), Level(level, (c + 1) / Span(level) % TIME_LEVEL);
            !Below(x, z) && if x == z then Below(y, z) else x == y
  {
    hide SlotOf;
    LeavesBlock(e, c, level);
    if e / Span(level) == (c + 1) / Span(level) { EntersBlock(e, c, level); } else { OtherBlock(e, c, level); }
  }

  /** When the clock wraps to 0 every waiting timer is on wheel 3, and those of its list 0 move down. */
  lemma StepWraps(e: uint32)
    requires e + HALF < WRAP - 1
    ensures var x, y, z := SlotOf(e, WRAP - 1), SlotOf(e, 0), Level(3, 0);
            !Below(x, z) && if x == z then Below(y, z) else x == y
  {
  }

  lemma CascadeAt(c: uint32) returns (level: nat)
    requires c + 1 < WRAP && (c + 1) % Span(0) == 0
    ensures Enters(c, level) && Cascade(c + 1) == Some(Level(level, (c + 1) / Span(level) % TIME_LEVEL))
  {
    var c' := c + 1;
    Nested(c', 0);
    Nested(c', 1);
    Nested(c', 2);
    level := if c' / Span(0) % TIME_LEVEL != 0 then 0 else if c' / Span(1) % TIME_LEVEL != 0 then 1
             else if c' / Span(2) % TIME_LEVEL != 0 then 2 else 3;
  }

  /** One tick moves exactly the timers of the list that 'timer_shift' spreads, and moves them down. */
  lemma SlotStep(due: nat, ticks: nat)
    requires ticks < due < ticks + HALF
    ensures var x, y := SlotOf(due % WRAP, ticks % WRAP), SlotOf(due % WRAP, (ticks + 1) % WRAP);
            match Cascade((ticks + 1) % WRAP)
            case None => x == y
            case Some(z) => !Below(x, z) && if x == z then Below(y, z) else x == y
  {
    hide SlotOf, Cascade, Below;
    var e, c := due % WRAP, ticks % WRAP;
    assert c < e || e + HALF < c;
    if c + 1 == WRAP {
      assert (ticks + 1) % WRAP == 0;
      StepWraps(e);
      assert Cascade(0) == Some(Level(3, 0)) by { CascadeAtZero(); }
    } else {
      assert (ticks + 1) % WRAP == c + 1;
      if (c + 1) % Span(0) == 0 {
        var level := CascadeAt(c);
        StepEnters(e, c, level);
      } else {
        StepInside(e, c);
        assert Cascade(c + 1) == None by { CascadeNone(c); }
      }
    }
  }

  lemma CascadeAtZero()
    ensures Cascade(0) == Some(Level(3, 0))
  {
  }

  lemma CascadeNone(c: uint32)
    requires c + 1 < WRAP && (c + 1) % Span(0) != 0
    ensures Cascade(c + 1) == None
  {
  }

  // A list of the wheel before and after a tick, by its place relative to the list that is spread.
  lemma {:induction false} RouteKept(ps: seq<Entry>, ticks: nat, x: Slot, z: Slot)
    requires Ahead(ps, ticks) && Cascade((ticks + 1) % WRAP) == Some(z) && !Below(x, z)
    ensures Route(Nodes(ps), x, (ticks + 1) % WRAP) == if x == z then [] else Route(Nodes(ps), x, ticks % WRAP)
    ensures Route(Route(Nodes(ps), z, ticks % WRAP), x, (ticks + 1) % WRAP) == []
  {
    hide SlotOf, Cascade;
    if ps != [] {
      assert Nodes(ps)[0] == NodeOf(ps[0]) && Nodes(ps)[1..] == Nodes(ps[1..]);
      RouteKept(ps[1..], ticks, x, z);
      SlotStep(ps[0].due, ticks);
      RouteAppend(Only(NodeOf(ps[0]), z, ticks % WRAP), Route(Nodes(ps[1..]), z, ticks % WRAP), x, (ticks + 1) % WRAP);
      RouteSingle(NodeOf(ps[0]), x, (ticks + 1) % WRAP);
    }
  }

  lemma RouteSingle(n: Node, x: Slot, c: uint32)
    ensures Route([n], x, c) == Only(n, x, c) && Route([], x, c) == []
  {
    assert [n][1..] == [];
  }

  lemma {:induction false} RouteFilled(ps: seq<Entry>, ticks: nat, x: Slot, z: Slot)
    requires Ahead(ps, ticks) && Cascade((ticks + 1) % WRAP) == Some(z) && Below(x, z)
    ensures Route(Nodes(ps), x, ticks % WRAP) == []
    ensures Route(Nodes(ps), x, (ticks + 1) % WRAP) == Route(Route(Nodes(ps), z, ticks % WRAP), x, (ticks + 1) % WRAP)
  {
    hide SlotOf, Cascade;
    if ps != [] {
      assert Nodes(ps)[0] == NodeOf(ps[0]) && Nodes(ps)[1..] == Nodes(ps[1..]);
      RouteFilled(ps[1..], ticks, x, z);
      SlotStep(ps[0].due, ticks);
      RouteAppend(Only(NodeOf(ps[0]), z, ticks % WRAP), Route(Nodes(ps[1..]), z, ticks % WRAP), x, (ticks + 1) % WRAP);
      RouteSingle(NodeOf(ps[0]), x, (ticks + 1) % WRAP);
    }
  }

  lemma {:induction false} RouteStill(ps: seq<Entry>, ticks: nat, x: Slot)
    requires Ahead(ps, ticks) && Cascade((ticks + 1) % WRAP) == None
    ensures Route(Nodes(ps), x, (ticks + 1) % WRAP) == Route(Nodes(ps), x, ticks % WRAP)
  {
    hide SlotOf, Cascade;
    if ps != [] {
      assert Nodes(ps)[0] == NodeOf(ps[0]) && Nodes(ps)[1..] == Nodes(ps[1..]);
      RouteStill(ps[1..], ticks, x);
      SlotStep(ps[0].due, ticks);
    }
  }

  /** Spreading the one list brings every list to what the new clock asks for, still in order of addition:
      the lists it is spread over were empty. */
  lemma RouteStep(ps: seq<Entry>, ticks: nat, x: Slot)
    requires Ahead(ps, ticks)
    ensures var c, c' := ticks % WRAP, (ticks + 1) % WRAP;
            Route(Nodes(ps), x, c') ==
            match Cascade(c')
            case None => Route(Nodes(ps), x, c)
            case Some(z) => (if x == z then [] else Route(Nodes(ps), x, c)) + Route(Route(Nodes(ps), z, c), x, c')
  {
    hide SlotOf, Cascade, Below;
    match Cascade((ticks + 1) % WRAP)
    case None => RouteStill(ps, ticks, x);
    case Some(z) =>
      if Below(x, z) {
        RouteFilled(ps, ticks, x, z);
        assert !Below(z, z) by { NotBelowItself(z); }
      } else {
        RouteKept(ps, ticks, x, z);
      }
  }

  lemma NotBelowItself(x: Slot)
    ensures !Below(x, x)
  {
  }

  // ----- the list that is due

  lemma NearSlot(due: nat, ticks: nat)
    requires ticks <= due < ticks + HALF
    ensures SlotOf(due % WRAP, ticks % WRAP) == Near(ticks % WRAP % TIME_NEAR) <==> due == ticks
  {
  }

  /** The near list of the clock holds exactly the timers that are due. */
  lemma {:induction false} NearIsDue(ps: seq<Entry>, ticks: nat)
    requires NotBehind(ps, ticks)
    ensures Events(Route(Nodes(ps), Near(ticks % WRAP % TIME_NEAR), ticks % WRAP)) == DueAt(ps, ticks)
  {
    hide SlotOf;
    if ps != [] {
      assert Nodes(ps)[0] == NodeOf(ps[0]) && Nodes(ps)[1..] == Nodes(ps[1..]);
      NearIsDue(ps[1..], ticks);
      NearSlot(ps[0].due, ticks);
    }
  }

  function Events(ns: seq<Node>): (es: seq<Event>)
    ensures |es| == |ns| && forall k | 0 <= k < |ns| :: es[k] == ns[k].event
  {
    seq(|ns|, k requires 0 <= k < |ns| => ns[k].event)
  }

  /** Taking the due timers away empties that list and leaves the others. */
  lemma {:induction false} RouteWithout(ps: seq<Entry>, ticks: nat, x: Slot)
    requires NotBehind(ps, ticks)
    ensures Route(Nodes(Without(ps, ticks)), x, ticks % WRAP)
         == if x == Near(ticks % WRAP % TIME_NEAR) then [] else Route(Nodes(ps), x, ticks % WRAP)
  {
    hide SlotOf, Nodes;
    if ps == [] {
      NodesNone();
    } else {
      var p, qs := ps[0], Without(ps[1..], ticks);
      assert ps == [p] + ps[1..];
      RouteWithout(ps[1..], ticks, x);
      NearSlot(p.due, ticks);
      RouteCons(p, ps[1..], x, ticks % WRAP);
      if p.due == ticks {
        assert Without(ps, ticks) == qs;
      } else {
        RouteCons(p, qs, x, ticks % WRAP);
      }
    }
  }

  lemma NodesNone()
    ensures Nodes([]) == []
  {
  }

  lemma RouteCons(p: Entry, ps: seq<Entry>, x: Slot, c: uint32)
    ensures Route(Nodes([p] + ps), x, c) == Only(NodeOf(p), x, c) + Route(Nodes(ps), x, c)
  {
    assert Nodes([p] + ps) == [NodeOf(p)] + Nodes(ps);
  }
}
