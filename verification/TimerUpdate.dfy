// The operations of 'struct timer'. Each keeps every list equal to what the plain list of waiting timers
// asks for, so that an update hands over exactly the timers that are due.
module TimerUpdate {
  import opened Bytes
  import opened Wrappers
  import opened TimerWheel

  /** What another thread asks for while the lock is free. */
  datatype Request = Request(delay: Delay, event: Event)

  function Enqueued(rs: seq<Request>, ticks: nat): (ps: seq<Entry>)
    ensures |ps| == |rs| && forall k | 0 <= k < |rs| :: ps[k] == Entry(ticks + rs[k].delay, rs[k].event)
  {
    seq(|rs|, k requires 0 <= k < |rs| => Entry(ticks + rs[k].delay, rs[k].event))
  }

  class Timer {
    const near: array<seq<Node>>
    const t: array2<seq<Node>>
    var time: uint32
    // The clock without wrap-around, and the timers that wait, in the order in which they were added.
    ghost var ticks: nat
    ghost var pending: seq<Entry>

    ghost predicate Shape() {
      near.Length == TIME_NEAR && t.Length0 == 4 && t.Length1 == TIME_LEVEL
    }

    ghost function List(x: Slot): seq<Node>
      requires Shape() && InWheel(x)
      reads near, t
    {
      match x
      case Near(i) => near[i]
      case Level(level, i) => t[level, i]
    }

    /** Every waiting timer is in the one list that 'add_node' would choose for it now. */
    ghost predicate Placed()
      requires Shape()
      reads this, near, t
    {
      forall x: Slot | InWheel(x) :: List(x) == Route(Nodes(pending), x, time)
    }

    ghost predicate Valid()
      reads this, near, t
    {
      Shape() && time == ticks % WRAP && NotBehind(pending, ticks) && Placed()
    }

    /** Between two updates nothing is due. */
    ghost predicate Idle()
      reads this, near, t
    {
      Valid() && Ahead(pending, ticks)
    }

    constructor ()
      ensures Idle() && fresh(near) && fresh(t)
      ensures ticks == 0 && pending == []
    {
      near := new seq<Node>[TIME_NEAR](_ => []);
      t := new seq<Node>[4, TIME_LEVEL]((_, _) => []);
      time, ticks, pending := 0, 0, [];
    }

    /** 'add_node': link the node at the end of the list it belongs in. */
    method AddNode(node: Node)
      requires Shape()
      modifies near, t
      ensures forall x: Slot | InWheel(x) :: List(x) == old(List(x)) + Only(node, x, time)
    {
      var e, c := node.expire, time;
      if e / TIME_NEAR == c / TIME_NEAR {
        near[e % TIME_NEAR] := near[e % TIME_NEAR] + [node];
      } else {
        var i: nat := 0;
        var mask := TIME_NEAR * TIME_LEVEL;
        while i < 3
          invariant i <= 3 && (i < 3 ==> mask == Span(i + 1))
          invariant forall k: nat | 0 < k <= i :: e / Span(k) != c / Span(k)
        {
          if e / mask == c / mask {
            break;
          }
          mask := mask * TIME_LEVEL;
          i := i + 1;
        }
        var idx := e / Span(i) % TIME_LEVEL;
        assert SlotOf(e, c) == Level(i, idx) by {
          assert i > 0 ==> e / Span(1) != c / Span(1);
          assert i > 1 ==> e / Span(2) != c / Span(2);
          assert i > 2 ==> e / Span(3) != c / Span(3);
        }
        t[i, idx] := t[i, idx] + [node];
      }
    }

    /** 'timer_add' */
    method TimerAdd(r: Request)
      requires Valid()
      modifies near, t, `pending
      ensures Valid() && pending == old(pending) + [Entry(ticks + r.delay, r.event)]
    {
      var node := Node((r.delay + time) % WRAP, r.event);
      var p := Entry(ticks + r.delay, r.event);
      assert NodeOf(p) == node;
      assert Nodes(pending + [p]) == Nodes(pending) + [node];
      AddNode(node);
      pending := pending + [p];
      forall x: Slot | InWheel(x) ensures List(x) == Route(Nodes(pending), x, time) {
        RouteOne(Nodes(old(pending)), node, x, time);
      }
    }

    /** 'skynet_timeout': a delay that is not positive needs no timer. 'delivered' is the outcome of the push. */
    method Timeout(event: Event, delay: int, delivered: bool) returns (session: int, pushed: seq<Event>)
      requires Idle() && -HALF <= delay < HALF
      modifies near, t, `pending
      ensures Idle()
      ensures if delay <= 0 then pushed == [event] && pending == old(pending) && session == (if delivered then event.session else -1)
              else pushed == [] && pending == old(pending) + [Entry(ticks + delay, event)] && session == event.session
    {
      if delay <= 0 {
        pushed, session := [event], if delivered then event.session else -1;
      } else {
        TimerAdd(Request(delay, event));
        pushed, session := [], event.session;
      }
    }

    /** 'move_list': empty a list and add its nodes again, in order. */
    method MoveList(level: nat, idx: nat)
      requires Shape() && level < 4 && idx < TIME_LEVEL
      modifies near, t
      ensures var z := Level(level, idx);
              forall x: Slot | InWheel(x) ::
                List(x) == (if x == z then [] else old(List(x))) + Route(old(List(z)), x, time)
    {
      hide SlotOf, Route;
      ghost var all := t[level, idx];
      ghost var done: seq<Node> := [];
      var current := t[level, idx];
      t[level, idx] := [];
      RouteEmpty();
      while current != []
        invariant done + current == all
        invariant forall x: Slot | InWheel(x) ::
          List(x) == (if x == Level(level, idx) then [] else old(List(x))) + Route(done, x, time)
      {
        ghost var before := done;
        var node := current[0];
        AddNode(node);
        done := done + [node];
        current := current[1..];
        forall x: Slot | InWheel(x)
          ensures List(x) == (if x == Level(level, idx) then [] else old(List(x))) + Route(done, x, time)
        {
          RouteOne(before, node, x, time);
        }
      }
      assert done == all;
    }

    /** The part of 'timer_shift' that follows the change of the clock: find the list of the block that the
        clock has entered, and spread it over the lower wheels. */
    method SpreadBlock()
      requires Shape()
      modifies near, t
      ensures forall x: Slot | InWheel(x) ::
        List(x) == match Cascade(time)
                   case None => old(List(x))
                   case Some(z) => (if x == z then [] else old(List(x))) + Route(old(List(z)), x, time)
    {
      hide SlotOf, Route, Cascade;
      var mask := TIME_NEAR;
      var ct := time;
      if ct == 0 {
        CascadeAtZero();
        MoveList(3, 0);
      } else {
        var blocks := ct / TIME_NEAR;
        var i: nat := 0;
        while ct % mask == 0
          invariant i < 4 && mask == Span(i) && blocks == ct / Span(i)
          invariant forall k: nat | k < i :: ct % Span(k) == 0 && ct / Span(k) % TIME_LEVEL == 0
          invariant i > 0 ==> ct % Span(i) == 0
          invariant forall x: Slot | InWheel(x) :: List(x) == old(List(x))
          decreases 4 - i
        {
          var idx := blocks % TIME_LEVEL;
          if idx != 0 {
            CascadeFrom(ct, i);
            MoveList(i, idx);
            return;
          }
          TopIsNotZero(ct, i);
          Nested(ct, i);
          mask := mask * TIME_LEVEL;
          blocks := blocks / TIME_LEVEL;
          i := i + 1;
        }
        CascadeNone(ct - 1);
      }
    }

    /** 'timer_shift': advance the clock, and bring every list to what the new clock asks for. */
    method TimerShift()
      requires Idle()
      modifies near, t, `time, `ticks
      ensures Valid() && ticks == old(ticks) + 1
    {
      hide SlotOf, Route, Cascade;
      time := (time + 1) % WRAP;
      ticks := ticks + 1;
      label Shifted:
      SpreadBlock();
      forall x: Slot | InWheel(x) ensures List(x) == Route(Nodes(pending), x, time) {
        assert old@Shifted(List(x)) == Route(Nodes(pending), x, old(time));
        RouteStep(pending, old(ticks), x);
        CascadeInWheel(time);
      }
    }

    /** The adds of threads that were waiting for the lock. */
    method AddAll(waiting: seq<Request>)
      requires Valid()
      modifies near, t, `pending
      ensures Valid() && pending == old(pending) + Enqueued(waiting, ticks)
    {
      var n := 0;
      while n < |waiting|
        invariant Valid() && n <= |waiting|
        invariant pending == old(pending) + Enqueued(waiting[..n], ticks)
      {
        TimerAdd(waiting[n]);
        assert Enqueued(waiting[..n + 1], ticks) == Enqueued(waiting[..n], ticks) + [Entry(ticks + waiting[n].delay, waiting[n].event)];
        n := n + 1;
      }
      assert waiting[..n] == waiting;
    }

    /** 'timer_execute': hand over the list of the current tick. The lock is free while its events are
        pushed; 'waiting' is what other threads add then, unless they have already done so ('released').
        No second list is handed over: what they add is due later. */
    method TimerExecute(waiting: seq<Request>, released: bool) returns (fired: seq<Event>, released': bool)
      requires Valid()
      modifies near, t, `pending
      ensures Idle()
      ensures fired == DueAt(old(pending), ticks)
      ensures released' == (released || fired != [])
      ensures pending == Without(old(pending), ticks) + if released' && !released then Enqueued(waiting, ticks) else []
    {
      var idx := time % TIME_NEAR;
      fired := [];
      released' := released;
      NearIsDue(pending, ticks);
      DueOrNot(pending, ticks);
      assert List(Near(idx)) == near[idx];
      while near[idx] != []
        invariant Valid()
        invariant near[idx] != [] ==> fired == [] && pending == old(pending) && released' == released && Events(near[idx]) == DueAt(pending, ticks)
        invariant near[idx] == [] ==> fired == DueAt(old(pending), ticks) && released' == (released || fired != [])
        invariant near[idx] == [] ==> Ahead(pending, ticks)
        invariant near[idx] == [] ==> pending == Without(old(pending), ticks) + if released' && !released then Enqueued(waiting, ticks) else []
        decreases |near[idx]|
      {
        var current := near[idx];
        near[idx] := [];
        pending := Without(pending, ticks);
        WithoutHolds(old(pending), ticks);
        forall x: Slot | InWheel(x) ensures List(x) == Route(Nodes(pending), x, time) {
          RouteWithout(old(pending), ticks, x);
        }
        fired := fired + Events(current);
        if !released' {
          released' := true;
          AddAll(waiting);
        }
        NothingDue(pending, ticks);
        NearIsDue(pending, ticks);
        assert List(Near(idx)) == near[idx];
      }
    }

    /** 'timer_update', with the adds of other threads in the middle of it: whatever the interleaving, it
        hands over exactly the timers due at the next tick, in the order in which they were added. */
    method TimerUpdate(waiting: seq<Request>) returns (fired: seq<Event>)
      requires Idle()
      modifies near, t, `time, `ticks, `pending
      ensures Idle() && ticks == old(ticks) + 1
      ensures fired == DueAt(old(pending), ticks)
      ensures pending == Without(old(pending), ticks) + Enqueued(waiting, ticks)
    {
      hide SlotOf, Route, Placed, DueAt, Without;
      NothingDue(pending, ticks);
      var none, released := TimerExecute(waiting, false);
      assert pending == old(pending);
      TimerShift();
      fired, released := TimerExecute(waiting, released);
      if !released {
        AddAll(waiting);
      }
    }
  }

  lemma {:induction false} DueOrNot(ps: seq<Entry>, k: nat)
    ensures DueAt(ps, k) == [] ==> Without(ps, k) == ps && forall p | p in ps :: p.due != k
  {
    if ps != [] { DueOrNot(ps[1..], k); }
  }

  lemma {:induction false} NothingDue(ps: seq<Entry>, k: nat)
    requires forall p | p in ps :: p.due != k
    ensures DueAt(ps, k) == [] && Without(ps, k) == ps
  {
    if ps != [] { NothingDue(ps[1..], k); }
  }

  lemma RouteEmpty()
    ensures forall x, c :: Route([], x, c) == []
  {
  }

  lemma CascadeInWheel(ct: uint32)
    ensures Cascade(ct).Some? ==> InWheel(Cascade(ct).value)
  {
  }

  lemma CascadeFrom(ct: uint32, level: nat)
    requires ct != 0 && level < 4 && ct % Span(level) == 0 && ct / Span(level) % TIME_LEVEL != 0
    requires forall k: nat | k < level :: ct % Span(k) == 0 && ct / Span(k) % TIME_LEVEL == 0
    ensures Cascade(ct) == Some(Level(level, ct / Span(level) % TIME_LEVEL))
  {
  }

  lemma TopIsNotZero(ct: uint32, level: nat)
    requires ct != 0 && level < 4 && ct % Span(level) == 0 && ct / Span(level) % TIME_LEVEL == 0
    ensures level < 3
  {
  }
}
