// Whole runs of the timer: any interleaving of adds and updates, through any number of wrap-arounds.
module TimerRuns {
  import opened TimerWheel
  import opened TimerUpdate

  /** One event of a run: some thread adds a timer, or the timer thread updates while others add in the
      window in which it frees the lock. */
  datatype Op = Add(r: Request) | Update(waiting: seq<Request>)

  function Updates(ops: seq<Op>): nat {
    if ops == [] then 0 else Updates(ops[..|ops| - 1]) + if ops[|ops| - 1].Update? then 1 else 0
  }

  /** The timers that one event adds when the clock shows 'ticks', with the tick they are due at: the delay
      counts from the moment the timer is added. */
  function Added(op: Op, ticks: nat): seq<Entry> {
    match op
    case Add(r) => [Entry(ticks + r.delay, r.event)]
    case Update(waiting) => Enqueued(waiting, ticks + 1)
  }

  /** Every timer asked for in a run, in order, with the number of the update it is due at. */
  function Asked(ops: seq<Op>): seq<Entry> {
    if ops == [] then [] else
    var before := ops[..|ops| - 1];
    Asked(before) + Added(ops[|ops| - 1], Updates(before))
  }

  lemma AskedNext(ops: seq<Op>, op: Op)
    ensures Asked(ops + [op]) == Asked(ops) + Added(op, Updates(ops))
    ensures Updates(ops + [op]) == Updates(ops) + if op.Update? then 1 else 0
  {
    assert (ops + [op])[..|ops|] == ops;
  }

  function Later(ps: seq<Entry>, k: nat): seq<Entry> {
    if ps == [] then [] else (if ps[0].due > k then [ps[0]] else []) + Later(ps[1..], k)
  }

  /** How many timers are due at k. */
  function Count(ps: seq<Entry>, k: nat): nat {
    if ps == [] then 0 else (if ps[0].due == k then 1 else 0) + Count(ps[1..], k)
  }

  /** The k-th update of the run handed over exactly the timers asked for with that due number, in the order
      in which they were asked for. */
  ghost predicate Fires(ops: seq<Op>, outs: seq<seq<Event>>) {
    && |outs| == Updates(ops)
    && forall k | 0 <= k < |outs| :: outs[k] == DueAt(Asked(ops), k + 1)
  }

  /** The wheel refines the list, in every run. */
  method Run(ops: seq<Op>) returns (outs: seq<seq<Event>>)
    ensures Fires(ops, outs)
  {
    hide *;
    var timer := new Timer();
    outs := [];
    var n := 0;
    assert ops[..0] == [];
    NoneFired();
    while n < |ops|
      invariant n <= |ops| && timer.Idle() && fresh(timer) && fresh(timer.near) && fresh(timer.t)
      invariant Fires(ops[..n], outs) && |outs| == timer.ticks
      invariant timer.pending == Later(Asked(ops[..n]), timer.ticks)
    {
      assert ops[..n + 1] == ops[..n] + [ops[n]];
      match ops[n] {
        case Add(r) =>
          AfterAdd(ops[..n], r, outs);
          AddedLater(Add(r), |outs|);
          var session, pushed := timer.Timeout(r.event, r.delay, true);
        case Update(waiting) =>
          var fired := timer.TimerUpdate(waiting);
          AfterUpdate(ops[..n], waiting, outs, fired);
          outs := outs + [fired];
      }
      n := n + 1;
    }
    assert ops[..n] == ops;
  }

  lemma NoneFired()
    ensures Fires([], []) && Later(Asked([]), 0) == []
  {
  }

  lemma AfterAdd(ops: seq<Op>, r: Request, outs: seq<seq<Event>>)
    requires Fires(ops, outs)
    ensures Fires(ops + [Add(r)], outs)
    ensures Later(Asked(ops + [Add(r)]), |outs|) == Later(Asked(ops), |outs|) + Added(Add(r), |outs|)
  {
    hide *;
    var added := Added(Add(r), |outs|);
    FiresUnfolds(ops, outs);
    AddedLater(Add(r), |outs|);
    AskedNext(ops, Add(r));
    AllLater(Asked(ops), added, |outs|);
    OutsKept(Asked(ops), added, outs);
    FiresFolds(ops + [Add(r)], outs);
  }

  lemma AfterUpdate(ops: seq<Op>, waiting: seq<Request>, outs: seq<seq<Event>>, fired: seq<Event>)
    requires Fires(ops, outs) && fired == DueAt(Later(Asked(ops), |outs|), |outs| + 1)
    ensures Fires(ops + [Update(waiting)], outs + [fired])
    ensures Later(Asked(ops + [Update(waiting)]), |outs| + 1)
         == Without(Later(Asked(ops), |outs|), |outs| + 1) + Enqueued(waiting, |outs| + 1)
  {
    hide *;
    var added := Added(Update(waiting), |outs|);
    FiresUnfolds(ops, outs);
    AddedLater(Update(waiting), |outs|);
    AskedNext(ops, Update(waiting));
    LaterStep(Asked(ops), |outs|);
    AllLater(Asked(ops), added, |outs| + 1);
    OutsKept(Asked(ops), added, outs + [fired]);
    FiresFolds(ops + [Update(waiting)], outs + [fired]);
  }

  lemma FiresUnfolds(ops: seq<Op>, outs: seq<seq<Event>>)
    requires Fires(ops, outs)
    ensures |outs| == Updates(ops) && forall k | 0 <= k < |outs| :: outs[k] == DueAt(Asked(ops), k + 1)
  {
  }

  lemma FiresFolds(ops: seq<Op>, outs: seq<seq<Event>>)
    requires |outs| == Updates(ops) && forall k | 0 <= k < |outs| :: outs[k] == DueAt(Asked(ops), k + 1)
    ensures Fires(ops, outs)
  {
  }

  lemma AddedLater(op: Op, ticks: nat)
    ensures forall p | p in Added(op, ticks) :: p.due > ticks && (op.Update? ==> p.due > ticks + 1)
    ensures op.Add? ==> Added(op, ticks) == [Entry(ticks + op.r.delay, op.r.event)]
    ensures op.Update? ==> Added(op, ticks) == Enqueued(op.waiting, ticks + 1)
  {
  }

  lemma OutsKept(ps: seq<Entry>, added: seq<Entry>, outs: seq<seq<Event>>)
    requires forall k | 0 <= k < |outs| :: outs[k] == DueAt(ps, k + 1)
    requires forall p | p in added :: p.due > |outs|
    ensures forall k | 0 <= k < |outs| :: outs[k] == DueAt(ps + added, k + 1)
  {
    forall k | 0 <= k < |outs| ensures outs[k] == DueAt(ps + added, k + 1) {
      NotYetDue(ps, added, k + 1);
    }
  }

  // Timers added now are due later: they change nothing up to now.
  lemma {:induction false} AllLater(ps: seq<Entry>, added: seq<Entry>, ticks: nat)
    requires forall p | p in added :: p.due > ticks
    ensures Later(ps + added, ticks) == Later(ps, ticks) + added
  {
    if ps != [] {
      assert (ps + added)[1..] == ps[1..] + added;
      AllLater(ps[1..], added, ticks);
    } else {
      assert ps + added == added;
      LaterAll(added, ticks);
    }
  }

  lemma {:induction false} LaterAll(ps: seq<Entry>, k: nat)
    requires forall p | p in ps :: p.due > k
    ensures Later(ps, k) == ps
  {
    if ps != [] { LaterAll(ps[1..], k); }
  }

  lemma {:induction false} NotYetDue(ps: seq<Entry>, added: seq<Entry>, k: nat)
    requires forall p | p in added :: p.due > k
    ensures DueAt(ps + added, k) == DueAt(ps, k)
  {
    if ps != [] {
      assert (ps + added)[1..] == ps[1..] + added;
      NotYetDue(ps[1..], added, k);
    } else {
      assert ps + added == added;
      NothingDue(added, k);
    }
  }

  lemma {:induction false} LaterStep(ps: seq<Entry>, ticks: nat)
    ensures DueAt(Later(ps, ticks), ticks + 1) == DueAt(ps, ticks + 1)
    ensures Without(Later(ps, ticks), ticks + 1) == Later(ps, ticks + 1)
  {
    if ps != [] {
      var later := Later(ps[1..], ticks);
      LaterStep(ps[1..], ticks);
      if ps[0].due > ticks {
        assert ([ps[0]] + later)[1..] == later;
      } else {
        assert Later(ps, ticks) == later;
      }
    }
  }

  // ----- exactly once

  lemma {:induction false} DueAtPosition(ps: seq<Entry>, j: nat)
    requires j < |ps|
    ensures |DueAt(ps, ps[j].due)| == Count(ps, ps[j].due) > Count(ps[..j], ps[j].due)
    ensures DueAt(ps, ps[j].due)[Count(ps[..j], ps[j].due)] == ps[j].event
  {
    var k := ps[j].due;
    DueAtCount(ps[1..], k);
    if j > 0 {
      assert ps[..j][1..] == ps[1..][..j - 1];
      DueAtPosition(ps[1..], j - 1);
    }
  }

  lemma {:induction false} DueAtCount(ps: seq<Entry>, k: nat)
    ensures |DueAt(ps, k)| == Count(ps, k)
  {
    if ps != [] { DueAtCount(ps[1..], k); }
  }

  /** A timer added with delay d is among those asked for, due d updates after the ones before it. */
  lemma {:induction false} AskedAt(ops: seq<Op>, m: nat)
    requires m < |ops| && ops[m].Add?
    ensures var j, r := |Asked(ops[..m])|, ops[m].r;
            j < |Asked(ops)| && Asked(ops)[..j] == Asked(ops[..m])
            && Asked(ops)[j] == Entry(Updates(ops[..m]) + r.delay, r.event)
  {
    hide Asked, Updates;
    var before, last := ops[..|ops| - 1], ops[|ops| - 1];
    assert ops == before + [last];
    AskedNext(before, last);
    if m < |ops| - 1 {
      assert before[..m] == ops[..m];
      AskedAt(before, m);
    }
  }

  /** A timer with delay d fires at exactly the d-th update after it was added, behind the timers for that
      update that were added before it. */
  lemma FiresInOrder(ops: seq<Op>, m: nat, outs: seq<seq<Event>>)
    requires m < |ops| && ops[m].Add?
    requires Fires(ops, outs)
    requires Updates(ops[..m]) + ops[m].r.delay <= |outs|
    ensures var k := Updates(ops[..m]) + ops[m].r.delay;
            var place := Count(Asked(ops[..m]), k);
            place < |outs[k - 1]| && outs[k - 1][place] == ops[m].r.event
  {
    hide Asked, Updates, Count, DueAt;
    AskedAt(ops, m);
    var all, j := Asked(ops), |Asked(ops[..m])|;
    var k := Updates(ops[..m]) + ops[m].r.delay;
    DueAtPosition(all, j);
  }

  function TotalOut(outs: seq<seq<Event>>): nat {
    if outs == [] then 0 else TotalOut(outs[..|outs| - 1]) + |outs[|outs| - 1]|
  }

  lemma {:induction false} TotalSplit(ps: seq<Entry>, outs: seq<seq<Event>>)
    requires forall p | p in ps :: p.due > 0
    requires forall k | 0 <= k < |outs| :: outs[k] == DueAt(ps, k + 1)
    ensures TotalOut(outs) + |Later(ps, |outs|)| == |ps|
  {
    var n := |outs|;
    if n == 0 {
      LaterAll(ps, 0);
    } else {
      TotalSplit(ps, outs[..n - 1]);
      LaterSplit(ps, n);
    }
  }

  lemma {:induction false} LaterSplit(ps: seq<Entry>, k: nat)
    requires k > 0
    ensures |Later(ps, k - 1)| == |Later(ps, k)| + |DueAt(ps, k)|
  {
    if ps != [] { LaterSplit(ps[1..], k); }
  }

  lemma {:induction false} AskedLater(ops: seq<Op>)
    ensures forall p | p in Asked(ops) :: p.due > 0
  {
    if ops != [] { AskedLater(ops[..|ops| - 1]); }
  }

  /** Nothing is fired twice and nothing is lost: what was fired and what still waits add up to what was
      asked for. */
  lemma FiresOnce(ops: seq<Op>, outs: seq<seq<Event>>)
    requires Fires(ops, outs)
    ensures TotalOut(outs) + |Later(Asked(ops), |outs|)| == |Asked(ops)|
  {
    AskedLater(ops);
    TotalSplit(Asked(ops), outs);
  }
}
