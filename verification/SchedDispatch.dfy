// What a worker does with the queue that it has: each message reaches the callback, one call takes no more messages
// than it should, and the queues come out of the global list in the order in which they were put there.
module SchedDispatch {
  import opened Wrappers
  import Bytes
  import opened SchedQueue
  import opened SchedModel
  import opened SchedInvariant
  import opened SchedSteps
  import opened SchedSafety
  import opened SchedResults

  // ----- one message

  /** What is recorded of a message is what happens: a handled one is with the callback of its own service, which the
      thread runs next, and one is discarded only because there is no callback. */
  lemma HandledRuns(s: State, k: nat, ch: Choice, y: nat)
    requires Inv(s) && Step(s, Run(k, ch)).Some? && y < |s.core.services|
    ensures y < |Step(s, Run(k, ch)).value.core.services|
    ensures var s' := Step(s, Run(k, ch)).value; var v, v' := s.core.services[y], s'.core.services[y];
      || v'.fates == v.fates
      || (&& HandAt(s, y, k, 0) && ch == HasCallback(true) && v'.fates == v.fates + [Handled(s.threads[k][0].m)]
          && Runs(s'.threads[k][0], y) && s'.threads[k][0].m == s.threads[k][0].m && v.init)
      || (HandAt(s, y, k, 0) && ch == HasCallback(false) && v'.fates == v.fates + [Discarded(s.threads[k][0].m)])
  {
    hide Inv, ExecDispatch, ExecEnd, ExecCall, ExecLaunch, Messages, ActOk;
    ExecRecords(s, k, ch, y);
    FactsOf(s, k);
    if IsWork(s.threads[k][0]) { WorkSettles(s.core, s.threads[k][0], ch, y); }
  }

  lemma WorkSettles(s: Core, a: Act, ch: Choice, y: nat)
    requires IsWork(a) && ActOk(s, a) && ExecDispatch(s, a, ch).Done? && y < |s.services|
    ensures y < |ExecDispatch(s, a, ch).core.services|
    ensures var o := ExecDispatch(s, a, ch); var v, v' := s.services[y], o.core.services[y];
      || v'.fates == v.fates
      || (a.Dispatch? && a.q == y && ch == HasCallback(true) && v'.fates == v.fates + [Handled(a.m)]
          && o.acts != [] && Runs(o.acts[0], y) && o.acts[0].InCall? && o.acts[0].m == a.m && v.init)
      || (a.Dispatch? && a.q == y && ch == HasCallback(false) && v'.fates == v.fates + [Discarded(a.m)])
  {
    hide Messages;
  }

  /** A worker that has a message in hand and finds a callback runs it with that message. */
  lemma CallbackRuns(s: State, k: nat)
    requires Inv(s) && Enabled(s, k) && s.threads[k][0].Dispatch?
    ensures var a := s.threads[k][0]; var s' := Step(s, Run(k, HasCallback(true)));
      s'.Some? && s'.value.threads[k][0] == InCall(a.q, a.q, a.b, a.m, a.i, a.n, a.w)
  {
    hide Inv;
    FactsOf(s, k);
    DispatchSafe(s, k, HasCallback(true));
  }

  /** While a callback runs it may make calls; when it returns, the worker goes on with the next message. */
  lemma CallbackReturns(s: State, k: nat, x: Act, ok: bool)
    requires Inv(s) && Enabled(s, k) && s.threads[k][0].InCall? && IsCall(x)
    ensures var a := s.threads[k][0]; var rest := s.threads[k][1..];
      && Step(s, Run(k, Call(x))) == Some(State(s.core, s.threads[k := [x, a] + rest]))
      && Step(s, Run(k, Return(ok))) == Some(State(s.core, s.threads[k := [Loop(a.q, a.q, a.b, a.i + 1, a.n, a.w)] + rest]))
  {
    hide Inv;
    FactsOf(s, k);
    DispatchSafe(s, k, Return(ok));
  }

  /** A message is taken only by the thread that has the queue, as the oldest one, and is then in its hands. */
  lemma TakesOldest(s: State, k: nat, ch: Choice, y: nat)
    requires Inv(s) && Step(s, Run(k, ch)).Some? && y < |s.core.services|
    ensures y < |Step(s, Run(k, ch)).value.core.services|
    ensures var s' := Step(s, Run(k, ch)).value; var v, v' := s.core.services[y], s'.core.services[y];
      v'.taken == v.taken
      || (&& HoldsQueue(s.threads[k][0], y) && v.q.msgs != [] && v'.taken == v.taken + [v.q.msgs[0]]
          && v'.q.msgs == v.q.msgs[1..] && HandAt(s', y, k, 0) && s'.threads[k][0].m == v.q.msgs[0])
  {
    hide Inv, ExecDispatch, ExecEnd, ExecCall, ExecLaunch, Messages, ActOk;
    ExecRecords(s, k, ch, y);
    FactsOf(s, k);
    if IsWork(s.threads[k][0]) { WorkTakes(s.core, s.threads[k][0], ch, y); }
  }

  lemma WorkTakes(s: Core, a: Act, ch: Choice, y: nat)
    requires IsWork(a) && ActOk(s, a) && ExecDispatch(s, a, ch).Done? && y < |s.services|
    ensures y < |ExecDispatch(s, a, ch).core.services|
    ensures var o := ExecDispatch(s, a, ch); var v, v' := s.services[y], o.core.services[y];
      v'.taken == v.taken
      || (&& HoldsQueue(a, y) && v.q.msgs != [] && v'.taken == v.taken + [v.q.msgs[0]] && v'.q.msgs == v.q.msgs[1..]
          && o.acts != [] && HasMessage(o.acts[0]) && o.acts[0].q == y && o.acts[0].m == v.q.msgs[0])
  {
    hide Messages;
  }

  // ----- one call of 'skynet_context_message_dispatch'

  lemma {:induction false} HalfOf(n: nat, w: nat)
    ensures n / 2 / Bytes.Power2(w) == n / Bytes.Power2(w + 1)
  {
    Quotients(n, Bytes.Power2(w));
  }

  lemma Quotients(n: nat, p: nat)
    requires p > 0
    ensures n / 2 / p == n / (2 * p)
  {
    var q, r := n / 2, n % 2;
    assert n == 2 * (p * (q / p) + q % p) + r;
    assert n == (2 * p) * (q / p) + (2 * (q % p) + r) && 2 * (q % p) + r < 2 * p;
    Bytes.Quotient(n, 2 * p, q / p, 2 * (q % p) + r);
  }

  /** The share of a worker is the length shifted right by its weight. */
  lemma {:induction false} ShareIs(length: nat, w: nat)
    ensures Share(length, w) == length / Bytes.Power2(w)
    decreases w
  {
    if w > 0 {
      ShareIs(length / 2, w - 1);
      HalfOf(length, w - 1);
    }
  }

  /** When a call leaves its loop for the next queue it has taken as many messages as it was to take, and at least
      one: a worker without a weight exactly one. Any other asks for the length of the queue behind the first one. */
  lemma OneGo(ls: seq<Label>, k: nat)
    requires After(ls).Some? && Enabled(After(ls).value, k) && After(ls).value.threads[k][0].Loop?
    ensures var s := After(ls).value; var a := s.threads[k][0]; var s' := Step(s, Run(k, Go));
      && s'.Some? && a.q < |s.core.services|
      && |s.core.services[a.q].taken| == a.b + a.i
      && (a.w < 0 ==> a.n == 1)
      && (s'.value.threads[k][0].Next? <==> a.i == if a.n > 1 then a.n else 1)
      && (a.i == 0 && s.core.services[a.q].q.msgs != [] ==> (s'.value.threads[k][0].Size? <==> a.w >= 0))
  {
    hide Inv;
    var s := After(ls).value;
    InvariantHolds(ls);
    FactsOf(s, k);
    DispatchSafe(s, k, Go);
  }

  /** How many that is: the share of what still waits when the first message has been taken. */
  lemma GoSize(s: State, k: nat)
    requires Inv(s) && Enabled(s, k) && s.threads[k][0].Size?
    ensures var a := s.threads[k][0]; var s' := Step(s, Run(k, Go));
      && s'.Some? && a.q < |s.core.services| && a.w >= 0
      && s'.value.threads[k][0] == Dispatch(a.q, a.q, a.b, a.m, 0, Share(|s.core.services[a.q].q.msgs|, a.w), a.w)
  {
    hide Inv, Share;
    FactsOf(s, k);
    DispatchSafe(s, k, Go);
  }

  // ----- the global list

  /** A step puts one queue behind all others, or the first one goes to the thread that takes the step, or the list
      stays. */
  ghost predicate ListStep(g: seq<nat>, g': seq<nat>, t': seq<Act>) {
    || g' == g
    || (exists q: nat :: g' == g + [q])
    || (g != [] && g' == g[1..] && exists j: nat, w: int :: j < |t'| && t'[j] == Take(g[0], w))
  }

  lemma ListedInTurn(s: State, k: nat, ch: Choice)
    requires Step(s, Run(k, ch)).Some?
    ensures ListStep(s.core.global, Step(s, Run(k, ch)).value.core.global, Step(s, Run(k, ch)).value.threads[k])
  {
    var a := s.threads[k][0];
    var t' := Step(s, Run(k, ch)).value.threads[k];
    if a.Pop? && s.core.global != [] {
      assert t'[0] == Take(s.core.global[0], a.w);
    } else if a.Next? && s.core.global != [] {
      assert t'[2] == Take(s.core.global[0], a.w);
    }
  }

  /** Over a run and any continuation: queues leave the list in the order in which they came into it. */
  lemma {:induction false} FirstListedFirst(ls: seq<Label>, n: nat) returns (added: seq<nat>, removed: seq<nat>)
    requires n <= |ls| && After(ls).Some?
    ensures After(ls[..n]).Some?
    ensures After(ls[..n]).value.core.global + added == removed + After(ls).value.core.global
    decreases |ls|
  {
    hide Step;
    if n == |ls| {
      assert ls[..n] == ls;
      added, removed := [], [];
    } else {
      var before, l := ls[..|ls| - 1], ls[|ls| - 1];
      assert before[..n] == ls[..n];
      added, removed := FirstListedFirst(before, n);
      var added', removed' := OneMore(After(before).value, l);
      Chain(After(ls[..n]).value.core.global, added, removed, After(before).value.core.global, added', removed',
            After(ls).value.core.global);
      added, removed := added + added', removed + removed';
    }
  }

  lemma OneMore(s: State, l: Label) returns (added: seq<nat>, removed: seq<nat>)
    requires Step(s, l).Some?
    ensures s.core.global + added == removed + Step(s, l).value.core.global
  {
    added, removed := [], [];
    if l.Run? {
      ListedInTurn(s, l.k, l.ch);
      var g, g' := s.core.global, Step(s, l).value.core.global;
      if g' != g && exists q: nat :: g' == g + [q] {
        var q: nat :| g' == g + [q];
        added := [q];
      } else if g' != g {
        removed := [g[0]];
      }
    }
  }

  lemma Chain(g: seq<nat>, a: seq<nat>, r: seq<nat>, g1: seq<nat>, a': seq<nat>, r': seq<nat>, g2: seq<nat>)
    requires g + a == r + g1 && g1 + a' == r' + g2
    ensures g + (a + a') == (r + r') + g2
  {
    assert g + (a + a') == (g + a) + a' == r + (g1 + a') == r + (r' + g2);
  }
}
