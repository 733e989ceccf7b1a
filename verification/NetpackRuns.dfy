// Runs of the package filter: chunks of any number of sockets in any order, closed sockets, and packages that
// are popped now or later.
module NetpackRuns {
  import opened Bytes
  import opened Circular
  import opened Netpack

  datatype Event = Chunk(fd: int, bytes: seq<byte>) | Close(fd: int) | Take

  /** The filter, the packages that it completed and those that its user got, both in order. */
  datatype State = State(rest: map<int, seq<byte>>, waiting: seq<Pack>, emitted: seq<Pack>, delivered: seq<Pack>)

  function Start(): State {
    State(map[], [], [], [])
  }

  /** The stored rest and the chunk together. */
  function Joined(s: State, e: Event): seq<byte>
    requires e.Chunk?
  {
    Get(s.rest, e.fd) + e.bytes
  }

  function After(s: State, e: Event): State {
    match e
    case Chunk(fd, bytes) =>
      var t := Joined(s, e);
      var out := OutcomeOf(fd, t);
      s.(rest := s.rest[fd := Tail(t)], waiting := s.waiting + Queued(fd, t),
         emitted := s.emitted + Tagged(fd, Packs(t)),
         delivered := s.delivered + if out.Data? then [out.pack] else [])
    case Close(fd) => s.(rest := s.rest[fd := []])
    case Take => if s.waiting == [] then s else s.(waiting := s.waiting[1..], delivered := s.delivered + [s.waiting[0]])
  }

  function Final(es: seq<Event>): State {
    if es == [] then Start() else After(Final(es[..|es| - 1]), es[|es| - 1])
  }

  // ----- the streams

  /** What each connection under this number has sent; the last one is still open. */
  function Streams(es: seq<Event>, fd: int): (ss: seq<seq<byte>>)
    ensures ss != []
  {
    if es == [] then [[]] else
      var ss, e := Streams(es[..|es| - 1], fd), es[|es| - 1];
      if e.Chunk? && e.fd == fd then ss[..|ss| - 1] + [ss[|ss| - 1] + e.bytes]
      else if e.Close? && e.fd == fd then ss + [[]] else ss
  }

  function PacksOf(ss: seq<seq<byte>>): seq<seq<byte>> {
    if ss == [] then [] else PacksOf(ss[..|ss| - 1]) + Packs(ss[|ss| - 1])
  }

  /** The packages of one socket. */
  function Of(fd: int, ps: seq<Pack>): seq<seq<byte>> {
    if ps == [] then [] else Of(fd, ps[..|ps| - 1]) + if ps[|ps| - 1].fd == fd then [ps[|ps| - 1].data] else []
  }

  lemma {:induction false} OfAppend(fd: int, a: seq<Pack>, b: seq<Pack>)
    ensures Of(fd, a + b) == Of(fd, a) + Of(fd, b)
  {
    if b == [] {
      assert a + b == a;
    } else {
      OfAppend(fd, a, b[..|b| - 1]);
      assert (a + b)[..|a + b| - 1] == a + b[..|b| - 1];
    }
  }

  lemma {:induction false} OfTagged(fd: int, g: int, ps: seq<seq<byte>>)
    ensures Of(fd, Tagged(g, ps)) == if fd == g then ps else []
  {
    if ps != [] {
      OfTagged(fd, g, ps[1..]);
      OfAppend(fd, [Pack(g, ps[0])], Tagged(g, ps[1..]));
    }
  }

  /** However the streams are cut into chunks and mixed, each is parsed as if it had come at once. */
  lemma {:induction false} ChunkingIrrelevant(es: seq<Event>, fd: int)
    ensures var ss := Streams(es, fd);
      Of(fd, Final(es).emitted) == PacksOf(ss) && Get(Final(es).rest, fd) == Tail(ss[|ss| - 1])
  {
    hide Packs, Tail, Of, PacksOf, After, Get;
    if es == [] {
      NothingYet(fd);
    } else {
      var before, e := es[..|es| - 1], es[|es| - 1];
      ChunkingIrrelevant(before, fd);
      var ss := Streams(before, fd);
      Seen(Final(before), e, fd);
      if e.Close? && e.fd == fd {
        OpenNext(ss);
      } else if e.Chunk? && e.fd == fd {
        GrowLast(ss, e.bytes);
      }
    }
  }

  // What one event means for one socket.
  lemma Seen(s: State, e: Event, fd: int)
    ensures var s' := After(s, e); var rest := Get(s.rest, fd);
      if e.Chunk? && e.fd == fd then
        Of(fd, s'.emitted) == Of(fd, s.emitted) + Packs(rest + e.bytes) && Get(s'.rest, fd) == Tail(rest + e.bytes)
      else
        Of(fd, s'.emitted) == Of(fd, s.emitted) && Get(s'.rest, fd) == if e.Close? && e.fd == fd then [] else rest
  {
    if e.Chunk? { ChunkEmits(s, e, fd); }
    hide Packs, Tail, OutcomeOf, Queued, Tagged, Of;
  }

  lemma ChunkEmits(s: State, e: Event, fd: int)
    requires e.Chunk?
    ensures Of(fd, After(s, e).emitted) == Of(fd, s.emitted) + if e.fd == fd then Packs(Joined(s, e)) else []
  {
    hide Packs, Tail, OutcomeOf, Queued, Tagged, Of;
    OfAppend(fd, s.emitted, Tagged(e.fd, Packs(Joined(s, e))));
    OfTagged(fd, e.fd, Packs(Joined(s, e)));
  }

  lemma NothingYet(fd: int)
    ensures Of(fd, []) == PacksOf([[]]) == [] && Tail([]) == [] && Get(map[], fd) == []
  {
    NoPack(fd, []);
    assert PacksOf([[]]) == PacksOf([]) + Packs([]);
  }

  lemma OpenNext(ss: seq<seq<byte>>)
    ensures PacksOf(ss + [[]]) == PacksOf(ss) && Tail([]) == []
  {
    NoPack(0, []);
    assert (ss + [[]])[..|ss|] == ss;
  }

  lemma GrowLast(ss: seq<seq<byte>>, b: seq<byte>)
    requires ss != []
    ensures var last, n := ss[|ss| - 1], |ss| - 1;
      && PacksOf(ss[..n] + [last + b]) == PacksOf(ss) + Packs(Tail(last) + b)
      && Tail(last + b) == Tail(Tail(last) + b)
  {
    var last, n := ss[|ss| - 1], |ss| - 1;
    PacksCut(last, b);
    var grown := ss[..n] + [last + b];
    assert grown[..n] == ss[..n];
    assert PacksOf(grown) == PacksOf(ss[..n]) + (Packs(last) + Packs(Tail(last) + b));
  }

  /** No package is lost or duplicated between the filter and its user. */
  lemma {:induction false} NothingLost(es: seq<Event>)
    ensures multiset(Final(es).emitted) == multiset(Final(es).delivered) + multiset(Final(es).waiting)
  {
    hide Packs, Tail, OutcomeOf, Queued, Tagged;
    if es != [] {
      var before, e := es[..|es| - 1], es[|es| - 1];
      NothingLost(before);
      var s := Final(before);
      match e
      case Chunk(fd, _) => WhereTo(fd, Joined(s, e));
      case Close(_) =>
      case Take => TakenIsDelivered(s);
    }
  }

  lemma TakenIsDelivered(s: State)
    ensures var s' := After(s, Take);
      multiset(s'.delivered) + multiset(s'.waiting) == multiset(s.delivered) + multiset(s.waiting)
  {
    if s.waiting != [] {
      assert s.waiting == [s.waiting[0]] + s.waiting[1..];
    }
  }

  /** A chunk completes nothing, or one package that is handed over, or several that are queued. */
  lemma WhereTo(fd: int, s: seq<byte>)
    ensures var out := OutcomeOf(fd, s);
      Tagged(fd, Packs(s)) == (if out.Data? then [out.pack] else []) + Queued(fd, s)
  {
    if !Complete(s) {
      NoPack(fd, s);
    } else {
      FirstPack(fd, s);
      if |s| == 2 + Size(s) {
        assert s[2..2 + Size(s)] == s[2..] && s[2 + Size(s)..] == [];
        NoPack(fd, []);
      }
    }
  }

  // ----- the order in which the user gets the packages of a socket

  ghost predicate InOrder(s: State) {
    forall fd :: Of(fd, s.emitted) == Of(fd, s.delivered) + Of(fd, s.waiting)
  }

  /** A package is handed over while others of its socket, which were completed earlier, still wait. */
  predicate Overtakes(s: State, e: Event) {
    e.Chunk? && var out := OutcomeOf(e.fd, Joined(s, e));
    out.Data? && exists d | d in Of(e.fd, s.waiting) :: d != out.pack.data
  }

  /** The order is kept up to and including an event exactly if nothing different is overtaken. */
  lemma OrderStep(s: State, e: Event)
    requires InOrder(s)
    ensures InOrder(After(s, e)) <==> !Overtakes(s, e)
  {
    var s' := After(s, e);
    forall fd
      ensures Of(fd, s'.emitted) == Of(fd, s'.delivered) + Of(fd, s'.waiting) <==> !(Overtakes(s, e) && e.fd == fd)
    {
      OrderStepOf(s, e, fd);
    }
    if Overtakes(s, e) {
      assert Of(e.fd, s'.emitted) != Of(e.fd, s'.delivered) + Of(e.fd, s'.waiting);
    }
  }

  lemma OrderStepOf(s: State, e: Event, fd: int)
    requires Of(fd, s.emitted) == Of(fd, s.delivered) + Of(fd, s.waiting)
    ensures var s' := After(s, e);
      Of(fd, s'.emitted) == Of(fd, s'.delivered) + Of(fd, s'.waiting) <==> !(Overtakes(s, e) && e.fd == fd)
  {
    hide Packs, Tail, OutcomeOf, Queued, Tagged, Of;
    match e
    case Close(_) =>
    case Take =>
      if s.waiting != [] {
        OfAppend(fd, s.delivered, [s.waiting[0]]);
        OfAppend(fd, [s.waiting[0]], s.waiting[1..]);
        assert s.waiting == [s.waiting[0]] + s.waiting[1..];
      }
    case Chunk(g, _) =>
      var t := Joined(s, e);
      var out := OutcomeOf(g, t);
      var now := if out.Data? then [out.pack] else [];
      WhereTo(g, t);
      OfAppend(fd, s.emitted, Tagged(g, Packs(t)));
      OfAppend(fd, now, Queued(g, t));
      OfAppend(fd, s.delivered, now);
      OfAppend(fd, s.waiting, Queued(g, t));
      OneHandedOver(fd, g, t);
      Commute(Of(fd, s.delivered), Of(fd, s.waiting), Of(fd, now), Of(fd, Queued(g, t)));
  }

  lemma OneHandedOver(fd: int, g: int, t: seq<byte>)
    ensures var out := OutcomeOf(g, t);
      Of(fd, if out.Data? then [out.pack] else []) == if out.Data? && g == fd then [out.pack.data] else []
  {
    var out := OutcomeOf(g, t);
    if out.Data? {
      assert [out.pack][..0] == [];
    }
  }

  lemma Commute<T>(d: seq<T>, w: seq<T>, n: seq<T>, q: seq<T>)
    requires |n| <= 1
    ensures (d + w) + (n + q) == (d + n) + (w + q) <==> n == [] || forall y | y in w :: y == n[0]
  {
    assert (d + w) + (n + q) == d + ((w + n) + q) && (d + n) + (w + q) == d + ((n + w) + q);
    Cancel(d, (w + n) + q, (n + w) + q);
    var a, b := w + n, n + w;
    assert (a + q)[..|a|] == a && (b + q)[..|b|] == b;
    if n != [] {
      assert n == [n[0]];
      Swap(w, n[0]);
    }
  }

  lemma {:induction false} Swap<T>(w: seq<T>, x: T)
    ensures w + [x] == [x] + w <==> forall y | y in w :: y == x
  {
    if w != [] {
      Swap(w[1..], x);
      var a, b := w + [x], [x] + w;
      assert a[0] == w[0] && b[0] == x && a[1..] == w[1..] + [x] && b[1..] == w;
      assert w == [w[0]] + w[1..] && a == [a[0]] + a[1..] && b == [b[0]] + b[1..];
      assert w[0] in w && forall y | y in w[1..] :: y in w;
    }
  }

  lemma Cancel<T>(d: seq<T>, a: seq<T>, b: seq<T>)
    ensures d + a == d + b <==> a == b
  {
    assert (d + a)[|d|..] == a && (d + b)[|d|..] == b;
  }

  lemma InOrderStart()
    ensures InOrder(Start())
  {
  }

  ghost predicate AlwaysInOrder(es: seq<Event>) {
    InOrder(Final(es)) && (es != [] ==> AlwaysInOrder(es[..|es| - 1]))
  }

  predicate NeverOvertakes(es: seq<Event>) {
    es != [] ==> NeverOvertakes(es[..|es| - 1]) && !Overtakes(Final(es[..|es| - 1]), es[|es| - 1])
  }

  /** The order is right at every moment of a run exactly if no event of the run overtakes. */
  lemma {:induction false} OrderKept(es: seq<Event>)
    ensures AlwaysInOrder(es) <==> NeverOvertakes(es)
  {
    hide After, Overtakes, InOrder;
    if es == [] {
      InOrderStart();
    } else {
      var before := es[..|es| - 1];
      OrderKept(before);
      if InOrder(Final(before)) {
        OrderStep(Final(before), es[|es| - 1]);
      }
    }
  }

  predicate EmptiedBefore(es: seq<Event>) {
    es != [] ==> var before, e := es[..|es| - 1], es[|es| - 1];
      EmptiedBefore(before) && (e.Chunk? ==> Final(before).waiting == [])
  }

  /** In particular if the user empties the queue before the next chunk, as the gate server does. */
  lemma {:induction false} EmptiedInOrder(es: seq<Event>)
    requires EmptiedBefore(es)
    ensures Final(es).emitted == Final(es).delivered + Final(es).waiting
  {
    hide Packs, Tail, OutcomeOf, Queued, Tagged;
    if es != [] {
      var e, s := es[|es| - 1], Final(es[..|es| - 1]);
      EmptiedInOrder(es[..|es| - 1]);
      if e.Chunk? {
        WhereTo(e.fd, Joined(s, e));
      } else if e.Take? && s.waiting != [] {
        assert s.waiting == [s.waiting[0]] + s.waiting[1..];
      }
    }
  }

  /** And otherwise it may be wrong: packages 'a' and 'b' in one chunk, 'c' alone in the next. */
  lemma OvertakeExample()
    ensures var es := [Chunk(7, [0, 1, 97, 0, 1, 98]), Chunk(7, [0, 1, 99])];
      Overtakes(Final(es[..1]), es[1]) && Final(es).delivered == [Pack(7, [99])]
  {
    var e1, e2 := Chunk(7, [0, 1, 97, 0, 1, 98]), Chunk(7, [0, 1, 99]);
    var es := [e1, e2];
    assert es[..1] == [e1] && [e1][..0] == [] && es[..|es| - 1] == [e1];
    TwoQueued(e1);
    OneOvertakes(After(Start(), e1), e2);
  }

  lemma TwoQueued(e: Event)
    requires e == Chunk(7, [0, 1, 97, 0, 1, 98])
    ensures var s := After(Start(), e);
      s.waiting == [Pack(7, [97]), Pack(7, [98])] && s.delivered == [] && Get(s.rest, 7) == []
  {
    hide Packs, Tail, Tagged;
    TwoPacks();
    assert Joined(Start(), e) == e.bytes;
    assert OutcomeOf(7, e.bytes) == More;
  }

  lemma OneOvertakes(s: State, e: Event)
    requires s.waiting == [Pack(7, [97]), Pack(7, [98])] && s.delivered == [] && Get(s.rest, 7) == []
    requires e == Chunk(7, [0, 1, 99])
    ensures Overtakes(s, e) && After(s, e).delivered == [Pack(7, [99])]
  {
    hide Packs, Tail, Tagged;
    assert Joined(s, e) == e.bytes && e.bytes[2..] == [99];
    assert OutcomeOf(7, e.bytes) == Data(Pack(7, [99]));
    var w := s.waiting;
    OfAppend(7, [w[0]], [w[1]]);
    assert w == [w[0]] + [w[1]] && [w[0]][..0] == [] && [w[1]][..0] == [];
    assert [97] in Of(7, w);
  }

  lemma TwoPacks()
    ensures var t: seq<byte> := [0, 1, 97, 0, 1, 98];
      Tagged(7, Packs(t)) == [Pack(7, [97]), Pack(7, [98])] && Tail(t) == []
  {
    hide Packs, Tail, Tagged;
    var t: seq<byte>, u: seq<byte> := [0, 1, 97, 0, 1, 98], [0, 1, 98];
    assert t[2..3] == [97] && t[3..] == u && u[2..3] == [98] && u[3..] == [];
    FirstPack(7, t);
    FirstPack(7, u);
    NoPack(7, []);
  }

  /** The filter itself, for one event: the packages that its user gets. */
  method Handle(f: Filter, e: Event, ghost s: State) returns (got: seq<Pack>)
    requires f.Valid() && f.Waiting() == s.waiting && f.rest == s.rest && (e.Chunk? ==> e.bytes != [])
    modifies f, f.hash, f.queue
    ensures f.Valid() && f.hash == old(f.hash) && (f.queue == old(f.queue) || fresh(f.queue))
    ensures f.Waiting() == After(s, e).waiting && f.rest == After(s, e).rest
    ensures s.delivered + got == After(s, e).delivered
  {
    hide Packs, Tail, OutcomeOf, Queued, Tagged, Ring;
    got := [];
    match e {
      case Chunk(fd, bytes) =>
        var out := f.FilterData(fd, bytes);
        if out.Data? {
          got := [out.pack];
        }
      case Close(fd) =>
        f.CloseUncomplete(fd);
      case Take =>
        var any, p := f.Pop();
        if any {
          got := [p];
        }
    }
  }

  /** And for a run. */
  method Run(f: Filter, es: seq<Event>) returns (delivered: seq<Pack>)
    requires f.Valid() && f.Waiting() == [] && f.rest == map[]
    requires forall e | e in es && e.Chunk? :: e.bytes != []
    modifies f, f.hash, f.queue
    ensures f.Valid() && f.Waiting() == Final(es).waiting && f.rest == Final(es).rest
    ensures delivered == Final(es).delivered
  {
    hide After, Ring;
    delivered := [];
    var i := 0;
    assert es[..0] == [];
    while i < |es|
      invariant i <= |es| && f.Valid() && f.hash == old(f.hash) && (f.queue == old(f.queue) || fresh(f.queue))
      invariant f.Waiting() == Final(es[..i]).waiting && f.rest == Final(es[..i]).rest
      invariant delivered == Final(es[..i]).delivered
    {
      assert es[..i + 1][..i] == es[..i];
      var got := Handle(f, es[i], Final(es[..i]));
      delivered := delivered + got;
      i := i + 1;
    }
    assert es[..i] == es;
  }
}
