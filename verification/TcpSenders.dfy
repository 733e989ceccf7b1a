// Any number of senders and the socket thread, on one connected socket. A step is one atomic access; what a
// thread does with the lock taken is one step where no other access can tell the difference.
module TcpSenders {
  import opened Bytes
  import opened Wrappers
  import opened TcpSocket

  /** Where a sender is in 'socket_server_send': before the first 'can_direct_write', before the lock is
      tried, before the lists are read with the lock taken, before 'sending' is read, before the write, before
      the lock is given up, before 'sending' is incremented, and before the request goes into the pipe. */
  datatype Pc = Ready | Check | Lock | Lists | Count | Write | Unlock | Inc | Ask

  datatype Sender = Sender(pc: Pc, pkg: Pkg)

  /** 'sending' is the counter in the low half of the field. The last field records the packages, in the order
      in which they were handed over. */
  datatype State = State(sock: Sock, lock: Option<nat>, sending: nat, pipe: seq<Pkg>, appended: bool,
                         senders: seq<Sender>, issued: seq<Pkg>)

  datatype Label =
    | Begin(k: nat, low: bool, userObject: bool, bytes: seq<byte>)   // a sender calls one of the two functions
    | Do(k: nat, n: nat, idle: bool)               // its next access; n and idle are what it finds
    | Receive                                      // the socket thread takes a request and appends its package
    | Dec                                          // 'dec_sending_ref'
    | WriteEvent(answers: seq<Answer>)             // 'send_buffer'

  const MAX_SENDING := 0xffff

  function With(s: State, k: nat, pc: Pc): State
    requires k < |s.senders|
  {
    s.(senders := s.senders[k := s.senders[k].(pc := pc)])
  }

  /** One access of a sender. The first check reads the lists without the lock, so that it may find anything;
      'idle' is what it finds. */
  function Access(s: State, k: nat, n: nat, idle: bool): Option<State>
    requires k < |s.senders|
  {
    var p := s.senders[k].pkg;
    match s.senders[k].pc
    case Ready => None
    case Check => Some(With(s, k, if idle && s.sending == 0 then Lock else Inc))
    case Lock => if s.lock.None? then Some(With(s.(lock := Some(k)), k, Lists)) else Some(With(s, k, Inc))
    case Lists => Some(With(s, k, if s.sock.high == [] && s.sock.low == [] && s.sock.dw.None? then Count else Unlock))
    case Count => Some(With(s, k, if s.sending == 0 then Write else Unlock))
    case Write => Some(With(s.(sock := DirectWrite(s.sock, p, n), lock := None), k, Ready))
    case Unlock => Some(With(s.(lock := None), k, Inc))
    case Inc => if s.sending == MAX_SENDING then None else Some(With(s.(sending := s.sending + 1), k, Ask))
    case Ask => Some(With(s.(pipe := s.pipe + [p]), k, Ready))
  }

  /** The run ends when the connection fails, and when the assertion of 'send_buffer_' does. */
  function Step(s: State, l: Label): Option<State> {
    if !s.sock.open then None else
    match l
    case Begin(k, low, userObject, bytes) =>
      if k >= |s.senders| || !s.senders[k].pc.Ready? then None else
      var p := Pkg(k, low, userObject, bytes);
      Some(s.(senders := s.senders[k := Sender(if low then Inc else Check, p)], issued := s.issued + [p]))
    case Do(k, n, idle) => if k >= |s.senders| then None else Access(s, k, n, idle)
    case Receive =>
      if s.appended || s.pipe == [] then None
      else Some(s.(sock := Append(s.sock, s.pipe[0]), pipe := s.pipe[1..], appended := true))
    case Dec => if !s.appended || s.sending == 0 then None else Some(s.(sending := s.sending - 1, appended := false))
    case WriteEvent(answers) =>
      if s.appended then None
      else if s.lock.Some? then Some(s)
      else if Uncomplete(s.sock.low) then None
      else Some(s.(sock := SendBuffer(s.sock, answers)))
  }

  function Initial(n: nat): State {
    State(Sock([], [], None, 0, false, true, [], []), None, 0, [], false,
          seq(n, _ => Sender(Ready, Pkg(0, false, false, []))), [])
  }

  function After(n: nat, ls: seq<Label>): Option<State> {
    if ls == [] then Some(Initial(n)) else
    match After(n, ls[..|ls| - 1])
    case None => None
    case Some(s) => Step(s, ls[|ls| - 1])
  }

  // ----- the invariant

  /** The packages of one sender and one priority. */
  function Of(ps: seq<Pkg>, k: nat, low: bool): seq<Pkg> {
    if ps == [] then []
    else Of(ps[..|ps| - 1], k, low) + One(ps[|ps| - 1], k, low)
  }

  function One(p: Pkg, k: nat, low: bool): seq<Pkg> {
    if p.sender == k && p.low == low then [p] else []
  }

  predicate NoneOf(ps: seq<Pkg>, k: nat) {
    forall p | p in ps :: p.sender != k
  }

  function InHand(x: Sender): seq<Pkg> {
    if x.pc.Ready? then [] else [x.pkg]
  }

  function Asking(xs: seq<Sender>): nat {
    if xs == [] then 0 else Asking(xs[..|xs| - 1]) + if xs[|xs| - 1].pc.Ask? then 1 else 0
  }

  predicate Locked(pc: Pc) {
    pc.Lists? || pc.Count? || pc.Write? || pc.Unlock?
  }

  /** Low-priority packages only in the low list, and never written directly. */
  predicate ListsOk(s: Sock) {
    && (forall p | p in Pkgs(s.low) :: p.low)
    && (s.dw.Some? ==> !s.dw.value.pkg.low)
  }

  /** What a sender may rely on: once it has seen 'sending' at 0, nothing of its own is on the way; once it
      has seen the lists empty with the lock taken, nothing is begun and nothing of its own waits. */
  predicate SenderOk(s: State, k: nat)
    requires k < |s.senders|
  {
    var x := s.senders[k];
    && (Locked(x.pc) <==> s.lock == Some(k))
    && (!x.pc.Ready? ==> x.pkg.sender == k)
    && (x.pc.Check? || x.pc.Lock? || Locked(x.pc) ==> !x.pkg.low)
    && (x.pc.Lock? || x.pc.Lists? || x.pc.Count? || x.pc.Write? ==> NoneOf(s.pipe, k))
    && (x.pc.Count? || x.pc.Write? ==>
          s.sock.dw.None? && Fresh(s.sock.high) && Fresh(s.sock.low)
          && NoneOf(Pkgs(s.sock.high), k) && NoneOf(Pkgs(s.sock.low), k))
  }

  /** The packages of a sender with one priority: written, waiting, on the way and in hand, in the order in
      which they were handed over. */
  ghost predicate InOrder(s: State, k: nat, low: bool)
    requires k < |s.senders|
  {
    Of(Line(s.sock), k, low) + Of(s.pipe, k, low) + Of(InHand(s.senders[k]), k, low) == Of(s.issued, k, low)
  }

  ghost predicate Inv(s: State) {
    && SockOk(s.sock) && ListsOk(s.sock)
    && s.sending == |s.pipe| + (if s.appended then 1 else 0) + Asking(s.senders)
    && (s.lock.Some? ==> s.lock.value < |s.senders|)
    && (forall k: nat | k < |s.senders| :: SenderOk(s, k))
    && (forall k: nat, low: bool | k < |s.senders| :: InOrder(s, k, low))
  }

  // ----- lemmas about the packages of a sender

  lemma {:induction false} OfJoin(a: seq<Pkg>, b: seq<Pkg>, k: nat, low: bool)
    ensures Of(a + b, k, low) == Of(a, k, low) + Of(b, k, low)
  {
    hide One;
    if b == [] {
      assert a + b == a;
    } else {
      assert (a + b)[..|a + b| - 1] == a + b[..|b| - 1];
      OfJoin(a, b[..|b| - 1], k, low);
    }
  }

  lemma OfOne(p: Pkg, k: nat, low: bool)
    ensures Of([p], k, low) == One(p, k, low) && Of([], k, low) == []
  {
    assert [p][..0] == [];
  }

  lemma {:induction false} OfNone(ps: seq<Pkg>, k: nat, low: bool)
    requires forall p | p in ps :: p.sender != k || p.low != low
    ensures Of(ps, k, low) == []
  {
    if ps != [] { OfNone(ps[..|ps| - 1], k, low); }
  }

  lemma {:induction false} AskingUpdate(xs: seq<Sender>, k: nat, x: Sender)
    requires k < |xs|
    ensures Asking(xs[k := x]) == Asking(xs) - (if xs[k].pc.Ask? then 1 else 0) + (if x.pc.Ask? then 1 else 0)
  {
    var n := |xs| - 1;
    if k == n {
      assert xs[k := x][..n] == xs[..n];
    } else {
      assert xs[k := x][..n] == xs[..n][k := x];
      AskingUpdate(xs[..n], k, x);
    }
  }

  // ----- what the steps of the socket do to its packages

  lemma LineParts(s: Sock, k: nat, low: bool)
    ensures Of(Line(s), k, low)
         == Of(s.done, k, low) + Of(if s.dw.Some? then [s.dw.value.pkg] else [], k, low) + Of(Pkgs(s.high), k, low) + Of(Pkgs(s.low), k, low)
  {
    hide Of, Pkgs;
    var dw := if s.dw.Some? then [s.dw.value.pkg] else [];
    OfJoin(s.done + dw + Pkgs(s.high), Pkgs(s.low), k, low);
    OfJoin(s.done + dw, Pkgs(s.high), k, low);
    OfJoin(s.done, dw, k, low);
  }

  // Where a package is appended, as sequences.
  lemma Regroup<T>(a: seq<T>, b: seq<T>, c: seq<T>, d: seq<T>, x: seq<T>)
    ensures a + b + c + (d + x) == (a + b + c + d) + x
    ensures x == [] || d == [] ==> a + b + (c + x) + d == (a + b + c + d) + x
  {
  }

  // At the end of the high list.
  lemma AppendHigh(s: Sock, s': Sock, p: Pkg, k: nat, low: bool)
    requires ListsOk(s) && s'.done == s.done && s'.dw == s.dw
    requires s'.high == s.high + [Buf(p, 0)] && s'.low == s.low && (s.low == [] || !p.low)
    ensures Of(Line(s'), k, low) == Of(Line(s), k, low) + One(p, k, low)
  {
    var dw := if s.dw.Some? then [s.dw.value.pkg] else [];
    LineParts(s, k, low);
    LineParts(s', k, low);
    PkgsOne(Buf(p, 0));
    OfOne(p, k, low);
    PkgsJoin(s.high, [Buf(p, 0)]);
    OfJoin(Pkgs(s.high), [p], k, low);
    if s.low == [] {
      OfOne(p, k, low);
    } else if low {
      OneOther(p, k, low);
    } else {
      OfNone(Pkgs(s.low), k, low);
    }
    hide *;
    Regroup(Of(s.done, k, low), Of(dw, k, low), Of(Pkgs(s.high), k, low), Of(Pkgs(s.low), k, low), One(p, k, low));
  }

  // At the end of the low list.
  lemma AppendLow(s: Sock, s': Sock, p: Pkg, k: nat, low: bool)
    requires s'.done == s.done && s'.dw == s.dw && s'.high == s.high && s'.low == s.low + [Buf(p, 0)]
    ensures Of(Line(s'), k, low) == Of(Line(s), k, low) + One(p, k, low)
  {
    hide *;
    var dw := if s.dw.Some? then [s.dw.value.pkg] else [];
    LineParts(s, k, low);
    LineParts(s', k, low);
    PkgsOne(Buf(p, 0));
    OfOne(p, k, low);
    PkgsJoin(s.low, [Buf(p, 0)]);
    OfJoin(Pkgs(s.low), [p], k, low);
    Regroup(Of(s.done, k, low), Of(dw, k, low), Of(Pkgs(s.high), k, low), Of(Pkgs(s.low), k, low), One(p, k, low));
  }

  /** Appending a package puts it behind all others of its sender and priority. */
  lemma AppendKeeps(s: Sock, p: Pkg, k: nat, low: bool)
    requires ListsOk(s)
    ensures Of(Line(Append(s, p)), k, low) == Of(Line(s), k, low) + One(p, k, low)
  {
    hide Of, One, Pkgs, Line, ListsOk;
    if (s.high == [] && s.low == []) || !p.low {
      assert Append(s, p).high == s.high + [Buf(p, 0)];
      AppendHigh(s, Append(s, p), p, k, low);
    } else {
      AppendLow(s, Append(s, p), p, k, low);
    }
  }

  lemma OneOther(p: Pkg, k: nat, low: bool)
    requires p.sender != k || p.low != low
    ensures One(p, k, low) == []
  {
  }

  lemma AppendSound(s: Sock, p: Pkg)
    requires SockOk(s) && ListsOk(s) && s.open
    ensures SockOk(Append(s, p)) && ListsOk(Append(s, p)) && Append(s, p).open
    ensures Fresh(s.high) ==> Fresh(Append(s, p).high)
    ensures Pkgs(Append(s, p).high) == Pkgs(s.high) || Pkgs(Append(s, p).high) == Pkgs(s.high) + [p]
    ensures Pkgs(Append(s, p).low) == Pkgs(s.low) || Pkgs(Append(s, p).low) == Pkgs(s.low) + [p]
  {
    hide Flat;
    var b := Buf(p, 0);
    TotalJoin(s.high, [b]);
    TotalJoin(s.low, [b]);
    TotalOne(b);
    TotalEmpty();
    PkgsJoin(s.high, [b]);
    PkgsJoin(s.low, [b]);
    PkgsOne(b);
    assert s.high != [] ==> (s.high + [b])[1..] == s.high[1..] + [b];
    assert s.low != [] ==> (s.low + [b])[1..] == s.low[1..] + [b];
  }

  /** A direct write with nothing begun, and nothing of this sender waiting, puts the package behind all others
      of its sender and priority. */
  lemma DirectKeeps(s: Sock, p: Pkg, n: nat, k: nat, low: bool)
    requires s.dw.None? && NoneOf(Pkgs(s.high), p.sender) && NoneOf(Pkgs(s.low), p.sender)
    ensures Of(Line(DirectWrite(s, p, n)), k, low) == Of(Line(s), k, low) + One(p, k, low)
  {
    hide Of, Pkgs;
    LineParts(s, k, low);
    LineParts(DirectWrite(s, p, n), k, low);
    OfOne(p, k, low);
    OfJoin(s.done, [p], k, low);
    if k == p.sender {
      OfNone(Pkgs(s.high), k, low);
      OfNone(Pkgs(s.low), k, low);
    } else {
      OneOther(p, k, low);
    }
  }

  lemma NothingBegun(s: Sock)
    requires SockOk(s) && s.dw.None? && Fresh(s.high) && Fresh(s.low)
    ensures Begun(s) == [] && s.out == Flat(s.done)
  {
    hide Flat, Total;
    if s.high != [] { assert s.high[0] in s.high && s.high[0].Written() == []; }
    else if s.low != [] { assert s.low[0] in s.low && s.low[0].Written() == []; }
  }

  lemma DirectSound(s: Sock, p: Pkg, n: nat)
    requires SockOk(s) && ListsOk(s) && !p.low
    requires s.dw.None? && Fresh(s.high) && Fresh(s.low)
    ensures SockOk(DirectWrite(s, p, n)) && ListsOk(DirectWrite(s, p, n))
  {
    hide Total, Pkgs, Flat;
    NothingBegun(s);
    if n >= |p.bytes| {
      FlatNext(s.done, p);
      assert Begun(DirectWrite(s, p, n)) == Begun(s);
    }
  }

  lemma SendLows(s: Sock, answers: seq<Answer>)
    requires SockOk(s) && s.open && ListsOk(s)
    ensures ListsOk(SendBuffer(s, answers))
  {
    hide SockOk, SendBuffer, Line, Pkgs;
    SendBufferKeeps(s, answers);
    SendShrinks(s, answers);
  }

  /** Sending puts nothing into the low list. */
  lemma SendShrinks(s: Sock, answers: seq<Answer>)
    requires SockOk(s) && s.open
    ensures forall p | p in Pkgs(SendBuffer(s, answers).low) :: p in Pkgs(s.low)
  {
    hide SendList, SockOk, Continues, Line, Pkgs;
    TakeDirectKeeps(s);
    var s0 := TakeDirect(s);
    StartFirst(s0, answers);
    var y := SendList(OfList(s0, s0.high, answers));
    SendListKeeps(OfList(s0, s0.high, answers));
    ContinuesAny(OfList(s0, s0.high, answers), y);
    FirstList(s0, y);
    var s1 := WithSent(s0, y).(high := y.list);
    if y.open && y.list == [] && s1.low != [] {
      StartSecond(s1, y.answers);
      var z := SendList(OfList(s1, s1.low, y.answers));
      SendListKeeps(OfList(s1, s1.low, y.answers));
      ListShrinks(OfList(s1, s1.low, y.answers), z);
      if z.list != [] { PkgsTail(z.list); }
    }
  }

  lemma ListShrinks(x: Sending, y: Sending)
    requires Continues(x, y)
    ensures forall p | p in Pkgs(y.list) :: p in Pkgs(x.list)
  {
    var d := |y.done| - |x.done|;
    forall k | 0 <= k < |y.list| ensures Pkgs(y.list)[k] in Pkgs(x.list) {
      assert Pkgs(y.list)[k] == (y.done + Pkgs(y.list))[|y.done| + k] == (x.done + Pkgs(x.list))[|y.done| + k];
      assert Pkgs(x.list)[d + k] == Pkgs(y.list)[k];
    }
  }

  lemma PkgsTail(list: seq<Buf>)
    requires list != []
    ensures forall p | p in Pkgs(list[1..]) :: p in Pkgs(list)
  {
    forall k | 0 <= k < |list| - 1 ensures Pkgs(list[1..])[k] in Pkgs(list) {
      assert Pkgs(list)[k + 1] == Pkgs(list[1..])[k];
    }
  }
}
