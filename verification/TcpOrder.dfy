// What holds in every run of the senders and the socket thread.
module TcpOrder {
  import opened Bytes
  import opened Wrappers
  import opened TcpSocket
  import opened TcpSenders

  // Steps that change neither the socket nor the pipe.
  predicate Moves(pc: Pc) {
    pc.Check? || pc.Lock? || pc.Lists? || pc.Count? || pc.Unlock? || pc.Inc?
  }

  lemma MovesSenders(s: State, k: nat, n: nat, idle: bool, j: nat)
    requires Inv(s) && k < |s.senders| && Moves(s.senders[k].pc) && Access(s, k, n, idle).Some? && j < |s.senders|
    ensures SenderOk(Access(s, k, n, idle).value, j)
  {
    hide SockOk, ListsOk, Line, Of, Pkgs, InOrder;
    assert SenderOk(s, j) && SenderOk(s, k);
    if s.senders[k].pc.Check? { if s.sending == 0 { NothingOnTheWay(s); } }
    if s.senders[k].pc.Lists? { EmptyLists(s.sock); }
  }

  lemma MovesKeep(s: State, k: nat, n: nat, idle: bool)
    requires Inv(s) && s.sock.open && k < |s.senders| && Moves(s.senders[k].pc)
    requires Access(s, k, n, idle).Some?
    ensures Inv(Access(s, k, n, idle).value)
  {
    hide SockOk, ListsOk, Line, Of, Pkgs, SenderOk;
    var s' := Access(s, k, n, idle).value;
    AskingUpdate(s.senders, k, s'.senders[k]);
    forall j: nat | j < |s'.senders| ensures SenderOk(s', j) {
      MovesSenders(s, k, n, idle, j);
    }
    forall j: nat, low: bool | j < |s'.senders| ensures InOrder(s', j, low) {
      assert InOrder(s, j, low);
    }
  }

  lemma NothingOnTheWay(s: State)
    requires Inv(s) && s.sending == 0
    ensures s.pipe == []
  {
  }

  lemma EmptyLists(s: Sock)
    ensures s.high == [] ==> Fresh(s.high) && Pkgs(s.high) == []
    ensures s.low == [] ==> Fresh(s.low) && Pkgs(s.low) == []
  {
  }

  lemma BeginKeeps(s: State, k: nat, low: bool, userObject: bool, bytes: seq<byte>)
    requires Inv(s) && Step(s, Begin(k, low, userObject, bytes)).Some?
    ensures Inv(Step(s, Begin(k, low, userObject, bytes)).value)
  {
    hide SockOk, ListsOk, Line, Of, Pkgs, One;
    var p := Pkg(k, low, userObject, bytes);
    var s' := Step(s, Begin(k, low, userObject, bytes)).value;
    AskingUpdate(s.senders, k, s'.senders[k]);
    forall j: nat | j < |s'.senders| ensures SenderOk(s', j) {
      assert SenderOk(s, j) && SenderOk(s, k);
    }
    forall j: nat, l: bool | j < |s'.senders| ensures InOrder(s', j, l) {
      assert InOrder(s, j, l);
      OfJoin(s.issued, [p], j, l);
      OfOne(p, j, l);
      if j != k { OneOther(p, j, l); }
    }
  }

  /** The request reaches the pipe: the package is no longer in hand but on the way. */
  lemma AskKeeps(s: State, k: nat, n: nat, idle: bool)
    requires Inv(s) && s.sock.open && k < |s.senders| && s.senders[k].pc.Ask?
    ensures Inv(Access(s, k, n, idle).value)
  {
    hide SockOk, ListsOk, Line, Of, Pkgs, One;
    var p := s.senders[k].pkg;
    var s' := Access(s, k, n, idle).value;
    AskingUpdate(s.senders, k, s'.senders[k]);
    assert SenderOk(s, k);
    forall j: nat | j < |s'.senders| ensures SenderOk(s', j) {
      assert SenderOk(s, j);
    }
    forall j: nat, l: bool | j < |s'.senders| ensures InOrder(s', j, l) {
      assert InOrder(s, j, l);
      OfJoin(s.pipe, [p], j, l);
      OfOne(p, j, l);
      if j != k { OneOther(p, j, l); }
    }
  }

  /** The direct write. */
  lemma WriteKeeps(s: State, k: nat, n: nat, idle: bool)
    requires Inv(s) && s.sock.open && k < |s.senders| && s.senders[k].pc.Write?
    ensures Inv(Access(s, k, n, idle).value)
  {
    hide SockOk, ListsOk, Line, Of, Pkgs, One;
    var p := s.senders[k].pkg;
    var s' := Access(s, k, n, idle).value;
    assert SenderOk(s, k);
    AskingUpdate(s.senders, k, s'.senders[k]);
    DirectSound(s.sock, p, n);
    forall j: nat | j < |s'.senders| ensures SenderOk(s', j) {
      assert SenderOk(s, j);
    }
    forall j: nat, l: bool | j < |s'.senders| ensures InOrder(s', j, l) {
      assert InOrder(s, j, l);
      DirectKeeps(s.sock, p, n, j, l);
      OfOne(p, j, l);
      if j == k { OfNone(s.pipe, k, l); } else { OneOther(p, j, l); }
    }
  }

  /** 'send_socket': the oldest request. */
  lemma ReceiveKeeps(s: State)
    requires Inv(s) && Step(s, Receive).Some?
    ensures Inv(Step(s, Receive).value)
  {
    hide SockOk, ListsOk, Line, Of, Pkgs, One, Append;
    var p := s.pipe[0];
    var s' := Step(s, Receive).value;
    assert s.pipe == [p] + s.pipe[1..];
    AppendSound(s.sock, p);
    AppendDirect(s.sock, p);
    forall j: nat | j < |s'.senders| ensures SenderOk(s', j) {
      assert SenderOk(s, j);
      AppendFresh(s.sock, p);
    }
    forall j: nat, l: bool | j < |s'.senders| ensures InOrder(s', j, l) {
      assert InOrder(s, j, l);
      AppendKeeps(s.sock, p, j, l);
      OfJoin([p], s.pipe[1..], j, l);
      OfOne(p, j, l);
    }
  }

  lemma AppendDirect(s: Sock, p: Pkg)
    ensures Append(s, p).dw == s.dw
  {
  }

  lemma AppendFresh(s: Sock, p: Pkg)
    ensures Fresh(s.high) ==> Fresh(Append(s, p).high)
    ensures Fresh(s.low) ==> Fresh(Append(s, p).low)
  {
  }

  lemma DecKeeps(s: State)
    requires Inv(s) && Step(s, Dec).Some?
    ensures Inv(Step(s, Dec).value)
  {
    hide SockOk, ListsOk, Line, Of, Pkgs;
    var s' := Step(s, Dec).value;
    forall j: nat | j < |s'.senders| ensures SenderOk(s', j) { assert SenderOk(s, j); }
    forall j: nat, l: bool | j < |s'.senders| ensures InOrder(s', j, l) { assert InOrder(s, j, l); }
  }

  lemma WriteEventKeeps(s: State, answers: seq<Answer>)
    requires Inv(s) && Step(s, WriteEvent(answers)).Some?
    ensures Inv(Step(s, WriteEvent(answers)).value)
  {
    hide SockOk, ListsOk, Line, Of, Pkgs, SendBuffer;
    if s.lock.None? {
      var s' := Step(s, WriteEvent(answers)).value;
      SendBufferKeeps(s.sock, answers);
      SendLows(s.sock, answers);
      forall j: nat | j < |s'.senders| ensures SenderOk(s', j) { assert SenderOk(s, j); }
      forall j: nat, l: bool | j < |s'.senders| ensures InOrder(s', j, l) { assert InOrder(s, j, l); }
    }
  }

  lemma StepKeeps(s: State, l: Label)
    requires Inv(s) && Step(s, l).Some?
    ensures Inv(Step(s, l).value)
  {
    hide Inv, Access;
    match l
    case Begin(k, low, userObject, bytes) => BeginKeeps(s, k, low, userObject, bytes);
    case Do(k, n, idle) =>
      if s.senders[k].pc.Write? { WriteKeeps(s, k, n, idle); }
      else if s.senders[k].pc.Ask? { AskKeeps(s, k, n, idle); }
      else { ReadyDoesNothing(s, k, n, idle); MovesKeep(s, k, n, idle); }
    case Receive => ReceiveKeeps(s);
    case Dec => DecKeeps(s);
    case WriteEvent(answers) => WriteEventKeeps(s, answers);
  }

  lemma ReadyDoesNothing(s: State, k: nat, n: nat, idle: bool)
    requires k < |s.senders|
    ensures Access(s, k, n, idle).Some? ==> !s.senders[k].pc.Ready?
  {
  }

  lemma InitialOk(n: nat)
    ensures Inv(Initial(n))
  {
    var s := Initial(n);
    NoneAsking(s.senders);
    forall k: nat, low: bool | k < |s.senders| ensures InOrder(s, k, low) {
      assert Line(s.sock) == [];
    }
  }

  lemma {:induction false} NoneAsking(xs: seq<Sender>)
    requires forall k | 0 <= k < |xs| :: xs[k].pc.Ready?
    ensures Asking(xs) == 0
  {
    if xs != [] { NoneAsking(xs[..|xs| - 1]); }
  }

  /** The invariant holds in every state of every run. */
  lemma {:induction false} InvariantHolds(n: nat, ls: seq<Label>)
    requires After(n, ls).Some?
    ensures Inv(After(n, ls).value)
  {
    hide Inv, Step, Initial;
    if ls == [] {
      InitialOk(n);
    } else {
      InvariantHolds(n, ls[..|ls| - 1]);
      StepKeeps(After(n, ls[..|ls| - 1]).value, ls[|ls| - 1]);
    }
  }

  // ----- the guarantees

  /** The bytes on the wire are whole packages followed by a part of at most one, the next in line. */
  lemma WholePackages(n: nat, ls: seq<Label>) returns (part: seq<byte>)
    requires After(n, ls).Some?
    ensures var s := After(n, ls).value.sock;
            && s.out == Flat(s.done) + part
            && s.done <= Line(s)
            && (part != [] ==> |s.done| < |Line(s)| && part <= Line(s)[|s.done|].bytes)
  {
    hide Flat, Total;
    InvariantHolds(n, ls);
    var s := After(n, ls).value.sock;
    part := Begun(s);
    if part != [] {
      var b := if s.dw.Some? then s.dw.value else if s.high != [] then s.high[0] else s.low[0];
      assert part == b.Written() && Line(s)[|s.done|] == b.pkg;
    }
  }

  /** What was written of a sender's packages of one priority is a prefix of what it handed over; what is not
      written yet is the rest, in order, and nothing is lost or duplicated. */
  lemma SendOrder(n: nat, ls: seq<Label>, k: nat, low: bool)
    requires After(n, ls).Some? && k < |After(n, ls).value.senders|
    ensures var s := After(n, ls).value;
            && Of(s.sock.done, k, low) <= Of(s.issued, k, low)
            && Of(Line(s.sock), k, low) + Of(s.pipe, k, low) + Of(InHand(s.senders[k]), k, low) == Of(s.issued, k, low)
  {
    hide Of, Pkgs;
    var s := After(n, ls).value;
    InvariantHolds(n, ls);
    assert InOrder(s, k, low);
    LineParts(s.sock, k, low);
  }

  /** When nothing waits any more, every package has been written, those of each sender and priority in order. */
  lemma AllWritten(n: nat, ls: seq<Label>, k: nat, low: bool)
    requires After(n, ls).Some? && k < |After(n, ls).value.senders|
    requires var s := After(n, ls).value;
             s.senders[k].pc.Ready? && s.pipe == [] && s.sock.dw.None? && s.sock.high == [] && s.sock.low == []
    ensures var s := After(n, ls).value;
            Of(s.sock.done, k, low) == Of(s.issued, k, low) && s.sock.out == Flat(s.sock.done) && s.sock.wbSize == 0
  {
    hide Flat;
    var s := After(n, ls).value;
    InvariantHolds(n, ls);
    SendOrder(n, ls, k, low);
    assert Line(s.sock) == s.sock.done;
  }

  /** 'wb_size' counts the bytes that wait in the lists, and the socket is watched exactly as long as something waits;
      the counter of requests does not underflow, and at most one sender has the lock. */
  lemma Bookkeeping(n: nat, ls: seq<Label>, k: nat, j: nat)
    requires After(n, ls).Some? && k < |After(n, ls).value.senders| && j < |After(n, ls).value.senders|
    ensures var s := After(n, ls).value;
            && s.sock.wbSize == Total(s.sock.high) + Total(s.sock.low)
            && (s.sock.interest <==> s.sock.dw.Some? || s.sock.high != [] || s.sock.low != [])
            && (s.appended ==> s.sending > 0)
            && (Locked(s.senders[k].pc) && Locked(s.senders[j].pc) ==> k == j)
  {
    InvariantHolds(n, ls);
    assert SenderOk(After(n, ls).value, k) && SenderOk(After(n, ls).value, j);
  }

  // ----- direct writes

  /** Sender k makes m accesses, and is told that nothing waits. */
  function Goes(s: State, k: nat, n: nat, m: nat): Option<State>
    decreases m
  {
    if m == 0 then Some(s) else
    match Step(s, Do(k, n, true))
    case None => None
    case Some(s') => Goes(s', k, n, m - 1)
  }

  /** A sender that finds nothing on the way and nothing waiting writes directly, with its next five accesses. */
  lemma WritesDirectly(s: State, k: nat, n: nat)
    requires k < |s.senders| && s.senders[k].pc.Check? && s.sending == 0 && s.lock.None?
    requires s.sock.open && s.sock.high == [] && s.sock.low == [] && s.sock.dw.None?
    ensures var p := s.senders[k].pkg;
      Goes(s, k, n, 5) == Some(s.(sock := DirectWrite(s.sock, p, n), senders := s.senders[k := Sender(Ready, p)]))
  {
    var go, p := Do(k, n, true), s.senders[k].pkg;
    var s1 := s.(senders := s.senders[k := Sender(Lock, p)]);
    var s2 := s.(lock := Some(k), senders := s.senders[k := Sender(Lists, p)]);
    var s3 := s2.(senders := s.senders[k := Sender(Count, p)]);
    var s4 := s2.(senders := s.senders[k := Sender(Write, p)]);
    assert Step(s, go) == Some(s1);
    assert s1.senders[k := Sender(Lists, p)] == s2.senders && Step(s1, go) == Some(s2);
    assert s2.senders[k := Sender(Count, p)] == s3.senders && Step(s2, go) == Some(s3);
    assert s3.senders[k := Sender(Write, p)] == s4.senders && Step(s3, go) == Some(s4);
    var s5 := s.(sock := DirectWrite(s.sock, p, n), senders := s.senders[k := Sender(Ready, p)]);
    assert s4.senders[k := Sender(Ready, p)] == s5.senders && Step(s4, go) == Some(s5);
    hide Step;
    assert Goes(s4, k, n, 1) == Goes(s5, k, n, 0) && Goes(s3, k, n, 2) == Goes(s4, k, n, 1);
    assert Goes(s2, k, n, 3) == Goes(s3, k, n, 2) && Goes(s1, k, n, 4) == Goes(s2, k, n, 3);
  }

  // ----- priority

  /** A package of low priority comes into the high list only when it is sent to a socket whose lists are empty, or
      when it counts as begun and nothing of high priority waits. */
  lemma LowComesUp(s: State, l: Label)
    requires Inv(s) && Step(s, l).Some?
    ensures var s' := Step(s, l).value; Lows(Pkgs(s'.sock.high)) > Lows(Pkgs(s.sock.high)) ==>
      || (l.Receive? && s.pipe[0].low && s.sock.high == [] && s.sock.low == [] && s'.sock.high == [Buf(s.pipe[0], 0)])
      || (l.WriteEvent? && |s'.sock.high| == 1 && Uncomplete(s'.sock.high) && s'.sock.high[0].pkg in Pkgs(s.sock.low))
  {
    hide SockOk, Pkgs, SendBuffer, InOrder, SenderOk, Append;
    match l
    case Receive => AppendLows(s.sock, s.pipe[0]); AppendPlace(s.sock, s.pipe[0]);
    case WriteEvent(answers) => if s.lock.None? { SendLowsFew(s.sock, answers); }
    case Do(k, n, idle) => AccessHigh(s, k, n, idle);
    case _ =>
  }

  lemma AccessHigh(s: State, k: nat, n: nat, idle: bool)
    requires k < |s.senders| && Access(s, k, n, idle).Some?
    ensures Access(s, k, n, idle).value.sock.high == s.sock.high
  {
  }

  /** In every state of every run at most one package of low priority is in the high list; all others wait behind
      everything of high priority. */
  lemma {:induction false} OneLowAhead(n: nat, ls: seq<Label>)
    requires After(n, ls).Some?
    ensures var s := After(n, ls).value.sock; Lows(Pkgs(s.high)) <= 1 && forall p | p in Pkgs(s.low) :: p.low
  {
    hide Step, Pkgs, Initial;
    InvariantHolds(n, ls);
    if ls == [] {
      NoLows(n);
    } else {
      var s, l := After(n, ls[..|ls| - 1]).value, ls[|ls| - 1];
      OneLowAhead(n, ls[..|ls| - 1]);
      InvariantHolds(n, ls[..|ls| - 1]);
      LowComesUp(s, l);
      var high := After(n, ls).value.sock.high;
      if |high| == 1 { LowsOne(high[0].pkg); PkgsOne(high[0]); assert high == [high[0]]; }
    }
  }

  lemma NoLows(n: nat)
    ensures Lows(Pkgs(Initial(n).sock.high)) == 0
  {
  }

  // ----- the assertion of 'send_buffer_'

  /** Where the socket thread would write, the assertion fails exactly when a user object heads the low list. */
  lemma AbortsExactly(n: nat, ls: seq<Label>, answers: seq<Answer>)
    requires After(n, ls).Some? && After(n, ls).value.sock.open
    requires !After(n, ls).value.appended && After(n, ls).value.lock.None?
    ensures var s := After(n, ls).value;
            Step(s, WriteEvent(answers)).None? <==> s.sock.low != [] && s.sock.low[0].pkg.userObject
  {
    hide Flat, Total, Pkgs;
    InvariantHolds(n, ls);
    FreshComplete(After(n, ls).value.sock.low);
  }

  predicate LowObject(p: Pkg) {
    p.low && p.userObject
  }

  predicate NoLowObject(ps: seq<Pkg>) {
    forall p | p in ps :: !LowObject(p)
  }

  predicate Plain(s: State) {
    && NoLowObject(Pkgs(s.sock.low)) && NoLowObject(s.pipe)
    && (forall k | 0 <= k < |s.senders| :: s.senders[k].pc.Ready? || !LowObject(s.senders[k].pkg))
  }

  lemma SendPlain(s: Sock, answers: seq<Answer>)
    requires SockOk(s) && s.open && NoLowObject(Pkgs(s.low))
    ensures NoLowObject(Pkgs(SendBuffer(s, answers).low))
  {
    SendShrinks(s, answers);
  }

  lemma AccessPlain(s: State, k: nat, n: nat, idle: bool)
    requires Plain(s) && k < |s.senders| && Access(s, k, n, idle).Some?
    ensures Plain(Access(s, k, n, idle).value)
  {
    hide Pkgs, LowObject;
    var s' := Access(s, k, n, idle).value;
    assert s'.sock.low == s.sock.low && s'.senders[k].pkg == s.senders[k].pkg && !s.senders[k].pc.Ready?;
  }

  lemma ReceivePlain(s: State)
    requires Inv(s) && Plain(s) && Step(s, Receive).Some?
    ensures Plain(Step(s, Receive).value)
  {
    hide SockOk, ListsOk, Pkgs, Append, InOrder, SenderOk, LowObject;
    AppendSound(s.sock, s.pipe[0]);
    assert s.pipe[0] in s.pipe;
  }

  lemma StepPlain(s: State, l: Label)
    requires Inv(s) && Plain(s) && Step(s, l).Some? && NoLowObject(Step(s, l).value.issued)
    ensures Plain(Step(s, l).value)
  {
    hide SockOk, ListsOk, Pkgs, SendBuffer, InOrder, SenderOk, Access, Append;
    var s' := Step(s, l).value;
    match l
    case Begin(k, low, userObject, bytes) => assert s'.issued[|s.issued|] == s'.senders[k].pkg;
    case Do(k, n, idle) => AccessPlain(s, k, n, idle);
    case Receive => ReceivePlain(s);
    case Dec =>
    case WriteEvent(answers) => if s.lock.None? { SendPlain(s.sock, answers); }
  }

  lemma IssuedGrows(s: State, l: Label)
    requires Step(s, l).Some?
    ensures s.issued <= Step(s, l).value.issued
  {
  }

  lemma {:induction false} PlainRuns(n: nat, ls: seq<Label>)
    requires After(n, ls).Some? && NoLowObject(After(n, ls).value.issued)
    ensures Plain(After(n, ls).value)
  {
    hide Inv, Step, Plain;
    if ls == [] {
      InitialPlain(n);
    } else {
      var s, l := After(n, ls[..|ls| - 1]).value, ls[|ls| - 1];
      InvariantHolds(n, ls[..|ls| - 1]);
      IssuedGrows(s, l);
      PlainRuns(n, ls[..|ls| - 1]);
      StepPlain(s, l);
    }
  }

  lemma InitialPlain(n: nat)
    ensures Plain(Initial(n))
  {
  }

  /** As long as no user object is sent with low priority, the assertion never fails. */
  lemma PlainNeverAborts(n: nat, ls: seq<Label>, answers: seq<Answer>)
    requires After(n, ls).Some? && After(n, ls).value.sock.open
    requires !After(n, ls).value.appended && NoLowObject(After(n, ls).value.issued)
    ensures Step(After(n, ls).value, WriteEvent(answers)).Some?
  {
    var s := After(n, ls).value;
    InvariantHolds(n, ls);
    PlainRuns(n, ls);
    if s.lock.None? {
      AbortsExactly(n, ls, answers);
      if s.sock.low != [] { assert Pkgs(s.sock.low)[0] in Pkgs(s.sock.low); }
    }
  }

  /** A run in which it does: behind a package that waits, a user object is put into the low list. */
  lemma ObjectAborts(answers: seq<Answer>) returns (ls: seq<Label>)
    ensures After(1, ls).Some? && Step(After(1, ls).value, WriteEvent(answers)).None?
    ensures var s := After(1, ls).value; s.sock.open && !s.appended && s.lock.None?
  {
    var first, second := ObjectRun(false, [1]), ObjectRun(true, [2]);
    ls := first + second;
    var p, q := Pkg(0, true, false, [1]), Pkg(0, true, true, [2]);
    var s0 := Initial(1);
    assert After(1, []) == Some(s0);
    SendRun(1, [], s0, p.userObject, p.bytes);
    assert [] + first == first;
    SendRun(1, first, After(1, first).value, q.userObject, q.bytes);
  }

  /** Sender 0 sends a package with low priority and the socket thread takes the request. */
  function ObjectRun(userObject: bool, bytes: seq<byte>): seq<Label> {
    [Begin(0, true, userObject, bytes), Do(0, 0, false), Do(0, 0, false), Receive, Dec]
  }

  lemma SendRun(n: nat, ls: seq<Label>, s: State, userObject: bool, bytes: seq<byte>)
    requires After(n, ls) == Some(s) && s.sock.open && |s.senders| == 1 && s.senders[0].pc.Ready?
    requires s.pipe == [] && !s.appended && s.sending == 0
    ensures var p := Pkg(0, true, userObject, bytes);
            var s' := s.(sock := Append(s.sock, p), issued := s.issued + [p], senders := [Sender(Ready, p)]);
            After(n, ls + ObjectRun(userObject, bytes)) == Some(s')
  {
    hide Append, After;
    var p := Pkg(0, true, userObject, bytes);
    var run := ObjectRun(userObject, bytes);
    var s1 := s.(senders := [Sender(Inc, p)], issued := s.issued + [p]);
    AfterNext(n, ls, s, run[0]);
    assert s.senders[0 := Sender(Inc, p)] == s1.senders;
    var s2 := s1.(senders := [Sender(Ask, p)], sending := 1);
    AfterNext(n, ls + [run[0]], s1, run[1]);
    assert s1.senders[0 := Sender(Ask, p)] == s2.senders;
    var s3 := s2.(senders := [Sender(Ready, p)], pipe := [p]);
    AfterNext(n, ls + [run[0]] + [run[1]], s2, run[2]);
    assert s2.senders[0 := Sender(Ready, p)] == s3.senders && [] + [p] == [p];
    AfterNext(n, ls + [run[0]] + [run[1]] + [run[2]], s3, run[3]);
    assert [p][1..] == [];
    var s4 := s3.(pipe := [], appended := true, sock := Append(s.sock, p));
    AppendOpen(s.sock, p);
    AfterNext(n, ls + [run[0]] + [run[1]] + [run[2]] + [run[3]], s4, run[4]);
    assert ls + run == ls + [run[0]] + [run[1]] + [run[2]] + [run[3]] + [run[4]];
  }

  lemma AppendOpen(s: Sock, p: Pkg)
    ensures Append(s, p).open == s.open
  {
  }

  lemma AfterNext(n: nat, ls: seq<Label>, s: State, l: Label)
    requires After(n, ls) == Some(s)
    ensures After(n, ls + [l]) == Step(s, l)
  {
    assert (ls + [l])[..|ls + [l]| - 1] == ls;
  }
}
