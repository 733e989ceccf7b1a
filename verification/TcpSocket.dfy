// The write side of a connected TCP socket: two lists of buffers, the rest of a direct write, and the bytes
// that the kernel has taken. The kernel takes any prefix of what it is given.
module TcpSocket {
  import opened Bytes
  import opened Wrappers

  /** A package handed to 'socket_server_send' or 'socket_server_send_lowpriority'. A user object's bytes are not
      at the address of the object itself. */
  datatype Pkg = Pkg(sender: nat, low: bool, userObject: bool, bytes: seq<byte>)

  /** 'struct write_buffer': off bytes of the package have been written. */
  datatype Buf = Buf(pkg: Pkg, off: nat) {
    predicate Valid() { off <= |pkg.bytes| }
    function Rest(): seq<byte> requires Valid() { pkg.bytes[off..] }
    function Written(): seq<byte> requires Valid() { pkg.bytes[..off] }
  }

  /** What write(2) may answer. */
  datatype Answer = Took(n: nat) | Interrupted | Again | Failed

  /** The socket, with what was written to it: the bytes, and the packages that they complete. */
  datatype Sock = Sock(high: seq<Buf>, low: seq<Buf>, dw: Option<Buf>, wbSize: int, interest: bool, open: bool,
                       out: seq<byte>, done: seq<Pkg>)

  // ----- the socket thread

  /** A list in the course of being sent. Without an answer left, the kernel is not ready. */
  datatype Sending = Sending(list: seq<Buf>, wbSize: int, open: bool, out: seq<byte>, done: seq<Pkg>, answers: seq<Answer>)

  /** A short write of the head. */
  function WritePart(x: Sending, n: nat): Sending
    requires x.list != [] && x.list[0].Valid() && n < |x.list[0].Rest()|
  {
    var b := x.list[0];
    x.(list := [b.(off := b.off + n)] + x.list[1..], wbSize := x.wbSize - n, out := x.out + b.Rest()[..n])
  }

  /** A write of all of the head. */
  function WriteWhole(x: Sending): Sending
    requires x.list != [] && x.list[0].Valid()
  {
    var b := x.list[0];
    x.(list := x.list[1..], wbSize := x.wbSize - |b.Rest()|, out := x.out + b.Rest(), done := x.done + [b.pkg])
  }

  /** 'send_list_tcp' */
  function SendList(x: Sending): Sending
    decreases |x.answers|
  {
    if x.list == [] || x.answers == [] || !x.list[0].Valid() then x else
    var x' := x.(answers := x.answers[1..]);
    match x.answers[0]
    case Interrupted => SendList(x')
    case Again => x'
    case Failed => x'.(open := false)
    case Took(n) => if n < |x.list[0].Rest()| then WritePart(x', n) else SendList(WriteWhole(x'))
  }

  /** 'list_uncomplete' compares the next byte to write with the buffer's own address, so that every user object
      counts as begun. */
  predicate Uncomplete(list: seq<Buf>) {
    list != [] && (list[0].off != 0 || list[0].pkg.userObject)
  }

  function OfList(s: Sock, list: seq<Buf>, answers: seq<Answer>): Sending {
    Sending(list, s.wbSize, s.open, s.out, s.done, answers)
  }

  function WithSent(s: Sock, y: Sending): Sock {
    s.(wbSize := y.wbSize, open := y.open, out := y.out, done := y.done)
  }

  /** 'send_buffer' with the lock: the rest of a direct write goes before everything else. */
  function TakeDirect(s: Sock): Sock {
    match s.dw
    case None => s
    case Some(b) => s.(high := [b] + s.high, wbSize := s.wbSize + |b.pkg.bytes| - b.off, dw := None)
  }

  /** 'send_buffer_': the high list, then the low one; a package of the low list that counts as begun moves to
      the empty high list; with nothing left the write event is turned off. */
  function SendBuffer(s: Sock, answers: seq<Answer>): Sock {
    var s0 := TakeDirect(s);
    var y := SendList(OfList(s0, s0.high, answers));
    var s1 := WithSent(s0, y).(high := y.list);
    if !y.open || y.list != [] then s1
    else if s1.low == [] then s1.(interest := false) else
    var z := SendList(OfList(s1, s1.low, y.answers));
    var s2 := WithSent(s1, z).(low := z.list);
    if !z.open then s2
    else if Uncomplete(z.list) then s2.(high := [z.list[0]], low := z.list[1..])
    else if z.list != [] then s2
    else s2.(interest := false)
  }

  /** 'send_socket' for a connected TCP socket: to an empty socket everything is sent with high priority. */
  function Append(s: Sock, p: Pkg): Sock {
    var b := Buf(p, 0);
    var s' := s.(wbSize := s.wbSize + |p.bytes|);
    if s.high == [] && s.low == [] then s'.(high := [b], interest := true)
    else if p.low then s'.(low := s.low + [b])
    else s'.(high := s.high + [b])
  }

  /** The direct write of 'socket_server_send', of which the kernel takes n bytes. */
  function DirectWrite(s: Sock, p: Pkg, n: nat): Sock {
    if n >= |p.bytes| then s.(out := s.out + p.bytes, done := s.done + [p])
    else s.(out := s.out + p.bytes[..n], dw := Some(Buf(p, n)), interest := true)
  }

  // ----- what is kept

  function Total(list: seq<Buf>): int {
    if list == [] then 0 else |list[0].pkg.bytes| - list[0].off + Total(list[1..])
  }

  function Flat(ps: seq<Pkg>): seq<byte> {
    if ps == [] then [] else Flat(ps[..|ps| - 1]) + ps[|ps| - 1].bytes
  }

  /** The bytes written of the one package that is begun. */
  function Begun(s: Sock): seq<byte> {
    match s.dw
    case Some(b) => if b.Valid() then b.Written() else []
    case None =>
      if s.high != [] then (if s.high[0].Valid() then s.high[0].Written() else [])
      else if s.low != [] && s.low[0].Valid() then s.low[0].Written()
      else []
  }

  predicate Fresh(list: seq<Buf>) {
    forall b | b in list :: b.off == 0
  }

  /** Nothing but the head is begun. */
  predicate HeadOnly(list: seq<Buf>) {
    (list != [] ==> list[0].Valid()) && Fresh(if list == [] then [] else list[1..])
  }

  /** The bytes written are whole packages and then the begun part of at most one; 'wb_size' counts the bytes
      of the lists; and the socket thread waits for the socket exactly as long as something waits. */
  predicate SockOk(s: Sock) {
    && HeadOnly(s.high) && HeadOnly(s.low)
    && (s.open || s.high != [] ==> Fresh(s.low))
    && (s.dw.Some? ==> s.dw.value.Valid() && Fresh(s.high) && Fresh(s.low))
    && s.wbSize == Total(s.high) + Total(s.low)
    && s.out == Flat(s.done) + Begun(s)
    && (s.interest <==> s.dw.Some? || s.high != [] || s.low != [])
  }

  function Pkgs(list: seq<Buf>): (ps: seq<Pkg>)
    ensures |ps| == |list|
  {
    seq(|list|, k requires 0 <= k < |list| => list[k].pkg)
  }

  /** All packages that the socket has been given, in the order in which they are or will be written. */
  function Line(s: Sock): seq<Pkg> {
    s.done + (if s.dw.Some? then [s.dw.value.pkg] else []) + Pkgs(s.high) + Pkgs(s.low)
  }

  /** The invariant of a list in the course of being sent. */
  predicate SendingOk(x: Sending) {
    && HeadOnly(x.list)
    && x.out == Flat(x.done) + (if x.list == [] then [] else x.list[0].Written())
  }

  lemma SendListStep(x: Sending)
    ensures SendList(x) ==
      if x.list == [] || x.answers == [] || !x.list[0].Valid() then x else
      var x' := x.(answers := x.answers[1..]);
      match x.answers[0]
      case Interrupted => SendList(x')
      case Again => x'
      case Failed => x'.(open := false)
      case Took(n) => if n < |x.list[0].Rest()| then WritePart(x', n) else SendList(WriteWhole(x'))
  {
  }

  lemma FlatNext(ps: seq<Pkg>, p: Pkg)
    ensures Flat(ps + [p]) == Flat(ps) + p.bytes
  {
    assert (ps + [p])[..|ps|] == ps;
  }

  predicate Continues(x: Sending, y: Sending) {
    && SendingOk(y)
    && y.wbSize - Total(y.list) == x.wbSize - Total(x.list)
    && y.done + Pkgs(y.list) == x.done + Pkgs(x.list)
    && (x.list == [] ==> y.list == [])
    && x.done <= y.done
  }

  lemma WritePartKeeps(x: Sending, n: nat)
    requires SendingOk(x) && x.list != [] && n < |x.list[0].Rest()|
    ensures Continues(x, WritePart(x, n))
  {
    hide Flat, Pkgs, HeadOnly, Total;
    HeadPart(x.list, n);
  }

  // n more bytes of the head have been written.
  lemma HeadPart(list: seq<Buf>, n: nat)
    requires HeadOnly(list) && list != [] && n < |list[0].Rest()|
    ensures var b := list[0]; var list' := [b.(off := b.off + n)] + list[1..];
      && b.Valid() && HeadOnly(list') && Total(list') == Total(list) - n && Pkgs(list') == Pkgs(list)
      && list'[0].Written() == b.Written() + b.Rest()[..n]
  {
    var b := list[0];
    assert ([b.(off := b.off + n)] + list[1..])[1..] == list[1..];
  }

  lemma WriteWholeKeeps(x: Sending)
    requires SendingOk(x) && x.list != []
    ensures Continues(x, WriteWhole(x))
  {
    hide Flat, Pkgs, HeadOnly;
    var head := x.list[0];
    HeadOnlyNext(x.list);
    assert head.Written() + head.Rest() == head.pkg.bytes;
    FlatNext(x.done, head.pkg);
    PkgsNext(x.done, x.list);
  }

  // The head has been written, and nothing of the next one.
  lemma HeadOnlyNext(list: seq<Buf>)
    requires HeadOnly(list) && list != []
    ensures list[0].Valid() && HeadOnly(list[1..]) && (|list| > 1 ==> list[1].Valid() && list[1].Written() == [])
  {
    var rest := list[1..];
    if rest != [] {
      assert rest[0] in rest && rest[0].off == 0;
      assert Fresh(rest[1..]) by { forall b | b in rest[1..] ensures b.off == 0 { assert b in rest; } }
    }
  }

  lemma PkgsNext(done: seq<Pkg>, list: seq<Buf>)
    requires list != []
    ensures done + [list[0].pkg] + Pkgs(list[1..]) == done + Pkgs(list)
  {
    assert Pkgs(list) == [list[0].pkg] + Pkgs(list[1..]);
  }

  lemma PkgsJoin(a: seq<Buf>, b: seq<Buf>)
    ensures Pkgs(a + b) == Pkgs(a) + Pkgs(b)
  {
  }

  lemma PkgsOne(b: Buf)
    ensures Pkgs([b]) == [b.pkg] && Pkgs([]) == []
  {
  }

  /** Sending a list takes whole packages off its front, and at most begins the next. */
  lemma {:induction false} SendListKeeps(x: Sending)
    requires SendingOk(x)
    ensures Continues(x, SendList(x))
    decreases |x.answers|
  {
    hide WritePart, Total, Flat, Pkgs;
    if x.list != [] && x.answers != [] {
      var x' := x.(answers := x.answers[1..]);
      match x.answers[0]
      case Interrupted => SendListKeeps(x');
      case Again =>
      case Failed =>
      case Took(n) =>
        if n < |x.list[0].Rest()| {
          WritePartKeeps(x', n);
        } else {
          WriteWholeKeeps(x');
          SendListKeeps(WriteWhole(x'));
        }
    }
  }

  // A connection fails only while something is still to be written.
  lemma {:induction false} ClosedWaits(x: Sending)
    requires SendingOk(x) && x.open
    ensures SendList(x).open || SendList(x).list != []
    decreases |x.answers|
  {
    hide Flat;
    if x.list != [] && x.answers != [] {
      var x' := x.(answers := x.answers[1..]);
      if x.answers[0].Interrupted? {
        ClosedWaits(x');
      } else if x.answers[0].Took? && x.answers[0].n >= |x.list[0].Rest()| {
        WriteWholeKeeps(x');
        ClosedWaits(WriteWhole(x'));
      }
    }
  }

  lemma {:induction false} TotalJoin(a: seq<Buf>, b: seq<Buf>)
    ensures Total(a + b) == Total(a) + Total(b)
  {
    if a == [] {
      assert a + b == b;
    } else {
      assert (a + b)[1..] == a[1..] + b;
      TotalJoin(a[1..], b);
    }
  }

  lemma TotalOne(b: Buf)
    ensures Total([b]) == |b.pkg.bytes| - b.off
  {
    assert [b][1..] == [];
  }

  /** What a step of the socket keeps: it is sound, and nothing is lost or overtakes. */
  lemma TakeDirectKeeps(s: Sock)
    requires SockOk(s)
    ensures SockOk(TakeDirect(s)) && TakeDirect(s).dw.None? && TakeDirect(s).open == s.open && Line(TakeDirect(s)) == Line(s)
  {
    if s.dw.Some? {
      TakenOk(s);
      hide SockOk, Line;
      TakenLine(s);
    }
  }

  lemma TakenOk(s: Sock)
    requires SockOk(s) && s.dw.Some?
    ensures SockOk(TakeDirect(s))
  {
    hide Flat, Total, Pkgs, Fresh;
    var b := s.dw.value;
    TotalJoin([b], s.high);
    TotalOne(b);
    assert ([b] + s.high)[1..] == s.high;
  }

  lemma TakenLine(s: Sock)
    requires s.dw.Some?
    ensures Line(TakeDirect(s)) == Line(s)
  {
    hide Pkgs;
    var b := s.dw.value;
    PkgsJoin([b], s.high);
    PkgsOne(b);
    JoinEnd(s.done, [b.pkg], Pkgs(s.high), []);
  }

  lemma LineOf(s: Sock)
    ensures Line(s.(interest := false)) == Line(s)
    ensures s.dw.None? ==> Line(s) == s.done + Pkgs(s.high) + Pkgs(s.low)
    ensures s.dw.None? && s.high == [] ==> Line(s) == s.done + Pkgs(s.low)
  {
  }

  // The first list.
  lemma FirstList(s0: Sock, y: Sending)
    requires SockOk(s0) && s0.dw.None? && Fresh(s0.low)
    requires Continues(OfList(s0, s0.high, y.answers), y)
    ensures var s1 := WithSent(s0, y).(high := y.list);
            && Line(s1) == Line(s0)
            && if s1.high == [] && s1.low == [] then SockOk(s1.(interest := false)) else SockOk(s1)
  {
    hide Flat, Total, Pkgs;
    var s1 := WithSent(s0, y).(high := y.list);
    LineOf(s0);
    LineOf(s1);
    FreshHead(s0.low);
    assert s0.low != [] ==> s0.low[0].Written() == [];
    assert Flat(y.done) + [] == Flat(y.done);
    assert y.done + Pkgs(y.list) == s0.done + Pkgs(s0.high);
  }

  // The second list, when the first one is empty.
  lemma SecondList(s1: Sock, z: Sending)
    requires SockOk(s1) && s1.dw.None? && s1.high == [] && s1.low != [] && s1.open
    requires Continues(OfList(s1, s1.low, z.answers), z)
    ensures var s2 := WithSent(s1, z).(low := z.list);
            && (z.list != [] && (!z.open || !Uncomplete(z.list)) ==> SockOk(s2))
            && (Uncomplete(z.list) ==> SockOk(s2.(high := [z.list[0]], low := z.list[1..])))
            && (z.list == [] ==> SockOk(s2.(interest := false)))
  {
    hide Flat, Pkgs;
    var s2 := WithSent(s1, z).(low := z.list);
    TotalEmpty();
    if z.list != [] {
      TotalOne(z.list[0]);
      TotalJoin([z.list[0]], z.list[1..]);
      assert z.list == [z.list[0]] + z.list[1..];
      FreshHead(z.list[1..]);
      if !Uncomplete(z.list) {
        assert Fresh(z.list) by { forall b | b in z.list ensures b.off == 0 { assert b == z.list[0] || b in z.list[1..]; } }
      }
    }
  }

  lemma SecondLine(s1: Sock, z: Sending)
    requires s1.dw.None? && s1.high == [] && z.done + Pkgs(z.list) == s1.done + Pkgs(s1.low)
    ensures var s2 := WithSent(s1, z).(low := z.list);
            && Line(s2) == Line(s1)
            && (z.list != [] ==> Line(s2.(high := [z.list[0]], low := z.list[1..])) == Line(s1))
  {
    hide Pkgs;
    var s2 := WithSent(s1, z).(low := z.list);
    LineOf(s1);
    LineOf(s2);
    if z.list != [] {
      LineOf(s2.(high := [z.list[0]], low := z.list[1..]));
      assert z.list == [z.list[0]] + z.list[1..];
      PkgsJoin([z.list[0]], z.list[1..]);
      assert z.done + Pkgs([z.list[0]]) + Pkgs(z.list[1..]) == z.done + (Pkgs([z.list[0]]) + Pkgs(z.list[1..]));
    }
  }

  /** The whole of 'send_buffer', whatever the kernel answers: the socket stays sound, and no package is lost,
      written twice or overtaken. */
  lemma SendBufferKeeps(s: Sock, answers: seq<Answer>)
    requires SockOk(s) && s.open
    ensures var s' := SendBuffer(s, answers);
            SockOk(s') && Line(s') == Line(s) && s'.dw.None?
  {
    hide Flat, Total, Pkgs, SendList, SockOk, Line, Continues, TakeDirect;
    TakeDirectKeeps(s);
    var s0 := TakeDirect(s);
    StartFirst(s0, answers);
    var y := SendList(OfList(s0, s0.high, answers));
    SendListKeeps(OfList(s0, s0.high, answers));
    ClosedWaits(OfList(s0, s0.high, answers));
    ContinuesAny(OfList(s0, s0.high, answers), y);
    FirstList(s0, y);
    var s1 := WithSent(s0, y).(high := y.list);
    LineOf(s1);
    if y.open && y.list == [] && s1.low != [] {
      StartSecond(s1, y.answers);
      var z := SendList(OfList(s1, s1.low, y.answers));
      SendListKeeps(OfList(s1, s1.low, y.answers));
      ClosedWaits(OfList(s1, s1.low, y.answers));
      ContinuesAny(OfList(s1, s1.low, y.answers), z);
      SecondList(s1, z);
      ContinuesLine(s1, z);
      SecondLine(s1, z);
      LineOf(WithSent(s1, z).(low := z.list));
    }
  }

  lemma StartFirst(s0: Sock, answers: seq<Answer>)
    requires SockOk(s0) && s0.dw.None? && s0.open
    ensures SendingOk(OfList(s0, s0.high, answers)) && Fresh(s0.low)
  {
    if s0.low != [] { assert s0.low[0] in s0.low; }
  }

  lemma StartSecond(s1: Sock, answers: seq<Answer>)
    requires SockOk(s1) && s1.dw.None? && s1.high == []
    ensures SendingOk(OfList(s1, s1.low, answers))
  {
  }

  // The answers are not part of what is kept.
  lemma ContinuesAny(x: Sending, y: Sending)
    requires Continues(x, y)
    ensures Continues(x.(answers := y.answers), y)
  {
  }

  lemma ContinuesLine(s1: Sock, z: Sending)
    requires Continues(OfList(s1, s1.low, z.answers), z)
    ensures z.done + Pkgs(z.list) == s1.done + Pkgs(s1.low)
  {
  }

  lemma TotalEmpty()
    ensures Total([]) == 0 && Pkgs([]) == []
  {
  }

  lemma FreshHead(list: seq<Buf>)
    requires Fresh(list)
    ensures HeadOnly(list)
  {
    if list != [] {
      assert list[0] in list;
      forall b | b in list[1..] ensures b.off == 0 { assert b in list; }
    }
  }

  // ----- priority

  /** Where a package is put. To a socket with nothing in its lists anything is sent with high priority; otherwise a
      package of low priority goes behind all others, and one of high priority before all those in the low list. */
  lemma AppendPlace(s: Sock, p: Pkg)
    ensures var s' := Append(s, p);
      if s.high == [] && s.low == [] then
        s'.high == [Buf(p, 0)] && s'.low == [] && Line(s') == Line(s) + [p]
      else if p.low then
        s'.high == s.high && Pkgs(s'.low) == Pkgs(s.low) + [p] && Line(s') == Line(s) + [p]
      else
        && s'.low == s.low && Pkgs(s'.high) == Pkgs(s.high) + [p]
        && Line(s') == s.done + (if s.dw.Some? then [s.dw.value.pkg] else []) + Pkgs(s.high) + [p] + Pkgs(s.low)
  {
    hide Pkgs;
    var b := Buf(p, 0);
    TotalEmpty();
    PkgsJoin(s.high, [b]);
    PkgsJoin(s.low, [b]);
    PkgsOne(b);
    JoinEnd(s.done + if s.dw.Some? then [s.dw.value.pkg] else [], Pkgs(s.high), Pkgs(s.low), [p]);
  }

  lemma JoinEnd<T>(a: seq<T>, b: seq<T>, c: seq<T>, x: seq<T>)
    ensures a + b + (c + x) == a + b + c + x && a + (b + x) + c == a + b + x + c && a + b + [] == a + b
  {
  }

  /** How many packages of low priority there are. */
  function Lows(ps: seq<Pkg>): nat {
    if ps == [] then 0 else (if ps[0].low then 1 else 0) + Lows(ps[1..])
  }

  lemma {:induction false} LowsJoin(a: seq<Pkg>, b: seq<Pkg>)
    ensures Lows(a + b) == Lows(a) + Lows(b)
  {
    if a == [] {
      assert a + b == b;
    } else {
      assert (a + b)[1..] == a[1..] + b;
      LowsJoin(a[1..], b);
    }
  }

  lemma LowsOne(p: Pkg)
    ensures Lows([p]) == (if p.low then 1 else 0) && Lows([]) == 0
  {
    assert [p][1..] == [];
  }

  /** Only a package to empty lists can add a low one to the high list. */
  lemma AppendLows(s: Sock, p: Pkg)
    ensures Lows(Pkgs(Append(s, p).high)) == Lows(Pkgs(s.high)) + if p.low && s.high == [] && s.low == [] then 1 else 0
    ensures p.low && s.high == [] && s.low == [] ==> Lows(Pkgs(s.high)) == 0
  {
    hide Pkgs, Append;
    AppendPlace(s, p);
    TotalEmpty();
    PkgsOne(Buf(p, 0));
    LowsOne(p);
    LowsJoin(Pkgs(s.high), [p]);
  }

  lemma ListLows(x: Sending, y: Sending)
    requires Continues(x, y)
    ensures Lows(Pkgs(y.list)) <= Lows(Pkgs(x.list))
  {
    hide Pkgs;
    var sent := y.done[|x.done|..];
    assert y.done == x.done + sent;
    assert (x.done + sent + Pkgs(y.list))[|x.done|..] == sent + Pkgs(y.list);
    assert (x.done + Pkgs(x.list))[|x.done|..] == Pkgs(x.list);
    LowsJoin(sent, Pkgs(y.list));
  }

  /** Only a package that counts as begun, raised to the empty high list, can add a low one to it. */
  lemma SendLowsFew(s: Sock, answers: seq<Answer>)
    requires SockOk(s) && s.open && (s.dw.Some? ==> !s.dw.value.pkg.low)
    ensures var s' := SendBuffer(s, answers);
      Lows(Pkgs(s'.high)) <= Lows(Pkgs(s.high)) || (|s'.high| == 1 && Uncomplete(s'.high) && s'.high[0].pkg in Pkgs(s.low))
  {
    hide Flat, Total, Pkgs, SendList, SockOk, Line, Continues, TakeDirect;
    TakeDirectKeeps(s);
    TakenLows(s);
    var s0 := TakeDirect(s);
    StartFirst(s0, answers);
    var y := SendList(OfList(s0, s0.high, answers));
    SendListKeeps(OfList(s0, s0.high, answers));
    ContinuesAny(OfList(s0, s0.high, answers), y);
    ListLows(OfList(s0, s0.high, answers), y);
    FirstList(s0, y);
    var s1 := WithSent(s0, y).(high := y.list);
    if y.open && y.list == [] && s1.low != [] {
      StartSecond(s1, y.answers);
      var z := SendList(OfList(s1, s1.low, y.answers));
      SendListKeeps(OfList(s1, s1.low, y.answers));
      HeadStays(OfList(s1, s1.low, y.answers), z);
    }
  }

  lemma TakenLows(s: Sock)
    requires s.dw.Some? ==> !s.dw.value.pkg.low
    ensures Lows(Pkgs(TakeDirect(s).high)) == Lows(Pkgs(s.high)) && TakeDirect(s).low == s.low
  {
    hide Pkgs;
    if s.dw.Some? {
      PkgsJoin([s.dw.value], s.high);
      PkgsOne(s.dw.value);
      LowsOne(s.dw.value.pkg);
      LowsJoin([s.dw.value.pkg], Pkgs(s.high));
    }
  }

  lemma HeadStays(x: Sending, y: Sending)
    requires Continues(x, y)
    ensures y.list != [] ==> y.list[0].pkg in Pkgs(x.list)
  {
    var d := |y.done| - |x.done|;
    if y.list != [] {
      assert Pkgs(y.list)[0] == (y.done + Pkgs(y.list))[|y.done|] == (x.done + Pkgs(x.list))[|y.done|];
      assert Pkgs(x.list)[d] == y.list[0].pkg;
    }
  }

  // ----- the socket in memory

  class Socket {
    var high: seq<Buf>
    var low: seq<Buf>
    var dwBuffer: Option<Buf>
    var wbSize: int
    var writeEvent: bool
    var connected: bool
    // What the kernel has been given.
    ghost var out: seq<byte>
    ghost var done: seq<Pkg>

    ghost function View(): Sock
      reads this
    {
      Sock(high, low, dwBuffer, wbSize, writeEvent, connected, out, done)
    }

    constructor ()
      ensures View() == Sock([], [], None, 0, false, true, [], [])
    {
      high, low, dwBuffer, wbSize := [], [], None, 0;
      writeEvent, connected := false, true;
      out, done := [], [];
    }

    /** 'send_list_tcp': write buffer after buffer until the list is empty or the kernel is not ready. */
    method SendListTcp(list: seq<Buf>, answers: seq<Answer>) returns (rest: seq<Buf>, left: seq<Answer>)
      requires HeadOnly(list)
      modifies `wbSize, `connected, `out, `done
      ensures Sending(rest, wbSize, connected, out, done, left)
           == SendList(Sending(list, old(wbSize), old(connected), old(out), old(done), answers))
    {
      hide SendList;
      ghost var start := Sending(list, wbSize, connected, out, done, answers);
      rest, left := list, answers;
      while rest != []
        invariant HeadOnly(rest)
        invariant SendList(Sending(rest, wbSize, connected, out, done, left)) == SendList(start)
        decreases |left|
      {
        SendListStep(Sending(rest, wbSize, connected, out, done, left));
        if left == [] {
          return;
        }
        var tmp, answer := rest[0], left[0];
        left := left[1..];
        match answer {
          case Interrupted => continue;
          case Again => return;
          case Failed =>
            connected := false;
            return;
          case Took(n) =>
            var sz := if n < |tmp.Rest()| then n else |tmp.Rest()|;
            assert tmp.Rest()[..|tmp.Rest()|] == tmp.Rest();
            out := out + tmp.Rest()[..sz];
            wbSize := wbSize - sz;
            if sz != |tmp.Rest()| {
              rest := [tmp.(off := tmp.off + sz)] + rest[1..];
              return;
            }
            HeadOnlyNext(rest);
            rest := rest[1..];
            done := done + [tmp.pkg];
        }
      }
      SendListStep(Sending(rest, wbSize, connected, out, done, left));
    }

    /** 'raise_uncomplete' */
    method RaiseUncomplete()
      requires low != [] && high == []
      modifies `high, `low
      ensures high == [old(low)[0]] && low == old(low)[1..]
    {
      var tmp := low[0];
      low := low[1..];
      high := [tmp];
    }

    /** 'send_buffer_'. Its first assertion fails exactly for a user object at the head of the low list; the
        others are proved here. */
    method SendLists(answers: seq<Answer>) returns (aborted: bool)
      requires SockOk(View()) && connected && dwBuffer.None?
      modifies this
      ensures aborted <==> old(low) != [] && old(low)[0].pkg.userObject
      ensures View() == if aborted then old(View()) else SendBuffer(old(View()), answers)
    {
      hide SendList, Flat, Total, Pkgs, SendingOk, SockOk, Line;
      ghost var s0 := View();
      StartFirst(s0, answers);
      SockHeads(s0);
      FreshComplete(low);
      aborted := Uncomplete(low);
      if aborted {
        return;
      }
      var left;
      high, left := SendListTcp(high, answers);
      if !connected {
        return;
      }
      if high == [] {
        if low != [] {
          low, left := SendListTcp(low, left);
          if !connected {
            return;
          }
          if Uncomplete(low) {
            RaiseUncomplete();
            return;
          }
          if low != [] {
            return;
          }
        }
        writeEvent := false;
        assert View() == SendBuffer(s0, answers);
        SendBufferKeeps(s0, answers);
        assert wbSize == 0 by { EmptyIsZero(View()); }
      }
    }

    /** 'send_buffer', with the lock taken. */
    method SendBuffer_(answers: seq<Answer>) returns (aborted: bool)
      requires SockOk(View()) && connected
      modifies this
      ensures aborted <==> old(low) != [] && old(low)[0].pkg.userObject
      ensures View() == if aborted then TakeDirect(old(View())) else SendBuffer(old(View()), answers)
      ensures SockOk(View()) && Line(View()) == Line(old(View()))
    {
      hide SockOk, Line, SendList, Total;
      ghost var s0 := View();
      TakeDirectKeeps(s0);
      SendBufferKeeps(s0, answers);
      if dwBuffer.Some? {
        var buf := dwBuffer.value;
        wbSize := wbSize + (|buf.pkg.bytes| - buf.off);
        high := [buf] + high;
        dwBuffer := None;
      }
      aborted := SendLists(answers);
    }

    /** 'send_socket' for a connected TCP socket. */
    method SendSocket(p: Pkg)
      modifies this
      ensures View() == Append(old(View()), p)
    {
      var buf := Buf(p, 0);
      if high == [] && low == [] {
        high := high + [buf];
        wbSize := wbSize + |p.bytes|;
        writeEvent := true;
      } else if p.low {
        low := low + [buf];
        wbSize := wbSize + |p.bytes|;
      } else {
        high := high + [buf];
        wbSize := wbSize + |p.bytes|;
      }
    }

    /** The direct write of 'socket_server_send': n bytes are taken, or none on an error. */
    method WriteDirectly(p: Pkg, n: nat)
      requires n <= |p.bytes|
      modifies this
      ensures View() == DirectWrite(old(View()), p, n)
    {
      out := out + p.bytes[..n];
      if n == |p.bytes| {
        assert p.bytes[..n] == p.bytes;
        done := done + [p];
        return;
      }
      dwBuffer := Some(Buf(p, n));
      writeEvent := true;
    }
  }

  lemma SockHeads(s: Sock)
    requires SockOk(s)
    ensures HeadOnly(s.high) && HeadOnly(s.low) && (s.open ==> Fresh(s.low))
  {
  }

  lemma FreshComplete(list: seq<Buf>)
    requires Fresh(list)
    ensures Uncomplete(list) <==> list != [] && list[0].pkg.userObject
  {
    if list != [] { assert list[0] in list; }
  }

  lemma EmptyIsZero(s: Sock)
    requires SockOk(s) && s.high == [] && s.low == []
    ensures s.wbSize == 0
  {
  }
}
