// Reassembly of packages from the chunks in which sockets deliver them. A package is its length in two bytes,
// high byte first, and then that many bytes.
module Netpack {
  import opened Bytes
  import opened Circular

  datatype Pack = Pack(fd: int, data: seq<byte>)

  // ----- the stream of one socket, parsed as a whole

  /** 'read_size' */
  function Size(s: seq<byte>): nat
    requires |s| >= 2
  {
    s[0] as int * 256 + s[1] as int
  }

  predicate Complete(s: seq<byte>) {
    |s| >= 2 && |s| - 2 >= Size(s)
  }

  function Packs(s: seq<byte>): seq<seq<byte>>
    decreases |s|
  {
    if !Complete(s) then [] else [s[2..2 + Size(s)]] + Packs(s[2 + Size(s)..])
  }

  /** What is left after the last complete package. */
  function Tail(s: seq<byte>): (t: seq<byte>)
    ensures !Complete(t)
    decreases |s|
  {
    if !Complete(s) then s else Tail(s[2 + Size(s)..])
  }

  /** A stream may be cut anywhere: what is left of the first part goes before the second. */
  lemma {:induction false} PacksCut(a: seq<byte>, b: seq<byte>)
    ensures Packs(a + b) == Packs(a) + Packs(Tail(a) + b) && Tail(a + b) == Tail(Tail(a) + b)
    decreases |a|
  {
    hide Packs, Tail;
    if Complete(a) {
      var n := 2 + Size(a);
      PacksCut(a[n..], b);
      CutFirst(a, b);
      assert [a[2..n]] + Packs(a[n..]) + Packs(Tail(a[n..]) + b) == [a[2..n]] + (Packs(a[n..]) + Packs(Tail(a[n..]) + b));
    } else {
      NothingCut(a);
    }
  }

  // The first package of a stream, and of the same stream continued.
  lemma CutFirst(a: seq<byte>, b: seq<byte>)
    requires Complete(a)
    ensures var n := 2 + Size(a);
      && Packs(a) == [a[2..n]] + Packs(a[n..]) && Tail(a) == Tail(a[n..])
      && Packs(a + b) == [a[2..n]] + Packs(a[n..] + b) && Tail(a + b) == Tail(a[n..] + b)
  {
    var n := 2 + Size(a);
    assert Size(a + b) == Size(a);
    assert (a + b)[2..n] == a[2..n] && (a + b)[n..] == a[n..] + b;
  }

  lemma NothingCut(a: seq<byte>)
    requires !Complete(a)
    ensures Packs(a) == [] && Tail(a) == a
  {
  }

  /** 'lpack' */
  function Packed(data: seq<byte>): (p: seq<byte>)
    requires |data| < 0x1_0000
  {
    [|data| / 256, |data| % 256] + data
  }

  /** The header: the high byte of the length comes first. */
  lemma HeaderIs(data: seq<byte>, s: seq<byte>)
    requires |data| == 0x0102 && |s| == 5 && s[0] == 0 && s[1] == 3
    ensures Packed(data)[..2] == [1, 2] && Packed(data)[2..] == data && Packed([]) == [0, 0]
    ensures Packs(s) == [s[2..]]
  {
    assert s[2..5] == s[2..] && s[5..] == [];
    assert Packs(s) == [s[2..2 + Size(s)]] + Packs(s[2 + Size(s)..]);
  }

  function AllPacked(ps: seq<seq<byte>>): seq<byte>
    requires forall p | p in ps :: |p| < 0x1_0000
  {
    if ps == [] then [] else Packed(ps[0]) + AllPacked(ps[1..])
  }

  lemma PackedFirst(p: seq<byte>, t: seq<byte>)
    requires |p| < 0x1_0000
    ensures var s := Packed(p) + t;
      Complete(s) && s[2..2 + Size(s)] == p && s[2 + Size(s)..] == t
  {
    var s := Packed(p) + t;
    assert s[0] as int == |p| / 256 && s[1] as int == |p| % 256;
  }

  /** A stream of packages, and perhaps the beginning of another one, is parsed into these packages. */
  lemma {:induction false} PackedParse(ps: seq<seq<byte>>, t: seq<byte>)
    requires (forall p | p in ps :: |p| < 0x1_0000) && !Complete(t)
    ensures Packs(AllPacked(ps) + t) == ps && Tail(AllPacked(ps) + t) == t
  {
    hide Size, Packed, Complete;
    if ps == [] {
      assert AllPacked(ps) + t == t;
    } else {
      var more := AllPacked(ps[1..]) + t;
      PackedParse(ps[1..], t);
      PackedFirst(ps[0], more);
      assert AllPacked(ps) + t == Packed(ps[0]) + more;
      assert Packs(Packed(ps[0]) + more) == [ps[0]] + Packs(more) == ps;
    }
  }

  // ----- incomplete packages

  /** 'struct uncomplete': with read == -1 only the first byte of the length is known. */
  datatype Uncomplete = Uncomplete(fd: int, size: nat, data: seq<byte>, read: int, header: byte)

  predicate UncompleteOk(u: Uncomplete) {
    if u.read < 0 then u.read == -1 else u.read == |u.data| < u.size < 0x1_0000
  }

  /** The bytes of the stream that an incomplete package stands for. */
  function Stored(u: Uncomplete): (s: seq<byte>)
    requires UncompleteOk(u)
    ensures !Complete(s) && s != []
  {
    if u.read < 0 then [u.header] else [u.size / 256, u.size % 256] + u.data
  }

  const HASHSIZE := 4096
  const QUEUESIZE := 1024

  /** 'hash_fd': shifts round down, and the sum is taken as an unsigned number. */
  function HashFd(fd: int): (h: nat)
    ensures h < HASHSIZE
  {
    (fd / 0x100_0000 + fd / 0x1000 + fd) % HASHSIZE
  }

  // ----- a chain of the hash table

  predicate HasFd(chain: seq<Uncomplete>, fd: int) {
    chain != [] && (chain[0].fd == fd || HasFd(chain[1..], fd))
  }

  /** At most one incomplete package for each socket. */
  predicate ChainOk(chain: seq<Uncomplete>, h: nat) {
    chain != [] ==>
      UncompleteOk(chain[0]) && HashFd(chain[0].fd) == h && !HasFd(chain[1..], chain[0].fd) && ChainOk(chain[1..], h)
  }

  function RestIn(chain: seq<Uncomplete>, h: nat, fd: int): seq<byte>
    requires ChainOk(chain, h)
  {
    if chain == [] then [] else if chain[0].fd == fd then Stored(chain[0]) else RestIn(chain[1..], h, fd)
  }

  lemma {:induction false} RestInHas(chain: seq<Uncomplete>, h: nat, fd: int)
    requires ChainOk(chain, h)
    ensures HasFd(chain, fd) <==> RestIn(chain, h, fd) != []
    ensures HasFd(chain, fd) ==> HashFd(fd) == h
  {
    if chain != [] {
      RestInHas(chain[1..], h, fd);
    }
  }

  /** Taking an element out of a chain. */
  lemma {:induction false} ChainWithout(chain: seq<Uncomplete>, h: nat, k: nat)
    requires ChainOk(chain, h) && k < |chain|
    ensures ChainOk(chain[..k] + chain[k + 1..], h) && UncompleteOk(chain[k]) && HashFd(chain[k].fd) == h
    ensures RestIn(chain, h, chain[k].fd) == Stored(chain[k])
    ensures forall fd :: HasFd(chain[..k] + chain[k + 1..], fd) <==> HasFd(chain, fd) && fd != chain[k].fd
    ensures forall fd | fd != chain[k].fd :: RestIn(chain[..k] + chain[k + 1..], h, fd) == RestIn(chain, h, fd)
  {
    var r := chain[..k] + chain[k + 1..];
    if k == 0 {
      assert r == chain[1..];
    } else {
      ChainWithout(chain[1..], h, k - 1);
      assert r[1..] == chain[1..][..k - 1] + chain[1..][k..] && r[0] == chain[0];
      HasFdAt(chain[1..], k - 1);
    }
  }

  lemma {:induction false} HasFdAt(chain: seq<Uncomplete>, k: nat)
    requires k < |chain|
    ensures HasFd(chain, chain[k].fd)
  {
    if k > 0 { HasFdAt(chain[1..], k - 1); }
  }

  // ----- what one chunk does

  /** What the caller of the filter gets: nothing, one package, or the notice that some wait in the queue. */
  datatype Outcome = Nothing | Data(pack: Pack) | More

  function Tagged(fd: int, ps: seq<seq<byte>>): seq<Pack> {
    if ps == [] then [] else [Pack(fd, ps[0])] + Tagged(fd, ps[1..])
  }

  /** For the stored rest and a chunk together. */
  function OutcomeOf(fd: int, s: seq<byte>): Outcome {
    if !Complete(s) then Nothing else if |s| == 2 + Size(s) then Data(Pack(fd, s[2..])) else More
  }

  /** One package is handed over when it ends the stream, and none is when none is complete. */
  lemma OutcomeExact(fd: int, s: seq<byte>)
    ensures OutcomeOf(fd, s).Nothing? <==> Packs(s) == []
    ensures OutcomeOf(fd, s).Data? <==> |Packs(s)| == 1 && Tail(s) == []
    ensures OutcomeOf(fd, s).Data? ==> OutcomeOf(fd, s).pack == Pack(fd, Packs(s)[0])
  {
    if Complete(s) {
      var more := s[2 + Size(s)..];
      assert |s| == 2 + Size(s) ==> more == [] && s[2..2 + Size(s)] == s[2..];
      NoneOfNothing(more);
    }
  }

  lemma NoneOfNothing(s: seq<byte>)
    ensures s == [] ==> Packs(s) == [] && Tail(s) == []
    ensures s != [] && Packs(s) == [] ==> Tail(s) != []
  {
  }

  function Queued(fd: int, s: seq<byte>): seq<Pack> {
    if OutcomeOf(fd, s) == More then Tagged(fd, Packs(s)) else []
  }

  lemma FirstPack(fd: int, s: seq<byte>)
    requires Complete(s)
    ensures Tail(s) == Tail(s[2 + Size(s)..])
    ensures Tagged(fd, Packs(s)) == [Pack(fd, s[2..2 + Size(s)])] + Tagged(fd, Packs(s[2 + Size(s)..]))
  {
    var first, others := [s[2..2 + Size(s)]], Packs(s[2 + Size(s)..]);
    assert (first + others)[1..] == others;
  }

  lemma NoPack(fd: int, s: seq<byte>)
    requires !Complete(s)
    ensures Packs(s) == [] && Tail(s) == s && Tagged(fd, Packs(s)) == []
  {
  }

  lemma Behind(w: seq<Pack>, p: Pack, more: seq<Pack>)
    ensures w + [p] + more == w + ([p] + more)
  {
  }

  /** The entry in which the beginning of a package is kept. */
  function Begun(fd: int, s: seq<byte>): (uc: Uncomplete)
    requires s != [] && !Complete(s)
    ensures uc.fd == fd && UncompleteOk(uc) && Stored(uc) == s
  {
    if |s| == 1 then Uncomplete(fd, 0, [], -1, s[0]) else Uncomplete(fd, Size(s), s[2..], |s| - 2, 0)
  }

  /** Once the length is known, what is stored and what comes are the length and a part of the package. */
  lemma SizeKnown(uc: Uncomplete, chunk: seq<byte>)
    requires UncompleteOk(uc) && chunk != []
    ensures var s := Stored(uc) + chunk;
      if uc.read < 0 then Size(s) == Size([uc.header, chunk[0]]) && s[2..] == chunk[1..]
      else Size(s) == uc.size > |uc.data| && s[2..] == uc.data + chunk
  {
  }

  lemma BegunIs(fd: int, s: seq<byte>, data: seq<byte>)
    requires |s| >= 2 && s[2..] == data && |data| < Size(s)
    ensures !Complete(s) && Begun(fd, s) == Uncomplete(fd, Size(s), data, |data|, 0)
  {
  }

  /** What is stored and what comes are enough for the package. */
  lemma Filled(s: seq<byte>, data: seq<byte>, buffer: seq<byte>)
    requires |s| >= 2 && s[2..] == data + buffer && |data| <= Size(s) <= |data + buffer|
    ensures var size, need := Size(s), Size(s) - |data|;
      && Complete(s) && s[2..2 + size] == data + buffer[..need] && s[2 + size..] == buffer[need..]
      && (|buffer| == need ==> s[2..] == data + buffer[..need])
  {
    assert s[2 + Size(s)..] == s[2..][Size(s)..];
  }

  function Get(rest: map<int, seq<byte>>, fd: int): seq<byte> {
    if fd in rest then rest[fd] else []
  }

  class Filter {
    var hash: array<seq<Uncomplete>>
    var queue: array<Pack>
    var head: nat
    var tail: nat
    /** The bytes of each socket's stream that wait for the rest of their package. */
    ghost var rest: map<int, seq<byte>>

    ghost predicate ValidHash()
      reads `hash, `rest, hash
    {
      && hash.Length == HASHSIZE && (forall h | 0 <= h < HASHSIZE :: ChainOk(hash[h], h))
      && (forall fd :: Get(rest, fd) == RestIn(hash[HashFd(fd)], HashFd(fd), fd))
    }

    ghost predicate ValidQueue()
      reads `queue, `head, `tail
    {
      queue.Length > 1 && head < queue.Length && tail < queue.Length
    }

    ghost predicate Valid()
      reads this, hash
    {
      ValidHash() && ValidQueue()
    }

    /** The packages that wait to be popped. */
    ghost function Waiting(): seq<Pack>
      requires ValidQueue()
      reads `queue, `head, `tail, queue
    {
      Ring(queue[..], head, tail)
    }

    constructor ()
      ensures Valid() && fresh(hash) && fresh(queue) && Waiting() == [] && rest == map[]
    {
      hash := new seq<Uncomplete>[HASHSIZE](_ => []);
      queue := new Pack[QUEUESIZE](_ => Pack(0, []));
      head, tail, rest := 0, 0, map[];
    }

    /** 'find_uncomplete', which also takes it out of its chain. */
    method FindUncomplete(fd: int) returns (found: bool, uc: Uncomplete)
      requires ValidHash()
      modifies `rest, hash
      ensures ValidHash() && rest == old(rest)[fd := []]
      ensures found == (old(Get(rest, fd)) != [])
      ensures found ==> UncompleteOk(uc) && uc.fd == fd && Stored(uc) == old(Get(rest, fd))
    {
      hide Stored, UncompleteOk, ChainOk, RestIn;
      var h := HashFd(fd);
      var chain := hash[h];
      var k := 0;
      RestInHas(chain, h, fd);
      while k < |chain| && chain[k].fd != fd
        invariant k <= |chain| && (HasFd(chain, fd) <==> HasFd(chain[k..], fd))
      {
        k := k + 1;
      }
      found := k < |chain|;
      uc := Uncomplete(fd, 0, [], 0, 0);
      if found {
        uc := chain[k];
        ChainWithout(chain, h, k);
        RestInHas(chain[..k] + chain[k + 1..], h, fd);
        hash[h] := chain[..k] + chain[k + 1..];
      }
      rest := rest[fd := []];
    }

    /** 'save_uncomplete', with what its callers store in the new entry. */
    method SaveUncomplete(uc: Uncomplete)
      requires ValidHash() && UncompleteOk(uc) && Get(rest, uc.fd) == []
      modifies `rest, hash
      ensures ValidHash() && rest == old(rest)[uc.fd := Stored(uc)]
    {
      var h := HashFd(uc.fd);
      RestInHas(hash[h], h, uc.fd);
      hash[h] := [uc] + hash[h];
      rest := rest[uc.fd := Stored(uc)];
    }

    ghost method NothingLeft(fd: int)
      requires ValidHash() && Get(rest, fd) == []
      modifies `rest
      ensures ValidHash() && rest == old(rest)[fd := []]
    {
      rest := rest[fd := []];
    }

    /** 'expand_queue': called when the buffer is full, that is when head has met tail. */
    method ExpandQueue()
      requires ValidQueue() && head == tail
      modifies `queue, `head, `tail
      ensures ValidQueue() && fresh(queue)
      ensures Waiting() == old(queue[head..] + queue[..head])
    {
      var cap := queue.Length;
      var newQueue := new Pack[cap + QUEUESIZE](_ => Pack(0, []));
      var i := 0;
      while i < cap
        invariant i <= cap && newQueue.Length == cap + QUEUESIZE
        invariant forall j | 0 <= j < i :: newQueue[j] == queue[(head + j) % cap]
        modifies newQueue
      {
        newQueue[i] := queue[(head + i) % cap];
        i := i + 1;
      }
      assert newQueue[..cap] == queue[head..] + queue[..head] by {
        forall j | 0 <= j < cap ensures newQueue[j] == (queue[head..] + queue[..head])[j] {
          if j < cap - head { Wraps(head + j, cap); } else { Wraps(head + j - cap, cap); }
        }
      }
      head, tail, queue := 0, cap, newQueue;
    }

    /** 'push_data' */
    method PushData(p: Pack)
      requires ValidQueue()
      modifies queue, `queue, `head, `tail
      ensures ValidQueue() && Waiting() == old(Waiting()) + [p]
      ensures queue == old(queue) || fresh(queue)
    {
      queue[tail] := p;
      tail := tail + 1;
      if tail >= queue.Length {
        tail := tail - queue.Length;
      }
      if head == tail {
        ExpandQueue();
      }
    }

    /** 'push_more' */
    method PushMore(fd: int, buffer: seq<byte>)
      requires Valid() && buffer != [] && Get(rest, fd) == []
      modifies this, hash, queue
      ensures Valid() && hash == old(hash) && (queue == old(queue) || fresh(queue))
      ensures rest == old(rest)[fd := Tail(buffer)]
      ensures Waiting() == old(Waiting()) + Tagged(fd, Packs(buffer))
      decreases |buffer|
    {
      hide Packs, Tail, Tagged, Ring, ValidHash, UncompleteOk, Stored, Size;
      if |buffer| == 1 {
        NoPack(fd, buffer);
        assert Uncomplete(fd, 0, [], -1, buffer[0]) == Begun(fd, buffer);
        SaveUncomplete(Uncomplete(fd, 0, [], -1, buffer[0]));
        return;
      }
      var packSize := Size(buffer);
      var body := buffer[2..];
      if |body| < packSize {
        var uc := Uncomplete(fd, packSize, body, |body|, 0);
        assert uc == Begun(fd, buffer);
        NoPack(fd, buffer);
        SaveUncomplete(uc);
        return;
      }
      FirstPack(fd, buffer);
      assert body[..packSize] == buffer[2..2 + packSize] && body[packSize..] == buffer[2 + packSize..];
      PushData(Pack(fd, body[..packSize]));
      Behind(old(Waiting()), Pack(fd, body[..packSize]), Tagged(fd, Packs(body[packSize..])));
      if |body| > packSize {
        PushMore(fd, body[packSize..]);
      } else {
        NoPack(fd, buffer[2 + packSize..]);
        assert buffer[2 + packSize..] == [];
        NothingLeft(fd);
      }
    }

    /** 'filter_data_', when something of an earlier chunk is there. */
    method FillUncomplete(uc: Uncomplete, chunk: seq<byte>) returns (out: Outcome)
      requires Valid() && UncompleteOk(uc) && chunk != [] && Get(rest, uc.fd) == []
      modifies this, hash, queue
      ensures Valid() && hash == old(hash) && (queue == old(queue) || fresh(queue))
      ensures rest == old(rest)[uc.fd := Tail(Stored(uc) + chunk)]
      ensures out == OutcomeOf(uc.fd, Stored(uc) + chunk)
      ensures Waiting() == old(Waiting()) + Queued(uc.fd, Stored(uc) + chunk)
    {
      hide Packs, Tail, Tagged, Ring, ValidHash, UncompleteOk, Stored, Size, Begun;
      ghost var s := Stored(uc) + chunk;
      var size, data, buffer := uc.size, uc.data, chunk;
      if uc.read < 0 {
        size := Size([uc.header, buffer[0]]);
        data, buffer := [], buffer[1..];
      }
      SizeKnown(uc, chunk);
      assert Size(s) == size && s[2..] == data + buffer;
      var need := size - |data|;
      if |buffer| < need {
        var more := Uncomplete(uc.fd, size, data + buffer, |data + buffer|, 0);
        BegunIs(uc.fd, s, data + buffer);
        NoPack(uc.fd, s);
        SaveUncomplete(more);
        return Nothing;
      }
      var p := data + buffer[..need];
      Filled(s, data, buffer);
      buffer := buffer[need..];
      FirstPack(uc.fd, s);
      if |buffer| == 0 {
        NoPack(uc.fd, buffer);
        NothingLeft(uc.fd);
        return Data(Pack(uc.fd, p));
      }
      PushData(Pack(uc.fd, p));
      PushMore(uc.fd, buffer);
      Behind(old(Waiting()), Pack(uc.fd, p), Tagged(uc.fd, Packs(buffer)));
      out := More;
    }

    /** 'filter_data_', when nothing of an earlier chunk is there. */
    method StartPackage(fd: int, chunk: seq<byte>) returns (out: Outcome)
      requires Valid() && chunk != [] && Get(rest, fd) == []
      modifies this, hash, queue
      ensures Valid() && hash == old(hash) && (queue == old(queue) || fresh(queue))
      ensures rest == old(rest)[fd := Tail(chunk)]
      ensures out == OutcomeOf(fd, chunk)
      ensures Waiting() == old(Waiting()) + Queued(fd, chunk)
    {
      hide Packs, Tail, Tagged, Ring, ValidHash, UncompleteOk, Stored, Size;
      if |chunk| == 1 {
        NoPack(fd, chunk);
        assert Uncomplete(fd, 0, [], -1, chunk[0]) == Begun(fd, chunk);
        SaveUncomplete(Uncomplete(fd, 0, [], -1, chunk[0]));
        return Nothing;
      }
      var size := Size(chunk);
      var buffer := chunk[2..];
      if |buffer| < size {
        var uc := Uncomplete(fd, size, buffer, |buffer|, 0);
        assert uc == Begun(fd, chunk);
        NoPack(fd, chunk);
        SaveUncomplete(uc);
        return Nothing;
      }
      FirstPack(fd, chunk);
      assert chunk[2..2 + size] == buffer[..size] && chunk[2 + size..] == buffer[size..];
      if |buffer| == size {
        NoPack(fd, chunk[2 + size..]);
        assert chunk[2 + size..] == [];
        NothingLeft(fd);
        return Data(Pack(fd, buffer));
      }
      PushData(Pack(fd, buffer[..size]));
      PushMore(fd, buffer[size..]);
      Behind(old(Waiting()), Pack(fd, buffer[..size]), Tagged(fd, Packs(buffer[size..])));
      out := More;
    }

    /** 'filter_data_': a chunk that is not empty. */
    method FilterData(fd: int, chunk: seq<byte>) returns (out: Outcome)
      requires Valid() && chunk != []
      modifies this, hash, queue
      ensures Valid() && hash == old(hash) && (queue == old(queue) || fresh(queue))
      ensures rest == old(rest)[fd := Tail(old(Get(rest, fd)) + chunk)]
      ensures out == OutcomeOf(fd, old(Get(rest, fd)) + chunk)
      ensures Waiting() == old(Waiting()) + Queued(fd, old(Get(rest, fd)) + chunk)
    {
      hide Packs, Tail, Tagged, Ring, ValidHash, UncompleteOk, Stored, Size, Complete, Queued, OutcomeOf;
      ghost var before := rest;
      var found, uc := FindUncomplete(fd);
      if found {
        out := FillUncomplete(uc, chunk);
      } else {
        assert Get(before, fd) + chunk == chunk;
        out := StartPackage(fd, chunk);
      }
    }

    /** 'close_uncomplete' */
    method CloseUncomplete(fd: int)
      requires Valid()
      modifies this, hash
      ensures Valid() && hash == old(hash) && queue == old(queue) && Waiting() == old(Waiting())
      ensures rest == old(rest)[fd := []]
    {
      var _, _ := FindUncomplete(fd);
    }

    /** 'lpop' */
    method Pop() returns (any: bool, p: Pack)
      requires Valid()
      modifies `head
      ensures Valid() && any == (old(Waiting()) != [])
      ensures any ==> old(Waiting()) == [p] + Waiting()
      ensures !any ==> Waiting() == []
    {
      RingLength(queue[..], head, tail);
      any, p := head != tail, Pack(0, []);
      if any {
        TakeFirst(queue[..], head, tail);
        p := queue[head];
        head := head + 1;
        if head >= queue.Length {
          head := 0;
        }
      }
    }
  }
}
