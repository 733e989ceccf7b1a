// The spinning reader/writer lock: any number of threads, each access one atomic step.
module RwLock {
  import opened Wrappers

  /** 'struct rwlock' */
  datatype Lock = Lock(write: bool, read: int)

  /** The next access of a thread. In 'rwlock_rlock': reading 'write', incrementing 'read', reading 'write' again,
      decrementing 'read'. In 'rwlock_wlock': the test-and-set of 'write', reading 'read'. A thread that has the
      lock gives it back with its next access. */
  datatype Place = Out | Spin | Join | Look | Back | Reading | Claim | Wait | Writing

  function Turn(l: Lock, p: Place): (Lock, Place) {
    match p
    case Out => (l, Out)
    case Spin => (l, if l.write then Spin else Join)
    case Join => (l.(read := l.read + 1), Look)
    case Look => (l, if l.write then Back else Reading)
    case Back => (l.(read := l.read - 1), Spin)
    case Reading => (l.(read := l.read - 1), Out)
    case Claim => (l.(write := true), if l.write then Claim else Wait)
    case Wait => (l, if l.read != 0 then Wait else Writing)
    case Writing => (l.(write := false), Out)
  }

  /** The threads that 'read' counts, and those that may have set 'write'. */
  predicate Counted(p: Place, owner: bool) {
    if owner then p.Wait? || p.Writing? else p.Look? || p.Back? || p.Reading?
  }

  function Count(ps: seq<Place>, owner: bool): nat {
    if ps == [] then 0 else Count(ps[..|ps| - 1], owner) + if Counted(ps[|ps| - 1], owner) then 1 else 0
  }

  /** 'read' is the number of threads between the increment and the decrement, 'write' is set exactly while one
      thread is between test-and-set and release, and nobody reads while somebody writes. */
  ghost predicate Safe(l: Lock, ps: seq<Place>) {
    && l.read == Count(ps, false)
    && Count(ps, true) == (if l.write then 1 else 0)
    && forall i, j :: 0 <= i < |ps| && 0 <= j < |ps| && ps[i].Writing? ==> !ps[j].Reading?
  }

  lemma {:induction false} CountUpdate(ps: seq<Place>, k: nat, p: Place, owner: bool)
    requires k < |ps|
    ensures Count(ps[k := p], owner)
         == Count(ps, owner) - (if Counted(ps[k], owner) then 1 else 0) + (if Counted(p, owner) then 1 else 0)
  {
    var n := |ps| - 1;
    if k == n {
      assert ps[k := p][..n] == ps[..n];
    } else {
      assert ps[k := p][..n] == ps[..n][k := p];
      CountUpdate(ps[..n], k, p, owner);
    }
  }

  lemma CountOut(ps: seq<Place>, owner: bool)
    ensures Count(ps + [Out], owner) == Count(ps, owner)
  {
    assert (ps + [Out])[..|ps|] == ps;
  }

  lemma {:induction false} CountOne(ps: seq<Place>, k: nat, owner: bool)
    requires k < |ps| && Counted(ps[k], owner)
    ensures Count(ps, owner) >= 1
  {
    CountUpdate(ps, k, Out, owner);
  }

  /** Two threads inside: both are counted. */
  lemma CountTwo(ps: seq<Place>, i: nat, j: nat, owner: bool)
    requires i < |ps| && j < |ps| && i != j && Counted(ps[i], owner) && Counted(ps[j], owner)
    ensures Count(ps, owner) >= 2
  {
    CountUpdate(ps, i, Out, owner);
    CountOne(ps[i := Out], j, owner);
  }

  lemma {:induction false} CountSome(ps: seq<Place>, owner: bool) returns (k: nat)
    requires Count(ps, owner) > 0
    ensures k < |ps| && Counted(ps[k], owner)
  {
    k := |ps| - 1;
    if !Counted(ps[k], owner) { k := CountSome(ps[..k], owner); }
  }

  /** An access keeps the lock safe. */
  lemma TurnKeeps(l: Lock, ps: seq<Place>, k: nat)
    requires Safe(l, ps) && k < |ps|
    ensures Safe(Turn(l, ps[k]).0, ps[k := Turn(l, ps[k]).1])
  {
    hide Count;
    var ps' := ps[k := Turn(l, ps[k]).1];
    CountUpdate(ps, k, ps'[k], false);
    CountUpdate(ps, k, ps'[k], true);
    if Counted(ps[k], true) { CountOne(ps, k, true); }
    forall i, j | 0 <= i < |ps| && 0 <= j < |ps| && ps'[i].Writing? ensures !ps'[j].Reading? {
      if i == k && ps'[j].Reading? && j != k {
        CountOne(ps, j, false);
      }
      if j == k && ps'[j].Reading? && i != k {
        CountOne(ps, i, true);
      }
    }
  }

  /** A thread asks for the lock. */
  lemma AskKeeps(l: Lock, ps: seq<Place>, k: nat, p: Place)
    requires Safe(l, ps) && k < |ps| && ps[k].Out? && (p.Spin? || p.Claim?)
    ensures Safe(l, ps[k := p])
  {
    hide Count;
    CountUpdate(ps, k, p, false);
    CountUpdate(ps, k, p, true);
  }

  /** While a thread writes, no other is inside. */
  lemma WriterAlone(l: Lock, ps: seq<Place>, i: nat, j: nat)
    requires Safe(l, ps) && i < |ps| && j < |ps| && i != j && ps[i].Writing?
    ensures !ps[j].Reading? && !ps[j].Writing?
  {
    hide Count;
    if ps[j].Writing? { CountTwo(ps, i, j, true); }
  }

  // ----- runs

  datatype Threads = Threads(lock: Lock, places: seq<Place>)

  /** A thread asks for the lock, or makes its next access. */
  datatype Move = AskRead(k: nat) | AskWrite(k: nat) | Go(k: nat)

  function Step(s: Threads, l: Move): Option<Threads> {
    if l.k >= |s.places| then None else
    match l
    case AskRead(k) => if s.places[k].Out? then Some(s.(places := s.places[k := Spin])) else None
    case AskWrite(k) => if s.places[k].Out? then Some(s.(places := s.places[k := Claim])) else None
    case Go(k) => var (lock, p) := Turn(s.lock, s.places[k]); Some(Threads(lock, s.places[k := p]))
  }

  function After(n: nat, ls: seq<Move>): Option<Threads> {
    if ls == [] then Some(Threads(Lock(false, 0), seq(n, _ => Out))) else
    match After(n, ls[..|ls| - 1])
    case None => None
    case Some(s) => Step(s, ls[|ls| - 1])
  }

  lemma {:induction false} CountNone(ps: seq<Place>, owner: bool)
    requires forall k | 0 <= k < |ps| :: ps[k].Out?
    ensures Count(ps, owner) == 0
  {
    if ps != [] { CountNone(ps[..|ps| - 1], owner); }
  }

  lemma {:induction false} InvariantHolds(n: nat, ls: seq<Move>)
    requires After(n, ls).Some?
    ensures var s := After(n, ls).value; Safe(s.lock, s.places)
  {
    hide Safe, Turn, Count;
    if ls == [] {
      InitialSafe(n);
    } else {
      InvariantHolds(n, ls[..|ls| - 1]);
      var s, l := After(n, ls[..|ls| - 1]).value, ls[|ls| - 1];
      match l
      case AskRead(k) => AskKeeps(s.lock, s.places, k, Spin);
      case AskWrite(k) => AskKeeps(s.lock, s.places, k, Claim);
      case Go(k) => TurnKeeps(s.lock, s.places, k);
    }
  }

  lemma InitialSafe(n: nat)
    ensures Safe(Lock(false, 0), seq(n, _ => Out))
  {
    CountNone(seq(n, _ => Out), false);
    CountNone(seq(n, _ => Out), true);
  }

  /** In every run of any number of threads a writer is alone: with no reader and no other writer. */
  lemma Exclusion(n: nat, ls: seq<Move>, i: nat, j: nat)
    requires After(n, ls).Some?
    requires var ps := After(n, ls).value.places; i < |ps| && j < |ps| && i != j && ps[i].Writing?
    ensures var ps := After(n, ls).value.places; !ps[j].Reading? && !ps[j].Writing?
  {
    InvariantHolds(n, ls);
    WriterAlone(After(n, ls).value.lock, After(n, ls).value.places, i, j);
  }

  // ----- somebody gets the lock

  /** Some thread has the lock. */
  predicate Inside(ps: seq<Place>) {
    exists k :: 0 <= k < |ps| && (ps[k].Reading? || ps[k].Writing?)
  }

  /** Threads that have asked for the lock make accesses, one after the other; no thread asks anew. */
  function GoOn(s: Threads, ks: seq<nat>): Threads
    decreases |ks|
  {
    if ks == [] then s
    else if ks[0] >= |s.places| then s
    else
      var (lock, p) := Turn(s.lock, s.places[ks[0]]);
      GoOn(Threads(lock, s.places[ks[0] := p]), ks[1..])
  }

  lemma GoFirst(s: Threads, k: nat, ks: seq<nat>)
    requires k < |s.places|
    ensures var (lock, p) := Turn(s.lock, s.places[k]);
      GoOn(s, [k] + ks) == GoOn(Threads(lock, s.places[k := p]), ks)
  {
    assert ([k] + ks)[1..] == ks;
  }

  /** With 'write' clear a thread that wants to read gets in. */
  lemma {:induction false} ReaderEnters(s: Threads, k: nat) returns (ks: seq<nat>)
    requires k < |s.places| && !s.lock.write && (s.places[k].Spin? || s.places[k].Join? || s.places[k].Look? || s.places[k].Reading?)
    ensures Inside(GoOn(s, ks).places)
    decreases if s.places[k].Spin? then 3 else if s.places[k].Join? then 2 else if s.places[k].Look? then 1 else 0
  {
    ks := [];
    if !s.places[k].Reading? {
      var (lock, p) := Turn(s.lock, s.places[k]);
      var rest := ReaderEnters(Threads(lock, s.places[k := p]), k);
      GoFirst(s, k, rest);
      ks := [k] + rest;
    }
  }

  /** With 'write' set by a thread that waits, the readers on their way in go back, and it gets in. */
  lemma {:induction false} WriterEnters(s: Threads, w: nat) returns (ks: seq<nat>)
    requires Safe(s.lock, s.places) && w < |s.places| && s.places[w].Wait? && s.lock.write && !Inside(s.places)
    ensures Inside(GoOn(s, ks).places)
    decreases s.lock.read
  {
    hide Count;
    if s.lock.read == 0 {
      ks := [w];
      GoFirst(s, w, []);
      assert s.places[w := Writing][w].Writing?;
      assert [w] + [] == [w];
    } else {
      var k := CountSome(s.places, false);
      var s1 := if s.places[k].Look? then Threads(s.lock, s.places[k := Back]) else s;
      if s.places[k].Look? { TurnKeeps(s.lock, s.places, k); }
      var s2 := Threads(s.lock.(read := s.lock.read - 1), s1.places[k := Spin]);
      TurnKeeps(s1.lock, s1.places, k);
      var rest := WriterEnters(s2, w);
      GoFirst(s1, k, rest);
      ks := [k] + rest;
      if s.places[k].Look? {
        GoFirst(s, k, ks);
        ks := [k] + ks;
      }
    }
  }

  /** The lock does not deadlock: in every run, as long as some thread wants it and none has it, those who have
      asked can go on so that one gets it. */
  lemma NoDeadlock(n: nat, ls: seq<Move>, i: nat) returns (ks: seq<nat>)
    requires After(n, ls).Some?
    requires var ps := After(n, ls).value.places; i < |ps| && !ps[i].Out? && !Inside(ps)
    ensures Inside(GoOn(After(n, ls).value, ks).places)
  {
    hide Count;
    InvariantHolds(n, ls);
    var s := After(n, ls).value;
    if s.lock.write {
      var w := CountSome(s.places, true);
      ks := WriterEnters(s, w);
    } else {
      if Counted(s.places[i], true) { CountOne(s.places, i, true); }
      var (lock, p) := Turn(s.lock, s.places[i]);
      if s.places[i].Back? {
        ks := ReaderEnters(Threads(lock, s.places[i := p]), i);
        GoFirst(s, i, ks);
        ks := [i] + ks;
      } else if s.places[i].Claim? {
        TurnKeeps(s.lock, s.places, i);
        ks := WriterEnters(Threads(lock, s.places[i := p]), i);
        GoFirst(s, i, ks);
        ks := [i] + ks;
      } else {
        ks := ReaderEnters(s, i);
      }
    }
  }

  // ----- what distinguishes readers from writers

  /** Readers do not keep each other out: with 'write' clear a reader gets in by its own three accesses, and all who
      read go on reading. */
  lemma ReadersTogether(s: Threads, k: nat)
    requires k < |s.places| && s.places[k].Spin? && !s.lock.write
    ensures GoOn(s, [k, k, k]) == Threads(Lock(false, s.lock.read + 1), s.places[k := Reading])
  {
    var s1 := s.(places := s.places[k := Join]);
    var s2 := Threads(s.lock.(read := s.lock.read + 1), s.places[k := Look]);
    assert s1.places[k := Look] == s2.places && s2.places[k := Reading] == s.places[k := Reading];
    GoFirst(s, k, [k, k]);
    GoFirst(s1, k, [k]);
    GoFirst(s2, k, []);
    assert [k] + [k, k] == [k, k, k] && [k] + [k] == [k, k] && [k] + [] == [k];
  }

  /** A writer that has set 'write' keeps new readers and other writers out, whoever moves. */
  lemma WriterKeepsOut(s: Threads, l: Move, j: nat)
    requires Safe(s.lock, s.places) && Step(s, l).Some? && s.lock.write && j < |s.places|
    ensures Step(s, l).value.places[j].Reading? ==> s.places[j].Reading?
    ensures Step(s, l).value.places[j].Writing? ==> s.places[j].Writing? || s.places[j].Wait?
  {
  }
}
