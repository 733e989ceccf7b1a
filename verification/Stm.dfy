// One object of shared memory: a writer that replaces its message, and any number of readers in other services.
// Every access to the lock, to a counter or to the object is a step.
module Stm {
  import opened Wrappers
  import opened RwLock

  /** 'struct stm_copy', named by its number; frees counts how often it was freed. */
  datatype Copy = Copy(refs: int, frees: nat)

  /** The next access of a service when it has what it needs of the lock: the writer's (with the lock taken from
      Take to Set, from Dec to Unref and at Grab), a reader's (with the lock at Fetch, Inc and Leave), and those
      of 'stm_releasecopy'. */
  datatype Pc =
    | Rest
    | New | Take | Set                          // 'stm_update'
    | Check | Dec | LastFree | Null | Unref     // 'stm_release'
    | Grab                                      // 'stm_grab'
    | Fetch | Inc | UnlockRead | Compare           // 'lread' with 'stm_copy'
    | Leave                                     // 'stm_releasereader'
    | Unlock | Drop | Free

  /** A box in the Lua state of one service: the writer's or a reader's. 'ret' is the copy that was made or read,
      'last' the 'lastcopy' of a reader, 'drop' what is to be released; 'floor' is the newest copy at the time the
      read began. */
  datatype Box = Box(at: Place, pc: Pc, ret: Option<nat>, last: Option<nat>, drop: Option<nat>, gone: bool, floor: nat)

  /** 'struct stm_object', all copies ever made, and the boxes, the writer's first. 'offers' counts the references
      for readers that are not made yet; 'top' is the newest copy ever published. */
  datatype State = State(lock: Lock, copy: Option<nat>, reference: int, copies: seq<Copy>, boxes: seq<Box>, offers: nat, top: nat)

  datatype Label = Update | Delete | Offer | NewReader | Read(k: nat) | Close(k: nat) | Do(k: nat)

  function Places(bs: seq<Box>): (ps: seq<Place>)
    ensures |ps| == |bs|
  {
    seq(|bs|, k requires 0 <= k < |bs| => bs[k].at)
  }

  predicate Live(s: State, c: Option<nat>) {
    c.Some? && c.value < |s.copies| && s.copies[c.value].frees == 0
  }

  /** An access to the counter of a copy. */
  function Refer(s: State, c: nat, d: int): State
    requires c < |s.copies|
  {
    s.(copies := s.copies[c := s.copies[c].(refs := s.copies[c].refs + d)])
  }

  function Release(s: State, c: nat): State
    requires c < |s.copies|
  {
    s.(copies := s.copies[c := s.copies[c].(frees := s.copies[c].frees + 1)])
  }

  function Put(s: State, k: nat, b: Box): State
    requires k < |s.boxes|
  {
    s.(boxes := s.boxes[k := b])
  }

  /** One access. There is no next state where an assertion fails or where a copy is used that does not exist
      (any more). */
  function Access(s: State, k: nat): Option<State>
    requires k < |s.boxes|
  {
    var b := s.boxes[k];
    match b.pc
    case Rest => None
    case New =>
      Some(Put(s.(copies := s.copies + [Copy(1, 0)]), k, b.(at := Claim, pc := Take, ret := Some(|s.copies|))))
    case Take => Some(Put(s, k, b.(pc := Set, drop := s.copy)))
    case Set =>
      if b.ret.None? then None else
      Some(Put(s.(copy := b.ret, top := b.ret.value), k, b.(pc := Unlock, ret := None)))
    case Check => if s.copy.None? then None else Some(Put(s, k, b.(at := Claim, pc := Dec)))
    case Dec =>
      if !Live(s, s.copy) then None else
      var s' := Refer(s, s.copy.value, -1);
      Some(if s'.copies[s.copy.value].refs == 0 then Put(s', k, b.(pc := LastFree, drop := s.copy)) else Put(s', k, b.(pc := Null)))
    case LastFree => if !Live(s, b.drop) then None else Some(Put(Release(s, b.drop.value), k, b.(pc := Null, drop := None)))
    case Null => Some(Put(s.(copy := None), k, b.(pc := Unref)))
    case Unref =>
      Some(Put(s.(reference := s.reference - 1), k, b.(pc := if s.reference - 1 > 0 then Unlock else Rest, gone := true)))
    case Grab =>
      if s.reference <= 0 then None else
      Some(Put(s.(reference := s.reference + 1, offers := s.offers + 1), k, b.(pc := Unlock)))
    case Fetch => Some(Put(s, k, b.(pc := if s.copy.None? then UnlockRead else Inc, ret := s.copy)))
    case Inc =>
      if !Live(s, b.ret) || s.copies[b.ret.value].refs <= 0 then None
      else Some(Put(Refer(s, b.ret.value, 1), k, b.(pc := UnlockRead)))
    case UnlockRead => var (lock, p) := Turn(s.lock, b.at); Some(Put(s.(lock := lock), k, b.(at := p, pc := Compare)))
    case Compare =>
      Some(Put(s, k, b.(pc := Drop, ret := None, last := b.ret, drop := b.last)))
    case Leave =>
      if s.reference == 1 && s.copy.Some? then None else
      Some(Put(s.(reference := s.reference - 1), k,
               b.(pc := if s.reference == 1 then Drop else Unlock, gone := true, last := None, drop := b.last)))
    case Unlock => var (lock, p) := Turn(s.lock, b.at); Some(Put(s.(lock := lock), k, b.(at := p, pc := Drop)))
    case Drop =>
      if b.drop.None? then Some(Put(s, k, b.(pc := Rest)))
      else if !Live(s, b.drop) then None else
      var s' := Refer(s, b.drop.value, -1);
      Some(if s'.copies[b.drop.value].refs == 0 then Put(s', k, b.(pc := Free)) else Put(s', k, b.(pc := Rest, drop := None)))
    case Free => if !Live(s, b.drop) then None else Some(Put(Release(s, b.drop.value), k, b.(pc := Rest, drop := None)))
  }

  /** The accesses that need the lock. */
  predicate Entering(p: Place) {
    !p.Out? && !p.Reading? && !p.Writing?
  }

  function Begin(s: State, k: nat, b: Box): Option<State>
    requires k < |s.boxes|
  {
    if s.boxes[k].pc.Rest? && !s.boxes[k].gone then Some(Put(s, k, b)) else None
  }

  function Step(s: State, l: Label): Option<State> {
    if s.boxes == [] then None else
    match l
    case Update => Begin(s, 0, s.boxes[0].(pc := New))
    case Delete => Begin(s, 0, s.boxes[0].(pc := Check))
    case Offer => Begin(s, 0, s.boxes[0].(at := Spin, pc := Grab))
    case NewReader =>
      if s.offers == 0 then None
      else Some(s.(offers := s.offers - 1, boxes := s.boxes + [Box(Out, Rest, None, None, None, false, 0)]))
    case Read(k) =>
      if 0 < k < |s.boxes| then Begin(s, k, s.boxes[k].(at := Spin, pc := Fetch, floor := s.top)) else None
    case Close(k) => if 0 < k < |s.boxes| then Begin(s, k, s.boxes[k].(at := Spin, pc := Leave)) else None
    case Do(k) =>
      if k >= |s.boxes| then None
      else if Entering(s.boxes[k].at) then
        var (lock, p) := Turn(s.lock, s.boxes[k].at);
        Some(Put(s.(lock := lock), k, s.boxes[k].(at := p)))
      else Access(s, k)
  }

  /** 'stm_new' */
  const INITIAL := State(Lock(false, 0), Some(0), 1, [Copy(1, 0)], [Box(Out, Rest, None, None, None, false, 0)], 0, 0)

  function After(ls: seq<Label>): Option<State> {
    if ls == [] then Some(INITIAL) else
    match After(ls[..|ls| - 1])
    case None => None
    case Some(s) => Step(s, ls[|ls| - 1])
  }

  // ----- the invariant

  predicate WriterPc(pc: Pc) {
    pc.New? || pc.Take? || pc.Set? || pc.Check? || pc.Dec? || pc.LastFree? || pc.Null? || pc.Unref? || pc.Grab?
  }

  predicate ReaderPc(pc: Pc) {
    pc.Fetch? || pc.Inc? || pc.UnlockRead? || pc.Compare? || pc.Leave?
  }

  /** Where a box is with the lock. One that gave up the last reference never gives the lock back. */
  predicate PlaceOk(b: Box) {
    match b.pc
    case Take | Dec => b.at.Claim? || b.at.Wait? || b.at.Writing?
    case Set | LastFree | Null | Unref => b.at.Writing?
    case Grab | Fetch | Leave => b.at.Spin? || b.at.Join? || b.at.Look? || b.at.Back? || b.at.Reading?
    case Inc | UnlockRead => b.at.Reading?
    case Unlock => b.at.Reading? || b.at.Writing?
    case New | Check | Compare => b.at.Out?
    case Rest | Drop | Free => b.at.Out? || (b.gone && !Entering(b.at))
  }

  predicate UsesRet(pc: Pc) {
    pc.Take? || pc.Set? || pc.Inc? || pc.UnlockRead? || pc.Compare?
  }

  predicate UsesDrop(pc: Pc) {
    pc.Set? || pc.LastFree? || pc.Unlock? || pc.Drop? || pc.Free?
  }

  predicate UpTo(c: Option<nat>, n: nat) {
    c.Some? ==> c.value <= n
  }

  predicate BoxOk(s: State, k: nat)
    requires k < |s.boxes|
  {
    var b := s.boxes[k];
    && PlaceOk(b)
    && (b.ret.Some? ==> UsesRet(b.pc)) && (b.drop.Some? ==> UsesDrop(b.pc))
    && (b.pc.Take? || b.pc.Set? || b.pc.Inc? ==> b.ret.Some?)
    && (b.pc.Free? || b.pc.LastFree? ==> b.drop.Some?)
    && (b.pc.Set? || b.pc.LastFree? ==> b.drop == s.copy)
    && (b.pc.Inc? ==> b.ret == s.copy)
    && (b.gone ==> (b.pc.Rest? || b.pc.Unlock? || b.pc.Drop? || b.pc.Free?) && b.last.None?)
    && (b.drop.Some? ==> b.drop.value < |s.copies|)
    && if k == 0 then
         && !ReaderPc(b.pc) && b.last.None?
         && (s.copy.None? <==> b.gone || b.pc.Unref?)
         && (b.ret.Some? ==> s.top < b.ret.value < |s.copies|)
       else
         && !WriterPc(b.pc)
         && UpTo(b.last, s.top) && UpTo(b.ret, s.top) && b.floor <= s.top
         && (b.ret.Some? ==> UpTo(b.last, b.ret.value) && b.floor <= b.ret.value)
         && (b.ret.None? && (b.pc.UnlockRead? || b.pc.Compare?) ==> s.copy.None?)
  }

  /** The references to copy c that a box has, and the frees of c that it is about to do. */
  function Part(b: Box, c: nat, freeing: bool): nat {
    if freeing then (if b.drop == Some(c) && (b.pc.Free? || b.pc.LastFree?) then 1 else 0)
    else (if b.ret == Some(c) && !b.pc.Inc? then 1 else 0) + (if b.last == Some(c) then 1 else 0)
         + (if b.drop == Some(c) && (b.pc.Unlock? || b.pc.Drop?) then 1 else 0)
  }

  function Parts(bs: seq<Box>, c: nat, freeing: bool): nat {
    if bs == [] then 0 else Parts(bs[..|bs| - 1], c, freeing) + Part(bs[|bs| - 1], c, freeing)
  }

  /** The reference of the object itself. */
  function Own(s: State, c: nat): nat {
    if s.boxes != [] && s.copy == Some(c) && !s.boxes[0].pc.LastFree? && !s.boxes[0].pc.Null? then 1 else 0
  }

  /** The counter of a copy is the number of references to it; a copy without any was freed once, or is about to
      be, and any other was not. */
  predicate CopyOk(s: State, c: nat)
    requires c < |s.copies|
  {
    && s.copies[c].refs == Own(s, c) + Parts(s.boxes, c, false)
    && s.copies[c].frees + Parts(s.boxes, c, true) == if s.copies[c].refs == 0 then 1 else 0
  }

  function Alive(bs: seq<Box>): nat {
    if bs == [] then 0 else Alive(bs[..|bs| - 1]) + if bs[|bs| - 1].gone then 0 else 1
  }

  ghost predicate Inv(s: State) {
    && s.boxes != []
    && Safe(s.lock, Places(s.boxes))
    && (forall k: nat | k < |s.boxes| :: BoxOk(s, k))
    && (forall c: nat | c < |s.copies| :: CopyOk(s, c))
    && s.reference == s.offers + Alive(s.boxes)
    && s.top < |s.copies| && (s.copy.Some? ==> s.copy.value == s.top)
  }

  // ----- sums over the boxes

  lemma {:induction false} PartsUpdate(bs: seq<Box>, k: nat, b: Box, c: nat, freeing: bool)
    requires k < |bs|
    ensures Parts(bs[k := b], c, freeing) == Parts(bs, c, freeing) - Part(bs[k], c, freeing) + Part(b, c, freeing)
  {
    hide Part;
    var n := |bs| - 1;
    if k == n {
      assert bs[k := b][..n] == bs[..n];
    } else {
      assert bs[k := b][..n] == bs[..n][k := b];
      PartsUpdate(bs[..n], k, b, c, freeing);
    }
  }

  lemma PartsAtLeast(bs: seq<Box>, k: nat, c: nat, freeing: bool)
    requires k < |bs|
    ensures Parts(bs, c, freeing) >= Part(bs[k], c, freeing)
  {
    PartsUpdate(bs, k, Box(Out, Rest, None, None, None, true, 0), c, freeing);
  }

  lemma {:induction false} AliveUpdate(bs: seq<Box>, k: nat, b: Box)
    requires k < |bs|
    ensures Alive(bs[k := b]) == Alive(bs) - (if bs[k].gone then 0 else 1) + (if b.gone then 0 else 1)
  {
    var n := |bs| - 1;
    if k == n {
      assert bs[k := b][..n] == bs[..n];
    } else {
      assert bs[k := b][..n] == bs[..n][k := b];
      AliveUpdate(bs[..n], k, b);
    }
  }

  lemma AliveOne(bs: seq<Box>, k: nat)
    requires k < |bs| && !bs[k].gone
    ensures Alive(bs) >= 1
  {
    AliveUpdate(bs, k, bs[k].(gone := true));
  }

  lemma AliveTwo(bs: seq<Box>, j: nat, k: nat)
    requires j < |bs| && k < |bs| && j != k && !bs[j].gone && !bs[k].gone
    ensures Alive(bs) >= 2
  {
    AliveUpdate(bs, k, bs[k].(gone := true));
    AliveOne(bs[k := bs[k].(gone := true)], j);
  }

  lemma PlacesUpdate(bs: seq<Box>, k: nat, b: Box)
    requires k < |bs|
    ensures Places(bs[k := b]) == Places(bs)[k := b.at]
  {
  }

  /** While the writer has the lock, no reader is between its first and its last access under the lock. */
  lemma WriterInside(s: State, j: nat)
    requires Inv(s) && s.boxes[0].at.Writing? && 0 < j < |s.boxes|
    ensures !s.boxes[j].at.Reading? && !s.boxes[j].pc.Inc?
  {
    hide Safe, CopyOk, Alive;
    WriterAlone(s.lock, Places(s.boxes), 0, j);
    assert BoxOk(s, j);
  }

  // ----- the steps keep it

  /** What a step of box k, which may take another place, keeps of the lock: the same place, or a turn. */
  lemma LockKept(s: State, lock: Lock, k: nat, b: Box)
    requires k < |s.boxes| && Safe(s.lock, Places(s.boxes))
    requires var at := s.boxes[k].at;
             || (lock == s.lock && b.at == at)
             || (lock == s.lock && at.Out? && (b.at.Spin? || b.at.Claim?))
             || (lock, b.at) == Turn(s.lock, at)
    ensures Safe(lock, Places(s.boxes[k := b]))
  {
    hide Safe, Turn;
    var ps := Places(s.boxes);
    PlacesUpdate(s.boxes, k, b);
    if lock == s.lock && b.at == ps[k] {
      assert ps[k := b.at] == ps;
    } else if (lock, b.at) == Turn(s.lock, ps[k]) {
      TurnKeeps(s.lock, ps, k);
    } else {
      AskKeeps(s.lock, ps, k, b.at);
    }
  }

  ghost predicate LockStep(s: State, s': State, k: nat)
    requires k < |s.boxes| && k < |s'.boxes|
  {
    var at, at' := s.boxes[k].at, s'.boxes[k].at;
    || (s'.lock == s.lock && at' == at)
    || (s'.lock == s.lock && at.Out? && (at'.Spin? || at'.Claim?))
    || (s'.lock, at') == Turn(s.lock, at)
  }

  predicate OnlyBox(s: State, s': State, k: nat) {
    k < |s.boxes| && |s'.boxes| == |s.boxes| && s'.boxes == s.boxes[k := s'.boxes[k]]
  }

  lemma OthersSame(s: State, s': State, k: nat)
    requires Inv(s) && OnlyBox(s, s', k)
    requires s'.copy == s.copy && s'.top == s.top && |s'.copies| >= |s.copies|
    ensures forall j: nat | j < |s.boxes| && j != k :: BoxOk(s', j)
  {
    hide Safe, CopyOk, Alive, PlaceOk, UsesRet, UsesDrop;
    forall j: nat | j < |s.boxes| && j != k ensures BoxOk(s', j) { assert BoxOk(s, j); }
  }

  /** What the step of box k does to the counter of copy c is what it does to the references. */
  predicate Balanced(s: State, s': State, k: nat, c: nat)
    requires k < |s.boxes| && k < |s'.boxes| && c < |s.copies| && c < |s'.copies|
  {
    var b, b' := s.boxes[k], s'.boxes[k];
    && s'.copies[c].refs - s.copies[c].refs == Own(s', c) - Own(s, c) + Part(b', c, false) - Part(b, c, false)
    && s'.copies[c].frees - s.copies[c].frees + Part(b', c, true) - Part(b, c, true)
       == (if s'.copies[c].refs == 0 then 1 else 0) - (if s.copies[c].refs == 0 then 1 else 0)
  }

  lemma CopyKept(s: State, s': State, k: nat, c: nat)
    requires OnlyBox(s, s', k) && c < |s.copies| && c < |s'.copies| && CopyOk(s, c) && Balanced(s, s', k, c)
    ensures CopyOk(s', c)
  {
    hide Part, Own;
    PartsUpdate(s.boxes, k, s'.boxes[k], c, false);
    PartsUpdate(s.boxes, k, s'.boxes[k], c, true);
  }

  /** A step that leaves the object's copy, and makes no new one. */
  lemma StepKeeps(s: State, s': State, k: nat)
    requires Inv(s) && OnlyBox(s, s', k) && LockStep(s, s', k)
    requires s'.copy == s.copy && s'.top == s.top && |s'.copies| == |s.copies|
    requires BoxOk(s', k)
    requires forall c: nat | c < |s.copies| :: Balanced(s, s', k, c)
    requires s'.reference - s'.offers - s.reference + s.offers
          == (if s.boxes[k].gone then 1 else 0) - (if s'.boxes[k].gone then 1 else 0)
    ensures Inv(s')
  {
    hide Safe, BoxOk, CopyOk, Balanced, Alive;
    OthersSame(s, s', k);
    AliveUpdate(s.boxes, k, s'.boxes[k]);
    LockKept(s, s'.lock, k, s'.boxes[k]);
    forall c: nat | c < |s'.copies| ensures CopyOk(s', c) { CopyKept(s, s', k, c); }
  }

  // Steps that change no counter of a copy.

  lemma EnterKeeps(s: State, k: nat)
    requires Inv(s) && k < |s.boxes| && Entering(s.boxes[k].at)
    ensures Inv(Step(s, Do(k)).value)
  {
    hide Safe, CopyOk, Alive;
    assert BoxOk(s, k);
    StepKeeps(s, Step(s, Do(k)).value, k);
  }

  lemma BeginKeeps(s: State, l: Label)
    requires Inv(s) && Step(s, l).Some? && !l.Do? && !l.NewReader?
    ensures Inv(Step(s, l).value)
  {
    if l.Read? || l.Close? { ReaderBegins(s, l); } else { WriterBegins(s, l); }
  }

  lemma ReaderBegins(s: State, l: Label)
    requires Inv(s) && Step(s, l).Some? && (l.Read? || l.Close?)
    ensures Inv(Step(s, l).value)
  {
    hide Safe, CopyOk, Alive;
    assert BoxOk(s, l.k);
    StepKeeps(s, Step(s, l).value, l.k);
  }

  lemma WriterBegins(s: State, l: Label)
    requires Inv(s) && Step(s, l).Some? && (l.Update? || l.Delete? || l.Offer?)
    ensures Inv(Step(s, l).value)
  {
    hide Safe, CopyOk, Alive;
    assert BoxOk(s, 0);
    StepKeeps(s, Step(s, l).value, 0);
  }

  lemma QuietKeeps(s: State, k: nat)
    requires Inv(s) && k < |s.boxes| && !Entering(s.boxes[k].at)
    requires var pc := s.boxes[k].pc; pc.Take? || pc.Check? || pc.Fetch?
    ensures Access(s, k).Some? && Inv(Access(s, k).value)
  {
    hide Safe, CopyOk, Alive;
    assert BoxOk(s, k);
    StepKeeps(s, Access(s, k).value, k);
  }

  lemma UnlockKeeps(s: State, k: nat)
    requires Inv(s) && k < |s.boxes| && !Entering(s.boxes[k].at)
    requires var pc := s.boxes[k].pc; pc.UnlockRead? || pc.Compare? || pc.Unlock?
    ensures Access(s, k).Some? && Inv(Access(s, k).value)
  {
    hide Safe, CopyOk, Alive;
    assert BoxOk(s, k);
    StepKeeps(s, Access(s, k).value, k);
  }

  lemma GrabKeeps(s: State, k: nat)
    requires Inv(s) && k < |s.boxes| && !Entering(s.boxes[k].at) && s.boxes[k].pc.Grab?
    ensures Access(s, k).Some? && Inv(Access(s, k).value)
  {
    hide Safe, CopyOk, Alive;
    assert BoxOk(s, k);
    AliveOne(s.boxes, k);
    StepKeeps(s, Access(s, k).value, k);
  }

  /** The writer gives up its reference to the object. */
  lemma UnrefKeeps(s: State, k: nat)
    requires Inv(s) && k < |s.boxes| && !Entering(s.boxes[k].at) && s.boxes[k].pc.Unref?
    ensures Access(s, k).Some? && Inv(Access(s, k).value)
  {
    hide Safe, CopyOk, Alive;
    assert BoxOk(s, k);
    StepKeeps(s, Access(s, k).value, k);
  }

  /** A reader gives up its own; with the last one, the object has no copy. */
  lemma LeaveKeeps(s: State, k: nat)
    requires Inv(s) && k < |s.boxes| && !Entering(s.boxes[k].at) && s.boxes[k].pc.Leave?
    ensures Access(s, k).Some? && Inv(Access(s, k).value)
  {
    hide Safe, CopyOk, Alive;
    assert BoxOk(s, k) && BoxOk(s, 0);
    if s.reference == 1 && !s.boxes[0].gone { AliveTwo(s.boxes, 0, k); }
    if s.boxes[0].pc.Unref? { WriterInside(s, k); }
    StepKeeps(s, Access(s, k).value, k);
  }

  // Steps that change a counter.

  lemma IncKeeps(s: State, k: nat)
    requires Inv(s) && k < |s.boxes| && !Entering(s.boxes[k].at) && s.boxes[k].pc.Inc?
    ensures Access(s, k).Some? && Inv(Access(s, k).value)
  {
    hide Safe, Alive;
    assert BoxOk(s, k) && BoxOk(s, 0);
    if s.boxes[0].at.Writing? { WriterInside(s, k); }
    assert CopyOk(s, s.copy.value);
    hide CopyOk;
    StepKeeps(s, Access(s, k).value, k);
  }

  lemma DecKeeps(s: State, k: nat)
    requires Inv(s) && k < |s.boxes| && !Entering(s.boxes[k].at) && s.boxes[k].pc.Dec?
    ensures Access(s, k).Some? && Inv(Access(s, k).value)
  {
    hide Safe, Alive;
    assert BoxOk(s, k);
    assert CopyOk(s, s.copy.value);
    hide CopyOk;
    StepKeeps(s, Access(s, k).value, k);
  }

  lemma NoDropKeeps(s: State, k: nat)
    requires Inv(s) && k < |s.boxes| && !Entering(s.boxes[k].at) && s.boxes[k].pc.Drop? && s.boxes[k].drop.None?
    ensures Access(s, k).Some? && Inv(Access(s, k).value)
  {
    hide Safe, CopyOk, Alive;
    assert BoxOk(s, k);
    StepKeeps(s, Access(s, k).value, k);
  }

  lemma DropKeeps(s: State, k: nat)
    requires Inv(s) && k < |s.boxes| && !Entering(s.boxes[k].at) && s.boxes[k].pc.Drop? && s.boxes[k].drop.Some?
    ensures Access(s, k).Some? && Inv(Access(s, k).value)
  {
    var c := s.boxes[k].drop.value;
    assert BoxOk(s, k);
    assert CopyOk(s, c);
    PartsAtLeast(s.boxes, k, c, false);
    if s.copies[c].refs == 1 { DropLast(s, k); } else { DropShared(s, k); }
  }

  lemma DropLast(s: State, k: nat)
    requires Inv(s) && k < |s.boxes| && !Entering(s.boxes[k].at) && s.boxes[k].pc.Drop? && s.boxes[k].drop.Some?
    requires var c := s.boxes[k].drop.value; c < |s.copies| && s.copies[c].refs == 1 && s.copies[c].frees == 0
    ensures Access(s, k).Some? && Inv(Access(s, k).value)
  {
    hide Safe, Alive, CopyOk;
    assert BoxOk(s, k);
    StepKeeps(s, Access(s, k).value, k);
  }

  lemma DropShared(s: State, k: nat)
    requires Inv(s) && k < |s.boxes| && !Entering(s.boxes[k].at) && s.boxes[k].pc.Drop? && s.boxes[k].drop.Some?
    requires var c := s.boxes[k].drop.value; c < |s.copies| && s.copies[c].refs > 1 && s.copies[c].frees == 0
    ensures Access(s, k).Some? && Inv(Access(s, k).value)
  {
    hide Safe, Alive, CopyOk;
    assert BoxOk(s, k);
    StepKeeps(s, Access(s, k).value, k);
  }

  lemma FreeKeeps(s: State, k: nat)
    requires Inv(s) && k < |s.boxes| && !Entering(s.boxes[k].at) && (s.boxes[k].pc.Free? || s.boxes[k].pc.LastFree?)
    ensures Access(s, k).Some? && Inv(Access(s, k).value)
  {
    hide Safe, Alive;
    assert BoxOk(s, k);
    assert CopyOk(s, s.boxes[k].drop.value);
    PartsAtLeast(s.boxes, k, s.boxes[k].drop.value, true);
    hide CopyOk;
    StepKeeps(s, Access(s, k).value, k);
  }

  // Steps that change which copies there are.

  lemma {:induction false} PartsNone(bs: seq<Box>, c: nat, freeing: bool)
    requires forall k | 0 <= k < |bs| :: Part(bs[k], c, freeing) == 0
    ensures Parts(bs, c, freeing) == 0
  {
    if bs != [] { PartsNone(bs[..|bs| - 1], c, freeing); }
  }

  lemma NewKeeps(s: State, k: nat)
    requires Inv(s) && k < |s.boxes| && s.boxes[k].pc.New?
    ensures Access(s, k).Some? && Inv(Access(s, k).value)
  {
    hide Safe, Alive;
    assert BoxOk(s, k);
    var s', c := Access(s, k).value, |s.copies|;
    OthersSame(s, s', k);
    AliveUpdate(s.boxes, k, s'.boxes[k]);
    LockKept(s, s'.lock, k, s'.boxes[k]);
    forall j | 0 <= j < |s.boxes| ensures Part(s.boxes[j], c, false) == 0 && Part(s.boxes[j], c, true) == 0 {
      assert BoxOk(s, j);
    }
    PartsNone(s.boxes, c, false);
    PartsNone(s.boxes, c, true);
    PartsUpdate(s.boxes, k, s'.boxes[k], c, false);
    PartsUpdate(s.boxes, k, s'.boxes[k], c, true);
    assert CopyOk(s', c);
    hide CopyOk;
    forall c: nat | c < |s.copies| ensures CopyOk(s', c) { assert CopyOk(s, c); CopyKept(s, s', k, c); }
  }

  /** The writer publishes a copy, or takes the last one back: no reader is inside. */
  lemma ReplaceKeeps(s: State, k: nat)
    requires Inv(s) && k < |s.boxes| && !Entering(s.boxes[k].at) && (s.boxes[k].pc.Set? || s.boxes[k].pc.Null?)
    ensures Access(s, k).Some? && Inv(Access(s, k).value)
  {
    hide Safe, Alive;
    assert BoxOk(s, k);
    var s' := Access(s, k).value;
    forall j: nat | j < |s.boxes| && j != k ensures BoxOk(s', j) {
      assert BoxOk(s, j);
      WriterInside(s, j);
    }
    AliveUpdate(s.boxes, k, s'.boxes[k]);
    LockKept(s, s'.lock, k, s'.boxes[k]);
    hide CopyOk;
    forall c: nat | c < |s'.copies| ensures CopyOk(s', c) { assert CopyOk(s, c); CopyKept(s, s', k, c); }
  }

  lemma NewReaderKeeps(s: State)
    requires Inv(s) && Step(s, NewReader).Some?
    ensures Inv(Step(s, NewReader).value)
  {
    hide Count;
    var s' := Step(s, NewReader).value;
    var n := |s.boxes|;
    assert s'.boxes[..n] == s.boxes;
    assert Places(s'.boxes) == Places(s.boxes) + [Out];
    CountOut(Places(s.boxes), false);
    CountOut(Places(s.boxes), true);
    forall j: nat | j < |s'.boxes| ensures BoxOk(s', j) { if j < n { assert BoxOk(s, j); } }
    forall c: nat | c < |s'.copies| ensures CopyOk(s', c) { assert CopyOk(s, c); }
  }

  /** Every access of every box is possible: no assertion fails, and no copy is used that was freed. */
  lemma AccessKeeps(s: State, k: nat)
    requires Inv(s) && k < |s.boxes| && !Entering(s.boxes[k].at) && !s.boxes[k].pc.Rest?
    ensures Access(s, k).Some? && Inv(Access(s, k).value)
  {
    hide Inv, Access;
    match s.boxes[k].pc
    case New => NewKeeps(s, k);
    case Set | Null => ReplaceKeeps(s, k);
    case Dec => DecKeeps(s, k);
    case LastFree | Free => FreeKeeps(s, k);
    case Unref => UnrefKeeps(s, k);
    case Grab => GrabKeeps(s, k);
    case Inc => IncKeeps(s, k);
    case Leave => LeaveKeeps(s, k);
    case Drop => if s.boxes[k].drop.Some? { DropKeeps(s, k); } else { NoDropKeeps(s, k); }
    case UnlockRead | Compare | Unlock => UnlockKeeps(s, k);
    case _ => QuietKeeps(s, k);
  }

  lemma InvKeeps(s: State, l: Label)
    requires Inv(s) && Step(s, l).Some?
    ensures Inv(Step(s, l).value)
  {
    hide Inv, Access;
    match l
    case NewReader => NewReaderKeeps(s);
    case Do(k) => if Entering(s.boxes[k].at) { EnterKeeps(s, k); } else { RestStays(s, k); AccessKeeps(s, k); }
    case _ => BeginKeeps(s, l);
  }

  lemma RestStays(s: State, k: nat)
    requires k < |s.boxes|
    ensures s.boxes[k].pc.Rest? ==> Access(s, k).None?
  {
  }

  /** The invariant holds in every state of every run. */
  lemma {:induction false} InvariantHolds(ls: seq<Label>)
    requires After(ls).Some?
    ensures Inv(After(ls).value)
  {
    hide Inv, Step;
    if ls == [] {
      InitialOk();
    } else {
      InvariantHolds(ls[..|ls| - 1]);
      InvKeeps(After(ls[..|ls| - 1]).value, ls[|ls| - 1]);
    }
  }

  lemma InitialOk()
    ensures Inv(INITIAL)
  {
    var bs := INITIAL.boxes;
    assert bs[..0] == [];
    assert Places(bs)[..0] == [];
    assert CopyOk(INITIAL, 0) by {
      assert Parts(bs, 0, false) == Parts([], 0, false) + Part(bs[0], 0, false);
      assert Parts(bs, 0, true) == Parts([], 0, true) + Part(bs[0], 0, true);
    }
  }

  // ----- the guarantees

  /** Whatever has begun can go on: no assertion fails in any run, and no copy is used that was freed. */
  lemma NeverFails(ls: seq<Label>, k: nat)
    requires After(ls).Some? && k < |After(ls).value.boxes| && !After(ls).value.boxes[k].pc.Rest?
    ensures Step(After(ls).value, Do(k)).Some?
  {
    hide Inv, Access;
    InvariantHolds(ls);
    if !Entering(After(ls).value.boxes[k].at) { AccessKeeps(After(ls).value, k); }
  }

  // A copy with a reference.
  lemma ReferredIsLive(s: State, c: nat)
    requires c < |s.copies| && CopyOk(s, c) && Own(s, c) + Parts(s.boxes, c, false) > 0
    ensures Live(s, Some(c))
  {
  }

  lemma PartKnown(s: State, k: nat, c: nat)
    requires s.top < |s.copies| && k < |s.boxes| && BoxOk(s, k) && Part(s.boxes[k], c, false) > 0
    ensures c < |s.copies|
  {
  }

  /** A copy that the object or a box refers to has not been freed. */
  lemma HeldIsLive(ls: seq<Label>, c: nat)
    requires After(ls).Some?
    requires var s := After(ls).value;
             || Own(s, c) > 0
             || exists k | 0 <= k < |s.boxes| :: Part(s.boxes[k], c, false) > 0
    ensures Live(After(ls).value, Some(c))
  {
    InvariantHolds(ls);
    var s := After(ls).value;
    hide Safe, Alive, BoxOk, CopyOk, Parts, Part, Live;
    if Own(s, c) == 0 {
      var k: nat :| k < |s.boxes| && Part(s.boxes[k], c, false) > 0;
      PartsAtLeast(s.boxes, k, c, false);
      PartKnown(s, k, c);
    }
    ReferredIsLive(s, c);
  }

  /** The message that a reader was given stays until the reader gives it up. */
  lemma LastIsLive(ls: seq<Label>, k: nat)
    requires After(ls).Some? && k < |After(ls).value.boxes| && After(ls).value.boxes[k].last.Some?
    ensures Live(After(ls).value, After(ls).value.boxes[k].last)
  {
    HeldIsLive(ls, After(ls).value.boxes[k].last.value);
  }

  /** No copy is freed twice; it has been freed exactly when nobody refers to it and nobody is about to free it. */
  lemma FreedOnce(ls: seq<Label>, c: nat)
    requires After(ls).Some? && c < |After(ls).value.copies|
    ensures var s := After(ls).value;
            && s.copies[c].frees <= 1
            && (s.copies[c].frees == 1
                <==> Own(s, c) == 0 && (forall k | 0 <= k < |s.boxes| :: Part(s.boxes[k], c, false) == Part(s.boxes[k], c, true) == 0))
  {
    hide Safe, Alive, Own, Part;
    InvariantHolds(ls);
    var s := After(ls).value;
    assert CopyOk(s, c);
    forall k: nat | k < |s.boxes|
      ensures Part(s.boxes[k], c, false) <= Parts(s.boxes, c, false) && Part(s.boxes[k], c, true) <= Parts(s.boxes, c, true)
    {
      PartsAtLeast(s.boxes, k, c, false);
      PartsAtLeast(s.boxes, k, c, true);
    }
    if forall k | 0 <= k < |s.boxes| :: Part(s.boxes[k], c, false) == Part(s.boxes[k], c, true) == 0 {
      PartsNone(s.boxes, c, false);
      PartsNone(s.boxes, c, true);
    }
  }

  /** When the writer and all readers are gone, every copy has been freed exactly once. */
  lemma AllFreed(ls: seq<Label>, c: nat)
    requires After(ls).Some? && c < |After(ls).value.copies|
    requires forall b | b in After(ls).value.boxes :: b.gone && b.pc.Rest?
    ensures After(ls).value.copies[c].frees == 1
  {
    hide Safe, Alive, CopyOk;
    InvariantHolds(ls);
    var s := After(ls).value;
    assert s.boxes[0] in s.boxes && BoxOk(s, 0);
    forall k: nat | k < |s.boxes| ensures Part(s.boxes[k], c, false) == Part(s.boxes[k], c, true) == 0 {
      assert BoxOk(s, k) && s.boxes[k] in s.boxes;
    }
    FreedOnce(ls, c);
  }

  /** What a read gives: a copy that was the newest one at some time during the read, and never an older one than
      the reader had; or nothing, when the writer is gone. */
  lemma ReadIsFresh(ls: seq<Label>, k: nat)
    requires After(ls).Some? && k < |After(ls).value.boxes| && After(ls).value.boxes[k].pc.Compare?
    ensures var s := After(ls).value; var b, b' := s.boxes[k], Step(s, Do(k)).value.boxes[k];
            if b'.last.Some? then b.floor <= b'.last.value <= s.top && UpTo(b.last, b'.last.value)
            else s.copy.None? && (s.boxes[0].gone || s.boxes[0].pc.Unref?)
  {
    hide Safe, Alive, CopyOk;
    InvariantHolds(ls);
    assert BoxOk(After(ls).value, k) && BoxOk(After(ls).value, 0);
  }

  /** The newest copy is never replaced by an older one. */
  lemma TopGrows(ls: seq<Label>, l: Label)
    requires After(ls).Some? && Step(After(ls).value, l).Some?
    ensures After(ls).value.top <= Step(After(ls).value, l).value.top
  {
    hide Safe, Alive, CopyOk;
    InvariantHolds(ls);
    if l.Do? { assert BoxOk(After(ls).value, l.k); }
  }

  /** The counter of the object: one for each box that is not gone and each reader still to be made. It reaches 0
      only when all are gone. */
  lemma ReferenceExact(ls: seq<Label>)
    requires After(ls).Some?
    ensures var s := After(ls).value;
            && s.reference == s.offers + Alive(s.boxes)
            && (s.reference == 0 <==> s.offers == 0 && forall k | 0 <= k < |s.boxes| :: s.boxes[k].gone)
  {
    hide Safe, CopyOk, BoxOk;
    InvariantHolds(ls);
    var s := After(ls).value;
    forall k: nat | k < |s.boxes| && !s.boxes[k].gone ensures Alive(s.boxes) >= 1 { AliveOne(s.boxes, k); }
    if forall k | 0 <= k < |s.boxes| :: s.boxes[k].gone { AliveNone(s.boxes); }
  }

  lemma {:induction false} AliveNone(bs: seq<Box>)
    requires forall k | 0 <= k < |bs| :: bs[k].gone
    ensures Alive(bs) == 0
  {
    if bs != [] { AliveNone(bs[..|bs| - 1]); }
  }

  /** The assertions on the counters, and on the object at its two ends, hold where they are. */
  lemma AssertionsHold(ls: seq<Label>, k: nat)
    requires After(ls).Some? && k < |After(ls).value.boxes| && !Entering(After(ls).value.boxes[k].at)
    ensures var s := After(ls).value; var b := s.boxes[k];
            && (b.pc.Grab? ==> s.reference > 0) && (b.pc.Check? ==> s.copy.Some?)
            && (b.pc.Inc? ==> Live(s, b.ret) && s.copies[b.ret.value].refs > 0)
            && (b.pc.Leave? && s.reference == 1 ==> s.copy.None?)
  {
    hide Inv;
    InvariantHolds(ls);
    if !After(ls).value.boxes[k].pc.Rest? { AccessKeeps(After(ls).value, k); }
  }

  // ----- the object itself, which ends with its last reference

  /** The lock is given back by all who took it, except by the one that ends the object; and when it has ended, only
      readers are still about to give the lock back. */
  ghost predicate LockGivenBack(s: State) {
    forall k: nat | k < |s.boxes| :: GivesBackOk(s, s.boxes[k])
  }

  lemma NoneLeft(s: State, k: nat)
    requires Inv(s) && s.reference == 0 && k < |s.boxes|
    ensures s.boxes[k].gone
  {
    hide Safe, CopyOk, BoxOk;
    if !s.boxes[k].gone { AliveOne(s.boxes, k); }
  }

  // Whoever takes the counter to 0 has the lock.
  lemma LastOneInside(s: State, k: nat, j: nat)
    requires Inv(s) && k < |s.boxes| && j < |s.boxes| && j != k && s.boxes[j].at.Writing?
    ensures !s.boxes[k].at.Reading? && !s.boxes[k].at.Writing?
  {
    hide CopyOk, BoxOk, Alive;
    WriterAlone(s.lock, Places(s.boxes), j, k);
  }

  predicate GivesBackOk(s: State, b: Box) {
    && ((b.pc.Rest? || b.pc.Drop? || b.pc.Free?) && !b.at.Out? ==> s.reference == 0)
    && (b.pc.Unlock? && s.reference == 0 ==> b.at.Reading?)
  }

  lemma OwnAccess(s: State, k: nat)
    requires Inv(s) && LockGivenBack(s) && k < |s.boxes| && !Entering(s.boxes[k].at) && Access(s, k).Some?
    ensures GivesBackOk(Access(s, k).value, Access(s, k).value.boxes[k])
  {
    hide Safe, CopyOk, Alive;
    assert BoxOk(s, k) && GivesBackOk(s, s.boxes[k]);
    if !s.boxes[k].gone { AliveOne(s.boxes, k); }
  }

  lemma OtherBox(s: State, k: nat, j: nat)
    requires Inv(s) && LockGivenBack(s) && k < |s.boxes| && !Entering(s.boxes[k].at) && Access(s, k).Some?
    requires j < |s.boxes| && j != k
    ensures GivesBackOk(Access(s, k).value, s.boxes[j]) && Access(s, k).value.boxes[j] == s.boxes[j]
  {
    hide Safe, CopyOk, Alive;
    assert BoxOk(s, k) && BoxOk(s, j) && GivesBackOk(s, s.boxes[j]);
    if s.reference == 0 { NoneLeft(s, k); }
    if s.boxes[j].at.Writing? { LastOneInside(s, k, j); }
  }

  lemma AccessGivesBack(s: State, k: nat)
    requires Inv(s) && LockGivenBack(s) && k < |s.boxes| && !Entering(s.boxes[k].at) && Access(s, k).Some?
    ensures LockGivenBack(Access(s, k).value)
  {
    hide Inv, GivesBackOk;
    var s' := Access(s, k).value;
    assert |s'.boxes| == |s.boxes|;
    hide Access;
    forall j: nat | j < |s'.boxes| ensures GivesBackOk(s', s'.boxes[j]) {
      if j == k { OwnAccess(s, k); } else { OtherBox(s, k, j); }
    }
  }

  lemma StepGivesBack(s: State, l: Label)
    requires Inv(s) && LockGivenBack(s) && Step(s, l).Some?
    ensures LockGivenBack(Step(s, l).value)
  {
    hide Safe, CopyOk, Alive, Access;
    match l
    case Do(k) =>
      if Entering(s.boxes[k].at) {
        assert BoxOk(s, k);
        if s.reference == 0 { NoneLeft(s, k); }
      } else {
        AccessGivesBack(s, k);
      }
    case _ =>
  }

  lemma {:induction false} GivesBack(ls: seq<Label>)
    requires After(ls).Some?
    ensures LockGivenBack(After(ls).value)
  {
    hide Inv, Step;
    if ls != [] {
      InvariantHolds(ls[..|ls| - 1]);
      GivesBack(ls[..|ls| - 1]);
      StepGivesBack(After(ls[..|ls| - 1]).value, ls[|ls| - 1]);
    }
  }

  /** An access that is about to touch the object: the lock, its counter or its copy. */
  predicate Touches(b: Box) {
    Entering(b.at) || !(b.pc.Rest? || b.pc.New? || b.pc.LastFree? || b.pc.Compare? || b.pc.Drop? || b.pc.Free?)
  }

  /** In every run, once the last reference is gone the only accesses to the object that are still to come are those
      of readers that have given up theirs and have not yet given back the lock. */
  lemma OnlyLateUnlocks(ls: seq<Label>, k: nat)
    requires After(ls).Some? && After(ls).value.reference == 0 && k < |After(ls).value.boxes|
    ensures var b := After(ls).value.boxes[k]; b.gone && (Touches(b) <==> b.pc.Unlock? && b.at.Reading?)
  {
    hide Safe, CopyOk, Alive;
    InvariantHolds(ls);
    GivesBack(ls);
    NoneLeft(After(ls).value, k);
    assert BoxOk(After(ls).value, k) && GivesBackOk(After(ls).value, After(ls).value.boxes[k]);
  }

  /** Before that, a box that has nothing more to do has given the lock back. */
  lemma RestsOutside(ls: seq<Label>, k: nat)
    requires After(ls).Some? && k < |After(ls).value.boxes| && After(ls).value.boxes[k].pc.Rest?
    ensures After(ls).value.boxes[k].at.Out? || After(ls).value.reference == 0
  {
    GivesBack(ls);
    assert GivesBackOk(After(ls).value, After(ls).value.boxes[k]);
  }

  // ----- and that happens: two readers close at the same time

  function Steps(s: State, ls: seq<Label>): Option<State>
    decreases |ls|
  {
    if ls == [] then Some(s) else
    match Step(s, ls[0])
    case None => None
    case Some(s') => Steps(s', ls[1..])
  }

  lemma {:induction false} AfterSteps(before: seq<Label>, s: State, ls: seq<Label>)
    requires After(before) == Some(s) && Steps(s, ls).Some?
    ensures After(before + ls) == Steps(s, ls)
    decreases |ls|
  {
    hide Step;
    if ls == [] {
      assert before + ls == before;
    } else {
      assert (before + [ls[0]])[..|before|] == before;
      assert before + ls == before + [ls[0]] + ls[1..];
      AfterSteps(before + [ls[0]], Step(s, ls[0]).value, ls[1..]);
    }
  }

  lemma {:induction false} StepsJoin(s: State, a: seq<Label>, b: seq<Label>)
    requires Steps(s, a).Some?
    ensures Steps(s, a + b) == Steps(Steps(s, a).value, b)
    decreases |a|
  {
    hide Step;
    if a == [] {
      assert a + b == b;
    } else {
      assert (a + b)[1..] == a[1..] + b;
      StepsJoin(Step(s, a[0]).value, a[1..], b);
    }
  }

  lemma OneStep(s: State, l: Label, ls: seq<Label>)
    requires Step(s, l).Some?
    ensures Steps(s, [l] + ls) == Steps(Step(s, l).value, ls)
  {
    hide Step;
    assert ([l] + ls)[1..] == ls;
  }

  const NEW_BOX := Box(Out, Rest, None, None, None, false, 0)

  /** A box that has asked for the lock as a reader gets it, if no writer is about. */
  lemma Enters(s: State, k: nat)
    requires k < |s.boxes| && s.boxes[k].at.Spin? && !s.lock.write
    ensures Steps(s, [Do(k), Do(k), Do(k)])
         == Some(s.(lock := Lock(false, s.lock.read + 1), boxes := s.boxes[k := s.boxes[k].(at := Reading)]))
  {
    var b := s.boxes[k];
    var s1 := s.(boxes := s.boxes[k := b.(at := Join)]);
    var s2 := s.(lock := Lock(false, s.lock.read + 1), boxes := s.boxes[k := b.(at := Look)]);
    var s3 := s2.(boxes := s.boxes[k := b.(at := Reading)]);
    assert Step(s, Do(k)) == Some(s1);
    assert s1.boxes[k := b.(at := Look)] == s2.boxes && Step(s1, Do(k)) == Some(s2);
    assert s2.boxes[k := b.(at := Reading)] == s3.boxes && Step(s2, Do(k)) == Some(s3);
    hide Step;
    OneStep(s, Do(k), [Do(k), Do(k)]);
    OneStep(s1, Do(k), [Do(k)]);
    OneStep(s2, Do(k), []);
    assert [Do(k)] + [Do(k), Do(k)] == [Do(k), Do(k), Do(k)] && [Do(k)] + [Do(k)] == [Do(k), Do(k)] && [Do(k)] + [] == [Do(k)];
  }

  const OFFER := [Offer, Do(0), Do(0), Do(0), Do(0), Do(0), Do(0), NewReader]

  lemma OffersOne(s: State)
    requires s.boxes != [] && s.boxes[0] == NEW_BOX && s.lock == Lock(false, 0) && s.reference > 0 && s.offers == 0
    ensures Steps(s, OFFER) == Some(s.(reference := s.reference + 1, boxes := s.boxes + [NEW_BOX]))
  {
    hide Steps, Step;
    var s1 := s.(boxes := s.boxes[0 := NEW_BOX.(at := Spin, pc := Grab)]);
    var s2 := s1.(lock := Lock(false, 1), boxes := s.boxes[0 := NEW_BOX.(at := Reading, pc := Grab)]);
    var s3 := s2.(reference := s.reference + 1, offers := 1, boxes := s.boxes[0 := NEW_BOX.(at := Reading, pc := Unlock)]);
    var s4 := s3.(lock := s.lock, boxes := s.boxes[0 := NEW_BOX.(pc := Drop)]);
    var s5 := s4.(boxes := s.boxes);
    var s6 := s5.(offers := 0, boxes := s.boxes + [NEW_BOX]);
    assert s1.boxes[0 := NEW_BOX.(at := Reading, pc := Grab)] == s2.boxes;
    Begins(s, s1);
    Grabs(s2, s3);
    assert s3.boxes[0 := NEW_BOX.(pc := Drop)] == s4.boxes && s4.boxes[0 := NEW_BOX] == s5.boxes;
    Unlocks(s3, s4, s5);
    Makes(s5, s6);
    Enters(s1, 0);
    Last4(s2, Do(0), Do(0), Do(0), NewReader, s3, s4, s5, s6);
    var enter := [Do(0), Do(0), Do(0)];
    StepsJoin(s1, enter, [Do(0), Do(0), Do(0), NewReader]);
    OneStep(s, Offer, enter + [Do(0), Do(0), Do(0), NewReader]);
    assert OFFER == [Offer] + (enter + [Do(0), Do(0), Do(0), NewReader]);
  }

  lemma Begins(s: State, s': State)
    requires s.boxes != [] && s.boxes[0] == NEW_BOX && s' == s.(boxes := s.boxes[0 := NEW_BOX.(at := Spin, pc := Grab)])
    ensures Step(s, Offer) == Some(s')
  {
  }

  lemma Grabs(s: State, s': State)
    requires s.boxes != [] && s.boxes[0] == NEW_BOX.(at := Reading, pc := Grab) && s.reference > 0
    requires s'.boxes == s.boxes[0 := NEW_BOX.(at := Reading, pc := Unlock)]
    requires s' == s.(reference := s.reference + 1, offers := s.offers + 1, boxes := s'.boxes)
    ensures Step(s, Do(0)) == Some(s')
  {
  }

  // The lock is given back, and nothing is to be dropped.
  lemma Unlocks(s: State, s1: State, s2: State)
    requires s.boxes != [] && s.boxes[0].pc.Unlock? && (s.boxes[0].at.Reading? || s.boxes[0].at.Writing?) && s.boxes[0].drop.None?
    requires s1 == s.(lock := Turn(s.lock, s.boxes[0].at).0, boxes := s.boxes[0 := s.boxes[0].(at := Out, pc := Drop)])
    requires s2 == s1.(boxes := s1.boxes[0 := s.boxes[0].(at := Out, pc := Rest)])
    ensures Step(s, Do(0)) == Some(s1) && Step(s1, Do(0)) == Some(s2)
  {
  }

  lemma Makes(s: State, s': State)
    requires s.boxes != [] && s.offers == 1 && s' == s.(offers := 0, boxes := s.boxes + [NEW_BOX])
    ensures Step(s, NewReader) == Some(s')
  {
  }

  lemma Last4(s: State, a: Label, b: Label, c: Label, d: Label, s1: State, s2: State, s3: State, s4: State)
    requires Step(s, a) == Some(s1) && Step(s1, b) == Some(s2) && Step(s2, c) == Some(s3) && Step(s3, d) == Some(s4)
    ensures Steps(s, [a, b, c, d]) == Some(s4)
  {
    hide Step;
    assert [a, b, c, d][1..] == [b, c, d] && [b, c, d][1..] == [c, d] && [c, d][1..] == [d] && [d][1..] == [];
    assert Steps(s3, [d]) == Some(s4);
    assert Steps(s2, [c, d]) == Some(s4);
    assert Steps(s1, [b, c, d]) == Some(s4);
  }

  const DELETE := [Delete, Do(0), Do(0), Do(0)] + [Do(0), Do(0), Do(0), Do(0)] + [Do(0), Do(0)]
  const GONE_BOX := NEW_BOX.(gone := true)

  /** The writer gives up the object while two readers still have it. */
  lemma Deletes(s: State)
    requires |s.boxes| == 3 && s.boxes[0] == NEW_BOX && s.lock == Lock(false, 0) && s.reference == 3
    requires s.copy == Some(0) && s.copies == [Copy(1, 0)]
    ensures Steps(s, DELETE)
         == Some(s.(reference := 2, copy := None, copies := [Copy(0, 1)], boxes := s.boxes[0 := GONE_BOX]))
  {
    hide Steps, Step;
    var s1 := s.(boxes := s.boxes[0 := NEW_BOX.(pc := Check)]);
    var s2 := s.(boxes := s.boxes[0 := NEW_BOX.(at := Claim, pc := Dec)]);
    var s3 := s.(lock := Lock(true, 0), boxes := s.boxes[0 := NEW_BOX.(at := Wait, pc := Dec)]);
    var s4 := s3.(boxes := s.boxes[0 := NEW_BOX.(at := Writing, pc := Dec)]);
    var s5 := s4.(copies := [Copy(0, 0)], boxes := s.boxes[0 := NEW_BOX.(at := Writing, pc := LastFree, drop := Some(0))]);
    var s6 := s5.(copies := [Copy(0, 1)], boxes := s.boxes[0 := NEW_BOX.(at := Writing, pc := Null)]);
    var s7 := s6.(copy := None, boxes := s.boxes[0 := NEW_BOX.(at := Writing, pc := Unref)]);
    var s8 := s7.(reference := 2, boxes := s.boxes[0 := GONE_BOX.(at := Writing, pc := Unlock)]);
    var s9 := s8.(lock := Lock(false, 0), boxes := s.boxes[0 := GONE_BOX.(pc := Drop)]);
    var s10 := s9.(boxes := s.boxes[0 := GONE_BOX]);
    Claims(s, s1, s2);
    Waits(s2, s3, s4);
    Frees(s4, s5, s6);
    Ends(s6, s7, s8);
    assert s8.boxes[0 := s9.boxes[0]] == s9.boxes && s9.boxes[0 := GONE_BOX] == s10.boxes;
    Unlocks(s8, s9, s10);
    Last4(s, Delete, Do(0), Do(0), Do(0), s1, s2, s3, s4);
    Last4(s4, Do(0), Do(0), Do(0), Do(0), s5, s6, s7, s8);
    OneStep(s9, Do(0), []);
    OneStep(s8, Do(0), [Do(0)]);
    StepsJoin(s, [Delete, Do(0), Do(0), Do(0)], [Do(0), Do(0), Do(0), Do(0)]);
    StepsJoin(s, [Delete, Do(0), Do(0), Do(0)] + [Do(0), Do(0), Do(0), Do(0)], [Do(0), Do(0)]);
    assert [Do(0)] + [Do(0)] == [Do(0), Do(0)] && [Do(0)] + [] == [Do(0)];
    NoSteps(s10);
  }

  lemma NoSteps(s: State)
    ensures Steps(s, []) == Some(s)
  {
  }

  lemma Claims(s: State, s1: State, s2: State)
    requires s.boxes != [] && s.boxes[0] == NEW_BOX && s.copy.Some?
    requires s1 == s.(boxes := s.boxes[0 := NEW_BOX.(pc := Check)])
    requires s2 == s.(boxes := s.boxes[0 := NEW_BOX.(at := Claim, pc := Dec)])
    ensures Step(s, Delete) == Some(s1) && Step(s1, Do(0)) == Some(s2)
  {
    assert s1.boxes[0 := NEW_BOX.(at := Claim, pc := Dec)] == s2.boxes;
  }

  lemma Waits(s2: State, s3: State, s4: State)
    requires s2.boxes != [] && s2.boxes[0] == NEW_BOX.(at := Claim, pc := Dec) && s2.lock == Lock(false, 0)
    requires s3 == s2.(lock := Lock(true, 0), boxes := s3.boxes) && s4 == s3.(boxes := s4.boxes)
    requires s3.boxes == s2.boxes[0 := NEW_BOX.(at := Wait, pc := Dec)] && s4.boxes == s2.boxes[0 := NEW_BOX.(at := Writing, pc := Dec)]
    ensures Step(s2, Do(0)) == Some(s3) && Step(s3, Do(0)) == Some(s4)
  {
    assert s3.boxes[0 := NEW_BOX.(at := Writing, pc := Dec)] == s4.boxes;
  }

  lemma Ends(s6: State, s7: State, s8: State)
    requires |s6.boxes| == 3 && s6.boxes[0] == NEW_BOX.(at := Writing, pc := Null) && s6.reference == 3
    requires s7 == s6.(copy := None, boxes := s6.boxes[0 := NEW_BOX.(at := Writing, pc := Unref)])
    requires s8 == s7.(reference := 2, boxes := s6.boxes[0 := GONE_BOX.(at := Writing, pc := Unlock)])
    ensures Step(s6, Do(0)) == Some(s7) && Step(s7, Do(0)) == Some(s8)
  {
    assert s7.boxes[0 := s8.boxes[0]] == s8.boxes;
  }

  lemma Frees(s4: State, s5: State, s6: State)
    requires |s4.boxes| == 3 && s4.boxes[0] == NEW_BOX.(at := Writing, pc := Dec)
    requires s4.copy == Some(0) && s4.copies == [Copy(1, 0)]
    requires s5 == s4.(copies := [Copy(0, 0)], boxes := s4.boxes[0 := NEW_BOX.(at := Writing, pc := LastFree, drop := Some(0))])
    requires s6 == s5.(copies := [Copy(0, 1)], boxes := s4.boxes[0 := NEW_BOX.(at := Writing, pc := Null)])
    ensures Step(s4, Do(0)) == Some(s5) && Step(s5, Do(0)) == Some(s6)
  {
    assert s4.copies[0 := Copy(0, 0)] == s5.copies && s5.copies[0 := Copy(0, 1)] == s6.copies;
    assert s5.boxes[0 := s6.boxes[0]] == s6.boxes;
  }

  const CLOSE := [Close(1), Close(2)] + [Do(1), Do(1), Do(1)] + [Do(2), Do(2), Do(2)] + [Do(1), Do(2)]

  /** Both readers have the lock when they give up their references. */
  lemma Closes(s: State)
    requires |s.boxes| == 3 && s.boxes[1] == s.boxes[2] == NEW_BOX && s.lock == Lock(false, 0) && s.reference == 2 && s.copy == None
    ensures Steps(s, CLOSE).Some?
    ensures var s' := Steps(s, CLOSE).value; |s'.boxes| == 3 && s'.reference == 0 && s'.boxes[1] == GONE_BOX.(at := Reading, pc := Unlock)
  {
    hide Steps;
    var s1 := s.(boxes := s.boxes[1 := NEW_BOX.(at := Spin, pc := Leave)]);
    var s2 := s.(boxes := s1.boxes[2 := NEW_BOX.(at := Spin, pc := Leave)]);
    var s3 := s2.(lock := Lock(false, 1), boxes := s2.boxes[1 := NEW_BOX.(at := Reading, pc := Leave)]);
    var s4 := s3.(lock := Lock(false, 2), boxes := s3.boxes[2 := NEW_BOX.(at := Reading, pc := Leave)]);
    var s5 := s4.(reference := 1, boxes := s4.boxes[1 := GONE_BOX.(at := Reading, pc := Unlock)]);
    var s6 := s5.(reference := 0, boxes := s5.boxes[2 := GONE_BOX.(at := Reading, pc := Drop)]);
    assert Step(s, Close(1)) == Some(s1) && Step(s1, Close(2)) == Some(s2);
    assert Step(s4, Do(1)) == Some(s5) && Step(s5, Do(2)) == Some(s6);
    Enters(s2, 1);
    Enters(s3, 2);
    hide Step;
    Two(s, Close(1), Close(2), s1, s2);
    Two(s4, Do(1), Do(2), s5, s6);
    var a, b, c, d := [Close(1), Close(2)], [Do(1), Do(1), Do(1)], [Do(2), Do(2), Do(2)], [Do(1), Do(2)];
    StepsJoin(s, a, b);
    StepsJoin(s, a + b, c);
    StepsJoin(s, a + b + c, d);
  }

  lemma Two(s: State, a: Label, b: Label, s1: State, s2: State)
    requires Step(s, a) == Some(s1) && Step(s1, b) == Some(s2)
    ensures Steps(s, [a, b]) == Some(s2)
  {
    hide Step;
    assert [a, b][1..] == [b] && [b][1..] == [];
    assert Steps(s1, [b]) == Some(s2);
  }

  /** After this run the object has ended, and a reader is about to give back its lock. */
  lemma LateUnlock() returns (ls: seq<Label>)
    ensures After(ls).Some? && After(ls).value.reference == 0
    ensures var bs := After(ls).value.boxes; |bs| > 1 && Touches(bs[1])
  {
    hide Step;
    var s0 := INITIAL;
    OffersOne(s0);
    var s1 := Steps(s0, OFFER).value;
    OffersOne(s1);
    var s2 := Steps(s1, OFFER).value;
    assert s2.boxes == [NEW_BOX, NEW_BOX, NEW_BOX];
    Deletes(s2);
    var s3 := Steps(s2, DELETE).value;
    Closes(s3);
    StepsJoin(s0, OFFER, OFFER);
    StepsJoin(s0, OFFER + OFFER, DELETE);
    StepsJoin(s0, OFFER + OFFER + DELETE, CLOSE);
    ls := OFFER + OFFER + DELETE + CLOSE;
    AfterSteps([], s0, ls);
    assert [] + ls == ls;
  }
}
