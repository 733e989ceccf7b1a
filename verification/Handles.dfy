// The registry of services: handles in a hash table that doubles, names in a sorted array. Every operation runs
// under the lock of the registry.
module Handles {
  import opened Bytes

  const DEFAULT_SLOT_SIZE := 4
  const MAX_SLOT_SIZE := 0x4000_0000
  const HANDLE_MASK := 0xff_ffff
  /** The number of local handles, and the weight of the harbor in a handle. */
  const REMOTE := 0x100_0000

  datatype Slot = Empty | Context(id: int, handle: nat)

  // ----- remainders

  lemma {:induction false} MulMono(a: nat, b: nat, size: nat)
    requires a <= b
    ensures a * size <= b * size
    decreases b - a
  {
    if a < b {
      MulMono(a, b - 1, size);
      assert b * size == (b - 1) * size + size;
    }
  }

  lemma Remainder(x: nat, size: nat, q: nat, r: nat)
    requires r < size && x == q * size + r
    ensures x % size == r
  {
    var p := x / size;
    assert x == p * size + x % size && (p + 1) * size == p * size + size && (q + 1) * size == q * size + size;
    if p < q {
      MulMono(p + 1, q, size);
    } else if p > q {
      MulMono(q + 1, p, size);
    }
  }

  /** The slot of a handle: its lowest bits, for a size that is a power of two. */
  function SlotOf(h: nat, size: nat): (i: nat)
    requires size > 0
    ensures i < size
  {
    h % size
  }

  lemma Power24()
    ensures Power2(2) == 4 && Power2(24) == REMOTE
  {
    assert Power2(4) == 16 && Power2(6) == 4 * Power2(4) && Power2(8) == 4 * Power2(6);
    assert Power2(10) == 4 * Power2(8) && Power2(12) == 4 * Power2(10) && Power2(14) == 4 * Power2(12);
    assert Power2(16) == 4 * Power2(14) && Power2(18) == 4 * Power2(16) && Power2(20) == 4 * Power2(18);
    assert Power2(22) == 4 * Power2(20) && Power2(24) == 4 * Power2(22);
  }

  /** All table sizes divide the number of handles. */
  lemma {:induction false} SizeDivides(k: nat) returns (q: nat)
    requires k <= 24
    ensures REMOTE == q * Power2(k) && Power2(k) <= REMOTE
    decreases 24 - k
  {
    if k == 24 {
      q := 1;
      Power24();
    } else {
      var p := SizeDivides(k + 1);
      q := 2 * p;
      assert p * (2 * Power2(k)) == (2 * p) * Power2(k);
    }
  }

  /** The harbor is above the bits that choose the slot. */
  lemma HarborAside(h: nat, harbor: nat, size: nat, q: nat)
    requires REMOTE == q * size && size > 0
    ensures SlotOf(h + harbor * REMOTE, size) == SlotOf(h, size)
  {
    var t, r, b := h / size, h % size, harbor * q;
    assert harbor * REMOTE == b * size;
    assert (t + b) * size == t * size + b * size;
    Remainder(h + harbor * REMOTE, size, t + b, r);
  }

  /** In a table of twice the size a handle stays in its slot or moves up by the old size. */
  lemma Doubled(h: nat, size: nat)
    requires size > 0
    ensures SlotOf(h, 2 * size) == SlotOf(h, size) || SlotOf(h, 2 * size) == SlotOf(h, size) + size
  {
    var q, r := h / size, h % size;
    var half := q / 2;
    assert half * (2 * size) == (2 * half) * size;
    if q % 2 == 0 {
      assert q == 2 * half;
      Remainder(h, 2 * size, half, r);
    } else {
      assert q == 2 * half + 1 && (2 * half + 1) * size == (2 * half) * size + size;
      Remainder(h, 2 * size, half, r + size);
    }
  }

  // ----- which slots the search for a free one visits

  /** Beyond the largest handle the search goes on at 1; 0 is reserved. */
  function Capped(h: nat): nat {
    if h > HANDLE_MASK then 1 else h
  }

  /** Handle number i of a search. */
  function Tried(start: nat, i: nat): (h: nat)
    requires 0 < start <= HANDLE_MASK + 1 && i <= HANDLE_MASK
    ensures 0 < h <= HANDLE_MASK
  {
    var s := Capped(start);
    if s + i <= HANDLE_MASK then s + i else s + i - HANDLE_MASK
  }

  /** The search starts again at 1 before it has tried as many handles as there are slots. */
  predicate WrapsMidway(start: nat, size: nat) {
    Capped(start) + size - 1 > HANDLE_MASK
  }

  /** Among consecutive numbers, as many as there are slots, one falls into each slot. */
  lemma Consecutive(s: nat, size: nat, r: nat) returns (i: nat)
    requires r < size
    ensures i < size && SlotOf(s + i, size) == r
  {
    var t, a := s / size, s % size;
    assert s == t * size + a && (t + 1) * size == t * size + size;
    i := if r >= a then r - a else r + size - a;
    Remainder(s + i, size, if r >= a then t else t + 1, r);
  }

  /** The search visits every slot, except slot 0 when it wraps midway. */
  lemma Visits(start: nat, size: nat, q: nat, r: nat) returns (i: nat)
    requires 0 < start <= HANDLE_MASK + 1 && REMOTE == q * size && size <= REMOTE
    requires r < size && (r > 0 || !WrapsMidway(start, size))
    ensures i < size && SlotOf(Tried(start, i), size) == r
  {
    var s := Capped(start);
    i := Consecutive(s, size, r);
    if s + i > HANDLE_MASK {
      Remainder(s + i, size, q, s + i - REMOTE);
      i := i - 1;
      Remainder(r, size, 0, r);
    }
  }

  /** And slot 0 it does miss when it wraps midway. */
  lemma MissesZero(start: nat, size: nat, q: nat, i: nat)
    requires 0 < start <= HANDLE_MASK + 1 && REMOTE == q * size && i < size <= REMOTE && WrapsMidway(start, size)
    requires i <= HANDLE_MASK
    ensures SlotOf(Tried(start, i), size) != 0
  {
    var s := Capped(start);
    if s + i <= HANDLE_MASK {
      var back := REMOTE - (s + i);
      assert (q - 1) * size == q * size - size;
      Remainder(s + i, size, q - 1, size - back);
    } else {
      Remainder(s + i - HANDLE_MASK, size, 0, s + i - HANDLE_MASK);
    }
  }

  /** No handle that is tried has a free slot. */
  predicate SearchFails(slots: seq<Slot>, start: nat)
    requires 0 < |slots| <= REMOTE && 0 < start <= HANDLE_MASK + 1
  {
    forall i | 0 <= i < |slots| :: slots[SlotOf(Tried(start, i), |slots|)].Context?
  }

  /** The search fails when the table is full, but also when it misses the only free slot. */
  lemma SearchFailsExactly(slots: seq<Slot>, start: nat, q: nat)
    requires 0 < start <= HANDLE_MASK + 1 && REMOTE == q * |slots| && 0 < |slots| <= REMOTE
    ensures SearchFails(slots, start) <==>
      (forall r | 0 < r < |slots| :: slots[r].Context?) && (slots[0].Context? || WrapsMidway(start, |slots|))
  {
    if SearchFails(slots, start) {
      forall r | 0 <= r < |slots| && (r > 0 || !WrapsMidway(start, |slots|)) ensures slots[r].Context? {
        var i := Visits(start, |slots|, q, r);
      }
    } else if slots[0].Empty? && WrapsMidway(start, |slots|) {
      forall i | 0 <= i < |slots| ensures SlotOf(Tried(start, i), |slots|) != 0 {
        MissesZero(start, |slots|, q, i);
      }
    }
  }

  /** The search takes the first handle that has an empty slot. */
  predicate Takes(slots: seq<Slot>, start: nat, h: nat)
    requires 0 < |slots| <= REMOTE && 0 < start <= HANDLE_MASK + 1
  {
    exists i :: 0 <= i < |slots| && TakesAt(slots, start, h, i)
  }

  predicate TakesAt(slots: seq<Slot>, start: nat, h: nat, i: nat)
    requires i < |slots| <= REMOTE && 0 < start <= HANDLE_MASK + 1
  {
    && h == Tried(start, i) && slots[SlotOf(h, |slots|)].Empty?
    && forall j | 0 <= j < i :: slots[SlotOf(Tried(start, j), |slots|)].Context?
  }

  // ----- the table

  /** A handle of this harbor; the local part 0 is reserved. */
  predicate OfHarbor(h: nat, harbor: nat) {
    h / REMOTE == harbor && h % REMOTE != 0
  }

  /** Every service that is registered is in the slot of its handle, and nothing else is in the table. */
  predicate SlotsOk(slots: seq<Slot>, live: map<nat, int>, harbor: nat) {
    && |slots| > 0
    && (forall h | h in live :: OfHarbor(h, harbor) && slots[SlotOf(h, |slots|)] == Context(live[h], h))
    && (forall i | 0 <= i < |slots| && slots[i].Context? ::
          SlotOf(slots[i].handle, |slots|) == i && slots[i].handle in live)
  }

  /** In a table that has been doubled one of two slots is free. */
  lemma HalfFree(slots: seq<Slot>, slots': seq<Slot>, live: map<nat, int>, harbor: nat)
    requires SlotsOk(slots, live, harbor) && SlotsOk(slots', live, harbor) && |slots'| == 2 * |slots| && |slots| > 1
    ensures slots'[1].Empty? || slots'[1 + |slots|].Empty?
  {
    if slots'[1].Context? && slots'[1 + |slots|].Context? {
      Doubled(slots'[1].handle, |slots|);
      Doubled(slots'[1 + |slots|].handle, |slots|);
    }
  }

  lemma Listed(slots: seq<Slot>, live: map<nat, int>, harbor: nat, i: nat)
    requires SlotsOk(slots, live, harbor) && i < |slots| && slots[i].Context?
    ensures slots[i].handle in live && slots[i].handle != 0 && SlotOf(slots[i].handle, |slots|) == i
  {
  }

  /** The first i services are in the slots of the doubled table where they belong, and nothing else is in it. */
  predicate Moved(slots: seq<Slot>, slots': seq<Slot>, i: nat)
    requires |slots'| == 2 * |slots| && 0 < |slots| && i <= |slots|
  {
    && (forall j | 0 <= j < i :: slots[j].Context? && slots'[SlotOf(slots[j].handle, |slots'|)] == slots[j])
    && (forall j | 0 <= j < |slots'| && slots'[j].Context? :: CameFrom(slots, slots', i, j))
  }

  predicate CameFrom(slots: seq<Slot>, slots': seq<Slot>, i: nat, j: nat)
    requires 0 < |slots| && i <= |slots| && j < |slots'| && slots'[j].Context?
  {
    var k := SlotOf(slots'[j].handle, |slots|);
    SlotOf(slots'[j].handle, |slots'|) == j && k < i && slots[k] == slots'[j]
  }

  lemma NothingMoved(slots: seq<Slot>, slots': seq<Slot>)
    requires |slots'| == 2 * |slots| && 0 < |slots| && forall j | 0 <= j < |slots'| :: slots'[j].Empty?
    ensures Moved(slots, slots', 0)
  {
  }

  /** The next service finds its slot empty. */
  lemma MoveOne(slots: seq<Slot>, slots': seq<Slot>, i: nat)
    requires |slots'| == 2 * |slots| && i < |slots| && Moved(slots, slots', i)
    requires slots[i].Context? && SlotOf(slots[i].handle, |slots|) == i
    ensures var hash := SlotOf(slots[i].handle, |slots'|);
      slots'[hash].Empty? && Moved(slots, slots'[hash := slots[i]], i + 1)
  {
    hide SlotOf;
    var hash := SlotOf(slots[i].handle, |slots'|);
    Doubled(slots[i].handle, |slots|);
    if slots'[hash].Context? {
      assert CameFrom(slots, slots', i, hash);
      Doubled(slots'[hash].handle, |slots|);
    }
    var moved := slots'[hash := slots[i]];
    forall j | 0 <= j < |moved| && moved[j].Context? ensures CameFrom(slots, moved, i + 1, j) {
      if j != hash { assert CameFrom(slots, slots', i, j); }
    }
  }

  lemma AllMoved(slots: seq<Slot>, slots': seq<Slot>, live: map<nat, int>, harbor: nat)
    requires SlotsOk(slots, live, harbor) && |slots'| == 2 * |slots| && Moved(slots, slots', |slots|)
    ensures SlotsOk(slots', live, harbor)
  {
    hide SlotOf;
    forall j | 0 <= j < |slots'| && slots'[j].Context?
      ensures SlotOf(slots'[j].handle, |slots'|) == j && slots'[j].handle in live
    {
      assert CameFrom(slots, slots', |slots|, j);
    }
  }

  lemma NoneLeft(slots: seq<Slot>, live: map<nat, int>, harbor: nat)
    requires SlotsOk(slots, live, harbor) && forall i | 0 <= i < |slots| :: slots[i].Empty?
    ensures live == map[]
  {
    forall h | h in live ensures slots[SlotOf(h, |slots|)].Context? {}
    assert live == map[];
  }

  // ----- names

  datatype Entry = Entry(name: seq<byte>, handle: nat)

  /** 'strcmp' */
  function Compare(a: seq<byte>, b: seq<byte>): int {
    if a == [] then if b == [] then 0 else -1
    else if b == [] || a[0] > b[0] then 1
    else if a[0] < b[0] then -1 else Compare(a[1..], b[1..])
  }

  lemma {:induction false} CompareSwap(a: seq<byte>, b: seq<byte>)
    ensures Compare(a, b) == -Compare(b, a) && (Compare(a, b) == 0 <==> a == b)
  {
    if a != [] && b != [] {
      CompareSwap(a[1..], b[1..]);
      assert a == [a[0]] + a[1..] && b == [b[0]] + b[1..];
    }
  }

  lemma {:induction false} CompareTransitive(a: seq<byte>, b: seq<byte>, c: seq<byte>)
    requires Compare(a, b) < 0 && Compare(b, c) < 0
    ensures Compare(a, c) < 0
  {
    if a != [] && b != [] && c != [] && a[0] == b[0] == c[0] {
      CompareTransitive(a[1..], b[1..], c[1..]);
    }
  }

  predicate Before(a: Entry, b: Entry) {
    Compare(a.name, b.name) < 0
  }

  predicate Sorted(es: seq<Entry>) {
    forall i, j | 0 <= i < j < |es| :: Before(es[i], es[j])
  }

  /** The handle of a name, or 0: what a search from the front finds. */
  function Lookup(es: seq<Entry>, name: seq<byte>): nat {
    if es == [] then 0 else if es[0].name == name then es[0].handle else Lookup(es[1..], name)
  }

  lemma {:induction false} LookupAt(es: seq<Entry>, name: seq<byte>, k: nat)
    requires Sorted(es) && k < |es| && es[k].name == name
    ensures Lookup(es, name) == es[k].handle
  {
    if k > 0 {
      assert Before(es[0], es[k]);
      CompareSwap(es[0].name, name);
      assert forall i, j | 0 <= i < j < |es[1..]| :: Before(es[1..][i], es[1..][j]) by {
        assert forall i | 0 <= i < |es[1..]| :: es[1..][i] == es[i + 1];
      }
      LookupAt(es[1..], name, k - 1);
    }
  }

  lemma {:induction false} LookupNone(es: seq<Entry>, name: seq<byte>)
    requires forall k | 0 <= k < |es| :: es[k].name != name
    ensures Lookup(es, name) == 0
  {
    if es != [] { LookupNone(es[1..], name); }
  }

  /** Putting an entry where it belongs: the others keep their handles. */
  lemma LookupInserted(es: seq<Entry>, e: Entry, p: nat, name: seq<byte>)
    requires p <= |es| && Sorted(es) && Sorted(es[..p] + [e] + es[p..])
    ensures Lookup(es[..p] + [e] + es[p..], name) == if name == e.name then e.handle else Lookup(es, name)
  {
    var fs := es[..p] + [e] + es[p..];
    assert fs[p] == e;
    if name == e.name {
      LookupAt(fs, name, p);
    } else if k :| 0 <= k < |es| && es[k].name == name {
      LookupAt(es, name, k);
      LookupAt(fs, name, if k < p then k else k + 1);
    } else {
      LookupNone(es, name);
      LookupNone(fs, name);
    }
  }

  /** The place of a name between smaller and larger ones. */
  predicate PlaceOf(es: seq<Entry>, name: seq<byte>, p: nat)
    requires p <= |es|
  {
    (forall k | 0 <= k < p :: Compare(es[k].name, name) < 0) && (forall k | p <= k < |es| :: Compare(es[k].name, name) > 0)
  }

  lemma InsertedSorted(es: seq<Entry>, e: Entry, p: nat)
    requires p <= |es| && Sorted(es) && PlaceOf(es, e.name, p)
    ensures Sorted(es[..p] + [e] + es[p..])
  {
    var fs := es[..p] + [e] + es[p..];
    forall i, j | 0 <= i < j < |fs| ensures Before(fs[i], fs[j]) {
      if i == p {
        CompareSwap(fs[j].name, e.name);
      } else if j != p {
        assert Before(es[if i < p then i else i - 1], es[if j < p then j else j - 1]);
      }
    }
  }

  /** The entries that do not name this handle. */
  function Without(es: seq<Entry>, h: nat): (r: seq<Entry>)
    ensures |r| <= |es|
  {
    if es == [] then [] else
      var n := |es| - 1;
      if es[n].handle == h then Without(es[..n], h) else Without(es[..n], h) + [es[n]]
  }

  lemma {:induction false} WithoutSorted(es: seq<Entry>, h: nat)
    requires Sorted(es)
    ensures Sorted(Without(es, h))
    ensures forall e :: e in Without(es, h) <==> e in es && e.handle != h
  {
    if es != [] {
      var n := |es| - 1;
      WithoutSorted(es[..n], h);
      assert es == es[..n] + [es[n]];
      var r := Without(es[..n], h);
      forall i | 0 <= i < |r| ensures Before(r[i], es[n]) {
        assert r[i] in es[..n];
      }
    }
  }

  /** Exactly the names of the handle are gone. */
  lemma LookupWithout(es: seq<Entry>, h: nat, name: seq<byte>)
    requires Sorted(es)
    ensures Lookup(Without(es, h), name) == if Lookup(es, name) == h then 0 else Lookup(es, name)
  {
    WithoutSorted(es, h);
    var fs := Without(es, h);
    if k :| 0 <= k < |es| && es[k].name == name {
      LookupAt(es, name, k);
      if es[k].handle != h {
        assert es[k] in fs;
        var j :| 0 <= j < |fs| && fs[j] == es[k];
        LookupAt(fs, name, j);
      } else {
        forall j | 0 <= j < |fs| ensures fs[j].name != name {
          if fs[j].name == name {
            assert fs[j] in es;
            var i :| 0 <= i < |es| && es[i] == fs[j];
            LookupAt(es, name, i);
          }
        }
        LookupNone(fs, name);
      }
    } else {
      LookupNone(es, name);
      forall j | 0 <= j < |fs| ensures fs[j].name != name {
        assert fs[j] in es;
      }
      LookupNone(fs, name);
    }
  }

  // ----- the registry

  /** What comes of a registration: a handle, a failed assertion because the table cannot grow any more, or the
      use of an empty slot as a service. */
  datatype Registered = Handle(h: nat) | TooMany | EmptySlotUsed

  datatype Named = Done | Exists | TooManyNames

  class HandleStorage {
    const harbor: nat
    var handleIndex: nat
    var slot: array<Slot>
    var name: array<Entry>
    var nameCount: nat
    ghost var bits: nat
    /** The services that are registered and not retired, by handle. */
    ghost var live: map<nat, int>

    ghost predicate ValidSlots()
      reads `handleIndex, `slot, slot, `bits, `live
    {
      && 2 <= bits <= 24 && 0 < slot.Length == Power2(bits) <= REMOTE && 0 < handleIndex <= HANDLE_MASK + 1
      && SlotsOk(slot[..], live, harbor)
    }

    ghost predicate ValidNames()
      reads `name, name, `nameCount
    {
      nameCount <= name.Length && name.Length > 0 && Sorted(name[..nameCount])
    }

    ghost predicate Valid()
      reads this, slot, name
    {
      ValidSlots() && ValidNames()
    }

    ghost function Names(): seq<Entry>
      requires ValidNames()
      reads `name, name, `nameCount
    {
      name[..nameCount]
    }

    /** 'skynet_handle_init' */
    constructor (harbor: nat)
      ensures Valid() && live == map[] && Names() == [] && this.harbor == harbor % 256
      ensures handleIndex == 1 && slot[..] == [Empty, Empty, Empty, Empty] && fresh(slot) && fresh(name)
    {
      this.harbor := harbor % 256;
      handleIndex, bits, live := 1, 2, map[];
      slot := new Slot[DEFAULT_SLOT_SIZE](_ => Empty);
      name := new Entry[2](_ => Entry([], 0));
      nameCount := 0;
      new;
      Power24();
    }

    /** The inner loop of 'skynet_handle_register': 0 if no slot was found. */
    method Search(id: int) returns (handle: nat)
      requires ValidSlots()
      modifies slot, `handleIndex, `live
      ensures ValidSlots() && (handle == 0 <==> old(SearchFails(slot[..], handleIndex)))
      ensures handle == 0 ==> slot[..] == old(slot[..]) && live == old(live) && handleIndex == old(handleIndex)
      ensures handle != 0 ==> OfHarbor(handle, harbor) && handle !in old(live) && live == old(live)[handle := id]
      ensures handle != 0 ==> Taken(id, handle, old(slot[..]), old(handleIndex))
    {
      var size := slot.Length;
      ghost var q := SizeDivides(bits);
      var h: nat := handleIndex;
      for i := 0 to size
        invariant Capped(h) == if i <= HANDLE_MASK then Tried(handleIndex, i) else Capped(h)
        invariant 0 < h <= HANDLE_MASK + 1
        invariant slot[..] == old(slot[..]) && handleIndex == old(handleIndex) && live == old(live)
        invariant forall j | 0 <= j < i :: slot[SlotOf(Tried(handleIndex, j), size)].Context?
      {
        if h > HANDLE_MASK {
          h := 1;
        }
        var hash := SlotOf(h, size);
        if slot[hash].Empty? {
          handle := h + harbor * REMOTE;
          HarborAside(h, harbor, size, q);
          Remainder(handle, REMOTE, harbor, h);
          assert TakesAt(old(slot[..]), old(handleIndex), h, i);
          Place(id, handle, hash);
          handleIndex := h + 1;
          return;
        }
        h := h + 1;
      }
      handle := 0;
    }

    /** What taking a handle leaves. */
    ghost predicate Taken(id: int, handle: nat, slots: seq<Slot>, start: nat)
      requires 0 < |slots| <= REMOTE && 0 < start <= HANDLE_MASK + 1
      reads `slot, slot, `handleIndex
    {
      && Takes(slots, start, handle % REMOTE) && handleIndex == handle % REMOTE + 1
      && slot[..] == slots[SlotOf(handle, |slots|) := Context(id, handle)]
    }

    /** A handle whose slot is empty is not in use. */
    method Place(id: int, handle: nat, hash: nat)
      requires ValidSlots() && hash < slot.Length && hash == SlotOf(handle, slot.Length) && slot[hash].Empty?
      requires OfHarbor(handle, harbor)
      modifies slot, `live
      ensures ValidSlots() && handle !in old(live) && live == old(live)[handle := id]
      ensures slot[..] == old(slot[..])[hash := Context(id, handle)]
    {
      slot[hash] := Context(id, handle);
      live := live[handle := id];
    }

    /** The rest of the loop: a table of twice the size. No two services come into the same slot. */
    method Double()
      requires ValidSlots() && bits < 24 && forall i | 0 <= i < slot.Length :: slot[i].Context?
      modifies `slot, `bits
      ensures ValidSlots() && fresh(slot) && slot.Length == 2 * old(slot.Length) && bits == old(bits) + 1
    {
      hide SlotsOk, Moved, SlotOf;
      var size := slot.Length;
      ghost var slots := slot[..];
      var newSlot := new Slot[size * 2](_ => Empty);
      NothingMoved(slots, newSlot[..]);
      for i := 0 to size
        invariant newSlot.Length == 2 * size && Moved(slots, newSlot[..], i) && slot[..] == slots
        modifies newSlot
      {
        var hash := SlotOf(slot[i].handle, 2 * size);
        Listed(slots, live, harbor, i);
        MoveOne(slots, newSlot[..], i);
        assert newSlot[hash].Empty?;
        ghost var before := newSlot[..];
        newSlot[hash] := slot[i];
        assert newSlot[..] == before[hash := slots[i]];
      }
      AllMoved(slots, newSlot[..], live, harbor);
      slot := newSlot;
      bits := bits + 1;
      ghost var q := SizeDivides(bits);
    }

    /** 'skynet_handle_register': the handle differs from those of all registered services. The code fails only in
        two cases, of which the second is a slot 0 that the search missed. */
    method Register(id: int) returns (r: Registered)
      requires Valid()
      modifies this, slot
      ensures Valid() && Names() == old(Names()) && name == old(name)
      ensures r.Handle? ==> OfHarbor(r.h, harbor) && r.h !in old(live) && live == old(live)[r.h := id]
      ensures !r.Handle? ==> live == old(live)
      ensures r.Handle? ==> handleIndex == r.h % REMOTE + 1
      ensures r.Handle? && !old(SearchFails(slot[..], handleIndex)) ==> slot == old(slot) && Taken(id, r.h, old(slot[..]), old(handleIndex))
      ensures r.Handle? && old(SearchFails(slot[..], handleIndex)) ==> slot.Length == 2 * old(slot.Length)
      ensures r.TooMany? == old(SearchFails(slot[..], handleIndex) && 2 * slot.Length > REMOTE)
      ensures r.EmptySlotUsed? == old(SearchFails(slot[..], handleIndex) && 2 * slot.Length <= REMOTE && slot[0].Empty?)
    {
      hide SlotsOk, SlotOf, Takes, SearchFails, OfHarbor;
      ghost var q := SizeDivides(bits);
      SearchFailsExactly(slot[..], handleIndex, q);
      var handle := Search(id);
      if handle != 0 {
        return Handle(handle);
      }
      if slot.Length * 2 - 1 > HANDLE_MASK {
        return TooMany;
      }
      if slot[0].Empty? {
        return EmptySlotUsed;
      }
      Power24();
      ghost var before := slot[..];
      Double();
      HalfFree(before, slot[..], live, harbor);
      q := SizeDivides(bits);
      SearchFailsExactly(slot[..], handleIndex, q);
      handle := Search(id);
      r := Handle(handle);
    }

    /** 'skynet_handle_grab': exactly the services that are registered under this handle. */
    method Grab(handle: nat) returns (r: Slot)
      requires Valid()
      ensures r == if handle in live then Context(live[handle], handle) else Empty
    {
      r := Empty;
      var ctx := slot[SlotOf(handle, slot.Length)];
      if ctx.Context? && ctx.handle == handle {
        r := ctx;
      }
    }

    /** 'skynet_handle_retire': the service leaves, and with it its names. */
    method Retire(handle: nat) returns (ret: bool)
      requires Valid()
      modifies this, slot, name
      ensures Valid() && ret == (handle in old(live)) && live == old(live) - {handle}
      ensures slot == old(slot) && name == old(name) && handleIndex == old(handleIndex)
      ensures slot[..] == if ret then old(slot[..])[SlotOf(handle, slot.Length) := Empty] else old(slot[..])
      ensures Names() == if ret then Without(old(Names()), handle) else old(Names())
    {
      var hash := SlotOf(handle, slot.Length);
      var ctx := slot[hash];
      ret := ctx.Context? && ctx.handle == handle;
      if ret {
        slot[hash] := Empty;
        live := live - {handle};
        DropNames(handle);
      } else {
        assert live - {handle} == live;
      }
    }

    /** The loop that closes the gaps between the names that stay. */
    method DropNames(handle: nat)
      requires ValidNames()
      modifies name, `nameCount
      ensures ValidNames() && Names() == Without(old(Names()), handle)
    {
      ghost var es := Names();
      var j := 0;
      for i := 0 to nameCount
        invariant 0 <= j <= i && nameCount == |es| && name[..j] == Without(es[..i], handle)
        invariant forall k | i <= k < nameCount :: name[k] == es[k]
      {
        assert es[..i + 1][..i] == es[..i];
        if name[i].handle != handle {
          if i != j {
            name[j] := name[i];
          }
          assert name[..j + 1] == name[..j] + [es[i]];
          j := j + 1;
        }
      }
      assert es[..nameCount] == es;
      nameCount := j;
      WithoutSorted(es, handle);
    }

    /** 'skynet_handle_retireall' */
    method RetireAll()
      requires Valid()
      modifies this, slot, name
      ensures Valid() && live == map[]
    {
      var n := 1;
      while n != 0
        invariant Valid() && slot == old(slot) && name == old(name) && (n == 0 ==> live == map[])
        decreases |live|, n
      {
        n := RetireSlots();
      }
    }

    /** One pass over the slots: how many services were retired. */
    method RetireSlots() returns (n: nat)
      requires Valid()
      modifies this, slot, name
      ensures Valid() && slot == old(slot) && name == old(name)
      ensures live == map[] && (n == 0 <==> old(live) == map[])
    {
      hide SlotsOk, ValidNames;
      n := 0;
      for i := 0 to slot.Length
        invariant Valid() && slot == old(slot) && name == old(name)
        invariant live.Keys <= old(live).Keys && (n == 0 ==> live == old(live)) && (n > 0 ==> old(live) != map[])
        invariant forall j | 0 <= j < i :: slot[j].Empty?
      {
        var handle := if slot[i].Context? then slot[i].handle else 0;
        if slot[i].Context? {
          Listed(slot[..], live, harbor, i);
        }
        if handle != 0 {
          var gone := Retire(handle);
          if gone {
            n := n + 1;
          }
        }
      }
      NoneLeft(slot[..], live, harbor);
    }

    /** The binary search of 'skynet_handle_findname' and '_insert_name'. */
    method FindPlace(n: seq<byte>) returns (found: bool, at: nat)
      requires ValidNames()
      ensures found ==> at < |Names()| && Names()[at].name == n
      ensures !found ==> at <= |Names()| && PlaceOf(Names(), n, at)
    {
      var begin, end := 0, nameCount - 1;
      while begin <= end
        invariant 0 <= begin <= nameCount && -1 <= end < nameCount && begin <= end + 1
        invariant forall k | 0 <= k < begin :: Compare(name[k].name, n) < 0
        invariant forall k | end < k < nameCount :: Compare(name[k].name, n) > 0
        decreases end - begin
      {
        var mid := (begin + end) / 2;
        var c := Compare(name[mid].name, n);
        CompareSwap(name[mid].name, n);
        if c == 0 {
          return true, mid;
        }
        if c < 0 {
          forall k | 0 <= k < mid ensures Compare(name[k].name, n) < 0 {
            assert Before(name[..nameCount][k], name[..nameCount][mid]);
            CompareTransitive(name[k].name, name[mid].name, n);
          }
          begin := mid + 1;
        } else {
          forall k | mid < k < nameCount ensures Compare(name[k].name, n) > 0 {
            assert Before(name[..nameCount][mid], name[..nameCount][k]);
            CompareSwap(name[k].name, n);
            CompareTransitive(n, name[mid].name, name[k].name);
          }
          end := mid - 1;
        }
      }
      found, at := false, begin;
    }

    /** 'skynet_handle_findname': what a search through all names finds. */
    method FindName(n: seq<byte>) returns (handle: nat)
      requires Valid()
      ensures handle == Lookup(Names(), n)
    {
      var found, at := FindPlace(n);
      if found {
        LookupAt(Names(), n, at);
        return name[at].handle;
      }
      forall k | 0 <= k < |Names()| ensures Names()[k].name != n {
        CompareSwap(Names()[k].name, n);
      }
      LookupNone(Names(), n);
      handle := 0;
    }

    /** '_insert_name_before' */
    method InsertNameBefore(e: Entry, before: nat) returns (ok: bool)
      requires ValidNames() && before <= nameCount && PlaceOf(Names(), e.name, before)
      modifies `name, name, `nameCount
      ensures ValidNames() && (name == old(name) || fresh(name))
      ensures ok == (old(nameCount) < old(name.Length) || 2 * old(name.Length) <= MAX_SLOT_SIZE)
      ensures Names() == if ok then old(Names()[..before] + [e] + Names()[before..]) else old(Names())
    {
      hide Sorted, PlaceOf;
      ghost var es := Names();
      InsertedSorted(es, e, before);
      if nameCount >= name.Length {
        if name.Length * 2 > MAX_SLOT_SIZE {
          return false;
        }
        Grow(es, before);
      } else {
        Shift(es, before);
      }
      name[before] := e;
      nameCount := nameCount + 1;
      assert name[..nameCount] == es[..before] + [e] + es[before..];
      ok := true;
    }

    /** A larger array with a gap. */
    method Grow(ghost es: seq<Entry>, before: nat)
      requires before <= nameCount == |es| <= name.Length && name.Length > 0 && es == name[..nameCount]
      modifies `name
      ensures fresh(name) && name.Length == 2 * old(name.Length) && Gap(es, before)
    {
      var n := new Entry[name.Length * 2](_ => Entry([], 0));
      for i := 0 to before
        invariant forall k | 0 <= k < i :: n[k] == es[k]
        modifies n
      {
        n[i] := name[i];
      }
      for i := before to nameCount
        invariant (forall k | 0 <= k < before :: n[k] == es[k]) && forall k | before <= k < i :: n[k + 1] == es[k]
        modifies n
      {
        n[i + 1] := name[i];
      }
      name := n;
    }

    /** A gap in the array. */
    method Shift(ghost es: seq<Entry>, before: nat)
      requires before <= nameCount == |es| < name.Length && es == name[..nameCount]
      modifies name
      ensures Gap(es, before)
    {
      for i := nameCount downto before
        invariant (forall k | 0 <= k < i :: name[k] == es[k]) && forall k | i <= k < nameCount :: name[k + 1] == es[k]
        modifies name
      {
        name[i + 1] := name[i];
      }
    }

    ghost predicate Gap(es: seq<Entry>, before: nat)
      reads `name, name
    {
      && before <= |es| < name.Length && (forall k | 0 <= k < before :: name[k] == es[k])
      && (forall k | before <= k < |es| :: name[k + 1] == es[k])
    }

    /** 'skynet_handle_namehandle': a name is given once. */
    method NameHandle(handle: nat, n: seq<byte>) returns (r: Named)
      requires Valid()
      modifies this, name
      ensures Valid() && live == old(live)
      ensures r == Exists <==> exists e :: e in old(Names()) && e.name == n
      ensures r != Done ==> Names() == old(Names())
      ensures r == Done ==> forall m :: Lookup(Names(), m) == if m == n then handle else Lookup(old(Names()), m)
    {
      ghost var es := Names();
      var found, at := FindPlace(n);
      if found {
        assert es[at] in es;
        return Exists;
      }
      forall e | e in es ensures e.name != n {
        CompareSwap(e.name, n);
      }
      InsertedSorted(es, Entry(n, handle), at);
      var ok := InsertNameBefore(Entry(n, handle), at);
      if ok {
        forall m ensures Lookup(Names(), m) == if m == n then handle else Lookup(es, m) {
          LookupInserted(es, Entry(n, handle), at, m);
        }
      }
      r := if ok then Done else TooManyNames;
    }
  }

  // ----- a run in which the search misses slot 0

  /** Which handle is taken is certain. */
  lemma TakenIs(slots: seq<Slot>, start: nat, i: nat, h: nat)
    requires 0 < |slots| <= REMOTE && 0 < start <= HANDLE_MASK + 1 && i < |slots|
    requires TakesAt(slots, start, Tried(start, i), i) && Takes(slots, start, h)
    ensures h == Tried(start, i) && !SearchFails(slots, start)
  {
    var j :| 0 <= j < |slots| && TakesAt(slots, start, h, j);
  }

  /** A registration that takes handle number i of its search. */
  method RegisterAt(s: HandleStorage, id: int, i: nat)
    requires s.Valid() && s.harbor == 0 && i < s.slot.Length && s.handleIndex + i <= HANDLE_MASK
    requires TakesAt(s.slot[..], s.handleIndex, s.handleIndex + i, i)
    modifies s, s.slot
    ensures s.Valid() && s.slot == old(s.slot) && s.name == old(s.name) && s.handleIndex == old(s.handleIndex) + i + 1
    ensures var h := old(s.handleIndex) + i;
      s.slot[..] == old(s.slot[..])[SlotOf(h, s.slot.Length) := Context(id, h)] && h in s.live
  {
    hide SlotsOk, SlotOf;
    ghost var slots, start := s.slot[..], s.handleIndex;
    assert Takes(slots, start, start + i);
    TakenIs(slots, start, i, start + i);
    var r := s.Register(id);
    TakenIs(slots, start, i, r.h % REMOTE);
  }

  /** The search can miss slot 0. Three services stay, and a fourth comes and goes until the handles are used up:
      then the next registration takes the empty slot 0 for a service. */
  method MissedSlotRun() returns (r: Registered)
    ensures r.EmptySlotUsed?
  {
    hide HandleStorage.Valid, TakesAt, SlotOf, SearchFails;
    var s := ThreeServices();
    var m := 0;
    while m < 0x3f_ffff
      invariant m <= 0x3f_ffff && s.Valid() && s.harbor == 0 && fresh(s) && fresh(s.slot) && fresh(s.name)
      invariant s.slot[..] == THREE && s.handleIndex == 4 * m + if m == 0 then 4 else 1
    {
      m := m + 1;
      FourthSlot(m);
      RegisterAt(s, 4, if m == 1 then 0 else 3);
      var gone := s.Retire(4 * m);
    }
    MissedSlot();
    r := s.Register(4);
  }

  const THREE: seq<Slot> := [Empty, Context(1, 1), Context(2, 2), Context(3, 3)]

  method ThreeServices() returns (s: HandleStorage)
    ensures s.Valid() && s.harbor == 0 && fresh(s) && fresh(s.slot) && fresh(s.name)
    ensures s.slot[..] == THREE && s.handleIndex == 4
  {
    hide HandleStorage.Valid;
    s := new HandleStorage(0);
    RegisterAt(s, 1, 0);
    RegisterAt(s, 2, 0);
    RegisterAt(s, 3, 0);
  }

  lemma FourthSlot(m: nat)
    requires 0 < m <= 0x3f_ffff
    ensures TakesAt(THREE, if m == 1 then 4 else 4 * m - 3, 4 * m, if m == 1 then 0 else 3) && SlotOf(4 * m, 4) == 0
  {
    Remainder(4 * m, 4, m, 0);
    if m > 1 {
      Remainder(4 * m - 3, 4, m - 1, 1);
      Remainder(4 * m - 2, 4, m - 1, 2);
      Remainder(4 * m - 1, 4, m - 1, 3);
    }
  }

  lemma MissedSlot()
    ensures SearchFails(THREE, 0xff_fffd)
  {
    assert REMOTE == 0x40_0000 * 4;
    SearchFailsExactly(THREE, 0xff_fffd, 0x40_0000);
  }
}
