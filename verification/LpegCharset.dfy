// Character sets of LPeg: 32-byte bit maps, one bit for each of the 256 bytes.
module LpegCharset {

  type Byte = b: int | 0 <= b < 256

  const CHARSETSIZE := 32

  type Charset = cs: seq<bv8> | |cs| == CHARSETSIZE witness seq(CHARSETSIZE, _ => 0)

  /** What 'charsettype' reports about a set. */
  datatype Kind = Empty | Single(c: Byte) | Full | Generic

  // Bit k of a byte.
  predicate Bit(b: bv8, k: nat)
    requires k < 8
  {
    (b >> k) & 1 == 1
  }

  /** 'testchar': is c a member of cs? */
  predicate Has(cs: Charset, c: Byte) {
    Bit(cs[c / 8], c % 8)
  }

  predicate IsFull(cs: Charset) {
    forall c: Byte :: Has(cs, c)
  }

  lemma BitOps(a: bv8, b: bv8, k: nat)
    requires k < 8
    ensures Bit(a | b, k) <==> Bit(a, k) || Bit(b, k)
    ensures Bit(a & b, k) <==> Bit(a, k) && Bit(b, k)
    ensures Bit(0xFF ^ a, k) <==> !Bit(a, k)
    ensures Bit(0xFF, k) && !Bit(0, k)
  {
    if
    case k == 0 => case k == 1 => case k == 2 => case k == 3 =>
    case k == 4 => case k == 5 => case k == 6 => case k == 7 =>
  }

  // ----- byte-wise operations ('loopset' loops of the source)

  function Const(b: bv8): (r: Charset) {
    seq(CHARSETSIZE, _ => b)
  }

  /** 'fullset' */
  function FullSet(): (r: Charset)
    ensures IsFull(r)
  {
    var r := Const(0xFF);
    assert IsFull(r) by { forall c: Byte ensures Has(r, c) { BitOps(0, 0, c % 8); } }
    r
  }

  function EmptySet(): (r: Charset)
    ensures forall c: Byte :: !Has(r, c)
  {
    var r := Const(0);
    assert forall c: Byte :: !Has(r, c) by { forall c: Byte ensures !Has(r, c) { BitOps(0, 0, c % 8); } }
    r
  }

  function Union(a: Charset, b: Charset): (r: Charset)
    ensures forall c: Byte :: Has(r, c) <==> Has(a, c) || Has(b, c)
  {
    var r: Charset := seq(CHARSETSIZE, i requires 0 <= i < CHARSETSIZE => a[i] | b[i]);
    assert forall c: Byte :: Has(r, c) <==> Has(a, c) || Has(b, c) by {
      forall c: Byte ensures Has(r, c) <==> Has(a, c) || Has(b, c) { BitOps(a[c / 8], b[c / 8], c % 8); }
    }
    r
  }

  function Intersect(a: Charset, b: Charset): (r: Charset)
    ensures forall c: Byte :: Has(r, c) <==> Has(a, c) && Has(b, c)
  {
    var r: Charset := seq(CHARSETSIZE, i requires 0 <= i < CHARSETSIZE => a[i] & b[i]);
    assert forall c: Byte :: Has(r, c) <==> Has(a, c) && Has(b, c) by {
      forall c: Byte ensures Has(r, c) <==> Has(a, c) && Has(b, c) { BitOps(a[c / 8], b[c / 8], c % 8); }
    }
    r
  }

  /** 'cs_complement' */
  function Complement(a: Charset): (r: Charset)
    ensures forall c: Byte :: Has(r, c) <==> !Has(a, c)
  {
    var r: Charset := seq(CHARSETSIZE, i requires 0 <= i < CHARSETSIZE => 0xFF ^ a[i]);
    assert forall c: Byte :: Has(r, c) <==> !Has(a, c) by {
      forall c: Byte ensures Has(r, c) <==> !Has(a, c) { BitOps(a[c / 8], 0, c % 8); }
    }
    r
  }

  /** The set of one character ('setchar' on an empty set). */
  function Singleton(c: Byte): (r: Charset)
    ensures forall d: Byte :: Has(r, d) <==> d == c
  {
    var r: Charset := Const(0)[c / 8 := OneBit(c % 8)];
    assert forall d: Byte :: Has(r, d) <==> d == c by {
      forall d: Byte ensures Has(r, d) <==> d == c { BitOps(0, 0, d % 8); }
    }
    r
  }

  function OneBit(k: nat): (r: bv8)
    requires k < 8
    ensures forall j: nat | j < 8 :: Bit(r, j) <==> j == k
  {
    match k
    case 0 => 1 case 1 => 2 case 2 => 4 case 3 => 8
    case 4 => 16 case 5 => 32 case 6 => 64 case _ => 128
  }

  /** 'cs_disjoint' */
  predicate Disjoint(a: Charset, b: Charset)
    ensures Disjoint(a, b) ==> forall c: Byte :: !(Has(a, c) && Has(b, c))
  {
    var r := forall i | 0 <= i < CHARSETSIZE :: a[i] & b[i] == 0;
    assert r ==> forall c: Byte :: !(Has(a, c) && Has(b, c)) by {
      if r {
        forall c: Byte ensures !(Has(a, c) && Has(b, c)) {
          BitOps(a[c / 8], b[c / 8], c % 8);
          BitOps(0, 0, c % 8);
        }
      }
    }
    r
  }

  // ----- 'charsettype'

  ghost predicate IsSingle(cs: Charset, c: Byte) {
    forall d: Byte :: Has(cs, d) <==> d == c
  }

  /** What kind of set cs is, said of its members alone. */
  ghost function KindOf(cs: Charset): (k: Kind)
    ensures k.Empty? <==> forall c: Byte :: !Has(cs, c)
    ensures k.Full? <==> IsFull(cs)
    ensures forall c: Byte :: k == Single(c) <==> IsSingle(cs, c)
  {
    if forall c: Byte :: !Has(cs, c) then
      assert forall c: Byte :: IsSingle(cs, c) ==> Has(cs, c);
      assert !Has(cs, 0);
      Empty
    else if IsFull(cs) then
      assert Has(cs, 0) && Has(cs, 1);
      Full
    else if exists c: Byte :: IsSingle(cs, c) then
      var c: Byte :| IsSingle(cs, c);
      assert forall d: Byte :: IsSingle(cs, d) ==> Has(cs, d);
      Single(c)
    else
      Generic
  }

  lemma TwoMembersAndAHole(cs: Charset, i: nat, x: nat, j: nat, y: nat, l: nat, z: nat)
    requires i < CHARSETSIZE && j < CHARSETSIZE && l < CHARSETSIZE && x < 8 && y < 8 && z < 8
    requires (i != j || x != y) && Bit(cs[i], x) && Bit(cs[j], y) && !Bit(cs[l], z)
    ensures KindOf(cs) == Generic
  {
    assert (8 * i + x) / 8 == i && (8 * i + x) % 8 == x;
    assert (8 * j + y) / 8 == j && (8 * j + y) % 8 == y;
    assert (8 * l + z) / 8 == l && (8 * l + z) % 8 == z;
    assert Has(cs, 8 * i + x) && Has(cs, 8 * j + y) && !Has(cs, 8 * l + z);
  }

  // A byte that is neither 0, nor 0xFF, nor a power of two.
  lemma MixedByte(b: bv8) returns (x: nat, y: nat, z: nat)
    requires b != 0 && b != 0xFF && !AtMostOneBit(b)
    ensures x < 8 && y < 8 && z < 8 && x != y && Bit(b, x) && Bit(b, y) && !Bit(b, z)
  {
    x := FirstBit(b);
    z := FirstBit(0xFF ^ b);
    BitOps(b, 0, z);
    y := FirstBit(b & (b - 1));
    BitOps(b, b - 1, y);
    FirstBitIsCleared(b);
  }

  predicate AtMostOneBit(b: bv8) {
    b & (b - 1) == 0
  }

  // The first set bit of a non-zero byte.
  lemma FirstBit(b: bv8) returns (k: nat)
    requires b != 0
    ensures k < 8 && Bit(b, k) && forall j: nat | j < k :: !Bit(b, j)
  {
    if Bit(b, 0) { k := 0; }
    else if Bit(b, 1) { k := 1; }
    else if Bit(b, 2) { k := 2; }
    else if Bit(b, 3) { k := 3; }
    else if Bit(b, 4) { k := 4; }
    else if Bit(b, 5) { k := 5; }
    else if Bit(b, 6) { k := 6; }
    else { k := 7; }
  }

  lemma FirstBitIsCleared(b: bv8)
    requires b != 0
    ensures forall k: nat | k < 8 && Bit(b, k) && (forall j: nat | j < k :: !Bit(b, j)) :: !Bit(b & (b - 1), k)
  {
    forall k: nat | k < 8 && Bit(b, k) && (forall j: nat | j < k :: !Bit(b, j))
      ensures !Bit(b & (b - 1), k)
    {
      assert k > 0 ==> !Bit(b, 0);
      assert k > 1 ==> !Bit(b, 1);
      assert k > 2 ==> !Bit(b, 2);
      assert k > 3 ==> !Bit(b, 3);
      assert k > 4 ==> !Bit(b, 4);
      assert k > 5 ==> !Bit(b, 5);
      assert k > 6 ==> !Bit(b, 6);
      if
      case k == 0 => case k == 1 => case k == 2 => case k == 3 =>
      case k == 4 => case k == 5 => case k == 6 => case k == 7 =>
    }
  }

  /** The bit found by the three halving tests of 'charsettype'. */
  method BitIndex(b0: bv8) returns (k: nat)
    requires b0 != 0 && AtMostOneBit(b0)
    ensures k < 8 && forall j: nat | j < 8 :: Bit(b0, j) <==> j == k
  {
    var b := b0;
    k := 0;
    if b & 0xF0 != 0 { k := k + 4; b := b >> 4; }
    if b & 0x0C != 0 { k := k + 2; b := b >> 2; }
    if b & 0x02 != 0 { k := k + 1; }
    assert b0 == 1 || b0 == 2 || b0 == 4 || b0 == 8 || b0 == 16 || b0 == 32 || b0 == 64 || b0 == 128;
    assert forall j: nat | j < 8 :: Bit(OneBit(k), j) <==> j == k;
    assert OneBit(k) == b0;
  }

  // A byte that is full beside one that is not.
  lemma FullByteIsGeneric(cs: Charset, i: nat, l: nat)
    requires i < CHARSETSIZE && l < CHARSETSIZE && cs[i] == 0xFF && cs[l] != 0xFF
    ensures KindOf(cs) == Generic
  {
    var z := FirstBit(0xFF ^ cs[l]);
    BitOps(cs[l], 0, z);
    BitOps(0, 0, 0);
    BitOps(0, 0, 1);
    TwoMembersAndAHole(cs, i, 0, i, 1, l, z);
  }

  lemma TwoBytesAreGeneric(cs: Charset, i: nat, j: nat)
    requires i < CHARSETSIZE && j < CHARSETSIZE && i != j && cs[i] != 0 && cs[j] != 0 && cs[i] != 0xFF
    ensures KindOf(cs) == Generic
  {
    var x := FirstBit(cs[i]);
    var y := FirstBit(cs[j]);
    var z := FirstBit(0xFF ^ cs[i]);
    BitOps(cs[i], 0, z);
    TwoMembersAndAHole(cs, i, x, j, y, i, z);
  }

  lemma MixedByteIsGeneric(cs: Charset, i: nat)
    requires i < CHARSETSIZE && cs[i] != 0 && cs[i] != 0xFF && !AtMostOneBit(cs[i])
    ensures KindOf(cs) == Generic
  {
    var x, y, z := MixedByte(cs[i]);
    TwoMembersAndAHole(cs, i, x, i, y, i, z);
  }

  lemma OnlyByte(cs: Charset, i: nat, k: nat)
    requires i < CHARSETSIZE && k < 8
    requires forall j: nat | j < 8 :: Bit(cs[i], j) <==> j == k
    requires forall j | 0 <= j < CHARSETSIZE && j != i :: cs[j] == 0
    ensures KindOf(cs) == Single(8 * i + k)
  {
    forall d: Byte ensures Has(cs, d) <==> d == 8 * i + k {
      BitOps(0, 0, d % 8);
      assert d == 8 * (d / 8) + d % 8;
    }
    assert IsSingle(cs, 8 * i + k);
  }

  /** The one-pass scan of the source decides the kind of a set. */
  method CharsetType(cs: Charset) returns (r: Kind)
    ensures r == KindOf(cs)
  {
    hide Has, Bit, KindOf, AtMostOneBit;
    var count := 0;       // characters seen, while the set may still be empty, single or full
    var candidate := -1;  // byte that holds the only character
    var i := 0;
    while i < CHARSETSIZE
      invariant 0 <= i <= CHARSETSIZE
      invariant count == 0 || count == 1 || (count == 8 * i && i > 0)
      invariant count == 0 ==> forall j | 0 <= j < i :: cs[j] == 0
      invariant count == 1 ==> 0 <= candidate < i && cs[candidate] != 0 && cs[candidate] != 0xFF
      invariant count == 1 ==> AtMostOneBit(cs[candidate])
      invariant count == 1 ==> forall j | 0 <= j < i && j != candidate :: cs[j] == 0
      invariant count > 1 ==> forall j | 0 <= j < i :: cs[j] == 0xFF
    {
      var b := cs[i];
      if b == 0 {
        if count > 1 {
          FullByteIsGeneric(cs, 0, i);
          return Generic;
        }
      } else if b == 0xFF {
        if count < i * 8 {
          FullByteIsGeneric(cs, i, if count == 0 then 0 else candidate);
          return Generic;
        } else {
          count := count + 8;
        }
      } else if AtMostOneBit(b) {
        if count > 0 {
          TwoBytesAreGeneric(cs, i, if count == 1 then candidate else 0);
          return Generic;
        } else {
          count := count + 1;
          candidate := i;
        }
      } else {
        MixedByteIsGeneric(cs, i);
        return Generic;
      }
      i := i + 1;
    }
    if count == 0 {
      assert cs == EmptySet();
      return Empty;
    } else if count == 1 {
      var k := BitIndex(cs[candidate]);
      OnlyByte(cs, candidate, k);
      return Single(candidate * 8 + k);
    } else {
      assert cs == FullSet();
      return Full;
    }
  }
}
