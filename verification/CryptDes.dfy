// DES as a cipher for texts: blocks, padding, and the way back. Nothing here depends on the contents of the
// S-boxes or on how a key becomes 32 subkeys, so both are parameters.
module CryptDes {
  import opened Wrappers

  type byte = bv8

  /** The tables SB1 to SB8, indexed by six bits. */
  datatype Boxes = Boxes(sb1: bv6 -> bv32, sb2: bv6 -> bv32, sb3: bv6 -> bv32, sb4: bv6 -> bv32,
                         sb5: bv6 -> bv32, sb6: bv6 -> bv32, sb7: bv6 -> bv32, sb8: bv6 -> bv32)

  /** The two halves of a block. */
  datatype Block = Block(x: bv32, y: bv32)

  // ----- bytes and words

  /** 'GET_UINT32' */
  function GetUint32(b: seq<byte>): bv32
    requires |b| == 4
  {
    ((b[0] as bv32) << 24) | ((b[1] as bv32) << 16) | ((b[2] as bv32) << 8) | (b[3] as bv32)
  }

  /** 'PUT_UINT32' */
  function PutUint32(n: bv32): (b: seq<byte>)
    ensures |b| == 4
  {
    [((n >> 24) & 0xFF) as byte, ((n >> 16) & 0xFF) as byte, ((n >> 8) & 0xFF) as byte, (n & 0xFF) as byte]
  }

  lemma GetPut(n: bv32)
    ensures GetUint32(PutUint32(n)) == n
  {
  }

  lemma PutGet(b: seq<byte>)
    requires |b| == 4
    ensures PutUint32(GetUint32(b)) == b
  {
    BytesOf(b[0], b[1], b[2], b[3]);
  }

  lemma BytesOf(a: byte, b: byte, c: byte, d: byte)
    ensures var n := ((a as bv32) << 24) | ((b as bv32) << 16) | ((c as bv32) << 8) | (d as bv32);
      && ((n >> 24) & 0xFF) as byte == a && ((n >> 16) & 0xFF) as byte == b
      && ((n >> 8) & 0xFF) as byte == c && (n & 0xFF) as byte == d
  {
  }

  // ----- one block

  // The lines of 'DES_IP' and 'DES_FP'. Each exchanges some bits between the halves, or rotates one of them.

  function Swap4(b: Block): Block {
    var t := ((b.x >> 4) ^ b.y) & 0x0F0F0F0F;
    Block(b.x ^ (t << 4), b.y ^ t)
  }

  function Swap16(b: Block): Block {
    var t := ((b.x >> 16) ^ b.y) & 0x0000FFFF;
    Block(b.x ^ (t << 16), b.y ^ t)
  }

  function Swap2(b: Block): Block {
    var t := ((b.y >> 2) ^ b.x) & 0x33333333;
    Block(b.x ^ t, b.y ^ (t << 2))
  }

  function Swap8(b: Block): Block {
    var t := ((b.y >> 8) ^ b.x) & 0x00FF00FF;
    Block(b.x ^ t, b.y ^ (t << 8))
  }

  function SwapOdd(b: Block): Block {
    var t := (b.x ^ b.y) & 0xAAAAAAAA;
    Block(b.x ^ t, b.y ^ t)
  }

  function Left(n: bv32): bv32 {
    (n << 1) | (n >> 31)
  }

  function Right(n: bv32): bv32 {
    (n << 31) | (n >> 1)
  }

  /** 'DES_IP' */
  function InitialPermutation(b: Block): Block {
    var c := Swap8(Swap2(Swap16(Swap4(b))));
    var d := SwapOdd(c.(y := Left(c.y)));
    d.(x := Left(d.x))
  }

  /** 'DES_FP' */
  function FinalPermutation(b: Block): Block {
    var d := SwapOdd(b.(x := Right(b.x)));
    var c := d.(y := Right(d.y));
    Swap4(Swap16(Swap2(Swap8(c))))
  }

  lemma Swap4Twice(b: Block) ensures Swap4(Swap4(b)) == b {}
  lemma Swap16Twice(b: Block) ensures Swap16(Swap16(b)) == b {}
  lemma Swap2Twice(b: Block) ensures Swap2(Swap2(b)) == b {}
  lemma Swap8Twice(b: Block) ensures Swap8(Swap8(b)) == b {}
  lemma SwapOddTwice(b: Block) ensures SwapOdd(SwapOdd(b)) == b {}
  lemma Rotated(n: bv32) ensures Right(Left(n)) == n && Left(Right(n)) == n {}

  lemma FinalUndoesInitial(b: Block)
    ensures FinalPermutation(InitialPermutation(b)) == b
  {
    hide Swap4, Swap16, Swap2, Swap8, SwapOdd, Left, Right;
    Swap4Twice(b);
    Swap16Twice(Swap4(b));
    Swap2Twice(Swap16(Swap4(b)));
    Swap8Twice(Swap2(Swap16(Swap4(b))));
    var c := Swap8(Swap2(Swap16(Swap4(b))));
    var d := SwapOdd(c.(y := Left(c.y)));
    Rotated(c.y);
    SwapOddTwice(c.(y := Left(c.y)));
    Rotated(d.x);
  }

  lemma InitialUndoesFinal(b: Block)
    ensures InitialPermutation(FinalPermutation(b)) == b
  {
    hide Swap4, Swap16, Swap2, Swap8, SwapOdd, Left, Right;
    var d := SwapOdd(b.(x := Right(b.x)));
    var c := d.(y := Right(d.y));
    Rotated(b.x);
    SwapOddTwice(b.(x := Right(b.x)));
    Rotated(d.y);
    Swap8Twice(c);
    Swap2Twice(Swap8(c));
    Swap16Twice(Swap2(Swap8(c)));
    Swap4Twice(Swap16(Swap2(Swap8(c))));
  }

  /** What 'DES_ROUND' with two subkeys xors into the other half. */
  function Mixed(s: Boxes, k0: bv32, k1: bv32, x: bv32): bv32 {
    var t := Xor(k0, x);
    var u := Xor(k1, Turned(x));
    Mixture(s.sb8(Window0(t)), s.sb6(Window8(t)), s.sb4(Window16(t)), s.sb2(Window24(t)),
            s.sb7(Window0(u)), s.sb5(Window8(u)), s.sb3(Window16(u)), s.sb1(Window24(u)))
  }

  function Turned(x: bv32): bv32 {
    (x << 28) | (x >> 4)
  }

  // The windows of six bits.
  function Window24(t: bv32): bv6 { ((t >> 24) & 0x3F) as bv6 }
  function Window16(t: bv32): bv6 { ((t >> 16) & 0x3F) as bv6 }
  function Window8(t: bv32): bv6 { ((t >> 8) & 0x3F) as bv6 }
  function Window0(t: bv32): bv6 { (t & 0x3F) as bv6 }

  function Mixture(a: bv32, b: bv32, c: bv32, d: bv32, e: bv32, f: bv32, g: bv32, h: bv32): bv32 {
    a ^ b ^ c ^ d ^ e ^ f ^ g ^ h
  }

  function Xor(a: bv32, b: bv32): bv32 {
    a ^ b
  }

  /** 'DES_ROUND(Y, X); DES_ROUND(X, Y);' */
  function TwoRounds(s: Boxes, k: seq<bv32>, b: Block): Block
    requires |k| == 4
  {
    var x := Xor(b.x, Mixed(s, k[0], k[1], b.y));
    Block(x, Xor(b.y, Mixed(s, k[2], k[3], x)))
  }

  /** The rounds of a block, two for four subkeys. */
  function Rounds(s: Boxes, k: seq<bv32>, b: Block): Block
    requires |k| % 4 == 0
  {
    if k == [] then b else FourLess(k); Rounds(s, k[4..], TwoRounds(s, k[..4], b))
  }

  lemma FourLess<T>(k: seq<T>)
    requires |k| % 4 == 0 && k != []
    ensures |k| >= 4 && |k[4..]| % 4 == 0 && |k[4..]| % 2 == 0 && |k| % 2 == 0 && |k[2..]| % 2 == 0
  {
  }

  lemma Quarters<T>(k: seq<T>)
    requires |k| >= 4
    ensures k == k[..4] + k[4..] && k[2..][2..] == k[4..] && k[2..][0] == k[2] && k[2..][1] == k[3]
    ensures k[..4][0] == k[0] && k[..4][1] == k[1] && k[..4][2] == k[2] && k[..4][3] == k[3]
  {
  }

  /** 'des_crypt' */
  function Crypt(s: Boxes, k: seq<bv32>, input: seq<byte>): (output: seq<byte>)
    requires |k| == 32 && |input| == 8
    ensures |output| == 8
  {
    var b := Rounds(s, k, InitialPermutation(Block(GetUint32(input[..4]), GetUint32(input[4..]))));
    var f := FinalPermutation(Block(b.y, b.x));
    PutUint32(f.x) + PutUint32(f.y)
  }

  // ----- as FIPS PUB 46-3 has it; the code keeps both halves rotated by one bit during the rounds

  /** The low byte of n has bit m of each byte of the block, from the last byte to the first. */
  predicate IsRow(n: bv32, b: Block, m: bv32) {
    && (n & 0x80 != 0 <==> b.y & m != 0) && (n & 0x40 != 0 <==> (b.y >> 8) & m != 0)
    && (n & 0x20 != 0 <==> (b.y >> 16) & m != 0) && (n & 0x10 != 0 <==> (b.y >> 24) & m != 0)
    && (n & 0x08 != 0 <==> b.x & m != 0) && (n & 0x04 != 0 <==> (b.x >> 8) & m != 0)
    && (n & 0x02 != 0 <==> (b.x >> 16) & m != 0) && (n & 0x01 != 0 <==> (b.x >> 24) & m != 0)
  }

  /** The table IP, row by row: the left half has the even bits of the bytes, the right half the odd ones. */
  lemma InitialIsTable(b: Block)
    ensures var l := Right(InitialPermutation(b).x);
      IsRow(l >> 24, b, 0x40) && IsRow(l >> 16, b, 0x10) && IsRow(l >> 8, b, 0x04) && IsRow(l, b, 0x01)
    ensures var r := Right(InitialPermutation(b).y);
      IsRow(r >> 24, b, 0x80) && IsRow(r >> 16, b, 0x20) && IsRow(r >> 8, b, 0x08) && IsRow(r, b, 0x02)
  {
    hide *;
    LeftRow1(b);
    LeftRow2(b);
    LeftRow3(b);
    LeftRow4(b);
    RightRow1(b);
    RightRow2(b);
    RightRow3(b);
    RightRow4(b);
  }

  lemma LeftRow1(b: Block) ensures IsRow(Right(InitialPermutation(b).x) >> 24, b, 0x40) {}
  lemma LeftRow2(b: Block) ensures IsRow(Right(InitialPermutation(b).x) >> 16, b, 0x10) {}
  lemma LeftRow3(b: Block) ensures IsRow(Right(InitialPermutation(b).x) >> 8, b, 0x04) {}
  lemma LeftRow4(b: Block) ensures IsRow(Right(InitialPermutation(b).x), b, 0x01) {}
  lemma RightRow1(b: Block) ensures IsRow(Right(InitialPermutation(b).y) >> 24, b, 0x80) {}
  lemma RightRow2(b: Block) ensures IsRow(Right(InitialPermutation(b).y) >> 16, b, 0x20) {}
  lemma RightRow3(b: Block) ensures IsRow(Right(InitialPermutation(b).y) >> 8, b, 0x08) {}
  lemma RightRow4(b: Block) ensures IsRow(Right(InitialPermutation(b).y), b, 0x02) {}

  /** The six bits of a word that end at bit e, where bit 1 is the highest and comes after bit 32. */
  function Six(n: bv32, e: nat): bv6
    requires 0 < e <= 32
  {
    (((n << e) | (n >> (32 - e))) & 0x3F) as bv6
  }

  /** The table E and the use of the S-boxes: box k sees the six bits that end at bit 4k + 1 of the half, xored with
      its six bits of the subkeys, which the code keeps in bytes, those of the odd boxes in the second word. */
  lemma MixedIsTable(s: Boxes, k0: bv32, k1: bv32, r: bv32)
    ensures Mixed(s, k0, k1, Left(r))
         == Mixture(s.sb1(Six(r, 5) ^ Six(k1, 8)), s.sb2(Six(r, 9) ^ Six(k0, 8)),
                    s.sb3(Six(r, 13) ^ Six(k1, 16)), s.sb4(Six(r, 17) ^ Six(k0, 16)),
                    s.sb5(Six(r, 21) ^ Six(k1, 24)), s.sb6(Six(r, 25) ^ Six(k0, 24)),
                    s.sb7(Six(r, 29) ^ Six(k1, 32)), s.sb8(Six(r, 1) ^ Six(k0, 32)))
  {
    hide Six, Left, Window24, Window16, Window8, Window0, Turned, Xor, Mixture;
    SeenFirst(k0, r);
    SeenSecond(k1, r);
    var t, u := Xor(k0, Left(r)), Xor(k1, Turned(Left(r)));
    AnyOrder(s.sb1(Window24(u)), s.sb2(Window24(t)), s.sb3(Window16(u)), s.sb4(Window16(t)),
             s.sb5(Window8(u)), s.sb6(Window8(t)), s.sb7(Window0(u)), s.sb8(Window0(t)));
  }

  lemma SeenFirst(k: bv32, r: bv32)
    ensures var t := Xor(k, Left(r));
      && Window24(t) == Six(r, 9) ^ Six(k, 8) && Window16(t) == Six(r, 17) ^ Six(k, 16)
      && Window8(t) == Six(r, 25) ^ Six(k, 24) && Window0(t) == Six(r, 1) ^ Six(k, 32)
  {
    hide *;
    HalfWindows(r);
    KeyWindows(k);
    WindowsXor(k, Left(r));
    Flipped(Six(k, 8), Six(r, 9));
    Flipped(Six(k, 16), Six(r, 17));
    Flipped(Six(k, 24), Six(r, 25));
    Flipped(Six(k, 32), Six(r, 1));
  }

  lemma SeenSecond(k: bv32, r: bv32)
    ensures var u := Xor(k, Turned(Left(r)));
      && Window24(u) == Six(r, 5) ^ Six(k, 8) && Window16(u) == Six(r, 13) ^ Six(k, 16)
      && Window8(u) == Six(r, 21) ^ Six(k, 24) && Window0(u) == Six(r, 29) ^ Six(k, 32)
  {
    hide *;
    TurnedWindows(r);
    KeyWindows(k);
    WindowsXor(k, Turned(Left(r)));
    Flipped(Six(k, 8), Six(r, 5));
    Flipped(Six(k, 16), Six(r, 13));
    Flipped(Six(k, 24), Six(r, 21));
    Flipped(Six(k, 32), Six(r, 29));
  }

  lemma Flipped(a: bv6, b: bv6)
    ensures a ^ b == b ^ a
  {
  }

  lemma WindowsXor(a: bv32, b: bv32)
    ensures Window24(Xor(a, b)) == Window24(a) ^ Window24(b) && Window16(Xor(a, b)) == Window16(a) ^ Window16(b)
    ensures Window8(Xor(a, b)) == Window8(a) ^ Window8(b) && Window0(Xor(a, b)) == Window0(a) ^ Window0(b)
  {
    hide *;
    WindowXor24(a, b);
    WindowXor16(a, b);
    WindowXor8(a, b);
    WindowXor0(a, b);
  }

  lemma WindowXor24(a: bv32, b: bv32) ensures Window24(Xor(a, b)) == Window24(a) ^ Window24(b) {}
  lemma WindowXor16(a: bv32, b: bv32) ensures Window16(Xor(a, b)) == Window16(a) ^ Window16(b) {}
  lemma WindowXor8(a: bv32, b: bv32) ensures Window8(Xor(a, b)) == Window8(a) ^ Window8(b) {}
  lemma WindowXor0(a: bv32, b: bv32) ensures Window0(Xor(a, b)) == Window0(a) ^ Window0(b) {}

  lemma KeyWindows(k: bv32)
    ensures Window24(k) == Six(k, 8) && Window16(k) == Six(k, 16) && Window8(k) == Six(k, 24) && Window0(k) == Six(k, 32)
  {
  }

  lemma HalfWindows(r: bv32)
    ensures Window24(Left(r)) == Six(r, 9) && Window16(Left(r)) == Six(r, 17)
    ensures Window8(Left(r)) == Six(r, 25) && Window0(Left(r)) == Six(r, 1)
  {
  }

  lemma TurnedWindows(r: bv32)
    ensures Window24(Turned(Left(r))) == Six(r, 5) && Window16(Turned(Left(r))) == Six(r, 13)
    ensures Window8(Turned(Left(r))) == Six(r, 21) && Window0(Turned(Left(r))) == Six(r, 29)
  {
  }

  lemma AnyOrder(a: bv32, b: bv32, c: bv32, d: bv32, e: bv32, f: bv32, g: bv32, h: bv32)
    ensures Mixture(h, f, d, b, g, e, c, a) == Mixture(a, b, c, d, e, f, g, h)
  {
  }

  /** One round after the other, with the halves exchanged each time. */
  function Feistel(s: Boxes, k: seq<bv32>, l: bv32, r: bv32): (bv32, bv32)
    requires |k| % 2 == 0
  {
    if k == [] then (l, r) else Feistel(s, k[2..], r, Xor(l, Mixed(s, k[0], k[1], r)))
  }

  lemma TwoStandard(s: Boxes, k: seq<bv32>, k1: seq<bv32>, k2: seq<bv32>, b: Block)
    requires |k| % 2 == 0 && |k1| % 2 == 0 && |k2| % 2 == 0 && |k| >= 2 && k1 == k[2..] && |k1| >= 2 && k2 == k1[2..]
    ensures var x := Xor(b.x, Mixed(s, k[0], k[1], b.y));
      Feistel(s, k, b.x, b.y) == Feistel(s, k2, x, Xor(b.y, Mixed(s, k1[0], k1[1], x)))
  {
    hide *;
    FeistelNext(s, k, b.x, b.y);
    FeistelNext(s, k1, b.y, Xor(b.x, Mixed(s, k[0], k[1], b.y)));
  }

  lemma TwoRoundsAre(s: Boxes, k: seq<bv32>, b: Block)
    requires |k| >= 4
    ensures var x := Xor(b.x, Mixed(s, k[0], k[1], b.y));
      TwoRounds(s, k[..4], b) == Block(x, Xor(b.y, Mixed(s, k[2], k[3], x)))
  {
    hide Xor, Mixed;
    Quarters(k);
  }

  lemma FeistelNext(s: Boxes, k: seq<bv32>, l: bv32, r: bv32)
    requires |k| % 2 == 0 && k != []
    ensures Feistel(s, k, l, r) == Feistel(s, k[2..], r, Xor(l, Mixed(s, k[0], k[1], r)))
  {
    hide Mixed, Xor;
  }

  /** The rounds, two at a time and in place, are the rounds of the standard. */
  lemma {:induction false} RoundsAreFeistel(s: Boxes, k: seq<bv32>, b: Block)
    requires |k| % 4 == 0
    ensures var (l, r) := Feistel(s, k, b.x, b.y); Rounds(s, k, b) == Block(l, r)
    decreases |k|
  {
    if k != [] {
      hide TwoRounds, Feistel, Mixed, Xor;
      RoundsAreFeistel(s, k[4..], TwoRounds(s, k[..4], b));
      FourLess(k);
      Quarters(k);
      TwoStandard(s, k, k[2..], k[4..], b);
      TwoRoundsAre(s, k, b);
      RoundsNext(s, k, b);
    }
  }

  // ----- back

  /** The subkeys in the order in which decoding uses them: the pairs from behind. */
  function Backwards(k: seq<bv32>): (r: seq<bv32>)
    requires |k| % 2 == 0
    ensures |r| == |k|
  {
    if k == [] then [] else Backwards(k[2..]) + k[..2]
  }

  /** The loop that reverses the subkeys. */
  method ReverseKeys(esk: seq<bv32>) returns (sk: seq<bv32>)
    requires |esk| == 32
    ensures sk == Backwards(esk)
  {
    hide Backwards;
    var a := new bv32[32];
    var i := 0;
    NoKeys(esk[32..]);
    while i < 32
      invariant 0 <= i <= 32 && i % 2 == 0 && a[..i] == Backwards(esk[32 - i..])
    {
      ghost var before := a[..i];
      a[i] := esk[30 - i];
      a[i + 1] := esk[31 - i];
      PairBefore(esk, 30 - i);
      assert a[..i + 2] == before + [esk[30 - i], esk[31 - i]];
      i := i + 2;
    }
    assert esk[0..] == esk && a[..32] == a[..];
    sk := a[..];
  }

  lemma NoKeys(k: seq<bv32>)
    requires k == []
    ensures Backwards(k) == []
  {
  }

  lemma PairBefore(k: seq<bv32>, i: nat)
    requires |k| % 2 == 0 && i % 2 == 0 && i + 2 <= |k|
    ensures Backwards(k[i..]) == Backwards(k[i + 2..]) + [k[i], k[i + 1]]
  {
    hide Backwards;
    BackwardsNext(k[i..]);
    assert k[i..][2..] == k[i + 2..] && k[i..][..2] == [k[i], k[i + 1]];
  }

  lemma BackwardsNext(k: seq<bv32>)
    requires |k| % 2 == 0 && k != []
    ensures Backwards(k) == Backwards(k[2..]) + k[..2]
  {
  }

  lemma {:induction false} BackwardsAppend(a: seq<bv32>, b: seq<bv32>)
    requires |a| % 2 == 0 && |b| % 2 == 0
    ensures Backwards(a + b) == Backwards(b) + Backwards(a)
  {
    if a == [] {
      assert a + b == b;
    } else {
      BackwardsAppend(a[2..], b);
      BackwardsNext(a);
      BackwardsNext(a + b);
      hide Backwards;
      assert (a + b)[2..] == a[2..] + b && (a + b)[..2] == a[..2];
    }
  }

  lemma BackwardsFour(k: seq<bv32>)
    requires |k| == 4
    ensures Backwards(k) == [k[2], k[3], k[0], k[1]]
  {
    assert Backwards(k[2..]) == Backwards(k[2..][2..]) + k[2..][..2];
  }

  lemma FirstFour(k: seq<bv32>, l: seq<bv32>)
    requires |k| % 4 == 0 && k != [] && |l| % 4 == 0
    ensures (k + l)[4..] == k[4..] + l && (k + l)[..4] == k[..4] && |k[4..]| % 4 == 0 && |k + l| % 4 == 0
  {
  }

  lemma BackwardsOfFour(k: seq<bv32>)
    requires |k| >= 4 && |k| % 2 == 0 && |k[4..]| % 2 == 0
    ensures Backwards(k) == Backwards(k[4..]) + Backwards(k[..4])
  {
    hide Backwards;
    Quarters(k);
    var a, b := k[..4], k[4..];
    BackwardsAppend(a, b);
    assert Backwards(a + b) == Backwards(k);
  }

  lemma RoundsNext(s: Boxes, k: seq<bv32>, b: Block)
    requires |k| % 4 == 0 && k != []
    ensures Rounds(s, k, b) == Rounds(s, k[4..], TwoRounds(s, k[..4], b))
  {
  }

  lemma RoundsOnce(s: Boxes, k: seq<bv32>, b: Block)
    requires |k| == 4
    ensures Rounds(s, k, b) == TwoRounds(s, k, b)
  {
    hide TwoRounds;
    assert k[..4] == k && k[4..] == [];
  }

  lemma {:induction false} RoundsAppend(s: Boxes, k: seq<bv32>, l: seq<bv32>, b: Block)
    requires |k| % 4 == 0 && |l| % 4 == 0
    ensures Rounds(s, k + l, b) == Rounds(s, l, Rounds(s, k, b))
    decreases |k|
  {
    if k == [] {
      assert k + l == l;
    } else {
      hide TwoRounds, Rounds;
      FirstFour(k, l);
      RoundsNext(s, k, b);
      RoundsNext(s, k + l, b);
      RoundsAppend(s, k[4..], l, TwoRounds(s, k[..4], b));
    }
  }

  function Swapped(b: Block): Block {
    Block(b.y, b.x)
  }

  lemma XorBack(a: bv32, b: bv32)
    ensures Xor(Xor(a, b), b) == a
  {
  }

  lemma TwoBack(s: Boxes, k: seq<bv32>, b: Block)
    requires |k| == 4
    ensures TwoRounds(s, Backwards(k), Swapped(TwoRounds(s, k, b))) == Swapped(b)
  {
    hide Mixed, Xor;
    BackwardsFour(k);
    var x := Xor(b.x, Mixed(s, k[0], k[1], b.y));
    XorBack(b.y, Mixed(s, k[2], k[3], x));
    XorBack(b.x, Mixed(s, k[0], k[1], b.y));
  }

  /** The rounds with the subkeys backwards undo the rounds, with the halves exchanged. */
  lemma {:induction false} RoundsBack(s: Boxes, k: seq<bv32>, b: Block)
    requires |k| % 4 == 0
    ensures Rounds(s, Backwards(k), Swapped(Rounds(s, k, b))) == Swapped(b)
    decreases |k|
  {
    if k != [] {
      hide TwoRounds, Swapped, Rounds, Backwards;
      var c := TwoRounds(s, k[..4], b);
      FourLess(k);
      RoundsBack(s, k[4..], c);
      RoundsNext(s, k, b);
      BackwardsOfFour(k);
      RoundsAppend(s, Backwards(k[4..]), Backwards(k[..4]), Swapped(Rounds(s, k[4..], c)));
      TwoBack(s, k[..4], b);
      RoundsOnce(s, Backwards(k[..4]), Swapped(c));
    }
  }

  /** Decoding a block with the same subkeys backwards gives the block back. */
  lemma CryptBack(s: Boxes, k: seq<bv32>, input: seq<byte>)
    requires |k| == 32 && |input| == 8
    ensures Crypt(s, Backwards(k), Crypt(s, k, input)) == input
  {
    hide GetUint32, PutUint32, InitialPermutation, FinalPermutation, Rounds, Backwards;
    var start := Block(GetUint32(input[..4]), GetUint32(input[4..]));
    var b := Rounds(s, k, InitialPermutation(start));
    var f := FinalPermutation(Swapped(b));
    var output := PutUint32(f.x) + PutUint32(f.y);
    assert Crypt(s, k, input) == output && output[..4] == PutUint32(f.x) && output[4..] == PutUint32(f.y);
    GetPut(f.x);
    GetPut(f.y);
    InitialUndoesFinal(Swapped(b));
    FinalUndoesInitial(start);
    RoundsBack(s, k, InitialPermutation(start));
    PutGet(input[..4]);
    PutGet(input[4..]);
    assert input == input[..4] + input[4..];
  }

  // ----- padding

  datatype Mode = Iso7816 | Pkcs7

  /** 'padding_add_iso7816_4' and 'padding_add_pkcs7': what comes behind the last offset bytes. */
  function Padding(mode: Mode, offset: nat): (p: seq<byte>)
    requires offset < 8
    ensures |p| == 8 - offset
  {
    if mode == Iso7816 then [0x80] + seq(7 - offset, _ => 0) else seq(8 - offset, _ => (8 - offset) as byte)
  }

  lemma PaddingKnown()
    ensures Padding(Iso7816, 5) == [0x80, 0, 0] && Padding(Iso7816, 7) == [0x80]
    ensures Padding(Pkcs7, 5) == [3, 3, 3] && Padding(Pkcs7, 0) == [8, 8, 8, 8, 8, 8, 8, 8]
  {
  }

  /** 'padding_remove_iso7816_4' from the byte i places before the last. */
  function IsoPadding(b: seq<byte>, i: nat): nat
    requires |b| >= 8 && i <= 8
    decreases 8 - i
  {
    if i == 8 then 0
    else if b[|b| - 1 - i] == 0 then IsoPadding(b, i + 1)
    else if b[|b| - 1 - i] == 0x80 then i + 1 else 0
  }

  method PaddingRemoveIso(b: seq<byte>) returns (padding: nat)
    requires |b| >= 8
    ensures padding == IsoPadding(b, 0)
  {
    padding := 1;
    for i := 0 to 8
      invariant padding == i + 1 && IsoPadding(b, i) == IsoPadding(b, 0)
    {
      if b[|b| - 1 - i] == 0 {
        padding := padding + 1;
      } else if b[|b| - 1 - i] == 0x80 {
        return padding;
      } else {
        return 0;
      }
    }
    padding := 0;
  }

  /** 'padding_remove_pkcs7', which may look at bytes before the text if the last byte is larger than the text. */
  predicate SameLast(b: seq<byte>, n: nat)
    requires 0 < n <= |b|
  {
    forall k | |b| - n <= k < |b| :: b[k] == b[|b| - 1]
  }

  function Pkcs7Padding(b: seq<byte>): nat
    requires |b| >= 8
  {
    var padding := b[|b| - 1] as int;
    if padding > 8 || (padding > 0 && !SameLast(b, padding)) then 0 else padding
  }

  /** A padding of more than 8 is an error whatever the loop finds, so that it need not run. */
  method PaddingRemovePkcs7(b: seq<byte>) returns (padding: nat)
    requires |b| >= 8
    ensures padding == Pkcs7Padding(b)
  {
    padding := b[|b| - 1] as int;
    if padding > 8 {
      return 0;
    }
    var i := 1;
    while i < padding
      invariant 1 <= i && (i <= padding || padding == 0) && (padding > 0 ==> SameLast(b, i))
    {
      if b[|b| - 1 - i] != b[|b| - 1] {
        return 0;
      }
      i := i + 1;
    }
  }

  function RemovePadding(mode: Mode, b: seq<byte>): nat
    requires |b| >= 8
  {
    if mode == Iso7816 then IsoPadding(b, 0) else Pkcs7Padding(b)
  }

  lemma {:induction false} IsoCounts(b: seq<byte>, n: nat, i: nat)
    requires |b| >= 8 && i <= n < 8
    requires b[|b| - 1 - n] == 0x80 && forall k | |b| - n <= k < |b| :: b[k] == 0
    ensures IsoPadding(b, i) == n + 1
    decreases n - i
  {
    if i < n { IsoCounts(b, n, i + 1); }
  }

  lemma ByteOf(n: nat)
    requires n <= 8
    ensures (n as byte) as int == n
  {
  }

  /** Padding is found again, whatever the text ends with. */
  lemma PaddingFound(mode: Mode, text: seq<byte>, offset: nat)
    requires offset < 8 && |text| % 8 == offset
    ensures RemovePadding(mode, text + Padding(mode, offset)) == 8 - offset
  {
    var b, n := text + Padding(mode, offset), 8 - offset;
    if mode == Iso7816 {
      IsoCounts(b, n - 1, 0);
    } else {
      ByteOf(n);
    }
  }

  // ----- texts

  /** What 'ldesencode' makes of a text: its blocks, and the rest with padding. */
  function Encoded(s: Boxes, k: seq<bv32>, mode: Mode, text: seq<byte>): seq<byte>
    requires |k| == 32
  {
    if |text| < 8 then Crypt(s, k, text + Padding(mode, |text|))
    else Crypt(s, k, text[..8]) + Encoded(s, k, mode, text[8..])
  }

  method DesEncode(s: Boxes, sk: seq<bv32>, mode: Mode, text: seq<byte>) returns (buffer: seq<byte>)
    requires |sk| == 32
    ensures buffer == Encoded(s, sk, mode, text)
  {
    hide Crypt, Padding;
    buffer := [];
    var i := 0;
    while i < |text| - 7
      invariant 0 <= i <= |text| && buffer + Encoded(s, sk, mode, text[i..]) == Encoded(s, sk, mode, text)
    {
      assert text[i..][..8] == text[i..i + 8] && text[i..][8..] == text[i + 8..];
      buffer := buffer + Crypt(s, sk, text[i..i + 8]);
      i := i + 8;
    }
    var tail := text[i..] + Padding(mode, |text| - i);
    buffer := buffer + Crypt(s, sk, tail);
  }

  /** All blocks of a text. */
  function Blocks(s: Boxes, k: seq<bv32>, text: seq<byte>): (r: seq<byte>)
    requires |k| == 32 && |text| % 8 == 0
    ensures |r| == |text|
  {
    if text == [] then [] else Crypt(s, k, text[..8]) + Blocks(s, k, text[8..])
  }

  function Decoded(s: Boxes, k: seq<bv32>, mode: Mode, text: seq<byte>): Result<seq<byte>>
    requires |k| == 32
  {
    if |text| % 8 != 0 || text == [] then Error else
      var b := Blocks(s, Backwards(k), text);
      var padding := RemovePadding(mode, b);
      if 0 < padding <= 8 then Ok(b[..|b| - padding]) else Error
  }

  /** The loop of 'ldesdecode' over the blocks. */
  method CryptBlocks(s: Boxes, sk: seq<bv32>, text: seq<byte>) returns (buffer: seq<byte>)
    requires |sk| == 32 && |text| % 8 == 0
    ensures buffer == Blocks(s, sk, text)
  {
    hide Crypt, Blocks;
    NoBlock(s, sk);
    assert text[0..] == text;
    buffer := [];
    var i := 0;
    while i < |text|
      invariant 0 <= i <= |text| && i % 8 == 0 && |buffer| == i
      invariant buffer + Blocks(s, sk, text[i..]) == Blocks(s, sk, text)
    {
      BlocksNext(s, sk, text[i..i + 8], text[i + 8..]);
      assert text[i..] == text[i..i + 8] + text[i + 8..];
      buffer := buffer + Crypt(s, sk, text[i..i + 8]);
      i := i + 8;
    }
    assert text[i..] == [];
  }

  method DesDecode(s: Boxes, esk: seq<bv32>, mode: Mode, text: seq<byte>) returns (r: Result<seq<byte>>)
    requires |esk| == 32
    ensures r == Decoded(s, esk, mode, text)
  {
    hide Crypt, Padding, IsoPadding, Pkcs7Padding;
    var sk := ReverseKeys(esk);
    if |text| % 8 != 0 || |text| == 0 {
      return Error;
    }
    var buffer := CryptBlocks(s, sk, text);
    var padding: nat;
    if mode == Iso7816 {
      padding := PaddingRemoveIso(buffer);
    } else {
      padding := PaddingRemovePkcs7(buffer);
    }
    if padding <= 0 || padding > 8 {
      return Error;
    }
    r := Ok(buffer[..|text| - padding]);
  }

  lemma {:induction false} BlocksBack(s: Boxes, k: seq<bv32>, mode: Mode, text: seq<byte>)
    requires |k| == 32
    ensures var e := Encoded(s, k, mode, text);
      |e| % 8 == 0 && |e| > |text| && Blocks(s, Backwards(k), e) == text + Padding(mode, |text| % 8)
    decreases |text|
  {
    hide Crypt, Padding, Backwards, Blocks;
    if |text| < 8 {
      CryptBack(s, k, text + Padding(mode, |text|));
      OneBlock(s, Backwards(k), Encoded(s, k, mode, text));
    } else {
      hide Encoded;
      CryptBack(s, k, text[..8]);
      BlocksBack(s, k, mode, text[8..]);
      BlocksNext(s, Backwards(k), Crypt(s, k, text[..8]), Encoded(s, k, mode, text[8..]));
      EncodedNext(s, k, mode, text);
      FirstEight(text, Padding(mode, |text| % 8));
    }
  }

  lemma EncodedNext(s: Boxes, k: seq<bv32>, mode: Mode, text: seq<byte>)
    requires |k| == 32 && |text| >= 8
    ensures Encoded(s, k, mode, text) == Crypt(s, k, text[..8]) + Encoded(s, k, mode, text[8..])
  {
  }

  lemma FirstEight(text: seq<byte>, more: seq<byte>)
    requires |text| >= 8
    ensures text[..8] + (text[8..] + more) == text + more && |text[8..]| % 8 == |text| % 8
  {
  }

  lemma OneBlock(s: Boxes, k: seq<bv32>, b: seq<byte>)
    requires |k| == 32 && |b| == 8
    ensures Blocks(s, k, b) == Crypt(s, k, b)
  {
    hide Crypt;
    assert b[..8] == b && b[8..] == [];
    NoBlock(s, k);
  }

  lemma NoBlock(s: Boxes, k: seq<bv32>)
    requires |k| == 32
    ensures Blocks(s, k, []) == []
  {
  }

  lemma BlocksNext(s: Boxes, k: seq<bv32>, b: seq<byte>, text: seq<byte>)
    requires |k| == 32 && |b| == 8 && |text| % 8 == 0
    ensures Blocks(s, k, b + text) == Crypt(s, k, b) + Blocks(s, k, text)
  {
    hide Crypt;
    assert (b + text)[..8] == b && (b + text)[8..] == text;
  }

  /** Every text comes back, with either padding. */
  lemma RoundTrip(s: Boxes, k: seq<bv32>, mode: Mode, text: seq<byte>)
    requires |k| == 32
    ensures Decoded(s, k, mode, Encoded(s, k, mode, text)) == Ok(text)
  {
    hide Encoded, Blocks, Padding, RemovePadding, Backwards;
    BlocksBack(s, k, mode, text);
    PaddingFound(mode, text, |text| % 8);
    assert (text + Padding(mode, |text| % 8))[..|text|] == text;
  }

  // ----- nothing else is accepted

  lemma {:induction false} BackwardsTwice(k: seq<bv32>)
    requires |k| % 2 == 0
    ensures Backwards(Backwards(k)) == k
  {
    if k != [] {
      hide Backwards;
      var a, b := k[..2], k[2..];
      BackwardsNext(k);
      BackwardsTwice(b);
      BackwardsAppend(Backwards(b), a);
      BackwardsTwo(a);
      Halves(k);
    }
  }

  lemma BackwardsTwo(k: seq<bv32>)
    requires |k| == 2
    ensures Backwards(k) == k
  {
    assert k[..2] == k && k[2..] == [];
    NoKeys(k[2..]);
  }

  lemma Halves<T>(k: seq<T>)
    requires |k| >= 2
    ensures k[..2] + k[2..] == k
  {
  }

  /** Encrypting undoes decrypting as well. */
  lemma {:induction false} BlocksForth(s: Boxes, k: seq<bv32>, text: seq<byte>)
    requires |k| == 32 && |text| % 8 == 0
    ensures Blocks(s, k, Blocks(s, Backwards(k), text)) == text
  {
    hide Crypt, Backwards, Blocks;
    if text == [] {
      NoBlock(s, k);
      NoBlock(s, Backwards(k));
    } else {
      var a, b := text[..8], text[8..];
      assert text == a + b;
      BlocksForth(s, k, b);
      BlocksNext(s, Backwards(k), a, b);
      BlocksNext(s, k, Crypt(s, Backwards(k), a), Blocks(s, Backwards(k), b));
      BackwardsTwice(k);
      CryptBack(s, Backwards(k), a);
    }
  }

  /** What is found as padding is padding. */
  lemma PaddingIs(mode: Mode, b: seq<byte>)
    requires |b| >= 8 && 0 < RemovePadding(mode, b) <= 8
    ensures var n := RemovePadding(mode, b); b[|b| - n..] == Padding(mode, 8 - n)
  {
    if mode == Iso7816 {
      IsoIs(b, 0);
    } else {
      LastByte(b[|b| - 1]);
    }
  }

  lemma LastByte(x: byte)
    requires x as int <= 8
    ensures (x as int) as byte == x
  {
  }

  lemma {:induction false} IsoIs(b: seq<byte>, i: nat)
    requires |b| >= 8 && i <= 8 && IsoPadding(b, i) > 0 && forall k | |b| - i <= k < |b| :: b[k] == 0
    ensures var n := IsoPadding(b, i); 0 < n <= 8 && b[|b| - n] == 0x80 && forall k | |b| - n < k < |b| :: b[k] == 0
    decreases 8 - i
  {
    if i < 8 && b[|b| - 1 - i] == 0 { IsoIs(b, i + 1); }
  }

  /** The blocks of a padded text are its encoding. */
  lemma {:induction false} EncodedIs(s: Boxes, k: seq<bv32>, mode: Mode, text: seq<byte>)
    requires |k| == 32
    ensures (|text| + |Padding(mode, |text| % 8)|) % 8 == 0
    ensures Blocks(s, k, text + Padding(mode, |text| % 8)) == Encoded(s, k, mode, text)
    decreases |text|
  {
    hide Crypt, Padding, Blocks;
    var p := Padding(mode, |text| % 8);
    if |text| < 8 {
      OneBlock(s, k, text + p);
    } else {
      hide Encoded;
      EncodedIs(s, k, mode, text[8..]);
      EncodedNext(s, k, mode, text);
      FirstEight(text, p);
      BlocksNext(s, k, text[..8], text[8..] + p);
    }
  }

  /** Decoding gives a text exactly for what encoding makes of that text: it fails for everything else. */
  lemma DecodesExactly(s: Boxes, k: seq<bv32>, mode: Mode, code: seq<byte>, text: seq<byte>)
    requires |k| == 32
    ensures Decoded(s, k, mode, code) == Ok(text) <==> code == Encoded(s, k, mode, text)
  {
    hide Decoded, Encoded;
    if code == Encoded(s, k, mode, text) { RoundTrip(s, k, mode, text); }
    if Decoded(s, k, mode, code) == Ok(text) { DecodedIsEncoded(s, k, mode, code, text); }
  }

  lemma DecodedIsEncoded(s: Boxes, k: seq<bv32>, mode: Mode, code: seq<byte>, text: seq<byte>)
    requires |k| == 32 && Decoded(s, k, mode, code) == Ok(text)
    ensures code == Encoded(s, k, mode, text)
  {
    hide Padding, Backwards, Blocks, Encoded, RemovePadding;
    var b := Blocks(s, Backwards(k), code);
    var n := RemovePadding(mode, b);
    PaddingIs(mode, b);
    Split(b, |b| - n);
    Rest8(|b|, n);
    BlocksForth(s, k, code);
    EncodedIs(s, k, mode, text);
  }

  lemma Split<T>(b: seq<T>, n: nat)
    requires n <= |b|
    ensures b == b[..n] + b[n..]
  {
  }

  lemma Rest8(l: nat, n: nat)
    requires l % 8 == 0 && 0 < n <= 8 && n <= l
    ensures (l - n) % 8 == 8 - n
  {
  }
}
