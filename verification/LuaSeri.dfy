// The serializer for messages between services: values as bytes and back.
module LuaSeri {
  import opened Bytes

  type int64 = n: int | -0x8000_0000_0000_0000 <= n < 0x8000_0000_0000_0000

  /** A Lua value that can be sent. A table is its array part, which may have holes, and its other pairs in the
      order of iteration; reals and pointers are their eight bytes. */
  datatype Value =
    | Nil
    | Boolean(b: bool)
    | Integer(n: int64)
    | Real(bytes: seq<byte>)
    | Pointer(bytes: seq<byte>)
    | String(s: seq<byte>)
    | Table(arr: seq<Value>, hash: seq<Pair>)

  datatype Pair = Pair(key: Value, value: Value)

  const TYPE_NIL := 0
  const TYPE_BOOLEAN := 1
  const TYPE_NUMBER := 2
  const TYPE_NUMBER_ZERO := 0
  const TYPE_NUMBER_BYTE := 1
  const TYPE_NUMBER_WORD := 2
  const TYPE_NUMBER_DWORD := 4
  const TYPE_NUMBER_QWORD := 6
  const TYPE_NUMBER_REAL := 8
  const TYPE_USERDATA := 3
  const TYPE_SHORT_STRING := 4
  const TYPE_LONG_STRING := 5
  const TYPE_TABLE := 6
  const MAX_COOKIE := 32
  const MAX_DEPTH := 32

  /** What Lua itself guarantees: sizes that fit into an int, no nil among keys. */
  predicate WellFormed(v: Value) {
    match v
    case Nil => true
    case Boolean(_) => true
    case Integer(_) => true
    case Real(bytes) => |bytes| == 8
    case Pointer(bytes) => |bytes| == 8
    case String(s) => |s| < 0x8000_0000
    case Table(arr, hash) => |arr| < 0x8000_0000 && AllWellFormed(arr) && PairsWellFormed(hash)
  }

  predicate AllWellFormed(vs: seq<Value>) {
    forall v | v in vs :: WellFormed(v)
  }

  predicate PairsWellFormed(ps: seq<Pair>) {
    forall p | p in ps :: PairWellFormed(p)
  }

  predicate PairWellFormed(p: Pair) {
    WellFormed(p.key) && !p.key.Nil? && WellFormed(p.value)
  }

  // ----- packing

  /** 'COMBINE_TYPE' */
  function Combined(t: nat, v: nat): byte
    requires t < 8 && v < 32
  {
    t + 8 * v
  }

  /** The n bytes of a number in two's complement. */
  function Signed(v: int, n: nat): (x: seq<byte>)
    requires -(Pow256(n) as int) <= 2 * v && v < Pow256(n)
    ensures |x| == n
  {
    LowBytes(if v < 0 then v + Pow256(n) else v, n)
  }

  /** 'wb_integer': the shortest form. */
  function EncodedInteger(v: int64): seq<byte> {
    Powers();
    if v == 0 then [Combined(TYPE_NUMBER, TYPE_NUMBER_ZERO)]
    else if !(-0x8000_0000 <= v < 0x8000_0000) then [Combined(TYPE_NUMBER, TYPE_NUMBER_QWORD)] + Signed(v, 8)
    else if v < 0 then [Combined(TYPE_NUMBER, TYPE_NUMBER_DWORD)] + Signed(v, 4)
    else if v < 0x100 then [Combined(TYPE_NUMBER, TYPE_NUMBER_BYTE)] + Signed(v, 1)
    else if v < 0x1_0000 then [Combined(TYPE_NUMBER, TYPE_NUMBER_WORD)] + Signed(v, 2)
    else [Combined(TYPE_NUMBER, TYPE_NUMBER_DWORD)] + Signed(v, 4)
  }

  /** 'wb_string' */
  function EncodedString(s: seq<byte>): seq<byte>
    requires |s| < 0x8000_0000
  {
    if |s| < MAX_COOKIE then [Combined(TYPE_SHORT_STRING, |s|)] + s
    else Powers(); if |s| < 0x1_0000 then [Combined(TYPE_LONG_STRING, 2)] + Signed(|s|, 2) + s
    else [Combined(TYPE_LONG_STRING, 4)] + Signed(|s|, 4) + s
  }

  /** The beginning of 'wb_table_array'. */
  function EncodedSize(n: nat): seq<byte>
    requires n < 0x8000_0000
  {
    if n >= MAX_COOKIE - 1 then [Combined(TYPE_TABLE, MAX_COOKIE - 1)] + EncodedInteger(n) else [Combined(TYPE_TABLE, n)]
  }

  /** 'pack_one', with a depth that is not too large. */
  function Encoded(v: Value): seq<byte>
    requires WellFormed(v)
  {
    match v
    case Nil => [TYPE_NIL]
    case Boolean(b) => [Combined(TYPE_BOOLEAN, if b then 1 else 0)]
    case Integer(n) => EncodedInteger(n)
    case Real(bytes) => [Combined(TYPE_NUMBER, TYPE_NUMBER_REAL)] + bytes
    case Pointer(bytes) => [TYPE_USERDATA] + bytes
    case String(s) => EncodedString(s)
    case Table(arr, hash) => EncodedSize(|arr|) + EncodedList(arr) + EncodedPairs(hash) + [TYPE_NIL]
  }

  function EncodedList(vs: seq<Value>): seq<byte>
    requires AllWellFormed(vs)
  {
    if vs == [] then [] else Encoded(vs[0]) + EncodedList(vs[1..])
  }

  function EncodedPairs(ps: seq<Pair>): seq<byte>
    requires PairsWellFormed(ps)
  {
    if ps == [] then [] else EncodedPair(ps[0]) + EncodedPairs(ps[1..])
  }

  function EncodedPair(p: Pair): seq<byte>
    requires PairWellFormed(p)
  {
    Encoded(p.key) + Encoded(p.value)
  }

  /** Some values and their bytes: the type in the lower three bits of the first one. */
  lemma KnownBytes()
    ensures Encoded(Nil) == [0] && Encoded(Boolean(false)) == [1] && Encoded(Boolean(true)) == [9]
    ensures EncodedString([]) == [4] && EncodedString([65, 66]) == [20, 65, 66]
    ensures EncodedSize(0) == [6] && EncodedSize(1) == [14] && EncodedSize(31) == [254, 10, 31]
  {
    hide *;
    KnownLeaves();
    KnownSizes();
  }

  lemma KnownIntegers()
    ensures EncodedInteger(0) == [2] && EncodedInteger(200) == [10, 200] && EncodedInteger(1000) == [18, 0xE8, 3]
    ensures EncodedInteger(-1) == [34, 255, 255, 255, 255]
    ensures EncodedInteger(0x1_0000_0001) == [50, 1, 0, 0, 0, 1, 0, 0, 0]
  {
    hide *;
    KnownSmall();
    KnownMinus();
    KnownLarge();
  }

  lemma KnownLeaves()
    ensures Encoded(Nil) == [0] && Encoded(Boolean(false)) == [1] && Encoded(Boolean(true)) == [9]
    ensures EncodedString([]) == [4] && EncodedString([65, 66]) == [20, 65, 66]
  {
  }

  lemma KnownSizes()
    ensures EncodedSize(0) == [6] && EncodedSize(1) == [14] && EncodedSize(31) == [254, 10, 31]
  {
    hide LowBytes;
    Powers();
    One(31);
  }

  lemma KnownSmall()
    ensures EncodedInteger(0) == [2] && EncodedInteger(200) == [10, 200] && EncodedInteger(1000) == [18, 0xE8, 3]
  {
    hide LowBytes;
    Powers();
    One(200);
    Two(1000);
  }

  lemma KnownMinus()
    ensures EncodedInteger(-1) == [34, 255, 255, 255, 255]
  {
    hide LowBytes;
    Powers();
    Four(0xFFFF_FFFF);
  }

  lemma KnownLarge()
    ensures EncodedInteger(0x1_0000_0001) == [50, 1, 0, 0, 0, 1, 0, 0, 0]
  {
    hide LowBytes;
    Powers();
    Eight(0x1_0000_0001);
    Four(1);
  }

  lemma One(v: nat)
    requires v < 256
    ensures LowBytes(v, 1) == [v]
  {
  }

  lemma Two(v: nat)
    ensures LowBytes(v, 2) == [v % 256, v / 256 % 256]
  {
    assert LowBytes(v, 2) == [v % 256] + LowBytes(v / 256, 1);
  }

  lemma Four(v: nat)
    ensures LowBytes(v, 4) == [v % 256, v / 256 % 256, v / 256 / 256 % 256, v / 256 / 256 / 256 % 256]
  {
    assert LowBytes(v / 256 / 256, 2) == [v / 256 / 256 % 256] + LowBytes(v / 256 / 256 / 256, 1);
    assert LowBytes(v / 256, 3) == [v / 256 % 256] + LowBytes(v / 256 / 256, 2);
  }

  lemma Eight(v: nat)
    ensures LowBytes(v, 8) == [v % 256, v / 256 % 256, v / 256 / 256 % 256, v / 256 / 256 / 256 % 256]
                              + LowBytes(v / 256 / 256 / 256 / 256, 4)
  {
    var a, b, c := v / 256, v / 256 / 256, v / 256 / 256 / 256;
    assert LowBytes(c, 5) == [c % 256] + LowBytes(c / 256, 4);
    assert LowBytes(b, 6) == [b % 256] + LowBytes(c, 5);
    assert LowBytes(a, 7) == [a % 256] + LowBytes(b, 6);
  }

  // ----- how deep a value may be

  /** Whether 'pack_one' gets through, where depth counts the tables around a value. */
  predicate Packs(v: Value, depth: nat) {
    && depth <= MAX_DEPTH
    && (v.Table? ==> forall x | x in v.arr :: Packs(x, depth + 1))
    && (v.Table? ==> forall p | p in v.hash :: PairPacks(p, depth + 1))
  }

  predicate PairPacks(p: Pair, depth: nat) {
    Packs(p.key, depth) && Packs(p.value, depth)
  }

  function Max(a: nat, b: nat): nat {
    if a >= b then a else b
  }

  /** How many tables are around the innermost values. */
  function Height(v: Value): nat {
    if v.Table? then Max(ListHeight(v.arr), PairsHeight(v.hash)) else 0
  }

  function ListHeight(vs: seq<Value>): nat {
    if vs == [] then 0 else Max(1 + Height(vs[0]), ListHeight(vs[1..]))
  }

  function PairsHeight(ps: seq<Pair>): nat {
    if ps == [] then 0 else Max(1 + PairHeight(ps[0]), PairsHeight(ps[1..]))
  }

  function PairHeight(p: Pair): nat {
    Max(Height(p.key), Height(p.value))
  }

  /** Exactly the values with at most 32 tables around their innermost values can be packed. */
  lemma {:induction false} PacksExactly(v: Value, depth: nat)
    ensures Packs(v, depth) <==> depth + Height(v) <= MAX_DEPTH
    decreases v, 1
  {
    if v.Table? {
      ListExactly(v.arr, depth);
      PairsExactly(v.hash, depth);
    }
  }

  lemma {:induction false} ListExactly(vs: seq<Value>, depth: nat)
    ensures depth <= MAX_DEPTH ==> ((forall x | x in vs :: Packs(x, depth + 1)) <==> depth + ListHeight(vs) <= MAX_DEPTH)
    decreases vs, 0
  {
    if vs != [] {
      PacksExactly(vs[0], depth + 1);
      ListExactly(vs[1..], depth);
      assert vs[0] in vs && forall x :: x in vs <==> x == vs[0] || x in vs[1..];
    }
  }

  lemma {:induction false} PairsExactly(ps: seq<Pair>, depth: nat)
    ensures depth <= MAX_DEPTH ==>
      ((forall p | p in ps :: PairPacks(p, depth + 1)) <==> depth + PairsHeight(ps) <= MAX_DEPTH)
    decreases ps, 0
  {
    if ps != [] {
      PairExactly(ps[0], depth + 1);
      PairsExactly(ps[1..], depth);
      assert ps[0] in ps && forall p :: p in ps <==> p == ps[0] || p in ps[1..];
    }
  }

  lemma {:induction false} PairExactly(p: Pair, depth: nat)
    ensures PairPacks(p, depth) <==> depth + PairHeight(p) <= MAX_DEPTH
    decreases p, 0
  {
    PacksExactly(p.key, depth);
    PacksExactly(p.value, depth);
  }

  // ----- unpacking

  datatype Result<T> = Ok(value: T, rest: seq<byte>) | Invalid

  /** 'rb_read' */
  function Read(b: seq<byte>, n: nat): Result<seq<byte>> {
    if |b| < n then Invalid else Ok(b[..n], b[n..])
  }

  /** An n-byte number in two's complement. */
  function FromSigned(x: seq<byte>): int {
    if 2 * Number(x) >= Pow256(|x|) then Number(x) - Pow256(|x|) else Number(x)
  }

  /** 'get_integer': one and two bytes without sign, four and eight with sign. */
  function GetInteger(b: seq<byte>, cookie: nat): Result<int64> {
    Powers();
    if cookie == TYPE_NUMBER_ZERO then Ok(0, b) else
      var n := if cookie == TYPE_NUMBER_BYTE then 1 else if cookie == TYPE_NUMBER_WORD then 2
               else if cookie == TYPE_NUMBER_DWORD then 4 else if cookie == TYPE_NUMBER_QWORD then 8 else 0;
      if n == 0 || |b| < n then Invalid else NumberBound(b[..n]); Ok(if n <= 2 then Number(b[..n]) else FromSigned(b[..n]), b[n..])
  }

  /** 'get_buffer' behind a length of n bytes. */
  function GetLongString(b: seq<byte>, n: nat): Result<Value> {
    match Read(b, n)
    case Invalid => Invalid
    case Ok(x, rest) =>
      match Read(rest, Number(x))
      case Invalid => Invalid
      case Ok(s, rest2) => Ok(String(s), rest2)
  }

  /** 'unpack_one' */
  function UnpackOne(b: seq<byte>): (r: Result<Value>)
    ensures r.Ok? ==> |r.rest| < |b|
    decreases |b|, 1
  {
    if b == [] then Invalid else PushValue(b[1..], b[0] as int % 8, b[0] as int / 8)
  }

  /** 'push_value' */
  function PushValue(b: seq<byte>, t: nat, cookie: nat): (r: Result<Value>)
    requires cookie < 32
    ensures r.Ok? ==> |r.rest| <= |b|
    decreases |b|, 4
  {
    if t == TYPE_NIL then Ok(Nil, b)
    else if t == TYPE_BOOLEAN then Ok(Boolean(cookie != 0), b)
    else if t == TYPE_NUMBER then
      if cookie == TYPE_NUMBER_REAL then
        match Read(b, 8) { case Invalid => Invalid case Ok(x, rest) => Ok(Real(x), rest) }
      else
        match GetInteger(b, cookie) { case Invalid => Invalid case Ok(n, rest) => Ok(Integer(n), rest) }
    else if t == TYPE_USERDATA then
      match Read(b, 8) { case Invalid => Invalid case Ok(x, rest) => Ok(Pointer(x), rest) }
    else if t == TYPE_SHORT_STRING then
      match Read(b, cookie) { case Invalid => Invalid case Ok(s, rest) => Ok(String(s), rest) }
    else if t == TYPE_LONG_STRING then
      if cookie == 2 || cookie == 4 then GetLongString(b, cookie) else Invalid
    else if t == TYPE_TABLE then UnpackTable(b, cookie)
    else Invalid
  }

  /** The size of the array part, which stands in the stream when the cookie is too small for it. */
  function GetSize(b: seq<byte>, cookie: nat): (r: Result<int>)
    requires cookie < 32
    ensures r.Ok? ==> |r.rest| <= |b|
  {
    if cookie != MAX_COOKIE - 1 then Ok(cookie, b)
    else if b == [] || b[0] as int % 8 != TYPE_NUMBER || b[0] as int / 8 == TYPE_NUMBER_REAL then Invalid
    else GetInteger(b[1..], b[0] as int / 8)
  }

  /** 'unpack_table' */
  function UnpackTable(b: seq<byte>, cookie: nat): (r: Result<Value>)
    requires cookie < 32
    ensures r.Ok? ==> |r.rest| <= |b|
    decreases |b|, 3
  {
    match GetSize(b, cookie)
    case Invalid => Invalid
    case Ok(n, rest) =>
      match UnpackArray(rest, n)
      case Invalid => Invalid
      case Ok(arr, rest2) =>
        match UnpackPairs(rest2)
        case Invalid => Invalid
        case Ok(hash, rest3) => Ok(Table(arr, hash), rest3)
  }

  function UnpackArray(b: seq<byte>, n: int): (r: Result<seq<Value>>)
    ensures r.Ok? ==> |r.rest| <= |b|
    decreases |b|, 2
  {
    if n <= 0 then Ok([], b) else
      match UnpackOne(b)
      case Invalid => Invalid
      case Ok(v, rest) =>
        match UnpackArray(rest, n - 1)
        case Invalid => Invalid
        case Ok(vs, rest2) => Ok([v] + vs, rest2)
  }

  /** Keys and values until a key is nil. */
  function UnpackPairs(b: seq<byte>): (r: Result<seq<Pair>>)
    ensures r.Ok? ==> |r.rest| <= |b|
    decreases |b|, 2
  {
    match UnpackOne(b)
    case Invalid => Invalid
    case Ok(k, rest) =>
      if k.Nil? then Ok([], rest) else
        match UnpackOne(rest)
        case Invalid => Invalid
        case Ok(v, rest2) =>
          match UnpackPairs(rest2)
          case Invalid => Invalid
          case Ok(ps, rest3) => Ok([Pair(k, v)] + ps, rest3)
  }

  /** 'luaseri_unpack': values until the end of the stream. */
  function UnpackAll(b: seq<byte>): Result<seq<Value>>
    decreases |b|
  {
    if b == [] then Ok([], []) else
      match UnpackOne(b)
      case Invalid => Invalid
      case Ok(v, rest) =>
        match UnpackAll(rest)
        case Invalid => Invalid
        case Ok(vs, rest2) => Ok([v] + vs, rest2)
  }

  // ----- there and back

  lemma CombinedBack(t: nat, v: nat)
    requires t < 8 && v < 32
    ensures Combined(t, v) as int % 8 == t && Combined(t, v) as int / 8 == v
  {
  }

  lemma SignedBack(v: int, n: nat)
    requires -(Pow256(n) as int) <= 2 * v < Pow256(n)
    ensures |Signed(v, n)| == n && FromSigned(Signed(v, n)) == v
  {
    NumberOfLowBytes(if v < 0 then v + Pow256(n) else v, n);
  }

  lemma UnsignedBack(v: nat, n: nat)
    requires v < Pow256(n)
    ensures |Signed(v, n)| == n && Number(Signed(v, n)) == v
  {
    NumberOfLowBytes(v, n);
  }

  lemma IntegerBack(v: int64, rest: seq<byte>)
    ensures var b := EncodedInteger(v) + rest;
      && b != [] && b[0] as int % 8 == TYPE_NUMBER && b[0] as int / 8 != TYPE_NUMBER_REAL
      && GetInteger(b[1..], b[0] as int / 8) == Ok(v, rest)
  {
    hide Signed, FromSigned, Number;
    Powers();
    var b := EncodedInteger(v) + rest;
    if v == 0 {
      assert b[1..] == rest;
    } else {
      var n := if !(-0x8000_0000 <= v < 0x8000_0000) then 8 else if v < 0 then 4 else if v < 0x100 then 1
               else if v < 0x1_0000 then 2 else 4;
      assert b[1..] == Signed(v, n) + rest;
      if n <= 2 { UnsignedBack(v, n); } else { SignedBack(v, n); }
      assert b[1..][..n] == Signed(v, n) && b[1..][n..] == rest;
    }
  }

  lemma UnpackIs(b: seq<byte>, t: nat, v: nat, rest: seq<byte>)
    requires t < 8 && v < 32 && b == [Combined(t, v)] + rest
    ensures UnpackOne(b) == PushValue(rest, t, v)
  {
    hide Combined, PushValue;
    CombinedBack(t, v);
    assert b[1..] == rest;
  }

  lemma StringBack(s: seq<byte>, rest: seq<byte>)
    requires |s| < 0x8000_0000
    ensures UnpackOne(EncodedString(s) + rest) == Ok(String(s), rest)
  {
    hide Combined, Signed, EncodedString, UnpackOne, PushValue;
    var b := EncodedString(s) + rest;
    if |s| < MAX_COOKIE {
      ShortForm(s, rest);
      UnpackIs(b, TYPE_SHORT_STRING, |s|, s + rest);
      ShortStringBack(s, rest);
    } else {
      var n := LongForm(s, rest);
      UnpackIs(b, TYPE_LONG_STRING, n, Signed(|s|, n) + (s + rest));
      LongStringBack(s, rest, n);
    }
  }

  lemma ShortForm(s: seq<byte>, rest: seq<byte>)
    requires |s| < MAX_COOKIE
    ensures EncodedString(s) + rest == [Combined(TYPE_SHORT_STRING, |s|)] + (s + rest)
  {
    hide Combined;
  }

  lemma LongForm(s: seq<byte>, rest: seq<byte>) returns (n: nat)
    requires MAX_COOKIE <= |s| < 0x8000_0000
    ensures (n == 2 || n == 4) && |s| < Pow256(n)
    ensures EncodedString(s) + rest == [Combined(TYPE_LONG_STRING, n)] + (Signed(|s|, n) + (s + rest))
  {
    hide Combined, Signed;
    Powers();
    n := if |s| < 0x1_0000 then 2 else 4;
  }

  lemma ShortStringBack(s: seq<byte>, rest: seq<byte>)
    requires |s| < MAX_COOKIE
    ensures PushValue(s + rest, TYPE_SHORT_STRING, |s|) == Ok(String(s), rest)
  {
    assert (s + rest)[..|s|] == s && (s + rest)[|s|..] == rest;
  }

  lemma LongStringBack(s: seq<byte>, rest: seq<byte>, n: nat)
    requires |s| < Pow256(n) && (n == 2 || n == 4)
    ensures PushValue(Signed(|s|, n) + (s + rest), TYPE_LONG_STRING, n) == Ok(String(s), rest)
  {
    hide Signed, Number, UnpackTable, GetInteger;
    UnsignedBack(|s|, n);
    var b := Signed(|s|, n) + (s + rest);
    assert b[..n] == Signed(|s|, n) && b[n..] == s + rest;
    assert (s + rest)[..|s|] == s && (s + rest)[|s|..] == rest;
  }

  lemma SizeBack(n: nat, rest: seq<byte>)
    requires n < 0x8000_0000
    ensures var b := EncodedSize(n) + rest;
      b[0] as int % 8 == TYPE_TABLE && GetSize(b[1..], b[0] as int / 8) == Ok(n, rest)
  {
    hide Combined, GetInteger, EncodedInteger;
    var b := EncodedSize(n) + rest;
    if n >= MAX_COOKIE - 1 {
      CombinedBack(TYPE_TABLE, MAX_COOKIE - 1);
      IntegerBack(n, rest);
      assert b[1..] == EncodedInteger(n) + rest;
    } else {
      CombinedBack(TYPE_TABLE, n);
      assert b[1..] == rest;
    }
  }

  /** Every value comes back, and the stream stands behind it. */
  lemma {:induction false} ValueBack(v: Value, rest: seq<byte>)
    requires WellFormed(v)
    ensures UnpackOne(Encoded(v) + rest) == Ok(v, rest)
    decreases v, 1
  {
    var b := Encoded(v) + rest;
    match v
    case Nil => assert b[1..] == rest;
    case Boolean(_) => assert b[1..] == rest;
    case Integer(n) => IntegerBack(n, rest);
    case Real(x) => assert b[1..] == x + rest; assert b[1..][..8] == x && b[1..][8..] == rest;
    case Pointer(x) => assert b[1..] == x + rest; assert b[1..][..8] == x && b[1..][8..] == rest;
    case String(s) => StringBack(s, rest);
    case Table(arr, hash) => TableBack(v, rest);
  }

  lemma {:induction false} TableBack(v: Value, rest: seq<byte>)
    requires v.Table? && WellFormed(v)
    ensures UnpackOne(Encoded(v) + rest) == Ok(v, rest)
    decreases v, 0
  {
    hide EncodedSize, GetSize, UnpackArray, UnpackPairs, EncodedList, EncodedPairs;
    var pairs := EncodedPairs(v.hash) + [TYPE_NIL] + rest;
    var items := EncodedList(v.arr) + pairs;
    var b := EncodedSize(|v.arr|) + items;
    assert Encoded(v) + rest == b;
    SizeBack(|v.arr|, items);
    ListBack(v.arr, pairs);
    PairsBack(v.hash, rest);
    assert UnpackOne(b) == UnpackTable(b[1..], b[0] as int / 8);
  }

  lemma {:induction false} ListBack(vs: seq<Value>, rest: seq<byte>)
    requires AllWellFormed(vs)
    ensures UnpackArray(EncodedList(vs) + rest, |vs|) == Ok(vs, rest)
    decreases vs, 0
  {
    hide Encoded, UnpackOne, WellFormed;
    if vs == [] {
      assert EncodedList(vs) + rest == rest;
    } else {
      hide EncodedList, UnpackArray, AllWellFormed;
      var more := EncodedParts(vs, rest);
      ValueBack(vs[0], more);
      ListBack(vs[1..], rest);
      ArrayParts(EncodedList(vs) + rest, vs, more, rest);
    }
  }

  lemma EncodedParts(vs: seq<Value>, rest: seq<byte>) returns (more: seq<byte>)
    requires AllWellFormed(vs) && vs != []
    ensures WellFormed(vs[0]) && AllWellFormed(vs[1..]) && more == EncodedList(vs[1..]) + rest
    ensures EncodedList(vs) + rest == Encoded(vs[0]) + more
  {
    hide Encoded, WellFormed;
    more := EncodedList(vs[1..]) + rest;
  }

  lemma ArrayParts(b: seq<byte>, vs: seq<Value>, more: seq<byte>, rest: seq<byte>)
    requires vs != [] && UnpackOne(b) == Ok(vs[0], more) && UnpackArray(more, |vs| - 1) == Ok(vs[1..], rest)
    ensures UnpackArray(b, |vs|) == Ok(vs, rest)
  {
    hide UnpackOne;
    assert vs == [vs[0]] + vs[1..];
  }

  lemma {:induction false} PairsBack(ps: seq<Pair>, rest: seq<byte>)
    requires PairsWellFormed(ps)
    ensures UnpackPairs(EncodedPairs(ps) + [TYPE_NIL] + rest) == Ok(ps, rest)
    decreases ps, 0
  {
    hide EncodedPair, UnpackOne, WellFormed;
    var b := EncodedPairs(ps) + [TYPE_NIL] + rest;
    if ps == [] {
      UnpackIs(b, TYPE_NIL, 0, rest);
    } else {
      var more := EncodedPairs(ps[1..]) + [TYPE_NIL] + rest;
      assert b == EncodedPair(ps[0]) + more;
      PairBack(ps[0], more);
      PairsBack(ps[1..], rest);
      assert ps == [ps[0]] + ps[1..] && ps[0] == Pair(ps[0].key, ps[0].value);
    }
  }

  lemma {:induction false} PairBack(p: Pair, rest: seq<byte>)
    requires PairWellFormed(p)
    ensures var b := EncodedPair(p) + rest;
      && UnpackOne(b) == Ok(p.key, Encoded(p.value) + rest)
      && UnpackOne(Encoded(p.value) + rest) == Ok(p.value, rest)
    decreases p, 0
  {
    assert EncodedPair(p) + rest == Encoded(p.key) + (Encoded(p.value) + rest);
    ValueBack(p.key, Encoded(p.value) + rest);
    ValueBack(p.value, rest);
  }

  /** Main result: a list of values comes back. */
  lemma {:induction false} RoundTrip(vs: seq<Value>)
    requires AllWellFormed(vs)
    ensures UnpackAll(EncodedList(vs)) == Ok(vs, [])
    decreases vs
  {
    if vs != [] {
      ValueBack(vs[0], EncodedList(vs[1..]));
      RoundTrip(vs[1..]);
      assert vs == [vs[0]] + vs[1..];
    }
  }

  // ----- no stream for a value is shorter than the one that is written

  lemma IntegerShortest(b: seq<byte>, cookie: nat)
    requires GetInteger(b, cookie).Ok?
    ensures var r := GetInteger(b, cookie); |EncodedInteger(r.value)| + |r.rest| <= 1 + |b|
  {
    hide Number, Pow256, Signed;
    Powers();
    if |b| >= 1 { NumberBound(b[..1]); }
    if |b| >= 2 { NumberBound(b[..2]); }
    if |b| >= 4 { NumberBound(b[..4]); }
  }

  lemma StringShortest(b: seq<byte>, t: nat, cookie: nat)
    requires (t == TYPE_SHORT_STRING || t == TYPE_LONG_STRING) && cookie < 32 && PushValue(b, t, cookie).Ok?
    requires |b| < 0x8000_0000
    ensures var r := PushValue(b, t, cookie);
      && r.value.String? && WellFormed(r.value) && |Encoded(r.value)| + |r.rest| <= 1 + |b|
  {
    hide Number, Pow256, Signed, UnpackTable, GetInteger;
    Powers();
    if t == TYPE_LONG_STRING { NumberBound(b[..cookie]); }
  }

  lemma SizeShortest(b: seq<byte>, cookie: nat)
    requires cookie < 32 && GetSize(b, cookie).Ok?
    ensures var r := GetSize(b, cookie); 0 <= r.value < 0x8000_0000 ==> |EncodedSize(r.value)| + |r.rest| <= 1 + |b|
  {
    hide GetInteger, EncodedInteger;
    if cookie == MAX_COOKIE - 1 { IntegerShortest(b[1..], b[0] as int / 8); }
  }

  /** A stream that is read as a value is at least as long as what is written for the value. */
  lemma {:induction false} Shortest(b: seq<byte>)
    requires UnpackOne(b).Ok? && |b| < 0x8000_0000
    ensures var r := UnpackOne(b); WellFormed(r.value) && |Encoded(r.value)| + |r.rest| <= |b|
    decreases |b|, 1
  {
    hide EncodedInteger, EncodedString, GetInteger, GetLongString, UnpackTable, Combined;
    var t, cookie := b[0] as int % 8, b[0] as int / 8;
    if t == TYPE_NUMBER && cookie != TYPE_NUMBER_REAL {
      IntegerShortest(b[1..], cookie);
    } else if t == TYPE_SHORT_STRING || t == TYPE_LONG_STRING {
      StringShortest(b[1..], t, cookie);
    } else if t == TYPE_TABLE {
      TableShortest(b[1..], cookie);
    }
  }

  lemma {:induction false} TableShortest(b: seq<byte>, cookie: nat)
    requires cookie < 32 && UnpackTable(b, cookie).Ok? && |b| < 0x7fff_ffff
    ensures var r := UnpackTable(b, cookie); WellFormed(r.value) && |Encoded(r.value)| + |r.rest| <= 1 + |b|
    decreases |b|, 3
  {
    hide EncodedSize, GetSize, UnpackArray, UnpackPairs, EncodedList, EncodedPairs;
    SizeShortest(b, cookie);
    var n, rest := GetSize(b, cookie).value, GetSize(b, cookie).rest;
    ListShortest(rest, n);
    PairsShortest(UnpackArray(rest, n).rest);
    EmptySize();
  }

  lemma EmptySize()
    ensures |EncodedSize(0)| == 1
  {
  }

  lemma {:induction false} ListShortest(b: seq<byte>, n: int)
    requires UnpackArray(b, n).Ok? && |b| < 0x8000_0000
    ensures var r := UnpackArray(b, n);
      && |r.value| == (if n > 0 then n else 0) && |r.value| + |r.rest| <= |b|
      && AllWellFormed(r.value) && |EncodedList(r.value)| + |r.rest| <= |b|
    decreases |b|, 2
  {
    hide Encoded, UnpackOne, WellFormed;
    if n > 0 {
      Shortest(b);
      var v, rest := UnpackOne(b).value, UnpackOne(b).rest;
      ListShortest(rest, n - 1);
      assert ([v] + UnpackArray(rest, n - 1).value)[1..] == UnpackArray(rest, n - 1).value;
    }
  }

  lemma {:induction false} PairsShortest(b: seq<byte>)
    requires UnpackPairs(b).Ok? && |b| < 0x8000_0000
    ensures var r := UnpackPairs(b);
      PairsWellFormed(r.value) && |EncodedPairs(r.value)| + 1 + |r.rest| <= |b|
    decreases |b|, 2
  {
    hide Encoded, UnpackOne, WellFormed;
    Shortest(b);
    var k, rest := UnpackOne(b).value, UnpackOne(b).rest;
    if !k.Nil? {
      Shortest(rest);
      var v, rest2 := UnpackOne(rest).value, UnpackOne(rest).rest;
      PairsShortest(rest2);
      assert ([Pair(k, v)] + UnpackPairs(rest2).value)[1..] == UnpackPairs(rest2).value;
    }
  }
}
