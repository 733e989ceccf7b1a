// The serializer at work: packing into a chain of blocks of 128 bytes that is flattened at the end, and
// unpacking with a cursor.
module SeriBlocks {
  import opened Bytes
  import opened LuaSeri

  const BLOCK_SIZE := 128

  class Block {
    var next: Block?
    const buffer: array<byte>

    /** 'blk_alloc' */
    constructor ()
      ensures next == null && buffer.Length == BLOCK_SIZE && fresh(buffer)
    {
      next := null;
      buffer := new byte[BLOCK_SIZE](_ => 0);
    }
  }

  class WriteBlock {
    var head: Block
    var current: Block
    var len: nat
    var ptr: nat
    ghost var blocks: seq<Block>
    /** The bytes that were pushed. */
    ghost var data: seq<byte>

    ghost predicate Chained()
      reads this, blocks
    {
      && blocks != [] && head == blocks[0] && current == blocks[|blocks| - 1] && current.next == null
      && (forall i | 0 <= i < |blocks| :: blocks[i].buffer.Length == BLOCK_SIZE)
      && (forall i | 0 <= i < |blocks| - 1 :: blocks[i].next == blocks[i + 1])
      && (forall i, j | 0 <= i < j < |blocks| :: blocks[i] != blocks[j] && blocks[i].buffer != blocks[j].buffer)
    }

    ghost predicate Holds()
      requires Chained()
      reads this, blocks, set b | b in blocks :: b.buffer
    {
      && ptr <= BLOCK_SIZE && len == |data| == BLOCK_SIZE * (|blocks| - 1) + ptr
      && forall i, j | 0 <= i < |blocks| && 0 <= j < BLOCK_SIZE && BLOCK_SIZE * i + j < len ::
           blocks[i].buffer[j] == data[BLOCK_SIZE * i + j]
    }

    ghost predicate Valid()
      reads this, blocks, set b | b in blocks :: b.buffer
    {
      Chained() && Holds()
    }

    /** 'wb_init' */
    constructor ()
      ensures Valid() && data == [] && fresh(current) && fresh(current.buffer)
    {
      var b := new Block();
      head, current, len, ptr := b, b, 0, 0;
      blocks, data := [b], [];
    }

    /** The next block of the chain. */
    method AddBlock()
      requires Valid() && ptr == BLOCK_SIZE
      modifies this, current
      ensures Valid() && data == old(data) && ptr == 0 && fresh(current) && fresh(current.buffer)
    {
      var b := new Block();
      current.next := b;
      current := b;
      ptr := 0;
      blocks := blocks + [b];
    }

    /** The copy of some bytes into the current block, which has room for them. */
    method Copy(bytes: seq<byte>)
      requires Valid() && ptr + |bytes| <= BLOCK_SIZE
      modifies this, current.buffer
      ensures Valid() && data == old(data) + bytes && current == old(current) && ptr == old(ptr) + |bytes|
    {
      forall i | 0 <= i < |bytes| {
        current.buffer[ptr + i] := bytes[i];
      }
      ptr := ptr + |bytes|;
      len := len + |bytes|;
      data := data + bytes;
    }

    /** 'wb_push' */
    method Push(bytes: seq<byte>)
      requires Valid()
      modifies this, current, current.buffer
      ensures Valid() && data == old(data) + bytes
      ensures current == old(current) || (fresh(current) && fresh(current.buffer))
    {
      var rest := bytes;
      if ptr == BLOCK_SIZE {
        AddBlock();
      }
      while ptr > BLOCK_SIZE - |rest|
        invariant Valid() && data + rest == old(data) + bytes && (ptr == BLOCK_SIZE ==> rest == [])
        invariant current == old(current) || (fresh(current) && fresh(current.buffer))
        decreases |rest|
      {
        var copy := BLOCK_SIZE - ptr;
        Copy(rest[..copy]);
        rest := rest[copy..];
        AddBlock();
      }
      Copy(rest);
    }

    /** 'seri': the chain as one piece. */
    method Seri() returns (buffer: array<byte>)
      requires Valid()
      ensures fresh(buffer) && buffer[..] == data
    {
      buffer := new byte[len](_ => 0);
      var at, left := 0, len;
      var b: Block? := head;
      ghost var k := 0;
      while left > 0
        invariant 0 <= at <= len == at + left && buffer[..at] == data[..at]
        invariant left > 0 ==> 0 <= k < |blocks| && b == blocks[k] && at == BLOCK_SIZE * k
        decreases left
        modifies buffer
      {
        var n := if left >= BLOCK_SIZE then BLOCK_SIZE else left;
        forall i | 0 <= i < n {
          buffer[at + i] := b.buffer[i];
        }
        assert buffer[..at + n] == data[..at + n];
        at := at + n;
        if left < BLOCK_SIZE {
          break;
        }
        left, b, k := left - n, b.next, k + 1;
      }
      assert buffer[..len] == buffer[..];
      assert data[..len] == data;
    }

    // ----- packing

    method PushInteger(v: int64)
      requires Valid()
      modifies this, current, current.buffer
      ensures Valid() && data == old(data) + EncodedInteger(v)
      ensures current == old(current) || (fresh(current) && fresh(current.buffer))
    {
      hide Chained, Holds, Valid, Combined, Signed;
      Powers();
      if v == 0 {
        Push([Combined(TYPE_NUMBER, TYPE_NUMBER_ZERO)]);
      } else if v != Int32(v) {
        PushBoth([Combined(TYPE_NUMBER, TYPE_NUMBER_QWORD)], Signed(v, 8));
      } else if v < 0 {
        PushBoth([Combined(TYPE_NUMBER, TYPE_NUMBER_DWORD)], Signed(v, 4));
      } else if v < 0x100 {
        PushBoth([Combined(TYPE_NUMBER, TYPE_NUMBER_BYTE)], Signed(v, 1));
      } else if v < 0x1_0000 {
        PushBoth([Combined(TYPE_NUMBER, TYPE_NUMBER_WORD)], Signed(v, 2));
      } else {
        PushBoth([Combined(TYPE_NUMBER, TYPE_NUMBER_DWORD)], Signed(v, 4));
      }
    }

    method PushBoth(a: seq<byte>, b: seq<byte>)
      requires Valid()
      modifies this, current, current.buffer
      ensures Valid() && data == old(data) + (a + b)
      ensures current == old(current) || (fresh(current) && fresh(current.buffer))
    {
      hide Chained, Holds, Valid;
      Push(a);
      Push(b);
    }

    /** 'wb_string' */
    method PushString(s: seq<byte>)
      requires Valid() && |s| < 0x8000_0000
      modifies this, current, current.buffer
      ensures Valid() && data == old(data) + EncodedString(s)
      ensures current == old(current) || (fresh(current) && fresh(current.buffer))
    {
      hide Chained, Holds, Valid, Combined, Signed;
      Powers();
      if |s| < MAX_COOKIE {
        ghost var c := [Combined(TYPE_SHORT_STRING, |s|)];
        Push([Combined(TYPE_SHORT_STRING, |s|)]);
        if |s| > 0 {
          Push(s);
        }
        assert c + s == EncodedString(s) && old(data) + c + s == old(data) + (c + s);
      } else {
        if |s| < 0x1_0000 {
          PushBoth([Combined(TYPE_LONG_STRING, 2)], Signed(|s|, 2));
        } else {
          PushBoth([Combined(TYPE_LONG_STRING, 4)], Signed(|s|, 4));
        }
        ghost var h := data[|old(data)|..];
        assert data == old(data) + h;
        Push(s);
        assert h + s == EncodedString(s) && old(data) + h + s == old(data) + (h + s);
      }
    }

    /** The beginning of 'wb_table_array'. */
    method PushSize(n: nat)
      requires Valid() && n < 0x8000_0000
      modifies this, current, current.buffer
      ensures Valid() && data == old(data) + EncodedSize(n)
      ensures current == old(current) || (fresh(current) && fresh(current.buffer))
    {
      hide Chained, Holds, Valid, Combined, EncodedInteger;
      if n >= MAX_COOKIE - 1 {
        Push([Combined(TYPE_TABLE, MAX_COOKIE - 1)]);
        PushInteger(n);
        Behind(old(data), [Combined(TYPE_TABLE, MAX_COOKIE - 1)], EncodedInteger(n));
      } else {
        Push([Combined(TYPE_TABLE, n)]);
      }
    }

    /** 'pack_one': fails exactly if the value is nested too deeply. */
    method PackOne(v: Value, depth: nat) returns (ok: bool)
      requires Valid() && WellFormed(v)
      modifies this, current, current.buffer
      ensures Valid() && ok == Packs(v, depth) && (ok ==> data == old(data) + Encoded(v))
      ensures current == old(current) || (fresh(current) && fresh(current.buffer))
      decreases v, 1
    {
      hide Chained, Holds, Valid, EncodedInteger, EncodedString, EncodedSize, EncodedList, EncodedPairs, PairPacks;
      if depth > MAX_DEPTH {
        return false;
      }
      ok := true;
      match v {
        case Nil => Push([TYPE_NIL]);
        case Boolean(b) => Push([Combined(TYPE_BOOLEAN, if b then 1 else 0)]);
        case Integer(n) => PushInteger(n);
        case Real(bytes) => PushBoth([Combined(TYPE_NUMBER, TYPE_NUMBER_REAL)], bytes);
        case Pointer(bytes) => PushBoth([TYPE_USERDATA], bytes);
        case String(s) => PushString(s);
        case Table(_, _) => ok := PackTable(v, depth + 1);
      }
    }

    /** 'wb_table', for a table without a metatable that says how to go through it. */
    method PackTable(v: Value, depth: nat) returns (ok: bool)
      requires Valid() && WellFormed(v) && v.Table?
      modifies this, current, current.buffer
      ensures Valid() && (ok ==> data == old(data) + Encoded(v))
      ensures ok <==> (forall x | x in v.arr :: Packs(x, depth)) && (forall p | p in v.hash :: PairPacks(p, depth))
      ensures current == old(current) || (fresh(current) && fresh(current.buffer))
      decreases v, 0
    {
      hide Chained, Holds, Valid, EncodedSize, EncodedList, EncodedPairs, Packs, PairPacks;
      PushSize(|v.arr|);
      ok := PackArray(v, depth);
      if ok {
        Behind(old(data), EncodedSize(|v.arr|), EncodedList(v.arr));
        ok := PackHash(v, depth);
        Behind(old(data), EncodedSize(|v.arr|) + EncodedList(v.arr), EncodedPairs(v.hash) + [TYPE_NIL]);
        Behind(EncodedSize(|v.arr|) + EncodedList(v.arr), EncodedPairs(v.hash), [TYPE_NIL]);
      }
    }

    /** The loop of 'wb_table_array'. */
    method PackArray(v: Value, depth: nat) returns (ok: bool)
      requires Valid() && WellFormed(v) && v.Table?
      modifies this, current, current.buffer
      ensures Valid() && (ok ==> data == old(data) + EncodedList(v.arr)) && (ok <==> forall x | x in v.arr :: Packs(x, depth))
      ensures current == old(current) || (fresh(current) && fresh(current.buffer))
      decreases v.arr, 0
    {
      hide Chained, Holds, Valid, Encoded, Packs;
      var arr := v.arr;
      assert arr[0..] == arr;
      for i := 0 to |arr|
        invariant Valid() && data + EncodedList(arr[i..]) == old(data) + EncodedList(arr)
        invariant forall x | x in arr[..i] :: Packs(x, depth)
        invariant current == old(current) || (fresh(current) && fresh(current.buffer))
      {
        assert arr[i..][0] == arr[i] && arr[i..][1..] == arr[i + 1..] && arr[..i + 1] == arr[..i] + [arr[i]];
        ghost var before := data;
        ok := PackOne(arr[i], depth);
        Behind(before, Encoded(arr[i]), EncodedList(arr[i + 1..]));
        if !ok {
          return;
        }
      }
      ok := true;
    }

    /** 'wb_table_hash' */
    method PackHash(v: Value, depth: nat) returns (ok: bool)
      requires Valid() && WellFormed(v) && v.Table?
      modifies this, current, current.buffer
      ensures Valid() && (ok ==> data == old(data) + (EncodedPairs(v.hash) + [TYPE_NIL]))
      ensures ok <==> forall p | p in v.hash :: PairPacks(p, depth)
      ensures current == old(current) || (fresh(current) && fresh(current.buffer))
      decreases v.hash, 0
    {
      hide Chained, Holds, Valid, EncodedPair, PairPacks;
      var hash := v.hash;
      assert hash[0..] == hash;
      for i := 0 to |hash|
        invariant Valid() && data + EncodedPairs(hash[i..]) == old(data) + EncodedPairs(hash)
        invariant forall p | p in hash[..i] :: PairPacks(p, depth)
        invariant current == old(current) || (fresh(current) && fresh(current.buffer))
      {
        assert hash[i..][0] == hash[i] && hash[i..][1..] == hash[i + 1..] && hash[..i + 1] == hash[..i] + [hash[i]];
        ghost var before := data;
        ok := PackPair(hash[i], depth);
        Behind(before, EncodedPair(hash[i]), EncodedPairs(hash[i + 1..]));
        if !ok {
          return;
        }
      }
      assert data + [] == data;
      Push([TYPE_NIL]);
      Behind(old(data), EncodedPairs(hash), [TYPE_NIL]);
      ok := true;
    }

    method PackPair(p: Pair, depth: nat) returns (ok: bool)
      requires Valid() && PairWellFormed(p)
      modifies this, current, current.buffer
      ensures Valid() && ok == PairPacks(p, depth) && (ok ==> data == old(data) + EncodedPair(p))
      ensures current == old(current) || (fresh(current) && fresh(current.buffer))
      decreases p, 0
    {
      hide Chained, Holds, Valid, Encoded, Packs;
      ok := PackOne(p.key, depth);
      if ok {
        ok := PackOne(p.value, depth);
        Behind(old(data), Encoded(p.key), Encoded(p.value));
      }
    }
  }

  lemma Behind<T>(a: seq<T>, b: seq<T>, c: seq<T>)
    ensures a + b + c == a + (b + c)
  {
  }

  /** 'luaseri_pack': all values or none. */
  method Pack(vs: seq<Value>) returns (ok: bool, buffer: array<byte>)
    requires AllWellFormed(vs)
    ensures ok <==> forall v | v in vs :: Height(v) <= MAX_DEPTH
    ensures ok ==> buffer[..] == EncodedList(vs)
  {
    hide WriteBlock.Valid, Packs, Height, Encoded;
    var wb := new WriteBlock();
    assert vs[0..] == vs;
    for i := 0 to |vs|
      invariant wb.Valid() && wb.data + EncodedList(vs[i..]) == EncodedList(vs)
      invariant forall v | v in vs[..i] :: Height(v) <= MAX_DEPTH
      invariant fresh(wb) && fresh(wb.current) && fresh(wb.current.buffer)
    {
      assert vs[i..][0] == vs[i] && vs[i..][1..] == vs[i + 1..] && vs[..i + 1] == vs[..i] + [vs[i]];
      PacksExactly(vs[i], 0);
      ghost var before := wb.data;
      ok := wb.PackOne(vs[i], 0);
      Behind(before, Encoded(vs[i]), EncodedList(vs[i + 1..]));
      if !ok {
        buffer := new byte[0];
        return;
      }
    }
    ok := true;
    buffer := wb.Seri();
  }

  class ReadBlock {
    const buffer: seq<byte>
    var len: nat
    var ptr: nat

    ghost predicate Valid()
      reads this
    {
      ptr + len == |buffer|
    }

    ghost function Rest(): seq<byte>
      requires Valid()
      reads this
    {
      buffer[ptr..]
    }

    /** 'rball_init' */
    constructor (buffer: seq<byte>)
      ensures Valid() && Rest() == buffer
    {
      this.buffer := buffer;
      len, ptr := |buffer|, 0;
    }

    /** 'rb_read' */
    method Read(sz: nat) returns (ok: bool, bytes: seq<byte>)
      requires Valid()
      modifies this
      ensures Valid() && ok == (|old(Rest())| >= sz) && len <= old(len) && (ok && sz > 0 ==> len < old(len))
      ensures ok ==> bytes == old(Rest())[..sz] && Rest() == old(Rest())[sz..]
    {
      ok, bytes := true, [];
      if len < sz {
        return false, [];
      }
      bytes := buffer[ptr..ptr + sz];
      ptr := ptr + sz;
      len := len - sz;
    }

    /** What a failing or successful step leaves, compared with the function that says what it means. */
    ghost predicate Agrees<T>(ok: bool, value: T, r: Result<T>)
      reads this
    {
      Valid() && ok == r.Ok? && (ok ==> value == r.value && Rest() == r.rest)
    }

    method GetInteger(cookie: nat) returns (ok: bool, n: int64)
      requires Valid()
      modifies this
      ensures Agrees(ok, n, LuaSeri.GetInteger(old(Rest()), cookie)) && len <= old(len)
    {
      Powers();
      n := 0;
      if cookie == TYPE_NUMBER_ZERO {
        return true, 0;
      }
      var size := if cookie == TYPE_NUMBER_BYTE then 1 else if cookie == TYPE_NUMBER_WORD then 2
                  else if cookie == TYPE_NUMBER_DWORD then 4 else if cookie == TYPE_NUMBER_QWORD then 8 else 0;
      if size == 0 {
        return false, 0;
      }
      var x;
      ok, x := Read(size);
      if ok {
        NumberBound(x);
        n := if size <= 2 then Number(x) else FromSigned(x);
      }
    }

    method GetLongString(size: nat) returns (ok: bool, v: Value)
      requires Valid()
      modifies this
      ensures Agrees(ok, v, LuaSeri.GetLongString(old(Rest()), size)) && len <= old(len)
    {
      v := Nil;
      var x;
      ok, x := Read(size);
      if ok {
        ok, x := Read(Number(x));
        v := String(x);
      }
    }

    /** 'unpack_one' */
    method UnpackOne() returns (ok: bool, v: Value)
      requires Valid()
      modifies this
      ensures Agrees(ok, v, LuaSeri.UnpackOne(old(Rest()))) && (ok ==> len < old(len)) && len <= old(len)
      decreases len, 1
    {
      v := Nil;
      var t;
      ok, t := Read(1);
      if ok {
        ok, v := PushValue(t[0] as int % 8, t[0] as int / 8);
      }
    }

    /** 'push_value' */
    method PushValue(t: nat, cookie: nat) returns (ok: bool, v: Value)
      requires Valid() && cookie < 32
      modifies this
      ensures Agrees(ok, v, LuaSeri.PushValue(old(Rest()), t, cookie)) && len <= old(len)
      decreases len, 4
    {
      ok, v := true, Nil;
      if t == TYPE_NIL {
      } else if t == TYPE_BOOLEAN {
        v := Boolean(cookie != 0);
      } else if t == TYPE_NUMBER {
        if cookie == TYPE_NUMBER_REAL {
          var x;
          ok, x := Read(8);
          v := Real(x);
        } else {
          var n;
          ok, n := GetInteger(cookie);
          v := Integer(n);
        }
      } else if t == TYPE_USERDATA {
        var x;
        ok, x := Read(8);
        v := Pointer(x);
      } else if t == TYPE_SHORT_STRING {
        var x;
        ok, x := Read(cookie);
        v := String(x);
      } else if t == TYPE_LONG_STRING {
        if cookie == 2 || cookie == 4 {
          ok, v := GetLongString(cookie);
        } else {
          ok := false;
        }
      } else if t == TYPE_TABLE {
        ok, v := UnpackTable(cookie);
      } else {
        ok := false;
      }
    }

    /** The beginning of 'unpack_table'. */
    method GetSize(cookie: nat) returns (ok: bool, n: int)
      requires Valid() && cookie < 32
      modifies this
      ensures Agrees(ok, n, LuaSeri.GetSize(old(Rest()), cookie)) && len <= old(len)
    {
      ok, n := true, cookie;
      if cookie == MAX_COOKIE - 1 {
        var t;
        ok, t := Read(1);
        if !ok || t[0] as int % 8 != TYPE_NUMBER || t[0] as int / 8 == TYPE_NUMBER_REAL {
          return false, 0;
        }
        ok, n := GetInteger(t[0] as int / 8);
      }
    }

    /** 'unpack_table' */
    method UnpackTable(cookie: nat) returns (ok: bool, v: Value)
      requires Valid() && cookie < 32
      modifies this
      ensures Agrees(ok, v, LuaSeri.UnpackTable(old(Rest()), cookie)) && len <= old(len)
      decreases len, 3
    {
      v := Nil;
      var n, arr, hash;
      ok, n := GetSize(cookie);
      if ok {
        ok, arr := UnpackArray(n);
        if ok {
          ok, hash := UnpackPairs();
          v := Table(arr, hash);
        }
      }
    }

    /** The first loop of 'unpack_table'. */
    method UnpackArray(n: int) returns (ok: bool, arr: seq<Value>)
      requires Valid()
      modifies this
      ensures Agrees(ok, arr, LuaSeri.UnpackArray(old(Rest()), n)) && len <= old(len)
      decreases len, 2
    {
      arr := [];
      var i := 1;
      AtFirst(LuaSeri.UnpackArray(Rest(), n));
      while i <= n
        invariant Valid() && len <= old(len) && (i <= n + 1 || i == 1)
        invariant LuaSeri.UnpackArray(old(Rest()), n) == After(arr, LuaSeri.UnpackArray(Rest(), n - i + 1))
        decreases n - i
      {
        var v;
        ok, v := UnpackOne();
        if !ok {
          return false, [];
        }
        Later(arr, v, LuaSeri.UnpackArray(Rest(), n - i));
        arr := arr + [v];
        i := i + 1;
      }
      assert arr + [] == arr;
      ok := true;
    }

    /** The second loop of 'unpack_table'. */
    method UnpackPairs() returns (ok: bool, hash: seq<Pair>)
      requires Valid()
      modifies this
      ensures Agrees(ok, hash, LuaSeri.UnpackPairs(old(Rest()))) && len <= old(len)
      decreases len, 2
    {
      hash := [];
      AtFirst(LuaSeri.UnpackPairs(Rest()));
      while true
        invariant Valid() && len <= old(len)
        invariant LuaSeri.UnpackPairs(old(Rest())) == After(hash, LuaSeri.UnpackPairs(Rest()))
        decreases len
      {
        var k, v;
        ok, k := UnpackOne();
        if !ok {
          return;
        }
        if k.Nil? {
          assert hash + [] == hash;
          return;
        }
        ok, v := UnpackOne();
        if !ok {
          return;
        }
        Later(hash, Pair(k, v), LuaSeri.UnpackPairs(Rest()));
        hash := hash + [Pair(k, v)];
      }
    }
  }

  /** What has been read before the rest. */
  function After<T>(before: seq<T>, r: Result<seq<T>>): Result<seq<T>> {
    if r.Ok? then Ok(before + r.value, r.rest) else Invalid
  }

  lemma Later<T>(before: seq<T>, x: T, r: Result<seq<T>>)
    ensures After(before + [x], r) == After(before, if r.Ok? then Ok([x] + r.value, r.rest) else Invalid)
  {
    if r.Ok? {
      assert before + [x] + r.value == before + ([x] + r.value);
    }
  }

  lemma AtFirst<T>(r: Result<seq<T>>)
    ensures After([], r) == r
  {
    if r.Ok? { assert [] + r.value == r.value; }
  }

  /** 'luaseri_unpack' */
  method Unpack(buffer: seq<byte>) returns (ok: bool, vs: seq<Value>)
    ensures ok == UnpackAll(buffer).Ok? && (ok ==> vs == UnpackAll(buffer).value)
  {
    vs := [];
    var rb := new ReadBlock(buffer);
    AtFirst(UnpackAll(buffer));
    while true
      invariant rb.Valid() && fresh(rb) && UnpackAll(buffer) == After(vs, UnpackAll(rb.Rest()))
      decreases rb.len
    {
      var more, t := rb.Read(1);
      if !more {
        assert vs + [] == vs;
        return true, vs;
      }
      var v;
      ok, v := rb.PushValue(t[0] as int % 8, t[0] as int / 8);
      if !ok {
        return;
      }
      Later(vs, v, UnpackAll(rb.Rest()));
      vs := vs + [v];
    }
  }

  /** Main result for the two halves together: what is packed is unpacked again. */
  method PackAndUnpack(vs: seq<Value>) returns (ok: bool, ws: seq<Value>)
    requires AllWellFormed(vs)
    ensures ok <==> forall v | v in vs :: Height(v) <= MAX_DEPTH
    ensures ok ==> ws == vs
  {
    var buffer;
    ok, buffer := Pack(vs);
    ws := [];
    if ok {
      RoundTrip(vs);
      ok, ws := Unpack(buffer[..]);
    }
  }
}
