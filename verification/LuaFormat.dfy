// The format of the serializer as a relation: which streams stand for a value, also those that are never written.
// Reading accepts exactly these.
module LuaFormat {
  import opened Bytes
  import opened LuaSeri

  /** The bytes behind the first one of an integer, by its cookie. */
  predicate IntegerForm(n: int, cookie: nat, y: seq<byte>) {
    || (cookie == 0 && y == [] && n == 0)
    || (cookie == 1 && |y| == 1 && n == Number(y))
    || (cookie == 2 && |y| == 2 && n == Number(y))
    || (cookie == 4 && |y| == 4 && n == FromSigned(y))
    || (cookie == 6 && |y| == 8 && n == FromSigned(y))
  }

  /** A length up to 30 stands in the first byte of a table, any other behind it; a negative one counts as 0. */
  ghost predicate SizeForm(n: nat, cookie: nat, y: seq<byte>) {
    if cookie != 31 then n == cookie && y == [] else
      y != [] && y[0] as int % 8 == 2 && LongSize(n, y[0] as int / 8, y[1..])
  }

  ghost predicate LongSize(n: nat, cookie: nat, y: seq<byte>) {
    exists i: int :: IntegerForm(i, cookie, y) && n == if i > 0 then i else 0
  }

  predicate StringForm(s: seq<byte>, t: nat, cookie: nat, y: seq<byte>) {
    || (t == 4 && cookie == |s| && y == s)
    || (t == 5 && (cookie == 2 || cookie == 4) && |y| >= cookie && Number(y[..cookie]) == |s| && y[cookie..] == s)
  }

  /** x stands for v: the lower three bits of the first byte are the type, the others the cookie. */
  ghost predicate IsForm(v: Value, x: seq<byte>)
    decreases v, 1
  {
    x != [] &&
    var t, cookie, y := x[0] as int % 8, x[0] as int / 8, x[1..];
    match v
    case Nil => t == 0 && y == []
    case Boolean(b) => t == 1 && y == [] && (b <==> cookie != 0)
    case Integer(n) => t == 2 && IntegerForm(n, cookie, y)
    case Real(bytes) => t == 2 && cookie == 8 && y == bytes && |bytes| == 8
    case Pointer(bytes) => t == 3 && y == bytes && |bytes| == 8
    case String(s) => StringForm(s, t, cookie, y)
    case Table(arr, hash) =>
      t == 6 && exists k: nat, m: nat ::
        k <= m <= |y| && SizeForm(|arr|, cookie, y[..k]) && ListForm(arr, y[k..m]) && PairsForm(hash, y[m..])
  }

  ghost predicate ListForm(vs: seq<Value>, z: seq<byte>)
    decreases vs, 0
  {
    if vs == [] then z == [] else
      exists k: nat :: k <= |z| && IsForm(vs[0], z[..k]) && ListForm(vs[1..], z[k..])
  }

  /** Keys and values, and a nil in the place of a key. */
  ghost predicate PairsForm(ps: seq<Pair>, z: seq<byte>)
    decreases ps, 0
  {
    if ps == [] then |z| == 1 && z[0] as int % 8 == 0 else
      exists k: nat, m: nat :: k <= m <= |z| && PairForm(ps[0], z[..k], z[k..m]) && PairsForm(ps[1..], z[m..])
  }

  ghost predicate PairForm(p: Pair, x: seq<byte>, y: seq<byte>)
    decreases p, 0
  {
    !p.key.Nil? && IsForm(p.key, x) && IsForm(p.value, y)
  }

  // ----- reading accepts every form

  lemma Cut<T>(a: seq<T>, b: seq<T>)
    ensures (a + b)[..|a|] == a && (a + b)[|a|..] == b
    ensures a != [] ==> (a + b)[0] == a[0] && (a + b)[1..] == a[1..] + b
  {
  }

  lemma Parts<T>(a: seq<T>, k: nat, m: nat, rest: seq<T>)
    requires k <= m <= |a|
    ensures a + rest == a[..k] + (a[k..m] + (a[m..] + rest)) == a[..m] + (a[m..] + rest) && a + rest == a[..k] + (a[k..] + rest)
  {
  }

  lemma ReadsInteger(n: int, cookie: nat, y: seq<byte>, rest: seq<byte>)
    requires IntegerForm(n, cookie, y)
    ensures -0x8000_0000_0000_0000 <= n < 0x8000_0000_0000_0000 && GetInteger(y + rest, cookie) == Ok(n, rest)
  {
    hide Number, Pow256;
    Powers();
    Cut(y, rest);
    NumberBound(y);
  }

  lemma ReadsSize(n: nat, cookie: nat, y: seq<byte>, rest: seq<byte>)
    requires SizeForm(n, cookie, y) && cookie < 32
    ensures GetSize(y + rest, cookie).Ok? && GetSize(y + rest, cookie).rest == rest
    ensures var i := GetSize(y + rest, cookie).value; n == if i > 0 then i else 0
  {
    hide GetInteger, IntegerForm;
    if cookie == 31 {
      Cut(y, rest);
      var i: int :| IntegerForm(i, y[0] as int / 8, y[1..]) && n == if i > 0 then i else 0;
      ReadsInteger(i, y[0] as int / 8, y[1..], rest);
      NotReal(i, y[0] as int / 8, y[1..]);
    } else {
      assert y + rest == rest;
    }
  }

  lemma NotReal(n: int, cookie: nat, y: seq<byte>)
    requires IntegerForm(n, cookie, y)
    ensures cookie != 8
  {
  }

  lemma ReadsString(s: seq<byte>, t: nat, cookie: nat, y: seq<byte>, rest: seq<byte>)
    requires StringForm(s, t, cookie, y) && cookie < 32
    ensures PushValue(y + rest, t, cookie) == Ok(String(s), rest)
  {
    hide Number, GetInteger, UnpackTable;
    Cut(y, rest);
    if t == 5 { Cut(y[cookie..], rest); Parts(y, cookie, cookie, rest); Cut(y[..cookie], y[cookie..] + rest); }
  }

  /** Every form of a value is read as that value, whatever comes behind it. */
  lemma {:induction false} Reads(v: Value, x: seq<byte>, rest: seq<byte>)
    requires IsForm(v, x)
    ensures UnpackOne(x + rest) == Ok(v, rest)
    decreases v, 1
  {
    hide IntegerForm, StringForm, SizeForm, ListForm, PairsForm, GetInteger, GetSize, GetLongString, UnpackArray, UnpackPairs;
    Cut(x, rest);
    var t, cookie, y := x[0] as int % 8, x[0] as int / 8, x[1..];
    match v
    case Integer(n) => ReadsInteger(n, cookie, y, rest); NotReal(n, cookie, y);
    case String(s) => ReadsString(s, t, cookie, y, rest);
    case Table(arr, hash) =>
      var k: nat, m: nat :|
        k <= m <= |y| && SizeForm(|arr|, cookie, y[..k]) && ListForm(arr, y[k..m]) && PairsForm(hash, y[m..]);
      Parts(y, k, m, rest);
      ReadsSize(|arr|, cookie, y[..k], y[k..m] + (y[m..] + rest));
      ReadsList(arr, y[k..m], y[m..] + rest, GetSize(y + rest, cookie).value);
      ReadsPairs(hash, y[m..], rest);
      assert UnpackTable(y + rest, cookie) == Ok(v, rest);
    case _ => hide UnpackOne; ReadsLeaf(v, x, rest);
  }

  lemma ReadsLeaf(v: Value, x: seq<byte>, rest: seq<byte>)
    requires IsForm(v, x) && (v.Nil? || v.Boolean? || v.Real? || v.Pointer?)
    ensures UnpackOne(x + rest) == Ok(v, rest)
  {
    var b := x + rest;
    assert b[1..] == x[1..] + rest && b[0] == x[0];
    if v.Nil? || v.Boolean? {
      assert b[1..] == rest;
    } else {
      assert b[1..][..8] == x[1..] && b[1..][8..] == rest;
    }
  }

  lemma {:induction false} ReadsList(vs: seq<Value>, z: seq<byte>, rest: seq<byte>, n: int)
    requires ListForm(vs, z) && |vs| == if n > 0 then n else 0
    ensures UnpackArray(z + rest, n) == Ok(vs, rest)
    decreases vs, 0
  {
    hide IsForm, UnpackOne;
    if vs == [] {
      assert z + rest == rest;
    } else {
      var k: nat :| k <= |z| && IsForm(vs[0], z[..k]) && ListForm(vs[1..], z[k..]);
      Parts(z, k, k, rest);
      Reads(vs[0], z[..k], z[k..] + rest);
      ReadsList(vs[1..], z[k..], rest, n - 1);
      assert vs == [vs[0]] + vs[1..];
    }
  }

  lemma {:induction false} ReadsPairs(ps: seq<Pair>, z: seq<byte>, rest: seq<byte>)
    requires PairsForm(ps, z)
    ensures UnpackPairs(z + rest) == Ok(ps, rest)
    decreases ps, 0
  {
    hide UnpackOne, PairForm;
    if ps == [] {
      ReadsNil(z, rest);
    } else {
      var k: nat, m: nat :| k <= m <= |z| && PairForm(ps[0], z[..k], z[k..m]) && PairsForm(ps[1..], z[m..]);
      Parts(z, k, m, rest);
      ReadsPair(ps[0], z[..k], z[k..m], z[m..] + rest);
      ReadsPairs(ps[1..], z[m..], rest);
      assert ps == [ps[0]] + ps[1..] && ps[0] == Pair(ps[0].key, ps[0].value);
    }
  }

  lemma {:induction false} ReadsPair(p: Pair, x: seq<byte>, y: seq<byte>, more: seq<byte>)
    requires PairForm(p, x, y)
    ensures !p.key.Nil? && UnpackOne(x + (y + more)) == Ok(p.key, y + more) && UnpackOne(y + more) == Ok(p.value, more)
    decreases p, 0
  {
    hide UnpackOne, IsForm;
    Reads(p.key, x, y + more);
    Reads(p.value, y, more);
  }

  lemma ReadsNil(z: seq<byte>, rest: seq<byte>)
    requires |z| == 1 && z[0] as int % 8 == 0
    ensures UnpackOne(z + rest) == Ok(Nil, rest)
  {
    assert (z + rest)[1..] == rest;
  }

  // ----- and nothing else

  lemma IntegerWas(b: seq<byte>, cookie: nat) returns (y: seq<byte>)
    requires GetInteger(b, cookie).Ok?
    ensures b == y + GetInteger(b, cookie).rest && IntegerForm(GetInteger(b, cookie).value, cookie, y)
  {
    hide Number, Pow256;
    var n := if cookie == 0 then 0 else if cookie == 1 then 1 else if cookie == 2 then 2 else if cookie == 4 then 4 else 8;
    y := b[..n];
  }

  lemma SizeWas(b: seq<byte>, cookie: nat) returns (y: seq<byte>)
    requires cookie < 32 && GetSize(b, cookie).Ok?
    ensures var r := GetSize(b, cookie); b == y + r.rest && SizeForm(if r.value > 0 then r.value else 0, cookie, y)
  {
    hide GetInteger, IntegerForm;
    if cookie == 31 {
      var z := IntegerWas(b[1..], b[0] as int / 8);
      y := [b[0]] + z;
      assert y[1..] == z && LongSize(if GetSize(b, cookie).value > 0 then GetSize(b, cookie).value else 0, y[0] as int / 8, y[1..]);
    } else {
      y := [];
    }
  }

  lemma StringWas(b: seq<byte>, t: nat, cookie: nat) returns (y: seq<byte>)
    requires (t == 4 || t == 5) && cookie < 32 && PushValue(b, t, cookie).Ok?
    ensures var r := PushValue(b, t, cookie); r.value.String? && b == y + r.rest && StringForm(r.value.s, t, cookie, y)
  {
    hide Number, GetInteger, UnpackTable;
    if t == 4 {
      y := b[..cookie];
    } else {
      var n := Number(b[..cookie]);
      y := b[..cookie + n];
      assert y[..cookie] == b[..cookie] && y[cookie..] == b[cookie..][..n] && b[cookie..][n..] == b[cookie + n..];
    }
  }

  /** Whatever is read as a value begins with a form of that value. */
  lemma {:induction false} Was(b: seq<byte>) returns (x: seq<byte>)
    requires UnpackOne(b).Ok?
    ensures b == x + UnpackOne(b).rest && IsForm(UnpackOne(b).value, x)
    decreases |b|, 1
  {
    hide IntegerForm, StringForm, SizeForm, ListForm, PairsForm, GetInteger, GetLongString, UnpackTable;
    var t, cookie := b[0] as int % 8, b[0] as int / 8;
    var y: seq<byte>;
    if t == 2 && cookie != 8 {
      y := IntegerWas(b[1..], cookie);
    } else if t == 4 || t == 5 {
      y := StringWas(b[1..], t, cookie);
    } else if t == 6 {
      y := TableWas(b[1..], cookie);
    } else if t == 0 || t == 1 {
      y := [];
    } else {
      y := b[1..][..8];
    }
    x := [b[0]] + y;
    assert x[1..] == y && b == [b[0]] + b[1..];
  }

  lemma {:induction false} TableWas(b: seq<byte>, cookie: nat) returns (y: seq<byte>)
    requires cookie < 32 && UnpackTable(b, cookie).Ok?
    ensures var r := UnpackTable(b, cookie); r.value.Table? && b == y + r.rest
    ensures forall c: byte :: c as int == 6 + 8 * cookie ==> IsForm(UnpackTable(b, cookie).value, [c] + y)
    decreases |b|, 3
  {
    hide SizeForm, ListForm, PairsForm, GetSize, UnpackArray, UnpackPairs;
    var size := SizeWas(b, cookie);
    var n, rest := GetSize(b, cookie).value, GetSize(b, cookie).rest;
    var items := ListWas(rest, n);
    var rest2 := UnpackArray(rest, n).rest;
    var pairs := PairsWas(rest2);
    y := size + items + pairs;
    var v := UnpackTable(b, cookie).value;
    TableParts(v.arr, v.hash, cookie, size, items, pairs);
  }

  lemma TableParts(arr: seq<Value>, hash: seq<Pair>, cookie: nat, size: seq<byte>, items: seq<byte>, pairs: seq<byte>)
    requires cookie < 32 && SizeForm(|arr|, cookie, size) && ListForm(arr, items) && PairsForm(hash, pairs)
    ensures forall c: byte :: c as int == 6 + 8 * cookie ==> IsForm(Table(arr, hash), [c] + (size + items + pairs))
  {
    hide SizeForm, ListForm, PairsForm;
    var y := size + items + pairs;
    var k, m := |size|, |size| + |items|;
    assert y[..k] == size && y[k..m] == items && y[m..] == pairs;
    forall c: byte | c as int == 6 + 8 * cookie ensures IsForm(Table(arr, hash), [c] + y) {
      assert ([c] + y)[1..] == y;
    }
  }

  lemma {:induction false} ListWas(b: seq<byte>, n: int) returns (z: seq<byte>)
    requires UnpackArray(b, n).Ok?
    ensures var r := UnpackArray(b, n); b == z + r.rest && ListForm(r.value, z) && |r.value| == if n > 0 then n else 0
    decreases |b|, 2
  {
    hide IsForm, UnpackOne;
    if n <= 0 {
      z := [];
    } else {
      var x := Was(b);
      var v, rest := UnpackOne(b).value, UnpackOne(b).rest;
      var more := ListWas(rest, n - 1);
      z := x + more;
      var vs := [v] + UnpackArray(rest, n - 1).value;
      Cut(x, more);
      assert vs[0] == v && vs[1..] == UnpackArray(rest, n - 1).value;
    }
  }

  lemma {:induction false} PairsWas(b: seq<byte>) returns (z: seq<byte>)
    requires UnpackPairs(b).Ok?
    ensures var r := UnpackPairs(b); b == z + r.rest && PairsForm(r.value, z)
    decreases |b|, 2
  {
    hide UnpackOne;
    var x := Was(b);
    var k, rest := UnpackOne(b).value, UnpackOne(b).rest;
    if k.Nil? {
      z := x;
    } else {
      var y := Was(rest);
      var v, rest2 := UnpackOne(rest).value, UnpackOne(rest).rest;
      var more := PairsWas(rest2);
      z := x + y + more;
      var ps := [Pair(k, v)] + UnpackPairs(rest2).value;
      assert z[..|x|] == x && z[|x|..|x| + |y|] == y && z[|x| + |y|..] == more;
      assert ps[0] == Pair(k, v) && ps[1..] == UnpackPairs(rest2).value;
    }
  }

  /** Reading accepts exactly the forms of a value, followed by anything. */
  lemma ReadsExactly(b: seq<byte>, v: Value, rest: seq<byte>)
    ensures UnpackOne(b) == Ok(v, rest) <==> exists x: seq<byte> :: b == x + rest && IsForm(v, x)
  {
    hide IsForm, UnpackOne;
    if UnpackOne(b) == Ok(v, rest) {
      var x := Was(b);
      assert b == x + rest && IsForm(v, x);
    }
    if exists x: seq<byte> :: b == x + rest && IsForm(v, x) {
      var x: seq<byte> :| b == x + rest && IsForm(v, x);
      Reads(v, x, rest);
    }
  }
}
