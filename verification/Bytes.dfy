// Numbers of a machine: their widths, and their bytes, the lowest first.
module Bytes {
  type byte = x: int | 0 <= x < 256

  type uint32 = x: int | 0 <= x < 0x1_0000_0000

  /** What the cast to a signed 32-bit integer leaves of an integer. */
  function Int32(n: int): (r: int)
    ensures -0x8000_0000 <= r < 0x8000_0000 && (-0x8000_0000 <= n < 0x8000_0000 ==> r == n)
  {
    (n + 0x8000_0000) % 0x1_0000_0000 - 0x8000_0000
  }

  function Number(x: seq<byte>): nat {
    if x == [] then 0 else x[0] as int + 256 * Number(x[1..])
  }

  /** The n lowest bytes of v. */
  function LowBytes(v: nat, n: nat): (x: seq<byte>)
    ensures |x| == n
  {
    if n == 0 then [] else [v % 256] + LowBytes(v / 256, n - 1)
  }

  function Power2(k: nat): (p: nat)
    ensures p > 0
  {
    if k == 0 then 1 else 2 * Power2(k - 1)
  }

  function Pow256(n: nat): (p: nat)
    ensures p > 0
  {
    if n == 0 then 1 else 256 * Pow256(n - 1)
  }

  lemma {:induction false} NumberBound(x: seq<byte>)
    ensures Number(x) < Pow256(|x|)
  {
    if x != [] { NumberBound(x[1..]); }
  }

  lemma Powers()
    ensures Pow256(1) == 0x100 && Pow256(2) == 0x1_0000 && Pow256(4) == 0x1_0000_0000
    ensures Pow256(8) == 0x1_0000_0000_0000_0000
  {
    assert Pow256(4) == 256 * Pow256(3) && Pow256(3) == 256 * Pow256(2) && Pow256(2) == 256 * Pow256(1);
    assert Pow256(8) == 256 * Pow256(7) && Pow256(7) == 256 * Pow256(6) && Pow256(6) == 256 * Pow256(5) && Pow256(5) == 256 * Pow256(4);
  }

  lemma {:induction false} NumberOfLowBytes(v: nat, n: nat)
    requires v < Pow256(n)
    ensures Number(LowBytes(v, n)) == v
  {
    if n > 0 {
      NumberOfLowBytes(v / 256, n - 1);
      assert LowBytes(v, n)[1..] == LowBytes(v / 256, n - 1);
    }
  }

  /** Which byte stands where. */
  lemma {:induction false} ByteAt(v: nat, n: nat, k: nat)
    requires k < n
    ensures LowBytes(v, n)[k] == v / Pow256(k) % 256
  {
    if k > 0 {
      ByteAt(v / 256, n - 1, k - 1);
      DivideTwice(v, Pow256(k - 1));
    }
  }

  lemma DivideTwice(v: nat, p: nat)
    requires p > 0
    ensures v / 256 / p == v / (256 * p)
  {
    var q, r := v / 256, v % 256;
    assert v == 256 * (p * (q / p) + q % p) + r;
    assert v == (256 * p) * (q / p) + (256 * (q % p) + r);
    assert 0 <= 256 * (q % p) + r < 256 * p;
    Quotient(v, 256 * p, q / p, 256 * (q % p) + r);
  }

  lemma Quotient(v: nat, m: nat, q: nat, r: nat)
    requires m > 0 && r < m && v == m * q + r
    ensures v / m == q
  {
    if v / m < q { Products(m, v / m + 1, q); } else if v / m > q { Products(m, q + 1, v / m); }
  }

  lemma {:induction false} Products(m: nat, a: nat, b: nat)
    requires a <= b
    ensures m * a <= m * b
  {
    if a < b { Products(m, a, b - 1); }
  }
}
