// The key exchange: powers modulo the largest prime below 2^64, computed in wrapping 64-bit arithmetic.
module CryptDh {
  import opened Bytes
  import opened Wrappers

  const P := 0xffff_ffff_ffff_ffc5
  const G := 5
  const TWO64 := 0x1_0000_0000_0000_0000

  type uint64 = x: int | 0 <= x < TWO64

  /** What an unsigned 64-bit operation leaves of its result. */
  function Wrap(x: int): uint64 {
    x % TWO64
  }

  function Pow(a: nat, b: nat): nat {
    if b == 0 then 1 else a * Pow(a, b - 1)
  }

  // ----- arithmetic modulo P

  lemma ModPlus(x: int, k: int)
    ensures (x + k * P) % P == x % P
  {
    var q := x / P;
    assert x + k * P == (q + k) * P + x % P;
    ModUnique(x + k * P, q + k, x % P);
  }

  lemma ModUnique(x: int, q: int, r: int)
    requires x == q * P + r && 0 <= r < P
    ensures x % P == r
  {
    var d := x / P - q;
    assert x == (x / P) * P + x % P;
    assert d * P == r - x % P;
  }

  /** Factors may be replaced by their remainders. */
  lemma ModTimes(x: int, y: int)
    ensures (x * y) % P == ((x % P) * y) % P == (x * (y % P)) % P == ((x % P) * (y % P)) % P
  {
    ModFirst(x, y);
    ModFirst(y, x);
    ModFirst(y, x % P);
    assert x * y == y * x && (x % P) * y == y * (x % P) && x * (y % P) == (y % P) * x
        && (x % P) * (y % P) == (y % P) * (x % P);
  }

  lemma ModFirst(x: int, y: int)
    ensures (x * y) % P == ((x % P) * y) % P
  {
    var q, r := x / P, x % P;
    assert x * y == (q * P + r) * y == r * y + (q * y) * P;
    ModPlus(r * y, q * y);
  }

  lemma {:induction false} PowAdd(a: nat, b: nat, c: nat)
    ensures Pow(a, b + c) == Pow(a, b) * Pow(a, c)
  {
    if b > 0 {
      PowAdd(a, b - 1, c);
      assert a * (Pow(a, b - 1) * Pow(a, c)) == a * Pow(a, b - 1) * Pow(a, c);
    }
  }

  lemma {:induction false} PowTimes(a: nat, b: nat, c: nat)
    ensures Pow(Pow(a, b), c) == Pow(a, b * c)
  {
    if c > 0 {
      PowTimes(a, b, c - 1);
      PowAdd(a, b, b * (c - 1));
      assert b + b * (c - 1) == b * c;
    } else {
      assert b * c == 0;
    }
  }

  lemma {:induction false} PowMod(a: nat, b: nat)
    ensures Pow(a, b) % P == Pow(a % P, b) % P
  {
    if b > 0 {
      PowMod(a, b - 1);
      ModTimes(a, Pow(a, b - 1));
      ModTimes(a % P, Pow(a % P, b - 1));
    }
  }

  // ----- the two algorithms

  /** What a round of the multiplication keeps. */
  function Accumulated(m: int, a: int, b: int): int {
    (m + a * b) % P
  }

  /** One round: the lowest bit of b is out of the way, b is halved and a doubled. */
  lemma Halve(m: int, a: int, b: int, m': int, a': int, i: int, j: int)
    requires b >= 0 && m' == m + (if b % 2 == 1 then a else 0) - i * P && a' == 2 * a - j * P
    ensures Accumulated(m', a', b / 2) == Accumulated(m, a, b)
  {
    var h := b / 2;
    assert b == 2 * h + b % 2;
    assert a * b == 2 * a * h + (if b % 2 == 1 then a else 0);
    assert a' * h == 2 * a * h - (j * h) * P;
    assert m' + a' * h == m + a * b + (-(i + j * h)) * P by {
      assert (i + j * h) * P == i * P + (j * h) * P;
    }
    ModPlus(m + a * b, -(i + j * h));
  }

  /** Adding a to m without leaving the 64 bits. */
  lemma AddFits(m: uint64, a: uint64)
    requires m < P && a <= P
    ensures var t := Wrap(P - a);
      if m >= t then Wrap(m - t) == m + a - 1 * P && Wrap(m - t) < P else Wrap(m + a) == m + a - 0 * P && Wrap(m + a) < P
  {
  }

  /** Doubling a, where the product may wrap and the difference wraps back. */
  lemma DoubleFits(a: uint64)
    requires a <= P
    ensures if a >= Wrap(P - a) then Wrap(Wrap(a * 2) - P) == 2 * a - 1 * P && Wrap(Wrap(a * 2) - P) <= P
            else Wrap(a * 2) == 2 * a - 0 * P && Wrap(a * 2) <= P
  {
    if a >= P - a {
      assert (Wrap(a * 2) - P) % TWO64 == (a * 2 - P) % TWO64;
    }
  }

  /** 'mul_mod_p': exact for any 64-bit b, although 2a and m + a may not fit into 64 bits. */
  method MulModP(a0: uint64, b0: uint64) returns (m: uint64)
    requires a0 <= P
    ensures m == (a0 * b0) % P
  {
    hide Accumulated, Wrap;
    m := 0;
    var a: uint64, b: uint64 := a0, b0;
    while b != 0
      invariant a <= P && m < P
      invariant Accumulated(m, a, b) == Accumulated(0, a0, b0)
      decreases b
    {
      ghost var m1, a1 := m, a;
      ghost var i, j := 0, 0;
      AddFits(m, a);
      DoubleFits(a);
      if b % 2 == 1 {
        var t := Wrap(P - a);
        if m >= t {
          m, i := Wrap(m - t), 1;
        } else {
          m := Wrap(m + a);
        }
      }
      if a >= Wrap(P - a) {
        a, j := Wrap(Wrap(a * 2) - P), 1;
      } else {
        a := Wrap(a * 2);
      }
      Halve(m1, a1, b, m, a, i, j);
      b := b / 2;
    }
    Finished(m, a, a0, b0);
  }

  lemma Finished(m: int, a: int, a0: int, b0: int)
    requires 0 <= m < P && Accumulated(m, a, 0) == Accumulated(0, a0, b0)
    ensures m == (a0 * b0) % P
  {
    assert a * 0 == 0;
  }

  /** What the power comes out as: for a base of exactly P and an exponent of 1 it is not reduced. */
  function Power(a: uint64, b: uint64): uint64
    requires b > 0
  {
    if a == P && b == 1 then P else Pow(a, b) % P
  }

  lemma SquareStep(a: nat, b: nat, t: nat)
    requires b > 1 && t % P == Pow(a, b / 2) % P
    ensures var s := (t * t) % P; Pow(a, b) % P == if b % 2 == 1 then (s * a) % P else s
  {
    var h := b / 2;
    PowAdd(a, h, h);
    ModTimes(t, t);
    ModTimes(Pow(a, h), Pow(a, h));
    assert (t * t) % P == Pow(a, 2 * h) % P;
    if b % 2 == 1 {
      assert Pow(a, b) == a * Pow(a, 2 * h) == Pow(a, 2 * h) * a;
      ModFirst(Pow(a, 2 * h), a);
    }
  }

  /** 'pow_mod_p' */
  method PowModP(a: uint64, b: uint64) returns (t: uint64)
    requires a <= P && b > 0
    ensures t == Power(a, b) && t <= P
    decreases b
  {
    if b == 1 {
      assert Pow(a, 1) == a * Pow(a, 0) == a;
      return a;
    }
    t := PowModP(a, b / 2);
    assert t % P == Pow(a, b / 2) % P by {
      assert b / 2 == 1 ==> Pow(a, 1) == a * Pow(a, 0) == a;
    }
    SquareStep(a, b, t);
    t := MulModP(t, t);
    if b % 2 != 0 {
      t := MulModP(t, a);
    }
  }

  /** 'powmodp': any base. */
  method PowerOf(a0: uint64, b: uint64) returns (r: uint64)
    requires b > 0
    ensures r == Power(a0, b)
  {
    var a := a0;
    if a > P {
      a := a % P;
      PowMod(a0, b);
    }
    r := PowModP(a, b);
  }

  /** The result is the power modulo P in all cases but this one. */
  lemma PowerExact(a: uint64, b: uint64)
    requires b > 0
    ensures Power(a, b) == Pow(a, b) % P <==> !(a == P && b == 1)
  {
    assert Pow(P, 1) == P * Pow(P, 0) == P;
  }

  // ----- the exchange

  /** 'ldhexchange' */
  function Exchange(x: seq<byte>): Result<seq<byte>> {
    if |x| != 8 then Error else
      NumberBound(x);
      Powers();
      if Number(x) == 0 then Error else Ok(LowBytes(Power(G, Number(x)), 8))
  }

  /** 'ldhsecret' */
  function Secret(x: seq<byte>, y: seq<byte>): Result<seq<byte>> {
    if |x| != 8 || |y| != 8 then Error else
      NumberBound(x);
      NumberBound(y);
      Powers();
      if Number(x) == 0 || Number(y) == 0 then Error else Ok(LowBytes(Power(Number(x), Number(y)), 8))
  }

  method DhExchange(x: seq<byte>) returns (r: Result<seq<byte>>)
    ensures r == Exchange(x)
  {
    if |x| != 8 || Number(x) == 0 {
      return Error;
    }
    NumberBound(x);
    Powers();
    var p := PowerOf(G, Number(x));
    r := Ok(LowBytes(p, 8));
  }

  method DhSecret(x: seq<byte>, y: seq<byte>) returns (r: Result<seq<byte>>)
    ensures r == Secret(x, y)
  {
    if |x| != 8 || |y| != 8 || Number(x) == 0 || Number(y) == 0 {
      return Error;
    }
    NumberBound(x);
    NumberBound(y);
    Powers();
    var p := PowerOf(Number(x), Number(y));
    r := Ok(LowBytes(p, 8));
  }

  /** 5 has an inverse modulo P, so that no power of 5 is 0. */
  lemma {:induction false} NeverZero(x: nat)
    ensures Pow(G, x) % P != 0
  {
    if x > 0 {
      NeverZero(x - 1);
      var z, inverse := Pow(G, x - 1), 7378697629483820623;
      assert inverse * G == 1 + 2 * P;
      if (G * z) % P == 0 {
        ModTimes(inverse, G * z);
        assert inverse * (G * z) == z + (2 * z) * P by {
          assert inverse * (G * z) == (inverse * G) * z;
        }
        ModPlus(z, 2 * z);
        assert false;
      }
    }
  }

  lemma ExchangeIs(x: seq<byte>)
    requires |x| == 8 && Number(x) != 0
    ensures Exchange(x).Ok? && |Exchange(x).value| == 8
    ensures Number(Exchange(x).value) == Pow(G, Number(x)) % P != 0
  {
    NumberBound(x);
    Powers();
    NeverZero(Number(x));
    NumberOfLowBytes(Power(G, Number(x)), 8);
  }

  lemma SecretIs(x: seq<byte>, y: seq<byte>)
    requires |x| == 8 && |y| == 8 && Number(x) != 0 && Number(y) != 0
    ensures Secret(Exchange(x).value, y) == Ok(LowBytes(Pow(G, Number(x) * Number(y)) % P, 8))
  {
    ExchangeIs(x);
    NumberBound(y);
    Powers();
    var a, b := Number(x), Number(y);
    PowMod(Pow(G, a), b);
    PowTimes(G, a, b);
  }

  /** Both sides compute the same secret, from any keys that are not 0, and neither gets an error. */
  lemma SecretsAgree(x: seq<byte>, y: seq<byte>)
    requires |x| == 8 && |y| == 8 && Number(x) != 0 && Number(y) != 0
    ensures Exchange(x).Ok? && Exchange(y).Ok?
    ensures Secret(Exchange(x).value, y) == Secret(Exchange(y).value, x) && Secret(Exchange(x).value, y).Ok?
  {
    ExchangeIs(x);
    ExchangeIs(y);
    SecretIs(x, y);
    SecretIs(y, x);
    assert Number(x) * Number(y) == Number(y) * Number(x);
  }
}
