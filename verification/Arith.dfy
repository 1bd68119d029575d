/** Powers and congruences of integers. */
module Arith {

  function Pow(b: int, e: nat): int
  {
    if e == 0 then 1 else b * Pow(b, e - 1)
  }

  lemma {:induction false} PowPos(b: int, e: nat)
    requires b > 0
    ensures Pow(b, e) > 0
  {
    if e > 0 { PowPos(b, e - 1); }
  }

  lemma {:induction false} PowTop(b: int, e: nat)
    ensures Pow(b, 0) == 1 && Pow(b, e + 1) == b * Pow(b, e)
  {
  }

  lemma {:induction false} PowAdd(b: int, e: nat, f: nat)
    ensures Pow(b, e + f) == Pow(b, e) * Pow(b, f)
  {
    if e > 0 {
      PowAdd(b, e - 1, f);
      assert b * (Pow(b, e - 1) * Pow(b, f)) == (b * Pow(b, e - 1)) * Pow(b, f);
    }
  }

  lemma {:induction false} TwoTo64()
    ensures Pow(2, 8) == 0x100 && Pow(2, 32) == 0x1_0000_0000 && Pow(2, 64) == 0x1_0000_0000_0000_0000
    ensures Pow(2, 63) == 0x8000_0000_0000_0000
  {
    hide Pow;
    PowTop(2, 0);
    PowAdd(2, 1, 1);
    PowAdd(2, 2, 2);
    PowAdd(2, 4, 4);
    PowAdd(2, 8, 8);
    PowAdd(2, 16, 16);
    PowAdd(2, 32, 32);
    PowTop(2, 63);
  }

  lemma {:induction false} PowMul(b: int, e: nat, f: nat)
    ensures e * f >= 0 && Pow(Pow(b, e), f) == Pow(b, e * f)
  {
    assert e * f >= 0;
    if f > 0 {
      PowMul(b, e, f - 1);
      PowAdd(b, e, e * (f - 1));
      assert e + e * (f - 1) == e * f;
    }
  }

  lemma {:induction false} PowOne(e: nat)
    ensures Pow(1, e) == 1
  {
    if e > 0 { PowOne(e - 1); }
  }

  lemma {:induction false} PowBase(a: int, b: int, e: nat)
    ensures Pow(a * b, e) == Pow(a, e) * Pow(b, e)
  {
    if e > 0 {
      PowBase(a, b, e - 1);
      MulSwap(a, b, Pow(a, e - 1), Pow(b, e - 1));
    }
  }

  lemma {:induction false} MulSwap(a: int, b: int, c: int, d: int)
    ensures (a * b) * (c * d) == (a * c) * (b * d)
  {
    calc {
      (a * b) * (c * d);
      ((a * b) * c) * d;
      ((a * c) * b) * d;
      (a * c) * (b * d);
    }
  }

  /** The quotient and remainder of a division are the only ones that fit. */
  lemma {:induction false} DivModUnique(a: int, m: int, q: int, t: int)
    requires 0 <= t < m && a == m * q + t
    ensures a % m == t && a / m == q
  {
    var d := q - a / m;
    assert m * d == a % m - t;
    assert d < 1 && d > -1 by {
      if d >= 1 { MulMono(m, 1, d); } else if d <= -1 { MulMono(m, d, -1); }
    }
  }

  lemma {:induction false} MulMono(m: int, a: int, b: int)
    requires m >= 0 && a <= b
    ensures m * a <= m * b
  {
  }

  /** Adding a multiple of the modulus changes nothing. */
  lemma {:induction false} ModShift(a: int, k: int, m: int)
    requires m > 0
    ensures (a + m * k) % m == a % m
  {
    assert a + m * k == m * (a / m + k) + a % m;
    DivModUnique(a + m * k, m, a / m + k, a % m);
  }

  lemma {:induction false} DivShift(a: int, k: int, m: int)
    requires m > 0
    ensures (a + m * k) / m == a / m + k
  {
    assert a + m * k == m * (a / m + k) + a % m;
    DivModUnique(a + m * k, m, a / m + k, a % m);
  }

  lemma {:induction false} DivDiv(a: int, b: int, c: int)
    requires b > 0 && c > 0
    ensures b * c > 0 && a / (b * c) == a / b / c
  {
    var q := a / b / c;
    var t := b * (a / b % c) + a % b;
    assert a == b * c * q + t by {
      assert a / b == c * q + a / b % c;
      assert b * (c * q + a / b % c) == b * (c * q) + b * (a / b % c);
      assert b * (c * q) == b * c * q;
    }
    assert 0 <= t < b * c by {
      MulMono(b, 0, a / b % c);
      MulMono(b, a / b % c, c - 1);
      assert b * (c - 1) == b * c - b;
    }
    DivModUnique(a, b * c, q, t);
  }

  ghost predicate Cong(a: int, b: int, m: int)
    requires m > 0
  {
    a % m == b % m
  }

  lemma {:induction false} CongFrom(a: int, b: int, k: int, m: int)
    requires m > 0 && a == b + m * k
    ensures Cong(a, b, m)
  {
    ModShift(b, k, m);
  }

  lemma {:induction false} CongAdd(a: int, a': int, b: int, b': int, m: int)
    requires m > 0 && Cong(a, a', m) && Cong(b, b', m)
    ensures Cong(a + b, a' + b', m)
  {
    var k, l := a / m - a' / m, b / m - b' / m;
    assert a + b == a' + b' + m * (k + l);
    CongFrom(a + b, a' + b', k + l, m);
  }

  lemma {:induction false} CongSub(a: int, a': int, b: int, b': int, m: int)
    requires m > 0 && Cong(a, a', m) && Cong(b, b', m)
    ensures Cong(a - b, a' - b', m)
  {
    var k, l := a / m - a' / m, b / m - b' / m;
    assert a - b == a' - b' + m * (k - l);
    CongFrom(a - b, a' - b', k - l, m);
  }

  lemma {:induction false} CongScale(a: int, a': int, b: int, m: int)
    requires m > 0 && Cong(a, a', m)
    ensures Cong(a * b, a' * b, m)
  {
    var k := a / m - a' / m;
    assert a == a' + m * k;
    assert (a' + m * k) * b == a' * b + m * (k * b) by {
      assert (m * k) * b == m * (k * b);
    }
    CongFrom(a * b, a' * b, k * b, m);
  }

  lemma {:induction false} CongMul(a: int, a': int, b: int, b': int, m: int)
    requires m > 0 && Cong(a, a', m) && Cong(b, b', m)
    ensures Cong(a * b, a' * b', m)
  {
    CongScale(a, a', b, m);
    CongScale(b, b', a', m);
    assert b * a' == a' * b && b' * a' == a' * b';
  }

  lemma {:induction false} CongPow(a: int, b: int, e: nat, m: int)
    requires m > 0 && Cong(a, b, m)
    ensures Cong(Pow(a, e), Pow(b, e), m)
  {
    if e > 0 {
      CongPow(a, b, e - 1, m);
      CongMul(a, b, Pow(a, e - 1), Pow(b, e - 1), m);
    }
  }
}
