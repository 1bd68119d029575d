/**
 Bit operations on integers read as infinite two's-complement strings.  A shift right is the
 division by a power of two (`/` rounds down), and AndMask justifies writing `% 2^k` for a mask
 of k ones.
 */
module Bits {
  import opened Arith

  function And(a: int, b: int): int
    decreases if a < 0 then -a else a
  {
    if a == 0 then 0
    else if a == -1 then b
    else 2 * And(a / 2, b / 2) + (if a % 2 == 1 && b % 2 == 1 then 1 else 0)
  }

  function Not(a: int): int { -1 - a }

  function Or(a: int, b: int): int { Not(And(Not(a), Not(b))) }

  function Xor(a: int, b: int): int
    decreases if a < 0 then -a else a
  {
    if a == 0 then b
    else if a == -1 then Not(b)
    else 2 * Xor(a / 2, b / 2) + (if a % 2 == b % 2 then 0 else 1)
  }

  lemma {:induction false} AndComm(a: int, b: int)
    ensures And(a, b) == And(b, a)
    decreases if a < 0 then -a else a
  {
    if a == 0 || a == -1 {
      AndConst(b);
    } else if b == 0 || b == -1 {
      AndConst(a);
    } else {
      AndComm(a / 2, b / 2);
    }
  }

  lemma {:induction false} AndConst(a: int)
    ensures And(a, 0) == 0 && And(a, -1) == a
    decreases if a < 0 then -a else a
  {
    if a != 0 && a != -1 { AndConst(a / 2); }
  }

  /** Masking with k ones keeps the remainder modulo 2^k, for negative numbers too. */
  lemma {:induction false} AndMask(v: int, k: nat)
    ensures Pow(2, k) > 0 && And(v, Pow(2, k) - 1) == v % Pow(2, k)
    decreases k
  {
    PowPos(2, k);
    if k == 0 {
      AndConst(v);
    } else if v == -1 {
      DivModUnique(-1, Pow(2, k), -1, Pow(2, k) - 1);
    } else if v != 0 {
      assert (Pow(2, k) - 1) / 2 == Pow(2, k - 1) - 1;
      AndMask(v / 2, k - 1);
      ModHalves(v, Pow(2, k - 1));
    }
  }

  lemma {:induction false} ModHalves(v: int, m: int)
    requires m > 0
    ensures v % (2 * m) == 2 * (v / 2 % m) + v % 2
  {
    var q := v / 2 / m;
    assert v / 2 == m * q + v / 2 % m;
    assert v == (2 * m) * q + (2 * (v / 2 % m) + v % 2);
    DivModUnique(v, 2 * m, q, 2 * (v / 2 % m) + v % 2);
  }

  /** An and of a number below 2^k and a multiple of 2^k is empty. */
  lemma {:induction false} AndDisjoint(a: int, b: int, k: nat)
    requires 0 <= a < Pow(2, k)
    ensures And(a, b * Pow(2, k)) == 0
    decreases k
  {
    if a != 0 {
      assert k > 0;
      var w := Pow(2, k - 1);
      assert b * Pow(2, k) == 2 * (b * w);
      AndDisjoint(a / 2, b, k - 1);
    }
  }

  lemma {:induction false} AndHalves(a: int, b: int)
    ensures And(a, b) / 2 == And(a / 2, b / 2)
    ensures And(a, b) % 2 == (if a % 2 == 1 && b % 2 == 1 then 1 else 0)
  {
    if a == 0 || a == -1 { assert a / 2 == a; }
  }

  lemma {:induction false} AndSum(a: int, b: int)
    ensures And(a, b) + Or(a, b) == a + b
    decreases if a < 0 then -a else a
  {
    if a != 0 && a != -1 {
      AndSum(a / 2, b / 2);
      hide And;
      AndHalves(a, b);
      AndHalves(Not(a), Not(b));
      assert Not(a) / 2 == Not(a / 2) && Not(b) / 2 == Not(b / 2);
    }
  }

  lemma {:induction false} OrDisjoint(a: int, b: int, k: nat)
    requires 0 <= a < Pow(2, k)
    ensures Or(a, b * Pow(2, k)) == a + b * Pow(2, k)
  {
    AndDisjoint(a, b, k);
    AndSum(a, b * Pow(2, k));
  }

  lemma {:induction false} XorHalves(a: int, b: int)
    ensures Xor(a, b) / 2 == Xor(a / 2, b / 2)
    ensures Xor(a, b) % 2 == (if a % 2 == b % 2 then 0 else 1)
  {
    if a == 0 || a == -1 { assert a / 2 == a; }
  }

  lemma {:induction false} XorConst(a: int)
    ensures Xor(a, 0) == a && Xor(a, -1) == Not(a)
    decreases if a < 0 then -a else a
  {
    if a != 0 && a != -1 {
      hide Xor;
      XorConst(a / 2);
      XorHalves(a, 0);
      XorHalves(a, -1);
    }
  }

  lemma {:induction false} XorComm(a: int, b: int)
    ensures Xor(a, b) == Xor(b, a)
    decreases if a < 0 then -a else a
  {
    if a == 0 || a == -1 {
      XorConst(b);
    } else if b == 0 || b == -1 {
      XorConst(a);
    } else {
      hide Xor;
      XorComm(a / 2, b / 2);
      XorHalves(a, b);
      XorHalves(b, a);
    }
  }

  lemma {:induction false} XorCancel(a: int, b: int)
    ensures Xor(a, Xor(a, b)) == b
    decreases if a < 0 then -a else a
  {
    if a != 0 && a != -1 {
      hide Xor;
      var c := Xor(a, b);
      XorHalves(a, b);
      XorHalves(a, c);
      XorCancel(a / 2, b / 2);
    }
  }

  /** The masked difference exchanges two values or leaves them, as the mask is -1 or 0. */
  lemma {:induction false} XorSwap(mask: int, a: int, b: int)
    requires mask == 0 || mask == -1
    ensures var d := And(mask, Xor(a, b));
            Xor(a, d) == (if mask == 0 then a else b) && Xor(b, d) == (if mask == 0 then b else a)
  {
    XorConst(a);
    XorConst(b);
    XorCancel(a, b);
    XorComm(a, b);
    XorCancel(b, a);
  }
  
  /** Values below 2^k, or at least -2^k, keep that bound under and. */
  lemma {:induction false} AndBound(a: int, b: int, k: nat)
    requires -Pow(2, k) <= a < Pow(2, k) && -Pow(2, k) <= b < Pow(2, k)
    ensures -Pow(2, k) <= And(a, b) < Pow(2, k)
    ensures a >= 0 || b >= 0 ==> And(a, b) >= 0
    ensures a < 0 && b < 0 ==> And(a, b) < 0
    decreases k
  {
    if a != 0 && a != -1 {
      AndBound(a / 2, b / 2, k - 1);
    }
  }

  /** Values that fit k+1 signed bits are closed under the bit operations. */
  lemma {:induction false} XorRange(a: int, b: int, k: nat)
    requires -Pow(2, k) <= a < Pow(2, k) && -Pow(2, k) <= b < Pow(2, k)
    ensures -Pow(2, k) <= Xor(a, b) < Pow(2, k)
    ensures a >= 0 && b >= 0 ==> Xor(a, b) >= 0
    decreases k
  {
    if a != 0 && a != -1 {
      XorRange(a / 2, b / 2, k - 1);
    }
  }

  /** Bit i of an integer. */
  function BitAt(a: int, i: nat): (b: int)
    ensures b == 0 || b == 1
  {
    PowPos(2, i);
    a / Pow(2, i) % 2
  }

  lemma {:induction false} BitShift(a: int, i: nat)
    ensures BitAt(a, i + 1) == BitAt(a / 2, i)
  {
    PowPos(2, i);
    PowTop(2, i);
    DivDiv(a, 2, Pow(2, i));
  }

  lemma {:induction false} BitDef(a: int, i: nat)
    ensures Pow(2, i) > 0 && BitAt(a, i) == a / Pow(2, i) % 2
  {
    PowPos(2, i);
  }

  lemma {:induction false} BitDrop(a: int, k: nat, i: nat)
    ensures Pow(2, k) > 0 && BitAt(a, k + i) == BitAt(a / Pow(2, k), i)
  {
    PowPos(2, k);
    PowPos(2, i);
    PowAdd(2, k, i);
    DivDiv(a, Pow(2, k), Pow(2, i));
  }

  lemma {:induction false} BitAnd(a: int, b: int, i: nat)
    ensures BitAt(And(a, b), i) == if BitAt(a, i) == 1 && BitAt(b, i) == 1 then 1 else 0
    decreases i
  {
    AndHalves(a, b);
    if i > 0 {
      hide And, BitAt;
      BitShift(And(a, b), i - 1);
      BitShift(a, i - 1);
      BitShift(b, i - 1);
      BitAnd(a / 2, b / 2, i - 1);
    }
  }

  lemma {:induction false} BitNot(a: int, i: nat)
    ensures BitAt(Not(a), i) == 1 - BitAt(a, i)
    decreases i
  {
    if i > 0 {
      hide BitAt;
      assert Not(a) / 2 == Not(a / 2);
      BitShift(Not(a), i - 1);
      BitShift(a, i - 1);
      BitNot(a / 2, i - 1);
    }
  }

  lemma {:induction false} BitOr(a: int, b: int, i: nat)
    ensures BitAt(Or(a, b), i) == if BitAt(a, i) == 1 || BitAt(b, i) == 1 then 1 else 0
  {
    hide And, BitAt;
    BitAnd(Not(a), Not(b), i);
    BitNot(And(Not(a), Not(b)), i);
    BitNot(a, i);
    BitNot(b, i);
  }

  lemma {:induction false} BitXor(a: int, b: int, i: nat)
    ensures BitAt(Xor(a, b), i) == if BitAt(a, i) == BitAt(b, i) then 0 else 1
    decreases i
  {
    XorHalves(a, b);
    if i > 0 {
      hide Xor, BitAt;
      BitShift(Xor(a, b), i - 1);
      BitShift(a, i - 1);
      BitShift(b, i - 1);
      BitXor(a / 2, b / 2, i - 1);
    }
  }

  lemma {:induction false} OrComm(a: int, b: int)
    ensures Or(a, b) == Or(b, a)
  {
    AndComm(Not(a), Not(b));
  }

  /** Or of numbers below 2^k stays below 2^k. */
  lemma {:induction false} OrBound(a: int, b: int, k: nat)
    requires 0 <= a < Pow(2, k) && 0 <= b < Pow(2, k)
    ensures 0 <= Or(a, b) < Pow(2, k)
  {
    AndBound(Not(a), Not(b), k);
  }

  /** The bits below k do not see what is added at 2^k and above. */
  lemma {:induction false} BitLow(a: int, b: int, k: nat, i: nat)
    requires i < k
    ensures BitAt(a + Pow(2, k) * b, i) == BitAt(a, i)
  {
    BitDef(a, i);
    BitDef(a + Pow(2, k) * b, i);
    hide Pow, BitAt;
    var w, u := Pow(2, i), Pow(2, k - i - 1);
    PowAdd(2, i, k - i);
    PowTop(2, k - i - 1);
    Shuffle(w, u, b);
    DivShift(a, 2 * (u * b), w);
    ModShift(a / w, u * b, 2);
  }

  lemma {:induction false} Shuffle(w: int, u: int, b: int)
    ensures w * (2 * u) * b == w * (2 * (u * b))
  {
    assert 2 * u * b == 2 * (u * b);
  }

  lemma {:induction false} OnesBit(n: nat, b: nat)
    requires b < n
    ensures BitAt(Pow(2, n) - 1, b) == 1
    decreases n
  {
    PowTop(2, n - 1);
    if b > 0 {
      hide BitAt;
      assert (Pow(2, n) - 1) / 2 == Pow(2, n - 1) - 1;
      BitShift(Pow(2, n) - 1, b - 1);
      OnesBit(n - 1, b - 1);
    }
  }
}
