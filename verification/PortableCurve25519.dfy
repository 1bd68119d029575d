/** Sixteen signed 16-bit limbs in 64-bit words: contrib/embeddable-wg-library/wireguard.c. */
module PortableCurve25519 {
  import opened Arith
  import opened Bits
  import opened Limbs
  import opened Machine
  import F = Field
  import K = Keys

  const R: int := 0x1_0000
  const TWO256: int := 0x1_00000000_00000000_00000000_00000000_00000000_00000000_00000000_00000000
  const WIDE: int := 0x1000_0000_0000_0000
  const PACKABLE: int := 0x40_0000_0000_0000
  const LOOSE: int := 0x4_0000
  const ROW: int := 0x10_0000_0000

  type fe = array<int64>

  ghost predicate Within(s: seq<int>, b: int)
  {
    |s| == 16 && forall i :: 0 <= i < 16 ==> -b <= s[i] <= b
  }

  /** Sixteen proper digits. */
  ghost predicate Normal(s: seq<int>)
  {
    |s| == 16 && forall i :: 0 <= i < 16 ==> 0 <= s[i] < R
  }

  /** Proper digits but for the first, which is off by at most 38. */
  ghost predicate Carried(s: seq<int>)
  {
    |s| == 16 && -38 <= s[0] < R + 38 && forall i :: 1 <= i < 16 ==> 0 <= s[i] < R
  }

  ghost function Val(x: fe): int
    requires x.Length == 16
    reads x
  {
    Eval(R, x[..], 16)
  }

  /** A field element between operations, and the residue it stands for. */
  ghost predicate IsFe(x: fe)
    reads x
  {
    x.Length == 16 && Carried(x[..])
  }

  /** What a sum or difference of two of them is, and what a product accepts. */
  ghost predicate IsLoose(x: fe)
    reads x
  {
    x.Length == 16 && Within(x[..], LOOSE)
  }

  ghost function Fe(x: fe): int
    requires x.Length == 16
    reads x
  {
    F.Rep(Val(x))
  }

  lemma {:induction false} Powers()
    ensures Pow(R, 16) == TWO256
  {
    assert Pow(R, 1) == R;
    assert Pow(R, 2) == R * R;
    PowAdd(R, 2, 2);
    PowAdd(R, 4, 4);
    PowAdd(R, 8, 8);
  }

  /** One carry pass divides by 2^256: the quotient comes back as 38 times itself. */
  method Carry(o: fe) returns (ghost q: int)
    requires Within(o[..], WIDE)
    modifies o
    ensures q == old(Val(o)) / TWO256
    ensures Normal(o[..][0 := o[0] - 38 * q])
    ensures Val(o) == old(Val(o)) % TWO256 + 38 * q
    ensures F.Rep(Val(o)) == old(F.Rep(Val(o)))
  {
    hide Eval, Pow;
    ghost var v := Val(o);
    for i := 0 to 15
      invariant forall k :: 0 <= k < i ==> 0 <= o[k] < R
      invariant -2 * WIDE <= o[i] <= 2 * WIDE
      invariant forall k :: i < k < 16 ==> -WIDE <= o[k] <= WIDE
      invariant Val(o) == v
    {
      ghost var before := o[..];
      o[i + 1] := o[i + 1] + o[i] / R;
      o[i] := o[i] % R;
      MoveUp(R, before, o[..], 16, i, before[i] / R);
    }
    ghost var before := o[..];
    q := o[15] / R;
    o[0] := o[0] + 38 * (o[15] / R);
    o[15] := o[15] % R;
    CarryEnd(before, o[..], q);
  }

  lemma {:induction false} CarryEnd(s: seq<int>, t: seq<int>, q: int)
    requires |s| == |t| == 16 && forall k :: 0 <= k < 15 ==> 0 <= s[k] < R
    requires q == s[15] / R && t == s[0 := s[0] + 38 * q][15 := s[15] % R]
    ensures q == Eval(R, s, 16) / TWO256
    ensures Eval(R, t, 16) == Eval(R, s, 16) % TWO256 + 38 * q
    ensures F.Rep(Eval(R, t, 16)) == F.Rep(Eval(R, s, 16))
  {
    hide Eval, Pow;
    var d := s[15 := s[15] % R];
    EvalUpdate(R, s, d, 16, 15, -R * q);
    EvalUpdate(R, d, t, 16, 0, 38 * q);
    PowTop(R, 0);
    PowTop(R, 15);
    Powers();
    var w := Pow(R, 15);
    assert (-R * q) * w == -(R * w) * q;
    EvalBound(R, d, 16);
    DivModUnique(Eval(R, s, 16), TWO256, q, Eval(R, d, 16));
    ModShift(Eval(R, t, 16), 2 * q, F.P);
  }

  lemma {:induction false} EvalWithin(s: seq<int>, b: int, n: nat)
    requires n <= |s| && b >= 0 && forall i :: 0 <= i < n ==> -b <= s[i] <= b
    ensures -(b * Pow(R, n)) <= Eval(R, s, n) <= b * Pow(R, n)
    decreases n
  {
    if n > 0 {
      EvalWithin(s, b, n - 1);
      hide Eval, Pow;
      EvalTop(R, s, n - 1);
      PowTop(R, n - 1);
      PowPos(R, n - 1);
      WithinStep(Eval(R, s, n - 1), s[n - 1], b, Pow(R, n - 1));
    } else {
      EvalStart(R, s);
    }
  }

  lemma {:induction false} WithinStep(e: int, d: int, b: int, w: int)
    requires w > 0 && b >= 0 && -b <= d <= b && -(b * w) <= e <= b * w
    ensures -(b * (R * w)) <= e + d * w <= b * (R * w)
  {
    assert -(b * w) <= d * w <= b * w by {
      MulMono(w, d, b);
      MulMono(w, -b, d);
    }
    assert b * (R * w) == R * (b * w);
    MulMono(b, 0, w);
  }

  /** A second pass after a first one leaves the carried form. */
  lemma {:induction false} SecondCarry(s: seq<int>, q1: int, v1: int, t: seq<int>, q2: int)
    requires |s| == |t| == 16 && -WIDE <= q1 <= WIDE
    requires Normal(s[0 := s[0] - 38 * q1]) && v1 == Eval(R, s, 16)
    requires q2 == v1 / TWO256 && Normal(t[0 := t[0] - 38 * q2])
    ensures -1 <= q2 <= 1 && Carried(t)
  {
    hide Eval, Pow;
    var d := s[0 := s[0] - 38 * q1];
    EvalUpdate(R, d, s, 16, 0, 38 * q1);
    PowTop(R, 0);
    EvalBound(R, d, 16);
    Powers();
    assert forall i :: 1 <= i < 16 ==> t[0 := t[0] - 38 * q2][i] == t[i];
    assert t[0 := t[0] - 38 * q2][0] == t[0] - 38 * q2;
  }

  /** One row of the product: t[i + j] += a[i] * b[j]. */
  method AddRow(t: array<int64>, i: nat, a: int64, b: fe, ghost done: int)
    requires t.Length == 31 && i < 16 && -LOOSE <= a <= LOOSE && Within(b[..], LOOSE) && t != b
    requires forall k :: 0 <= k < 31 ==> -(i * ROW) <= t[k] <= i * ROW
    requires Eval(R, t[..], 31) == done
    modifies t
    ensures forall k :: 0 <= k < 31 ==> -(i + 1) * ROW <= t[k] <= (i + 1) * ROW
    ensures Eval(R, t[..], 31) == done + a * Pow(R, i) * Val(b)
  {
    hide Eval, Pow;
    EvalStart(R, b[..]);
    for j := 0 to 16
      invariant forall k :: 0 <= k < 31 ==> -(i * ROW) - (if i <= k < i + j then ROW else 0) <= t[k]
      invariant forall k :: 0 <= k < 31 ==> t[k] <= i * ROW + (if i <= k < i + j then ROW else 0)
      invariant Eval(R, t[..], 31) == done + a * Pow(R, i) * Eval(R, b[..], j)
    {
      ghost var before := t[..];
      ProductBound(a, b[j]);
      t[i + j] := t[i + j] + a * b[j];
      RowStep(before, t[..], b[..], i, j, a, done);
    }
  }

  lemma {:induction false} RowStep(before: seq<int>, after: seq<int>, b: seq<int>, i: nat, j: nat, a: int, done: int)
    requires |before| == |after| == 31 && i < 16 && j < 16 == |b|
    requires forall k :: 0 <= k < 31 && k != i + j ==> before[k] == after[k]
    requires after[i + j] == before[i + j] + a * b[j]
    requires Eval(R, before, 31) == done + a * Pow(R, i) * Eval(R, b, j)
    ensures Eval(R, after, 31) == done + a * Pow(R, i) * Eval(R, b, j + 1)
  {
    hide Eval, Pow;
    EvalUpdate(R, before, after, 31, i + j, a * b[j]);
    EvalTop(R, b, j);
    PowAdd(R, i, j);
    var w, u := Pow(R, i), Pow(R, j);
    MulSwap(a, b[j], w, u);
    assert (a * w) * (Eval(R, b, j) + b[j] * u) == (a * w) * Eval(R, b, j) + (a * w) * (b[j] * u);
  }

  lemma {:induction false} ProductBound(a: int, b: int)
    requires -LOOSE <= a <= LOOSE && -LOOSE <= b <= LOOSE
    ensures -ROW <= a * b <= ROW
  {
    if a >= 0 {
      MulMono(a, b, LOOSE);
      MulMono(a, -LOOSE, b);
    } else {
      MulMono(-a, b, LOOSE);
      MulMono(-a, -LOOSE, b);
    }
  }

  method Product(t: array<int64>, a: fe, b: fe)
    requires t.Length == 31 && Within(a[..], LOOSE) && Within(b[..], LOOSE) && t != a && t != b
    requires forall k :: 0 <= k < 31 ==> t[k] == 0
    modifies t
    ensures forall k :: 0 <= k < 31 ==> -16 * ROW <= t[k] <= 16 * ROW
    ensures Eval(R, t[..], 31) == Val(a) * Val(b)
  {
    hide Eval, Pow;
    EvalZero(R, t[..], 31);
    EvalStart(R, a[..]);
    for i := 0 to 16
      invariant forall k :: 0 <= k < 31 ==> -(i * ROW) <= t[k] <= i * ROW
      invariant Eval(R, t[..], 31) == Eval(R, a[..], i) * Val(b)
    {
      AddRow(t, i, a[i], b, Eval(R, a[..], i) * Val(b));
      EvalTop(R, a[..], i);
      Distribute(Eval(R, a[..], i), a[i] * Pow(R, i), Val(b));
    }
  }

  /** Brings the upper limbs back with weight 38 = 2^256 mod p. */
  method Fold(t: array<int64>)
    requires t.Length == 31
    requires forall k :: 0 <= k < 31 ==> -16 * ROW <= t[k] <= 16 * ROW
    modifies t
    ensures forall k :: 0 <= k < 16 ==> -624 * ROW <= t[k] <= 624 * ROW
    ensures F.Rep(Eval(R, t[..], 16)) == old(F.Rep(Eval(R, t[..], 31)))
  {
    hide Eval, Pow;
    ghost var t0 := t[..];
    EvalStart(R, t0[16..]);
    for i := 0 to 15
      invariant forall k :: 15 < k < 31 ==> t[k] == t0[k]
      invariant forall k :: i <= k < 16 ==> t[k] == t0[k]
      invariant forall k :: 0 <= k < i ==> -624 * ROW <= t[k] <= 624 * ROW
      invariant Eval(R, t[..], 16) == Eval(R, t0, 16) + 38 * Eval(R, t0[16..], i)
    {
      ghost var before := t[..];
      t[i] := t[i] + 38 * t[i + 16];
      EvalUpdate(R, before, t[..], 16, i, 38 * t0[i + 16]);
      EvalTop(R, t0[16..], i);
      assert (38 * t0[i + 16]) * Pow(R, i) == 38 * (t0[i + 16] * Pow(R, i));
    }
    EvalDrop(R, t0, 16, 15);
    Powers();
    ModShift(Eval(R, t[..], 16), 2 * Eval(R, t0[16..], 15), F.P);
  }

  method MultMod(o: fe, a: fe, b: fe)
    requires o.Length == 16 && IsLoose(a) && IsLoose(b)
    modifies o
    ensures IsFe(o) && IsLoose(o) && Fe(o) == F.Mul(old(Fe(a)), old(Fe(b)))
  {
    hide Eval, Pow;
    F.MulRep(Val(a), Val(b));
    var t := new int64[31](_ => 0);
    Product(t, a, b);
    Fold(t);
    CopyPrefix(o, t);
    TwoCarries(o, 624 * ROW);
    CarriedLoose(o[..]);
  }

  /** Two carry passes reach the carried form from limbs of any magnitude up to b. */
  method TwoCarries(o: fe, ghost b: int)
    requires Within(o[..], b) && 0 <= b <= PACKABLE
    modifies o
    ensures Carried(o[..]) && Fe(o) == old(Fe(o))
  {
    hide Eval, Pow, F.Rep;
    assert Within(o[..], WIDE);
    QuotientWithin(o[..], b);
    assert o.Length == 16;
    hide Within, Normal, Carried;
    ghost var q1 := Carry(o);
    ghost var s := o[..];
    NearNormal(s, 38 * q1);
    ghost var q2 := Carry(o);
    SecondCarry(s, q1, Eval(R, s, 16), o[..], q2);
  }

  lemma {:induction false} CarriedLoose(s: seq<int>)
    requires Carried(s)
    ensures Within(s, LOOSE)
  {
  }

  lemma {:induction false} QuotientWithin(s: seq<int>, b: int)
    requires Within(s, b) && b >= 0
    ensures -b <= Eval(R, s, 16) / TWO256 <= b
  {
    hide Eval, Pow;
    EvalWithin(s, b, 16);
    Powers();
  }

  lemma {:induction false} NearNormal(s: seq<int>, d: int)
    requires |s| == 16 && Normal(s[0 := s[0] - d]) && -WIDE + R <= d <= WIDE - R
    ensures Within(s, WIDE)
  {
    assert forall i :: 1 <= i < 16 ==> s[0 := s[0] - d][i] == s[i];
    assert s[0 := s[0] - d][0] == s[0] - d;
  }

  /** memcpy of the first sixteen words. */
  method CopyPrefix(o: fe, t: array<int64>)
    requires o.Length == 16 <= t.Length
    modifies o
    ensures forall k :: 0 <= k < 16 ==> o[k] == old(t[k])
    ensures Eval(R, o[..], 16) == old(Eval(R, t[..], 16))
  {
    hide Eval;
    ghost var t0 := t[..];
    for i := 0 to 16
      invariant forall k :: 0 <= k < i ==> o[k] == t0[k]
      invariant forall k :: 0 <= k < t.Length ==> t[k] == t0[k]
    {
      o[i] := t[i];
    }
    EvalAgree(R, o[..], t0, 16);
  }

  method Add(o: fe, a: fe, b: fe)
    requires o.Length == 16 && IsFe(a) && IsFe(b)
    modifies o
    ensures IsLoose(o) && Fe(o) == F.Add(old(Fe(a)), old(Fe(b)))
  {
    hide Eval, Pow;
    ghost var a0, b0 := a[..], b[..];
    EvalStart(R, a0);
    EvalStart(R, b0);
    EvalStart(R, o[..]);
    for i := 0 to 16
      invariant forall k :: i <= k < 16 ==> a[k] == a0[k] && b[k] == b0[k]
      invariant forall k :: 0 <= k < i ==> -LOOSE <= o[k] <= LOOSE
      invariant Eval(R, o[..], i) == Eval(R, a0, i) + Eval(R, b0, i)
    {
      ghost var before := o[..];
      o[i] := a[i] + b[i];
      EvalAgree(R, before, o[..], i);
      EvalTop(R, o[..], i);
      EvalTop(R, a0, i);
      EvalTop(R, b0, i);
      Distribute(a0[i], b0[i], Pow(R, i));
    }
    F.AddRep(Eval(R, a0, 16), Eval(R, b0, 16));
  }

  method Subtract(o: fe, a: fe, b: fe)
    requires o.Length == 16 && IsFe(a) && IsFe(b)
    modifies o
    ensures IsLoose(o) && Fe(o) == F.Sub(old(Fe(a)), old(Fe(b)))
  {
    hide Eval, Pow;
    ghost var a0, b0 := a[..], b[..];
    EvalStart(R, a0);
    EvalStart(R, b0);
    EvalStart(R, o[..]);
    for i := 0 to 16
      invariant forall k :: i <= k < 16 ==> a[k] == a0[k] && b[k] == b0[k]
      invariant forall k :: 0 <= k < i ==> -LOOSE <= o[k] <= LOOSE
      invariant Eval(R, o[..], i) == Eval(R, a0, i) - Eval(R, b0, i)
    {
      ghost var before := o[..];
      o[i] := a[i] - b[i];
      EvalAgree(R, before, o[..], i);
      EvalTop(R, o[..], i);
      EvalTop(R, a0, i);
      EvalTop(R, b0, i);
      Distribute(a0[i], b0[i], Pow(R, i));
    }
    F.SubRep(Eval(R, a0, 16), Eval(R, b0, 16));
  }

  method CSwap(p: fe, q: fe, b: int32)
    requires (b == 0 || b == 1) && p != q && Within(p[..], LOOSE) && Within(q[..], LOOSE)
    modifies p, q
    ensures p[..] == old(if b == 1 then q[..] else p[..])
    ensures q[..] == old(if b == 1 then p[..] else q[..])
  {
    hide Xor, And;
    var c: int64 := Not(b - 1);
    for i := 0 to 16
      invariant forall k :: i <= k < 16 ==> p[k] == old(p[k]) && q[k] == old(q[k])
      invariant forall k :: 0 <= k < i ==> p[k] == old(if b == 1 then q[k] else p[k])
      invariant forall k :: 0 <= k < i ==> q[k] == old(if b == 1 then p[k] else q[k])
    {
      XorInt64(c, p[i], q[i]);
      XorSwap(c, p[i], q[i]);
      var t: int64 := And(c, Xor(p[i], q[i]));
      p[i] := Xor(p[i], t);
      q[i] := Xor(q[i], t);
    }
  }

  lemma {:induction false} XorInt64(mask: int, a: int, b: int)
    requires (mask == 0 || mask == -1) && -LOOSE <= a <= LOOSE && -LOOSE <= b <= LOOSE
    ensures -2 * LOOSE <= And(mask, Xor(a, b)) < 2 * LOOSE
  {
    K.BytePowers();
    PowAdd(2, 8, 8);
    PowAdd(2, 16, 2);
    PowTop(2, 18);
    assert Pow(2, 2) == 4 by { PowAdd(2, 1, 1); }
    XorRange(a, b, 19);
  }

  /** The bits of p - 2 from bit a up. */
  function Exponent(a: nat): nat
  {
    PowPos(2, a);
    (F.P - 2) / Pow(2, a)
  }

  /** All bits of p - 2 below bit 255 are ones, but for bits 2 and 4. */
  lemma {:induction false} ExponentStep(a: nat)
    requires a < 255
    ensures Exponent(a) == 2 * Exponent(a + 1) + if a != 2 && a != 4 then 1 else 0
  {
    hide Pow, BitAt;
    var e := F.P - 2;
    F.TwoTo255();
    PowPos(2, a);
    PowTop(2, a);
    DivDiv(e, Pow(2, a), 2);
    assert BitAt(e, a) == e / Pow(2, a) % 2 by { BitDef(e, a); }
    assert Pow(2, 5) == 32 by { PowTop(2, 0); PowTop(2, 1); PowTop(2, 2); PowTop(2, 3); PowTop(2, 4); }
    if a >= 5 {
      BitDrop(e, 5, a - 5);
      OnesBit(250, a - 5);
    } else {
      BitLow(11, Pow(2, 250) - 1, 5, a);
      LowBits();
    }
  }

  lemma {:induction false} LowBits()
    ensures BitAt(11, 0) == 1 && BitAt(11, 1) == 1 && BitAt(11, 2) == 0 && BitAt(11, 3) == 1 && BitAt(11, 4) == 0
  {
    BitShift(11, 0);
    BitShift(11, 1);
    BitShift(5, 0);
    BitShift(11, 2);
    BitShift(5, 1);
    BitShift(2, 0);
    BitShift(11, 3);
    BitShift(5, 2);
    BitShift(2, 1);
    BitShift(1, 0);
  }

  /** c := c^2, then c := c * x unless the exponent bit is one of the two zeros of p - 2. */
  method Invert(o: fe, x: fe)
    requires o.Length == 16 && IsFe(x)
    modifies o
    ensures IsFe(o) && Fe(o) == F.Inv(old(Fe(x)))
  {
    hide Eval, Pow, F.Power, F.Mul, F.Rep, Exponent;
    ghost var v := Fe(x);
    var c := new int64[16];
    CopyPrefix(c, x);
    F.PowerOne(v);
    ExponentEnds();
    var a := 254;
    while a > 0
      invariant 0 <= a <= 254
      invariant IsFe(c) && x[..] == old(x[..])
      invariant Fe(c) == F.Power(v, Exponent(a))
    {
      a := a - 1;
      MultMod(c, c, c);
      F.PowerMul(v, Exponent(a + 1), Exponent(a + 1));
      ExponentStep(a);
      if a != 2 && a != 4 {
        MultMod(c, c, x);
        F.PowerMul(v, 2 * Exponent(a + 1), 1);
      }
    }
    CopyPrefix(o, c);
  }

  lemma {:induction false} ExponentEnds()
    ensures Exponent(254) == 1 && Exponent(0) == F.P - 2
  {
    hide Pow;
    F.TwoTo255();
    PowTop(2, 0);
    PowTop(2, 254);
    DivModUnique(F.P - 2, Pow(2, 254), 1, F.P - 2 - Pow(2, 254));
  }

  /** The limbs of p. */
  function PLimb(i: nat): int
  {
    if i == 0 then 0xffed else if i < 15 then 0xffff else 0x7fff
  }

  lemma {:induction false} PLimbs()
    ensures Eval(R, seq(16, i requires 0 <= i < 16 => PLimb(i)), 16) == F.P
  {
    var s := seq(16, i requires 0 <= i < 16 => PLimb(i));
    var ones := seq(16, i requires 0 <= i < 16 => 0xffff);
    OnesValue(16);
    hide Eval, Pow;
    assert ones[0] == 0xffff && ones[15] == 0xffff && s[0] == 0xffed && s[15] == 0x7fff;
    Powers();
    EvalUpdate(R, ones, ones[0 := 0xffed], 16, 0, -18);
    EvalUpdate(R, ones[0 := 0xffed], s, 16, 15, -0x8000);
    PowTop(R, 0);
    PowTop(R, 15);
  }

  lemma {:induction false} OnesValue(n: nat)
    requires n <= 16
    ensures Eval(R, seq(16, i requires 0 <= i < 16 => 0xffff), n) == Pow(R, n) - 1
  {
    if n > 0 { OnesValue(n - 1); }
  }

  /** Limbs 0 to 14 of t - p, each but the last brought into range by a borrow. */
  method BorrowLoop(m: fe, t: fe, ghost p: seq<int>)
    requires m.Length == 16 && Normal(t[..]) && m != t
    requires p == seq(16, i requires 0 <= i < 16 => PLimb(i))
    modifies m
    ensures -R <= m[14] < R
    ensures forall k :: 0 <= k < 14 ==> 0 <= m[k] < R
    ensures Eval(R, m[..], 14) + m[14] * Pow(R, 14) == Eval(R, t[..], 15) - Eval(R, p, 15)
  {
    hide Eval, Pow;
    EvalStart(R, t[..]);
    EvalStart(R, p);
    EvalTop(R, t[..], 0);
    EvalTop(R, p, 0);
    m[0] := t[0] - 0xffed;
    EvalStart(R, m[..]);
    for i := 1 to 15
      invariant -R <= m[i - 1] < R
      invariant forall k :: 0 <= k < i - 1 ==> 0 <= m[k] < R
      invariant Eval(R, m[..], i - 1) + m[i - 1] * Pow(R, i - 1) == Eval(R, t[..], i) - Eval(R, p, i)
    {
      ghost var before := m[..];
      m[i] := t[i] - 0xffff - m[i - 1] / R % 2;
      m[i - 1] := m[i - 1] % R;
      BorrowStep(before, m[..], t[..], p, i);
    }
  }

  /** m := t - p with borrows; the sign of m[15] tells whether t < p. */
  method TrialSubtract(m: fe, t: fe) returns (b: int32)
    requires m.Length == 16 && Normal(t[..]) && m != t
    modifies m
    ensures (b == 0 || b == 1) && (b == 1 <==> Val(t) < F.P)
    ensures Within(m[..], LOOSE)
    ensures b == 0 ==> Normal(m[..]) && Val(m) == Val(t) - F.P
  {
    hide Eval, Pow;
    ghost var p := seq(16, i requires 0 <= i < 16 => PLimb(i));
    BorrowLoop(m, t, p);
    ghost var before := m[..];
    m[15] := t[15] - 0x7fff - m[14] / R % 2;
    b := m[15] / R % 2;
    m[14] := m[14] % R;
    BorrowStep(before, m[..], t[..], p, 15);
    PLimbs();
    SignTest(m[..]);
  }

  /** The sign of the top limb is the sign of the number. */
  lemma {:induction false} SignTest(m: seq<int>)
    requires |m| == 16 && -R <= m[15] < R && forall k :: 0 <= k < 15 ==> 0 <= m[k] < R
    ensures Eval(R, m, 15) + m[15] * Pow(R, 15) == Eval(R, m, 16)
    ensures m[15] < 0 <==> Eval(R, m, 16) < 0
  {
    hide Eval, Pow;
    EvalTop(R, m, 15);
    EvalBound(R, m, 15);
    PowPos(R, 15);
    if m[15] < 0 { MulMono(Pow(R, 15), m[15], -1); } else { MulMono(Pow(R, 15), 0, m[15]); }
  }

  lemma {:induction false} BorrowStep(before: seq<int>, after: seq<int>, t: seq<int>, p: seq<int>, i: nat)
    requires |before| == |after| == |t| == |p| == 16 && 1 <= i < 16
    requires forall k :: 0 <= k < i - 1 ==> after[k] == before[k]
    requires -R <= before[i - 1] < R && after[i - 1] == before[i - 1] % R
    requires after[i] == t[i] - p[i] - before[i - 1] / R % 2
    requires Eval(R, before, i - 1) + before[i - 1] * Pow(R, i - 1) == Eval(R, t, i) - Eval(R, p, i)
    ensures Eval(R, after, i) + after[i] * Pow(R, i) == Eval(R, t, i + 1) - Eval(R, p, i + 1)
  {
    hide Eval, Pow;
    EvalAgree(R, before, after, i - 1);
    EvalTop(R, after, i - 1);
    EvalTop(R, t, i);
    EvalTop(R, p, i);
    PowTop(R, i - 1);
    var w, c, d := Pow(R, i - 1), before[i - 1] / R, t[i] - p[i];
    assert before[i - 1] == after[i - 1] + R * c && before[i - 1] / R % 2 == -c;
    assert before[i - 1] * w == after[i - 1] * w + c * (R * w) by {
      Distribute(after[i - 1], R * c, w);
      assert (R * c) * w == c * (R * w);
    }
    Distribute(t[i], p[i], R * w);
    Distribute(d, c, R * w);
  }

  /** Three carries and two trial subtractions reach the representative below p. */
  method Pack(o: array<uint8>, n: fe)
    requires o.Length == 32 && Within(n[..], PACKABLE)
    modifies o
    ensures o[..] == K.LittleEndian(Fe(n), 32)
  {
    hide Eval, Pow, K.LittleEndian, F.Rep;
    var m, t := new int64[16], new int64[16];
    CopyPrefix(t, n);
    ThreeCarries(t);
    for j := 0 to 2
      invariant Normal(t[..]) && Fe(t) == Fe(n)
      invariant 0 <= Val(t) < (if j == 0 then TWO256 else if j == 1 then F.P + 38 else F.P)
    {
      ghost var v := Val(t);
      var b := TrialSubtract(m, t);
      CSwap(t, m, 1 - b);
      F.RepShift(v, -1);
    }
    F.RepSmall(Val(t));
    ghost var s := t[..];
    for i := 0 to 16
      invariant t[..] == s
      invariant forall k :: 0 <= k < 2 * i ==> o[k] == PackedByte(s, k)
    {
      o[2 * i] := t[i] % 256;
      o[2 * i + 1] := t[i] / 256;
    }
    PackBytes(t[..], o[..]);
  }

  function PackedByte(t: seq<int>, k: nat): int
    requires k < 2 * |t|
  {
    if k % 2 == 0 then t[k / 2] % 256 else t[k / 2] / 256
  }

  method ThreeCarries(t: fe)
    requires Within(t[..], PACKABLE)
    modifies t
    ensures Normal(t[..]) && Fe(t) == old(Fe(t)) && 0 <= Val(t) < TWO256
  {
    hide Eval, Pow, F.Rep;
    TwoCarries(t, PACKABLE);
    ghost var s := t[..];
    CarriedWide(s);
    hide Within, Normal, Carried;
    ghost var q := Carry(t);
    ThirdCarry(s, t[..], q);
  }

  lemma {:induction false} CarriedWide(s: seq<int>)
    requires Carried(s)
    ensures Within(s, WIDE)
  {
  }

  lemma {:induction false} FirstDigit(s: seq<int>)
    requires Normal(s)
    ensures s[0] == Eval(R, s, 16) % R && 0 <= Eval(R, s, 16) < TWO256
  {
    hide Eval, Pow;
    EvalBound(R, s, 16);
    Powers();
    EvalDrop(R, s, 1, 15);
    EvalTop(R, s, 0);
    EvalStart(R, s);
    PowTop(R, 0);
    DivModUnique(Eval(R, s, 16), R, Eval(R, s[1..], 15), s[0]);
  }

  /** A third pass leaves proper digits. */
  lemma {:induction false} ThirdCarry(s: seq<int>, t: seq<int>, q: int)
    requires Carried(s) && |t| == 16 && q == Eval(R, s, 16) / TWO256
    requires Normal(t[0 := t[0] - 38 * q]) && Eval(R, t, 16) == Eval(R, s, 16) % TWO256 + 38 * q
    ensures Normal(t) && 0 <= Eval(R, t, 16) < TWO256
  {
    hide Eval, Pow;
    var v := Eval(R, s, 16);
    var z, d := s[0 := 0], t[0 := t[0] - 38 * q];
    EvalUpdate(R, z, s, 16, 0, s[0]);
    EvalUpdate(R, d, t, 16, 0, 38 * q);
    PowTop(R, 0);
    FirstDigit(z);
    FirstDigit(d);
    assert forall i :: 1 <= i < 16 ==> d[i] == t[i];
    assert d[0] == t[0] - 38 * q;
    CarryCases(v, Eval(R, z, 16), s[0], q, d[0]);
  }

  lemma {:induction false} CarryCases(v: int, high: int, low: int, q: int, digit: int)
    requires -38 <= low < R + 38 && 0 <= high < TWO256 && high % R == 0 && v == high + low
    requires q == v / TWO256 && digit == v % TWO256 % R
    ensures 0 <= digit + 38 * q < R && 0 <= v % TWO256 + 38 * q < TWO256
  {
    assert high <= TWO256 - R;
    if v < 0 {
      assert high == 0;
      DivModUnique(v, TWO256, -1, v + TWO256);
    } else if v >= TWO256 {
      DivModUnique(v, TWO256, 1, v - TWO256);
    } else {
      DivModUnique(v, TWO256, 0, v);
    }
  }

  lemma {:induction false} PackBytes(t: seq<int>, o: seq<uint8>)
    requires Normal(t) && |o| == 32 && forall k :: 0 <= k < 32 ==> o[k] == PackedByte(t, k)
    ensures o == K.LittleEndian(Eval(R, t, 16), 32)
  {
    forall k | 0 <= k < 32 ensures o[k] == K.ByteAt(Eval(R, t, 16), k) {
      PackByte(t, k);
    }
  }

  lemma {:induction false} PackByte(t: seq<int>, k: nat)
    requires Normal(t) && k < 32
    ensures PackedByte(t, k) == K.ByteAt(Eval(R, t, 16), k)
  {
    hide Eval, Pow, K.ByteAt;
    var i := k / 2;
    var rest := DigitFrom(t, i);
    assert Pow(256, 2) == R by { PowTop(256, 0); PowTop(256, 1); }
    PowMul(256, 2, i);
    if k % 2 == 1 {
      OddByte(Eval(R, t, 16), i, t[i], rest);
    } else {
      EvenByte(Eval(R, t, 16), i, t[i], rest);
    }
  }

  lemma {:induction false} EvenByte(v: int, i: nat, digit: int, rest: int)
    requires Pow(256, 2 * i) > 0 && v / Pow(256, 2 * i) == digit + R * rest
    ensures K.ByteAt(v, 2 * i) == digit % 256
  {
    hide Pow;
  }

  lemma {:induction false} OddByte(v: int, i: nat, digit: int, rest: int)
    requires Pow(256, 2 * i) > 0 && v / Pow(256, 2 * i) == digit + R * rest && 0 <= digit < R
    ensures K.ByteAt(v, 2 * i + 1) == digit / 256
  {
    hide Pow, K.ByteAt;
    var w := Pow(256, 2 * i);
    assert Pow(256, 2 * i + 1) == w * 256 by { PowTop(256, 2 * i); }
    assert v / (w * 256) == digit / 256 + 256 * rest by {
      DivDiv(v, w, 256);
      DivShift(digit, 256 * rest, 256);
    }
    K.ByteDef(v, 2 * i + 1);
    ModShift(digit / 256, rest, 256);
  }

  lemma {:induction false} DigitFrom(t: seq<int>, i: nat) returns (rest: int)
    requires Normal(t) && i < 16
    ensures Pow(R, i) > 0 && Eval(R, t, 16) / Pow(R, i) == t[i] + R * rest
  {
    hide Eval, Pow;
    rest := Eval(R, t[i..][1..], 15 - i);
    PowPos(R, i);
    EvalBound(R, t, i);
    EvalDrop(R, t, i, 16 - i);
    EvalDrop(R, t[i..], 1, 15 - i);
    EvalTop(R, t[i..], 0);
    EvalStart(R, t[i..]);
    PowTop(R, 0);
    DivModUnique(Eval(R, t, 16), Pow(R, i), t[i] + R * rest, Eval(R, t, i));
  }

  /** Six distinct scratch elements and the two constants. */
  ghost predicate Apart(a: fe, b: fe, c: fe, d: fe, e: fe, f: fe, a24: fe, nine: fe)
  {
    && a !in {b, c, d, e, f, a24, nine} && b !in {c, d, e, f, a24, nine} && c !in {d, e, f, a24, nine}
    && d !in {e, f, a24, nine} && e !in {f, a24, nine} && f !in {a24, nine}
    && a.Length == b.Length == c.Length == d.Length == e.Length == f.Length == a24.Length == nine.Length == 16
  }

  /** The first half of a step: d = A^2, f = B^2, a = CB, c = DA. */
  method StepProducts(a: fe, b: fe, c: fe, d: fe, e: fe, f: fe, ghost a24: fe, ghost nine: fe)
    requires Apart(a, b, c, d, e, f, a24, nine)
    requires IsFe(a) && IsFe(b) && IsFe(c) && IsFe(d)
    modifies a, b, c, d, e, f
    ensures IsFe(a) && IsFe(c) && IsFe(d) && IsFe(f) && IsLoose(d) && IsLoose(f)
    ensures var x2, z2, x3, z3 := old(Fe(a)), old(Fe(c)), old(Fe(b)), old(Fe(d));
            && Fe(d) == F.Mul(F.Add(x2, z2), F.Add(x2, z2)) && Fe(f) == F.Mul(F.Sub(x2, z2), F.Sub(x2, z2))
            && Fe(a) == F.Mul(F.Add(x3, z3), F.Sub(x2, z2)) && Fe(c) == F.Mul(F.Sub(x3, z3), F.Add(x2, z2))
  {
    hide IsFe, IsLoose, Fe, F.Mul, F.Add, F.Sub;
    Add(e, a, c);
    Subtract(a, a, c);
    Add(c, b, d);
    Subtract(b, b, d);
    MultMod(d, e, e);
    MultMod(f, a, a);
    MultMod(a, c, a);
    MultMod(c, b, e);
  }

  /** The second half of a step. */
  method StepResults(a: fe, b: fe, c: fe, d: fe, e: fe, f: fe, a24: fe, nine: fe)
    requires Apart(a, b, c, d, e, f, a24, nine)
    requires IsFe(a) && IsFe(c) && IsFe(d) && IsFe(f) && IsLoose(d) && IsLoose(f) && IsLoose(a24) && IsLoose(nine)
    modifies a, b, c, d, e, f
    ensures IsFe(a) && IsFe(b) && IsFe(c) && IsFe(d)
    ensures var aa, bb, cb, da := old(Fe(d)), old(Fe(f)), old(Fe(a)), old(Fe(c));
            var ee, diff := F.Sub(aa, bb), F.Sub(cb, da);
            && Fe(a) == F.Mul(aa, bb) && Fe(c) == F.Mul(ee, F.Add(F.Mul(ee, Fe(a24)), aa))
            && Fe(b) == F.Mul(F.Add(cb, da), F.Add(cb, da)) && Fe(d) == F.Mul(F.Mul(diff, diff), Fe(nine))
  {
    hide IsFe, IsLoose, Fe, F.Mul, F.Add, F.Sub;
    Add(e, a, c);
    Subtract(a, a, c);
    MultMod(b, a, a);
    Subtract(c, d, f);
    MultMod(a, c, a24);
    Add(a, a, d);
    MultMod(c, c, a);
    MultMod(a, d, f);
    MultMod(d, b, nine);
    MultMod(b, e, e);
  }

  /** One ladder step on (a, c) and (b, d), with e and f as scratch. */
  method LadderStep(a: fe, b: fe, c: fe, d: fe, e: fe, f: fe, a24: fe, nine: fe)
    requires Apart(a, b, c, d, e, f, a24, nine)
    requires IsFe(a) && IsFe(b) && IsFe(c) && IsFe(d) && IsLoose(a24) && IsLoose(nine) && Fe(a24) == F.A24
    modifies a, b, c, d, e, f
    ensures IsFe(a) && IsFe(b) && IsFe(c) && IsFe(d)
    ensures F.State(Fe(a), Fe(c), Fe(b), Fe(d)) == F.Step(Fe(nine), old(F.State(Fe(a), Fe(c), Fe(b), Fe(d))))
  {
    hide IsFe, IsLoose, Fe, F.Mul, F.Add, F.Sub;
    StepProducts(a, b, c, d, e, f, a24, nine);
    ghost var aa, bb, cb, da := Fe(d), Fe(f), Fe(a), Fe(c);
    StepResults(a, b, c, d, e, f, a24, nine);
    ghost var ee := F.Sub(aa, bb);
    F.MulComm(ee, F.Add(F.Mul(ee, F.A24), aa));
    F.AddComm(cb, da);
    F.SquareNeg(cb, da);
  }

  /** A field element with the given two low limbs. */
  method NewElement(low: int64, next: int64) returns (x: fe)
    requires 0 <= low < R && 0 <= next < R
    ensures fresh(x) && x.Length == 16 && IsFe(x) && IsLoose(x) && Fe(x) == low + R * next
  {
    hide Eval, Pow, F.Rep;
    x := new int64[16](_ => 0);
    ghost var zeros := x[..];
    EvalZero(R, zeros, 16);
    x[0] := low;
    EvalUpdate(R, zeros, x[..], 16, 0, low);
    ghost var one := x[..];
    x[1] := next;
    EvalUpdate(R, one, x[..], 16, 1, next);
    PowTop(R, 0);
    F.RepSmall(low + R * next);
  }

  /** The clamped private key. */
  method ClampKey(z: array<uint8>)
    requires z.Length == 32
    modifies z
    ensures z[..] == old(K.Clamp(z[..]))
  {
    K.ByteBits(z[0]);
    K.ByteBits(z[31]);
    z[31] := Or(And(z[31], 127), 64);
    z[0] := And(z[0], 248);
  }

  /** Both points exchanged when r is 1. */
  method SwapPoints(a: fe, b: fe, c: fe, d: fe, r: int32)
    requires a !in {b, c, d} && b !in {c, d} && c != d && (r == 0 || r == 1)
    requires IsFe(a) && IsFe(b) && IsFe(c) && IsFe(d)
    modifies a, b, c, d
    ensures IsFe(a) && IsFe(b) && IsFe(c) && IsFe(d)
    ensures F.State(Fe(a), Fe(c), Fe(b), Fe(d)) == F.SwapIf(r, old(F.State(Fe(a), Fe(c), Fe(b), Fe(d))))
  {
    hide Eval, F.Rep;
    CSwap(a, b, r);
    CSwap(c, d, r);
  }

  /** Swap, step and swap back. */
  method LadderBit(r: int32, a: fe, b: fe, c: fe, d: fe, e: fe, f: fe, a24: fe, nine: fe)
    requires Apart(a, b, c, d, e, f, a24, nine) && (r == 0 || r == 1)
    requires IsFe(a) && IsFe(b) && IsFe(c) && IsFe(d) && IsLoose(a24) && IsLoose(nine) && Fe(a24) == F.A24
    modifies a, b, c, d, e, f
    ensures IsFe(a) && IsFe(b) && IsFe(c) && IsFe(d)
    ensures F.State(Fe(a), Fe(c), Fe(b), Fe(d))
         == F.SwapIf(r, F.Step(Fe(nine), F.SwapIf(r, old(F.State(Fe(a), Fe(c), Fe(b), Fe(d))))))
  {
    hide IsFe, IsLoose, Fe, F.Step;
    SwapPoints(a, b, c, d, r);
    LadderStep(a, b, c, d, e, f, a24, nine);
    SwapPoints(a, b, c, d, r);
  }

  method Ladder(z: array<uint8>, ghost k: K.Key, a: fe, b: fe, c: fe, d: fe, e: fe, f: fe, a24: fe, nine: fe)
    requires z.Length == 32 && z[..] == K.Clamp(k) && Apart(a, b, c, d, e, f, a24, nine)
    requires IsFe(a) && IsFe(b) && IsFe(c) && IsFe(d) && IsLoose(a24) && IsLoose(nine)
    requires Fe(a24) == F.A24 && Fe(nine) == 9
    requires F.State(Fe(a), Fe(c), Fe(b), Fe(d)) == F.State(1, 0, 9, 1)
    modifies a, b, c, d, e, f
    ensures IsFe(a) && IsFe(b) && IsFe(c) && IsFe(d)
    ensures F.State(Fe(a), Fe(c), Fe(b), Fe(d)) == F.Ladder(9, K.Scalar(k), 255)
  {
    hide IsFe, IsLoose, Fe, F.Step, F.Ladder, BitAt, K.Clamp, K.Scalar;
    F.LadderStart(9, K.Scalar(k));
    var i := 255;
    while i > 0
      invariant 0 <= i <= 255
      invariant IsFe(a) && IsFe(b) && IsFe(c) && IsFe(d) && IsLoose(a24) && IsLoose(nine)
      invariant Fe(a24) == F.A24 && Fe(nine) == 9
      invariant F.State(Fe(a), Fe(c), Fe(b), Fe(d)) == F.Ladder(9, K.Scalar(k), 255 - i)
    {
      i := i - 1;
      var r: int32 := BitAt(z[i / 8], i % 8);
      K.ScalarBit(k, i);
      F.LadderNext(9, K.Scalar(k), 254 - i);
      LadderBit(r, a, b, c, d, e, f, a24, nine);
    }
  }

  /** a / c, as bytes. */
  method Finish(publicKey: array<uint8>, a: fe, c: fe)
    requires publicKey.Length == 32 && a != c && IsFe(a) && IsFe(c)
    modifies publicKey, a, c
    ensures publicKey[..] == K.LittleEndian(F.Mul(old(Fe(a)), F.Inv(old(Fe(c)))), 32)
  {
    hide F.Rep, F.Mul, Fe, Eval, K.LittleEndian;
    Invert(c, c);
    MultMod(a, a, c);
    Pack(publicKey, a);
  }

  method CopyKey(key: array<uint8>) returns (z: array<uint8>)
    requires key.Length == 32
    ensures fresh(z) && z[..] == key[..]
  {
    z := new uint8[32];
    for i := 0 to 32
      invariant forall j :: 0 <= j < i ==> z[j] == key[j]
    {
      z[i] := key[i];
    }
  }

  method GeneratePublicKey(publicKey: array<uint8>, privateKey: array<uint8>)
    requires publicKey.Length == privateKey.Length == 32
    modifies publicKey
    ensures publicKey[..] == K.PublicKey(old(privateKey[..]))
  {
    hide F.Ladder, F.Rep, F.Mul, Fe, IsFe, IsLoose, Eval, K.LittleEndian, K.Scalar, K.Clamp;
    var z := CopyKey(privateKey);
    ClampKey(z);
    var a := NewElement(1, 0);
    var b := NewElement(9, 0);
    var c := NewElement(0, 0);
    var d := NewElement(1, 0);
    var e := NewElement(0, 0);
    var f := NewElement(0, 0);
    var a24 := NewElement(0xdb41, 1);
    var nine := NewElement(9, 0);
    Ladder(z, privateKey[..], a, b, c, d, e, f, a24, nine);
    Finish(publicKey, a, c);
  }
}
