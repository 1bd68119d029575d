/** Five 51-bit limbs with 128-bit accumulators: src/curve25519-hacl64.h. */
module Hacl64 {
  import opened Arith
  import opened Bits
  import opened Limbs
  import opened Machine
  import F = Field
  import K = Keys
  import J = Projective

  const R: int := 0x8_0000_0000_0000
  const TWO255: int := 0x80000000_00000000_00000000_00000000_00000000_00000000_00000000_00000000
  /** Limbs that a multiplication leaves. */
  const TIGHT: int := 0x8_0000_0000_0000 + 0x2000
  /** Limbs that a multiplication accepts: a sum, or a difference biased by 8p. */
  const WIDE: int := 0x40_0000_0000_0000 + 0x8_0000_0000_0000 + 0x2000
  const SQ: int := WIDE * WIDE

  type felem = array<uint64>

  ghost predicate Below(s: seq<int>, b: int)
  {
    |s| == 5 && forall i :: 0 <= i < 5 ==> 0 <= s[i] < b
  }

  ghost predicate IsTight(x: felem)
    reads x
  {
    x.Length == 5 && Below(x[..], TIGHT)
  }

  ghost predicate IsWide(x: felem)
    reads x
  {
    x.Length == 5 && Below(x[..], WIDE)
  }

  ghost function Fe(x: felem): int
    requires x.Length == 5
    reads x
  {
    F.Rep(Eval(R, x[..], 5))
  }

  lemma {:induction false} Powers()
    ensures Pow(R, 0) == 1 && Pow(R, 1) == R && Pow(R, 5) == TWO255 && Pow(R, 4) * R == TWO255
  {
    assert Pow(R, 1) == R;
    assert Pow(R, 2) == R * R;
    PowAdd(R, 2, 2);
    PowTop(R, 4);
  }

  /** The five limbs spelled out. */
  lemma {:induction false} Five(s: seq<int>)
    requires |s| == 5
    ensures Eval(R, s, 5) == s[0] + R * s[1] + R * R * s[2] + R * R * R * s[3] + R * R * R * R * s[4]
  {
    assert Pow(R, 0) == 1;
    assert Pow(R, 1) == R;
    assert Pow(R, 2) == R * R;
    assert Pow(R, 3) == R * R * R;
    assert Pow(R, 4) == R * R * R * R;
    assert Eval(R, s, 1) == s[0];
    assert Eval(R, s, 2) == Eval(R, s, 1) + s[1] * R;
    assert Eval(R, s, 3) == Eval(R, s, 2) + s[2] * (R * R);
    assert Eval(R, s, 4) == Eval(R, s, 3) + s[3] * (R * R * R);
  }

  /** output[j] += input[j] * s, in 128 bits. */
  method SumScalarMultiplication(output: array<uint128>, input: felem, s: uint64, ghost i: nat)
    requires output.Length == input.Length == 5 && i < 5 && s < WIDE
    requires forall j :: 0 <= j < 5 ==> input[j] < (if j < i then 19 * WIDE else WIDE)
    requires forall j :: 0 <= j < 5 ==> output[j] <= i * (if j < 4 then 19 * SQ else SQ)
    modifies output
    ensures forall j :: 0 <= j < 5 ==> output[j] <= (i + 1) * (if j < 4 then 19 * SQ else SQ)
    ensures Eval(R, output[..], 5) == old(Eval(R, output[..], 5)) + Eval(R, input[..], 5) * s
  {
    hide Eval;
    ghost var o, a := output[..], input[..];
    forall j | 0 <= j < 5 ensures 0 <= a[j] * s <= (if j < i then 19 * SQ else SQ) {
      RowBound(a[j], s, if j < i then 19 * WIDE else WIDE);
    }
    output[0] := output[0] + input[0] * s;
    output[1] := output[1] + input[1] * s;
    output[2] := output[2] + input[2] * s;
    output[3] := output[3] + input[3] * s;
    output[4] := output[4] + input[4] * s;
    RowValue(o, output[..], a, s);
  }

  lemma {:induction false} RowBound(a: int, s: int, b: int)
    requires 0 <= a < b && 0 <= s < WIDE
    ensures 0 <= a * s <= b * WIDE
  {
    MulMono(a, s, WIDE);
    MulMono(WIDE, a, b);
    MulMono(a, 0, s);
  }

  lemma {:induction false} RowValue(o: seq<int>, t: seq<int>, a: seq<int>, s: int)
    requires |o| == |t| == |a| == 5 && forall j :: 0 <= j < 5 ==> t[j] == o[j] + a[j] * s
    ensures Eval(R, t, 5) == Eval(R, o, 5) + Eval(R, a, 5) * s
  {
    RowPrefix(o, t, a, s, 5);
  }

  lemma {:induction false} RowPrefix(o: seq<int>, t: seq<int>, a: seq<int>, s: int, n: nat)
    requires n <= |o| == |t| == |a| && forall j :: 0 <= j < n ==> t[j] == o[j] + a[j] * s
    ensures Eval(R, t, n) == Eval(R, o, n) + Eval(R, a, n) * s
    decreases n
  {
    hide Eval, Pow;
    EvalStart(R, o);
    EvalStart(R, t);
    EvalStart(R, a);
    if n > 0 {
      RowPrefix(o, t, a, s, n - 1);
      EvalTop(R, o, n - 1);
      EvalTop(R, t, n - 1);
      EvalTop(R, a, n - 1);
      RowLimb(Eval(R, a, n - 1), o[n - 1], a[n - 1], s, Pow(R, n - 1));
    }
  }

  lemma {:induction false} RowLimb(e: int, o: int, a: int, s: int, w: int)
    ensures (o + a * s) * w + e * s == o * w + (e + a * w) * s
  {
    Distribute(o, a * s, w);
    Distribute(e, a * w, s);
    assert (a * s) * w == (a * w) * s;
  }

  /** Multiplies by 2^51 and folds the limb that falls out: 2^255 is 19. */
  method ShiftReduce(output: felem, ghost i: nat)
    requires output.Length == 5 && i < 4
    requires forall j :: 0 <= j < 5 ==> output[j] < (if j < i then 19 * WIDE else WIDE)
    modifies output
    ensures forall j :: 0 <= j < 5 ==> output[j] < (if j < i + 1 then 19 * WIDE else WIDE)
    ensures Fe(output) == F.Mul(old(Fe(output)), R)
  {
    hide Eval;
    ghost var s := output[..];
    var tmp := output[4];
    output[4] := output[3];
    output[3] := output[2];
    output[2] := output[1];
    output[1] := output[0];
    output[0] := tmp;
    output[0] := 19 * output[0];
    ShiftValue(s, output[..]);
  }

  lemma {:induction false} ShiftValue(s: seq<int>, t: seq<int>)
    requires |s| == |t| == 5
    requires t[0] == 19 * s[4] && t[1] == s[0] && t[2] == s[1] && t[3] == s[2] && t[4] == s[3]
    ensures F.Rep(Eval(R, t, 5)) == F.Mul(F.Rep(Eval(R, s, 5)), R)
  {
    hide Eval, Pow;
    Five(s);
    Five(t);
    F.MulRep(Eval(R, s, 5), R);
    F.RepSmall(R);
    F.RepShift(Eval(R, t, 5), s[4]);
  }

  /** One row of the product and the shift after it. */
  method RowAndShift(t: array<uint128>, input: felem, s: uint64, ghost i: nat, ghost a: int, ghost b: seq<int>)
    requires t.Length == input.Length == |b| == 5 && i < 4 && s < WIDE && s == b[i]
    requires forall j :: 0 <= j < 5 ==> input[j] < (if j < i then 19 * WIDE else WIDE)
    requires forall j :: 0 <= j < 5 ==> t[j] <= i * (if j < 4 then 19 * SQ else SQ)
    requires Accumulated(t[..], a, b, i) && Fe(input) == F.Rep(a * Pow(R, i))
    modifies t, input
    ensures forall j :: 0 <= j < 5 ==> input[j] < (if j < i + 1 then 19 * WIDE else WIDE)
    ensures forall j :: 0 <= j < 5 ==> t[j] <= (i + 1) * (if j < 4 then 19 * SQ else SQ)
    ensures Accumulated(t[..], a, b, i + 1) && Fe(input) == F.Rep(a * Pow(R, i + 1))
  {
    hide Eval, Pow, F.Mul;
    ghost var v, w := Eval(R, t[..], 5), Eval(R, input[..], 5);
    SumScalarMultiplication(t, input, s, i);
    AccumulateStep(v, w, a, b, i);
    ShiftReduce(input, i);
    ShiftStep(a, i);
  }

  /** The accumulator holds a times the first i limbs of b, modulo p. */
  ghost predicate Accumulated(t: seq<int>, a: int, b: seq<int>, i: nat)
    requires |t| == 5 && i <= |b|
  {
    F.Rep(Eval(R, t, 5)) == F.Rep(a * Eval(R, b, i))
  }

  lemma {:induction false} AccumulateStep(v: int, w: int, a: int, b: seq<int>, i: nat)
    requires i < |b| && F.Rep(v) == F.Rep(a * Eval(R, b, i)) && F.Rep(w) == F.Rep(a * Pow(R, i))
    ensures F.Rep(v + w * b[i]) == F.Rep(a * Eval(R, b, i + 1))
  {
    hide Eval, Pow, F.Rep;
    var e, u := Eval(R, b, i), Pow(R, i);
    EvalTop(R, b, i);
    F.MulRep(w, b[i]);
    F.MulRep(a * u, b[i]);
    F.AddRep(v, w * b[i]);
    F.AddRep(a * e, a * u * b[i]);
    assert a * (e + b[i] * u) == a * e + a * u * b[i] by {
      assert a * (e + b[i] * u) == a * e + a * (b[i] * u);
      assert a * (b[i] * u) == a * u * b[i];
    }
  }

  lemma {:induction false} ShiftStep(a: int, i: nat)
    ensures F.Mul(F.Rep(a * Pow(R, i)), R) == F.Rep(a * Pow(R, i + 1))
  {
    hide Pow, F.Rep;
    PowTop(R, i);
    F.RepSmall(R);
    F.MulRep(a * Pow(R, i), R);
    assert a * Pow(R, i) * R == a * (R * Pow(R, i));
  }

  /** All five rows of the product. */
  method MulShiftReduce(output: array<uint128>, input: felem, input21: felem)
    requires output.Length == 5 && IsWide(input) && IsWide(input21) && input != input21
    requires forall j :: 0 <= j < 5 ==> output[j] == 0
    modifies output, input
    ensures forall j :: 0 <= j < 5 ==> output[j] <= 5 * (if j < 4 then 19 * SQ else SQ)
    ensures F.Rep(Eval(R, output[..], 5)) == F.Mul(old(Fe(input)), Fe(input21))
  {
    hide Eval, Pow, F.Rep, F.Mul;
    ghost var a, b := Eval(R, input[..], 5), input21[..];
    EvalZero(R, output[..], 5);
    EvalStart(R, b);
    PowTop(R, 0);
    RowAndShift(output, input, input21[0], 0, a, b);
    RowAndShift(output, input, input21[1], 1, a, b);
    RowAndShift(output, input, input21[2], 2, a, b);
    RowAndShift(output, input, input21[3], 3, a, b);
    ghost var v, w := Eval(R, output[..], 5), Eval(R, input[..], 5);
    SumScalarMultiplication(output, input, input21[4], 4);
    AccumulateStep(v, w, a, b, 4);
    F.MulRep(a, Eval(R, b, 5));
  }

  /** Carries from limb ctr to limb ctr + 1. */
  method CarryOne(tmp: array<uint128>, ctr: nat)
    requires tmp.Length == 5 && ctr < 4
    requires tmp[ctr] <= 96 * SQ && tmp[ctr + 1] <= 95 * SQ
    modifies tmp
    ensures forall j :: 0 <= j < 5 && j != ctr && j != ctr + 1 ==> tmp[j] == old(tmp[j])
    ensures 0 <= tmp[ctr] < R && tmp[ctr + 1] == old(tmp[ctr + 1]) + old(tmp[ctr]) / R
    ensures Eval(R, tmp[..], 5) == old(Eval(R, tmp[..], 5))
  {
    hide Eval, Pow;
    ghost var s := tmp[..];
    var tctr, tctrp1 := tmp[ctr], tmp[ctr + 1];
    var r0: uint64 := ToU64(tctr) % R;
    ToU64Mask(tctr);
    var c: uint128 := tctr / R;
    tmp[ctr] := r0;
    tmp[ctr + 1] := tctrp1 + c;
    MoveUp(R, s, tmp[..], 5, ctr, c);
  }

  function ToU64(v: uint128): uint64
  {
    v % 0x1_0000_0000_0000_0000
  }

  lemma {:induction false} ToU64Mask(v: uint128)
    ensures ToU64(v) % R == v % R
  {
    var q := v / 0x1_0000_0000_0000_0000;
    ModShift(v, -0x2000 * q, R);
  }

  method CarryWide(tmp: array<uint128>)
    requires tmp.Length == 5
    requires forall j :: 0 <= j < 4 ==> tmp[j] <= 95 * SQ
    requires tmp[4] <= 5 * SQ
    modifies tmp
    ensures forall j :: 0 <= j < 4 ==> 0 <= tmp[j] < R
    ensures tmp[4] <= 5 * SQ + 96 * SQ / R
    ensures Eval(R, tmp[..], 5) == old(Eval(R, tmp[..], 5))
  {
    hide Eval;
    CarryOne(tmp, 0);
    CarryOne(tmp, 1);
    CarryOne(tmp, 2);
    CarryOne(tmp, 3);
  }

  /** Folds the top of limb 4 into limb 0 and narrows to 64 bits. */
  method FoldTop(output: felem, tmp: array<uint128>)
    requires output.Length == tmp.Length == 5
    requires forall j :: 0 <= j < 4 ==> 0 <= tmp[j] < R
    requires tmp[4] <= 5 * SQ + 96 * SQ / R
    modifies output, tmp
    ensures forall j :: 1 <= j < 5 ==> 0 <= output[j] < R
    ensures output[0] < R + 19 * (old(tmp[4]) / R + 1)
    ensures Fe(output) == old(F.Rep(Eval(R, tmp[..], 5)))
  {
    hide Eval, F.Rep;
    ghost var s := tmp[..];
    var b4, b0 := tmp[4], tmp[0];
    FoldBound(b4);
    var b4': uint128 := b4 % R;
    var b0': uint128 := b0 + 19 * ToU64(b4 / R);
    tmp[4] := b4';
    tmp[0] := b0';
    output[0] := ToU64(tmp[0]);
    output[1] := ToU64(tmp[1]);
    output[2] := ToU64(tmp[2]);
    output[3] := ToU64(tmp[3]);
    output[4] := ToU64(tmp[4]);
    FoldValue(s, output[..], b4 / R);
  }

  /** 19 times the carry out of limb 4 stays inside 64 bits. */
  lemma {:induction false} FoldBound(b4: int)
    requires 0 <= b4 <= 5 * SQ + 96 * SQ / R
    ensures 0 <= b4 / R && 19 * (b4 / R) + R < 0x1_0000_0000_0000_0000
  {
  }

  lemma {:induction false} FoldValue(s: seq<int>, t: seq<int>, q: int)
    requires |s| == |t| == 5 && t == s[0 := s[0] + 19 * q][4 := s[4] - R * q]
    ensures F.Rep(Eval(R, t, 5)) == F.Rep(Eval(R, s, 5))
  {
    hide Eval;
    Five(s);
    Five(t);
    F.RepShift(Eval(R, t, 5), q);
  }

  /** The last carry of a product, from limb 0 to limb 1. */
  method CarryFirst(output: felem)
    requires output.Length == 5 && forall j :: 1 <= j < 5 ==> 0 <= output[j] < R
    modifies output
    ensures IsTight(output) && Fe(output) == old(Fe(output))
  {
    hide Eval, Pow;
    ghost var s := output[..];
    var i0, i1 := output[0], output[1];
    output[0] := i0 % R;
    output[1] := i1 + i0 / R;
    MoveUp(R, s, output[..], 5, 0, i0 / R);
  }

  /** Carry, fold and narrow a wide accumulator. */
  method Narrow(output: felem, t: array<uint128>)
    requires output.Length == t.Length == 5
    requires forall j :: 0 <= j < 4 ==> t[j] <= 95 * SQ
    requires t[4] <= 5 * SQ
    modifies output, t
    ensures IsTight(output) && Fe(output) == old(F.Rep(Eval(R, t[..], 5)))
  {
    hide Eval, F.Rep;
    CarryWide(t);
    FoldTop(output, t);
    CarryFirst(output);
  }

  method Copy(output: felem, input: felem)
    requires output.Length == input.Length == 5
    modifies output
    ensures output[..] == old(input[..])
  {
    ghost var s := input[..];
    for i := 0 to 5
      invariant forall j :: i <= j < 5 ==> input[j] == s[j]
      invariant forall j :: 0 <= j < i ==> output[j] == s[j]
    {
      output[i] := input[i];
    }
  }

  method FMul(output: felem, input: felem, input21: felem)
    requires output.Length == 5 && IsWide(input) && IsWide(input21)
    modifies output
    ensures IsTight(output) && IsWide(output) && Fe(output) == F.Mul(old(Fe(input)), old(Fe(input21)))
  {
    hide Eval, F.Rep, F.Mul;
    var tmp := new uint64[5];
    Copy(tmp, input);
    var t := new uint128[5](_ => 0);
    MulShiftReduce(t, tmp, input21);
    Narrow(output, t);
  }

  /** The five columns of a square, from ten distinct products. */
  method SquareColumns(r0: uint64, r1: uint64, r2: uint64, r3: uint64, r4: uint64)
    returns (s0: uint128, s1: uint128, s2: uint128, s3: uint128, s4: uint128)
    requires r0 < WIDE && r1 < WIDE && r2 < WIDE && r3 < WIDE && r4 < WIDE
    ensures s4 <= 5 * SQ
    ensures s0 == r0 * r0 + 38 * (r1 * r4) + 38 * (r2 * r3)
    ensures s1 == 2 * (r0 * r1) + 38 * (r2 * r4) + 19 * (r3 * r3)
    ensures s2 == 2 * (r0 * r2) + r1 * r1 + 38 * (r3 * r4)
    ensures s3 == 2 * (r0 * r3) + 2 * (r1 * r2) + 19 * (r4 * r4)
    ensures s4 == 2 * (r0 * r4) + 2 * (r1 * r3) + r2 * r2
  {
    var d0: uint64 := r0 * 2;
    var d1: uint64 := r1 * 2;
    var d2: uint64 := r2 * 2 * 19;
    var d419: uint64 := r4 * 19;
    var d4: uint64 := d419 * 2;
    s0 := Column(r0, r0, d4, r1, d2, r3);
    s1 := Column(d0, r1, d4, r2, r3 * 19, r3);
    s2 := Column(d0, r2, r1, r1, d4, r3);
    s3 := Column(d0, r3, d1, r2, r4, d419);
    s4 := Column(d0, r4, d1, r3, r2, r2);
    assert s0 == r0 * r0 + 38 * (r1 * r4) + 38 * (r2 * r3) by { Scaled(38, r4, r1); Scaled(38, r2, r3); }
    assert s1 == 2 * (r0 * r1) + 38 * (r2 * r4) + 19 * (r3 * r3) by {
      Scaled(2, r0, r1);
      Scaled(38, r4, r2);
      Scaled(19, r3, r3);
    }
    assert s2 == 2 * (r0 * r2) + r1 * r1 + 38 * (r3 * r4) by { Scaled(2, r0, r2); Scaled(38, r4, r3); }
    assert s3 == 2 * (r0 * r3) + 2 * (r1 * r2) + 19 * (r4 * r4) by {
      Scaled(2, r0, r3);
      Scaled(2, r1, r2);
      Scaled(19, r4, r4);
    }
    assert s4 == 2 * (r0 * r4) + 2 * (r1 * r3) + r2 * r2 by { Scaled(2, r0, r4); Scaled(2, r1, r3); }
    RowBound(r0, r4, WIDE);
    RowBound(r1, r3, WIDE);
    RowBound(r2, r2, WIDE);
  }

  lemma {:induction false} Scaled(k: int, a: int, b: int)
    ensures (k * a) * b == k * (a * b) && b * (k * a) == k * (a * b) && a * b == b * a
  {
  }

  /** Three 128-bit products. */
  method Column(a: uint64, b: uint64, c: uint64, d: uint64, e: uint64, f: uint64) returns (s: uint128)
    requires a <= 38 * WIDE && b < 19 * WIDE && c <= 38 * WIDE && d < WIDE && e <= 38 * WIDE && f < 19 * WIDE
    ensures s == a * b + c * d + e * f
  {
    assert 0 <= a * b <= 0x1000 * SQ && 0 <= c * d <= 0x1000 * SQ && 0 <= e * f <= 0x1000 * SQ by {
      forall x, y | 0 <= x <= 38 * WIDE && 0 <= y <= 19 * WIDE ensures 0 <= x * y <= 0x1000 * SQ {
        MulMono(x, y, 19 * WIDE);
        MulMono(19 * WIDE, x, 38 * WIDE);
        MulMono(x, 0, y);
      }
    }
    s := a * b + c * d + e * f;
  }

  lemma {:induction false} SquareBounds(r: seq<int>)
    requires Below(r, WIDE)
    ensures r[0] * r[0] + 38 * (r[1] * r[4]) + 38 * (r[2] * r[3]) <= 95 * SQ
    ensures 2 * (r[0] * r[1]) + 38 * (r[2] * r[4]) + 19 * (r[3] * r[3]) <= 95 * SQ
    ensures 2 * (r[0] * r[2]) + r[1] * r[1] + 38 * (r[3] * r[4]) <= 95 * SQ
    ensures 2 * (r[0] * r[3]) + 2 * (r[1] * r[2]) + 19 * (r[4] * r[4]) <= 95 * SQ
  {
    forall i, j | 0 <= i < 5 && 0 <= j < 5 ensures r[i] * r[j] <= SQ {
      RowBound(r[i], r[j], WIDE);
    }
  }

  method SquareWide(tmp: array<uint128>, output: felem)
    requires tmp.Length == 5 && IsWide(output)
    modifies tmp
    ensures forall j :: 0 <= j < 4 ==> tmp[j] <= 95 * SQ
    ensures tmp[4] <= 5 * SQ
    ensures F.Rep(Eval(R, tmp[..], 5)) == F.Mul(Fe(output), Fe(output))
  {
    hide Eval, F.Mul, F.Rep;
    SquareBounds(output[..]);
    var s0, s1, s2, s3, s4 := SquareColumns(output[0], output[1], output[2], output[3], output[4]);
    tmp[0] := s0;
    tmp[1] := s1;
    tmp[2] := s2;
    tmp[3] := s3;
    tmp[4] := s4;
    SquareValue(output[..], tmp[..]);
  }

  /** a * x for a number of five limbs. */
  lemma {:induction false} ScaleFive(a: int, x: seq<int>)
    requires |x| == 5
    ensures a * Eval(R, x, 5) ==
            a * x[0] + R * (a * x[1]) + R * R * (a * x[2]) + R * R * R * (a * x[3]) + R * R * R * R * (a * x[4])
  {
    hide Eval;
    Five(x);
  }

  lemma {:induction false} SquareValue(r: seq<int>, s: seq<int>)
    requires |r| == |s| == 5
    requires s[0] == r[0] * r[0] + 38 * (r[1] * r[4]) + 38 * (r[2] * r[3])
    requires s[1] == 2 * (r[0] * r[1]) + 38 * (r[2] * r[4]) + 19 * (r[3] * r[3])
    requires s[2] == 2 * (r[0] * r[2]) + r[1] * r[1] + 38 * (r[3] * r[4])
    requires s[3] == 2 * (r[0] * r[3]) + 2 * (r[1] * r[2]) + 19 * (r[4] * r[4])
    requires s[4] == 2 * (r[0] * r[4]) + 2 * (r[1] * r[3]) + r[2] * r[2]
    ensures F.Rep(Eval(R, s, 5)) == F.Mul(F.Rep(Eval(R, r, 5)), F.Rep(Eval(R, r, 5)))
  {
    hide Eval, F.Rep;
    var v := Eval(R, r, 5);
    Five(s);
    ScaleFive(v, r);
    ScaleFive(r[0], r);
    ScaleFive(r[1], r);
    ScaleFive(r[2], r);
    ScaleFive(r[3], r);
    ScaleFive(r[4], r);
    var high := SquareHigh(r[0] * r[0], r[0] * r[1], r[0] * r[2], r[0] * r[3], r[0] * r[4],
                           r[1] * r[1], r[1] * r[2], r[1] * r[3], r[1] * r[4],
                           r[2] * r[2], r[2] * r[3], r[2] * r[4], r[3] * r[3], r[3] * r[4], r[4] * r[4],
                           r[0] * v, r[1] * v, r[2] * v, r[3] * v, r[4] * v, s);
    F.RepShift(Eval(R, s, 5), high);
    F.MulRep(v, v);
  }

  /** The columns at and above 2^255 of a square, which come back 19-fold. */
  lemma {:induction false} SquareHigh(p00: int, p01: int, p02: int, p03: int, p04: int, p11: int, p12: int, p13: int,
                                      p14: int, p22: int, p23: int, p24: int, p33: int, p34: int, p44: int,
                                      e0: int, e1: int, e2: int, e3: int, e4: int, s: seq<int>) returns (high: int)
    requires |s| == 5
    requires e0 == p00 + R * p01 + R * R * p02 + R * R * R * p03 + R * R * R * R * p04
    requires e1 == p01 + R * p11 + R * R * p12 + R * R * R * p13 + R * R * R * R * p14
    requires e2 == p02 + R * p12 + R * R * p22 + R * R * R * p23 + R * R * R * R * p24
    requires e3 == p03 + R * p13 + R * R * p23 + R * R * R * p33 + R * R * R * R * p34
    requires e4 == p04 + R * p14 + R * R * p24 + R * R * R * p34 + R * R * R * R * p44
    requires s[0] == p00 + 38 * p14 + 38 * p23 && s[1] == 2 * p01 + 38 * p24 + 19 * p33
    requires s[2] == 2 * p02 + p11 + 38 * p34 && s[3] == 2 * p03 + 2 * p12 + 19 * p44
    requires s[4] == 2 * p04 + 2 * p13 + p22
    ensures e0 + R * e1 + R * R * e2 + R * R * R * e3 + R * R * R * R * e4
         == s[0] + R * s[1] + R * R * s[2] + R * R * R * s[3] + R * R * R * R * s[4] + F.P * high
  {
    high := 2 * p14 + 2 * p23 + R * (2 * p24 + p33) + R * R * (2 * p34) + R * R * R * p44;
  }

  method FSquare(tmp: array<uint128>, output: felem)
    requires tmp.Length == 5 && IsWide(output)
    modifies tmp, output
    ensures IsTight(output) && IsWide(output) && Fe(output) == F.Mul(old(Fe(output)), old(Fe(output)))
  {
    hide Eval, F.Rep, F.Mul;
    SquareWide(tmp, output);
    Narrow(output, tmp);
  }

  /** e followed by n zero bits. */
  function Raised(e: nat, n: nat): nat
  {
    PowPos(2, n);
    MulMono(e, 0, Pow(2, n));
    e * Pow(2, n)
  }

  lemma {:induction false} RaisedStep(e: nat, i: nat)
    ensures Raised(e, 0) == e && Raised(e, i + 1) == Raised(e, i) + Raised(e, i)
  {
    PowTop(2, i);
    assert e * (2 * Pow(2, i)) == 2 * (e * Pow(2, i));
  }

  /** output := input^(2^count), where input is v^e. */
  method FSquareTimes(output: felem, input: felem, count: nat, ghost v: int, ghost e: nat)
    requires output.Length == 5 && IsWide(input) && count >= 1 && Fe(input) == F.Power(v, e)
    modifies output
    ensures IsTight(output) && IsWide(output)
    ensures Fe(output) == F.Power(v, Raised(e, count))
  {
    hide Eval, F.Rep, F.Mul, F.Power, Raised;
    var t := new uint128[5];
    Copy(output, input);
    FSquare(t, output);
    F.PowerMul(v, e, e);
    RaisedStep(e, 0);
    for i := 1 to count
      invariant IsTight(output) && IsWide(output)
      invariant Fe(output) == F.Power(v, Raised(e, i))
    {
      FSquare(t, output);
      F.PowerMul(v, Raised(e, i), Raised(e, i));
      RaisedStep(e, i);
    }
  }

  /** a := z^11 and b := z^(2^5 - 1). */
  method CRecipStart(a: felem, t0: felem, b: felem, z: felem, ghost v: int)
    requires a !in {t0, b, z} && t0 !in {b, z} && b != z && IsWide(z) && Fe(z) == F.Power(v, 1)
    requires a.Length == t0.Length == b.Length == 5
    modifies a, t0, b
    ensures IsWide(a) && IsWide(b) && Fe(a) == F.Power(v, 11) && Fe(b) == F.Power(v, Ones(5))
  {
    hide F.Mul, F.Power, Raised, Ones, IsTight, IsWide, Fe;
    SmallRuns();
    FSquareTimes(a, z, 1, v, 1);
    FSquareTimes(t0, a, 2, v, 2);
    FMul(b, t0, z);
    F.PowerMul(v, 8, 1);
    FMul(a, b, a);
    F.PowerMul(v, 9, 2);
    FSquareTimes(t0, a, 1, v, 11);
    FMul(b, t0, b);
    F.PowerMul(v, 22, 9);
  }

  lemma {:induction false} SmallRuns()
    ensures Raised(1, 1) == 2 && Raised(2, 2) == 8 && Raised(11, 1) == 22 && Ones(5) == 31
  {
    PowTop(2, 0);
    PowTop(2, 1);
    PowTop(2, 2);
    PowTop(2, 3);
    PowTop(2, 4);
  }

  /** b := z^(2^50 - 1), from z^(2^5 - 1). */
  method CRecipMiddle(t0: felem, b: felem, c: felem, ghost v: int)
    requires t0 !in {b, c} && b != c && t0.Length == b.Length == c.Length == 5
    requires IsWide(b) && Fe(b) == F.Power(v, Ones(5))
    modifies t0, b, c
    ensures IsWide(b) && Fe(b) == F.Power(v, Ones(50))
  {
    hide F.Mul, F.Power, Raised, Ones, IsTight, IsWide, Fe;
    FSquareTimes(t0, b, 5, v, Ones(5));
    RunOn(v, 5, 5);
    FMul(b, t0, b);
    FSquareTimes(t0, b, 10, v, Ones(10));
    RunOn(v, 10, 10);
    FMul(c, t0, b);
    FSquareTimes(t0, c, 20, v, Ones(20));
    RunOn(v, 20, 20);
    FMul(t0, t0, c);
    FSquareTimes(t0, t0, 10, v, Ones(40));
    RunOn(v, 40, 10);
    FMul(b, t0, b);
  }

  /** t0 := z^(2^250 - 1), from z^(2^50 - 1). */
  method CRecipEnd(t0: felem, b: felem, c: felem, ghost v: int)
    requires t0 !in {b, c} && b != c && t0.Length == b.Length == c.Length == 5
    requires IsWide(b) && Fe(b) == F.Power(v, Ones(50))
    modifies t0, c
    ensures IsWide(t0) && Fe(t0) == F.Power(v, Ones(250))
  {
    hide F.Mul, F.Power, Raised, Ones, IsTight, IsWide, Fe;
    FSquareTimes(t0, b, 50, v, Ones(50));
    RunOn(v, 50, 50);
    FMul(c, t0, b);
    FSquareTimes(t0, c, 100, v, Ones(100));
    RunOn(v, 100, 100);
    FMul(t0, t0, c);
    FSquareTimes(t0, t0, 50, v, Ones(200));
    RunOn(v, 200, 50);
    FMul(t0, t0, b);
  }

  /** out := z^(p - 2). */
  method CRecip(out: felem, z: felem)
    requires out.Length == z.Length == 5 && out != z && IsWide(z)
    modifies out
    ensures IsTight(out) && IsWide(out) && Fe(out) == F.Inv(old(Fe(z)))
  {
    hide F.Mul, F.Power, Raised, Ones, IsTight, IsWide, Fe;
    ghost var v := Fe(z);
    var a, t0, b, c := new uint64[5], new uint64[5], new uint64[5], new uint64[5];
    FeOne(z);
    CRecipStart(a, t0, b, z, v);
    CRecipMiddle(t0, b, c, v);
    CRecipEnd(t0, b, c, v);
    FSquareTimes(t0, t0, 5, v, Ones(250));
    FMul(out, t0, a);
    LastRun(v);
  }

  /** n one bits. */
  function Ones(n: nat): (r: nat)
  {
    PowPos(2, n);
    Pow(2, n) - 1
  }

  /** v^(n ones) squared m times and multiplied by v^(m ones) is v^(n + m ones). */
  lemma {:induction false} RunOn(v: int, n: nat, m: nat)
    ensures F.Mul(F.Power(v, Raised(Ones(n), m)), F.Power(v, Ones(m))) == F.Power(v, Ones(n + m))
  {
    hide Pow, F.Power, F.Mul;
    PowAdd(2, n, m);
    Distribute(Pow(2, n), 1, Pow(2, m));
    F.PowerMul(v, Raised(Ones(n), m), Ones(m));
  }

  lemma {:induction false} LastRun(v: int)
    ensures F.Mul(F.Power(v, Raised(Ones(250), 5)), F.Power(v, 11)) == F.Inv(v)
  {
    hide Pow, F.Power, F.Mul;
    SmallRuns();
    F.TwoTo255();
    F.PowerMul(v, Raised(Ones(250), 5), 11);
  }

  lemma {:induction false} FeOne(z: felem)
    requires z.Length == 5
    ensures Fe(z) == F.Power(Fe(z), 1)
  {
    hide F.Power, Eval;
    F.PowerOne(Fe(z));
  }

  /** a := a + b, limb by limb. */
  method FSum(a: felem, b: felem)
    requires IsNearTight(a) && IsTight(b)
    modifies a
    ensures IsWide(a) && Fe(a) == F.Add(old(Fe(a)), old(Fe(b)))
  {
    hide Eval;
    ghost var x, y := a[..], b[..];
    a[0] := a[0] + b[0];
    a[1] := a[1] + b[1];
    a[2] := a[2] + b[2];
    a[3] := a[3] + b[3];
    a[4] := a[4] + b[4];
    hide F.Rep;
    RowValue(x, a[..], y, 1);
    F.AddRep(Eval(R, x, 5), Eval(R, y, 5));
  }

  /** What a sum accepts on its left: the result of a product or of fscalar. */
  ghost predicate IsNearTight(x: felem)
    reads x
  {
    x.Length == 5 && Below(x[..], TIGHT + 0x400_0000)
  }

  /** a := b - a, kept positive by adding the limbs of 8p. */
  method FDifference(a: felem, b: felem)
    requires IsTight(a) && IsTight(b)
    modifies a
    ensures IsWide(a) && Fe(a) == F.Sub(old(Fe(b)), old(Fe(a)))
  {
    hide Eval;
    ghost var x, y := a[..], b[..];
    var b0: uint64 := b[0] + 0x3fffffffffff68;
    var b1: uint64 := b[1] + 0x3ffffffffffff8;
    var b2: uint64 := b[2] + 0x3ffffffffffff8;
    var b3: uint64 := b[3] + 0x3ffffffffffff8;
    var b4: uint64 := b[4] + 0x3ffffffffffff8;
    a[0] := b0 - a[0];
    a[1] := b1 - a[1];
    a[2] := b2 - a[2];
    a[3] := b3 - a[3];
    a[4] := b4 - a[4];
    hide F.Rep;
    BiasValue(y, [b0, b1, b2, b3, b4]);
    RowValue([b0, b1, b2, b3, b4], a[..], x, -1);
    F.SubRep(Eval(R, y, 5), Eval(R, x, 5));
    F.RepShift(Eval(R, y, 5) - Eval(R, x, 5), 8);
  }

  lemma {:induction false} BiasValue(y: seq<int>, t: seq<int>)
    requires |y| == |t| == 5 && t[0] == y[0] + 0x3fffffffffff68
    requires forall j :: 1 <= j < 5 ==> t[j] == y[j] + 0x3ffffffffffff8
    ensures Eval(R, t, 5) == Eval(R, y, 5) + F.P * 8
  {
    hide Eval;
    Five(y);
    Five(t);
  }

  /** output := b * 121665. */
  method FScalar(output: felem, b: felem)
    requires output.Length == 5 && IsWide(b)
    modifies output
    ensures IsNearTight(output) && Fe(output) == F.Mul(old(Fe(b)), F.A24)
  {
    hide Eval, F.Rep, F.Mul;
    ghost var x := b[..];
    var tmp := ScalarRow(b);
    ScalarValue(x, tmp[..]);
    ScalarCarry(tmp);
    FoldTop(output, tmp);
  }

  method ScalarRow(b: felem) returns (tmp: array<uint128>)
    requires IsWide(b)
    ensures fresh(tmp) && tmp.Length == 5 && forall j :: 0 <= j < 5 ==> tmp[j] == b[j] * F.A24 <= F.A24 * WIDE
  {
    tmp := new uint128[5](_ => 0);
    tmp[0] := b[0] * F.A24;
    tmp[1] := b[1] * F.A24;
    tmp[2] := b[2] * F.A24;
    tmp[3] := b[3] * F.A24;
    tmp[4] := b[4] * F.A24;
  }

  lemma {:induction false} ScalarValue(x: seq<int>, t: seq<int>)
    requires |x| == |t| == 5 && forall j :: 0 <= j < 5 ==> t[j] == x[j] * F.A24
    ensures F.Rep(Eval(R, t, 5)) == F.Mul(F.Rep(Eval(R, x, 5)), F.A24)
  {
    hide Eval;
    F.RepSmall(F.A24);
    hide F.Rep;
    var zeros := seq(5, i => 0);
    EvalZero(R, zeros, 5);
    RowValue(zeros, t, x, F.A24);
    F.MulRep(Eval(R, x, 5), F.A24);
  }

  /** The carry pass on a product by the small constant: limb 4 stays below 2^72. */
  method ScalarCarry(tmp: array<uint128>)
    requires tmp.Length == 5 && forall j :: 0 <= j < 5 ==> tmp[j] <= F.A24 * WIDE
    modifies tmp
    ensures forall j :: 0 <= j < 4 ==> 0 <= tmp[j] < R
    ensures tmp[4] <= F.A24 * WIDE + F.A24 * WIDE
    ensures Eval(R, tmp[..], 5) == old(Eval(R, tmp[..], 5))
  {
    hide Eval;
    CarryOne(tmp, 0);
    CarryOne(tmp, 1);
    CarryOne(tmp, 2);
    CarryOne(tmp, 3);
  }

  /** An exclusive-or exchange under a mask of 64 ones or zeros. */
  method SwapConditional(a: felem, b: felem, iswap: uint64)
    requires a != b && IsTight(a) && IsTight(b) && (iswap == 0 || iswap == 1)
    modifies a, b
    ensures IsTight(a) && IsTight(b)
    ensures Fe(a) == old(if iswap == 1 then Fe(b) else Fe(a))
    ensures Fe(b) == old(if iswap == 1 then Fe(a) else Fe(b))
  {
    hide Xor, And, Eval;
    var swap1: uint64 := (0 - iswap) % 0x1_0000_0000_0000_0000;
    for i := 0 to 5
      invariant forall k :: i <= k < 5 ==> a[k] == old(a[k]) && b[k] == old(b[k])
      invariant forall k :: 0 <= k < i ==> a[k] == old(if iswap == 1 then b[k] else a[k])
      invariant forall k :: 0 <= k < i ==> b[k] == old(if iswap == 1 then a[k] else b[k])
    {
      MaskedSwap(swap1, a[i], b[i]);
      var x: uint64 := And(swap1, Xor(a[i], b[i]));
      a[i] := Xor(a[i], x);
      b[i] := Xor(b[i], x);
    }
    assert a[..] == old(if iswap == 1 then b[..] else a[..]);
    assert b[..] == old(if iswap == 1 then a[..] else b[..]);
  }

  lemma {:induction false} MaskedSwap(mask: int, a: int, b: int)
    requires mask == 0 || mask == 0xffff_ffff_ffff_ffff
    requires 0 <= a < TIGHT && 0 <= b < TIGHT
    ensures var x := And(mask, Xor(a, b));
            0 <= x < 0x1_0000_0000_0000_0000
            && Xor(a, x) == (if mask == 0 then a else b) && Xor(b, x) == (if mask == 0 then b else a)
  {
    hide And, Xor;
    var d := Xor(a, b);
    TwoTo64();
    XorRange(a, b, 64);
    AndComm(mask, d);
    AndComm(-1, d);
    AndComm(0, d);
    AndMask(d, 64);
    AndConst(d);
    XorSwap(if mask == 0 then 0 else -1, a, b);
  }

  lemma {:induction false} TightIs(x: felem)
    requires IsTight(x)
    ensures IsWide(x) && IsNearTight(x) && x.Length == 5
  {
  }

  /** (x, z) := (x + z, x - z), keeping a copy of x in orig. */
  method Butterfly(x: felem, z: felem, orig: felem)
    requires x !in {z, orig} && z != orig && orig.Length == 5 && IsTight(x) && IsTight(z)
    modifies x, z, orig
    ensures IsWide(x) && IsWide(z)
    ensures Fe(x) == F.Add(old(Fe(x)), old(Fe(z))) && Fe(z) == F.Sub(old(Fe(x)), old(Fe(z)))
  {
    hide Eval, F.Rep, F.Add, F.Sub;
    Copy(orig, x);
    assert IsTight(orig) && Fe(orig) == old(Fe(x));
    TightIs(x);
    FSum(x, z);
    FDifference(z, orig);
  }

  /** The first half of a step: sums, differences and the cross products CB and DA. */
  method StepProducts(x: felem, z: felem, xprime: felem, zprime: felem, xxprime: felem, zzprime: felem)
    requires x !in {z, xprime, zprime, xxprime, zzprime} && z !in {xprime, zprime, xxprime, zzprime}
    requires xprime !in {zprime, xxprime, zzprime} && zprime !in {xxprime, zzprime} && xxprime != zzprime
    requires xxprime.Length == zzprime.Length == 5
    requires IsTight(x) && IsTight(z) && IsTight(xprime) && IsTight(zprime)
    modifies x, z, xprime, zprime, xxprime, zzprime
    ensures IsWide(x) && IsWide(z) && IsTight(xxprime) && IsTight(zzprime)
    ensures Fe(x) == F.Add(old(Fe(x)), old(Fe(z))) && Fe(z) == F.Sub(old(Fe(x)), old(Fe(z)))
    ensures Fe(xxprime) == F.Mul(F.Add(old(Fe(xprime)), old(Fe(zprime))), Fe(z))
    ensures Fe(zzprime) == F.Mul(Fe(x), F.Sub(old(Fe(xprime)), old(Fe(zprime))))
  {
    hide Fe, IsTight, IsWide, F.Add, F.Sub, F.Mul;
    var orig := new uint64[5];
    Butterfly(x, z, orig);
    Butterfly(xprime, zprime, orig);
    FMul(xxprime, xprime, z);
    FMul(zzprime, x, zprime);
  }

  /** output := input^2. */
  method FSquareOnce(output: felem, input: felem)
    requires output.Length == 5 && IsWide(input)
    modifies output
    ensures IsTight(output) && IsWide(output) && Fe(output) == F.Mul(old(Fe(input)), old(Fe(input)))
  {
    hide F.Power, F.Mul, Raised, IsTight;
    ghost var v := Fe(input);
    FeOne(input);
    FSquareTimes(output, input, 1, v, 1);
    RaisedStep(1, 0);
    F.PowerMul(v, 1, 1);
  }

  /** The difference point: x3 := (CB + DA)^2 and z3 := (CB - DA)^2 * q. */
  method StepAdd(x3: felem, z3: felem, xxprime: felem, zzprime: felem, qx: felem)
    requires x3 !in {z3, xxprime, zzprime, qx} && z3 !in {xxprime, zzprime, qx} && xxprime !in {zzprime, qx}
             && zzprime != qx
    requires x3.Length == z3.Length == qx.Length == 5 && IsTight(xxprime) && IsTight(zzprime) && IsWide(qx)
    modifies x3, z3, xxprime, zzprime
    ensures IsTight(x3) && IsTight(z3)
    ensures var cb, da := old(Fe(xxprime)), old(Fe(zzprime));
            && Fe(x3) == F.Mul(F.Add(cb, da), F.Add(cb, da))
            && Fe(z3) == F.Mul(F.Mul(F.Sub(cb, da), F.Sub(cb, da)), Fe(qx))
  {
    hide Fe, IsTight, IsWide, F.Add, F.Sub, F.Mul;
    var orig, zzzprime := new uint64[5], new uint64[5];
    Butterfly(xxprime, zzprime, orig);
    FSquareOnce(x3, xxprime);
    FSquareOnce(zzzprime, zzprime);
    FMul(z3, zzzprime, qx);
  }

  /** The doubled point: x2 := AA * BB and z2 := E * (a24 E + AA). */
  method StepDouble(x2: felem, z2: felem, x: felem, z: felem)
    requires x2 !in {z2, x, z} && z2 !in {x, z} && x2.Length == z2.Length == 5 && IsWide(x) && IsWide(z)
    modifies x2, z2
    ensures IsTight(x2) && IsTight(z2)
    ensures var aa, bb := F.Mul(Fe(x), Fe(x)), F.Mul(Fe(z), Fe(z));
            var e := F.Sub(aa, bb);
            && Fe(x2) == F.Mul(aa, bb) && Fe(z2) == F.Mul(F.Add(F.Mul(e, F.A24), aa), e)
  {
    hide Fe, IsTight, IsWide, IsNearTight, F.Add, F.Sub, F.Mul;
    var xx, zz, zzz := new uint64[5], new uint64[5], new uint64[5];
    FSquareOnce(xx, x);
    FSquareOnce(zz, z);
    FMul(x2, xx, zz);
    FDifference(zz, xx);
    FScalar(zzz, zz);
    FSum(zzz, xx);
    FMul(z2, zzz, zz);
  }

  ghost predicate Distinct(s: seq<felem>)
  {
    && (forall i :: 0 <= i < |s| ==> s[i].Length == 5)
    && (forall i, j :: 0 <= i < j < |s| ==> s[i] != s[j])
  }

  datatype Point = Point(x: felem, z: felem)

  ghost predicate Tight(p: Point)
    reads p.x, p.z
  {
    IsTight(p.x) && IsTight(p.z)
  }

  ghost function Both(p: Point, q: Point): F.State
    requires p.x.Length == p.z.Length == q.x.Length == q.z.Length == 5
    reads p.x, p.z, q.x, q.z
  {
    F.State(Fe(p.x), Fe(p.z), Fe(q.x), Fe(q.z))
  }

  lemma {:induction false} NineApart(a: felem, b: felem, c: felem, d: felem, e: felem, f: felem, g: felem, h: felem,
                                     i: felem)
    requires Distinct([a, b, c, d, e, f, g, h, i])
    ensures a.Length == b.Length == c.Length == d.Length == e.Length == 5
    ensures f.Length == g.Length == h.Length == i.Length == 5
    ensures a !in {b, c, d, e, f, g, h, i} && b !in {c, d, e, f, g, h, i} && c !in {d, e, f, g, h, i}
    ensures d !in {e, f, g, h, i} && e !in {f, g, h, i} && f !in {g, h, i} && g !in {h, i} && h != i
  {
    var s := [a, b, c, d, e, f, g, h, i];
    assert s[0] == a && s[1] == b && s[2] == c && s[3] == d && s[4] == e && s[5] == f && s[6] == g && s[7] == h
           && s[8] == i;
  }

  method AddAndDouble(pp: Point, ppq: Point, p: Point, pq: Point, qx: felem)
    requires Distinct([pp.x, pp.z, ppq.x, ppq.z, p.x, p.z, pq.x, pq.z, qx])
    requires Tight(p) && Tight(pq) && IsTight(qx)
    modifies pp.x, pp.z, ppq.x, ppq.z, p.x, p.z, pq.x, pq.z
    ensures Tight(pp) && Tight(ppq)
    ensures Both(pp, ppq) == F.Step(Fe(qx), old(Both(p, pq)))
  {
    hide Distinct, Fe, IsTight, IsWide, F.Add, F.Sub, F.Mul;
    NineApart(pp.x, pp.z, ppq.x, ppq.z, p.x, p.z, pq.x, pq.z, qx);
    TightIs(qx);
    var xxprime, zzprime := new uint64[5], new uint64[5];
    ghost var s := Both(p, pq);
    StepProducts(p.x, p.z, pq.x, pq.z, xxprime, zzprime);
    ghost var a, b := Fe(p.x), Fe(p.z);
    ghost var cb, da := Fe(xxprime), Fe(zzprime);
    StepAdd(ppq.x, ppq.z, xxprime, zzprime, qx);
    StepDouble(pp.x, pp.z, p.x, p.z);
    F.MulComm(a, F.Sub(s.x3, s.z3));
    F.AddComm(cb, da);
    F.SquareNeg(cb, da);
  }

  method SwapPoints(a: Point, b: Point, iswap: uint64)
    requires Distinct([a.x, a.z, b.x, b.z]) && Tight(a) && Tight(b) && (iswap == 0 || iswap == 1)
    modifies a.x, a.z, b.x, b.z
    ensures Tight(a) && Tight(b)
    ensures Both(a, b) == F.SwapIf(iswap, old(Both(a, b)))
  {
    var all := [a.x, a.z, b.x, b.z];
    assert all[0] == a.x && all[1] == a.z && all[2] == b.x && all[3] == b.z;
    hide Fe, IsTight;
    SwapConditional(a.x, b.x, iswap);
    SwapConditional(a.z, b.z, iswap);
  }

  /** Eight scratch numbers and the base point. */
  ghost predicate Apart(nq: Point, nqpq: Point, nq2: Point, nqpq2: Point, qx: felem)
  {
    Distinct([nq2.x, nq2.z, nqpq2.x, nqpq2.z, nq.x, nq.z, nqpq.x, nqpq.z, qx])
  }

  lemma {:induction false} ApartParts(nq: Point, nqpq: Point, nq2: Point, nqpq2: Point, qx: felem)
    requires Apart(nq, nqpq, nq2, nqpq2, qx)
    ensures Distinct([nq.x, nq.z, nqpq.x, nqpq.z]) && Distinct([nq2.x, nq2.z, nqpq2.x, nqpq2.z])
    ensures Apart(nq2, nqpq2, nq, nqpq, qx)
    ensures nq.x.Length == nq.z.Length == nqpq.x.Length == nqpq.z.Length == 5
    ensures nq2.x.Length == nq2.z.Length == nqpq2.x.Length == nqpq2.z.Length == qx.Length == 5
    ensures qx !in {nq.x, nq.z, nqpq.x, nqpq.z, nq2.x, nq2.z, nqpq2.x, nqpq2.z}
  {
    var all := [nq2.x, nq2.z, nqpq2.x, nqpq2.z, nq.x, nq.z, nqpq.x, nqpq.z, qx];
    assert all[0] == nq2.x && all[1] == nq2.z && all[2] == nqpq2.x && all[3] == nqpq2.z;
    assert all[4] == nq.x && all[5] == nq.z && all[6] == nqpq.x && all[7] == nqpq.z && all[8] == qx;
  }

  /** One bit: the top bit of byt, from (nq, nqpq) to (nq2, nqpq2). */
  method SmallLoopStep(nq: Point, nqpq: Point, nq2: Point, nqpq2: Point, qx: felem, byt: uint8)
    requires Apart(nq, nqpq, nq2, nqpq2, qx) && Tight(nq) && Tight(nqpq) && IsTight(qx)
    modifies nq.x, nq.z, nqpq.x, nqpq.z, nq2.x, nq2.z, nqpq2.x, nqpq2.z
    ensures Tight(nq2) && Tight(nqpq2)
    ensures Both(nq2, nqpq2) == F.Round(Msb(byt), Fe(qx), old(Both(nq, nqpq)))
  {
    ApartParts(nq, nqpq, nq2, nqpq2, qx);
    hide Fe, IsTight, Distinct, F.Step;
    var bit: uint64 := Msb(byt);
    SwapPoints(nq, nqpq, bit);
    AddAndDouble(nq2, nqpq2, nq, nqpq, qx);
    SwapPoints(nq2, nqpq2, bit);
  }

  method SmallLoopDoubleStep(nq: Point, nqpq: Point, nq2: Point, nqpq2: Point, qx: felem, byt: uint8)
    requires Apart(nq, nqpq, nq2, nqpq2, qx) && Tight(nq) && Tight(nqpq) && IsTight(qx)
    modifies nq.x, nq.z, nqpq.x, nqpq.z, nq2.x, nq2.z, nqpq2.x, nqpq2.z
    ensures Tight(nq) && Tight(nqpq)
    ensures Both(nq, nqpq) == F.Round(Msb(Twice(byt)), Fe(qx), F.Round(Msb(byt), Fe(qx), old(Both(nq, nqpq))))
  {
    ApartParts(nq, nqpq, nq2, nqpq2, qx);
    hide Fe, IsTight, Distinct, F.Round, Msb, Twice;
    SmallLoopStep(nq, nqpq, nq2, nqpq2, qx, byt);
    var byt1 := Twice(byt);
    SmallLoopStep(nq2, nqpq2, nq, nqpq, qx, byt1);
  }

  /** The top bit of a byte. */
  function Msb(b: uint8): (r: int)
    ensures r == 0 || r == 1
  {
    b / 128
  }

  /** A byte shifted left by one. */
  function Twice(b: uint8): uint8
  {
    b * 2 % 256
  }

  /** A byte after i shifts by two. */
  function Window(byte: uint8, i: nat): uint8
  {
    if i == 0 then byte else Twice(Twice(Window(byte, i - 1)))
  }

  /** The eight bits of byte j of the scalar, two at a time. */
  method SmallLoop(nq: Point, nqpq: Point, nq2: Point, nqpq2: Point, qx: felem, byte: uint8, ghost k: K.Key,
                   ghost j: nat)
    requires Apart(nq, nqpq, nq2, nqpq2, qx) && Tight(nq) && Tight(nqpq) && IsTight(qx)
    requires j < 32 && byte == K.Clamp(k)[j]
    requires Both(nq, nqpq) == F.LongLadder(Fe(qx), K.Scalar(k), 248 - 8 * j)
    modifies nq.x, nq.z, nqpq.x, nqpq.z, nq2.x, nq2.z, nqpq2.x, nqpq2.z
    ensures Tight(nq) && Tight(nqpq)
    ensures Both(nq, nqpq) == F.LongLadder(Fe(qx), K.Scalar(k), 256 - 8 * j)
  {
    hide Fe, IsTight, Tight, Both, Apart, Distinct, Window, Msb, Twice, F.Round, F.LongLadder, K.Scalar, K.Clamp;
    ApartParts(nq, nqpq, nq2, nqpq2, qx);
    ghost var x1, s := Fe(qx), K.Scalar(k);
    var byt := byte;
    WindowNext(byte, 0);
    for i := 0 to 4
      invariant Tight(nq) && Tight(nqpq) && IsTight(qx) && Fe(qx) == x1
      invariant byt == Window(byte, i)
      invariant Both(nq, nqpq) == F.LongLadder(x1, s, 248 - 8 * j + 2 * i)
    {
      TwoRounds(x1, k, j, i);
      WindowNext(byte, i);
      SmallLoopDoubleStep(nq, nqpq, nq2, nqpq2, qx, byt);
      byt := Twice(Twice(byt));
    }
  }

  /** The two bits at the top of the window are the next two of the scalar. */
  lemma {:induction false} TwoRounds(x1: int, k: K.Key, j: nat, i: nat)
    requires j < 32 && i < 4
    ensures var byt := Window(K.Clamp(k)[j], i);
            var s, n := K.Scalar(k), 248 - 8 * j + 2 * i;
            F.LongLadder(x1, s, n + 2) == F.Round(Msb(Twice(byt)), x1, F.Round(Msb(byt), x1, F.LongLadder(x1, s, n)))
  {
    hide F.Round, F.LongLadder, K.Scalar, K.Clamp, BitAt, Window, Msb, Twice;
    var s, n := K.Scalar(k), 248 - 8 * j + 2 * i;
    WindowBits(K.Clamp(k)[j], i);
    K.ScalarBit(k, 8 * j + (7 - 2 * i));
    K.ScalarBit(k, 8 * j + (6 - 2 * i));
    F.LongNext(x1, s, n);
    F.LongNext(x1, s, n + 1);
  }

  lemma {:induction false} WindowBits(b: uint8, i: nat)
    requires i < 4
    ensures Msb(Window(b, i)) == BitAt(b, 7 - 2 * i) && Msb(Twice(Window(b, i))) == BitAt(b, 6 - 2 * i)
  {
    hide BitAt, Pow, Msb, Twice, Window;
    var b7, b6, b5, b4, b3, b2, b1, b0 := Octet(b);
    var r1, r2, r3 := 32 * b5 + 16 * b4 + 8 * b3 + 4 * b2 + 2 * b1 + b0, 8 * b3 + 4 * b2 + 2 * b1 + b0, 2 * b1 + b0;
    Peel(b, b7, b6, r1);
    Peel(4 * r1, b5, b4, 4 * r2);
    Peel(16 * r2, b3, b2, 16 * r3);
    Peel(64 * r3, b1, b0, 0);
    WindowNext(b, 0);
    WindowNext(b, 1);
    WindowNext(b, 2);
    SmallPowers();
    if i == 0 {
      BitIs(b, 7, 128, 0, b7, 64 * b6 + r1);
      BitIs(b, 6, 64, b7, b6, r1);
    } else if i == 1 {
      BitIs(b, 5, 32, 2 * b7 + b6, b5, 16 * b4 + r2);
      BitIs(b, 4, 16, 4 * b7 + 2 * b6 + b5, b4, r2);
    } else if i == 2 {
      BitIs(b, 3, 8, 8 * b7 + 4 * b6 + 2 * b5 + b4, b3, 4 * b2 + r3);
      BitIs(b, 2, 4, 16 * b7 + 8 * b6 + 4 * b5 + 2 * b4 + b3, b2, r3);
    } else {
      BitIs(b, 1, 2, 32 * b7 + 16 * b6 + 8 * b5 + 4 * b4 + 2 * b3 + b2, b1, b0);
      BitIs(b, 0, 1, 64 * b7 + 32 * b6 + 16 * b5 + 8 * b4 + 4 * b3 + 2 * b2 + b1, b0, 0);
    }
  }

  /** The eight bits of a byte. */
  lemma {:induction false} Octet(b: uint8)
    returns (b7: int, b6: int, b5: int, b4: int, b3: int, b2: int, b1: int, b0: int)
    ensures b == 128 * b7 + 64 * b6 + 32 * b5 + 16 * b4 + 8 * b3 + 4 * b2 + 2 * b1 + b0
    ensures 0 <= b7 <= 1 && 0 <= b6 <= 1 && 0 <= b5 <= 1 && 0 <= b4 <= 1
    ensures 0 <= b3 <= 1 && 0 <= b2 <= 1 && 0 <= b1 <= 1 && 0 <= b0 <= 1
  {
    var r: int := b;
    b7 := if r >= 128 then 1 else 0;
    r := r - 128 * b7;
    b6 := if r >= 64 then 1 else 0;
    r := r - 64 * b6;
    b5 := if r >= 32 then 1 else 0;
    r := r - 32 * b5;
    b4 := if r >= 16 then 1 else 0;
    r := r - 16 * b4;
    b3 := if r >= 8 then 1 else 0;
    r := r - 8 * b3;
    b2 := if r >= 4 then 1 else 0;
    r := r - 4 * b2;
    b1 := if r >= 2 then 1 else 0;
    b0 := r - 2 * b1;
  }

  /** The top two bits of a byte and what two shifts leave. */
  lemma {:induction false} Peel(w: uint8, hi: int, lo: int, rest: int)
    requires w == 128 * hi + 64 * lo + rest && 0 <= rest < 64 && 0 <= hi <= 1 && 0 <= lo <= 1
    ensures Msb(w) == hi && Msb(Twice(w)) == lo && Twice(Twice(w)) == 4 * rest
  {
    DivModUnique(w, 128, hi, 64 * lo + rest);
    DivModUnique(w * 2, 256, hi, 128 * lo + 2 * rest);
    DivModUnique(128 * lo + 2 * rest, 128, lo, 2 * rest);
    DivModUnique(256 * lo + 4 * rest, 256, lo, 4 * rest);
  }

  lemma {:induction false} BitIs(b: int, i: nat, w: int, high: int, bit: int, low: int)
    requires Pow(2, i) == w && b == w * (2 * high + bit) + low && 0 <= low < w && 0 <= bit <= 1
    ensures BitAt(b, i) == bit
  {
    hide Pow;
    DivModUnique(b, w, 2 * high + bit, low);
  }

  lemma {:induction false} WindowNext(b: uint8, i: nat)
    ensures Window(b, 0) == b && Window(b, i + 1) == Twice(Twice(Window(b, i)))
  {
  }

  lemma {:induction false} SmallPowers()
    ensures Pow(2, 0) == 1 && Pow(2, 1) == 2 && Pow(2, 2) == 4 && Pow(2, 3) == 8
    ensures Pow(2, 4) == 16 && Pow(2, 5) == 32 && Pow(2, 6) == 64 && Pow(2, 7) == 128
  {
    PowTop(2, 0);
    PowTop(2, 1);
    PowTop(2, 2);
    PowTop(2, 3);
    PowTop(2, 4);
    PowTop(2, 5);
    PowTop(2, 6);
  }

  /** All 256 bits, from the last byte to the first. */
  method BigLoop(n1: array<uint8>, nq: Point, nqpq: Point, nq2: Point, nqpq2: Point, qx: felem, ghost k: K.Key)
    requires Apart(nq, nqpq, nq2, nqpq2, qx) && Tight(nq) && Tight(nqpq) && IsTight(qx)
    requires n1.Length == 32 && n1[..] == K.Clamp(k)
    requires Both(nq, nqpq) == F.State(1, 0, Fe(qx), 1)
    modifies nq.x, nq.z, nqpq.x, nqpq.z, nq2.x, nq2.z, nqpq2.x, nqpq2.z
    ensures Tight(nq) && Tight(nqpq)
    ensures Both(nq, nqpq) == F.LongLadder(Fe(qx), K.Scalar(k), 256)
  {
    hide Fe, IsTight, Tight, Both, Apart, Distinct, F.LongLadder, K.Scalar, K.Clamp;
    ApartParts(nq, nqpq, nq2, nqpq2, qx);
    F.LongStart(Fe(qx), K.Scalar(k));
    ghost var x1 := Fe(qx);
    var i := 32;
    while i > 0
      invariant 0 <= i <= 32
      invariant n1[..] == K.Clamp(k)
      invariant Tight(nq) && Tight(nqpq) && IsTight(qx) && Fe(qx) == x1
      invariant Both(nq, nqpq) == F.LongLadder(x1, K.Scalar(k), 256 - 8 * i)
    {
      i := i - 1;
      var byte := n1[i];
      SmallLoop(nq, nqpq, nq2, nqpq2, qx, byte, k, i);
    }
  }

  const TWO64: int := 0x1_0000_0000_0000_0000
  const ONES64: int := 0xffff_ffff_ffff_ffff

  /** All ones when a == b, all zeros otherwise, without a branch. */
  function EqMask(a: uint64, b: uint64): (c: uint64)
    ensures c == if a == b then ONES64 else 0
  {
    MaskRange(a, b);
    var x: uint64 := Xor(a, b);
    var minus_x: uint64 := (ONES64 - x + 1) % TWO64;
    EqMaskTop(a, b, x, minus_x);
    var x_or_minus_x: uint64 := Or(x, minus_x);
    var xnx: uint64 := x_or_minus_x / 0x8000_0000_0000_0000;
    (xnx - 1) % TWO64
  }

  /** All ones when a >= b, all zeros otherwise. */
  function GteMask(a: uint64, b: uint64): (c: uint64)
    ensures c == if a >= b then ONES64 else 0
  {
    MaskRange(a, b);
    var x_xor_y: uint64 := Xor(a, b);
    var x_sub_y: uint64 := (a - b) % TWO64;
    MaskRange(x_sub_y, b);
    var x_sub_y_xor_y: uint64 := Xor(x_sub_y, b);
    OrRange(x_xor_y, x_sub_y_xor_y);
    var q: uint64 := Or(x_xor_y, x_sub_y_xor_y);
    MaskRange(a, q);
    var x_xor_q: uint64 := Xor(a, q);
    GteMaskTop(a, b, x_sub_y);
    TopBit(x_xor_q);
    (x_xor_q / 0x8000_0000_0000_0000 - 1) % TWO64
  }

  lemma {:induction false} OrRange(a: uint64, b: uint64)
    ensures 0 <= Or(a, b) < TWO64
  {
    hide And;
    TwoTo64();
    OrBound(a, b, 64);
  }

  lemma {:induction false} MaskRange(a: uint64, b: uint64)
    ensures 0 <= Xor(a, b) < TWO64
  {
    hide Xor;
    TwoTo64();
    XorRange(a, b, 64);
  }

  /** The top bit of a 64-bit word is its quotient by 2^63. */
  lemma {:induction false} TopBit(v: uint64)
    ensures v / 0x8000_0000_0000_0000 == BitAt(v, 63)
    ensures BitAt(v, 63) == if v >= 0x8000_0000_0000_0000 then 1 else 0
  {
    hide Pow;
    TwoTo64();
  }

  lemma {:induction false} EqMaskTop(a: uint64, b: uint64, x: uint64, m: uint64)
    requires x == Xor(a, b) && m == (ONES64 - x + 1) % TWO64
    ensures 0 <= Or(x, m) < TWO64 && Or(x, m) / 0x8000_0000_0000_0000 == if a == b then 0 else 1
  {
    hide Xor, And, BitAt;
    TwoTo64();
    OrBound(x, m, 64);
    XorCancel(a, b);
    XorConst(a);
    TopBit(Or(x, m));
    BitOr(x, m, 63);
    TopBit(x);
    TopBit(m);
    if a == b {
      XorCancel(a, 0);
      assert x == 0;
    } else {
      assert x != 0;
    }
  }

  lemma {:induction false} GteMaskTop(a: uint64, b: uint64, d: uint64)
    requires d == (a - b) % TWO64
    ensures var q := Or(Xor(a, b), Xor(d, b));
            BitAt(Xor(a, q), 63) == if a >= b then 0 else 1
  {
    hide Xor, And, BitAt;
    var q := Or(Xor(a, b), Xor(d, b));
    BitXor(a, q, 63);
    BitOr(Xor(a, b), Xor(d, b), 63);
    BitXor(a, b, 63);
    BitXor(d, b, 63);
    TopBit(a);
    TopBit(b);
    TopBit(d);
  }

  ghost predicate Digits(s: seq<int>)
  {
    |s| == 5 && forall i :: 0 <= i < 5 ==> 0 <= s[i] < R
  }

  lemma {:induction false} DigitsBound(s: seq<int>)
    requires Digits(s)
    ensures 0 <= Eval(R, s, 5) < TWO255
  {
    hide Eval, Pow;
    EvalBound(R, s, 5);
    Powers();
  }

  /** Carries through the limbs, leaving any excess in the last one. */
  method CarryPass(input: felem)
    requires input.Length == 5 && forall i :: 0 <= i < 5 ==> input[i] < 2 * R
    modifies input
    ensures forall i :: 0 <= i < 4 ==> 0 <= input[i] < R
    ensures input[4] <= 2 * R + 1
    ensures Eval(R, input[..], 5) == old(Eval(R, input[..], 5))
  {
    hide Eval;
    ghost var s := input[..];
    var t0, t1, t2, t3, t4 := input[0], input[1], input[2], input[3], input[4];
    var t1': uint64 := t1 + t0 / R;
    var t0': uint64 := t0 % R;
    var t2': uint64 := t2 + t1' / R;
    var t1'': uint64 := t1' % R;
    var t3': uint64 := t3 + t2' / R;
    var t2'': uint64 := t2' % R;
    var t4': uint64 := t4 + t3' / R;
    var t3'': uint64 := t3' % R;
    input[0] := t0';
    input[1] := t1'';
    input[2] := t2'';
    input[3] := t3'';
    input[4] := t4';
    MoveUp(R, s, [t0', t1', t2, t3, t4], 5, 0, t0 / R);
    MoveUp(R, [t0', t1', t2, t3, t4], [t0', t1'', t2', t3, t4], 5, 1, t1' / R);
    MoveUp(R, [t0', t1'', t2', t3, t4], [t0', t1'', t2'', t3', t4], 5, 2, t2' / R);
    MoveUp(R, [t0', t1'', t2'', t3', t4], input[..], 5, 3, t3' / R);
  }

  /** Folds the excess of limb 4 into limb 0. */
  method CarryTop(b: felem)
    requires b.Length == 5 && (forall i :: 0 <= i < 4 ==> 0 <= b[i] < R) && b[4] <= 2 * R + 1
    modifies b
    ensures forall i :: 1 <= i < 5 ==> 0 <= b[i] < R
    ensures b[0] == old(b[0]) + 19 * (old(Eval(R, b[..], 5)) / TWO255)
    ensures Eval(R, b[..], 5) == old(Eval(R, b[..], 5)) % TWO255 + 19 * (old(Eval(R, b[..], 5)) / TWO255)
    ensures Fe(b) == old(Fe(b))
  {
    hide Eval, F.Rep;
    ghost var s := b[..];
    var b4, b0 := b[4], b[0];
    var b4': uint64 := b4 % R;
    var b0': uint64 := b0 + 19 * (b4 / R);
    b[4] := b4';
    b[0] := b0';
    FoldValue(s, b[..], b4 / R);
    TopValue(s, b[..], b4 / R);
  }

  lemma {:induction false} TopValue(s: seq<int>, t: seq<int>, q: int)
    requires |s| == |t| == 5 && forall i :: 0 <= i < 4 ==> 0 <= s[i] < R
    requires q == s[4] / R && t == s[0 := s[0] + 19 * q][4 := s[4] % R]
    ensures Eval(R, t, 5) == Eval(R, s, 5) % TWO255 + 19 * q && q == Eval(R, s, 5) / TWO255
  {
    hide Eval;
    var d := s[4 := s[4] % R];
    Five(s);
    Five(t);
    Five(d);
    DigitsBound(d);
    DivModUnique(Eval(R, s, 5), TWO255, q, Eval(R, d, 5));
  }

  /** A tight number is below 2^255 + 2^219. */
  lemma {:induction false} TightBound(s: seq<int>)
    requires Below(s, TIGHT)
    ensures 0 <= Eval(R, s, 5) < TWO255 + TWO255 / 0x10_0000_0000
  {
    hide Eval;
    Five(s);
  }

  /** Both carry rounds: the unique digits of a representative below 2^255. */
  method Contract(input: felem)
    requires IsTight(input)
    modifies input
    ensures Digits(input[..]) && Fe(input) == old(Fe(input))
  {
    hide Eval, F.Rep;
    TightBound(input[..]);
    CarryPass(input);
    CarryTop(input);
    ghost var v := Eval(R, input[..], 5);
    NonNegative(input[..]);
    CarryPass(input);
    CarryTop(input);
    var i0, i1 := input[0], input[1];
    ghost var s := input[..];
    assert v / TWO255 == 0;
    input[0] := i0 % R;
    input[1] := i1 + i0 / R;
    assert input[..] == s;
  }

  lemma {:induction false} NonNegative(s: seq<int>)
    requires |s| == 5 && forall i :: 0 <= i < 5 ==> 0 <= s[i]
    ensures Eval(R, s, 5) >= 0
  {
    hide Eval;
    Five(s);
  }

  /** The conditional subtraction of p, selected by masks. */
  method Trim(input: felem)
    requires Digits(input[..])
    modifies input
    ensures Digits(input[..]) && Eval(R, input[..], 5) == old(Fe(input))
  {
    hide Eval, F.Rep, And, EqMask, GteMask;
    ghost var s := input[..];
    var a0, a1, a2, a3, a4 := input[0], input[1], input[2], input[3], input[4];
    var mask0 := GteMask(a0, 0x7ffffffffffed);
    var mask1 := EqMask(a1, 0x7ffffffffffff);
    var mask2 := EqMask(a2, 0x7ffffffffffff);
    var mask3 := EqMask(a3, 0x7ffffffffffff);
    var mask4 := EqMask(a4, 0x7ffffffffffff);
    AllOnes(mask0, mask1, mask2, mask3, mask4);
    var mask: uint64 := And(And(And(And(mask0, mask1), mask2), mask3), mask4);
    MaskConstant(0x7ffffffffffed, mask);
    MaskConstant(0x7ffffffffffff, mask);
    input[0] := a0 - And(0x7ffffffffffed, mask);
    input[1] := a1 - And(0x7ffffffffffff, mask);
    input[2] := a2 - And(0x7ffffffffffff, mask);
    input[3] := a3 - And(0x7ffffffffffff, mask);
    input[4] := a4 - And(0x7ffffffffffff, mask);
    TrimValue(s, input[..], mask);
  }

  lemma {:induction false} MaskConstant(k: int, mask: uint64)
    requires 0 <= k < TWO64 && (mask == 0 || mask == ONES64)
    ensures And(k, mask) == if mask == 0 then 0 else k
  {
    hide And;
    TwoTo64();
    AndConst(k);
    AndMask(k, 64);
  }

  lemma {:induction false} AllOnes(m0: uint64, m1: uint64, m2: uint64, m3: uint64, m4: uint64)
    requires m0 in {0, ONES64} && m1 in {0, ONES64} && m2 in {0, ONES64} && m3 in {0, ONES64} && m4 in {0, ONES64}
    ensures And(And(And(And(m0, m1), m2), m3), m4)
         == if m0 == ONES64 && m1 == ONES64 && m2 == ONES64 && m3 == ONES64 && m4 == ONES64 then ONES64 else 0
  {
    hide And;
    MaskConstant(m0, m1);
    MaskConstant(And(m0, m1), m2);
    MaskConstant(And(And(m0, m1), m2), m3);
    MaskConstant(And(And(And(m0, m1), m2), m3), m4);
  }

  lemma {:induction false} TrimValue(s: seq<int>, t: seq<int>, mask: int)
    requires Digits(s) && |t| == 5
    requires var full := s[0] >= 0x7ffffffffffed && s[1] == R - 1 && s[2] == R - 1 && s[3] == R - 1 && s[4] == R - 1;
             mask == if full then ONES64 else 0
    requires t == if mask == 0 then s else [s[0] - 0x7ffffffffffed, 0, 0, 0, 0]
    ensures Digits(t) && Eval(R, t, 5) == F.Rep(Eval(R, s, 5))
  {
    hide Eval;
    Five(s);
    Five(t);
    DigitsBound(s);
    var v := Eval(R, s, 5);
    if v < F.P {
      DivModUnique(v, F.P, 0, v);
    } else {
      DivModUnique(v, F.P, 1, v - F.P);
    }
  }

  /** One 64-bit word of the output: a from below, the low bits of t above it. */
  lemma {:induction false} Word(a: int, t: int, z: int, low: int, high: int, step: int, k: nat)
    requires low > 0 && high > 0 && step > 0 && low * high == TWO64 && low * R == TWO64 * step && low == Pow(2, k)
    requires 0 <= a < low && 0 <= t < R
    ensures Or(t * low % TWO64, a) == (a + low * (t + R * z)) % TWO64
    ensures (a + low * (t + R * z)) / TWO64 == t / high + step * z
  {
    hide And, Pow;
    var q, r := t / high, t % high;
    assert t * low == TWO64 * q + r * low by {
      Distribute(high * q, r, low);
      assert (high * q) * low == (low * high) * q;
    }
    assert 0 <= r * low <= TWO64 - low by {
      MulMono(low, 0, r);
      MulMono(low, r, high - 1);
      assert low * (high - 1) == low * high - low;
    }
    DivModUnique(t * low, TWO64, q, r * low);
    OrDisjoint(a, r, k);
    OrComm(a, r * low);
    assert low * (t + R * z) == t * low + TWO64 * (step * z) by {
      assert low * (t + R * z) == low * t + low * (R * z);
      assert low * (R * z) == (low * R) * z;
    }
    DivModUnique(a + low * (t + R * z), TWO64, q + step * z, a + r * low);
  }

  lemma {:induction false} SeamPowers()
    ensures Pow(2, 51) == R && Pow(2, 38) == 0x40_0000_0000 && Pow(2, 25) == 0x200_0000 && Pow(2, 12) == 0x1000
  {
    hide Pow;
    SmallPowers();
    TwoTo64();
    PowAdd(2, 8, 4);
    PowAdd(2, 12, 12);
    PowTop(2, 24);
    PowAdd(2, 32, 6);
    PowAdd(2, 38, 12);
    PowTop(2, 50);
  }

  /** The four 64-bit words of a five-limb number. */
  lemma {:induction false} FourWords(t: seq<int>)
    requires Digits(t)
    ensures var v := Eval(R, t, 5);
            && Or(t[1] * R % TWO64, t[0]) == v % TWO64
            && Or(t[2] * 0x40_0000_0000 % TWO64, t[1] / 0x2000) == v / TWO64 % TWO64
            && Or(t[3] * 0x200_0000 % TWO64, t[2] / 0x400_0000) == v / TWO64 / TWO64 % TWO64
            && Or(t[4] * 0x1000 % TWO64, t[3] / 0x80_0000_0000) == v / TWO64 / TWO64 / TWO64 % TWO64
  {
    hide Eval, And, Pow;
    Five(t);
    var z2 := t[3] + R * t[4];
    var z1 := t[2] + R * z2;
    assert Eval(R, t, 5) == t[0] + R * (t[1] + R * z1);
    var y1 := t[1] / 0x2000 + 0x40_0000_0000 * z1;
    var y2 := t[2] / 0x400_0000 + 0x200_0000 * z2;
    var y3 := t[3] / 0x80_0000_0000 + 0x1000 * t[4];
    assert Or(t[1] * R % TWO64, t[0]) == Eval(R, t, 5) % TWO64 && Eval(R, t, 5) / TWO64 == y1 by {
      SeamPowers();
      Word(t[0], t[1], z1, R, 0x2000, 0x40_0000_0000, 51);
    }
    assert Or(t[2] * 0x40_0000_0000 % TWO64, t[1] / 0x2000) == y1 % TWO64 && y1 / TWO64 == y2 by {
      SeamPowers();
      Word(t[1] / 0x2000, t[2], z2, 0x40_0000_0000, 0x400_0000, 0x200_0000, 38);
    }
    assert Or(t[3] * 0x200_0000 % TWO64, t[2] / 0x400_0000) == y2 % TWO64 && y2 / TWO64 == y3 by {
      SeamPowers();
      Word(t[2] / 0x400_0000, t[3], t[4], 0x200_0000, 0x80_0000_0000, 0x1000, 25);
    }
    LastWord(t[3] / 0x80_0000_0000, t[4]);
  }

  lemma {:induction false} LastWord(a: int, t: int)
    requires 0 <= a < 0x1000 && 0 <= t < R
    ensures Or(t * 0x1000 % TWO64, a) == (a + 0x1000 * t) % TWO64
  {
    hide And, Pow;
    SeamPowers();
    OrDisjoint(a, t, 12);
    OrComm(a, t * 0x1000);
  }

  method PutLe64(output: array<uint8>, offset: nat, w: uint64)
    requires offset + 8 <= output.Length
    modifies output
    ensures forall j :: 0 <= j < 8 ==> output[offset + j] == K.ByteAt(w, j)
    ensures forall j :: 0 <= j < output.Length && (j < offset || offset + 8 <= j) ==> output[j] == old(output[j])
  {
    hide K.ByteAt;
    for i := 0 to 8
      invariant forall j :: 0 <= j < i ==> output[offset + j] == K.ByteAt(w, j)
      invariant forall j :: 0 <= j < output.Length && (j < offset || offset + 8 <= j) ==> output[j] == old(output[j])
    {
      output[offset + i] := K.ByteAt(w, i);
    }
  }

  /** Byte j of word k is byte 8k + j of the number. */
  lemma {:induction false} WordByte(v: int, k: nat, j: nat)
    requires j < 8
    ensures Pow(TWO64, k) > 0 && K.ByteAt(v, 8 * k + j) == K.ByteAt(v / Pow(TWO64, k) % TWO64, j)
  {
    hide Pow;
    PowPos(TWO64, k);
    PowPos(256, j);
    TwoTo64();
    assert Pow(256, 8) == TWO64 by { PowMul(2, 8, 8); }
    PowMul(256, 8, k);
    PowAdd(256, 8 * k, j);
    DivDiv(v, Pow(TWO64, k), Pow(256, j));
    ByteOfRemainder(v / Pow(TWO64, k), j);
  }

  lemma {:induction false} ByteOfRemainder(y: int, j: nat)
    requires j < 8
    ensures K.ByteAt(y % TWO64, j) == K.ByteAt(y, j)
  {
    hide Pow;
    TwoTo64();
    var w, u := Pow(256, j), Pow(256, 7 - j);
    PowPos(256, j);
    assert w * u * 256 == TWO64 by { PowMul(2, 8, 8); PowAdd(256, j, 8 - j); PowTop(256, 7 - j); }
    var q := y / TWO64;
    assert y == y % TWO64 + w * (256 * (u * q)) by {
      assert (w * u * 256) * q == w * (256 * (u * q));
    }
    DivShift(y % TWO64, 256 * (u * q), w);
    ModShift(y % TWO64 / w, u * q, 256);
  }

  method Store(output: array<uint8>, input: felem)
    requires output.Length == 32 && Digits(input[..])
    modifies output
    ensures output[..] == K.LittleEndian(Eval(R, input[..], 5), 32)
  {
    hide Eval, And, K.ByteAt, Pow;
    ghost var v := Eval(R, input[..], 5);
    var t0, t1, t2, t3, t4 := input[0], input[1], input[2], input[3], input[4];
    FourWords(input[..]);
    var o0: uint64 := Or(t1 * R % TWO64, t0);
    var o1: uint64 := Or(t2 * 0x40_0000_0000 % TWO64, t1 / 0x2000);
    var o2: uint64 := Or(t3 * 0x200_0000 % TWO64, t2 / 0x400_0000);
    var o3: uint64 := Or(t4 * 0x1000 % TWO64, t3 / 0x80_0000_0000);
    PutLe64(output, 0, o0);
    PutLe64(output, 8, o1);
    PutLe64(output, 16, o2);
    PutLe64(output, 24, o3);
    forall i | 0 <= i < 32 ensures output[i] == K.ByteAt(v, i) {
      WordByte(v, i / 8, i % 8);
      WordPowers(v);
      assert output[i / 8 * 8 + i % 8] == output[i];
    }
  }

  lemma {:induction false} WordPowers(v: int)
    ensures Pow(TWO64, 0) == 1 && Pow(TWO64, 1) == TWO64
    ensures Pow(TWO64, 2) > 0 && v / Pow(TWO64, 2) == v / TWO64 / TWO64
    ensures Pow(TWO64, 3) > 0 && v / Pow(TWO64, 3) == v / TWO64 / TWO64 / TWO64
  {
    hide Pow;
    PowTop(TWO64, 0);
    PowTop(TWO64, 1);
    PowTop(TWO64, 2);
    DivDiv(v, TWO64, TWO64);
    DivDiv(v, TWO64 * TWO64, TWO64);
  }

  /** Little-endian bytes of the canonical representative. */
  method FContract(output: array<uint8>, input: felem)
    requires output.Length == 32 && IsTight(input)
    modifies output, input
    ensures output[..] == K.LittleEndian(old(Fe(input)), 32)
  {
    hide Eval, F.Rep, K.LittleEndian, IsTight;
    Contract(input);
    Trim(input);
    Store(output, input);
  }

  method ScalarOfPoint(scalar: array<uint8>, point: Point)
    requires scalar.Length == 32 && point.x != point.z && point.x.Length == point.z.Length == 5 && Tight(point)
    modifies scalar
    ensures scalar[..] == K.LittleEndian(F.Mul(old(Fe(point.x)), F.Inv(old(Fe(point.z)))), 32)
  {
    hide Fe, F.Mul, F.Inv, K.LittleEndian, IsTight, IsWide;
    var zmone, sc := new uint64[5], new uint64[5];
    TightIs(point.x);
    TightIs(point.z);
    CRecip(zmone, point.z);
    FMul(sc, point.x, zmone);
    FContract(scalar, sc);
  }

  /** Sixty-four bits from byte offset on. */
  function GetLe64(b: seq<uint8>, offset: nat): (w: int)
    requires offset + 8 <= |b|
    ensures 0 <= w < TWO64
  {
    EvalBound(256, b[offset..], 8);
    TwoTo64();
    PowMul(2, 8, 8);
    Eval(256, b[offset..], 8)
  }

  /** Bits from 8 * offset + shift on, 51 of them. */
  lemma {:induction false} WindowOf(b: seq<uint8>, offset: nat, shift: int, high: int)
    requires |b| == 32 && offset + 8 <= 32 && shift > 0 && high > 0 && shift * high == 0x2000
    ensures Pow(256, offset) > 0
    ensures GetLe64(b, offset) / shift % R == Eval(256, b, 32) / Pow(256, offset) / shift % R
  {
    hide Eval, Pow;
    var n := 32 - offset;
    var w, y := Pow(256, offset), Eval(256, b[offset..], n);
    PowPos(256, offset);
    EvalBound(256, b, offset);
    EvalDrop(256, b, offset, n);
    DivModUnique(Eval(256, b, 32), w, y, Eval(256, b, offset));
    EvalDrop(256, b[offset..], 8, n - 8);
    assert Pow(256, 8) == TWO64 by { TwoTo64(); PowMul(2, 8, 8); }
    var z := Eval(256, b[offset..][8..], n - 8);
    assert TWO64 * z == shift * (R * (high * z)) by {
      assert TWO64 == R * (shift * high);
      assert R * (shift * high) * z == shift * (R * (high * z));
    }
    DivShift(GetLe64(b, offset), R * (high * z), shift);
    ModShift(GetLe64(b, offset) / shift, high * z, R);
  }

  method FExpand(output: felem, input: array<uint8>)
    requires output.Length == 5 && input.Length == 32
    modifies output
    ensures IsTight(output) && Fe(output) == F.Rep(Eval(256, input[..], 32) % TWO255)
  {
    hide Eval, Pow, GetLe64, F.Rep;
    ghost var b := input[..];
    ghost var v := Eval(256, b, 32);
    var i0, i1, i2 := GetLe64(input[..], 0), GetLe64(input[..], 6), GetLe64(input[..], 12);
    var i3, i4 := GetLe64(input[..], 19), GetLe64(input[..], 24);
    output[0] := i0 % R;
    output[1] := i1 / 8 % R;
    output[2] := i2 / 64 % R;
    output[3] := i3 / 2 % R;
    output[4] := i4 / 0x1000 % R;
    ExpandValue(b, output[..]);
  }

  lemma {:induction false} ExpandValue(b: seq<uint8>, t: seq<int>)
    requires |b| == 32 && |t| == 5
    requires t[0] == GetLe64(b, 0) % R && t[1] == GetLe64(b, 6) / 8 % R && t[2] == GetLe64(b, 12) / 64 % R
    requires t[3] == GetLe64(b, 19) / 2 % R && t[4] == GetLe64(b, 24) / 0x1000 % R
    ensures Eval(R, t, 5) == Eval(256, b, 32) % TWO255
  {
    hide Eval, Pow, GetLe64;
    var v := Eval(256, b, 32);
    Offsets();
    WindowDigit(b, v, t[0], 0, 1, 0x2000, 0);
    WindowDigit(b, v, t[1], 6, 8, 0x400, 1);
    WindowDigit(b, v, t[2], 12, 64, 0x80, 2);
    WindowDigit(b, v, t[3], 19, 2, 0x1000, 3);
    WindowDigit(b, v, t[4], 24, 0x1000, 2, 4);
    EvalDigits(R, t, v, 5);
    Powers();
  }

  /** The window at limb k is digit k. */
  lemma {:induction false} WindowDigit(b: seq<uint8>, v: int, digit: int, offset: nat, shift: int, high: int, k: nat)
    requires |b| == 32 && v == Eval(256, b, 32) && offset + 8 <= 32 && shift > 0 && high > 0 && shift * high == 0x2000
    requires digit == GetLe64(b, offset) / shift % R && Pow(256, offset) * shift == Pow(R, k)
    ensures Pow(R, k) > 0 && digit == v / Pow(R, k) % R
  {
    hide Eval, Pow, GetLe64;
    WindowOf(b, offset, shift, high);
    DivDiv(v, Pow(256, offset), shift);
  }

  lemma {:induction false} Offsets()
    ensures Pow(256, 0) * 1 == Pow(R, 0) && Pow(256, 6) * 8 == Pow(R, 1) && Pow(256, 12) * 64 == Pow(R, 2)
    ensures Pow(256, 19) * 2 == Pow(R, 3) && Pow(256, 24) * 0x1000 == Pow(R, 4)
  {
    hide Pow;
    PowTop(256, 0);
    PowAdd(256, 1, 1);
    PowAdd(256, 2, 1);
    PowAdd(256, 3, 3);
    PowAdd(256, 6, 6);
    PowAdd(256, 12, 6);
    PowAdd(256, 18, 1);
    PowAdd(256, 12, 12);
    PowTop(R, 0);
    PowTop(R, 1);
    PowTop(R, 2);
    PowTop(R, 3);
  }

  /** A number with the given first limb. */
  method NewElement(low: uint64) returns (x: felem)
    requires low < R
    ensures fresh(x) && x.Length == 5 && IsTight(x) && Fe(x) == low
  {
    x := new uint64[5](_ => 0);
    x[0] := low;
    Five(x[..]);
  }

  method CopyOf(y: felem) returns (x: felem)
    requires IsTight(y) && y.Length == 5
    ensures fresh(x) && x.Length == 5 && IsTight(x) && Fe(x) == Fe(y)
  {
    x := new uint64[5];
    Copy(x, y);
  }

  method ClampedCopy(secret: array<uint8>) returns (e: array<uint8>)
    requires secret.Length == 32
    ensures fresh(e) && e.Length == 32 && e[..] == K.Clamp(secret[..])
  {
    e := new uint8[32];
    for i := 0 to 32
      invariant forall j :: 0 <= j < i ==> e[j] == secret[j]
    {
      e[i] := secret[i];
    }
    K.ByteBits(e[0]);
    K.ByteBits(e[31]);
    e[0] := And(e[0], 248);
    e[31] := Or(And(e[31], 127), 64);
  }

  method Curve25519Generic(mypublic: array<uint8>, secret: array<uint8>, basepoint: array<uint8>)
    requires mypublic.Length == secret.Length == basepoint.Length == 32
    modifies mypublic
    ensures var u := F.Rep(old(Eval(256, basepoint[..], 32)) % TWO255);
            var st := F.LongLadder(u, K.Scalar(old(secret[..])), 256);
            mypublic[..] == K.LittleEndian(F.Mul(st.x2, F.Inv(st.z2)), 32)
  {
    hide Fe, Eval, F.LongLadder, F.Mul, F.Inv, F.Rep, Tight, Both, Apart, IsTight, K.LittleEndian, K.Clamp, K.Scalar;
    var qx := new uint64[5];
    FExpand(qx, basepoint);
    var e := ClampedCopy(secret);
    var nq, nqpq, nq2, nqpq2 := StartPoints(qx);
    ApartParts(nq, nqpq, nq2, nqpq2, qx);
    BigLoop(e, nq, nqpq, nq2, nqpq2, qx, secret[..]);
    BothParts(nq, nqpq);
    ScalarOfPoint(mypublic, nq);
  }

  lemma {:induction false} BothParts(p: Point, q: Point)
    requires p.x.Length == p.z.Length == q.x.Length == q.z.Length == 5
    ensures Both(p, q).x2 == Fe(p.x) && Both(p, q).z2 == Fe(p.z)
  {
  }

  /** The points 1/0 and q/1, and scratch room for two more. */
  method StartPoints(qx: felem) returns (nq: Point, nqpq: Point, nq2: Point, nqpq2: Point)
    requires qx.Length == 5 && IsTight(qx)
    ensures fresh({nq.x, nq.z, nqpq.x, nqpq.z, nq2.x, nq2.z, nqpq2.x, nqpq2.z}) && nq.x != nq.z
    ensures Apart(nq, nqpq, nq2, nqpq2, qx) && Tight(nq) && Tight(nqpq)
    ensures Both(nq, nqpq) == F.State(1, 0, Fe(qx), 1)
  {
    hide Fe, IsTight;
    var x2 := NewElement(1);
    var z2 := NewElement(0);
    var x3 := CopyOf(qx);
    var z3 := NewElement(1);
    var a, b, c, d := new uint64[5], new uint64[5], new uint64[5], new uint64[5];
    nq, nqpq, nq2, nqpq2 := Point(x2, z2), Point(x3, z3), Point(a, b), Point(c, d);
  }

  /** curve25519_generate_public: the same function of the key as in the other two implementations. */
  method GeneratePublic(pub: array<uint8>, secret: array<uint8>)
    requires pub.Length == secret.Length == 32
    modifies pub
    ensures pub[..] == K.PublicKey(old(secret[..]))
  {
    hide Eval, F.LongLadder, F.X25519, F.Mul, F.Inv, F.Rep, K.Scalar, K.LittleEndian, BitAt;
    var basepoint := new uint8[32](i => if i == 0 then 9 else 0);
    BaseValue(basepoint[..]);
    Curve25519Generic(pub, secret, basepoint);
    TopBitClear(old(secret[..]));
    J.LongAgrees(K.Scalar(old(secret[..])));
  }

  lemma {:induction false} BaseValue(b: seq<int>)
    requires |b| == 32 && b[0] == 9 && forall i :: 1 <= i < 32 ==> b[i] == 0
    ensures F.Rep(Eval(256, b, 32) % TWO255) == 9
  {
    hide Eval, Pow;
    EvalZero(256, b[0 := 0], 32);
    EvalUpdate(256, b[0 := 0], b, 32, 0, 9);
    PowTop(256, 0);
  }

  lemma {:induction false} TopBitClear(k: K.Key)
    ensures BitAt(K.Scalar(k), 255) == 0
  {
    hide And, K.Scalar, BitAt, Pow;
    K.ScalarBit(k, 255);
    K.BytePowers();
    AndMask(k[31], 7);
    OrBound(And(k[31], 127), 64, 7);
    SmallPowers();
    BitIs(K.Clamp(k)[31], 7, 128, 0, 0, K.Clamp(k)[31]);
  }
}
