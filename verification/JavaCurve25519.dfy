/** Ten 26-bit limbs in 32-bit integers: Curve25519.java. */
module JavaCurve25519 {
  import opened Arith
  import opened Machine
  import opened Limbs
  import opened Bits
  import F = Field
  import K = Keys

  const R: int := 0x400_0000
  const ROW: int := 0x10_0000_0000_0000

  predicate Small(s: seq<int>)
  {
    |s| == 10 && forall i :: 0 <= i < 10 ==> 0 <= s[i] < R
  }

  ghost predicate Canon(s: seq<int>)
  {
    Small(s) && Eval(R, s, 10) < F.P
  }

  const TOP: int := 0x20_0000
  const TWO255: int := 0x80000000_00000000_00000000_00000000_00000000_00000000_00000000_00000000
  const TWO260: int := 0x10_00000000_00000000_00000000_00000000_00000000_00000000_00000000_00000000

  lemma {:induction false} Powers()
    ensures Pow(R, 9) * TOP == TWO255 && Pow(R, 9) > 0
    ensures Pow(R, 10) == TWO260
  {
    assert Pow(R, 1) == R;
    assert Pow(R, 2) == R * R;
    PowAdd(R, 2, 2);
    PowAdd(R, 4, 4);
    PowAdd(R, 8, 1);
    assert Pow(R, 10) == R * Pow(R, 9);
  }

  /** Splitting the top limb at bit 21 splits the number at bit 255. */
  lemma {:induction false} TopSplit(s: seq<int>, t: seq<int>)
    requires Small(s) && Small(t)
    requires forall i :: 0 <= i < 9 ==> t[i] == s[i]
    requires t[9] == s[9] % TOP
    ensures Eval(R, s, 10) == Eval(R, t, 10) + (s[9] / TOP) * TWO255
    ensures 0 <= Eval(R, t, 10) < TWO255
  {
    hide Eval, Pow;
    EvalAgree(R, s, t, 9);
    EvalBound(R, s, 9);
    EvalTop(R, s, 9);
    EvalTop(R, t, 9);
    Powers();
    var w, q := Pow(R, 9), s[9] / TOP;
    assert s[9] * w == t[9] * w + q * TWO255 by {
      Distribute(t[9], q * TOP, w);
      assert (q * TOP) * w == q * (w * TOP);
    }
    assert 0 <= w * t[9] <= TWO255 - w by {
      MulMono(w, t[9], TOP - 1);
      MulMono(w, 0, t[9]);
    }
  }

  lemma {:induction false} SmallBound(s: seq<int>)
    requires |s| >= 10 && forall i :: 0 <= i < 10 ==> 0 <= s[i] < R
    ensures 0 <= Eval(R, s, 10) < TWO260
  {
    EvalBound(R, s, 10);
    Powers();
  }

  class Curve25519 {
    const A: array<int32>
    const AA: array<int32>
    const B: array<int32>
    const BB: array<int32>
    const C: array<int32>
    const CB: array<int32>
    const D: array<int32>
    const DA: array<int32>
    const E: array<int32>
    const t1: array<int64>
    const t2: array<int32>
    const x_1: array<int32>
    const x_2: array<int32>
    const x_3: array<int32>
    const z_2: array<int32>
    const z_3: array<int32>

    /** The scratch numbers are distinct arrays. */
    ghost predicate Shape()
    {
      && A.Length == 10 && AA.Length == 10 && B.Length == 10 && BB.Length == 10 && C.Length == 10 && CB.Length == 10
        && D.Length == 10 && DA.Length == 10 && E.Length == 10
      && x_1.Length == 10 && x_2.Length == 10 && x_3.Length == 10 && z_2.Length == 10 && z_3.Length == 10
      && t1.Length == 20 && t2.Length == 20
      && A !in {AA, B, BB, C, CB, D, DA, E, t2, x_1, x_2, x_3, z_2, z_3}
      && AA !in {B, BB, C, CB, D, DA, E, t2, x_1, x_2, x_3, z_2, z_3}
      && B !in {BB, C, CB, D, DA, E, t2, x_1, x_2, x_3, z_2, z_3}
      && BB !in {C, CB, D, DA, E, t2, x_1, x_2, x_3, z_2, z_3}
      && C !in {CB, D, DA, E, t2, x_1, x_2, x_3, z_2, z_3}
      && CB !in {D, DA, E, t2, x_1, x_2, x_3, z_2, z_3}
      && D !in {DA, E, t2, x_1, x_2, x_3, z_2, z_3}
      && DA !in {E, t2, x_1, x_2, x_3, z_2, z_3}
      && E !in {t2, x_1, x_2, x_3, z_2, z_3}
      && t2 !in {x_1, x_2, x_3, z_2, z_3}
      && x_1 !in {x_2, x_3, z_2, z_3}
      && x_2 !in {x_3, z_2, z_3}
      && x_3 !in {z_2, z_3}
      && z_2 !in {z_3}
    }

    ghost predicate Valid()
      reads t1
    {
      t1.Length == 20 && t2.Length == 20 && t1[19] == 0
    }

    /** Adds a carry into x from limb `from` on, writing 26-bit limbs to out. */
    static method Propagate(out: array<int32>, x: array<int32>, from: nat, carry0: int32) returns (carry: int32)
      requires from <= 10 <= x.Length && 10 <= out.Length && 0 <= carry0 < R
      requires forall k :: from <= k < 10 ==> 0 <= x[k] < R
      requires forall k :: 0 <= k < from ==> 0 <= out[k] < R
      modifies out
      ensures 0 <= carry && (from < 10 ==> carry <= 1)
      ensures forall k :: 0 <= k < 10 ==> 0 <= out[k] < R
      ensures forall k :: 10 <= k < out.Length ==> out[k] == old(out[k])
      ensures Eval(R, out[..], 10) + carry * TWO260
           == old(Eval(R, out[..], from) + Eval(R, x[..], 10) - Eval(R, x[..], from)) + carry0 * Pow(R, from)
      ensures from == 0 ==> Eval(R, out[..], 10) + carry * TWO260 == old(Eval(R, x[..], 10)) + carry0
    {
      hide Eval, Pow;
      ghost var x0 := x[..];
      EvalStart(R, out[..]);
      EvalStart(R, x0);
      ghost var base := Eval(R, out[..], from) - Eval(R, x0, from) + carry0 * Pow(R, from);
      carry := carry0;
      for index := from to 10
        invariant 0 <= carry < R && (index > from ==> carry <= 1)
        invariant forall k :: index <= k < 10 ==> x[k] == x0[k]
        invariant forall k :: 0 <= k < index ==> 0 <= out[k] < R
        invariant forall k :: 10 <= k < out.Length ==> out[k] == old(out[k])
        invariant Eval(R, out[..], index) + carry * Pow(R, index) == base + Eval(R, x0, index)
      {
        ghost var before, c := out[..], carry;
        carry := carry + x[index];
        out[index] := carry % R;
        carry := carry / R;
        ChainStep(R, before, out[..], x0, index, c, carry, base);
      }
      Powers();
    }

    /** Cuts the number in x at bit 255, which is bit 21 of its last limb. */
    static method CutTop(x: array<int32>) returns (top: int32)
      requires x.Length >= 10 && forall k :: 0 <= k < 10 ==> 0 <= x[k] < R
      modifies x
      ensures 0 <= top < 32 && top == old(x[9]) / TOP
      ensures forall k :: 0 <= k < x.Length && k != 9 ==> x[k] == old(x[k])
      ensures 0 <= x[9] < TOP
      ensures old(Eval(R, x[..], 10)) == Eval(R, x[..], 10) + top * TWO255
      ensures 0 <= Eval(R, x[..], 10) < TWO255
    {
      ghost var s := x[..10];
      EvalAgree(R, x[..], s, 10);
      top := x[9] / TOP;
      x[9] := x[9] % TOP;
      ghost var t := x[..10];
      EvalAgree(R, x[..], t, 10);
      TopSplit(s, t);
    }

    /** Keeps x or takes y, by masks rather than by a branch. */
    static method Select(x: array<int32>, y: array<int32>, mask: int32)
      requires x.Length == 10 <= y.Length && x != y && (mask == 0 || mask == -1)
      modifies x
      ensures forall k :: 0 <= k < 10 ==> x[k] == (if mask == 0 then old(x[k]) else y[k])
    {
      var nmask: int32 := Not(mask);
      for index := 0 to 10
        invariant forall k :: index <= k < 10 ==> x[k] == old(x[k])
        invariant forall k :: 0 <= k < index ==> x[k] == (if mask == 0 then old(x[k]) else y[k])
      {
        MaskedPick(x[index], y[index], mask);
        x[index] := Or(And(x[index], nmask), And(y[index], mask));
      }
    }

    /** One trial subtraction of p. */
    method ReduceQuick(x: array<int32>)
      requires Valid() && x != t2 && Small(x[..])
      modifies x, t2
      ensures Small(x[..])
      ensures Eval(R, x[..], 10) == Quick(old(Eval(R, x[..], 10)))
    {
      hide Eval, Pow;
      ghost var x0 := x[..];
      SmallBound(x0);
      var carry := Propagate(t2, x, 0, 19);
      var top := CutTop(t2);
      var mask: int32 := -(top % 2);
      QuickTop(Eval(R, x0, 10), carry, top, Eval(R, t2[..], 10));
      Select(x, t2, mask);
      EvalAgree(R, x[..], if mask == 0 then x0 else t2[..], 10);
    }

    /** Adds 19 times the high part, top + 2^5 * x[10..], to the low limbs. */
    static method FoldLoop(x: array<int32>, size: nat, top: int32) returns (carry: int32)
      requires 1 <= size <= 10 && x.Length == 20 && 0 <= top < 32
      requires forall k :: 0 <= k < 10 + size ==> 0 <= x[k] < R
      requires top + 32 * Eval(R, x[10..], size) < Pow(R, size)
      modifies x
      ensures 0 <= carry < 20
      ensures forall k :: 0 <= k < size ==> 0 <= x[k] < R
      ensures forall k :: size <= k < 20 ==> x[k] == old(x[k])
      ensures Eval(R, x[..], size) + carry * Pow(R, size)
           == old(Eval(R, x[..], size) + 19 * (top + 32 * Eval(R, x[10..], size)))
    {
      hide Eval, Pow;
      ghost var x0, h := x[..], x[10..];
      EvalStart(R, x0);
      EvalStart(R, h);
      var limb: int32 := top;
      carry := 0;
      for index := 0 to size
        invariant 0 <= limb < 32 && 0 <= carry < 20
        invariant forall k :: index <= k < 20 ==> x[k] == x0[k]
        invariant forall k :: 0 <= k < index ==> 0 <= x[k] < R
        invariant limb * Pow(R, index) <= top + 32 * Eval(R, h, index)
        invariant Eval(R, x[..], index) + (carry + 19 * limb) * Pow(R, index)
               == Eval(R, x0, index) + 19 * (top + 32 * Eval(R, h, index))
      {
        ghost var before, c, l := x[..], carry, limb;
        limb := limb + x[10 + index] * 32;
        carry := carry + limb % R * 19 + x[index];
        x[index] := carry % R;
        limb := limb / R;
        carry := carry / R;
        FoldStep(before, x[..], x0, h, index, c, l, carry, limb, top);
      }
      PowPos(R, size);
      ghost var high := top + 32 * Eval(R, h, size);
      NoCarryOut(high - limb * Pow(R, size), limb, high, Pow(R, size));
    }

    /** A short high half leaves a carry to propagate through the rest of the low limbs. */
    static method FoldRest(x: array<int32>, size: nat, carry0: int32) returns (carry: int32)
      requires 1 <= size <= 10 && x.Length == 20 && 0 <= carry0 < 20
      requires forall k :: 0 <= k < 10 ==> 0 <= x[k] < R
      modifies x
      ensures 0 <= carry
      ensures forall k :: 0 <= k < 10 ==> 0 <= x[k] < R
      ensures Eval(R, x[..], 10) + carry * TWO260 == old(Eval(R, x[..], 10)) + carry0 * Pow(R, size)
    {
      carry := carry0;
      if size < 10 {
        carry := Propagate(x, x, size, carry);
      } else {
        Powers();
      }
    }

    /** The first half of reduce: (x mod 2^255) + 19 * (x / 2^255). */
    static method FoldHigh(x: array<int32>, size: nat, ghost low: int, ghost high: int)
      requires 1 <= size <= 10 && x.Length == 20
      requires forall k :: 0 <= k < 10 + size ==> 0 <= x[k] < R
      requires SplitsAt255(x[..], size, low, high)
      requires high < Pow(R, size) && low + 19 * high < TWO260
      modifies x
      ensures forall k :: 0 <= k < 10 ==> 0 <= x[k] < R
      ensures Eval(R, x[..], 10) == low + 19 * high
    {
      hide Eval, Pow;
      ghost var h := x[10..];
      var limb := CutTop(x);
      ghost var x0 := x[..];
      assert x[10..] == h;
      assert Eval(R, x0, 10) == low;
      var carry := FoldLoop(x, size, limb);
      ghost var out := carry * Pow(R, size);
      assert Eval(R, x[..], 10) + out == low + 19 * high by {
        EvalAgreeFrom(R, x0, x[..], size, 10);
        assert Eval(R, x[..], size) + out == Eval(R, x0, size) + 19 * high;
      }
      carry := FoldRest(x, size, carry);
      SmallBound(x[..]);
    }

    /** The second half of reduce, before the trial subtraction. */
    static method FoldTop(result: array<int32>, x: array<int32>) returns (ghost top: int, ghost rest: int)
      requires x.Length == 20 && result.Length == 10 && result != x
      requires forall k :: 0 <= k < 10 ==> 0 <= x[k] < R
      modifies result, x
      ensures Small(result[..])
      ensures old(Eval(R, x[..], 10)) == rest + top * TWO255 && 0 <= rest < TWO255 && 0 <= top < 32
      ensures Eval(R, result[..], 10) == rest + top * 19
    {
      hide Eval, Pow;
      var limb := CutTop(x);
      top, rest := limb, Eval(R, x[..], 10);
      var carry: int32 := limb * 19;
      carry := Propagate(result, x, 0, carry);
      SmallBound(result[..]);
    }

    method Reduce(result: array<int32>, x: array<int32>, size: nat, ghost low: int, ghost high: int)
      requires Valid() && 1 <= size <= 10 && x.Length == 20 && result.Length == 10 && result != x && result != t2
      requires forall k :: 0 <= k < 10 + size ==> 0 <= x[k] < R
      requires SplitsAt255(x[..], size, low, high)
      requires high < Pow(R, size) && low + 19 * high < TWO260
      modifies result, x, t2
      ensures Canon(result[..]) && Eval(R, result[..], 10) == F.Rep(low + TWO255 * high)
    {
      hide Eval, Pow;
      FoldHigh(x, size, low, high);
      ghost var top, rest := FoldTop(result, x);
      ReduceQuick(result);
      ReduceValue(low, high, top, rest);
    }

    method FirstRow(v: int64, y: array<int32>)
      requires Valid()
      requires 0 <= v < R && Small(y[..])
      modifies t1
      ensures Valid()
      ensures Eval(R, t1[..], 10) == v * Eval(R, y[..], 10)
      ensures forall k :: 0 <= k < 10 ==> 0 <= t1[k] <= ROW
    {
      hide Eval, Pow;
      EvalStart(R, t1[..]);
      EvalStart(R, y[..]);
      for i := 0 to 10
        invariant t1[19] == 0
        invariant forall k :: 0 <= k < i ==> 0 <= t1[k] <= ROW
        invariant Eval(R, t1[..], i) == v * Pow(R, 0) * Eval(R, y[..], i)
      {
        ghost var before := t1[..];
        ProductBound(v, y[i]);
        t1[i] := v * y[i];
        AppendStep(before, t1[..], y[..], i, v, 0, 0);
      }
    }

    method AddRow(i: nat, v: int64, y: array<int32>, ghost done: int)
      requires Valid() && 1 <= i < 10
      requires 0 <= v < R && Small(y[..])
      requires forall k :: 0 <= k < i + 9 ==> 0 <= t1[k] <= i * ROW
      requires Eval(R, t1[..], i + 9) == done
      modifies t1
      ensures Valid()
      ensures forall k :: 0 <= k < i + 10 ==> 0 <= t1[k] <= (i + 1) * ROW
      ensures Eval(R, t1[..], i + 10) == done + v * Pow(R, i) * Eval(R, y[..], 10)
    {
      hide Eval, Pow;
      EvalStart(R, y[..]);
      for j := 0 to 9
        invariant t1[19] == 0
        invariant forall k :: 0 <= k < i + 9 ==> 0 <= t1[k] <= i * ROW + (if i <= k < i + j then ROW else 0)
        invariant Eval(R, t1[..], i + 9) == done + v * Pow(R, i) * Eval(R, y[..], j)
      {
        ghost var before := t1[..];
        ProductBound(v, y[j]);
        t1[i + j] := t1[i + j] + v * y[j];
        UpdateStep(before, t1[..], y[..], i, j, v, done);
      }
      ghost var before := t1[..];
      ProductBound(v, y[9]);
      t1[i + 9] := v * y[9];
      AppendStep(before, t1[..], y[..], 9, v, i, done);
    }

    method MulRows(x: array<int32>, y: array<int32>)
      requires Valid()
      requires Small(x[..]) && Small(y[..])
      modifies t1
      ensures Valid()
      ensures Eval(R, t1[..], 19) == Eval(R, x[..], 10) * Eval(R, y[..], 10)
      ensures forall k :: 0 <= k < 19 ==> 0 <= t1[k] <= 10 * ROW
    {
      hide Eval, Pow;
      FirstRow(x[0], y);
      EvalTop(R, x[..], 0);
      EvalStart(R, x[..]);
      for i := 1 to 10
        invariant t1[19] == 0
        invariant forall k :: 0 <= k < i + 9 ==> 0 <= t1[k] <= i * ROW
        invariant Eval(R, t1[..], i + 9) == Eval(R, x[..], i) * Eval(R, y[..], 10)
      {
        AddRow(i, x[i], y, Eval(R, x[..], i) * Eval(R, y[..], 10));
        EvalTop(R, x[..], i);
        RowEnd(Eval(R, x[..], i), x[i], Pow(R, i), Eval(R, y[..], 10));
      }
    }

    /** Turns the wide product in t1 into 26-bit limbs in t2. */
    method MulCarry() returns (v: int64)
      requires Valid()
      requires forall k :: 0 <= k < 19 ==> 0 <= t1[k] <= 10 * ROW
      modifies t2
      ensures forall k :: 0 <= k < 20 ==> 0 <= t2[k] < R
      ensures 0 <= v && Eval(R, t2[..], 20) + v / R * Pow(R, 20) == Eval(R, t1[..], 19)
    {
      hide Eval, Pow, Wrap32;
      v := t1[0];
      t2[0] := Wrap32(v) % R;
      ToIntMask(v);
      EvalStart(R, t1[..]);
      EvalStart(R, t2[..]);
      ChainStep(R, t2[..], t2[..], t1[..], 0, 0, v / R, 0);
      for i := 1 to 20
        invariant 0 <= v <= 11 * ROW
        invariant forall k :: 0 <= k < i ==> 0 <= t2[k] < R
        invariant Eval(R, t2[..], i) + v / R * Pow(R, i) == Eval(R, t1[..], i)
      {
        ghost var before, c := t2[..], v / R;
        v := v / R + t1[i];
        t2[i] := Wrap32(v) % R;
        ToIntMask(v);
        ChainStep(R, before, t2[..], t1[..], i, c, v / R, 0);
      }
      EvalTop(R, t1[..], 19);
    }

    /** The double-width product of x and y, left in t2. */
    method Product(x: array<int32>, y: array<int32>) returns (ghost low: int, ghost high: int)
      requires Valid() && IsNum(x) && IsNum(y) && x != t2 && y != t2
      modifies t1, t2
      ensures Valid()
      ensures forall k :: 0 <= k < 20 ==> 0 <= t2[k] < R
      ensures SplitsAt255(t2[..], 10, low, high)
      ensures high < Pow(R, 10) && low + 19 * high < TWO260
      ensures low + TWO255 * high == Val(x) * Val(y)
    {
      hide Eval, Pow;
      SmallBound(x[..]);
      SmallBound(y[..]);
      MulRows(x, y);
      var v := MulCarry();
      low, high := ProductSplit(t2[..], v / R, Val(x), Val(y));
    }

    method Mul(result: array<int32>, x: array<int32>, y: array<int32>)
      requires Valid() && result.Length == 10 && result != t2 && x != t2 && y != t2
      requires IsNum(x) && IsNum(y)
      modifies result, t1, t2
      ensures Valid()
      ensures IsNum(result)
      ensures Val(result) == F.Mul(old(Val(x)), old(Val(y)))
    {
      hide Eval, Pow;
      ghost var low, high := Product(x, y);
      Reduce(result, t2, 10, low, high);
    }

    method Square(result: array<int32>, x: array<int32>)
      requires Valid() && result.Length == 10 && result != t2 && x != t2 && IsNum(x)
      modifies result, t1, t2
      ensures Valid() && IsNum(result)
      ensures Val(result) == F.Mul(old(Val(x)), old(Val(x)))
    {
      Mul(result, x, x);
    }

    method MulA24(result: array<int32>, x: array<int32>)
      requires Valid() && result.Length == 10 && result != t2 && x != t2 && IsNum(x)
      modifies result, t2
      ensures IsNum(result)
      ensures Val(result) == F.Mul(old(Val(x)), F.A24)
    {
      hide Eval, Pow, Wrap32;
      ghost var x0 := x[..];
      var carry: int64 := 0;
      EvalStart(R, t2[..]);
      EvalStart(R, x0);
      for index := 0 to 10
        invariant 0 <= carry < R && x[..] == x0
        invariant forall k :: 0 <= k < index ==> 0 <= t2[k] < R
        invariant Eval(R, t2[..], index) + carry * Pow(R, index) == F.A24 * Eval(R, x0, index)
      {
        ghost var before, c := t2[..], carry;
        carry := carry + F.A24 * x[index];
        t2[index] := Wrap32(carry) % R;
        ToIntMask(carry);
        carry := carry / R;
        ScaleStep(before, t2[..], x0, index, c, carry);
      }
      ghost var before := t2[..];
      t2[10] := Wrap32(carry) % R;
      ToIntMask(carry);
      EvalAgree(R, before, t2[..], 10);
      SmallBound(x0);
      ghost var low, high := ShortSplit(t2[..], Eval(R, x0, 10));
      Reduce(result, t2, 1, low, high);
    }

    static method AddLoop(result: array<int32>, x: array<int32>, y: array<int32>) returns (carry: int32)
      requires result.Length == 10 && Small(x[..]) && Small(y[..])
      modifies result
      ensures Small(result[..]) && carry >= 0
      ensures Val(result) + carry / R * TWO260 == old(Val(x)) + old(Val(y))
    {
      hide Eval, Pow;
      ghost var x0, y0 := x[..], y[..];
      carry := x[0] + y[0];
      result[0] := carry % R;
      EvalStart(R, x0);
      EvalStart(R, y0);
      EvalStart(R, result[..]);
      SumStep(result[..], result[..], x0, y0, 0, 0, carry / R);
      for index := 1 to 10
        invariant 0 <= carry < 2 * R
        invariant forall k :: index <= k < 10 ==> x[k] == x0[k] && y[k] == y0[k]
        invariant forall k :: 0 <= k < index ==> 0 <= result[k] < R
        invariant Eval(R, result[..], index) + carry / R * Pow(R, index) == Eval(R, x0, index) + Eval(R, y0, index)
      {
        ghost var before, c := result[..], carry / R;
        carry := carry / R + x[index] + y[index];
        result[index] := carry % R;
        SumStep(before, result[..], x0, y0, index, c, carry / R);
      }
      Powers();
    }

    method Add(result: array<int32>, x: array<int32>, y: array<int32>)
      requires Valid() && result.Length == 10 && result != t2 && IsNum(x) && IsNum(y)
      modifies result, t2
      ensures IsNum(result)
      ensures Val(result) == F.Add(old(Val(x)), old(Val(y)))
    {
      hide Eval, Pow;
      SmallBound(x[..]);
      SmallBound(y[..]);
      ghost var sum := Val(x) + Val(y);
      var carry := AddLoop(result, x, y);
      SmallBound(result[..]);
      ReduceQuick(result);
      QuickIsMod(sum);
    }

    /** Subtracts with a borrow, wrapping at 2^260. */
    static method SubLoop(result: array<int32>, x: array<int32>, y: array<int32>) returns (borrow: int32)
      requires result.Length == 10 && Small(x[..]) && Small(y[..])
      modifies result
      ensures Small(result[..])
      ensures -R <= borrow < R
      ensures Val(result) == old(Val(x)) - old(Val(y)) + borrow / R % 2 * TWO260
    {
      hide Eval, Pow;
      ghost var x0, y0 := x[..], y[..];
      EvalStart(R, x0);
      EvalStart(R, y0);
      EvalStart(R, result[..]);
      borrow := 0;
      for index := 0 to 10
        invariant -R <= borrow < R
        invariant forall k :: index <= k < 10 ==> x[k] == x0[k] && y[k] == y0[k]
        invariant forall k :: 0 <= k < index ==> 0 <= result[k] < R
        invariant Eval(R, result[..], index) - borrow / R % 2 * Pow(R, index) == Eval(R, x0, index) - Eval(R, y0, index)
      {
        ghost var before, b := result[..], borrow / R % 2;
        borrow := x[index] - y[index] - borrow / R % 2;
        result[index] := borrow % R;
        DiffStep(before, result[..], x0, y0, index, b, borrow / R % 2);
      }
      Powers();
    }

    /** Takes 19 away when there was a borrow, wrapping at 2^260 again. */
    static method Sub19(result: array<int32>, bit: int32) returns (borrow: int32)
      requires Small(result[..]) && (bit == 0 || bit == 1)
      modifies result
      ensures Small(result[..])
      ensures Val(result) == old(Val(result)) - 19 * bit + borrow / R % 2 * TWO260
    {
      hide Eval, Pow;
      ghost var s := result[..];
      ghost var less := seq(10, k => if k == 0 then 19 * bit else 0);
      EvalStart(R, s);
      EvalStart(R, less);
      LessValue(less, bit);
      borrow := result[0] - And(-bit, 19);
      result[0] := borrow % R;
      DiffStep(s, result[..], s, less, 0, 0, borrow / R % 2);
      for index := 1 to 10
        invariant -R <= borrow < R
        invariant forall k :: index <= k < 10 ==> result[k] == s[k]
        invariant forall k :: 0 <= k < index ==> 0 <= result[k] < R
        invariant Eval(R, result[..], index) - borrow / R % 2 * Pow(R, index) ==
                  Eval(R, s, index) - Eval(R, less, index)
      {
        ghost var before, b := result[..], borrow / R % 2;
        borrow := result[index] - borrow / R % 2;
        result[index] := borrow % R;
        DiffStep(before, result[..], s, less, index, b, borrow / R % 2);
      }
      Powers();
    }

    method Sub(result: array<int32>, x: array<int32>, y: array<int32>)
      requires result.Length == 10 && IsNum(x) && IsNum(y)
      modifies result
      ensures IsNum(result)
      ensures Val(result) == F.Sub(old(Val(x)), old(Val(y)))
    {
      hide Eval, Pow;
      ghost var d := Val(x) - Val(y);
      SmallBound(x[..]);
      SmallBound(y[..]);
      var borrow := SubLoop(result, x, y);
      SmallBound(result[..]);
      borrow := Sub19(result, borrow / R % 2);
      SmallBound(result[..]);
      var top := CutTop(result);
      SubValue(d, Val(result), top);
    }

    static method CSwap(select: int32, x: array<int32>, y: array<int32>)
      requires (select == 0 || select == 1) && x != y && Small(x[..]) && Small(y[..])
      modifies x, y
      ensures x[..] == old(if select == 1 then y[..] else x[..])
      ensures y[..] == old(if select == 1 then x[..] else y[..])
    {
      hide Xor, And;
      var mask: int32 := -select;
      for index := 0 to 10
        invariant forall k :: index <= k < 10 ==> x[k] == old(x[k]) && y[k] == old(y[k])
        invariant forall k :: 0 <= k < index ==> x[k] == old(if select == 1 then y[k] else x[k])
        invariant forall k :: 0 <= k < index ==> y[k] == old(if select == 1 then x[k] else y[k])
      {
        XorInt32(mask, x[index], y[index]);
        XorSwap(mask, x[index], y[index]);
        var dummy: int32 := And(mask, Xor(x[index], y[index]));
        x[index] := Xor(x[index], dummy);
        y[index] := Xor(y[index], dummy);
      }
    }

    /** x^(2^10), by ten squarings of A from x^(2^k). */
    method TenSquares(count: nat, ghost v: int, ghost a: nat) returns (ghost a': nat)
      requires Valid() && A.Length == 10 && A != t2 && IsNum(A) && Val(A) == F.Power(v, a)
      modifies A, t1, t2
      ensures Valid() && IsNum(A)
      ensures a' == a * Pow(2, count) && Val(A) == F.Power(v, a')
    {
      hide Eval, Pow, F.Power, F.Mul;
      a' := a;
      PowTop(2, 0);
      for j := 0 to count
        invariant Valid() && IsNum(A)
        invariant a' == a * Pow(2, j) && Val(A) == F.Power(v, a')
      {
        Square(A, A);
        F.PowerMul(v, a', a');
        PowTop(2, j);
        assert a * (2 * Pow(2, j)) == 2 * (a * Pow(2, j));
        a' := a' + a';
      }
    }

    /** The addition chain for x^(2^250 - 1). */
    method Pow250(result: array<int32>, x: array<int32>)
      requires Valid() && A.Length == 10 && A != t2
      requires result.Length == 10 && result != t2 && result != x && result != A
      requires x != t2 && x != A && IsNum(x)
      modifies result, A, t1, t2
      ensures Valid() && IsNum(result)
      ensures Pow(2, 250) >= 1 && Val(result) == F.Power(Val(x), Pow(2, 250) - 1)
    {
      hide Eval, Pow, F.Power, F.Mul;
      ghost var v := Val(x);
      SmallBound(x[..]);
      F.PowerOne(v);
      F.PowerMul(v, 1, 1);
      TenPower();
      Square(A, x);
      ghost var a := TenSquares(9, v, 2);
      Mul(result, A, x);
      F.PowerMul(v, a, 1);
      ghost var e: nat := a + 1;
      for i := 0 to 23
        invariant Valid() && IsNum(A) && IsNum(result) && x[..] == old(x[..])
        invariant a == Pow(2, 10 * (i + 1)) && 1023 * e + 1 == 1024 * a
        invariant Val(A) == F.Power(v, a) && Val(result) == F.Power(v, e)
      {
        PowAdd(2, 10 * (i + 1), 10);
        a := TenSquares(10, v, a);
        Mul(result, result, A);
        F.PowerMul(v, e, a);
        e := e + a;
      }
      PowAdd(2, 240, 10);
      Square(A, result);
      F.PowerMul(v, e, e);
      ghost var m: nat, f: nat := e + e, e + (e + e);
      F.PowerMul(v, e, m);
      Mul(result, result, A);
      PowTop(2, 0);
      for j := 0 to 8
        invariant Valid() && IsNum(A) && IsNum(result) && x[..] == old(x[..])
        invariant m == 2 * (e * Pow(2, j)) && f == 2 * m - e
        invariant Val(A) == F.Power(v, m) && Val(result) == F.Power(v, f)
      {
        Square(A, A);
        F.PowerMul(v, m, m);
        PowTop(2, j);
        assert e * (2 * Pow(2, j)) == 2 * (e * Pow(2, j));
        m := m + m;
        Mul(result, result, A);
        F.PowerMul(v, f, m);
        f := f + m;
      }
    }

    /** x^(2^255 - 21), which is the reciprocal of x. */
    method Recip(result: array<int32>, x: array<int32>)
      requires Valid() && A.Length == 10 && A != t2
      requires result.Length == 10 && result != t2 && result != x && result != A
      requires x != t2 && x != A && IsNum(x)
      modifies result, A, t1, t2
      ensures Valid() && IsNum(result)
      ensures Val(result) == F.Inv(Val(x))
    {
      hide Eval, Pow, F.Power, F.Mul;
      ghost var v := Val(x);
      SmallBound(x[..]);
      F.PowerOne(v);
      Pow250(result, x);
      ghost var e: nat := Pow(2, 250) - 1;
      RecipChain(v, e);
      Square(result, result);
      Square(result, result);
      Mul(result, result, x);
      Square(result, result);
      Square(result, result);
      Mul(result, result, x);
      Square(result, result);
      Mul(result, result, x);
    }

    ghost function State(): F.State
      requires Shape()
      reads x_2, z_2, x_3, z_3
    {
      F.State(Val(x_2), Val(z_2), Val(x_3), Val(z_3))
    }

    ghost predicate Numbers()
      requires Shape()
      reads x_1, x_2, z_2, x_3, z_3
    {
      IsNum(x_1) && IsNum(x_2) && IsNum(z_2) && IsNum(x_3) && IsNum(z_3)
    }

    method LadderStep()
      requires Shape() && Valid() && Numbers()
      modifies A, AA, B, BB, C, CB, D, DA, E, t1, t2, x_2, z_2, x_3, z_3
      ensures Valid() && Numbers()
      ensures State() == F.Step(Val(x_1), old(State()))
    {
      hide IsNum, Val, F.Mul, F.Add, F.Sub;
      StepProducts();
      StepResults();
    }

    /** The first half of a ladder step, up to A^2, B^2, E, DA and CB. */
    method StepProducts()
      requires Shape() && Valid() && Numbers()
      modifies A, AA, B, BB, C, CB, D, DA, E, t1, t2
      ensures Valid() && IsNum(AA) && IsNum(BB) && IsNum(E) && IsNum(DA) && IsNum(CB)
      ensures var s := State();
              var a, b := F.Add(s.x2, s.z2), F.Sub(s.x2, s.z2);
              && Val(AA) == F.Mul(a, a) && Val(BB) == F.Mul(b, b) && Val(E) == F.Sub(Val(AA), Val(BB))
              && Val(DA) == F.Mul(F.Sub(s.x3, s.z3), a) && Val(CB) == F.Mul(F.Add(s.x3, s.z3), b)
    {
      hide IsNum, Val, F.Mul, F.Add, F.Sub;
      Add(A, x_2, z_2);
      Square(AA, A);
      Sub(B, x_2, z_2);
      Square(BB, B);
      Sub(E, AA, BB);
      Add(C, x_3, z_3);
      Sub(D, x_3, z_3);
      Mul(DA, D, A);
      Mul(CB, C, B);
    }

    /** The second half of a ladder step, which overwrites both points. */
    method StepResults()
      requires Shape() && Valid() && Numbers()
      requires IsNum(AA) && IsNum(BB) && IsNum(E) && IsNum(DA) && IsNum(CB)
      modifies t1, t2, x_2, z_2, x_3, z_3
      ensures Valid() && Numbers()
      ensures var aa, bb, e := Val(AA), Val(BB), Val(E);
              var sum, diff := F.Add(Val(DA), Val(CB)), F.Sub(Val(DA), Val(CB));
              State() == F.State(F.Mul(aa, bb), F.Mul(F.Add(F.Mul(e, F.A24), aa), e),
                                 F.Mul(sum, sum), F.Mul(F.Mul(diff, diff), Val(x_1)))
    {
      hide IsNum, Val, F.Mul, F.Add, F.Sub;
      Add(x_3, DA, CB);
      Square(x_3, x_3);
      Sub(z_3, DA, CB);
      Square(z_3, z_3);
      Mul(z_3, z_3, x_1);
      Mul(x_2, AA, BB);
      MulA24(z_2, E);
      Add(z_2, z_2, AA);
      Mul(z_2, z_2, E);
    }

    /** Exchanges (x_2, z_2) and (x_3, z_3) when swap is 1. */
    method SwapPoints(swap: int32)
      requires Shape() && Numbers() && (swap == 0 || swap == 1)
      modifies x_2, z_2, x_3, z_3
      ensures Numbers()
      ensures State() == F.SwapIf(swap, old(State()))
    {
      hide Eval;
      CSwap(swap, x_2, x_3);
      CSwap(swap, z_2, z_3);
    }

    /** The ladder over bits 254 to 0, each swap delayed until the next bit is known. */
    method EvalCurve(s: array<int8>)
      requires Shape() && Valid() && Numbers() && s.Length == 32
      requires State() == F.State(1, 0, Val(x_1), 1)
      modifies A, AA, B, BB, C, CB, D, DA, E, t1, t2, x_2, z_2, x_3, z_3
      ensures Valid() && Numbers()
      ensures State() == F.Ladder(Val(x_1), K.Scalar(Unsigned(s[..])), 255)
    {
      hide IsNum, Val, F.Step, F.Ladder, K.Scalar, And, BitAt;
      ghost var k := Unsigned(s[..]);
      ghost var x1 := Val(x_1);
      F.LadderStart(x1, K.Scalar(k));
      var sposn: nat := 31;
      var sbit: nat := 6;
      WindowRange(s[31]);
      WindowRange(s[0]);
      var svalue: int32 := Or(s[sposn], 0x40);
      var swap: int32 := 0;
      while true
        invariant Valid() && Numbers() && Val(x_1) == x1
        invariant sposn <= 31 && sbit <= 7 && (sposn == 31 ==> sbit <= 6)
        invariant svalue == Window(s[..], sposn)
        invariant swap == 0 || swap == 1
        invariant State() == F.SwapIf(swap, F.Ladder(x1, K.Scalar(k), 254 - (8 * sposn + sbit)))
        decreases 8 * sposn + sbit
      {
        ghost var n := 254 - (8 * sposn + sbit);
        var select: int32 := BitAt(svalue, sbit);
        LadderBit(s[..], sposn, sbit);
        F.LadderNext(x1, K.Scalar(k), n);
        XorBits(swap, select);
        swap := Xor(swap, select);
        SwapPoints(swap);
        swap := select;
        LadderStep();
        if sbit > 0 {
          sbit := sbit - 1;
        } else if sposn == 0 {
          break;
        } else if sposn == 1 {
          sposn := sposn - 1;
          svalue := And(s[sposn], 0xF8);
          sbit := 7;
        } else {
          sposn := sposn - 1;
          svalue := s[sposn];
          sbit := 7;
        }
      }
      SwapPoints(swap);
    }

    constructor ()
      ensures Shape() && Valid()
      ensures fresh({A, AA, B, BB, C, CB, D, DA, E, t2, x_1, x_2, x_3, z_2, z_3}) && fresh(t1)
    {
      var a0, a1, a2, a3, a4, a5, a6 := SevenZeros();
      var b0, b1, b2, b3, b4, b5, b6 := SevenZeros();
      x_1, x_2, x_3, z_2, z_3, A, B := a0, a1, a2, a3, a4, a5, a6;
      C, D, E, AA, BB, DA, CB := b0, b1, b2, b3, b4, b5, b6;
      t1 := new int64[20](_ => 0);
      t2 := new int32[20](_ => 0);
    }

    static method SevenZeros()
      returns (a: array<int32>, b: array<int32>, c: array<int32>, d: array<int32>,
               e: array<int32>, f: array<int32>, g: array<int32>)
      ensures fresh(a) && fresh(b) && fresh(c) && fresh(d) && fresh(e) && fresh(f) && fresh(g)
      ensures a.Length == b.Length == c.Length == d.Length == e.Length == f.Length == g.Length == 10
      ensures a !in {b, c, d, e, f, g} && b !in {c, d, e, f, g} && c !in {d, e, f, g}
      ensures d !in {e, f, g} && e !in {f, g} && f != g
      ensures forall k :: 0 <= k < 10 ==> a[k] == b[k] == c[k] == d[k] == e[k] == f[k] == g[k] == 0
    {
      a := new int32[10](_ => 0);
      b := new int32[10](_ => 0);
      c := new int32[10](_ => 0);
      d := new int32[10](_ => 0);
      e := new int32[10](_ => 0);
      f := new int32[10](_ => 0);
      g := new int32[10](_ => 0);
    }

    /** Writes the 32 little-endian bytes of x_2. */
    static method PackBytes(result: array<int8>, offset: nat, x: array<int32>)
      requires IsNum(x) && offset + 32 <= result.Length
      modifies result
      ensures Unsigned(result[offset..offset + 32]) == K.LittleEndian(Val(x), 32)
      ensures result[..offset] == old(result[..offset]) && result[offset + 32..] == old(result[offset + 32..])
    {
      hide Eval, PackedByte, K.ByteAt, ToByte;
      ghost var v := Val(x);
      for index := 0 to 32
        invariant forall k :: 0 <= k < index ==> (result[offset + k] as int) % 256 == K.ByteAt(v, k)
        invariant forall k :: 0 <= k < result.Length && (k < offset || offset + 32 <= k) ==> result[k] == old(result[k])
      {
        PackByte(x[..], index);
        ToByteMod(PackedByte(x[..], index));
        result[offset + index] := ToByte(PackedByte(x[..], index));
      }
    }

    /** Reads a public key into x_1 and reduces it with two trial subtractions. */
    method UnpackPublicKey(publicKey: array<int8>)
      requires Shape() && Valid() && publicKey.Length == 32
      modifies x_1, t2
      ensures Small(x_1[..])
      ensures Val(x_1) == Quick(Quick(Eval(256, Unsigned(publicKey[..]), 32)))
    {
      hide Eval, Pow, And, ShiftLeft, ShiftRight;
      ghost var u := Unsigned(publicKey[..]);
      for index := 0 to 10
        invariant forall k :: 0 <= k < index ==> x_1[k] == 0
      {
        x_1[index] := 0;
      }
      EvalZero(R, x_1[..], 10);
      EvalStart(256, u);
      PowTop(2, 0);
      for index := 0 to 32
        invariant Filled(x_1[..], index)
        invariant Eval(R, x_1[..], 10) == Eval(256, u, index)
      {
        ghost var before := x_1[..];
        var bit, word := index * 8 % 26, index * 8 / 26;
        var value: int32 := (publicKey[index] as int) % 256;
        PlaceByte(before, value, index);
        if bit <= 26 - 8 {
          x_1[word] := Or(x_1[word], ShiftLeft(value, bit));
        } else {
          x_1[word] := Or(x_1[word], ShiftLeft(value, bit));
          x_1[word] := x_1[word] % R;
          x_1[word + 1] := Or(x_1[word + 1], ShiftRight(value, 26 - bit));
        }
        assert x_1[..] == Placed(before, value, index);
        EvalTop(256, u, index);
      }
      ReduceQuick(x_1);
      ReduceQuick(x_1);
    }

    /** One X25519 evaluation; a null public key stands for the base point. */
    static method EvalPoint(result: array<int8>, offset: nat, privateKey: array<int8>, publicKey: array?<int8>)
      requires offset + 32 <= result.Length && privateKey.Length == 32
      requires publicKey != null ==> publicKey.Length == 32 && Eval(256, Unsigned(publicKey[..]), 32) < 2 * TWO255 - 19
      modifies result
      ensures var u := if publicKey == null then 9 else old(F.Rep(Eval(256, Unsigned(publicKey[..]), 32)));
              Unsigned(result[offset..offset + 32])
              == K.LittleEndian(F.X25519(u, K.Scalar(old(Unsigned(privateKey[..])))), 32)
      ensures publicKey == null ==> Unsigned(result[offset..offset + 32]) == K.PublicKey(old(Unsigned(privateKey[..])))
      ensures result[..offset] == old(result[..offset]) && result[offset + 32..] == old(result[offset + 32..])
    {
      hide Eval, Pow, F.Ladder, K.Scalar, Quick, IsNum;
      var state := new Curve25519();
      ghost var u := 9;
      if publicKey != null {
        u := F.Rep(Eval(256, Unsigned(publicKey[..]), 32));
        state.UnpackPublicKey(publicKey);
        KeyBound(publicKey[..]);
        QuickTwice(Eval(256, Unsigned(publicKey[..]), 32));
        NumFrom(state.x_1);
      } else {
        SetSmall(state.x_1, 9);
      }
      SetSmall(state.x_2, 1);
      SetSmall(state.z_2, 0);
      Copy(state.x_3, state.x_1);
      SetSmall(state.z_3, 1);
      state.EvalCurve(privateKey);
      state.Recip(state.z_3, state.z_2);
      state.Mul(state.x_2, state.x_2, state.z_3);
      PackBytes(result, offset, state.x_2);
    }

    static method SetSmall(x: array<int32>, v: int32)
      requires x.Length == 10 && 0 <= v < R
      modifies x
      ensures IsNum(x) && Val(x) == v
    {
      hide Eval, Pow;
      PowTop(R, 0);
      for index := 0 to 10
        invariant forall k :: 0 <= k < index ==> x[k] == 0
      {
        x[index] := 0;
      }
      x[0] := v;
      ghost var zeros := seq(10, k => 0);
      EvalZero(R, zeros, 10);
      EvalUpdate(R, zeros, x[..], 10, 0, v);
    }

    static method Copy(x: array<int32>, y: array<int32>)
      requires x.Length == 10 && IsNum(y)
      modifies x
      ensures IsNum(x) && Val(x) == old(Val(y))
    {
      hide Eval;
      for index := 0 to 10
        invariant forall k :: 0 <= k < 10 ==> y[k] == old(y[k])
        invariant forall k :: 0 <= k < index ==> x[k] == y[k]
      {
        x[index] := y[index];
      }
      EvalAgree(R, x[..], old(y[..]), 10);
    }
  }

  /** The limbs once bytes 0 to i - 1 have been placed: nothing lies beyond bit 8i. */
  ghost predicate Filled(x: seq<int>, i: nat)
    requires i <= 32
  {
    && Small(x)
    && (forall k :: i * 8 / 26 < k < 10 ==> x[k] == 0)
    && x[i * 8 / 26] < Pow(2, i * 8 % 26)
  }

  /** Byte i of a public key goes into one limb or across the seam of two. */
  function Placed(x: seq<int>, value: int, i: nat): seq<int>
    requires |x| == 10 && i < 32
  {
    var bit, word := i * 8 % 26, i * 8 / 26;
    if bit <= 26 - 8 then x[word := Or(x[word], ShiftLeft(value, bit))]
    else x[word := Or(x[word], ShiftLeft(value, bit)) % R][word + 1 := Or(x[word + 1], ShiftRight(value, 26 - bit))]
  }

  /** Byte i of the output, from one limb or from the seam of two. */
  function PackedByte(x: seq<int>, i: nat): int
    requires |x| == 10 && i < 32
  {
    var bit, word := i * 8 % 26, i * 8 / 26;
    if bit <= 26 - 8 then ShiftRight(x[word], bit)
    else Or(ShiftRight(x[word], bit), ShiftLeft(x[word + 1], 26 - bit))
  }

  lemma {:induction false} ToByteMod(v: int)
    ensures (ToByte(v) as int) % 256 == v % 256
  {
  }

  function ShiftRight(v: int, k: nat): int
  {
    PowPos(2, k);
    v / Pow(2, k)
  }

  function ShiftLeft(v: int, k: nat): int32
  {
    Wrap32(v * Pow(2, k))
  }

  /** A Java byte array read as bytes from 0 to 255. */
  function Unsigned(s: seq<int8>): (u: seq<uint8>)
    ensures |u| == |s|
  {
    seq(|s|, i requires 0 <= i < |s| => (s[i] as int) % 256)
  }

  /** The byte that evalCurve reads its bits from, sign extension included. */
  function Window(s: seq<int8>, j: nat): (w: int32)
    requires j < |s| == 32
  {
    WindowRange(s[31]);
    WindowRange(s[0]);
    if j == 31 then Or(s[31], 0x40) else if j == 0 then And(s[0], 0xF8) else s[j]
  }

  lemma {:induction false} TenPower()
    ensures Pow(2, 9) == 512 && Pow(2, 10) == 1024 && Pow(2, 8) == 256 && Pow(2, 240) * 1024 == Pow(2, 250)
  {
    assert Pow(2, 1) == 2;
    assert Pow(2, 2) == 4;
    PowAdd(2, 2, 2);
    PowAdd(2, 4, 4);
    PowAdd(2, 8, 1);
    PowAdd(2, 8, 2);
    PowAdd(2, 240, 10);
  }

  /** The last eight operations of recip append the bits 01011. */
  lemma {:induction false} RecipChain(v: int, e: nat)
    requires 0 <= v < F.P && e == Pow(2, 250) - 1
    ensures var r0 := F.Power(v, e);
            var r2 := F.Mul(F.Mul(r0, r0), F.Mul(r0, r0));
            var r3 := F.Mul(r2, v);
            var r5 := F.Mul(F.Mul(r3, r3), F.Mul(r3, r3));
            var r6 := F.Mul(r5, v);
            F.Mul(F.Mul(r6, r6), v) == F.Inv(v)
  {
    hide F.Power, F.Mul, Pow;
    F.TwoTo255();
    F.PowerOne(v);
    F.PowerMul(v, e, e);
    F.PowerMul(v, 2 * e, 2 * e);
    F.PowerMul(v, 4 * e, 1);
    F.PowerMul(v, 4 * e + 1, 4 * e + 1);
    F.PowerMul(v, 8 * e + 2, 8 * e + 2);
    F.PowerMul(v, 16 * e + 4, 1);
    F.PowerMul(v, 16 * e + 5, 16 * e + 5);
    F.PowerMul(v, 32 * e + 10, 1);
  }

  /** x holds a reduced number. */
  ghost predicate IsNum(x: array<int32>)
    reads x
  {
    x.Length == 10 && Canon(x[..])
  }

  ghost function Val(x: array<int32>): int
    requires x.Length == 10
    reads x
  {
    Eval(R, x[..], 10)
  }

  /** An int keeps 32 bits: casts from long and shifts to the left wrap around. */
  function Wrap32(v: int): int32
  {
    (v + 0x8000_0000) % 0x1_0000_0000 - 0x8000_0000
  }

  function ToByte(v: int): int8
  {
    (v + 0x80) % 0x100 - 0x80
  }

  lemma {:induction false} ToIntMask(v: int)
    ensures Wrap32(v) % R == v % R
  {
    var q := (v + 0x8000_0000) / 0x1_0000_0000;
    assert Wrap32(v) == v + R * (-64 * q);
    ModShift(v, -64 * q, R);
  }

  lemma {:induction false} ScaleStep(before: seq<int>, after: seq<int>, x: seq<int>, n: nat, carry: int, rest: int)
    requires n < |x| && n < |before| == |after|
    requires forall i :: 0 <= i < n ==> before[i] == after[i]
    requires Eval(R, before, n) + carry * Pow(R, n) == F.A24 * Eval(R, x, n)
    requires F.A24 * x[n] + carry == after[n] + R * rest
    ensures Eval(R, after, n + 1) + rest * Pow(R, n + 1) == F.A24 * Eval(R, x, n + 1)
  {
    EvalAgree(R, before, after, n);
    CarryStep(R, before, n, F.A24 * x[n], carry, after[n], rest, F.A24 * Eval(R, x, n));
  }

  lemma {:induction false} SumStep(before: seq<int>, after: seq<int>, x: seq<int>, y: seq<int>, n: nat, carry: int,
                                   rest: int)
    requires n < |x| && n < |y| && n < |before| == |after|
    requires forall i :: 0 <= i < n ==> before[i] == after[i]
    requires Eval(R, before, n) + carry * Pow(R, n) == Eval(R, x, n) + Eval(R, y, n)
    requires x[n] + y[n] + carry == after[n] + R * rest
    ensures Eval(R, after, n + 1) + rest * Pow(R, n + 1) == Eval(R, x, n + 1) + Eval(R, y, n + 1)
  {
    EvalAgree(R, before, after, n);
    CarryStep(R, before, n, x[n] + y[n], carry, after[n], rest, Eval(R, x, n) + Eval(R, y, n));
    Distribute(x[n], y[n], Pow(R, n));
  }

  lemma {:induction false} DiffStep(before: seq<int>, after: seq<int>, x: seq<int>, y: seq<int>, n: nat, borrow: int,
                                    rest: int)
    requires n < |x| && n < |y| && n < |before| == |after|
    requires forall i :: 0 <= i < n ==> before[i] == after[i]
    requires Eval(R, before, n) - borrow * Pow(R, n) == Eval(R, x, n) - Eval(R, y, n)
    requires x[n] - y[n] - borrow == after[n] - R * rest
    ensures Eval(R, after, n + 1) - rest * Pow(R, n + 1) == Eval(R, x, n + 1) - Eval(R, y, n + 1)
  {
    EvalAgree(R, before, after, n);
    CarryStep(R, before, n, x[n] - y[n], -borrow, after[n], -rest, Eval(R, x, n) - Eval(R, y, n));
    Distribute(x[n], y[n], Pow(R, n));
  }

  lemma {:induction false} LessValue(s: seq<int>, bit: int)
    requires |s| == 10 && s[0] == 19 * bit && forall k :: 1 <= k < 10 ==> s[k] == 0
    ensures Eval(R, s, 10) == 19 * bit
  {
    hide Eval, Pow;
    var zeros := s[0 := 0];
    EvalZero(R, zeros, 10);
    EvalUpdate(R, zeros, s, 10, 0, 19 * bit);
    PowTop(R, 0);
  }

  lemma {:induction false} SubValue(d: int, v: int, top: int)
    requires -F.P < d < F.P && 0 <= v < TWO255
    requires v + top * TWO255 == if d < 0 then d + TWO260 - 19 else d
    ensures v == F.Rep(d) && v < F.P
  {
    if d < 0 {
      assert top == 31;
      DivModUnique(d, F.P, -1, d + F.P);
    } else {
      assert top == 0;
      DivModUnique(d, F.P, 0, d);
    }
  }

  lemma {:induction false} XorInt32(mask: int, a: int, b: int)
    requires (mask == 0 || mask == -1) && 0 <= a < R && 0 <= b < R
    ensures -R <= And(mask, Xor(a, b)) < R
  {
    assert Pow(2, 26) == R by { Pow2_26(); }
    XorRange(a, b, 26);
  }

  lemma {:induction false} Pow2_26()
    ensures Pow(2, 26) == R
  {
    assert Pow(2, 1) == 2;
    assert Pow(2, 2) == 4;
    PowAdd(2, 2, 2);
    PowAdd(2, 4, 4);
    PowAdd(2, 8, 8);
    PowAdd(2, 16, 8);
    PowAdd(2, 24, 2);
  }

  /** The eleven limbs of a24 * x split at bit 255. */
  lemma {:induction false} ShortSplit(t: seq<int>, x: int) returns (low: int, high: int)
    requires |t| == 20 && forall k :: 0 <= k < 11 ==> 0 <= t[k] < R
    requires 0 <= x < F.P && Eval(R, t, 10) + t[10] * Pow(R, 10) == F.A24 * x
    ensures SplitsAt255(t, 1, low, high)
    ensures high < Pow(R, 1) && low + 19 * high < TWO260
    ensures low + TWO255 * high == F.A24 * x
  {
    hide Eval, Pow;
    Powers();
    var s := t[..10];
    EvalAgree(R, t, s, 10);
    TopSplit(s, s[9 := s[9] % TOP]);
    EvalTop(R, t[10..], 0);
    EvalStart(R, t[10..]);
    low, high := Eval(R, t, 10) - t[9] / TOP * TWO255, t[9] / TOP + 32 * t[10];
    assert Pow(R, 1) == R by { PowTop(R, 0); }
  }

  lemma {:induction false} ReducedProduct(x: int, y: int)
    requires 0 <= x < F.P && 0 <= y < F.P
    ensures 0 <= x * y <= F.P * F.P
  {
    MulMono(x, y, F.P);
    MulMono(F.P, x, F.P);
    MulMono(x, 0, y);
  }

  /** A product of reduced numbers leaves no carry and splits at bit 255. */
  lemma {:induction false} ProductSplit(t: seq<int>, carry: int, x: int, y: int) returns (low: int, high: int)
    requires |t| == 20 && forall k :: 0 <= k < 20 ==> 0 <= t[k] < R
    requires 0 <= x < F.P && 0 <= y < F.P && carry >= 0
    requires Eval(R, t, 20) + carry * Pow(R, 20) == x * y
    ensures SplitsAt255(t, 10, low, high)
    ensures high < Pow(R, 10) && low + 19 * high < TWO260
    ensures low + TWO255 * high == x * y
  {
    hide Eval, Pow;
    ReducedProduct(x, y);
    Powers();
    PowAdd(R, 10, 10);
    EvalBound(R, t, 20);
    NoCarryOut(Eval(R, t, 20), carry, x * y, Pow(R, 20));
    EvalDrop(R, t, 10, 10);
    var s := t[..10];
    EvalAgree(R, t, s, 10);
    TopSplit(s, s[9 := s[9] % TOP]);
    low, high := Eval(R, t, 10) - t[9] / TOP * TWO255, t[9] / TOP + 32 * Eval(R, t[10..], 10);
  }

  lemma {:induction false} FoldStep(before: seq<int>, after: seq<int>, x0: seq<int>, h: seq<int>, n: nat,
                                    carry: int, limb: int, carry': int, limb': int, top: int)
    requires n < |before| == |after| && n < |x0| && n < |h|
    requires forall i :: 0 <= i < n ==> before[i] == after[i]
    requires Eval(R, before, n) + (carry + 19 * limb) * Pow(R, n) == Eval(R, x0, n) + 19 * (top + 32 * Eval(R, h, n))
    requires limb * Pow(R, n) <= top + 32 * Eval(R, h, n)
    requires limb' == (limb + 32 * h[n]) / R
    requires after[n] + R * carry' == carry + 19 * ((limb + 32 * h[n]) % R) + x0[n]
    ensures Eval(R, after, n + 1) + (carry' + 19 * limb') * Pow(R, n + 1)
         == Eval(R, x0, n + 1) + 19 * (top + 32 * Eval(R, h, n + 1))
    ensures limb' * Pow(R, n + 1) <= top + 32 * Eval(R, h, n + 1)
  {
    var w := Pow(R, n);
    PowPos(R, n);
    EvalAgree(R, before, after, n);
    CarryStep(R, before, n, x0[n] + 608 * h[n], carry + 19 * limb, after[n], carry' + 19 * limb',
              Eval(R, x0, n) + 19 * (top + 32 * Eval(R, h, n)));
    assert (x0[n] + 608 * h[n]) * w == x0[n] * w + 608 * (h[n] * w) by {
      Distribute(x0[n], 608 * h[n], w);
    }
    assert limb' * (R * w) <= limb * w + 32 * (h[n] * w) by {
      MulMono(w, R * limb', limb + 32 * h[n]);
      Distribute(limb, 32 * h[n], w);
    }
  }

  /** Both folds and the trial subtraction together are a reduction modulo p. */
  lemma {:induction false} ReduceValue(low: int, high: int, top: int, rest: int)
    requires low + 19 * high == rest + top * TWO255
    requires 0 <= rest < TWO255 && 0 <= top < 32
    ensures Quick(rest + top * 19) == F.Rep(low + TWO255 * high)
  {
    var v := rest + top * 19;
    assert low + TWO255 * high == v + F.P * (high + top);
    ModShift(v, high + top, F.P);
    QuickIsMod(v);
  }

  lemma {:induction false} QuickIsMod(v: int)
    requires 0 <= v < 2 * F.P
    ensures Quick(v) == v % F.P
  {
    if v < F.P {
      DivModUnique(v, F.P, 0, v);
      DivModUnique(v + 19, TWO255, 0, v + 19);
    } else {
      DivModUnique(v, F.P, 1, v - F.P);
      DivModUnique(v + 19, TWO255, 1, v + 19 - TWO255);
    }
  }

  /** The 10 + size limbs of x hold low + 2^255 * high. */
  ghost predicate SplitsAt255(x: seq<int>, size: nat, low: int, high: int)
    requires |x| == 20 && size <= 10
  {
    && Eval(R, x, 10) == low + (x[9] / TOP) * TWO255
    && 0 <= low < TWO255
    && high == x[9] / TOP + 32 * Eval(R, x[10..], size)
  }

  /** What one trial subtraction does to any value below 2^260. */
  function Quick(v: int): int
  {
    if (v + 19) / TWO255 % 2 == 1 then (v + 19) % TWO255 else v
  }

  lemma {:induction false} QuickTop(v: int, carry: int, top: int, low: int)
    requires low + top * TWO255 + carry * TWO260 == v + 19
    requires 0 <= low < TWO255
    ensures (v + 19) / TWO255 % 2 == top % 2
    ensures (v + 19) % TWO255 == low
  {
    DivModUnique(v + 19, TWO255, top + 32 * carry, low);
  }

  lemma {:induction false} MaskedPick(a: int, b: int, mask: int)
    requires mask == 0 || mask == -1
    ensures Or(And(a, Not(mask)), And(b, mask)) == if mask == 0 then a else b
  {
    AndConst(a);
    AndConst(b);
    AndConst(Not(a));
  }

  lemma {:induction false} ProductBound(a: int, b: int)
    requires 0 <= a < R && 0 <= b < R
    ensures 0 <= a * b <= ROW
  {
    MulMono(a, b, R);
    MulMono(a, 0, b);
  }

  /** A row appends v * y[j] at limb i + j. */
  lemma {:induction false} AppendStep(before: seq<int>, after: seq<int>, y: seq<int>, j: nat, v: int, i: nat, done: int)
    requires i + j < |before| == |after| && j < |y|
    requires forall k :: 0 <= k < i + j ==> before[k] == after[k]
    requires Eval(R, before, i + j) == done + v * Pow(R, i) * Eval(R, y, j)
    requires after[i + j] == v * y[j]
    ensures Eval(R, after, i + j + 1) == done + v * Pow(R, i) * Eval(R, y, j + 1)
  {
    EvalAgree(R, before, after, i + j);
    RowStep(v, y[j], i, j, Eval(R, y, j));
  }

  /** A row adds v * y[j] to limb i + j. */
  lemma {:induction false} UpdateStep(before: seq<int>, after: seq<int>, y: seq<int>, i: nat, j: nat, v: int, done: int)
    requires i + 9 <= |before| == |after| && j < 9 <= |y|
    requires forall k :: 0 <= k < i + 9 && k != i + j ==> before[k] == after[k]
    requires after[i + j] == before[i + j] + v * y[j]
    requires Eval(R, before, i + 9) == done + v * Pow(R, i) * Eval(R, y, j)
    ensures Eval(R, after, i + 9) == done + v * Pow(R, i) * Eval(R, y, j + 1)
  {
    EvalUpdate(R, before, after, i + 9, i + j, v * y[j]);
    RowStep(v, y[j], i, j, Eval(R, y, j));
  }

  lemma {:induction false} RowStep(v: int, y: int, i: nat, j: nat, low: int)
    ensures v * Pow(R, i) * low + (v * y) * Pow(R, i + j) == v * Pow(R, i) * (low + y * Pow(R, j))
  {
    PowAdd(R, i, j);
    var w, u := Pow(R, i), Pow(R, j);
    MulSwap(v, y, w, u);
    assert (v * w) * (low + y * u) == (v * w) * low + (v * w) * (y * u);
  }

  lemma {:induction false} RowEnd(x: int, v: int, w: int, y: int)
    ensures x * y + v * w * y == (x + v * w) * y
  {
  }

  lemma {:induction false} XorBits(a: int, b: int)
    requires 0 <= a <= 1 && 0 <= b <= 1
    ensures Xor(a, b) == if a == b then 0 else 1
  {
  }

  /** Bit b of the window is bit 8j + b of the clamped scalar. */
  lemma {:induction false} LadderBit(s: seq<int8>, j: nat, b: nat)
    requires j < |s| == 32 && b < 8 && (j == 31 ==> b <= 6)
    ensures BitAt(Window(s, j), b) == BitAt(K.Scalar(Unsigned(s)), 8 * j + b)
  {
    hide And, BitAt, Pow;
    var k := Unsigned(s);
    var u := s[j] / 256;
    K.BytePowers();
    BitLow(s[j], -u, 8, b);
    assert k[j] == s[j] + Pow(2, 8) * -u;
    K.BitOfBytes(K.Clamp(k), j, b);
    if j == 31 {
      BitOr(s[31], 0x40, b);
      BitOr(And(k[31], 127), 64, b);
      BitAnd(k[31], 127, b);
      OnesBit(7, b);
    } else if j == 0 {
      BitAnd(s[0], 0xF8, b);
      BitAnd(k[0], 248, b);
    }
  }

  lemma {:induction false} WindowRange(v: int8)
    ensures -0x80 <= Or(v, 0x40) < 0x80
    ensures 0 <= And(v, 0xF8) < 0x100
  {
    K.BytePowers();
    AndBound(Not(v), Not(0x40), 7);
    AndBound(v, 0xF8, 8);
  }

  /** Where byte i of the number starts inside the limbs. */
  lemma {:induction false} ByteStart(i: nat)
    ensures Pow(256, i) == Pow(R, i * 8 / 26) * Pow(2, i * 8 % 26)
  {
    hide Pow;
    var w, b := i * 8 / 26, i * 8 % 26;
    K.BytePowers();
    Pow2_26();
    PowMul(2, 8, i);
    PowMul(2, 26, w);
    assert 8 * i == 26 * w + b;
    PowAdd(2, 26 * w, b);
  }

  /** The limbs from w on are the quotient by R^w. */
  lemma {:induction false} LimbsFrom(x: seq<int>, w: nat)
    requires Small(x) && w < 10
    ensures Pow(R, w) > 0 && Eval(R, x, 10) / Pow(R, w) == x[w] + R * Eval(R, x[w + 1..], 9 - w)
  {
    hide Eval, Pow;
    PowPos(R, w);
    EvalBound(R, x, w);
    EvalDrop(R, x, w, 10 - w);
    EvalDrop(R, x[w..], 1, 9 - w);
    EvalTop(R, x[w..], 0);
    EvalStart(R, x[w..]);
    PowTop(R, 0);
    assert x[w..][1..] == x[w + 1..];
    DivModUnique(Eval(R, x, 10), Pow(R, w), x[w] + R * Eval(R, x[w + 1..], 9 - w), Eval(R, x, w));
  }

  /** Byte i starts inside limb w at bit b. */
  lemma {:induction false} ByteInLimbs(x: seq<int>, i: nat, w: nat, b: nat)
    requires Small(x) && i < 32 && w == i * 8 / 26 && b == i * 8 % 26
    ensures 0 <= ShiftRight(x[w], b) < Pow(2, 26 - b)
    ensures K.ByteAt(Eval(R, x, 10), i) == (ShiftRight(x[w], b) + Pow(2, 26 - b) * Eval(R, x[w + 1..], 9 - w)) % 256
  {
    hide Eval, Pow;
    ByteStart(i);
    PowPos(2, b);
    LimbsFrom(x, w);
    DivDiv(Eval(R, x, 10), Pow(R, w), Pow(2, b));
    HighBits(x[w], Eval(R, x[w + 1..], 9 - w), b);
  }

  lemma {:induction false} LowByte(a: int, rest: int, b: nat)
    requires b <= 18
    ensures (a + Pow(2, 26 - b) * rest) % 256 == a % 256
  {
    hide Pow;
    K.BytePowers();
    PowAdd(2, 8, 18 - b);
    var u := Pow(2, 18 - b);
    assert (256 * u) * rest == 256 * (u * rest);
    ModShift(a, u * rest, 256);
  }

  lemma {:induction false} SeamByte(a: int, next: int, rest: int, k: nat)
    requires k < 8 && 0 <= a < Pow(2, k)
    ensures (a + Pow(2, k) * (next + R * rest)) % 256 == Or(a, ShiftLeft(next, k)) % 256
  {
    hide Pow, And, ShiftLeft;
    SpillByte(a, next, k);
    var u := Pow(2, k);
    assert u * (next + R * rest) == u * next + 256 * (0x4_0000 * (u * rest)) by {
      assert u * (next + R * rest) == u * next + u * (R * rest);
      assert u * (R * rest) == R * (u * rest);
    }
    ModShift(a + u * next, 0x4_0000 * (u * rest), 256);
  }

  lemma {:induction false} PackByte(x: seq<int>, i: nat)
    requires Small(x) && i < 32
    ensures PackedByte(x, i) % 256 == K.ByteAt(Eval(R, x, 10), i)
  {
    hide Eval, Pow, And, ShiftLeft, ShiftRight, K.ByteAt;
    var w, b := i * 8 / 26, i * 8 % 26;
    ByteInLimbs(x, i, w, b);
    if b <= 18 {
      LowByte(ShiftRight(x[w], b), Eval(R, x[w + 1..], 9 - w), b);
    } else {
      LimbsTail(x, w);
      SeamByte(ShiftRight(x[w], b), x[w + 1], Eval(R, x[w + 2..], 8 - w), 26 - b);
    }
  }

  lemma {:induction false} HighBits(x: int, rest: int, b: nat)
    requires 0 <= x < R && b < 26
    ensures Pow(2, b) > 0 && (x + R * rest) / Pow(2, b) == x / Pow(2, b) + Pow(2, 26 - b) * rest
    ensures 0 <= x / Pow(2, b) < Pow(2, 26 - b)
  {
    hide Pow;
    Pow2_26();
    PowAdd(2, b, 26 - b);
    PowPos(2, b);
    var w, u := Pow(2, b), Pow(2, 26 - b);
    assert R * rest == w * (u * rest) by { assert w * u * rest == w * (u * rest); }
    DivShift(x, u * rest, w);
    var q := x / w;
    assert x == w * q + x % w;
    if q >= u { MulMono(w, u, q); }
    if q < 0 { MulMono(w, q, -1); }
  }

  /** A byte that straddles two limbs is the low byte of their overlap. */
  lemma {:induction false} SpillByte(a: int, b: int, k: nat)
    requires k < 8 && 0 <= a < Pow(2, k)
    ensures Or(a, ShiftLeft(b, k)) % 256 == (a + Pow(2, k) * b) % 256
  {
    hide And, Pow;
    var u := Pow(2, k);
    var q := (b * u + 0x8000_0000) / 0x1_0000_0000;
    PowAdd(2, k, 32 - k);
    Pow2_32();
    var c := Pow(2, 32 - k);
    assert ShiftLeft(b, k) == b * u - 0x1_0000_0000 * q;
    assert 0x1_0000_0000 * q == (c * q) * u by { assert u * c * q == (c * q) * u; }
    assert b * u - (c * q) * u == (b - c * q) * u by { Distribute(b, c * q, u); }
    OrDisjoint(a, b - c * q, k);
    ModShift(a + u * b, -0x100_0000 * q, 256);
  }

  lemma {:induction false} Pow2_32()
    ensures Pow(2, 32) == 0x1_0000_0000
  {
    Pow2_26();
    PowAdd(2, 26, 6);
    PowAdd(2, 2, 2);
    PowAdd(2, 4, 2);
    assert Pow(2, 2) == 4 by { assert Pow(2, 1) == 2; }
  }

  lemma {:induction false} LimbsTail(x: seq<int>, w: nat)
    requires Small(x) && w < 9
    ensures Eval(R, x[w + 1..], 9 - w) == x[w + 1] + R * Eval(R, x[w + 2..], 8 - w)
  {
    hide Eval, Pow;
    EvalDrop(R, x[w + 1..], 1, 8 - w);
    EvalTop(R, x[w + 1..], 0);
    EvalStart(R, x[w + 1..]);
    PowTop(R, 0);
    assert x[w + 1..][1..] == x[w + 2..];
  }

  lemma {:induction false} OrZero(a: int)
    ensures Or(0, a) == a
  {
  }

  lemma {:induction false} OrInt32(a: int32, b: int32)
    ensures -0x8000_0000 <= Or(a, b) < 0x8000_0000
  {
    Pow2_32();
    PowTop(2, 31);
    AndBound(Not(a), Not(b), 31);
  }

  /** Or-ing a shifted byte over free bits adds it, up to what the 32-bit shift drops. */
  lemma {:induction false} OrShifted(a: int, value: int, k: nat)
    requires k <= 24 && 0 <= a < Pow(2, k) && 0 <= value < 256
    ensures Or(a, ShiftLeft(value, k)) % R == (a + value * Pow(2, k)) % R
    ensures k <= 18 ==> Or(a, ShiftLeft(value, k)) == a + value * Pow(2, k)
  {
    hide And, Pow;
    var u, c := Pow(2, k), Pow(2, 32 - k);
    var q := (value * u + 0x8000_0000) / 0x1_0000_0000;
    PowAdd(2, k, 32 - k);
    Pow2_32();
    assert 0x1_0000_0000 * q == (c * q) * u by { assert u * c * q == (c * q) * u; }
    assert value * u - (c * q) * u == (value - c * q) * u by { Distribute(value, c * q, u); }
    OrDisjoint(a, value - c * q, k);
    assert ShiftLeft(value, k) == value * u + R * (-64 * q);
    ModShift(a + value * u, -64 * q, R);
    if k <= 18 {
      PowAdd(2, k, 18 - k);
      Pow2_26();
      K.BytePowers();
      PowAdd(2, 18, 8);
      PowPos(2, k);
      PowPos(2, 18 - k);
      MulMono(u, 1, Pow(2, 18 - k));
      MulMono(u, value, 255);
      MulMono(u, 0, value);
    }
  }

  lemma {:induction false} PlaceLow(x: seq<int>, value: int, i: nat, w: nat, b: nat)
    requires i < 32 && Filled(x, i) && 0 <= value < 256 && w == i * 8 / 26 && b == i * 8 % 26 && b <= 18
    ensures Filled(Placed(x, value, i), i + 1)
    ensures Eval(R, Placed(x, value, i), 10) == Eval(R, x, 10) + value * Pow(256, i)
  {
    hide Eval, Pow, And, ShiftLeft;
    var u := Pow(2, b);
    var out := x[w := x[w] + value * u];
    assert Placed(x, value, i) == out by { OrShifted(x[w], value, b); }
    EvalUpdate(R, x, out, 10, w, value * u);
    assert value * u * Pow(R, w) == value * Pow(256, i) by {
      ByteStart(i);
      assert value * u * Pow(R, w) == value * (Pow(R, w) * u);
    }
    LowFits(x[w], value, b);
    PowTop(2, 0);
  }

  lemma {:induction false} LowFits(a: int, value: int, b: nat)
    requires b <= 18 && 0 <= a < Pow(2, b) && 0 <= value < 256
    ensures 0 <= a + value * Pow(2, b) < Pow(2, b + 8) <= R
  {
    hide Pow;
    var u := Pow(2, b);
    K.BytePowers();
    PowAdd(2, 8, b);
    assert 0 <= value * u <= 255 * u by { MulMono(u, value, 255); MulMono(u, 0, value); }
    Pow2_26();
    PowAdd(2, b + 8, 18 - b);
    PowPos(2, 18 - b);
    MulMono(256 * u, 1, Pow(2, 18 - b));
  }

  lemma {:induction false} PlaceSeam(x: seq<int>, value: int, i: nat, w: nat, b: nat)
    requires i < 32 && Filled(x, i) && 0 <= value < 256 && w == i * 8 / 26 && b == i * 8 % 26 && b > 18
    ensures Filled(Placed(x, value, i), i + 1)
    ensures Eval(R, Placed(x, value, i), 10) == Eval(R, x, 10) + value * Pow(256, i)
  {
    hide Eval, Pow, And, ShiftLeft, ShiftRight;
    var u := Pow(2, b);
    var q, r := SeamSplit(x[w], value, b);
    var mid := x[w := x[w] + r * u];
    var out := mid[w + 1 := q];
    assert Placed(x, value, i) == out by {
      OrShifted(x[w], value, b);
      OrZero(q);
    }
    EvalUpdate(R, x, mid, 10, w, r * u);
    EvalUpdate(R, mid, out, 10, w + 1, q);
    assert r * u * Pow(R, w) + q * Pow(R, w + 1) == value * Pow(256, i) by {
      ByteStart(i);
      PowTop(R, w);
      SeamValue(value, q, r, u, Pow(R, w));
    }
    assert Filled(out, i + 1) by { SeamFilled(x, out, i, w, b); }
  }

  lemma {:induction false} SeamFilled(x: seq<int>, out: seq<int>, i: nat, w: nat, b: nat)
    requires i < 32 && Filled(x, i) && w == i * 8 / 26 && b == i * 8 % 26 && b > 18
    requires |out| == 10 && forall k :: 0 <= k < 10 && k != w && k != w + 1 ==> out[k] == x[k]
    requires 0 <= out[w] < R && 0 <= out[w + 1] < Pow(2, b - 18)
    ensures Filled(out, i + 1)
  {
    hide Pow;
    Pow2_26();
    PowAdd(2, b - 18, 44 - b);
    PowPos(2, b - 18);
    PowPos(2, 44 - b);
    MulMono(Pow(2, b - 18), 1, Pow(2, 44 - b));
  }

  lemma {:induction false} SeamValue(value: int, q: int, r: int, u: int, w: int)
    requires value * u == r * u + R * q
    ensures r * u * w + q * (R * w) == value * (w * u)
  {
    Distribute(r * u, R * q, w);
    assert (R * q) * w == q * (R * w);
    assert (value * u) * w == value * (w * u);
  }

  /** A byte across a seam: r stays below bit 26 and q moves on. */
  lemma {:induction false} SeamSplit(a: int, value: int, b: nat) returns (q: int, r: int)
    requires 18 < b <= 24 && 0 <= a < Pow(2, b) && 0 <= value < 256
    ensures q == ShiftRight(value, 26 - b) && 0 <= q < Pow(2, b - 18)
    ensures value * Pow(2, b) == r * Pow(2, b) + R * q
    ensures (a + value * Pow(2, b)) % R == a + r * Pow(2, b)
    ensures 0 <= a + r * Pow(2, b) < R
  {
    hide Pow;
    var u, c := Pow(2, b), Pow(2, 26 - b);
    PowPos(2, b);
    PowPos(2, 26 - b);
    assert u * c == R by { Pow2_26(); PowAdd(2, b, 26 - b); }
    q, r := value / c, value % c;
    SeamDiv(a, value, u, c);
    assert c * Pow(2, b - 18) == 256 by { K.BytePowers(); PowAdd(2, 26 - b, b - 18); }
    QuotientBelow(value, c, Pow(2, b - 18));
  }

  lemma {:induction false} QuotientBelow(v: int, c: int, m: int)
    requires c > 0 && 0 <= v < c * m
    ensures 0 <= v / c < m
  {
    var q := v / c;
    assert v == c * q + v % c;
    if q >= m { MulMono(c, m, q); }
    if q < 0 { MulMono(c, q, -1); }
  }

  lemma {:induction false} SeamDiv(a: int, value: int, u: int, c: int)
    requires 0 <= a < u && c > 0 && u * c == R
    ensures value * u == (value % c) * u + R * (value / c)
    ensures (a + value * u) % R == a + (value % c) * u
    ensures 0 <= a + (value % c) * u < R
  {
    var q, r := value / c, value % c;
    assert value * u == r * u + R * q by {
      assert value == c * q + r;
      Distribute(c * q, r, u);
      assert (c * q) * u == (u * c) * q;
    }
    assert 0 <= r * u <= R - u by {
      MulMono(u, r, c - 1);
      MulMono(u, 0, r);
      assert u * (c - 1) == u * c - u;
    }
    DivModUnique(a + value * u, R, q, a + r * u);
  }

  lemma {:induction false} PlaceByte(x: seq<int>, value: int, i: nat)
    requires i < 32 && Filled(x, i) && 0 <= value < 256
    ensures Filled(Placed(x, value, i), i + 1)
    ensures Eval(R, Placed(x, value, i), 10) == Eval(R, x, 10) + value * Pow(256, i)
    ensures -0x8000_0000 <= Or(x[i * 8 / 26], ShiftLeft(value, i * 8 % 26)) < 0x8000_0000
  {
    hide And, Placed;
    assert 0 <= x[i * 8 / 26] < R;
    OrInt32(x[i * 8 / 26], ShiftLeft(value, i * 8 % 26));
    if i * 8 % 26 <= 18 {
      PlaceLow(x, value, i, i * 8 / 26, i * 8 % 26);
    } else {
      PlaceSeam(x, value, i, i * 8 / 26, i * 8 % 26);
    }
  }

  lemma {:induction false} NumFrom(x: array<int32>)
    requires Small(x[..]) && Val(x) < F.P
    ensures IsNum(x)
  {
  }

  lemma {:induction false} KeyBound(s: seq<int8>)
    requires |s| == 32
    ensures 0 <= Eval(256, Unsigned(s), 32) < 2 * TWO255
  {
    hide Eval, Pow;
    EvalBound(256, Unsigned(s), 32);
    K.BytePowers();
    PowMul(2, 8, 32);
    F.TwoTo255();
    PowTop(2, 255);
  }

  /** Two trial subtractions reduce a 256-bit number exactly when it is below 2^256 - 19. */
  lemma {:induction false} QuickTwice(v: int)
    requires 0 <= v < 2 * TWO255
    ensures Quick(Quick(v)) == F.Rep(v) <==> v < 2 * TWO255 - 19
    ensures v >= 2 * TWO255 - 19 ==> Quick(Quick(v)) == v
  {
    if v < 2 * F.P {
      QuickIsMod(v);
      QuickIsMod(v % F.P);
    } else if v < 2 * TWO255 - 19 {
      DivModUnique(v + 19, TWO255, 1, v - F.P);
      QuickIsMod(v - F.P);
      ModShift(v, -1, F.P);
    } else {
      DivModUnique(v + 19, TWO255, 2, v + 19 - 2 * TWO255);
      DivModUnique(v, F.P, 2, v - 2 * F.P);
    }
  }
}
