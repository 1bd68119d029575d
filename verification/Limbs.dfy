/** Numbers held as little-endian limbs, which need not be normalised. */
module Limbs {
  import opened Arith

  /** The value of the first n limbs in radix r. */
  function Eval(r: int, s: seq<int>, n: nat): int
    requires n <= |s|
    decreases n
  {
    if n == 0 then 0 else Eval(r, s, n - 1) + s[n - 1] * Pow(r, n - 1)
  }

  lemma {:induction false} EvalAgree(r: int, s: seq<int>, t: seq<int>, n: nat)
    requires n <= |s| && n <= |t|
    requires forall i :: 0 <= i < n ==> s[i] == t[i]
    ensures Eval(r, s, n) == Eval(r, t, n)
    decreases n
  {
    if n > 0 { EvalAgree(r, s, t, n - 1); }
  }

  lemma {:induction false} EvalAgreeFrom(r: int, s: seq<int>, t: seq<int>, k: nat, n: nat)
    requires k <= n <= |s| && n <= |t|
    requires forall i :: k <= i < n ==> s[i] == t[i]
    ensures Eval(r, s, n) - Eval(r, s, k) == Eval(r, t, n) - Eval(r, t, k)
    decreases n
  {
    if k < n { EvalAgreeFrom(r, s, t, k, n - 1); }
  }

  lemma {:induction false} EvalUpdate(r: int, s: seq<int>, t: seq<int>, n: nat, k: nat, d: int)
    requires k < n <= |s| && |t| == |s|
    requires forall i :: 0 <= i < n && i != k ==> s[i] == t[i]
    requires t[k] == s[k] + d
    ensures Eval(r, t, n) == Eval(r, s, n) + d * Pow(r, k)
    decreases n
  {
    if k == n - 1 {
      EvalAgree(r, s, t, k);
      Distribute(s[k], d, Pow(r, k));
    } else {
      EvalUpdate(r, s, t, n - 1, k, d);
    }
  }

  lemma {:induction false} Distribute(a: int, b: int, w: int)
    ensures (a - b) * w == a * w - b * w
    ensures (a + b) * w == a * w + b * w
  {
  }

  lemma {:induction false} EvalBound(r: int, s: seq<int>, n: nat)
    requires r > 0 && n <= |s|
    requires forall i :: 0 <= i < n ==> 0 <= s[i] < r
    ensures 0 <= Eval(r, s, n) < Pow(r, n)
    decreases n
  {
    if n > 0 {
      EvalBound(r, s, n - 1);
      var w := Pow(r, n - 1);
      MulMono(w, s[n - 1], r - 1);
      MulMono(w, 0, s[n - 1]);
      assert w * (r - 1) == r * w - w;
      assert s[n - 1] * w == w * s[n - 1];
    }
  }

  lemma {:induction false} EvalZero(r: int, s: seq<int>, n: nat)
    requires n <= |s|
    requires forall i :: 0 <= i < n ==> s[i] == 0
    ensures Eval(r, s, n) == 0
    decreases n
  {
    if n > 0 { EvalZero(r, s, n - 1); }
  }

  /** One step of a carry chain: a limb keeps the low part and hands the rest up. */
  lemma {:induction false} CarryStep(r: int, s: seq<int>, n: nat, input: int, carry: int, out: int, rest: int,
                                     total: int)
    requires n <= |s|
    requires Eval(r, s, n) + carry * Pow(r, n) == total
    requires input + carry == out + r * rest
    ensures Eval(r, s, n) + out * Pow(r, n) + rest * Pow(r, n + 1) == total + input * Pow(r, n)
  {
    var w := Pow(r, n);
    assert (input + carry) * w == input * w + carry * w;
    assert (out + r * rest) * w == out * w + rest * (r * w) by {
      Distribute(out, r * rest, w);
      assert (r * rest) * w == rest * (r * w);
    }
  }

  /** A carry out of a number that fits its limbs is zero. */
  lemma {:induction false} NoCarryOut(v: int, carry: int, total: int, w: int)
    requires w > 0 && carry >= 0 && v >= 0 && v + carry * w == total && total < w
    ensures carry == 0
  {
    if carry >= 1 { MulMono(w, 1, carry); }
  }

  lemma {:induction false} EvalStart(r: int, s: seq<int>)
    ensures Eval(r, s, 0) == 0 && Pow(r, 0) == 1
  {
  }

  lemma {:induction false} EvalTop(r: int, s: seq<int>, n: nat)
    requires n < |s|
    ensures Eval(r, s, n + 1) == Eval(r, s, n) + s[n] * Pow(r, n)
  {
  }

  /** One step of a carry chain over the limbs of inp, seen from a loop. */
  lemma {:induction false} ChainStep(r: int, before: seq<int>, after: seq<int>, inp: seq<int>, n: nat,
                                     carry: int, rest: int, base: int)
    requires n < |inp| && n < |before| == |after|
    requires forall i :: 0 <= i < n ==> before[i] == after[i]
    requires Eval(r, before, n) + carry * Pow(r, n) == base + Eval(r, inp, n)
    requires inp[n] + carry == after[n] + r * rest
    ensures Eval(r, after, n + 1) + rest * Pow(r, n + 1) == base + Eval(r, inp, n + 1)
  {
    EvalAgree(r, before, after, n);
    CarryStep(r, before, n, inp[n], carry, after[n], rest, base + Eval(r, inp, n));
  }

  lemma {:induction false} EvalDrop(r: int, s: seq<int>, k: nat, m: nat)
    requires k + m <= |s|
    ensures Eval(r, s, k + m) == Eval(r, s, k) + Pow(r, k) * Eval(r, s[k..], m)
    decreases m
  {
    if m > 0 {
      EvalDrop(r, s, k, m - 1);
      PowAdd(r, k, m - 1);
      var w, u, low, d := Pow(r, k), Pow(r, m - 1), Eval(r, s[k..], m - 1), s[k + m - 1];
      DropStep(w, u, low, d);
    }
  }

  lemma {:induction false} DropStep(w: int, u: int, low: int, d: int)
    ensures w * (low + d * u) == w * low + d * (w * u)
  {
    calc {
      w * (low + d * u);
      w * low + w * (d * u);
      w * low + (w * d) * u;
      w * low + d * (w * u);
    }
  }

  /** Digits cut from a number add up to its remainder. */
  lemma {:induction false} EvalDigits(r: int, s: seq<int>, v: int, n: nat)
    requires r > 0 && n <= |s|
    requires forall i :: 0 <= i < n ==> Pow(r, i) > 0 && s[i] == v / Pow(r, i) % r
    ensures Pow(r, n) > 0 && Eval(r, s, n) == v % Pow(r, n)
    decreases n
  {
    if n == 0 {
      assert v % 1 == 0;
    } else {
      EvalDigits(r, s, v, n - 1);
      hide Eval, Pow;
      EvalTop(r, s, n - 1);
      PowTop(r, n - 1);
      PowPos(r, n);
      SplitRemainder(v, Pow(r, n - 1), r);
    }
  }

  lemma {:induction false} SplitRemainder(v: int, w: int, r: int)
    requires w > 0 && r > 0
    ensures r * w > 0 && v % (r * w) == v % w + v / w % r * w
  {
    var q, d := v / w / r, v / w % r;
    assert v == (r * w) * q + (v % w + d * w) by {
      assert v == w * (v / w) + v % w;
      assert w * (r * q + d) == (r * w) * q + d * w by {
        assert w * (r * q + d) == w * (r * q) + w * d;
        assert w * (r * q) == (r * w) * q;
      }
    }
    assert 0 <= v % w + d * w < r * w by {
      MulMono(w, 0, d);
      MulMono(w, d, r - 1);
      assert w * (r - 1) == r * w - w;
    }
    DivModUnique(v, r * w, q, v % w + d * w);
  }

  /** Moving the excess of limb i into limb i + 1 keeps the value. */
  lemma {:induction false} MoveUp(r: int, s: seq<int>, t: seq<int>, n: nat, i: nat, c: int)
    requires |s| == |t| == n && i + 1 < n
    requires forall k :: 0 <= k < n && k != i && k != i + 1 ==> t[k] == s[k]
    requires t[i] == s[i] - r * c && t[i + 1] == s[i + 1] + c
    ensures Eval(r, t, n) == Eval(r, s, n)
  {
    hide Eval, Pow;
    var m := s[i := t[i]];
    EvalUpdate(r, s, m, n, i, -r * c);
    EvalUpdate(r, m, t, n, i + 1, c);
    PowTop(r, i);
    Cancel(r, c, Pow(r, i));
  }

  lemma {:induction false} Cancel(r: int, c: int, w: int)
    ensures (-r * c) * w + c * (r * w) == 0
  {
    assert (r * c) * w == c * (r * w);
  }
}
