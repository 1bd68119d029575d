/** Scaling the two points of a ladder state scales the result of every later step. */
module Projective {
  import opened Arith
  import opened Bits
  import opened Field
  import C = ScaleCertificate

  ghost predicate ScaledBy(s: State, t: State, m: int, l: int)
  {
    s == State(Mul(m, t.x2), Mul(m, t.z2), Mul(l, t.x3), Mul(l, t.z3))
  }

  lemma {:induction false} AddScale(m: int, x: int, z: int)
    ensures Add(Mul(m, x), Mul(m, z)) == Mul(m, Add(x, z))
  {
    hide Rep;
    AddRep(m * x, m * z);
    MulRep(m, x + z);
    MulRep(m, Add(x, z));
    RepTwice(x + z);
    assert m * (x + z) == m * x + m * z;
  }

  lemma {:induction false} SubScale(m: int, x: int, z: int)
    ensures Sub(Mul(m, x), Mul(m, z)) == Mul(m, Sub(x, z))
  {
    hide Rep;
    SubRep(m * x, m * z);
    MulRep(m, x - z);
    MulRep(m, Sub(x, z));
    RepTwice(x - z);
    assert m * (x - z) == m * x - m * z;
  }

  lemma {:induction false} MulScale(m: int, x: int, l: int, y: int)
    ensures Mul(Mul(m, x), Mul(l, y)) == Mul(Mul(m, l), Mul(x, y))
  {
    hide Mul;
    MulAssoc(m, x, Mul(l, y));
    MulAssoc(x, l, y);
    MulComm(x, l);
    MulAssoc(l, x, y);
    MulAssoc(m, l, Mul(x, y));
  }

  /** One step takes the scales (m, l) to (m^4, (l m)^2). */
  lemma {:induction false} StepScale(x1: int, s: State, t: State, m: int, l: int)
    requires ScaledBy(s, t, m, l)
    ensures var mm, lm := Mul(m, m), Mul(l, m);
            ScaledBy(Step(x1, s), Step(x1, t), Mul(mm, mm), Mul(lm, lm))
  {
    hide Add, Sub, Mul;
    var mm, lm := Mul(m, m), Mul(l, m);
    var a, b, c, d := Add(t.x2, t.z2), Sub(t.x2, t.z2), Add(t.x3, t.z3), Sub(t.x3, t.z3);
    AddScale(m, t.x2, t.z2);
    SubScale(m, t.x2, t.z2);
    AddScale(l, t.x3, t.z3);
    SubScale(l, t.x3, t.z3);
    var aa, bb, da, cb := Mul(a, a), Mul(b, b), Mul(d, a), Mul(c, b);
    MulScale(m, a, m, a);
    MulScale(m, b, m, b);
    MulScale(l, d, m, a);
    MulScale(l, c, m, b);
    DoubleScale(mm, aa, bb);
    AddScale(lm, da, cb);
    SubScale(lm, da, cb);
    var sum, diff := Add(da, cb), Sub(da, cb);
    MulScale(lm, sum, lm, sum);
    MulScale(lm, diff, lm, diff);
    MulAssoc(Mul(lm, lm), Mul(diff, diff), x1);
  }

  lemma {:induction false} DoubleScale(mm: int, aa: int, bb: int)
    ensures Mul(Mul(mm, aa), Mul(mm, bb)) == Mul(Mul(mm, mm), Mul(aa, bb))
    ensures var e, e' := Sub(aa, bb), Sub(Mul(mm, aa), Mul(mm, bb));
            Mul(Add(Mul(e', A24), Mul(mm, aa)), e') == Mul(Mul(mm, mm), Mul(Add(Mul(e, A24), aa), e))
  {
    hide Add, Sub, Mul;
    var e := Sub(aa, bb);
    MulScale(mm, aa, mm, bb);
    SubScale(mm, aa, bb);
    MulAssoc(mm, e, A24);
    AddScale(mm, Mul(e, A24), aa);
    MulScale(mm, Add(Mul(e, A24), aa), mm, e);
  }

  lemma {:induction false} RoundScale(bit: int, x1: int, s: State, t: State, a: nat, b: nat) returns (a': nat, b': nat)
    requires ScaledBy(s, t, Power(36, a), Power(36, b))
    ensures ScaledBy(Round(bit, x1, s), Round(bit, x1, t), Power(36, a'), Power(36, b'))
  {
    hide Step, Mul, Power;
    var c, d := if bit == 1 then b else a, if bit == 1 then a else b;
    StepScale(x1, SwapIf(bit, s), SwapIf(bit, t), Power(36, c), Power(36, d));
    PowerMul(36, c, c);
    PowerMul(36, c + c, c + c);
    PowerMul(36, d, c);
    PowerMul(36, d + c, d + c);
    var e, f := c + c + (c + c), d + c + (d + c);
    a', b' := if bit == 1 then f else e, if bit == 1 then e else f;
  }

  /** The extra bit 255, which clamping clears, only scales (9 : 1) to (324 : 36). */
  lemma {:induction false} FirstRound(s: nat)
    requires BitAt(s, 255) == 0
    ensures ScaledBy(LongLadder(9, s, 1), State(1, 0, 9, 1), Power(36, 0), Power(36, 1))
  {
    hide Pow, Power, BitAt, LongLadder, Step, Mul;
    FirstStep();
    SmallProducts();
    PowerOne(36);
    PowerZero();
    LongNext(9, s, 0);
    LongStart(9, s);
  }

  lemma {:induction false} PowerZero()
    ensures Power(36, 0) == 1
  {
  }

  lemma {:induction false} SmallProducts()
    ensures Mul(1, 1) == 1 && Mul(1, 0) == 0 && Mul(36, 9) == 324 && Mul(36, 1) == 36
    ensures Mul(8, 1) == 8 && Mul(10, 1) == 10 && Mul(18, 18) == 324 && Mul(0, A24) == 0 && Mul(4, 9) == 36
    ensures Mul(P - 2, P - 2) == 4
  {
  }

  lemma {:induction false} SmallSums()
    ensures Add(1, 0) == 1 && Sub(1, 0) == 1
  {
  }

  lemma {:induction false} SumsOfNine()
    ensures Add(9, 1) == 10 && Sub(9, 1) == 8
  {
  }

  lemma {:induction false} MoreSums()
    ensures Add(8, 10) == 18 && Add(0, 1) == 1
  {
  }

  lemma {:induction false} NoDifference()
    ensures Sub(1, 1) == 0
  {
  }

  lemma {:induction false} MinusTwo()
    ensures Sub(8, 10) == P - 2
  {
  }

  lemma {:induction false} FirstStep()
    ensures Step(9, State(1, 0, 9, 1)) == State(1, 0, 324, 36)
  {
    hide Add, Sub, Mul;
    SmallProducts();
    SmallSums();
    SumsOfNine();
    MoreSums();
    NoDifference();
    MinusTwo();
  }

  lemma {:induction false} LongScale(s: nat, n: nat) returns (a: nat, b: nat)
    requires BitAt(s, 255) == 0 && n <= 255
    ensures ScaledBy(LongLadder(9, s, n + 1), Ladder(9, s, n), Power(36, a), Power(36, b))
    decreases n
  {
    hide Ladder, LongLadder, Mul, Power, Step, BitAt;
    if n == 0 {
      FirstRound(s);
      LadderStart(9, s);
      a, b := 0, 1;
    } else {
      a, b := LongScale(s, n - 1);
      LongNext(9, s, n);
      LadderNext(9, s, n - 1);
      a, b := RoundScale(BitAt(s, 255 - n), 9, LongLadder(9, s, n), Ladder(9, s, n - 1), a, b);
    }
  }

  /** m * m^(p-2) = 1 for every power m of 36. */
  lemma {:induction false} ScaleCancels(a: nat)
    ensures Mul(Power(36, a), Inv(Power(36, a))) == 1
  {
    hide Power, Pow, Mul;
    var m := Power(36, a);
    PowerRange(36, a);
    PowerOne(m);
    PowerMul(m, 1, P - 2);
    PowerPower(36, a, P - 1);
    PowerPower(36, P - 1, a);
    C.FermatFor36();
    OnePower(a);
    assert a * (P - 1) == (P - 1) * a;
  }

  lemma {:induction false} PowerPower(b: int, e: nat, f: nat)
    ensures e * f >= 0 && Power(Power(b, e), f) == Power(b, e * f)
  {
    hide Pow;
    PowMul(b, e, f);
    RepTwice(Pow(b, e));
    CongPow(Rep(Pow(b, e)), Pow(b, e), f, P);
  }

  lemma {:induction false} OnePower(a: nat)
    ensures Power(1, a) == 1
  {
    PowOne(a);
  }

  /** (m x) * (m z)^(p-2) = x * z^(p-2) when m is a power of 36. */
  lemma {:induction false} QuotientScale(a: nat, x: int, z: int)
    requires 0 <= x < P
    ensures Mul(Mul(Power(36, a), x), Inv(Mul(Power(36, a), z))) == Mul(x, Inv(z))
  {
    var m := Power(36, a);
    InvMul(m, z);
    ScaleCancels(a);
    hide Mul, Power;
    MulScale(m, x, Inv(m), Inv(z));
    MulRange(x, Inv(z));
    MulOne(Mul(x, Inv(z)));
  }

  lemma {:induction false} MulRange(a: int, b: int)
    ensures 0 <= Mul(a, b) < P
  {
  }

  lemma {:induction false} MulOne(a: int)
    requires 0 <= a < P
    ensures Mul(1, a) == a
  {
  }

  lemma {:induction false} InvMul(m: int, z: int)
    ensures Inv(Mul(m, z)) == Mul(Inv(m), Inv(z))
  {
    hide Pow;
    RepTwice(m * z);
    CongPow(Rep(m * z), m * z, P - 2, P);
    PowBase(m, z, P - 2);
    MulRep(Pow(m, P - 2), Pow(z, P - 2));
  }

  /** Starting one bit earlier gives the same quotient, for every clamped scalar. */
  lemma {:induction false} LongAgrees(s: nat)
    requires BitAt(s, 255) == 0
    ensures var st := LongLadder(9, s, 256); Mul(st.x2, Inv(st.z2)) == X25519(9, s)
  {
    var a, b := LongScale(s, 255);
    hide LongLadder, Mul, Power, Inv;
    var t := Ladder(9, s, 255);
    LadderRange(s, 255);
    QuotientScale(a, t.x2, t.z2);
  }

  lemma {:induction false} LadderRange(s: nat, n: nat)
    requires n <= 255
    ensures var t := Ladder(9, s, n); 0 <= t.x2 < P && 0 <= t.x3 < P
    decreases n
  {
    if n > 0 { LadderRange(s, n - 1); }
  }
}
