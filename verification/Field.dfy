/** The field of integers modulo 2^255 - 19 and the Montgomery ladder of section 5 of RFC 7748. */
module Field {
  import opened Arith
  import opened Bits

  const P: int := 0x7FFFFFFF_FFFFFFFF_FFFFFFFF_FFFFFFFF_FFFFFFFF_FFFFFFFF_FFFFFFFF_FFFFFFED
  const A24: int := 121665

  function Rep(v: int): (r: int)
    ensures 0 <= r < P
  {
    v % P
  }

  function Add(a: int, b: int): int { Rep(a + b) }
  function Sub(a: int, b: int): int { Rep(a - b) }
  function Mul(a: int, b: int): int { Rep(a * b) }

  /** x^(p-2), which is how every implementation here inverts. */
  function Inv(a: int): int { Power(a, P - 2) }

  lemma {:induction false} RepShift(v: int, k: int)
    ensures Rep(v + P * k) == Rep(v)
  {
    ModShift(v, k, P);
  }

  lemma {:induction false} RepSmall(v: int)
    requires 0 <= v < P
    ensures Rep(v) == v
  {
  }

  lemma {:induction false} AddRep(a: int, b: int)
    ensures Rep(a + b) == Add(Rep(a), Rep(b))
  {
    CongAdd(a, Rep(a), b, Rep(b), P);
  }

  lemma {:induction false} SubRep(a: int, b: int)
    ensures Rep(a - b) == Sub(Rep(a), Rep(b))
  {
    CongSub(a, Rep(a), b, Rep(b), P);
  }

  lemma {:induction false} MulRep(a: int, b: int)
    ensures Rep(a * b) == Mul(Rep(a), Rep(b))
  {
    CongMul(a, Rep(a), b, Rep(b), P);
  }

  lemma {:induction false} TwoTo255()
    ensures Pow(2, 255) == P + 19 && 32 * Pow(2, 250) == P + 19
  {
    hide Pow;
    PowTop(2, 0);
    PowAdd(2, 1, 1);
    PowAdd(2, 2, 2);
    PowAdd(2, 4, 4);
    PowAdd(2, 8, 8);
    PowAdd(2, 16, 16);
    PowAdd(2, 32, 32);
    PowAdd(2, 64, 64);
    PowAdd(2, 128, 64);
    PowAdd(2, 192, 32);
    PowAdd(2, 224, 16);
    PowAdd(2, 240, 8);
    PowAdd(2, 248, 4);
    PowAdd(2, 252, 2);
    PowAdd(2, 254, 1);
    PowAdd(2, 250, 4);
  }

  lemma {:induction false} MulComm(a: int, b: int)
    ensures Mul(a, b) == Mul(b, a)
  {
    assert a * b == b * a;
  }

  lemma {:induction false} AddComm(a: int, b: int)
    ensures Add(a, b) == Add(b, a)
  {
  }

  lemma {:induction false} SquareNeg(a: int, b: int)
    ensures Mul(Sub(a, b), Sub(a, b)) == Mul(Sub(b, a), Sub(b, a))
  {
    MulRep(a - b, a - b);
    MulRep(b - a, b - a);
    assert (a - b) * (a - b) == (b - a) * (b - a);
  }

  function Power(a: int, e: nat): int { Rep(Pow(a, e)) }

  lemma {:induction false} PowerOne(a: int)
    requires 0 <= a < P
    ensures Power(a, 1) == a
  {
    PowTop(a, 0);
  }

  lemma {:induction false} PowerMul(a: int, e: nat, f: nat)
    ensures Mul(Power(a, e), Power(a, f)) == Power(a, e + f)
  {
    PowAdd(a, e, f);
    MulRep(Pow(a, e), Pow(a, f));
  }

  datatype State = State(x2: int, z2: int, x3: int, z3: int)

  function SwapIf(bit: int, s: State): State
  {
    if bit == 1 then State(s.x3, s.z3, s.x2, s.z2) else s
  }

  /** One differential add-and-double. */
  function Step(x1: int, s: State): State
  {
    var a := Add(s.x2, s.z2);
    var aa := Mul(a, a);
    var b := Sub(s.x2, s.z2);
    var bb := Mul(b, b);
    var e := Sub(aa, bb);
    var c := Add(s.x3, s.z3);
    var d := Sub(s.x3, s.z3);
    var da := Mul(d, a);
    var cb := Mul(c, b);
    var sum := Add(da, cb);
    var diff := Sub(da, cb);
    State(Mul(aa, bb), Mul(Add(Mul(e, A24), aa), e), Mul(sum, sum), Mul(Mul(diff, diff), x1))
  }

  /**
   What a step computes, by the formulas for the curve y^2 = x^3 + 486662 x^2 + x: the first point is doubled,
   and the second becomes the sum of both, whose difference has the coordinate x1.
   */
  lemma {:induction false} StepIs(x1: int, x: int, z: int, u: int, w: int)
    ensures var s := Step(x1, State(x, z, u, w));
            && s.x2 == Rep((x * x - z * z) * (x * x - z * z))
            && s.z2 == Rep(4 * x * z * (x * x + 486662 * x * z + z * z))
            && s.x3 == Rep(4 * (x * u - z * w) * (x * u - z * w))
            && s.z3 == Rep(4 * x1 * (x * w - z * u) * (x * w - z * u))
  {
    DoubleIs(x, z);
    SumIs(x1, x, z, u, w);
    hide Rep;
  }

  lemma {:induction false} DoubleIs(x: int, z: int)
    ensures var a, b := Add(x, z), Sub(x, z);
            var e := Sub(Mul(a, a), Mul(b, b));
            && Mul(Mul(a, a), Mul(b, b)) == Rep((x * x - z * z) * (x * x - z * z))
            && Mul(Add(Mul(e, A24), Mul(a, a)), e) == Rep(4 * x * z * (x * x + 486662 * x * z + z * z))
  {
    hide Rep;
    var m, n, e, v := Square(x + z), Square(x - z), 4 * x * z, x * x + 486662 * x * z + z * z;
    DoubleTerms(x, z);
    MulRep(x + z, x + z);
    MulRep(x - z, x - z);
    DoubleLift(m, n, e, v);
  }

  function Square(a: int): int { a * a }

  lemma {:induction false} DoubleTerms(x: int, z: int)
    ensures var m, n, e := Square(x + z), Square(x - z), 4 * x * z;
            && m * n == (x * x - z * z) * (x * x - z * z)
            && m - n == e
            && e * A24 + m == x * x + 486662 * x * z + z * z
  {
    SquareSum(x, z);
    SquareSum(x, -z);
    MulSwap(x + z, x + z, x - z, x - z);
    Difference(x, z);
    hide Square;
  }

  lemma {:induction false} SquareSum(x: int, z: int)
    ensures Square(x + z) == x * x + 2 * (x * z) + z * z
  {
  }

  lemma {:induction false} Difference(x: int, z: int)
    ensures (x + z) * (x - z) == x * x - z * z
  {
  }

  lemma {:induction false} DoubleLift(m: int, n: int, e: int, v: int)
    requires m - n == e && e * A24 + m == v
    ensures Sub(Rep(m), Rep(n)) == Rep(e) && Mul(Rep(m), Rep(n)) == Rep(m * n)
    ensures Mul(Add(Mul(Rep(e), A24), Rep(m)), Rep(e)) == Rep(e * v)
  {
    RepSmall(A24);
    hide Rep;
    MulRep(m, n);
    SubRep(m, n);
    MulRep(e, A24);
    AddRep(e * A24, m);
    MulRep(v, e);
    assert v * e == e * v;
  }

  lemma {:induction false} SumIs(x1: int, x: int, z: int, u: int, w: int)
    ensures var da, cb := Mul(Sub(u, w), Add(x, z)), Mul(Add(u, w), Sub(x, z));
            && Mul(Add(da, cb), Add(da, cb)) == Rep(4 * (x * u - z * w) * (x * u - z * w))
            && Mul(Mul(Sub(da, cb), Sub(da, cb)), x1) == Rep(4 * x1 * (x * w - z * u) * (x * w - z * u))
  {
    hide Rep;
    var p, q := x * u - z * w, x * w - z * u;
    Products(x, z, u, w);
    MulRep(u - w, x + z);
    MulRep(u + w, x - z);
    SumLift(x1, p, q);
  }

  lemma {:induction false} Products(x: int, z: int, u: int, w: int)
    ensures (u - w) * (x + z) == (x * u - z * w) - (x * w - z * u)
    ensures (u + w) * (x - z) == (x * u - z * w) + (x * w - z * u)
  {
  }

  lemma {:induction false} SumLift(x1: int, p: int, q: int)
    ensures var sum, diff := Add(Rep(p - q), Rep(p + q)), Sub(Rep(p - q), Rep(p + q));
            Mul(sum, sum) == Rep(4 * p * p) && Mul(Mul(diff, diff), x1) == Rep(4 * x1 * q * q)
  {
    hide Rep;
    AddRep(p - q, p + q);
    SubRep(p - q, p + q);
    MulRep(2 * p, 2 * p);
    MulRep(-2 * q, -2 * q);
    assert 2 * p * (2 * p) == 4 * p * p && -2 * q * (-2 * q) == 4 * q * q;
    var k := 4 * q * q;
    MulRep(k, x1);
    MulRep(Rep(k), x1);
    RepTwice(k);
    Pull(x1, q);
  }

  lemma {:induction false} Pull(c: int, q: int)
    ensures 4 * q * q * c == 4 * c * q * q
  {
    assert 4 * q * q * c == 4 * (c * q) * q;
  }

  /** The ladder after bits 254 down to 255 - n of the scalar. */
  function Ladder(x1: int, s: nat, n: nat): State
    requires n <= 255
  {
    if n == 0 then State(1, 0, x1, 1)
    else
      var b := BitAt(s, 255 - n);
      SwapIf(b, Step(x1, SwapIf(b, Ladder(x1, s, n - 1))))
  }

  function X25519(x1: int, s: nat): (r: int)
    ensures 0 <= r < P
  {
    var st := Ladder(x1, s, 255);
    Mul(st.x2, Inv(st.z2))
  }

  lemma {:induction false} LadderStart(x1: int, s: nat)
    ensures Ladder(x1, s, 0) == State(1, 0, x1, 1)
  {
  }

  lemma {:induction false} LadderNext(x1: int, s: nat, n: nat)
    requires n < 255
    ensures var b := BitAt(s, 254 - n);
            Ladder(x1, s, n + 1) == SwapIf(b, Step(x1, SwapIf(b, Ladder(x1, s, n))))
  {
  }

  /** One bit of the ladder: swap, step, swap back. */
  function Round(bit: int, x1: int, s: State): State
  {
    SwapIf(bit, Step(x1, SwapIf(bit, s)))
  }

  /** The ladder started one bit earlier, at bit 255. */
  function LongLadder(x1: int, s: nat, n: nat): State
    requires n <= 256
  {
    if n == 0 then State(1, 0, x1, 1) else Round(BitAt(s, 256 - n), x1, LongLadder(x1, s, n - 1))
  }

  lemma {:induction false} LongNext(x1: int, s: nat, n: nat)
    requires n < 256
    ensures LongLadder(x1, s, n + 1) == Round(BitAt(s, 255 - n), x1, LongLadder(x1, s, n))
  {
  }

  lemma {:induction false} LongStart(x1: int, s: nat)
    ensures LongLadder(x1, s, 0) == State(1, 0, x1, 1)
  {
  }

  lemma {:induction false} PowerRange(a: int, e: nat)
    ensures 0 <= Power(a, e) < P
  {
  }

  lemma {:induction false} MulAssoc(a: int, b: int, c: int)
    ensures Mul(Mul(a, b), c) == Mul(a, Mul(b, c))
  {
    hide Rep;
    MulRep(a * b, c);
    MulRep(Mul(a, b), c);
    RepTwice(a * b);
    MulRep(a, b * c);
    MulRep(a, Mul(b, c));
    RepTwice(b * c);
    assert a * b * c == a * (b * c);
  }

  lemma {:induction false} RepTwice(v: int)
    ensures Rep(Rep(v)) == Rep(v)
  {
    RepSmall(Rep(v));
  }

  /** A factor that is undone by c may be cancelled. */
  lemma {:induction false} CancelScale(y: int, k: int, c: int)
    requires 0 <= y < P && Mul(y, k) == k && Mul(k, c) == 1
    ensures y == 1
  {
    MulAssoc(y, k, c);
    RepSmall(y);
  }
}
