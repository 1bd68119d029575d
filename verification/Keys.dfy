/** What a public key is, byte for byte: sections 5 and 6.1 of RFC 7748. */
module Keys {
  import opened Arith
  import opened Bits
  import opened Limbs
  import opened Machine
  import F = Field

  type Key = k: seq<uint8> | |k| == 32 witness seq(32, i => 0)

  /** The scalar bytes with bits 0, 1, 2 and 255 cleared and bit 254 set. */
  function Clamp(k: Key): (c: Key)
  {
    ByteBits(k[0]);
    ByteBits(k[31]);
    k[0 := And(k[0], 248)][31 := Or(And(k[31], 127), 64)]
  }

  function Scalar(k: Key): (s: nat)
  {
    EvalBound(256, Clamp(k), 32);
    Eval(256, Clamp(k), 32)
  }

  function LittleEndian(v: int, n: nat): (b: seq<uint8>)
    ensures |b| == n
  {
    seq(n, i requires 0 <= i < n => ByteAt(v, i))
  }

  function ByteAt(v: int, i: nat): uint8
  {
    PowPos(256, i);
    v / Pow(256, i) % 256
  }

  lemma {:induction false} ByteDef(v: int, i: nat)
    ensures Pow(256, i) > 0 && ByteAt(v, i) == v / Pow(256, i) % 256
  {
    PowPos(256, i);
  }

  /** The public key of a private key: X25519 of the clamped scalar and the base point 9. */
  function PublicKey(k: Key): (b: Key)
  {
    LittleEndian(F.X25519(9, Scalar(k)), 32)
  }

  lemma {:induction false} ByteBits(b: int)
    requires 0 <= b < 256
    ensures 0 <= And(b, 248) < 256 && 0 <= Or(And(b, 127), 64) < 256
  {
    BytePowers();
    AndBound(b, 248, 8);
    AndMask(b, 7);
    AndBound(Not(b % 128), Not(64), 7);
  }

  lemma {:induction false} BytePowers()
    ensures Pow(2, 7) == 128 && Pow(2, 8) == 256
  {
    assert Pow(2, 1) == 2;
    assert Pow(2, 2) == 4;
    PowAdd(2, 2, 2);
    PowAdd(2, 4, 4);
    assert Pow(2, 8) == 2 * Pow(2, 7);
  }

  /** Bit 8j + b of a byte string is bit b of byte j. */
  lemma {:induction false} BitOfBytes(s: seq<int>, j: nat, b: nat)
    requires j < |s| && b < 8 && forall i :: 0 <= i < |s| ==> 0 <= s[i] < 256
    ensures BitAt(Eval(256, s, |s|), 8 * j + b) == BitAt(s[j], b)
  {
    hide Eval, Pow;
    BytePowers();
    var v, w, n := Eval(256, s, |s|), Pow(256, j), |s|;
    PowPos(256, j);
    EvalBound(256, s, j);
    EvalDrop(256, s, j, n - j);
    EvalDrop(256, s[j..], 1, n - j - 1);
    EvalTop(256, s[j..], 0);
    EvalStart(256, s[j..]);
    PowTop(256, 0);
    var rest := Eval(256, s[j..][1..], n - j - 1);
    DivModUnique(v, w, s[j] + 256 * rest, Eval(256, s, j));
    PowMul(2, 8, j);
    PowAdd(2, 8 * j, b);
    PowPos(2, b);
    DivDiv(v, w, Pow(2, b));
    BitLow(s[j], rest, 8, b);
  }

  lemma {:induction false} ScalarBit(k: Key, i: nat)
    requires i < 256
    ensures BitAt(Scalar(k), i) == BitAt(Clamp(k)[i / 8], i % 8)
  {
    hide BitAt, Clamp, Eval;
    BitOfBytes(Clamp(k), i / 8, i % 8);
  }

  lemma {:induction false} MaskBits(i: nat)
    requires i < 8
    ensures BitAt(248, i) == if i < 3 then 0 else 1
    ensures BitAt(127, i) == if i == 7 then 0 else 1
    ensures BitAt(64, i) == if i == 6 then 1 else 0
  {
    hide BitAt;
    if i == 0 {
      BitDef(248, 0);
      BitDef(127, 0);
      BitDef(64, 0);
    } else {
      Halves(248, i);
      Halves(127, i);
      Halves(64, i);
      hide Pow;
    }
  }

  /** Bit i of a byte, by halving it. */
  lemma {:induction false} Halves(n: nat, i: nat)
    requires 0 < i < 8
    ensures BitAt(n, i) == match i
                           case 1 => n / 2 % 2
                           case 2 => n / 4 % 2
                           case 3 => n / 8 % 2
                           case 4 => n / 16 % 2
                           case 5 => n / 32 % 2
                           case 6 => n / 64 % 2
                           case _ => n / 128 % 2
    decreases i
  {
    BitShift(n, i - 1);
    if i == 1 { BitDef(n / 2, 0); } else { Halves(n / 2, i - 1); }
    hide BitAt, Pow;
  }

  /** The bits of the scalar: those of the key, but bits 0, 1, 2 and 255 are clear and bit 254 is set. */
  lemma {:induction false} ScalarBits(k: Key, i: nat)
    requires i < 256
    ensures BitAt(Scalar(k), i) ==
            if i < 3 || i == 255 then 0 else if i == 254 then 1 else BitAt(k[i / 8], i % 8)
  {
    hide And, BitAt, Scalar;
    ScalarBit(k, i);
    MaskBits(i % 8);
    BitAnd(k[0], 248, i % 8);
    BitAnd(k[31], 127, i % 8);
    BitOr(And(k[31], 127), 64, i % 8);
  }
}
