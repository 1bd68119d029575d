/** The three programs that derive a public key agree. */
module Agreement {
  import opened Machine
  import JavaCurve25519
  import PortableCurve25519
  import Hacl64
  import K = Keys

  /** Every private key has one public key, byte for byte, in Curve25519.java, wireguard.c and curve25519-hacl64.h. */
  method PublicKeys(secret: seq<uint8>) returns (java: seq<uint8>, portable: seq<uint8>, hacl: seq<uint8>)
    requires |secret| == 32
    ensures java == portable == hacl == K.PublicKey(secret)
  {
    hide K.PublicKey;
    var bytes := new uint8[32](i requires 0 <= i < 32 => secret[i]);
    assert bytes[..] == secret;
    var a, b := new uint8[32](_ => 0), new uint8[32](_ => 0);
    PortableCurve25519.GeneratePublicKey(a, bytes);
    Hacl64.GeneratePublic(b, bytes);
    portable, hacl := a[..], b[..];

    var signed := new int8[32](i requires 0 <= i < 32 => Signed(secret[i]));
    assert JavaCurve25519.Unsigned(signed[..]) == secret;
    var c := new int8[32](_ => 0);
    JavaCurve25519.Curve25519.EvalPoint(c, 0, signed, null);
    java := JavaCurve25519.Unsigned(c[0..32]);
  }

  /** A byte as Java holds it. */
  function Signed(b: uint8): int8
  {
    if b < 0x80 then b else b - 0x100
  }
}
