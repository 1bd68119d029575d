# Verified models of AmneziaWG for Android

This project models, in Dafny, the parts of the AmneziaWG Android application and its tools whose
correctness is hardest to see, and proves what they promise. Nothing in it is executed; the
verifier is the only judge.

**Public keys.** Three programs derive a public key from a private key: `Curve25519.java` on ten
26-bit `int` limbs with a delayed-swap ladder, `wireguard.c` on sixteen signed 16-bit limbs, and
`curve25519-hacl64.h` on five 51-bit limbs with 128-bit accumulators and a 256-step ladder. Each is
modelled as the loops over arrays that it is, with every store checked against its machine type,
and each is proved equal to one specification (`Keys.PublicKey`, section 5 of RFC 7748): so they
agree byte for byte. `Field.StepIs` and `Keys.ScalarBits` say in closed form what its steps compute. Inversion is the power p-2; no primality and no group law is used. The
256-step ladder starts on a zero bit and scales its coordinates by 36, which is shown to cancel.

**Device configuration.** `Netlink` is the attribute writer and reader on bytes. `Wireguard` gives
devices their attribute form and `Receiver` the receiver that `uapi/linux/linux/wireguard.h`
documents. `SetDevice` is the message loop of `kernel_set_device` with its two cursors, from the
device down to the bytes of every message, and `Wire` writes these bytes out with the numbers of
wireguard.h. `GetDevice` and `Coalesce` are the way back: parsers,
and the in-place merge of linked lists. `SyncConf` turns a file into a change.

**Backends.** `AwgQuick` and `GoTunnel` are the two tunnel backends, with every external step free
to fail.

**Transformers and codecs.** `ElfCleaner`, `Base64`, `Highlighter` and `SetUsers`.

`Arith`, `Bits`, `Limbs`, `Field`, `Keys`, `Machine` and `Wrappers` hold what these share. A mask
of k ones is written as `% 2^k` and a shift right as `/ 2^k`, which rounds down; `Bits.AndMask`
justifies both.

Where code and documentation disagree the code is modelled:

- Two trial subtractions do not eliminate all values up to 2^256-1: the top 19 stay
  (`JavaCurve25519.QuickTwice`).
- `Key.fromBase64` is documented to refuse malformed strings, but takes some characters above 255
  for digits, U+022B for one (`Base64.JavaStray`). `Base64.JavaRight` says which, and
  `Base64.JavaAcceptsRight` for which strings acceptance is wrong.
- `coalesce_peers` follows a null pointer on lists with an empty continuation between others of
  one run; the exact condition is `Coalesce.SafeInput`, and fragments that this program sends always
  meet it.
- `parse_peers` lets a refused allowed IP through: the peer stays, with its allowed IPs up to and
  with the refused one (`GetDevice.PeerParsed`).
- `sync_conf` removes a shared key that the runtime lists twice (`SyncConf.SyncRemoves`,
  `SyncConf.DoubledKey`). The removal never changes which peers or allowed IPs result, because the
  file's peers are applied behind it (`SyncConf.SyncedApplies`). A dump that lists the fragments of
  each peer together, as wireguard.h describes, has no key twice after coalescing
  (`Coalesce.JoinedDistinct`); a dump that does not can have one.
- `set_users` leaves uid 99999 uncovered when 99998 is the largest excluded uid
  (`SetUsers.RangesExact`, `SetUsers.LastUidMissed`).
- Continuation fragments repeat REMOVE_ME, HAS_AWG and AWG beside key and allowed IPs, which
  wireguard.h does not mention; `Receiver.Resume` shows that this changes nothing.

Some long functions of the sources are modelled by several methods, one per loop or phase; the row
of the caller names the whole range.

## Model

| member | source | states |
|---|---|---|
| `Agreement.PublicKeys` | tunnel/src/main/java/org/amnezia/awg/crypto/Curve25519.java:101-159 | for every 32-byte private key, eval with a null public key, wg_generate_public_key and curve25519_generate_public write the same 32 bytes, the canonical little-endian form of X2 * Z2^(p-2) mod p for the clamped scalar |
| `Field.StepIs` | tunnel/src/main/java/org/amnezia/awg/crypto/Curve25519.java:233-273 | what one step of the ladder computes, for all coordinates and without the constant 121665: x2 = (x^2-z^2)^2, z2 = 4xz(x^2 + 486662xz + z^2), x3 = 4(xu-zw)^2, z3 = 4 x1 (xw-zu)^2 mod p, i.e. doubling and differential addition on the curve with coefficient 486662 |
| `Keys.ScalarBits` | tunnel/tools/amneziawg-tools/contrib/embeddable-wg-library/wireguard.c:1693-1697 | every bit of the scalar is the key's, except that bits 0, 1, 2 and 255 are clear and bit 254 is set |
| `JavaCurve25519.Curve25519.Propagate` | tunnel/src/main/java/org/amnezia/awg/crypto/Curve25519.java:450-454 | a carry pass leaves 26-bit limbs and one carry; limbs plus carry have the value of the input, also when output and input are one array |
| `JavaCurve25519.Curve25519.CutTop` | tunnel/src/main/java/org/amnezia/awg/crypto/Curve25519.java:423-424 | splits the top limb at bit 21, i.e. the number at bit 255 |
| `JavaCurve25519.Curve25519.Select` | tunnel/src/main/java/org/amnezia/awg/crypto/Curve25519.java:486-488 | the masks pick one of two limb arrays, whole |
| `JavaCurve25519.Curve25519.ReduceQuick` | tunnel/src/main/java/org/amnezia/awg/crypto/Curve25519.java:468-489 | one trial subtraction of 2^255-19 on any ten 26-bit limbs: exactly Quick of the value, including where that is not the residue |
| `JavaCurve25519.QuickIsMod` | tunnel/src/main/java/org/amnezia/awg/crypto/Curve25519.java:462-468 | below 2p one trial subtraction is the residue |
| `JavaCurve25519.QuickTwice` | tunnel/src/main/java/org/amnezia/awg/crypto/Curve25519.java:122-126 | on 256-bit numbers two trial subtractions give the residue if and only if the number is below 2^256-19; the top 19 values are left unchanged, against the comment that values up to 2^256-1 are eliminated |
| `JavaCurve25519.Curve25519.FoldLoop` | tunnel/src/main/java/org/amnezia/awg/crypto/Curve25519.java:425-431 | adds 19 times the high half, shifted by five bits, limb by limb; every int stays in range, with limb + (x << 5) reaching up to 2^31-1 |
| `JavaCurve25519.Curve25519.FoldRest` | tunnel/src/main/java/org/amnezia/awg/crypto/Curve25519.java:432-440 | carries through the remaining low limbs of a short product |
| `JavaCurve25519.Curve25519.FoldHigh` | tunnel/src/main/java/org/amnezia/awg/crypto/Curve25519.java:418-440 | the low limbs become low + 19 * high, no carry is lost |
| `JavaCurve25519.Curve25519.FoldTop` | tunnel/src/main/java/org/amnezia/awg/crypto/Curve25519.java:448-454 | folds the five top bits once more |
| `JavaCurve25519.Curve25519.Reduce` | tunnel/src/main/java/org/amnezia/awg/crypto/Curve25519.java:417-460 | the result is canonical and is the residue of the whole number, result may be any array but the scratch |
| `JavaCurve25519.ProductSplit` | tunnel/src/main/java/org/amnezia/awg/crypto/Curve25519.java:309-326 | the carry out of limb 19 of a product of reduced numbers is zero, and the halves meet what reduce needs |
| `JavaCurve25519.Curve25519.FirstRow` | tunnel/src/main/java/org/amnezia/awg/crypto/Curve25519.java:305-308 | the first row of the product, in range of long |
| `JavaCurve25519.Curve25519.AddRow` | tunnel/src/main/java/org/amnezia/awg/crypto/Curve25519.java:309-315 | row i of the product is added with all limbs below ten full products |
| `JavaCurve25519.Curve25519.MulRows` | tunnel/src/main/java/org/amnezia/awg/crypto/Curve25519.java:303-315 | the 19 product limbs have the value x * y; limb 19 is never written |
| `JavaCurve25519.Curve25519.MulCarry` | tunnel/src/main/java/org/amnezia/awg/crypto/Curve25519.java:317-323 | the product in 26-bit limbs plus the carry that is dropped |
| `JavaCurve25519.Curve25519.Product` | tunnel/src/main/java/org/amnezia/awg/crypto/Curve25519.java:303-323 | the 20 limbs are exactly x * y, split at bit 255 |
| `JavaCurve25519.Curve25519.Mul` | tunnel/src/main/java/org/amnezia/awg/crypto/Curve25519.java:303-327 | canonical in, canonical out: the product mod p, result may alias either input, no int or long overflows |
| `JavaCurve25519.Curve25519.Square` | tunnel/src/main/java/org/amnezia/awg/crypto/Curve25519.java:497-499 | the square mod p |
| `JavaCurve25519.Curve25519.MulA24` | tunnel/src/main/java/org/amnezia/awg/crypto/Curve25519.java:335-345 | 121665 times x mod p |
| `JavaCurve25519.Curve25519.AddLoop` | tunnel/src/main/java/org/amnezia/awg/crypto/Curve25519.java:200-206 | limbwise sum with carries |
| `JavaCurve25519.Curve25519.Add` | tunnel/src/main/java/org/amnezia/awg/crypto/Curve25519.java:200-208 | the sum mod p, canonical |
| `JavaCurve25519.Curve25519.SubLoop` | tunnel/src/main/java/org/amnezia/awg/crypto/Curve25519.java:172-177 | limbwise difference and the borrow |
| `JavaCurve25519.Curve25519.Sub19` | tunnel/src/main/java/org/amnezia/awg/crypto/Curve25519.java:184-190 | a conditional subtraction of 19 and the cut at bit 255 |
| `JavaCurve25519.Curve25519.Sub` | tunnel/src/main/java/org/amnezia/awg/crypto/Curve25519.java:168-191 | the difference mod p, canonical |
| `JavaCurve25519.Curve25519.CSwap` | tunnel/src/main/java/org/amnezia/awg/crypto/Curve25519.java:83-90 | swaps two limb arrays exactly when select is 1, through xor masks |
| `JavaCurve25519.Curve25519.TenSquares` | tunnel/src/main/java/org/amnezia/awg/crypto/Curve25519.java:369-372 | squarings double the exponent |
| `JavaCurve25519.Curve25519.Pow250` | tunnel/src/main/java/org/amnezia/awg/crypto/Curve25519.java:353-383 | the argument to the power 2^250-1 |
| `JavaCurve25519.Curve25519.Recip` | tunnel/src/main/java/org/amnezia/awg/crypto/Curve25519.java:391-407 | the argument to the power 2^255-21 |
| `JavaCurve25519.RecipChain` | tunnel/src/main/java/org/amnezia/awg/crypto/Curve25519.java:391-407 | the last five bits of the exponent are 01011 |
| `JavaCurve25519.Curve25519.LadderStep` | tunnel/src/main/java/org/amnezia/awg/crypto/Curve25519.java:255-273 | one step of section 5 of RFC 7748 on the four coordinates, whatever arrays are reused |
| `JavaCurve25519.Curve25519.SwapPoints` | tunnel/src/main/java/org/amnezia/awg/crypto/Curve25519.java:250-253 | swaps the two points on the delayed condition |
| `JavaCurve25519.LadderBit` | tunnel/src/main/java/org/amnezia/awg/crypto/Curve25519.java:239-286 | the bit read from a sign-extended byte is the bit of the clamped scalar |
| `JavaCurve25519.Curve25519.EvalCurve` | tunnel/src/main/java/org/amnezia/awg/crypto/Curve25519.java:238-294 | the delayed-swap loop over bits 254 to 0 ends in the state of the simple ladder on the clamped scalar |
| `JavaCurve25519.Curve25519.UnpackPublicKey` | tunnel/src/main/java/org/amnezia/awg/crypto/Curve25519.java:107-126 | every 32-byte public key becomes the two-fold trial subtraction of its little-endian value |
| `JavaCurve25519.Curve25519.PackBytes` | tunnel/src/main/java/org/amnezia/awg/crypto/Curve25519.java:146-154 | the 32 little-endian bytes of the canonical value; nothing else in the buffer changes |
| `JavaCurve25519.Curve25519.EvalPoint` | tunnel/src/main/java/org/amnezia/awg/crypto/Curve25519.java:101-159 | the whole of eval: little-endian X25519 of the clamped key and the point; with null the public key |
| `PortableCurve25519.Carry` | tunnel/tools/amneziawg-tools/contrib/embeddable-wg-library/wireguard.c:1587-1595 | one carry pass is exact: the quotient by 2^256 comes back 38-fold into limb 0, the other limbs are normal, the residue is kept |
| `PortableCurve25519.SecondCarry` | tunnel/tools/amneziawg-tools/contrib/embeddable-wg-library/wireguard.c:1671-1672 | after two passes every limb is within [-38, 2^16+38) |
| `PortableCurve25519.TwoCarries` | tunnel/tools/amneziawg-tools/contrib/embeddable-wg-library/wireguard.c:1671-1672 | two passes keep the residue and give carried limbs |
| `PortableCurve25519.ThirdCarry` | tunnel/tools/amneziawg-tools/contrib/embeddable-wg-library/wireguard.c:1618-1621 | a third pass gives sixteen normal limbs, i.e. a number below 2^256 |
| `PortableCurve25519.ThreeCarries` | tunnel/tools/amneziawg-tools/contrib/embeddable-wg-library/wireguard.c:1618-1621 | the three passes of pack |
| `PortableCurve25519.AddRow` | tunnel/tools/amneziawg-tools/contrib/embeddable-wg-library/wireguard.c:1664-1667 | one row of the product without int64 overflow |
| `PortableCurve25519.Product` | tunnel/tools/amneziawg-tools/contrib/embeddable-wg-library/wireguard.c:1659-1667 | 31 limbs with the value a * b |
| `PortableCurve25519.Fold` | tunnel/tools/amneziawg-tools/contrib/embeddable-wg-library/wireguard.c:1668-1670 | 38 times the high limbs go to the low ones; the residue is kept |
| `PortableCurve25519.MultMod` | tunnel/tools/amneziawg-tools/contrib/embeddable-wg-library/wireguard.c:1659-1675 | multiplication mod p on loose limbs, carried result, output may alias inputs |
| `PortableCurve25519.Add` | tunnel/tools/amneziawg-tools/contrib/embeddable-wg-library/wireguard.c:1643-1649 | sum mod p, loose limbs |
| `PortableCurve25519.Subtract` | tunnel/tools/amneziawg-tools/contrib/embeddable-wg-library/wireguard.c:1651-1657 | difference mod p, loose limbs |
| `PortableCurve25519.CSwap` | tunnel/tools/amneziawg-tools/contrib/embeddable-wg-library/wireguard.c:1597-1611 | swaps exactly when the bit is 1 |
| `PortableCurve25519.Invert` | tunnel/tools/amneziawg-tools/contrib/embeddable-wg-library/wireguard.c:1677-1691 | the argument to the power 2^255-21, by the exponent after every round |
| `PortableCurve25519.TrialSubtract` | tunnel/tools/amneziawg-tools/contrib/embeddable-wg-library/wireguard.c:1622-1632 | subtracts p from a normal number and reports whether it was below p |
| `PortableCurve25519.Pack` | tunnel/tools/amneziawg-tools/contrib/embeddable-wg-library/wireguard.c:1613-1641 | the 32 bytes of the unique representative below p |
| `PortableCurve25519.LadderStep` | tunnel/tools/amneziawg-tools/contrib/embeddable-wg-library/wireguard.c:1712-1729 | one step of section 5 of RFC 7748 on six buffers |
| `PortableCurve25519.SwapPoints` | tunnel/tools/amneziawg-tools/contrib/embeddable-wg-library/wireguard.c:1710-1711 | swaps both coordinates on one bit |
| `PortableCurve25519.LadderBit` | tunnel/tools/amneziawg-tools/contrib/embeddable-wg-library/wireguard.c:1710-1731 | swap, step, swap back is the branch on the bit |
| `PortableCurve25519.Ladder` | tunnel/tools/amneziawg-tools/contrib/embeddable-wg-library/wireguard.c:1708-1732 | the counting loop is the simple ladder over bits 254 to 0; carried limbs at every iteration |
| `PortableCurve25519.ClampKey` | tunnel/tools/amneziawg-tools/contrib/embeddable-wg-library/wireguard.c:1693-1697 | clamping |
| `PortableCurve25519.GeneratePublicKey` | tunnel/tools/amneziawg-tools/contrib/embeddable-wg-library/wireguard.c:1699-1745 | the public key of the private key |
| `Hacl64.SumScalarMultiplication` | tunnel/tools/amneziawg-tools/src/curve25519-hacl64.h:73-81 | one row of the product in u128 accumulators without overflow |
| `Hacl64.ShiftReduce` | tunnel/tools/amneziawg-tools/src/curve25519-hacl64.h:124-151 | multiplying by 2^51 mod p by rotating the limbs; 19 times the top limb fits u64 |
| `Hacl64.MulShiftReduce` | tunnel/tools/amneziawg-tools/src/curve25519-hacl64.h:153-181 | five rows and four shifts are the product mod p, with the bound of every accumulator |
| `Hacl64.CarryWide` | tunnel/tools/amneziawg-tools/src/curve25519-hacl64.h:83-122 | carries of 128-bit limbs, value kept |
| `Hacl64.FoldTop` | tunnel/tools/amneziawg-tools/src/curve25519-hacl64.h:198-204 | 19 times the carry out of limb 4 stays inside u64 and the residue is kept |
| `Hacl64.FMul` | tunnel/tools/amneziawg-tools/src/curve25519-hacl64.h:183-212 | product mod p; limbs below 2^51+2^13; no truncation to u64 loses a bit |
| `Hacl64.SquareColumns` | tunnel/tools/amneziawg-tools/src/curve25519-hacl64.h:214-241 | the five columns of a square |
| `Hacl64.FSquare` | tunnel/tools/amneziawg-tools/src/curve25519-hacl64.h:243-268 | square mod p, same bounds |
| `Hacl64.FSquareTimes` | tunnel/tools/amneziawg-tools/src/curve25519-hacl64.h:270-292 | count squarings double the exponent count times |
| `Hacl64.CRecip` | tunnel/tools/amneziawg-tools/src/curve25519-hacl64.h:294-336 | the argument to the power 2^255-21 |
| `Hacl64.FSum` | tunnel/tools/amneziawg-tools/src/curve25519-hacl64.h:338-345 | sum mod p |
| `Hacl64.FDifference` | tunnel/tools/amneziawg-tools/src/curve25519-hacl64.h:347-391 | b - a mod p without unsigned underflow |
| `Hacl64.FScalar` | tunnel/tools/amneziawg-tools/src/curve25519-hacl64.h:393-428 | 121665 times b mod p |
| `Hacl64.SwapConditional` | tunnel/tools/amneziawg-tools/src/curve25519-hacl64.h:440-467 | swaps exactly when the bit is 1 |
| `Hacl64.AddAndDouble` | tunnel/tools/amneziawg-tools/src/curve25519-hacl64.h:475-539 | one step of section 5 of RFC 7748; tight limbs in, tight limbs out |
| `Hacl64.SmallLoopDoubleStep` | tunnel/tools/amneziawg-tools/src/curve25519-hacl64.h:553-561 | two bits of the window |
| `Hacl64.SmallLoop` | tunnel/tools/amneziawg-tools/src/curve25519-hacl64.h:563-572 | one byte of the scalar is eight rounds of the ladder |
| `Hacl64.BigLoop` | tunnel/tools/amneziawg-tools/src/curve25519-hacl64.h:574-584 | 32 bytes are the 256-bit ladder |
| `Projective.LongAgrees` | tunnel/tools/amneziawg-tools/src/curve25519-hacl64.h:574-597 | the 256-bit ladder that starts with the zero top bit gives the quotient of the 255-bit ladder for every clamped scalar, although its coordinates are scaled |
| `ScaleCertificate.FermatFor36` | tunnel/tools/amneziawg-tools/src/curve25519-hacl64.h:586-597 | 36^(p-1) = 1 mod p, the scale that the extra step brings in |
| `Hacl64.EqMask` | tunnel/tools/amneziawg-tools/src/curve25519-hacl64.h:15-23 | all ones exactly for equal words |
| `Hacl64.GteMask` | tunnel/tools/amneziawg-tools/src/curve25519-hacl64.h:25-37 | all ones exactly for a >= b |
| `Hacl64.CarryPass` | tunnel/tools/amneziawg-tools/src/curve25519-hacl64.h:623-643 | a pass over the limbs keeps the value |
| `Hacl64.Contract` | tunnel/tools/amneziawg-tools/src/curve25519-hacl64.h:645-687 | 51-bit digits with the same residue |
| `Hacl64.Trim` | tunnel/tools/amneziawg-tools/src/curve25519-hacl64.h:689-712 | the conditional subtraction leaves the residue itself |
| `Hacl64.Store` | tunnel/tools/amneziawg-tools/src/curve25519-hacl64.h:714-733 | the 32 bytes of the digits |
| `Hacl64.FContract` | tunnel/tools/amneziawg-tools/src/curve25519-hacl64.h:735-741 | the 32 canonical bytes |
| `Hacl64.FExpand` | tunnel/tools/amneziawg-tools/src/curve25519-hacl64.h:599-621 | the 255-bit value of 32 bytes, top bit masked |
| `Hacl64.ScalarOfPoint` | tunnel/tools/amneziawg-tools/src/curve25519-hacl64.h:743-753 | the canonical bytes of X * Z^(p-2) |
| `Hacl64.Curve25519Generic` | tunnel/tools/amneziawg-tools/src/curve25519-hacl64.h:755-784 | the quotient of the 256-bit ladder for any base point |
| `Hacl64.GeneratePublic` | tunnel/tools/amneziawg-tools/src/curve25519.c:88-98 | the public key of the private key |
| `Netlink.ForEach` | tunnel/tools/amneziawg-tools/src/netlink.h:44-52 | the attribute loop ends and delivers the walk of the bytes, whatever they are |
| `Netlink.WalkEnc` | tunnel/tools/amneziawg-tools/src/netlink.h:254-276 | the walk of written attributes delivers exactly their types and payloads in order, and goes on behind them |
| `Netlink.TreeEnc` | tunnel/tools/amneziawg-tools/src/netlink.h:266-276 | walking nested payloads again rebuilds the written tree |
| `Netlink.ReadBack` | tunnel/tools/amneziawg-tools/src/netlink.h:254-388 | whatever sequence of puts, nest starts, ends and cancels built it, a message with no open nest reads back as what was written and not cancelled |
| `Netlink.Message.constructor` | tunnel/tools/amneziawg-tools/src/netlink.h:609-633 | an empty message behind its headers |
| `Netlink.Message.Put` | tunnel/tools/amneziawg-tools/src/netlink.h:305-319 | appends one leaf to the innermost open nest; length stays 4-aligned |
| `Netlink.Message.PutCheck` | tunnel/tools/amneziawg-tools/src/netlink.h:345-352 | appends exactly if header, payload and padding fit, else changes nothing |
| `Netlink.Message.NestStart` | tunnel/tools/amneziawg-tools/src/netlink.h:336-343 | opens a nest whose length field is not written |
| `Netlink.Message.NestEnd` | tunnel/tools/amneziawg-tools/src/netlink.h:380-383 | completes the innermost nest as an attribute of its parent |
| `Netlink.Message.NestCancel` | tunnel/tools/amneziawg-tools/src/netlink.h:385-388 | the message is byte for byte what it was before the nest was started |
| `Wireguard.IpRoundTrip` | tunnel/tools/amneziawg-tools/src/ipc-linux.h:283-298 | the attributes written for an allowed IP read back as that allowed IP, for any family |
| `Wireguard.PeerRoundTrip` | tunnel/tools/amneziawg-tools/src/ipc-linux.h:241-305 | the attributes written for a peer or a fragment read back as it, with or without the nest for allowed IPs |
| `Wireguard.DeviceRoundTrip` | tunnel/tools/amneziawg-tools/src/ipc-linux.h:185-308 | a message's device part and peer list read back as written |
| `Wire.IpWire` | tunnel/tools/amneziawg-tools/src/ipc-linux.h:283-298 | the bytes of an allowed IP on the wire, with the numbers of wireguard.h as literals: nest, family (type 1), address (type 2), prefix length (type 3) |
| `Wire.ScalarsWire` | tunnel/tools/amneziawg-tools/src/ipc-linux.h:244-275 | the bytes of a peer's attributes, in literals: key [36,0,1,0], preshared key [36,0,2,0], endpoint [20,0,4,0] or [32,0,4,0], keepalive [6,0,5,0], awg [4,0,11,0], flags [8,0,3,0] with bits 1, 2 and 8, all little-endian and padded |
| `Wire.PeerWire` | tunnel/tools/amneziawg-tools/src/ipc-linux.h:241-305 | a peer in its nest, with its allowed IPs in a nest of type 9 |
| `Wire.DeviceWire` | tunnel/tools/amneziawg-tools/src/ipc-linux.h:185-233 | the device part: name as type 2, every given setting under its attribute number in the order of the source, flags [8,0,5,0,1,0,0,0] |
| `Wire.MessageWire` | tunnel/tools/amneziawg-tools/src/ipc-linux.h:184-322 | every byte behind the headers of a message: the device part, and the peers in a nest of type 8 |
| `Wire.SentWire` | tunnel/tools/amneziawg-tools/src/ipc-linux.h:171-340 | the n-th message sent has exactly these bytes, for the peers between its two cursor positions |
| `Receiver.Resume` | tunnel/tools/amneziawg-tools/src/uapi/linux/linux/wireguard.h:121-129 | for the documented receiver a first fragment followed by a continuation equals the longer first fragment, in every state |
| `SetDevice.PutIp` | tunnel/tools/amneziawg-tools/src/ipc-linux.h:282-299 | an allowed IP is written whole or cancelled |
| `SetDevice.PutFirst` | tunnel/tools/amneziawg-tools/src/ipc-linux.h:248-266 | preshared key, endpoint and keepalive of a first fragment |
| `SetDevice.PutFlags` | tunnel/tools/amneziawg-tools/src/ipc-linux.h:267-275 | the unchecked put of the AWG flag is never the only one to be dropped: if it does not fit the flags do not either |
| `SetDevice.PutScalars` | tunnel/tools/amneziawg-tools/src/ipc-linux.h:244-275 | all scalars in a first fragment, key and repeated flags in a continuation, or too big |
| `SetDevice.PutIps` | tunnel/tools/amneziawg-tools/src/ipc-linux.h:276-302 | the allowed IPs from the cursor on, as many as fit; with room at least one |
| `SetDevice.PutPeer` | tunnel/tools/amneziawg-tools/src/ipc-linux.h:238-306 | one fragment of one peer, or the nest is cancelled and the message is as before |
| `SetDevice.PutPeers` | tunnel/tools/amneziawg-tools/src/ipc-linux.h:237-322 | the fragments of one message are the slice between two cursor positions; a message that starts inside a peer makes progress |
| `SetDevice.PutSettings` | tunnel/tools/amneziawg-tools/src/ipc-linux.h:188-233 | every flagged setting once, in the order of the source, then the flags |
| `SetDevice.BuildMessage` | tunnel/tools/amneziawg-tools/src/ipc-linux.h:184-322 | one message, within the buffer, encodes the device part and the slice of peers up to the returned cursor |
| `SetDevice.SliceApplies` | tunnel/tools/amneziawg-tools/src/ipc-linux.h:238-322 | receiving the fragments of a slice moves every receiver from its first cursor position to its last |
| `SetDevice.Delivered` | tunnel/tools/amneziawg-tools/src/ipc-linux.h:184-334 | receiving the messages so far leaves any configuration at the last cursor position |
| `SetDevice.KernelSetDevice` | tunnel/tools/amneziawg-tools/src/ipc-linux.h:171-340 | the message loop ends, every message fits, and from every configuration the receiver ends where the unsplit device would have brought it: scalars and REPLACE flags once, no allowed IP lost, doubled or reordered; if a message is not acknowledged the loop ends and the receiver stands at the cursor of the last one that was |
| `GetDevice.IpsParsed` | tunnel/tools/amneziawg-tools/src/ipc-linux.h:342-390 | parse_allowedips reads written allowed IPs back in order, as far as it hears them |
| `GetDevice.HeardIs` | tunnel/tools/amneziawg-tools/src/ipc-linux.h:368-390 | the parser keeps the allowed IPs of a fragment up to and with the first one it refuses, so all of them if and only if at most the last is bad |
| `GetDevice.GoodIpFits` | tunnel/tools/amneziawg-tools/src/ipc-linux.h:387-388 | the parser takes an allowed IP if and only if it has an address and the prefix length does not exceed its bits |
| `GetDevice.HeardFits` | tunnel/tools/amneziawg-tools/src/ipc-linux.h:368-390 | a fragment is heard whole if and only if all its prefix lengths fit their addresses, except perhaps the last |
| `GetDevice.IpReads` | tunnel/tools/amneziawg-tools/src/ipc-linux.h:342-366 | what parse_allowedip makes of any attributes, well-formed or not: the last one of each type that has the right size |
| `GetDevice.PeerReads` | tunnel/tools/amneziawg-tools/src/ipc-linux.h:392-464 | the same of parse_peer, up to the end of parsing: key, preshared key and whether one was not zero, endpoint, keepalive, and awg, whose attribute outweighs the flags in any order |
| `GetDevice.PeersRead` | tunnel/tools/amneziawg-tools/src/ipc-linux.h:466-488 | a list of peers is refused if and only if one of them has no key of the right size before its parsing ends |
| `GetDevice.FlagsParsed` | tunnel/tools/amneziawg-tools/src/ipc-linux.h:440-458 | HAS_AWG and AWG in the order in which they are sent give back the three-valued awg field |
| `GetDevice.PeerParsed` | tunnel/tools/amneziawg-tools/src/ipc-linux.h:392-464 | parse_peer reads every written fragment back, its allowed IPs up to and with the first bad one |
| `GetDevice.MessageParsed` | tunnel/tools/amneziawg-tools/src/ipc-linux.h:466-488 | the peers parsed from a message are its fragments; a refused allowed IP cuts its own fragment short and nothing else |
| `Coalesce.SetThenGet` | tunnel/tools/amneziawg-tools/src/ipc-linux.h:171-668 | parsing the messages of a device whose adjacent keys differ and coalescing restores its peer list if and only if no allowed IP whose prefix length exceeds its address stands in front of another one in its fragment; the list is always safe to merge |
| `Coalesce.Restored` | tunnel/tools/amneziawg-tools/src/ipc-linux.h:171-668 | every device whose prefix lengths do not exceed the bits of their addresses is read back as it was set, however it was cut into messages |
| `Coalesce.GoodDevice` | tunnel/tools/amneziawg-tools/src/ipc-linux.h:368-390 | where all prefix lengths fit that condition holds, wherever the messages were cut |
| `Coalesce.TranscriptRebuilds` | tunnel/tools/amneziawg-tools/src/ipc-linux.h:171-488 | the parsed list is the list of fragments, each as far as it is heard; after every message the fragments join to the peers up to the cursor |
| `Coalesce.MergeNext` | tunnel/tools/amneziawg-tools/src/ipc-linux.h:657-666 | the pointer updates of one merge, as an update of all fields; not ok exactly where last_allowedip is null behind a non-empty list |
| `Coalesce.Absorb` | tunnel/tools/amneziawg-tools/src/ipc-linux.h:657-666 | a merge keeps chains, last pointers and links of all other peers |
| `Coalesce.CoalescePeers` | tunnel/tools/amneziawg-tools/src/ipc-linux.h:648-668 | in place on the linked lists: the loop follows no null pointer if and only if the list is safe, and then the nodes are the joined list with every run's allowed IPs in one chain |
| `Coalesce.MergeDump` | tunnel/tools/amneziawg-tools/src/ipc-linux.h:648-668 | the whole way on the linked lists: the nodes made of a device's messages are merged without following a null pointer, all last pointers are right, and the list is the device's exactly under the condition of SetThenGet |
| `Coalesce.KeptLinks` | tunnel/tools/amneziawg-tools/src/ipc-linux.h:664-666 | every kept peer links to the next kept one, so nothing leads to a freed node |
| `Coalesce.NoGapSafe` | tunnel/tools/amneziawg-tools/src/ipc-linux.h:648-668 | where every continuation brings allowed IPs the list is safe and every last pointer is right |
| `Coalesce.SafeInput` | tunnel/tools/amneziawg-tools/src/ipc-linux.h:657-663 | the failure on the input: a list is safe if and only if no run goes on behind an empty continuation that follows allowed IPs |
| `Coalesce.UnsafeExample` | tunnel/tools/amneziawg-tools/src/ipc-linux.h:660-663 | an empty continuation followed by another one makes the code follow a null pointer |
| `Coalesce.JoinedKeeps` | tunnel/tools/amneziawg-tools/src/uapi/linux/linux/wireguard.h:56-65 | the joined list has no neighbours with one key and keeps every allowed IP, its owner and the order |
| `Coalesce.JoinedDistinct` | tunnel/tools/amneziawg-tools/src/ipc-linux.h:648-668 | a dump that lists the fragments of each peer together has every key once after coalescing |
| `SyncConf.CmpOrder` | tunnel/tools/amneziawg-tools/src/setconf.c:21-28 | pubkey_cmp is a total order: zero only on equal entries, antisymmetric, transitive |
| `SyncConf.Sync` | tunnel/tools/amneziawg-tools/src/setconf.c:30-99 | ok unless the query fails with peers in the file; the device it leaves |
| `SyncConf.RemovedExactly` | tunnel/tools/amneziawg-tools/src/setconf.c:77-95 | on a sorted array the loop emits a key if and only if it is in the runtime and either not in the file or twice in the runtime |
| `SyncConf.SyncRemoves` | tunnel/tools/amneziawg-tools/src/setconf.c:65-95 | a REMOVE entry for exactly the runtime keys absent from the file, plus the shared keys that the runtime lists twice |
| `SyncConf.DoubledKey` | tunnel/tools/amneziawg-tools/src/setconf.c:77-95 | a concrete shared key that is removed because the runtime lists it twice |
| `SyncConf.SyncedApplies` | tunnel/tools/amneziawg-tools/src/setconf.c:30-99 | for every file and every runtime, on all successful exits, the result has the effect of a full replacement on settings, peer keys and every peer's allowed IPs; the stray removals change nothing of that, because the file's peers follow them |
| `SyncConf.SyncedPeers` | tunnel/tools/amneziawg-tools/src/setconf.c:59-95 | the device that is sent: bare REMOVE entries in front, and behind them the file's peers, unchanged and in order |
| `SyncConf.SyncedScalars` | tunnel/tools/amneziawg-tools/src/setconf.c:30-99 | the scalars after a sync: for every peer of the file what the file gives, over what the interface had, or over nothing if the peer is new or was listed twice |
| `AwgQuick.Backend.BringUp` | tunnel/src/main/java/org/amnezia/awg/backend/AwgQuickBackend.java:272-302 | up: recorded and listed exactly if the command went through |
| `AwgQuick.Backend.TakeDown` | tunnel/src/main/java/org/amnezia/awg/backend/AwgQuickBackend.java:272-302 | down: removed exactly if the command went through |
| `AwgQuick.Backend.Rewind` | tunnel/src/main/java/org/amnezia/awg/backend/AwgQuickBackend.java:239-244 | brings up what is missing of the snapshot; complete if every step succeeds, never more than before |
| `AwgQuick.Backend.TakeAllDown` | tunnel/src/main/java/org/amnezia/awg/backend/AwgQuickBackend.java:231-247 | all running tunnels go down if and only if each is listed and each command goes through; else those already down are rewound |
| `AwgQuick.Backend.Replace` | tunnel/src/main/java/org/amnezia/awg/backend/AwgQuickBackend.java:248-265 | down and up with another config, if and only if both commands go through; the old config comes back if it was known |
| `AwgQuick.Backend.StartFromDown` | tunnel/src/main/java/org/amnezia/awg/backend/AwgQuickBackend.java:231-265 | from down: in single-tunnel mode the others go down first and come back on failure; when it succeeds, exactly |
| `AwgQuick.Backend.SetState` | tunnel/src/main/java/org/amnezia/awg/backend/AwgQuickBackend.java:219-270 | the result is the state asked for, and toggling a listed tunnel turns it over; nothing changes where there is nothing to do; for every case when it throws, exactly, and the new configs and interfaces when it does not; an exception leaves all as before if every rollback step succeeds and the config was known, never more than before, and with an unknown config exactly that interface is lost when only the second step fails |
| `GoTunnel.HandleTable.TurnOn` | tunnel/tools/libwg-go/api-android.go:133-147 | the smallest free handle, or -1 and nothing changed |
| `GoTunnel.HandleTable.TurnOff` | tunnel/tools/libwg-go/api-android.go:150-160 | removes the handle if there is one |
| `GoTunnel.Backend.BringUp` | tunnel/src/main/java/org/amnezia/awg/backend/GoBackend.java:244-325 | tunnel, config and handle are set together or not at all |
| `GoTunnel.Backend.TakeDown` | tunnel/src/main/java/org/amnezia/awg/backend/GoBackend.java:326-341 | they are unset together and the handle leaves the table |
| `GoTunnel.Backend.Switch` | tunnel/src/main/java/org/amnezia/awg/backend/GoBackend.java:226-237 | comes up if and only if there is a config and every step works; else the old tunnel is back if the second attempt works, and nothing is up otherwise |
| `GoTunnel.Backend.SetState` | tunnel/src/main/java/org/amnezia/awg/backend/GoBackend.java:220-242 | the tunnel and config that are up afterwards are the effect of the call, for every answer of the external steps; the result says whether this tunnel is up and is the state asked for; toggling turns it over |
| `GoTunnel.Backend.OnDestroy` | tunnel/src/main/java/org/amnezia/awg/backend/GoBackend.java:426-439 | an owned tunnel goes down with its handle |
| `GoTunnel.Backend.Run` | tunnel/src/main/java/org/amnezia/awg/backend/GoBackend.java:220-341 | over every sequence of calls with any failures the tunnel and config that are up are what the calls alone leave up, the table is exactly the current handle, the three fields agree, and each tunnel's last reported state is getState |
| `ElfCleaner.RemovableIs` | tunnel/tools/elf-cleaner/elf-cleaner.cpp:148-161 | which tags leave the table, by number: 0xf always, 0x1d below level 24, six tags of hashes and versions below 23, three of AArch64 below 31, no others |
| `ElfCleaner.MaskedIs` | tunnel/tools/elf-cleaner/elf-cleaner.cpp:171-187 | which flags stay, bit by bit: 0 and 1, and 3 from level 23 on; entries of other tags stay whole |
| `ElfCleaner.LastNonNull` | tunnel/tools/elf-cleaner/elf-cleaner.cpp:137-144 | everything behind the index is DT_NULL |
| `ElfCleaner.Remove` | tunnel/tools/elf-cleaner/elf-cleaner.cpp:162-170 | marks and swaps in range and keeps what should remain |
| `ElfCleaner.Mask` | tunnel/tools/elf-cleaner/elf-cleaner.cpp:171-187 | clears unsupported DF_1 flags only |
| `ElfCleaner.CleanSection` | tunnel/tools/elf-cleaner/elf-cleaner.cpp:137-188 | for every non-empty section the loop ends, no removable tag remains, the used entries are as a multiset exactly the kept ones with flags masked, and unused entries stay at the end if they were there |
| `Base64.Alphabet` | tunnel/tools/amneziawg-tools/src/encoding.c:11-22 | the digits are the positions in the alphabet of table 1 of RFC 4648, written out |
| `Base64.DecodeCharIs` | tunnel/tools/amneziawg-tools/src/encoding.c:39-46 | the branch-free sums of C and Java give the digit or -1 for every character below 256, signed or unsigned |
| `Base64.JavaDecodeCharIs` | tunnel/src/main/java/org/amnezia/awg/crypto/Key.java:47-56 | what the Java sum gives for every 16-bit character: above 255 the digit d of the low byte becomes (d+1) mod L - 1, where L is the largest power of two dividing the high byte |
| `Base64.JavaRight` | tunnel/src/main/java/org/amnezia/awg/crypto/Key.java:47-56 | the Java sum is right if and only if the character is no stray, i.e. not above 255 with a low byte of digit d and (d+1) mod L other than 0 |
| `Base64.JavaStray` | tunnel/src/main/java/org/amnezia/awg/crypto/Key.java:47-56 | a concrete stray: U+022B counts as A |
| `Base64.EncodeCharIs` | tunnel/tools/amneziawg-tools/src/encoding.c:11-22 | the branch-free sums give the character of a digit |
| `Base64.DecodeBase64` | tunnel/tools/amneziawg-tools/src/encoding.c:35-48 | the 24 bits of four characters as they are read, or a negative number, for every C char and every 16-bit Java char |
| `Base64.EncodeBase64` | tunnel/tools/amneziawg-tools/src/encoding.c:11-22 | the four characters of three bytes |
| `Base64.KeyToBase64` | tunnel/tools/amneziawg-tools/src/encoding.c:24-33 | the padded base64 form of section 4 of RFC 4648 and a NUL |
| `Base64.KeyFromBase64` | tunnel/tools/amneziawg-tools/src/encoding.c:50-72 | accepts a string if and only if it is the encoding of some key, and returns that key, so padding bits are canonical (section 3.5 of RFC 4648) |
| `Base64.ToBase64` | tunnel/src/main/java/org/amnezia/awg/crypto/Key.java:240-253 | the same form from Java |
| `Base64.FromBase64` | tunnel/src/main/java/org/amnezia/awg/crypto/Key.java:92-120 | for every Java string: accepted if and only if 43 characters are digits or strays, the last with two zero bits, and the padding follows; the key is the one whose encoding the string is read as |
| `Base64.JavaAccepts` | tunnel/src/main/java/org/amnezia/awg/crypto/Key.java:85-120 | a string is the encoding of a key if and only if Java accepts it and it holds no stray |
| `Base64.JavaAcceptsRight` | tunnel/src/main/java/org/amnezia/awg/crypto/Key.java:85-120 | acceptance is right for a string if and only if it holds no stray or fails for another reason |
| `Base64.WellFormedCanonical` | tunnel/tools/amneziawg-tools/src/encoding.c:50-72 | the encodings of keys are exactly the strings of 43 digits, the last with two zero bits, and one padding character |
| `Base64.EncodedDetermines` | tunnel/tools/amneziawg-tools/src/encoding.c:24-72 | different keys have different encodings |
| `SetUsers.RangesCover` | tunnel/tools/amneziawg-tools/src/wg-quick/android.c:806-824 | the ranges are ascending and disjoint and cover exactly the uids below the last listed one that are not listed, and those above it up to 99999 if it is below 99998 |
| `SetUsers.RangesExact` | tunnel/tools/amneziawg-tools/src/wg-quick/android.c:806-824 | they cover exactly 0 to 99999 without the list if and only if the largest listed uid is not 99998 and every number from 100000 up to it is listed |
| `SetUsers.LastUidMissed` | tunnel/tools/amneziawg-tools/src/wg-quick/android.c:821-824 | with 99998 excluded, uid 99999 is covered by no range |
| `SetUsers.SinglesCover` | tunnel/tools/amneziawg-tools/src/wg-quick/android.c:825-835 | the ranges of an included list cover exactly the listed uids |
| `SetUsers.AddUsers` | tunnel/tools/amneziawg-tools/src/wg-quick/android.c:791-839 | for every list of uids, every range goes out once, in order, in commands of one to eighteen ranges; both lists together are refused |
| `Highlighter.IsValidEndpoint` | tunnel/tools/amneziawg-tools/contrib/highlighter/highlighter.c:272-313 | accepted exactly when it is an IPv4 address or host name in front of the first colon, or a bracketed IPv6 address with at most one scope and a colon right behind the bracket, and a valid port follows that colon |
| `Highlighter.IsValidUint` | tunnel/tools/amneziawg-tools/contrib/highlighter/highlighter.c:180-205 | the digit loops accept exactly the numbers in bounds of at most ten characters |
| `Highlighter.IsValidKey` | tunnel/tools/amneziawg-tools/contrib/highlighter/highlighter.c:60-92 | accepts exactly 42 key characters, one of sixteen last ones and the padding |
| `Highlighter.ValidKeyIsKey` | tunnel/tools/amneziawg-tools/contrib/highlighter/highlighter.c:60-92 | a text passes as a key if and only if key_from_base64 accepts it |
| `Highlighter.IsValidNetwork` | tunnel/tools/amneziawg-tools/contrib/highlighter/highlighter.c:315-338 | an address, or an address, a slash and a prefix length in its range |
| `Highlighter.LastIsPort` | tunnel/tools/amneziawg-tools/contrib/highlighter/highlighter.c:555-561 | the last colon, at which the source splits, is the one in front of the port |
| `Highlighter.DigitIs` | tunnel/tools/amneziawg-tools/contrib/highlighter/highlighter.c:18-26 | the value of a digit is its place in 0123456789abcdef |
| `Highlighter.IsCaselessSame` | tunnel/tools/amneziawg-tools/contrib/highlighter/highlighter.c:42-58 | the loop accepts exactly the texts that differ from the name in the case of letters at most |
| `Highlighter.UpperLetter` | tunnel/tools/amneziawg-tools/contrib/highlighter/highlighter.c:42-58 | which letters count as the same, written out |
| `Highlighter.ReadField` | tunnel/tools/amneziawg-tools/contrib/highlighter/highlighter.c:373-397 | the field of a name |
| `Highlighter.FieldIs` | tunnel/tools/amneziawg-tools/contrib/highlighter/highlighter.c:373-397 | every field has exactly one name, written out, and no name stands for two |
| `Highlighter.KeyTypeIs` | tunnel/tools/amneziawg-tools/contrib/highlighter/highlighter.c:364-397 | the test by field numbers is the one by names: twelve keys belong under [Interface] and five under [Peer], written out |
| `Highlighter.ValueTypeIs` | tunnel/tools/amneziawg-tools/contrib/highlighter/highlighter.c:510-547 | the type of a single value by the name of its key, written out: the type of that field if its check passes, an error if not |
| `Highlighter.HighlightNetwork` | tunnel/tools/amneziawg-tools/contrib/highlighter/highlighter.c:458-474 | a valid network is its address, the slash and the prefix length |
| `Highlighter.HighlightListed` | tunnel/tools/amneziawg-tools/contrib/highlighter/highlighter.c:445-480 | the exact spans of a list element, and it is tiled |
| `Highlighter.HighlightList` | tunnel/tools/amneziawg-tools/contrib/highlighter/highlighter.c:482-508 | the exact spans of a comma-separated list, spaces around elements left out, a comma at the end an error; and it is tiled |
| `Highlighter.HighlightEndpoint` | tunnel/tools/amneziawg-tools/contrib/highlighter/highlighter.c:548-563 | a valid endpoint is host, colon and port, split at the colon that the check found |
| `Highlighter.HighlightValue` | tunnel/tools/amneziawg-tools/contrib/highlighter/highlighter.c:510-572 | the exact spans of a value by the name of its key, and it is tiled whatever its field |
| `Highlighter.EndKey` | tunnel/tools/amneziawg-tools/contrib/highlighter/highlighter.c:621-634 | the equals sign behind a key: the key is a field exactly under its own section's header |
| `Highlighter.Flush` | tunnel/tools/amneziawg-tools/contrib/highlighter/highlighter.c:583-604 | ending a token leaves the exact spans of the line so far and the section in force behind it, and everything before the position tiled |
| `Highlighter.LineScanned` | tunnel/tools/amneziawg-tools/contrib/highlighter/highlighter.c:604-613 | a finished line adds its own spans, and the header in force is the nearest line above that starts with a bracket |
| `Highlighter.HighlightConfig` | tunnel/tools/amneziawg-tools/contrib/highlighter/highlighter.c:574-641 | for every text the spans are exactly those of its lines, each coloured by itself and the nearest header above: comments from the first number sign, headers a section or an error, keys a field if and only if their name belongs under that header, an equals sign with nothing behind it an error, values their field's type if and only if its check passes; and they are non-empty, ordered, disjoint, in bounds and hold every character but blanks |
| `Highlighter.ExactlyOne` | tunnel/tools/amneziawg-tools/contrib/highlighter/highlighter.c:574-641 | every character but space, tab and newline lies in exactly one span |

## Left out

- JavaCurve25519.Curve25519.EvalPoint: a non-null public key is required to be below 2^256-19, because above it the coordinate stays outside the field (`QuickTwice`) and nothing after it is claimed; the top bit of the public key is not masked, as in the source.
- Base64.DecodeBase64: one model serves C and Java; a flag chooses the arithmetic or the logical shift, and Java bytes are given as their unsigned values.
- Highlighter.HighlightConfig: the checks of IPv4 and IPv6 addresses, host names and scopes are a parameter: the spans are stated for whatever they accept; allocation failure is not modelled.
- Netlink.Tree: a payload is read as a nest where the nested flag is set; the parsers of GetDevice take raw payloads instead.
- SetDevice.KernelSetDevice: whether a message is sent and acknowledged is a parameter, and the error code is not modelled; the first message is built before the loop.
- GetDevice.PeerParsed: last handshake and transfer counters, and the device settings of a dump, are not modelled.
- Coalesce.CoalescePeers: the memory of merged nodes is not modelled beyond `KeptLinks`.
- SyncConf.Sync: allocation failure is not modelled; qsort is an insertion sort on a sequence.
- AwgQuick.Backend.SetState: awg-quick is taken to change nothing when it fails, to refuse an existing interface on up and a missing one on down; the temporary file, status threads and callbacks are not modelled.
- GoTunnel.Backend.SetState: the steps between the prepare call and awgTurnOn are one answer each; sockets, notifications and status threads are not modelled.
- ElfCleaner.CleanSection: section and program header tables, dry_run and empty sections are not modelled.
- SetUsers.RangesExact: what the ranges cover is stated for sorted lists without uid 2^32-1, behind which the next start wraps around to 0; reading the package list is not modelled.
- curve25519-fiat32.h: a further limb layout of the same field with no new kind of property.
- The elliptic-curve group law, primality of 2^255-19, timing and the clearing of secrets.
- key_to_hex, key_from_hex, key_is_zero and the hex forms of Key.java: easier than base64 in the same style.
- Netlink sockets, error codes, and the FreeBSD, OpenBSD, Windows and userspace back ends.
- Java configuration parsing, the user interface, root shell, DNS resolution and random numbers.
- Thread interleavings in the backends: calls are sequential.
