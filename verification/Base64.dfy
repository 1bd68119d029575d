/** The base64 form of keys: src/encoding.c and Key.java, whose branch-free arithmetic works on signed integers. */
module Base64 {
  import opened Machine
  import opened Arith
  import opened Bits
  import opened Keys
  import opened Wrappers

  // ----- section 4 of RFC 4648 -----

  /** The character code of a digit. */
  function Char(d: int): (c: int)
    requires 0 <= d < 64
    ensures 0 < c < 128
  {
    if d < 26 then 65 + d else if d < 52 then 71 + d else if d < 62 then d - 4 else if d == 62 then 43 else 47
  }

  /** The digit of a character code, -1 for a character outside the alphabet. */
  function Digit(c: int): (d: int)
    ensures -1 <= d < 64
  {
    if 65 <= c <= 90 then c - 65 else if 97 <= c <= 122 then c - 71 else if 48 <= c <= 57 then c + 4
    else if c == 43 then 62 else if c == 47 then 63 else -1
  }

  /** The alphabet of table 1, eight characters in a row. */
  function Row(r: nat): string
    requires r < 8
  {
    if r == 0 then "ABCDEFGH"
    else if r == 1 then "IJKLMNOP"
    else if r == 2 then "QRSTUVWX"
    else if r == 3 then "YZabcdef"
    else if r == 4 then "ghijklmn"
    else if r == 5 then "opqrstuv"
    else if r == 6 then "wxyz0123"
    else "456789+/"
  }

  /** The digits are the positions in the alphabet. */
  lemma {:induction false} Alphabet(d: int)
    requires 0 <= d < 64
    ensures |Row(d / 8)| == 8 && Char(d) == Row(d / 8)[d % 8] as int
  {
    InRow(Row(d / 8), d / 8, d % 8);
  }

  lemma {:induction false} InRow(row: string, r: nat, i: nat)
    requires r < 8 && i < 8 && row == Row(r)
    ensures |row| == 8 && Char(8 * r + i) == row[i] as int
  {
    var c := row[i];
    assert i == 0 || i == 1 || i == 2 || i == 3 || i == 4 || i == 5 || i == 6 || i == 7;
  }

  lemma {:induction false} DigitChar(d: int, c: int)
    requires 0 <= d < 64
    ensures Digit(c) == d <==> c == Char(d)
  {
  }

  /** The 24 bits of group i, with zeros behind the end of the key. */
  function Triple(key: Key, i: nat): (n: int)
    requires i < 11
    ensures 0 <= n < 0x100_0000
  {
    key[3 * i] as int * 65536 + key[3 * i + 1] as int * 256 + if i < 10 then key[3 * i + 2] as int else 0
  }

  function Chars(n: int): (s: seq<int>)
    requires 0 <= n < 0x100_0000
    ensures |s| == 4
  {
    [Char(n / 64 / 64 / 64), Char(n / 64 / 64 % 64), Char(n / 64 % 64), Char(n % 64)]
  }

  /** The first n groups. */
  function Groups(key: Key, n: nat): (s: seq<int>)
    requires n <= 11
    ensures |s| == 4 * n
  {
    if n == 0 then [] else Groups(key, n - 1) + Chars(Triple(key, n - 1))
  }

  /** Ten full groups and one of two bytes, padded. */
  function Encoded(key: Key): (s: seq<int>)
    ensures |s| == 44
  {
    Groups(key, 11)[43 := 61]
  }

  // ----- one character, without branches -----

  /** The sign of a conjunction. */
  lemma {:induction false} AndSign(a: int, b: int)
    ensures And(a, b) < 0 <==> a < 0 && b < 0
    ensures And(a, b) == -1 <==> a == -1 && b == -1
    decreases if a < 0 then -a else a
  {
    if a != 0 && a != -1 {
      AndSign(a / 2, b / 2);
    }
  }

  lemma {:induction false} OrSign(a: int, b: int)
    ensures Or(a, b) < 0 <==> a < 0 || b < 0
    ensures Or(a, b) == 0 <==> a == 0 && b == 0
  {
    AndSign(Not(a), Not(b));
  }

  /** (((lo - 1) - c) & (c - (hi + 1))) >> 8, which is all ones inside the range, masks w. */
  function Ranged(lo: int, hi: int, c: int, w: int): int
  {
    And(And(lo - 1 - c, c - (hi + 1)) / 256, w)
  }

  /** The same with >>> 8 of a 32-bit integer. */
  function JavaRanged(lo: int, hi: int, c: int, w: int): int
  {
    And(And(lo - 1 - c, c - (hi + 1)) % 0x1_0000_0000 / 256, w)
  }

  /** The C sum for one character; a char is signed or unsigned. */
  function DecodeChar(c: int): int
  {
    -1 + Ranged(65, 90, c, c - 64) + Ranged(97, 122, c, c - 70) + Ranged(48, 57, c, c + 5)
    + Ranged(43, 43, c, 63) + Ranged(47, 47, c, 64)
  }

  /** The Java sum for one character. */
  function JavaDecodeChar(c: int): int
  {
    -1 + JavaRanged(65, 90, c, c - 64) + JavaRanged(97, 122, c, c - 70) + JavaRanged(48, 57, c, c + 5)
    + JavaRanged(43, 43, c, 63) + JavaRanged(47, 47, c, 64)
  }

  lemma {:induction false} AndOnes(w: int)
    ensures And(-1, w) == w && And(0, w) == 0
  {
  }

  lemma {:induction false} AndOnes24(w: int)
    requires 0 <= w < 0x100_0000
    ensures And(0xff_ffff, w) == w
  {
    hide And, Pow;
    TwoTo24();
    AndMask(w, 24);
    AndComm(0xff_ffff, w);
  }

  lemma {:induction false} TwoTo24()
    ensures Pow(2, 24) == 0x100_0000 && Pow(2, 18) == 0x4_0000 && Pow(2, 12) == 0x1000 && Pow(2, 6) == 64
  {
    assert Pow(2, 6) == 64;
    hide Pow;
    PowAdd(2, 6, 6);
    PowAdd(2, 12, 6);
    PowAdd(2, 12, 12);
  }

  lemma {:induction false} RangedIs(lo: int, hi: int, c: int, w: int)
    requires -256 <= lo - 1 - c < 256 && -256 <= c - (hi + 1) < 256
    ensures Ranged(lo, hi, c, w) == if lo <= c <= hi then w else 0
    ensures (lo <= c <= hi ==> 0 <= w < 0x100_0000) ==> JavaRanged(lo, hi, c, w) == if lo <= c <= hi then w else 0
  {
    hide And, Pow;
    TwoTo64();
    AndBound(lo - 1 - c, c - (hi + 1), 8);
    AndOnes(w);
    var x := And(lo - 1 - c, c - (hi + 1));
    if lo <= c <= hi {
      assert x / 256 == -1;
      assert x % 0x1_0000_0000 == x + 0x1_0000_0000;
      if 0 <= w < 0x100_0000 { AndOnes24(w); }
    } else {
      assert x / 256 == 0 && x % 0x1_0000_0000 == x;
    }
  }

  /** Both sums give the digit, or -1, for every character below 256. */
  lemma {:induction false} DecodeCharIs(c: int)
    requires -128 <= c < 256
    ensures DecodeChar(c) == Digit(c)
    ensures c >= 0 ==> JavaDecodeChar(c) == Digit(c)
  {
    hide Ranged, JavaRanged;
    RangedIs(65, 90, c, c - 64);
    RangedIs(97, 122, c, c - 70);
    RangedIs(48, 57, c, c + 5);
    RangedIs(43, 43, c, 63);
    RangedIs(47, 47, c, 64);
  }

  lemma {:induction false} AndShift2(a: int, b: int)
    ensures And(a, b) / 4 == And(a / 4, b / 4)
  {
    hide And;
    AndHalves(a, b);
    AndHalves(a / 2, b / 2);
    DivDiv(a, 2, 2);
    DivDiv(b, 2, 2);
    DivDiv(And(a, b), 2, 2);
  }

  lemma {:induction false} AndShift4(a: int, b: int)
    ensures And(a, b) / 16 == And(a / 16, b / 16)
  {
    hide And;
    AndShift2(a, b);
    AndShift2(a / 4, b / 4);
    DivDiv(a, 4, 4);
    DivDiv(b, 4, 4);
    DivDiv(And(a, b), 4, 4);
  }

  lemma {:induction false} AndShift8(a: int, b: int)
    ensures And(a, b) / 256 == And(a / 256, b / 256)
  {
    hide And;
    AndShift4(a, b);
    AndShift4(a / 16, b / 16);
    DivDiv(a, 16, 16);
    DivDiv(b, 16, 16);
    DivDiv(And(a, b), 16, 16);
  }

  /** The largest power of two that divides a number. */
  function Low(u: int): (r: int)
    requires u > 0
    ensures 0 < r <= u
  {
    if u % 2 == 1 then 1 else 2 * Low(u / 2)
  }

  lemma {:induction false} LowDivides(u: int)
    requires u > 0
    ensures u == Low(u) * (u / Low(u))
  {
    if u % 2 == 0 {
      LowDivides(u / 2);
      var l, q := Low(u / 2), u / 2 / Low(u / 2);
      assert u == 2 * (l * q) == (2 * l) * q;
      DivModUnique(u, 2 * l, q, 0);
    }
  }

  lemma {:induction false} AndNot(v: int)
    requires v >= 0
    ensures And(Not(v), v) == 0
    decreases v
  {
    if v != 0 {
      AndNot(v / 2);
      AndHalves(Not(v), v);
      assert Not(v) / 2 == Not(v / 2);
      hide And;
    }
  }

  /** The bits below the lowest one of u. */
  lemma {:induction false} AndBelow(u: int)
    requires u > 0
    ensures And(Not(u), u - 1) == Low(u) - 1
    decreases u
  {
    AndHalves(Not(u), u - 1);
    assert Not(u) / 2 == Not(u / 2);
    if u % 2 == 1 {
      assert (u - 1) / 2 == u / 2;
      AndNot(u / 2);
    } else {
      assert (u - 1) / 2 == u / 2 - 1;
      AndBelow(u / 2);
    }
    hide And;
  }

  lemma {:induction false} AndLow(u: int, w: int)
    requires u > 0
    ensures And(Low(u) - 1, w) == w % Low(u)
    decreases u
  {
    if u % 2 == 0 {
      var l := Low(u / 2);
      AndLow(u / 2, w / 2);
      AndHalves(2 * l - 1, w);
      assert (2 * l - 1) / 2 == l - 1;
      ModHalves(w, l);
      hide And;
    }
  }

  /** One range of the Java sum above 255: the low byte decides, and of w only what Low leaves is kept. */
  lemma {:induction false} JavaHigh(lo: int, hi: int, u: int, r: int, w: int)
    requires 0 < u < 256 && 0 <= r < 256 && 0 < lo <= hi < 256
    ensures JavaRanged(lo, hi, 256 * u + r, w) == if lo <= r <= hi then w % Low(u) else 0
  {
    hide And, Low;
    var c := 256 * u + r;
    var a, b := lo - 1 - c, c - (hi + 1);
    AndShift8(a, b);
    AndSign(a, b);
    var x := And(a, b);
    if r >= lo {
      DivModUnique(a, 256, Not(u), lo - 1 - r + 256);
    } else {
      DivModUnique(a, 256, -u, lo - 1 - r);
    }
    if r > hi {
      DivModUnique(b, 256, u, r - hi - 1);
      AndNot(u);
    } else {
      DivModUnique(b, 256, u - 1, r - hi - 1 + 256);
      if r >= lo { AndBelow(u); } else { AndNot(u - 1); }
    }
    assert 0 <= x < 0x1_0000;
    assert x % 0x1_0000_0000 == x;
    AndOnes(w);
    AndLow(u, w);
  }

  /** What the Java sum makes of every 16-bit character. */
  function JavaDigit(c: int): (d: int)
    requires 0 <= c < 0x1_0000
    ensures -1 <= d < 64
  {
    if c < 256 then Digit(c)
    else if Digit(c % 256) < 0 then -1
    else ModAtMost(Digit(c % 256) + 1, Low(c / 256)); (Digit(c % 256) + 1) % Low(c / 256) - 1
  }

  lemma {:induction false} ModAtMost(a: int, m: int)
    requires a >= 0 && m > 0
    ensures 0 <= a % m <= a
  {
    if a >= m {
      assert a == m * (a / m) + a % m;
      MulMono(m, 0, a / m);
    } else {
      DivModUnique(a, m, 0, a);
    }
  }

  lemma {:induction false} LowShift(u: int, r: int)
    requires u > 0
    ensures (256 * u + r) % Low(u) == r % Low(u)
  {
    LowDivides(u);
    var l, q := Low(u), u / Low(u);
    assert 256 * u == l * (256 * q);
    hide Low;
    ModShift(r, 256 * q, l);
  }

  lemma {:induction false} JavaDecodeCharIs(c: int)
    requires 0 <= c < 0x1_0000
    ensures JavaDecodeChar(c) == JavaDigit(c)
  {
    hide JavaRanged, Low;
    if c < 256 {
      DecodeCharIs(c);
    } else {
      var u, r := c / 256, c % 256;
      JavaHigh(65, 90, u, r, c - 64);
      JavaHigh(97, 122, u, r, c - 70);
      JavaHigh(48, 57, u, r, c + 5);
      JavaHigh(43, 43, u, r, 63);
      JavaHigh(47, 47, u, r, 64);
      LowShift(u, r - 64);
      LowShift(u, r - 70);
      LowShift(u, r + 5);
    }
  }

  /** A character above 255 that the Java sum takes for a digit. */
  predicate Stray(c: int)
  {
    256 <= c < 0x1_0000 && Digit(c % 256) >= 0 && (Digit(c % 256) + 1) % Low(c / 256) != 0
  }

  /** The Java sum is right exactly on the characters that are not strays. */
  lemma {:induction false} JavaRight(c: int)
    requires 0 <= c < 0x1_0000
    ensures JavaDecodeChar(c) == Digit(c) <==> !Stray(c)
    ensures Stray(c) ==> JavaDecodeChar(c) >= 0 && Digit(c) == -1
  {
    JavaDecodeCharIs(c);
    hide JavaDecodeChar, Low;
  }

  /** U+022B counts as the digit 0. */
  lemma {:induction false} JavaStray()
    ensures Stray(0x22b) && JavaDecodeChar(0x22b) == 0
  {
    hide JavaDecodeChar;
    assert Low(2) == 2 * Low(1) && Low(1) == 1;
    JavaDecodeCharIs(0x22b);
  }

  // ----- four characters -----

  ghost predicate AllDigits(s: seq<int>)
    requires |s| == 4
  {
    Digit(s[0]) >= 0 && Digit(s[1]) >= 0 && Digit(s[2]) >= 0 && Digit(s[3]) >= 0
  }

  function Number(s: seq<int>): int
    requires |s| == 4
  {
    Digit(s[0]) * 0x4_0000 + Digit(s[1]) * 0x1000 + Digit(s[2]) * 64 + Digit(s[3])
  }

  /** Characters of the two languages: a C char is signed or unsigned, a Java char has 16 bits. */
  predicate Typable(s: seq<int>, java: bool)
  {
    forall i :: 0 <= i < |s| ==> if java then 0 <= s[i] < 0x1_0000 else -128 <= s[i] < 256
  }

  /** The character that the Java sum takes a character for. */
  function Seen(c: int): int
  {
    if 0 <= JavaDecodeChar(c) < 64 then Char(JavaDecodeChar(c)) else c
  }

  /** A string as it is read: in Java the characters in front of the padding are taken through the sum. */
  function View(s: seq<int>, java: bool): (v: seq<int>)
    ensures |v| == |s|
  {
    if java then seq(|s|, i requires 0 <= i < |s| => if i < 43 then Seen(s[i]) else s[i]) else s
  }

  function ReadChar(c: int, java: bool): int
  {
    if java then JavaDecodeChar(c) else DecodeChar(c)
  }

  lemma {:induction false} SeenDigit(c: int)
    requires 0 <= c < 0x1_0000
    ensures JavaDecodeChar(c) == Digit(Seen(c)) && (!Stray(c) ==> Seen(c) == c) && (Stray(c) ==> Seen(c) < 128)
  {
    JavaDecodeCharIs(c);
    JavaRight(c);
    hide JavaDecodeChar, Low, Stray;
    if JavaDecodeChar(c) >= 0 {
      DigitChar(JavaDecodeChar(c), Seen(c));
      DigitChar(JavaDecodeChar(c), c);
    }
  }

  lemma {:induction false} ReadCharIs(s: seq<int>, i: nat, java: bool)
    requires Typable(s, java) && i < |s| && i < 43
    ensures ReadChar(s[i], java) == Digit(View(s, java)[i])
  {
    hide DecodeChar, JavaDecodeChar, Digit, Seen;
    if java { SeenDigit(s[i]); } else { DecodeCharIs(s[i]); }
  }

  /**
   decode_base64 or decodeBase64: the bits are gathered by shifting; a character that is no digit
   leaves the sign bit.
   */
  method DecodeBase64(s: seq<int>, java: bool) returns (val: int32)
    requires |s| == 4 && Typable(s, java)
    ensures AllDigits(View(s, java)) ==> val == Number(View(s, java)) >= 0
    ensures !AllDigits(View(s, java)) ==> val < 0
  {
    hide Or, ReadChar, Digit, Pow, View, Typable;
    ghost var v := View(s, java);
    ReadCharIs(s, 0, java); ReadCharIs(s, 1, java); ReadCharIs(s, 2, java); ReadCharIs(s, 3, java);
    GatherDigits(Digit(v[0]), Digit(v[1]), Digit(v[2]), Digit(v[3]));
    val := Or(0, ReadChar(s[0], java) * 0x4_0000);
    val := Or(val, ReadChar(s[1], java) * 0x1000);
    val := Or(val, ReadChar(s[2], java) * 64);
    val := Or(val, ReadChar(s[3], java));
  }

  lemma {:induction false} OrRange(a: int, b: int, k: nat)
    requires -Pow(2, k) <= a < Pow(2, k) && -Pow(2, k) <= b < Pow(2, k)
    ensures -Pow(2, k) <= Or(a, b) < Pow(2, k)
  {
    AndBound(Not(a), Not(b), k);
    hide And, Pow;
  }

  lemma {:induction false} GatherDigits(a: int, b: int, c: int, d: int)
    requires -1 <= a < 64 && -1 <= b < 64 && -1 <= c < 64 && -1 <= d < 64
    ensures var x := Or(0, a * 0x4_0000);
            var y := Or(x, b * 0x1000);
            var z := Or(y, c * 64);
            var v := Or(z, d);
            && -0x100_0000 <= x < 0x100_0000 && -0x100_0000 <= y < 0x100_0000
            && -0x100_0000 <= z < 0x100_0000 && -0x100_0000 <= v < 0x100_0000
            && (v < 0 <==> a < 0 || b < 0 || c < 0 || d < 0)
            && (v >= 0 ==> v == a * 0x4_0000 + b * 0x1000 + c * 64 + d)
  {
    TwoTo24();
    hide Or, Pow;
    var x := Or(0, a * 0x4_0000);
    var y := Or(x, b * 0x1000);
    var z := Or(y, c * 64);
    OrRange(0, a * 0x4_0000, 24);
    OrRange(x, b * 0x1000, 24);
    OrRange(y, c * 64, 24);
    OrRange(z, d, 24);
    OrSign(0, a * 0x4_0000);
    OrSign(x, b * 0x1000);
    OrSign(y, c * 64);
    OrSign(z, d);
    if a >= 0 && b >= 0 && c >= 0 && d >= 0 {
      OrDisjoint(0, a, 18);
      OrComm(x, b * 0x1000);
      OrDisjoint(b * 0x1000, a, 18);
      OrComm(y, c * 64);
      OrDisjoint(c * 64, a * 64 + b, 12);
      OrComm(z, d);
      OrDisjoint(d, a * 0x1000 + b * 64 + c, 6);
    }
  }

  lemma {:induction false} NumberChars(n: int)
    requires 0 <= n < 0x100_0000
    ensures AllDigits(Chars(n)) && Number(Chars(n)) == n
  {
    var p, q := n / 64, n / 64 / 64;
    var a, b, c, d := q / 64, q % 64, p % 64, n % 64;
    DigitChar(a, Char(a)); DigitChar(b, Char(b)); DigitChar(c, Char(c)); DigitChar(d, Char(d));
    hide Char, Digit;
  }

  lemma {:induction false} CharsNumber(s: seq<int>)
    requires |s| == 4 && AllDigits(s)
    ensures 0 <= Number(s) < 0x100_0000 && Chars(Number(s)) == s
  {
    var a, b, c, d := Digit(s[0]), Digit(s[1]), Digit(s[2]), Digit(s[3]);
    DigitChar(a, s[0]); DigitChar(b, s[1]); DigitChar(c, s[2]); DigitChar(d, s[3]);
    hide Char, Digit;
    var n := Number(s);
    DivModUnique(n, 64, a * 4096 + b * 64 + c, d);
    DivModUnique(a * 4096 + b * 64 + c, 64, a * 64 + b, c);
    DivModUnique(a * 64 + b, 64, a, b);
  }

  // ----- whole keys -----

  /** Four characters of a string; the last group has three, completed by an A. */
  function Group(s: seq<int>, i: nat): (g: seq<int>)
    requires |s| == 44 && i < 11
    ensures |g| == 4
  {
    if i < 10 then s[4 * i..4 * i + 4] else s[40..43] + [65]
  }

  /** What key_from_base64 tests. */
  ghost predicate Accepted(s: seq<int>)
  {
    && |s| == 44 && s[43] == 61
    && (forall i :: 0 <= i < 11 ==> AllDigits(Group(s, i)))
    && Number(Group(s, 10)) % 256 == 0
  }

  lemma {:induction false} GroupsAt(key: Key, n: nat, i: nat)
    requires i < n <= 11
    ensures Groups(key, n)[4 * i..4 * i + 4] == Chars(Triple(key, i))
  {
    hide Chars, Triple;
    var init := Groups(key, n - 1);
    if i < n - 1 {
      GroupsAt(key, n - 1, i);
      assert Groups(key, n)[4 * i..4 * i + 4] == init[4 * i..4 * i + 4];
    }
  }

  lemma {:induction false} EncodedGroup(key: Key, i: nat)
    requires i < 11
    ensures Group(Encoded(key), i) == Chars(Triple(key, i))
  {
    GroupsAt(key, 11, i);
    var g := Groups(key, 11);
    if i < 10 {
      assert g[43 := 61][4 * i..4 * i + 4] == g[4 * i..4 * i + 4];
    } else {
      TripleLast(key);
      assert g[40..44][3] == Char(0) == 65;
      hide Chars, Triple, Groups;
      assert g[43 := 61][40..43] == g[40..44][..3];
    }
  }

  /** Every encoded key is accepted. */
  lemma {:induction false} EncodedAccepted(key: Key)
    ensures Accepted(Encoded(key))
    ensures forall i :: 0 <= i < 11 ==> Number(Group(Encoded(key), i)) == Triple(key, i)
  {
    var s := Encoded(key);
    forall i | 0 <= i < 11 ensures AllDigits(Group(s, i)) && Number(Group(s, i)) == Triple(key, i) {
      EncodedGroup(key, i);
      NumberChars(Triple(key, i));
    }
    hide Encoded, Group, Number, Triple, AllDigits;
    TripleLast(key);
    assert Number(Group(s, 10)) == Triple(key, 10);
    EncodedEnd(key);
  }

  /** The key holds the bytes of the accepted groups. */
  ghost predicate Holds(key: Key, s: seq<int>)
    requires |s| == 44
  {
    forall i :: 0 <= i < 11 ==> Triple(key, i) == Number(Group(s, i))
  }

  /** A string whose groups are those of a key is the encoding of that key. */
  lemma {:induction false} AcceptedEncoded(s: seq<int>, key: Key)
    requires Accepted(s) && Holds(key, s)
    ensures s == Encoded(key)
  {
    var e := Encoded(key);
    forall j | 0 <= j < 43 ensures e[j] == s[j] {
      var i, r := j / 4, j % 4;
      EncodedGroup(key, i);
      CharsNumber(Group(s, i));
      hide Encoded, Number, Chars, AllDigits, Triple;
      assert Group(e, i) == Group(s, i);
      assert Group(e, i)[r] == e[j] && Group(s, i)[r] == s[j];
    }
  }

  lemma {:induction false} TripleDetermines(k: Key, l: Key)
    requires forall i :: 0 <= i < 11 ==> Triple(k, i) == Triple(l, i)
    ensures k == l
  {
    hide Triple;
    forall j | 0 <= j < 32 ensures k[j] == l[j] {
      var i, r := j / 3, j % 3;
      assert j == 3 * i + r;
      TripleBytes(k, i);
      TripleBytes(l, i);
    }
  }

  lemma {:induction false} TripleBytes(k: Key, i: nat)
    requires i < 11
    ensures k[3 * i] == Triple(k, i) / 256 / 256 && k[3 * i + 1] == Triple(k, i) / 256 % 256
    ensures i < 10 ==> k[3 * i + 2] == Triple(k, i) % 256
  {
    var a, b, c := k[3 * i] as int, k[3 * i + 1] as int, if i < 10 then k[3 * i + 2] as int else 0;
    assert Triple(k, i) == a * 65536 + b * 256 + c;
    hide Triple;
    DivModUnique(a * 65536 + b * 256 + c, 256, a * 256 + b, c);
    DivModUnique(a * 256 + b, 256, a, b);
  }

  lemma {:induction false} TripleLast(k: Key)
    ensures Triple(k, 10) % 64 == 0 && Triple(k, 10) % 256 == 0
  {
    var a, b := k[30] as int, k[31] as int;
    assert Triple(k, 10) == a * 65536 + b * 256;
    hide Triple;
    DivModUnique(a * 65536 + b * 256, 256, a * 256 + b, 0);
    DivModUnique(a * 65536 + b * 256, 64, a * 1024 + b * 4, 0);
  }

  lemma {:induction false} EncodedEnd(k: Key)
    ensures Encoded(k)[43] == 61
  {
    hide Groups;
  }

  // ----- the C functions -----

  /** The C sum that turns a digit into a character. */
  function EncodeChar(d: int): int
  {
    d + 65 + And((25 - d) / 256, 6) - And((51 - d) / 256, 75) - And((61 - d) / 256, 15) + And((62 - d) / 256, 3)
  }

  /** The Java sum, with >>> 8 of a 32-bit integer. */
  function JavaEncodeChar(d: int): int
  {
    d + 65 + And((25 - d) % 0x1_0000_0000 / 256, 6) - And((51 - d) % 0x1_0000_0000 / 256, 75)
    - And((61 - d) % 0x1_0000_0000 / 256, 15) + And((62 - d) % 0x1_0000_0000 / 256, 3)
  }

  lemma {:induction false} SignMask(x: int, w: int)
    requires -256 <= x < 256 && 0 <= w < 256
    ensures And(x / 256, w) == if x < 0 then w else 0
    ensures And(x % 0x1_0000_0000 / 256, w) == if x < 0 then w else 0
  {
    hide And;
    AndOnes(w);
    AndOnes24(w);
    if x < 0 { assert x % 0x1_0000_0000 == x + 0x1_0000_0000; }
  }

  lemma {:induction false} EncodeCharIs(d: int)
    requires 0 <= d < 64
    ensures EncodeChar(d) == Char(d) && JavaEncodeChar(d) == Char(d)
  {
    hide And;
    SignMask(25 - d, 6);
    SignMask(51 - d, 75);
    SignMask(61 - d, 15);
    SignMask(62 - d, 3);
  }

  /** The four digits of three bytes, as the code takes them apart. */
  lemma {:induction false} SixBits(a: uint8, b: uint8, c: uint8)
    ensures var n := a as int * 65536 + b as int * 256 + c as int;
            && a / 4 % 64 == n / 64 / 64 / 64 && Or(a * 16, b / 16) % 64 == n / 64 / 64 % 64
            && Or(b * 4, c / 64) % 64 == n / 64 % 64 && c % 64 == n % 64
  {
    hide Or, Pow;
    TwoTo4();
    OrComm(a * 16, b / 16);
    OrDisjoint(b / 16, a, 4);
    OrComm(b * 4, c / 64);
    OrDisjoint(c / 64, b, 2);
    SixBitsSum(a, b, c);
  }

  lemma {:induction false} TwoTo4()
    ensures Pow(2, 4) == 16 && Pow(2, 2) == 4
  {
  }

  lemma {:induction false} SixBitsSum(a: int, b: int, c: int)
    requires 0 <= a < 256 && 0 <= b < 256 && 0 <= c < 256
    ensures var n := a * 65536 + b * 256 + c;
            && a / 4 % 64 == n / 64 / 64 / 64 && (a * 16 + b / 16) % 64 == n / 64 / 64 % 64
            && (b * 4 + c / 64) % 64 == n / 64 % 64 && c % 64 == n % 64
  {
    var n := a * 65536 + b * 256 + c;
    DivModUnique(n, 64, a * 1024 + b * 4 + c / 64, c % 64);
    DivModUnique(a * 1024 + b * 4 + c / 64, 64, a * 16 + b / 16, b % 16 * 4 + c / 64);
    DivModUnique(b * 4 + c / 64, 64, b / 16, b % 16 * 4 + c / 64);
    DivModUnique(a * 16 + b / 16, 64, a / 4, a % 4 * 16 + b / 16);
  }

  /** encode_base64 or encodeBase64 */
  method EncodeBase64(dest: array<int>, at: nat, src: seq<uint8>, java: bool)
    requires at + 4 <= dest.Length && |src| == 3
    modifies dest
    ensures dest[at..at + 4] == Chars(src[0] as int * 65536 + src[1] as int * 256 + src[2] as int)
    ensures dest[..at] == old(dest[..at]) && dest[at + 4..] == old(dest[at + 4..])
  {
    hide And, Or, EncodeChar, JavaEncodeChar, Char;
    var a, b, c := src[0] as int, src[1] as int, src[2] as int;
    var input := [a / 4 % 64, Or(a * 16, b / 16) % 64, Or(b * 4, c / 64) % 64, c % 64];
    SixBits(a, b, c);
    ghost var chars := Chars(a * 65536 + b * 256 + c);
    assert forall k :: 0 <= k < 4 ==> chars[k] == Char(input[k]);
    for i := 0 to 4
      invariant forall k :: 0 <= k < i ==> dest[at + k] == Char(input[k])
      invariant dest[..at] == old(dest[..at]) && dest[at + 4..] == old(dest[at + 4..])
    {
      EncodeCharIs(input[i]);
      dest[at + i] := if java then JavaEncodeChar(input[i]) else EncodeChar(input[i]);
    }
  }

  /** The groups of a key, the last one padded. */
  method PutGroups(base64: array<int>, key: Key, java: bool)
    requires base64.Length >= 44
    modifies base64
    ensures base64[..44] == Encoded(key)
  {
    hide Triple, Chars, Groups;
    assert Groups(key, 0) == [] by { NoGroups(key); }
    for i := 0 to 10
      invariant base64[..4 * i] == Groups(key, i)
    {
      GroupsNext(key, i);
      EncodeBase64(base64, 4 * i, [key[3 * i], key[3 * i + 1], key[3 * i + 2]], java);
      assert base64[..4 * (i + 1)] == base64[..4 * i] + base64[4 * i..4 * i + 4];
    }
    GroupsNext(key, 10);
    EncodeBase64(base64, 40, [key[30], key[31], 0], java);
    assert base64[..44] == base64[..40] + base64[40..44];
    base64[43] := 61;
  }

  /** key_to_base64: 44 characters and a NUL. */
  method KeyToBase64(base64: array<int>, key: Key)
    requires base64.Length == 45
    modifies base64
    ensures base64[..44] == Encoded(key) && base64[44] == 0
  {
    hide Encoded;
    PutGroups(base64, key, false);
    base64[44] := 0;
    assert base64[..44] == Encoded(key);
  }

  /** Key.toBase64 */
  method ToBase64(key: Key) returns (str: seq<int>)
    ensures str == Encoded(key)
  {
    var output := new int[44](_ => 0);
    PutGroups(output, key, true);
    str := output[..44];
  }

  lemma {:induction false} NoGroups(key: Key)
    ensures Groups(key, 0) == []
  {
  }

  lemma {:induction false} GroupsNext(key: Key, i: nat)
    requires i < 11
    ensures Groups(key, i + 1) == Groups(key, i) + Chars(Triple(key, i))
    ensures Triple(key, i) ==
            key[3 * i] as int * 65536 + key[3 * i + 1] as int * 256 + if i < 10 then key[3 * i + 2] as int else 0
  {
  }

  /** The first n groups consist of digits. */
  ghost predicate DigitsUpTo(s: seq<int>, n: nat)
    requires |s| == 44 && n <= 11
  {
    forall i :: 0 <= i < n ==> AllDigits(Group(s, i))
  }

  ghost predicate HoldsUpTo(key: Key, s: seq<int>, n: nat)
    requires |s| == 44 && n <= 11
  {
    forall i :: 0 <= i < n ==> Triple(key, i) == Number(Group(s, i))
  }

  lemma {:induction false} NextGroup(s: seq<int>, before: Key, after: Key, i: nat, val: int)
    requires |s| == 44 && i < 11 && HoldsUpTo(before, s, i) && DigitsUpTo(s, i)
    requires AllDigits(Group(s, i)) && val == Number(Group(s, i)) && (i == 10 ==> val % 256 == 0)
    requires after[3 * i] == val / 65536 % 256 && after[3 * i + 1] == val / 256 % 256
    requires i < 10 ==> after[3 * i + 2] == val % 256
    requires forall j :: 0 <= j < 3 * i ==> after[j] == before[j]
    ensures HoldsUpTo(after, s, i + 1) && DigitsUpTo(s, i + 1)
  {
    hide Number, Group, AllDigits, Triple;
    CharsNumber(Group(s, i));
    StoreTriple(before, after, i, val);
  }

  /** The loop over the ten full groups; ret collects the sign bits. */
  method FullGroups(key: array<uint8>, base64: seq<int>, java: bool) returns (ret: uint8)
    requires key.Length == 32 && |base64| == 44 && Typable(base64, java)
    modifies key
    ensures ret == 0 || ret == 1
    ensures ret == 0 <==> DigitsUpTo(View(base64, java), 10)
    ensures ret == 0 ==> HoldsUpTo(key[..], View(base64, java), 10)
  {
    ghost var v := View(base64, java);
    ret := 0;
    for i := 0 to 10
      invariant ret == 0 || ret == 1
      invariant ret == 0 <==> DigitsUpTo(v, i)
      invariant ret == 0 ==> HoldsUpTo(key[..], v, i)
    {
      hide Or, Number, AllDigits, Group, Triple, View;
      ViewGroup(base64, i, java);
      var val := DecodeBase64(base64[4 * i..4 * i + 4], java);
      var sign := if val < 0 then 1 else 0;
      OrBit(ret, sign);
      ret := Or(ret, sign);
      ghost var before := key[..];
      key[3 * i], key[3 * i + 1], key[3 * i + 2] := val / 65536 % 256, val / 256 % 256, val % 256;
      if ret == 0 { NextGroup(v, before, key[..], i, val); }
    }
  }

  /** A group of the string as it is read is the group, as it is read. */
  lemma {:induction false} ViewGroup(s: seq<int>, i: nat, java: bool)
    requires |s| == 44 && i < 11
    ensures var g := if i < 10 then s[4 * i..4 * i + 4] else [s[40], s[41], s[42], 65];
            View(g, java) == Group(View(s, java), i)
    ensures View(s, java)[43] == s[43]
  {
    hide Seen;
    assert Seen(65) == 65 by { SeenDigit(65); }
  }

  /** All groups: ret is zero exactly if the string is read as the encoding of a key, and then the key is that one. */
  method AllGroups(key: array<uint8>, base64: seq<int>, java: bool) returns (ret: uint8)
    requires key.Length == 32 && |base64| == 44 && base64[43] == 61 && Typable(base64, java)
    modifies key
    ensures ret == 0 <==> exists k: Key :: View(base64, java) == Encoded(k)
    ensures ret == 0 ==> View(base64, java) == Encoded(key[..])
  {
    hide Or, Number, AllDigits, Group, Encoded, Triple, DigitsUpTo, HoldsUpTo, View;
    ghost var v := View(base64, java);
    ret := FullGroups(key, base64, java);
    ViewGroup(base64, 10, java);
    var val := DecodeBase64([base64[40], base64[41], base64[42], 65], java);
    var sign := if val < 0 then 1 else 0;
    TwoTo64();
    OrSign(sign, val % 256);
    OrBound(sign, val % 256, 8);
    OrSign(ret, Or(sign, val % 256));
    OrBound(ret, Or(sign, val % 256), 8);
    ret := Or(ret, Or(sign, val % 256));
    ghost var before := key[..];
    key[30], key[31] := val / 65536 % 256, val / 256 % 256;
    if ret == 0 {
      NextGroup(v, before, key[..], 10, val);
      Complete(v, key[..]);
    } else {
      Incomplete(v, val);
    }
  }

  /** key_from_base64 accepts exactly the encodings of keys, and then the key is the encoded one. */
  method KeyFromBase64(key: array<uint8>, base64: seq<int>) returns (ok: bool)
    requires key.Length == 32 && Typable(base64, false)
    modifies key
    ensures ok <==> exists k: Key :: base64 == Encoded(k)
    ensures ok ==> base64 == Encoded(key[..])
  {
    hide Encoded, And;
    if |base64| != 44 || base64[43] != 61 {
      NotEncoded(base64);
      return false;
    }
    var ret := AllGroups(key, base64, false);
    SignMask(ret as int - 1, 1);
    ok := And((ret as int - 1) / 256, 1) != 0;
  }

  /** Key.fromBase64: the key whose encoding the string is read as, or an exception. */
  method FromBase64(str: seq<int>) returns (r: Option<Key>)
    requires Typable(str, true)
    ensures r.Some? <==> exists k: Key :: View(str, true) == Encoded(k)
    ensures r.Some? ==> View(str, true) == Encoded(r.value)
    ensures r.Some? <==> JavaCanonical(str)
  {
    JavaAcceptsRight(str);
    hide Encoded, Seen, JavaCanonical, HasStray;
    if |str| != 44 || str[43] != 61 {
      NotEncoded(View(str, true));
      return None;
    }
    var key := new uint8[32](_ => 0);
    var ret := AllGroups(key, str, true);
    var bytes: Key := key[..];
    r := if ret != 0 then None else Some(bytes);
  }

  ghost predicate WellFormed(s: seq<int>)
  {
    exists k: Key :: s == Encoded(k)
  }

  ghost predicate HasStray(s: seq<int>)
  {
    exists i :: 0 <= i < |s| && i < 43 && Stray(s[i])
  }

  lemma {:induction false} EncodedPlain(k: Key, i: nat)
    requires i < 44
    ensures 0 < Encoded(k)[i] < 128
  {
    GroupsPlain(k, 11, i);
    hide Groups;
  }

  lemma {:induction false} GroupsPlain(k: Key, n: nat, i: nat)
    requires n <= 11 && i < 4 * n
    ensures 0 < Groups(k, n)[i] < 128
  {
    if i < 4 * (n - 1) {
      GroupsPlain(k, n - 1, i);
    }
    hide Triple, Char;
  }

  /** A string is well-formed exactly if Java accepts it and it has no stray. */
  lemma {:induction false} JavaAccepts(str: seq<int>)
    requires Typable(str, true)
    ensures WellFormed(str) <==> WellFormed(View(str, true)) && !HasStray(str)
  {
    hide Encoded, Stray, Seen;
    if !HasStray(str) {
      forall i | 0 <= i < |str| ensures View(str, true)[i] == str[i] {
        if i < 43 {
          assert !Stray(str[i]);
          SeenDigit(str[i]);
        }
      }
      assert View(str, true) == str;
    } else if WellFormed(str) {
      var i :| 0 <= i < |str| && i < 43 && Stray(str[i]);
      var k: Key :| str == Encoded(k);
      EncodedPlain(k, i);
      StrayHigh(str[i]);
      assert false;
    }
  }

  lemma {:induction false} StrayHigh(c: int)
    requires Stray(c)
    ensures c >= 256
  {
  }

  /** The bytes of the groups. */
  function KeyOf(s: seq<int>): Key
    requires |s| == 44
  {
    seq(32, j requires 0 <= j < 32 =>
      var n := Number(Group(s, j / 3));
      if j % 3 == 0 then n / 65536 % 256 else if j % 3 == 1 then n / 256 % 256 else n % 256)
  }

  /** 43 digits, the last with two zero bits, and the padding. */
  ghost predicate Canonical(s: seq<int>)
  {
    |s| == 44 && s[43] == 61 && (forall i :: 0 <= i < 43 ==> Digit(s[i]) >= 0) && Digit(s[42]) % 4 == 0
  }

  lemma {:induction false} LastBits(s: seq<int>)
    requires |s| == 44
    ensures Number(Group(s, 10)) % 256 == 0 <==> Digit(s[42]) % 4 == 0
  {
    var a, b, c := Digit(s[40]), Digit(s[41]), Digit(s[42]);
    GroupIs(s, 10);
    assert Digit(65) == 0;
    hide Digit, Group;
    var n := Number(Group(s, 10));
    assert n == a * 0x4_0000 + b * 0x1000 + c * 64;
    DivModUnique(n, 256, a * 1024 + b * 16 + c / 4, c % 4 * 64);
  }

  lemma {:induction false} CanonicalAccepted(s: seq<int>)
    ensures Canonical(s) <==> Accepted(s)
  {
    hide Digit, Number;
    if |s| == 44 {
      LastBits(s);
      if Canonical(s) {
        forall i | 0 <= i < 11 ensures AllDigits(Group(s, i)) {
          GroupIs(s, i);
          assert Digit(65) >= 0 by { DigitChar(0, 65); }
        }
      }
      if Accepted(s) {
        forall j | 0 <= j < 43 ensures Digit(s[j]) >= 0 {
          var i, r := j / 4, j % 4;
          assert AllDigits(Group(s, i));
          GroupIs(s, i);
          assert Group(s, i)[r] == s[j];
        }
      }
    }
  }

  lemma {:induction false} KeyOfHolds(s: seq<int>, i: nat)
    requires Accepted(s) && i <= 11
    ensures HoldsUpTo(KeyOf(s), s, i) && DigitsUpTo(s, i)
  {
    if i > 0 {
      KeyOfHolds(s, i - 1);
      var k, n := KeyOf(s), i - 1;
      assert (3 * n) / 3 == n && (3 * n + 1) / 3 == n && (3 * n + 2) / 3 == n;
      assert (3 * n) % 3 == 0 && (3 * n + 1) % 3 == 1 && (3 * n + 2) % 3 == 2;
      NextGroup(s, k, k, n, Number(Group(s, n)));
    }
  }

  /** A string is well-formed exactly if it is canonical base64. */
  lemma {:induction false} WellFormedCanonical(s: seq<int>)
    ensures WellFormed(s) <==> Canonical(s)
  {
    CanonicalAccepted(s);
    hide Canonical, Encoded;
    if Accepted(s) {
      KeyOfHolds(s, 11);
      hide KeyOf;
      Complete(s, KeyOf(s));
    } else {
      Refused(s);
    }
  }

  /** What the Java code accepts: canonical base64 in which strays may stand for the digits they are read as. */
  ghost predicate JavaCanonical(s: seq<int>)
    requires Typable(s, true)
  {
    |s| == 44 && s[43] == 61 && (forall i :: 0 <= i < 43 ==> JavaDigit(s[i]) >= 0) && JavaDigit(s[42]) % 4 == 0
  }

  lemma {:induction false} ViewCanonical(str: seq<int>)
    requires Typable(str, true)
    ensures Canonical(View(str, true)) <==> JavaCanonical(str)
  {
    var v := View(str, true);
    forall i | 0 <= i < |str| && i < 43 ensures Digit(v[i]) == JavaDigit(str[i]) {
      JavaDecodeCharIs(str[i]);
      SeenDigit(str[i]);
    }
    hide JavaDigit, Digit, Seen;
  }

  /** Acceptance by Java is right for a string exactly if it has no stray or is refused for another reason. */
  lemma {:induction false} JavaAcceptsRight(str: seq<int>)
    requires Typable(str, true)
    ensures WellFormed(View(str, true)) <==> JavaCanonical(str)
    ensures (WellFormed(View(str, true)) <==> WellFormed(str)) <==> !HasStray(str) || !JavaCanonical(str)
  {
    hide WellFormed, HasStray, View, JavaCanonical, Canonical;
    JavaAccepts(str);
    WellFormedCanonical(View(str, true));
    ViewCanonical(str);
  }

  /** Two keys with one encoding are one key. */
  lemma {:induction false} EncodedDetermines(k: Key, l: Key)
    requires Encoded(k) == Encoded(l)
    ensures k == l
  {
    hide Encoded, Number, Group, Triple;
    EncodedAccepted(k);
    EncodedAccepted(l);
    forall i | 0 <= i < 11 ensures Triple(k, i) == Triple(l, i) {
      assert Number(Group(Encoded(k), i)) == Triple(k, i);
    }
    TripleDetermines(k, l);
  }

  lemma {:induction false} Complete(s: seq<int>, key: Key)
    requires |s| == 44 && s[43] == 61 && HoldsUpTo(key, s, 11) && DigitsUpTo(s, 11)
    ensures s == Encoded(key)
  {
    TripleLast(key);
    hide Number, Group, AllDigits, Triple, Encoded;
    assert Triple(key, 10) == Number(Group(s, 10));
    AcceptedEncoded(s, key);
  }

  lemma {:induction false} Incomplete(s: seq<int>, val: int)
    requires |s| == 44 && s[43] == 61
    requires AllDigits(Group(s, 10)) ==> val == Number(Group(s, 10))
    requires !DigitsUpTo(s, 10) || !AllDigits(Group(s, 10)) || val % 256 != 0
    ensures forall k: Key :: s != Encoded(k)
  {
    hide Number, Group, AllDigits, Encoded;
    assert !Accepted(s);
    Refused(s);
  }

  lemma {:induction false} GroupIs(s: seq<int>, i: nat)
    requires |s| == 44 && i < 11
    ensures Group(s, i) == if i < 10 then s[4 * i..4 * i + 4] else [s[40], s[41], s[42], 65]
  {
  }

  lemma {:induction false} OrBit(a: int, b: int)
    requires (a == 0 || a == 1) && (b == 0 || b == 1)
    ensures Or(a, b) == if a == 0 && b == 0 then 0 else 1
  {
    assert Or(0, 0) == 0 && Or(0, 1) == 1 && Or(1, 0) == 1 && Or(1, 1) == 1;
  }

  lemma {:induction false} NotEncoded(s: seq<int>)
    requires |s| != 44 || s[43] != 61
    ensures forall k: Key :: s != Encoded(k)
  {
    forall k: Key ensures s != Encoded(k) {
      EncodedEnd(k);
      hide Encoded;
    }
  }

  lemma {:induction false} Refused(s: seq<int>)
    requires !Accepted(s)
    ensures forall k: Key :: s != Encoded(k)
  {
    hide Accepted, Encoded;
    forall k: Key ensures s != Encoded(k) {
      EncodedAccepted(k);
    }
  }

  /** Storing the three bytes of group i. */
  lemma {:induction false} StoreTriple(before: Key, after: Key, i: nat, val: int)
    requires i < 11 && 0 <= val < 0x100_0000 && (i == 10 ==> val % 256 == 0)
    requires after[3 * i] == val / 65536 % 256 && after[3 * i + 1] == val / 256 % 256
    requires i < 10 ==> after[3 * i + 2] == val % 256
    requires forall j :: 0 <= j < 3 * i ==> after[j] == before[j]
    ensures Triple(after, i) == val
    ensures forall n :: 0 <= n < i ==> Triple(after, n) == Triple(before, n)
  {
    var q := val / 256;
    DivDiv(val, 256, 256);
    assert val == 256 * q + val % 256 && q == 256 * (q / 256) + q % 256;
  }
}
