/** highlight_config of contrib/highlighter: a configuration text divided into typed spans. */
module Highlighter {
  import Base64

  datatype Type =
    | Section | FieldName | PrivateKeyValue | PublicKeyValue | PresharedKeyValue | IP | Cidr | Host | PortValue
    | MTUValue | KeepaliveValue | Comment | Delimiter | TableValue | FwMarkValue | SaveConfigValue | Cmd | Error | End

  datatype Field =
    | InterfaceSection | PrivateKey | ListenPort | Address | DNS | MTU | FwMark | Table | PreUp | PostUp | PreDown
    | PostDown | SaveConfig | PeerSection | PublicKey | PresharedKey | AllowedIPs | Endpoint | PersistentKeepalive
      | Invalid

  datatype Span = Span(typ: Type, start: nat, len: nat)

  /** The checks of addresses and names, which only choose between types. */
  datatype Check = Ipv4 | Ipv6 | Hostname | Scope

  type Checks = (Check, string) -> bool

  predicate Blank(c: char)
  {
    c == ' ' || c == '\t' || c == '\n'
  }

  ghost predicate Blanks(text: string, from: nat, to: nat)
  {
    from <= to <= |text| && forall p :: from <= p < to ==> Blank(text[p])
  }

  predicate Has(s: Span, p: nat)
  {
    s.start <= p < s.start + s.len
  }

  ghost predicate Within(spans: seq<Span>, p: nat)
  {
    exists k :: 0 <= k < |spans| && Has(spans[k], p)
  }

  // ----- single values -----

  predicate IsDecimal(c: char)
  {
    '0' <= c <= '9'
  }

  predicate IsHexadecimal(c: char)
  {
    IsDecimal(c) || 'a' <= c <= 'f' || 'A' <= c <= 'F'
  }

  function DigitOf(c: char): (d: int)
    requires IsHexadecimal(c)
    ensures 0 <= d < 16
  {
    if IsDecimal(c) then c as int - '0' as int
    else if c <= 'F' then c as int - 'A' as int + 10
    else c as int - 'a' as int + 10
  }

  predicate Digits(s: string, base: int)
  {
    forall i :: 0 <= i < |s| ==> if base == 10 then IsDecimal(s[i]) else IsHexadecimal(s[i])
  }

  /** The number that digits stand for. */
  function ValueOf(s: string, base: int): (v: int)
    requires Digits(s, base) && base > 0
    ensures v >= 0
  {
    if s == "" then 0 else ValueOf(s[..|s| - 1], base) * base + DigitOf(s[|s| - 1])
  }

  /** A number of at most ten characters within bounds, in hexadecimal behind 0x where that is supported. */
  predicate ValidUint(s: string, hex: bool, min: int, max: int)
  {
    && 0 < |s| <= 10
    && if hex && |s| > 2 && s[0] == '0' && s[1] == 'x' then Digits(s[2..], 16) && min <= ValueOf(s[2..], 16) <= max
       else Digits(s, 10) && min <= ValueOf(s, 10) <= max
  }

  predicate ValidPort(s: string)
  {
    ValidUint(s, false, 0, 65535)
  }

  predicate KeyChar(c: char)
  {
    IsDecimal(c) || 'a' <= c <= 'z' || 'A' <= c <= 'Z' || c == '/' || c == '+'
  }

  lemma {:induction false} DecimalIs(c: char)
    ensures IsDecimal(c) <==> c in "0123456789"
    ensures IsHexadecimal(c) <==> c in "0123456789" || c in "abcdef" || c in "ABCDEF"
  {
  }

  /** The value of a digit is its place. */
  lemma {:induction false} DigitIs(i: nat)
    ensures i < 10 ==> DigitOf("0123456789"[i]) == i
    ensures i < 6 ==> DigitOf("abcdef"[i]) == 10 + i && DigitOf("ABCDEF"[i]) == 10 + i
  {
    assert i == 0 || i == 1 || i == 2 || i == 3 || i == 4 || i == 5 || i == 6 || i == 7 || i == 8 || i >= 9;
  }

  /** What is_valid_key accepts. */
  predicate ValidKey(s: string)
  {
    && |s| == 44 && s[43] == '='
    && (forall i :: 0 <= i < 42 ==> KeyChar(s[i]))
    && s[42] in "AEIMQUYcgkosw480"
  }

  /** The check of a field with a single value. */
  predicate Passes(field: Field, s: string)
  {
    match field
    case PrivateKey => ValidKey(s)
    case PublicKey => ValidKey(s)
    case PresharedKey => ValidKey(s)
    case MTU => ValidUint(s, false, 576, 65535)
    case SaveConfig => s == "true" || s == "false"
    case FwMark => s == "off" || ValidUint(s, true, 0, 4294967295)
    case Table => s == "auto" || s == "off" || |s| < 512 || ValidUint(s, false, 0, 4294967295)
    case PreUp => |s| > 0
    case PostUp => |s| > 0
    case PreDown => |s| > 0
    case PostDown => |s| > 0
    case ListenPort => ValidPort(s)
    case PersistentKeepalive => s == "off" || ValidPort(s)
    case _ => false
  }

  /** is_valid_uint: the loops over decimal and hexadecimal digits. */
  method IsValidUint(s: string, hex: bool, min: int, max: int) returns (r: bool)
    requires 0 <= min && max < 0x1_0000_0000
    ensures r == ValidUint(s, hex, min, max)
  {
    if |s| > 10 || |s| == 0 { return false; }
    var base, digits := 10, s;
    if hex && |s| > 2 && s[0] == '0' && s[1] == 'x' {
      base, digits := 16, s[2..];
    }
    var val := 0;
    for i := 0 to |digits|
      invariant Digits(digits[..i], base) && val == ValueOf(digits[..i], base)
    {
      var c := digits[i];
      if !(if base == 10 then IsDecimal(c) else IsHexadecimal(c)) { return false; }
      DigitsMore(digits, i, base);
      val := base * val + DigitOf(c);
    }
    assert digits[..|digits|] == digits;
    return min <= val <= max;
  }

  lemma {:induction false} DigitsMore(s: string, i: nat, base: int)
    requires i < |s| && base > 0 && Digits(s[..i], base)
             && (if base == 10 then IsDecimal(s[i]) else IsHexadecimal(s[i]))
    ensures Digits(s[..i + 1], base) && ValueOf(s[..i + 1], base) == ValueOf(s[..i], base) * base + DigitOf(s[i])
  {
    assert s[..i + 1][..i] == s[..i];
  }

  /** is_valid_key: the loop over the first 42 characters. */
  method IsValidKey(s: string) returns (r: bool)
    ensures r == ValidKey(s)
  {
    if |s| != 44 || s[43] != '=' { return false; }
    for i := 0 to 42
      invariant forall k :: 0 <= k < i ==> KeyChar(s[k])
    {
      if !KeyChar(s[i]) { return false; }
    }
    return s[42] in "AEIMQUYcgkosw480";
  }

  /** The check of the field. */
  method IsValid(field: Field, s: string) returns (r: bool)
    ensures r == Passes(field, s)
  {
    hide ValidUint, ValidKey;
    match field {
      case PrivateKey => r := IsValidKey(s);
      case PublicKey => r := IsValidKey(s);
      case PresharedKey => r := IsValidKey(s);
      case MTU => r := IsValidUint(s, false, 576, 65535);
      case SaveConfig => r := s == "true" || s == "false";
      case FwMark =>
        r := IsValidUint(s, true, 0, 4294967295);
        r := s == "off" || r;
      case Table =>
        r := IsValidUint(s, false, 0, 4294967295);
        r := s == "auto" || s == "off" || |s| < 512 || r;
      case PreUp => r := |s| > 0;
      case PostUp => r := |s| > 0;
      case PreDown => r := |s| > 0;
      case PostDown => r := |s| > 0;
      case ListenPort => r := IsValidPort(s);
      case PersistentKeepalive =>
        r := IsValidPort(s);
        r := s == "off" || r;
      case _ => r := false;
    }
  }

  /** A character code as the base64 codec sees it. */
  function Codes(s: string): (r: seq<int>)
    ensures |r| == |s|
  {
    seq(|s|, i requires 0 <= i < |s| => s[i] as int)
  }

  /** A text is coloured as a key exactly if key_from_base64 accepts it. */
  lemma {:induction false} ValidKeyIsKey(s: string)
    ensures ValidKey(s) <==> Base64.WellFormed(Codes(s))
  {
    Base64.WellFormedCanonical(Codes(s));
    hide Base64.WellFormed;
    forall i | 0 <= i < |s| ensures KeyChar(s[i]) <==> Base64.Digit(Codes(s)[i]) >= 0 {
      CharDigit(s[i]);
    }
    if |s| == 44 {
      CharDigit(s[42]);
      hide KeyChar, Base64.Digit;
    }
  }

  lemma {:induction false} CharDigit(c: char)
    ensures KeyChar(c) <==> Base64.Digit(c as int) >= 0
    ensures c in "AEIMQUYcgkosw480" <==> Base64.Digit(c as int) >= 0 && Base64.Digit(c as int) % 4 == 0
  {
  }

  /** The first position of a character from a start on, or the length. */
  function Index(s: string, c: char, from: nat): (n: nat)
    requires from <= |s|
    ensures from <= n <= |s| && (n < |s| ==> s[n] == c) && forall k :: from <= k < n ==> s[k] != c
    decreases |s| - from
  {
    if from == |s| || s[from] == c then from else Index(s, c, from + 1)
  }

  /** The position of the first slash, or the length. */
  function Slash(s: string): (n: nat)
    ensures n <= |s|
  {
    Index(s, '/', 0)
  }

  predicate ValidPrefix(s: string, max: int)
  {
    0 < |s| <= 3 && Digits(s, 10) && ValueOf(s, 10) <= max
  }

  predicate ValidNetwork(s: string, valid: Checks)
  {
    var n := Slash(s);
    if n == |s| then valid(Ipv4, s) || valid(Ipv6, s)
    else if valid(Ipv4, s[..n]) then ValidPrefix(s[n + 1..], 32)
    else valid(Ipv6, s[..n]) && ValidPrefix(s[n + 1..], 128)
  }

  /** is_valid_network */
  method IsValidNetwork(s: string, valid: Checks) returns (r: bool)
    ensures r == ValidNetwork(s, valid)
  {
    for i := 0 to |s|
      invariant '/' !in s[..i]
    {
      if s[i] == '/' {
        FirstSlash(s, i);
        var cidr := s[i + 1..];
        if |cidr| > 3 || |cidr| == 0 { return false; }
        var val := 0;
        for j := 0 to |cidr|
          invariant Digits(cidr[..j], 10) && val == ValueOf(cidr[..j], 10)
        {
          if !IsDecimal(cidr[j]) { return false; }
          DigitsMore(cidr, j, 10);
          val := 10 * val + DigitOf(cidr[j]);
        }
        assert cidr[..|cidr|] == cidr;
        if valid(Ipv4, s[..i]) {
          return val <= 32;
        } else if valid(Ipv6, s[..i]) {
          return val <= 128;
        }
        return false;
      }
    }
    assert s[..|s|] == s;
    FirstSlash(s, |s|);
    return valid(Ipv4, s) || valid(Ipv6, s);
  }

  lemma {:induction false} FirstSlash(s: string, i: nat)
    requires i <= |s| && '/' !in s[..i] && (i < |s| ==> s[i] == '/')
    ensures Slash(s) == i
  {
    assert forall k :: 0 <= k < i ==> s[k] == s[..i][k];
    FirstIndex(s, '/', 0, i);
    hide Index;
  }

  lemma {:induction false} FirstIndex(s: string, c: char, from: nat, i: nat)
    requires from <= i <= |s| && (forall k :: from <= k < i ==> s[k] != c) && (i < |s| ==> s[i] == c)
    ensures Index(s, c, from) == i
  {
    hide Index;
  }

  // ----- spans -----

  /** What a type says about the text of its span. */
  ghost predicate Bears(typ: Type, own: string, valid: Checks)
  {
    match typ
    case End => false
    case Comment => own != "" && own[0] == '#' && '\n' !in own
    case Delimiter => |own| == 1 && own[0] in "=,/:"
    case Section => GetSection(own) != Invalid
    case FieldName => GetField(own) != Invalid
    case PrivateKeyValue => ValidKey(own)
    case PublicKeyValue => ValidKey(own)
    case PresharedKeyValue => ValidKey(own)
    case MTUValue => Passes(MTU, own)
    case KeepaliveValue => Passes(PersistentKeepalive, own)
    case TableValue => Passes(Table, own)
    case FwMarkValue => Passes(FwMark, own)
    case SaveConfigValue => Passes(SaveConfig, own)
    case Cmd => own != ""
    case PortValue => ValidPort(own)
    case Cidr => ValidPrefix(own, 128)
    case IP => valid(Ipv4, own) || valid(Ipv6, own)
    case Host => valid(Hostname, own) || valid(Ipv4, own) || (own != "" && own[0] == '[')
    case Error => true
  }

  /** A span with its type; a comment runs to the end of its line. */
  ghost predicate Typed(text: string, valid: Checks, s: Span)
  {
    var end := s.start + s.len;
    && end <= |text| && Bears(s.typ, text[s.start..end], valid)
    && (s.typ == Comment ==> end == |text| || text[end] == '\n')
  }

  /**
   Non-empty, ordered and disjoint spans below e that hold every character below e except blanks,
   each with its type.
   */
  ghost predicate Tiled(text: string, valid: Checks, spans: seq<Span>, e: nat)
  {
    && e <= |text|
    && (forall k :: 0 <= k < |spans| ==>
          spans[k].len > 0 && spans[k].start + spans[k].len <= e && Typed(text, valid, spans[k]))
    && (forall j, k :: 0 <= j < k < |spans| ==> spans[j].start + spans[j].len <= spans[k].start)
    && forall p :: 0 <= p < e && !Blank(text[p]) ==> Within(spans, p)
  }

  lemma {:induction false} BlankIs(c: char)
    requires c == ' ' || c == '\t'
    ensures Blank(c)
  {
  }

  lemma {:induction false} NoBlanks(text: string, at: nat)
    requires at <= |text|
    ensures Blanks(text, at, at)
  {
  }

  lemma {:induction false} BlanksMore(text: string, from: nat, to: nat)
    requires Blanks(text, from, to) && to < |text| && Blank(text[to])
    ensures Blanks(text, from, to + 1)
  {
    hide Blank;
  }

  /** append_highlight_span; growing the array is assumed to succeed. */
  function Append(spans: seq<Span>, start: nat, len: nat, typ: Type): seq<Span>
  {
    if len == 0 then spans else spans + [Span(typ, start, len)]
  }

  lemma {:induction false} WithinMore(spans: seq<Span>, s: Span, p: nat)
    ensures Within(spans + [s], p) <==> Within(spans, p) || Has(s, p)
  {
    var more := spans + [s];
    if Within(spans, p) {
      var k :| 0 <= k < |spans| && Has(spans[k], p);
      assert Has(more[k], p);
    }
    if Has(s, p) { assert Has(more[|spans|], p); }
    if Within(more, p) {
      var k :| 0 <= k < |more| && Has(more[k], p);
      if k < |spans| { assert Has(spans[k], p); }
    }
  }

  lemma {:induction false} TiledBlanks(text: string, valid: Checks, spans: seq<Span>, e: nat, f: nat)
    requires Tiled(text, valid, spans, e) && Blanks(text, e, f)
    ensures Tiled(text, valid, spans, f)
  {
    hide Within, Blank;
  }

  lemma {:induction false} TiledAppend(text: string, valid: Checks, spans: seq<Span>, start: nat, len: nat, typ: Type)
    requires Tiled(text, valid, spans, start) && start + len <= |text|
    requires len > 0 ==> Typed(text, valid, Span(typ, start, len))
    ensures Tiled(text, valid, Append(spans, start, len, typ), start + len)
  {
    if len > 0 {
      var s := Span(typ, start, len);
      forall p | 0 <= p < start + len && !Blank(text[p]) ensures Within(spans + [s], p) {
        WithinMore(spans, s, p);
      }
      hide Within, Blank;
    }
  }

  /** Marking the last span as an error changes nothing else. */
  lemma {:induction false} TiledRetype(text: string, valid: Checks, spans: seq<Span>, e: nat)
    requires Tiled(text, valid, spans, e) && |spans| > 0
    ensures Tiled(text, valid, spans[|spans| - 1 := spans[|spans| - 1].(typ := Error)], e)
  {
    hide Typed, Within, Blank;
    var n := |spans| - 1;
    var r := spans[n := spans[n].(typ := Error)];
    ErrorTyped(text, valid, spans[n]);
    forall p | 0 <= p < e && !Blank(text[p]) ensures Within(r, p) {
      RetypeWithin(spans, p);
    }
  }

  lemma {:induction false} ErrorTyped(text: string, valid: Checks, span: Span)
    requires Typed(text, valid, span)
    ensures Typed(text, valid, span.(typ := Error))
  {
  }

  lemma {:induction false} RetypeWithin(spans: seq<Span>, p: nat)
    requires |spans| > 0 && Within(spans, p)
    ensures Within(spans[|spans| - 1 := spans[|spans| - 1].(typ := Error)], p)
  {
    var k :| 0 <= k < |spans| && Has(spans[k], p);
    assert Has(spans[|spans| - 1 := spans[|spans| - 1].(typ := Error)][k], p);
  }

  // ----- values -----

  /** A bracketed IPv6 address, perhaps with a scope, that ends at j. */
  predicate ValidBracket(s: string, valid: Checks, j: nat)
    requires 1 <= j <= |s|
  {
    var p := Index(s, '%', 1);
    if p >= j then valid(Ipv6, s[1..j])
    else valid(Ipv6, s[1..p]) && Index(s, '%', p + 1) >= j && valid(Scope, s[p + 1..j])
  }

  /** The colon in front of the port: behind the bracket or the first one. */
  function PortColon(s: string): (n: nat)
  {
    if s != "" && s[0] == '[' then Index(s, ']', 1) + 1 else Index(s, ':', 0)
  }

  /** A bracketed address or a plain host, a colon and a port. */
  predicate ValidEndpoint(s: string, valid: Checks)
  {
    var n := PortColon(s);
    && n < |s| && s[n] == ':' && ValidPort(s[n + 1..])
    && if s[0] == '[' then ValidBracket(s, valid, n - 1) else valid(Ipv4, s[..n]) || valid(Hostname, s[..n])
  }

  /** is_valid_endpoint */
  method IsValidEndpoint(s: string, valid: Checks) returns (r: bool)
    ensures r == ValidEndpoint(s, valid)
  {
    hide ValidPort, Index, ValidBracket;
    if s == "" { return false; }
    if s[0] == '[' {
      r := IsBracketed(s, valid);
      return;
    }
    for i := 0 to |s|
      invariant forall k :: 0 <= k < i ==> s[k] != ':'
    {
      if s[i] == ':' {
        FirstIndex(s, ':', 0, i);
        r := IsValidPort(s[i + 1..]);
        return r && (valid(Ipv4, s[..i]) || valid(Hostname, s[..i]));
      }
    }
    FirstIndex(s, ':', 0, |s|);
    return false;
  }

  /** The loop over a bracketed address; the scope starts behind its percent sign. */
  method IsBracketed(s: string, valid: Checks) returns (r: bool)
    requires s != "" && s[0] == '['
    ensures r == ValidEndpoint(s, valid)
  {
    hide ValidPort, Index;
    ghost var p := Index(s, '%', 1);
    var seenScope, host, len: nat := false, 1, 0;
    for i := 1 to |s|
      invariant host + len == i && seenScope == (p < i)
      invariant forall k :: 1 <= k < i ==> s[k] != ']'
      invariant if seenScope then host == p + 1 && valid(Ipv6, s[1..p]) else host == 1
      invariant seenScope ==> forall k :: p < k < i ==> s[k] != '%'
    {
      if s[i] == '%' {
        if seenScope {
          FirstIndex(s, '%', p + 1, i);
          SecondPercent(s, valid, i);
          return false;
        }
        seenScope := true;
        if !valid(Ipv6, s[host..host + len]) {
          SecondPercent(s, valid, i);
          return false;
        }
        host, len := i + 1, 0;
      } else if s[i] == ']' {
        FirstIndex(s, ']', 1, i);
        var ok := if seenScope then valid(Scope, s[host..host + len]) else valid(Ipv6, s[host..host + len]);
        assert ok == ValidBracket(s, valid, i);
        if !ok { return false; }
        if i == |s| - 1 || s[i + 1] != ':' { return false; }
        r := IsValidPort(s[i + 2..]);
        return;
      } else {
        len := len + 1;
      }
    }
    FirstIndex(s, ']', 1, |s|);
    return false;
  }

  /** Refused in front of the bracket: a second percent sign, or no address in front of the first. */
  lemma {:induction false} SecondPercent(s: string, valid: Checks, i: nat)
    requires 1 <= i < |s| && s[0] == '[' && s[i] == '%' && forall k :: 1 <= k <= i ==> s[k] != ']'
    requires var p := Index(s, '%', 1);
             p <= i && if p == i then !valid(Ipv6, s[1..p]) else Index(s, '%', p + 1) == i
    ensures !ValidEndpoint(s, valid)
  {
    hide ValidPort, Index;
    assert Index(s, ']', 1) > i;
  }

  /** A host, a colon and a port. */
  ghost predicate HostAndPort(s: string, valid: Checks, colon: nat)
  {
    && colon < |s| && s[colon] == ':' && ValidPort(s[colon + 1..])
    && (valid(Hostname, s[..colon]) || valid(Ipv4, s[..colon]) || (colon > 0 && s[0] == '['))
  }

  lemma {:induction false} EndpointSplit(s: string, valid: Checks)
    requires ValidEndpoint(s, valid)
    ensures HostAndPort(s, valid, PortColon(s))
  {
    hide ValidPort, Index, ValidBracket;
  }

  /** is_valid_port */
  method IsValidPort(s: string) returns (r: bool)
    ensures r == ValidPort(s)
  {
    r := IsValidUint(s, false, 0, 65535);
  }

  /** The search for the last colon. */
  method LastColon(s: string) returns (colon: nat)
    requires ':' in s
    ensures colon < |s| && s[colon] == ':' && forall k :: colon < k < |s| ==> s[k] != ':'
  {
    ghost var i :| 0 <= i < |s| && s[i] == ':';
    colon := |s| - 1;
    while s[colon] != ':'
      invariant i <= colon < |s| && forall k :: colon < k < |s| ==> s[k] != ':'
      decreases colon
    {
      colon := colon - 1;
    }
  }

  // ----- the colours of a text, line by line -----

  function Upper(c: char): char
  {
    if 'a' <= c <= 'z' then c - 32 as char else c
  }

  /** The same text but for the case of its letters. */
  predicate Named(s: string, name: string)
  {
    |s| == |name| && forall i :: 0 <= i < |s| ==> Upper(s[i]) == Upper(name[i])
  }

  /** The letters in three rows, small and great. */
  function Small(r: nat): string { if r == 0 then "abcdefghi" else if r == 1 then "jklmnopqr" else "stuvwxyz" }
  function Great(r: nat): string { if r == 0 then "ABCDEFGHI" else if r == 1 then "JKLMNOPQR" else "STUVWXYZ" }

  lemma {:induction false} UpperLetter(r: nat, i: nat)
    requires r < 3 && i < |Small(r)|
    ensures |Great(r)| == |Small(r)| && Upper(Small(r)[i]) == Great(r)[i]
  {
    assert i == 0 || i == 1 || i == 2 || i == 3 || i == 4 || i == 5 || i == 6 || i == 7 || i == 8;
  }

  lemma {:induction false} UpperOther(c: char)
    requires c !in Small(0) && c !in Small(1) && c !in Small(2)
    ensures Upper(c) == c
  {
  }

  predicate Space(c: char)
  {
    c == ' ' || c == '\t'
  }

  ghost predicate Spaces(text: string, from: nat, to: nat)
  {
    from <= to <= |text| && forall p :: from <= p < to ==> Space(text[p])
  }

  /** The first position in a stretch that is no blank, or its end. */
  function Front(text: string, from: nat, to: nat): (n: nat)
    requires from <= to <= |text|
    ensures from <= n <= to && Spaces(text, from, n) && (n < to ==> !Space(text[n]))
    decreases |text| - from
  {
    if from == to || !Space(text[from]) then from else Front(text, from + 1, to)
  }

  /** The position behind the last character of a stretch that is no blank, or its start. */
  function Back(text: string, from: nat, to: nat): (n: nat)
    requires from <= to <= |text|
    ensures from <= n <= to && Spaces(text, n, to) && (from < n ==> !Space(text[n - 1]))
    decreases (to)
  {
    if from == to || !Space(text[to - 1]) then to else Back(text, from, to - 1)
  }

  /** The first place of a character in a stretch, or its end. */
  function Find(text: string, c: char, from: nat, to: nat): (n: nat)
    requires from <= to <= |text|
    ensures from <= n <= to && (n < to ==> text[n] == c) && forall k :: from <= k < n ==> text[k] != c
  {
    var n := Index(text, c, from);
    if n < to then n else to
  }

  /** A span from one position to another, none where they are the same. */
  function One(typ: Type, from: nat, to: nat): seq<Span>
    requires from <= to
  {
    if from == to then [] else [Span(typ, from, to - from)]
  }

  predicate InterfaceKey(key: string)
  {
    || Named(key, "PrivateKey") || Named(key, "ListenPort") || Named(key, "Address") || Named(key, "DNS")
    || Named(key, "MTU") || Named(key, "FwMark") || Named(key, "Table") || Named(key, "PreUp") || Named(key, "PostUp")
    || Named(key, "PreDown") || Named(key, "PostDown") || Named(key, "SaveConfig")
  }

  predicate PeerKey(key: string)
  {
    || Named(key, "PublicKey") || Named(key, "PresharedKey") || Named(key, "AllowedIPs") || Named(key, "Endpoint")
    || Named(key, "PersistentKeepalive")
  }

  predicate Heads(line: string)
  {
    Named(line, "[Interface]") || Named(line, "[Peer]")
  }

  /** A key in front of an equals sign is a field of the section under whose header it stands, or an error. */
  function KeyType(header: string, key: string): Type
  {
    if (Named(header, "[Interface]") && InterfaceKey(key)) || (Named(header, "[Peer]") && PeerKey(key)) then FieldName
    else Error
  }

  /** The type of a single value behind a key. */
  function ValueType(key: string, v: string): Type
  {
    if Named(key, "PrivateKey") && ValidKey(v) then PrivateKeyValue
    else if Named(key, "PublicKey") && ValidKey(v) then PublicKeyValue
    else if Named(key, "PresharedKey") && ValidKey(v) then PresharedKeyValue
    else if Named(key, "MTU") && ValidUint(v, false, 576, 65535) then MTUValue
    else if Named(key, "SaveConfig") && (v == "true" || v == "false") then SaveConfigValue
    else if Named(key, "FwMark") && (v == "off" || ValidUint(v, true, 0, 4294967295)) then FwMarkValue
    else if Named(key, "Table") && (v == "auto" || v == "off" || |v| < 512 || ValidUint(v, false, 0, 4294967295)) then
      TableValue
    else if (Named(key, "PreUp") || Named(key, "PostUp") || Named(key, "PreDown") || Named(key, "PostDown")) && v != ""
    then Cmd
    else if Named(key, "ListenPort") && ValidUint(v, false, 0, 65535) then PortValue
    else if Named(key, "PersistentKeepalive") && (v == "off" || ValidUint(v, false, 0, 65535)) then KeepaliveValue
    else Error
  }

  /** An address, and the prefix length behind the slash. */
  function NetworkSpans(text: string, from: nat, to: nat): seq<Span>
    requires from <= to <= |text|
  {
    var n := Find(text, '/', from, to);
    One(IP, from, n) + if n < to then [Span(Delimiter, n, 1)] + One(Cidr, n + 1, to) else []
  }

  /** One value of a list. */
  function ListedSpans(text: string, valid: Checks, key: string, from: nat, to: nat): seq<Span>
    requires from <= to <= |text|
  {
    var v := text[from..to];
    if Named(key, "DNS") then
      One(if valid(Ipv4, v) || valid(Ipv6, v) then IP else if valid(Hostname, v) then Host else Error, from, to)
    else if (Named(key, "Address") || Named(key, "AllowedIPs")) && ValidNetwork(v, valid) then
      NetworkSpans(text, from, to)
    else One(Error, from, to)
  }

  /** A list of values; a comma with nothing behind it is an error. */
  function ListSpans(text: string, valid: Checks, key: string, from: nat, to: nat): seq<Span>
    requires from <= to <= |text|
    decreases |text| - from
  {
    var c := Find(text, ',', from, to);
    var f := Front(text, from, c);
    var listed := ListedSpans(text, valid, key, f, Back(text, f, c));
    if c == to then listed
    else listed + [Span(if c + 1 == to then Error else Delimiter, c, 1)] + ListSpans(text, valid, key, c + 1, to)
  }

  /** A host, a colon and a port. */
  function EndpointSpans(from: nat, colon: nat, to: nat): seq<Span>
    requires from <= colon < to
  {
    One(Host, from, colon) + [Span(Delimiter, colon, 1)] + One(PortValue, colon + 1, to)
  }

  /** A value behind a key. */
  function ValueSpans(text: string, valid: Checks, key: string, from: nat, to: nat): seq<Span>
    requires from <= to <= |text|
  {
    var v := text[from..to];
    if Named(key, "Endpoint") then
      if ValidEndpoint(v, valid) then
        EndpointSpans(from, from + PortColon(v), to)
      else One(Error, from, to)
    else if Named(key, "Address") || Named(key, "DNS") || Named(key, "AllowedIPs") then
      ListSpans(text, valid, key, from, to)
    else One(ValueType(key, v), from, to)
  }

  /** What stands behind an equals sign: a value, or nothing, and then the sign is an error. */
  function AssignedSpans(text: string, valid: Checks, key: string, equals: nat, to: nat): seq<Span>
    requires equals < to <= |text|
  {
    var v := Front(text, equals + 1, to);
    if v == to then [Span(Error, equals, 1)]
    else [Span(Delimiter, equals, 1)] + ValueSpans(text, valid, key, v, Back(text, v, to))
  }

  /** A line without its comment: nothing, a section header, or a key with or without a value. */
  function BodySpans(text: string, valid: Checks, header: string, from: nat, to: nat): seq<Span>
    requires from <= to <= |text|
  {
    var f := Front(text, from, to);
    var t := Back(text, f, to);
    if f == to then []
    else if text[f] == '[' then [Span(if Heads(text[f..t]) then Section else Error, f, t - f)]
    else
      var q := Find(text, '=', f + 1, to);
      if q == to then [Span(Error, f, t - f)]
      else
        var k := Back(text, f, q);
        [Span(KeyType(header, text[f..k]), f, k - f)] + AssignedSpans(text, valid, text[f..k], q, to)
  }

  /** A line from its start to its end: the comment starts at the first number sign. */
  function LineSpans(text: string, valid: Checks, header: string, from: nat, to: nat): seq<Span>
    requires from <= to <= |text|
  {
    var h := Find(text, '#', from, to);
    BodySpans(text, valid, header, from, h) + One(Comment, h, to)
  }

  /** The header in force behind a line without its comment. */
  function HeaderAfter(text: string, header: string, from: nat, to: nat): string
    requires from <= to <= |text|
  {
    var f := Front(text, from, to);
    if f < to && text[f] == '[' then text[f..Back(text, f, to)] else header
  }

  /** Where the line of a position starts. */
  function LineStart(text: string, p: nat): (a: nat)
    requires p <= |text|
    ensures a <= p && (a == 0 || text[a - 1] == '\n') && forall k :: a <= k < p ==> text[k] != '\n'
  {
    if p == 0 || text[p - 1] == '\n' then p else LineStart(text, p - 1)
  }

  /** The nearest line above that starts with a bracket, without its comment; empty if there is none. */
  function Header(text: string, a: nat): string
    requires a <= |text|
  {
    if a == 0 then "" else
    var b := LineStart(text, a - 1);
    HeaderAfter(text, Header(text, b), b, Find(text, '#', b, a - 1))
  }

  /** The spans of all lines from one line on. */
  function SpansFrom(text: string, valid: Checks, a: nat): seq<Span>
    requires a <= |text|
    decreases |text| - a
  {
    var e := Find(text, '\n', a, |text|);
    LineSpans(text, valid, Header(text, a), a, e) + if e == |text| then [] else SpansFrom(text, valid, e + 1)
  }

  lemma {:induction false} FrontIs(text: string, from: nat, to: nat, n: nat)
    requires from <= n <= to <= |text| && Spaces(text, from, n) && (n < to ==> !Space(text[n]))
    ensures Front(text, from, to) == n
  {
    hide Front, Space;
  }

  lemma {:induction false} BackIs(text: string, from: nat, to: nat, n: nat)
    requires from <= n <= to <= |text| && Spaces(text, n, to) && (from < n ==> !Space(text[n - 1]))
    ensures Back(text, from, to) == n
  {
    hide Back, Space;
  }

  lemma {:induction false} FindIs(text: string, c: char, from: nat, to: nat, n: nat)
    requires from <= n <= to <= |text| && (n < to ==> text[n] == c) && forall k :: from <= k < n ==> text[k] != c
    ensures Find(text, c, from, to) == n
  {
    hide Find;
  }

  lemma {:induction false} AppendOne(spans: seq<Span>, start: nat, len: nat, typ: Type)
    ensures Append(spans, start, len, typ) == spans + One(typ, start, start + len)
    ensures len == 1 ==> Append(spans, start, len, typ) == spans + [Span(typ, start, 1)]
  {
  }

  lemma {:induction false} HostTyped(text: string, valid: Checks, start: nat, len: nat, typ: Type)
    requires start + len <= |text|
    requires var s := text[start..start + len];
             || (typ == IP && (valid(Ipv4, s) || valid(Ipv6, s))) || (typ == Host && valid(Hostname, s)) || typ == Error
    ensures Typed(text, valid, Span(typ, start, len))
  {
    hide GetField, GetSection, ValidKey, Passes, ValidPrefix, ValidPort;
  }

  lemma {:induction false} SlashFind(text: string, start: nat, len: nat)
    requires start + len <= |text|
    ensures Find(text, '/', start, start + len) == start + Slash(text[start..start + len])
  {
    var s := text[start..start + len];
    var n := Slash(s);
    assert n < len ==> s[n] == '/' && text[start + n] == s[n];
    assert forall k :: start <= k < start + n ==> text[k] == s[k - start];
    FindIs(text, '/', start, start + len, start + n);
    hide Find;
  }

  /** A value in a list: an address, split at its prefix length, a host or an error. */
  method HighlightListed(text: string, spans: seq<Span>, start: nat, len: nat, field: Field, valid: Checks,
                         ghost key: string)
    returns (r: seq<Span>)
    requires Tiled(text, valid, spans, start) && start + len <= |text| && field == GetField(key)
    ensures Tiled(text, valid, r, start + len) && |r| >= |spans|
    ensures r == spans + ListedSpans(text, valid, key, start, start + len)
  {
    hide Tiled, ValidNetwork, GetField, Named, NetworkSpans, Typed;
    FieldIs(key);
    Plain(text, valid, start, len);
    var s := text[start..start + len];
    if field == DNS {
      var typ := if valid(Ipv4, s) || valid(Ipv6, s) then IP else if valid(Hostname, s) then Host else Error;
      HostTyped(text, valid, start, len, typ);
      TiledAppend(text, valid, spans, start, len, typ);
      r := Append(spans, start, len, typ);
      return;
    }
    if field == Address || field == AllowedIPs {
      var ok := IsValidNetwork(s, valid);
      if ok {
        r := HighlightNetwork(text, spans, start, len, valid);
        return;
      }
    }
    TiledAppend(text, valid, spans, start, len, Error);
    r := Append(spans, start, len, Error);
  }

  /** A valid network: the address, and the prefix length behind the slash. */
  method HighlightNetwork(text: string, spans: seq<Span>, start: nat, len: nat, valid: Checks) returns (r: seq<Span>)
    requires Tiled(text, valid, spans, start) && start + len <= |text| && ValidNetwork(text[start..start + len], valid)
    ensures Tiled(text, valid, r, start + len) && |r| >= |spans|
    ensures r == spans + NetworkSpans(text, start, start + len)
  {
    hide Tiled, ValidNetwork, Typed, Find;
    var s, slash := text[start..start + len], 0;
    while slash < len && s[slash] != '/'
      invariant slash <= len && '/' !in s[..slash]
    {
      slash := slash + 1;
    }
    FirstSlash(s, slash);
    SlashFind(text, start, len);
    NetworkParts(text, valid, start, len);
    hide Slash;
    TiledAppend(text, valid, spans, start, slash, IP);
    r := Append(spans, start, slash, IP);
    if slash < len {
      TiledAppend(text, valid, r, start + slash, 1, Delimiter);
      r := Append(r, start + slash, 1, Delimiter);
      TiledAppend(text, valid, r, start + slash + 1, len - slash - 1, Cidr);
      r := Append(r, start + slash + 1, len - slash - 1, Cidr);
    }
  }

  /** The parts of a valid network have their types. */
  lemma {:induction false} NetworkParts(text: string, valid: Checks, start: nat, len: nat)
    requires start + len <= |text| && ValidNetwork(text[start..start + len], valid)
    ensures var n := Slash(text[start..start + len]);
            && Typed(text, valid, Span(IP, start, n))
            && (n < len ==> Typed(text, valid, Span(Delimiter, start + n, 1))
                            && Typed(text, valid, Span(Cidr, start + n + 1, len - n - 1)))
  {
    hide Bears, ValidNetwork, Slash;
    var s := text[start..start + len];
    var n := Slash(s);
    NetworkBears(s, valid);
    assert text[start..start + n] == s[..n];
    if n < len {
      assert text[start + n..start + n + 1] == [s[n]];
      assert text[start + n + 1..start + n + 1 + (len - n - 1)] == s[n + 1..];
    }
  }

  lemma {:induction false} NetworkBears(s: string, valid: Checks)
    requires ValidNetwork(s, valid)
    ensures var n := Slash(s);
            && Bears(IP, s[..n], valid)
            && (n < |s| ==> Bears(Delimiter, [s[n]], valid) && Bears(Cidr, s[n + 1..], valid))
  {
    var n := Slash(s);
    assert n == |s| ==> s[..n] == s;
    assert n < |s| ==> s[n] == '/' && [s[n]][0] == '/';
    hide Slash, Digits, ValueOf, GetField, GetSection, ValidKey, ValidUint;
  }

  /** The last colon of a valid endpoint is the one in front of its port. */
  lemma {:induction false} LastIsPort(s: string, valid: Checks, colon: nat, last: nat)
    requires HostAndPort(s, valid, colon) && last < |s| && s[last] == ':' && forall k :: last < k < |s| ==> s[k] != ':'
    ensures colon == last
  {
    assert colon <= last;
    var port := s[colon + 1..];
    assert forall k :: 0 <= k < |port| ==> IsDecimal(port[k]);
    hide ValueOf;
    assert ':' !in port;
  }

  /** The parts of a valid endpoint have their types. */
  lemma {:induction false} EndpointParts(text: string, valid: Checks, start: nat, len: nat, colon: nat)
    requires start + len <= |text| && HostAndPort(text[start..start + len], valid, colon)
    ensures Typed(text, valid, Span(Host, start, colon))
    ensures Typed(text, valid, Span(Delimiter, start + colon, 1))
    ensures Typed(text, valid, Span(PortValue, start + colon + 1, len - colon - 1))
  {
    hide ValidPort, GetField, GetSection, ValidKey, Passes, ValidPrefix;
    var s := text[start..start + len];
    assert text[start..start + colon] == s[..colon];
    assert text[start + colon..start + colon + 1] == [':'];
    assert text[start + colon + 1..start + colon + 1 + (len - colon - 1)] == s[colon + 1..];
    assert colon > 0 ==> s[..colon][0] == s[0];
  }

  /** Before position i of a list everything is tiled up to the current value. */
  ghost predicate Listing(text: string, valid: Checks, spans: seq<Span>, cur: nat, len: nat, last: nat, i: nat)
  {
    && Tiled(text, valid, spans, cur) && |spans| > 0
    && cur + len == i && last <= len && Blanks(text, cur + last, i) && (len > 0 ==> last > 0)
  }

  /**
   The list from start to to, of which the value at hand starts at from: what is appended already and what the
   rest will be make up the whole, but for a comma at the very end, which is not an error yet.
   */
  ghost predicate Listed(text: string, valid: Checks, key: string, all: seq<Span>, spans: seq<Span>, start: nat,
                         from: nat, cur: nat, len: nat, last: nat, i: nat, to: nat)
  {
    && start <= from <= cur && cur + len == i <= to <= |text| && last <= len && Spaces(text, from, cur)
    && (forall k :: from <= k < i ==> text[k] != ',') && Spaces(text, cur + last, i)
    && (len > 0 ==> last > 0 && !Space(text[cur])) && (last > 0 ==> !Space(text[cur + last - 1]))
    && (start < from ==> |spans| > 0 && spans[|spans| - 1] == Span(Delimiter, from - 1, 1))
    && all == Closed(spans, start < from == to) + ListSpans(text, valid, key, from, to)
  }

  /** A comma at the end of the list becomes an error. */
  ghost function Closed(spans: seq<Span>, bare: bool): seq<Span>
  {
    if bare && |spans| > 0 then spans[|spans| - 1 := spans[|spans| - 1].(typ := Error)] else spans
  }

  /** One character of a list. */
  method ListStep(text: string, spans: seq<Span>, cur: nat, len: nat, last: nat, i: nat, field: Field, valid: Checks,
                  ghost key: string)
    returns (r: seq<Span>, cur': nat, len': nat, last': nat)
    requires Listing(text, valid, spans, cur, len, last, i) && i < |text| && field == GetField(key)
    ensures Listing(text, valid, r, cur', len', last', i + 1)
    ensures text[i] == ',' ==> cur' == i + 1 && len' == 0 && last' == 0
    ensures text[i] == ',' ==>
            r == spans + ListedSpans(text, valid, key, cur, cur + last) + [Span(Delimiter, i, 1)]
    ensures text[i] != ',' ==> r == spans
    ensures text[i] == ' ' || text[i] == '\t' ==>
            last' == last && if len == 0 then cur' == cur + 1 && len' == 0 else cur' == cur && len' == len + 1
    ensures text[i] != ',' && text[i] != ' ' && text[i] != '\t' ==> cur' == cur && len' == last' == len + 1
  {
    hide Tiled, Blanks, ListedSpans, GetField;
    NoBlanks(text, i + 1);
    r, cur', len', last' := spans, cur, len, last;
    if text[i] == ',' {
      r := HighlightListed(text, r, cur, last, field, valid, key);
      TiledBlanks(text, valid, r, cur + last, i);
      TiledAppend(text, valid, r, i, 1, Delimiter);
      r := Append(r, i, 1, Delimiter);
      cur', len', last' := i + 1, 0, 0;
    } else if text[i] == ' ' || text[i] == '\t' {
      BlanksMore(text, cur + last, i);
      if len == 0 {
        TiledBlanks(text, valid, r, cur, cur + 1);
        cur' := cur + 1;
      } else {
        len' := len + 1;
      }
    } else {
      len' := len + 1;
      last' := len';
    }
  }

  /** A comma ends a value of the list. */
  lemma {:induction false} ListedComma(text: string, valid: Checks, key: string, all: seq<Span>, spans: seq<Span>,
                                       start: nat, from: nat, cur: nat, len: nat, last: nat, i: nat, to: nat)
    requires Listed(text, valid, key, all, spans, start, from, cur, len, last, i, to) && i < to && text[i] == ','
    ensures var r := spans + ListedSpans(text, valid, key, cur, cur + last) + [Span(Delimiter, i, 1)];
            Listed(text, valid, key, all, r, start, i + 1, i + 1, 0, 0, i + 1, to)
  {
    hide ListedSpans, ListSpans, Space, Closed;
    assert Spaces(text, i + 1, i + 1);
    hide Spaces;
    ListAt(text, valid, key, from, cur, last, i, to);
    var listed, rest := ListedSpans(text, valid, key, cur, cur + last), ListSpans(text, valid, key, i + 1, to);
    CommaJoins(spans, listed, i, i + 1 == to, rest);
  }

  lemma {:induction false} CommaJoins(spans: seq<Span>, listed: seq<Span>, i: nat, bare: bool, rest: seq<Span>)
    ensures Closed(spans, false) == spans
    ensures spans + (listed + ([Span(if bare then Error else Delimiter, i, 1)] + rest)) ==
            Closed(spans + listed + [Span(Delimiter, i, 1)], bare) + rest
  {
    var r := spans + listed + [Span(Delimiter, i, 1)];
    assert Closed(r, true) == spans + listed + [Span(Error, i, 1)];
  }

  /** The spans of a list whose first value lies at cur and ends in front of i. */
  lemma {:induction false} ListAt(text: string, valid: Checks, key: string, from: nat, cur: nat, last: nat, i: nat,
                                  to: nat)
    requires from <= cur && cur + last <= i <= to <= |text| && Spaces(text, from, cur) && Spaces(text, cur + last, i)
    requires (last > 0 ==> !Space(text[cur]) && !Space(text[cur + last - 1])) && (last == 0 ==> cur == i)
    requires (forall k :: from <= k < i ==> text[k] != ',') && (i < to ==> text[i] == ',')
    ensures ListSpans(text, valid, key, from, to) ==
            ListedSpans(text, valid, key, cur, cur + last)
            + if i == to then []
              else [Span(if i + 1 == to then Error else Delimiter, i, 1)] + ListSpans(text, valid, key, i + 1, to)
  {
    hide ListedSpans, Space, Front, Back, Find;
    FindIs(text, ',', from, to, i);
    FrontIs(text, from, i, cur);
    BackIs(text, cur, i, cur + last);
    hide Spaces;
  }

  /** Any other character lengthens the value or moves it along. */
  lemma {:induction false} ListedMore(text: string, valid: Checks, key: string, all: seq<Span>, spans: seq<Span>,
                                      start: nat, from: nat, cur: nat, len: nat, last: nat, i: nat, to: nat)
    requires Listed(text, valid, key, all, spans, start, from, cur, len, last, i, to)
    requires i < to && text[i] != ','
    ensures !Space(text[i]) ==> Listed(text, valid, key, all, spans, start, from, cur, len + 1, len + 1, i + 1, to)
    ensures Space(text[i]) && len > 0 ==>
            Listed(text, valid, key, all, spans, start, from, cur, len + 1, last, i + 1, to)
    ensures Space(text[i]) && len == 0 ==>
            Listed(text, valid, key, all, spans, start, from, cur + 1, 0, last, i + 1, to)
  {
    hide Space, ListSpans;
  }

  /** highlight_multivalue: a comma-separated list. */
  method HighlightList(text: string, spans: seq<Span>, start: nat, len: nat, field: Field, valid: Checks,
                       ghost key: string)
    returns (r: seq<Span>)
    requires Tiled(text, valid, spans, start) && start + len <= |text| && |spans| > 0 && field == GetField(key)
    ensures Tiled(text, valid, r, start + len)
    ensures len > 0 && !Space(text[start + len - 1]) ==>
            r == spans + ListSpans(text, valid, key, start, start + len)
  {
    hide Tiled, ListSpans, GetField, ListedSpans, Listing, Listed;
    r := spans;
    var cur: nat, clen: nat, last: nat := start, 0, 0;
    ghost var from: nat, to := start, start + len;
    ghost var all := spans + ListSpans(text, valid, key, start, to);
    ListStart(text, valid, key, spans, start, to);
    for i := 0 to len
      invariant Listing(text, valid, r, cur, clen, last, start + i)
      invariant Listed(text, valid, key, all, r, start, from, cur, clen, last, start + i, to)
    {
      ghost var p, c, n, l := r, cur, clen, last;
      r, cur, clen, last := ListStep(text, r, cur, clen, last, start + i, field, valid, key);
      if text[start + i] == ',' {
        ListedComma(text, valid, key, all, p, start, from, c, n, l, start + i, to);
        from := start + i + 1;
      } else {
        ListedMore(text, valid, key, all, p, start, from, c, n, l, start + i, to);
      }
    }
    r := EndList(text, r, cur, clen, last, start + len, field, valid, key, all, start, from);
  }

  lemma {:induction false} ListStart(text: string, valid: Checks, key: string, spans: seq<Span>, start: nat, to: nat)
    requires Tiled(text, valid, spans, start) && |spans| > 0 && start <= to <= |text|
    ensures Listing(text, valid, spans, start, 0, 0, start)
    ensures Listed(text, valid, key, spans + ListSpans(text, valid, key, start, to), spans, start, start, start, 0, 0,
                   start, to)
  {
    hide Tiled, ListSpans;
  }

  /** The last value of a list, or the comma behind which there is none. */
  method EndList(text: string, spans: seq<Span>, cur: nat, len: nat, last: nat, to: nat, field: Field, valid: Checks,
                 ghost key: string, ghost all: seq<Span>, ghost start: nat, ghost from: nat)
    returns (r: seq<Span>)
    requires Listing(text, valid, spans, cur, len, last, to) && field == GetField(key)
    requires Listed(text, valid, key, all, spans, start, from, cur, len, last, to, to)
    ensures Tiled(text, valid, r, to)
    ensures start < to && !Space(text[to - 1]) ==> r == all
  {
    hide Tiled, ListSpans, GetField, ListedSpans, Blanks, Listed, Space;
    r := spans;
    LastListed(text, valid, key, all, spans, start, from, cur, len, last, to);
    if last > 0 {
      r := HighlightListed(text, r, cur, last, field, valid, key);
    } else if r[|r| - 1].typ == Delimiter {
      TiledRetype(text, valid, r, cur);
      r := r[|r| - 1 := r[|r| - 1].(typ := Error)];
    }
    TiledBlanks(text, valid, r, cur + last, to);
  }

  lemma {:induction false} LastListed(text: string, valid: Checks, key: string, all: seq<Span>, spans: seq<Span>,
                                      start: nat, from: nat, cur: nat, len: nat, last: nat, to: nat)
    requires Listed(text, valid, key, all, spans, start, from, cur, len, last, to, to)
    ensures last > 0 ==> cur + last <= |text| && all == spans + ListedSpans(text, valid, key, cur, cur + last)
    ensures last == 0 && start < to && !Space(text[to - 1]) ==>
            && |spans| > 0 && spans[|spans| - 1].typ == Delimiter
            && all == spans[|spans| - 1 := spans[|spans| - 1].(typ := Error)]
  {
    hide ListSpans, Space;
    ListAt(text, valid, key, from, cur, last, to, to);
    if last == 0 && start < to && !Space(text[to - 1]) {
      assert from == to;
      EmptyListed(text, valid, key, to);
      hide ListedSpans;
    }
  }

  lemma {:induction false} EmptyListed(text: string, valid: Checks, key: string, at: nat)
    requires at <= |text|
    ensures ListedSpans(text, valid, key, at, at) == []
  {
    hide ValidNetwork, Named;
  }

  /** The type of a valid single value. */
  function TypeOf(field: Field): Type
  {
    match field
    case PrivateKey => PrivateKeyValue
    case PublicKey => PublicKeyValue
    case PresharedKey => PresharedKeyValue
    case MTU => MTUValue
    case SaveConfig => SaveConfigValue
    case FwMark => FwMarkValue
    case Table => TableValue
    case PreUp => Cmd
    case PostUp => Cmd
    case PreDown => Cmd
    case PostDown => Cmd
    case ListenPort => PortValue
    case PersistentKeepalive => KeepaliveValue
    case _ => Error
  }

  /** Spans whose types need no more than a look at the definition. */
  lemma {:induction false} Plain(text: string, valid: Checks, start: nat, len: nat)
    requires start + len <= |text|
    ensures Typed(text, valid, Span(Error, start, len))
    ensures len == 1 && text[start] == '=' ==> Typed(text, valid, Span(Delimiter, start, len))
  {
    hide GetField, GetSection, ValidKey, Passes, ValidPrefix, ValidPort;
  }

  lemma {:induction false} ValueTyped(text: string, valid: Checks, start: nat, len: nat, field: Field)
    requires start + len <= |text| && Passes(field, text[start..start + len])
    ensures Typed(text, valid, Span(TypeOf(field), start, len))
  {
    hide ValidUint, GetField, GetSection, ValidKey, ValidPrefix;
  }

  lemma {:induction false} HasColon(s: string, valid: Checks, colon: nat)
    requires HostAndPort(s, valid, colon)
    ensures ':' in s
  {
    hide ValidPort;
  }

  /** A valid endpoint: host, colon and port. */
  method HighlightEndpoint(text: string, spans: seq<Span>, start: nat, len: nat, valid: Checks, ghost at: nat)
    returns (r: seq<Span>)
    requires Tiled(text, valid, spans, start) && start + len <= |text|
             && HostAndPort(text[start..start + len], valid, at)
    ensures Tiled(text, valid, r, start + len) && at < len && r == spans + EndpointSpans(start, start + at, start + len)
  {
    hide Tiled, Typed, HostAndPort;
    var s := text[start..start + len];
    HasColon(s, valid, at);
    var colon := LastColon(s);
    LastIsPort(s, valid, at, colon);
    EndpointParts(text, valid, start, len, colon);
    TiledAppend(text, valid, spans, start, colon, Host);
    r := Append(spans, start, colon, Host);
    TiledAppend(text, valid, r, start + colon, 1, Delimiter);
    r := Append(r, start + colon, 1, Delimiter);
    TiledAppend(text, valid, r, start + colon + 1, len - colon - 1, PortValue);
    r := Append(r, start + colon + 1, len - colon - 1, PortValue);
  }

  /** highlight_value */
  method HighlightValue(text: string, spans: seq<Span>, start: nat, len: nat, field: Field, valid: Checks,
                        ghost key: string)
    returns (r: seq<Span>)
    requires Tiled(text, valid, spans, start) && start + len <= |text| && |spans| > 0 && field == GetField(key)
    ensures Tiled(text, valid, r, start + len)
    ensures len > 0 && !Space(text[start + len - 1]) ==>
            r == spans + ValueSpans(text, valid, key, start, start + len)
  {
    hide Tiled, Typed, HostAndPort, Passes, ValidEndpoint, PortColon, Named, GetField, ListSpans, ValueType, TypeOf;
    hide EndpointSpans, Space;
    MultiField(key);
    var s := text[start..start + len];
    if field == Endpoint {
      var ok := IsValidEndpoint(s, valid);
      if ok {
        EndpointSplit(s, valid);
        r := HighlightEndpoint(text, spans, start, len, valid, PortColon(s));
        return;
      }
    } else if field == Address || field == DNS || field == AllowedIPs {
      r := HighlightList(text, spans, start, len, field, valid, key);
      return;
    }
    var passes := IsValid(field, s);
    var typ := if passes then TypeOf(field) else Error;
    EndpointFails(s);
    ValueTypeIs(key, s);
    Plain(text, valid, start, len);
    if passes { ValueTyped(text, valid, start, len, field); }
    TiledAppend(text, valid, spans, start, len, typ);
    r := Append(spans, start, len, typ);
  }

  lemma {:induction false} MultiField(key: string)
    ensures GetField(key) == Endpoint <==> Named(key, "Endpoint")
    ensures GetField(key) in {Address, DNS, AllowedIPs} <==>
            Named(key, "Address") || Named(key, "DNS") || Named(key, "AllowedIPs")
  {
    hide Named, GetField;
    FieldIs(key);
  }

  lemma {:induction false} EndpointFails(s: string)
    ensures !Passes(Endpoint, s)
  {
  }

  // ----- lines -----

  /** is_caseless_same */
  method IsCaselessSame(s: string, name: string) returns (r: bool)
    ensures r == Named(s, name)
  {
    if |s| != |name| { return false; }
    for i := 0 to |s|
      invariant forall k :: 0 <= k < i ==> Upper(s[k]) == Upper(name[k])
    {
      var a, b := name[i], s[i];
      if 'a' <= a && a as int - 'a' as int < 26 { a := a - 32 as char; }
      if 'a' <= b && b as int - 'a' as int < 26 { b := b - 32 as char; }
      if a != b { return false; }
    }
    return true;
  }

  /** get_field */
  method ReadField(s: string) returns (field: Field)
    ensures field == GetField(s)
  {
    hide Named;
    var same := IsCaselessSame(s, "PrivateKey");
    if same { return PrivateKey; }
    same := IsCaselessSame(s, "ListenPort");
    if same { return ListenPort; }
    same := IsCaselessSame(s, "Address");
    if same { return Address; }
    same := IsCaselessSame(s, "DNS");
    if same { return DNS; }
    same := IsCaselessSame(s, "MTU");
    if same { return MTU; }
    same := IsCaselessSame(s, "PublicKey");
    if same { return PublicKey; }
    same := IsCaselessSame(s, "PresharedKey");
    if same { return PresharedKey; }
    same := IsCaselessSame(s, "AllowedIPs");
    if same { return AllowedIPs; }
    same := IsCaselessSame(s, "Endpoint");
    if same { return Endpoint; }
    same := IsCaselessSame(s, "PersistentKeepalive");
    if same { return PersistentKeepalive; }
    same := IsCaselessSame(s, "FwMark");
    if same { return FwMark; }
    same := IsCaselessSame(s, "Table");
    if same { return Table; }
    same := IsCaselessSame(s, "PreUp");
    if same { return PreUp; }
    same := IsCaselessSame(s, "PostUp");
    if same { return PostUp; }
    same := IsCaselessSame(s, "PreDown");
    if same { return PreDown; }
    same := IsCaselessSame(s, "PostDown");
    if same { return PostDown; }
    same := IsCaselessSame(s, "SaveConfig");
    if same { return SaveConfig; }
    return Invalid;
  }

  /** get_sectiontype */
  method ReadSection(s: string) returns (section: Field)
    ensures section == GetSection(s)
  {
    hide Named;
    var same := IsCaselessSame(s, "[Peer]");
    if same { return PeerSection; }
    same := IsCaselessSame(s, "[Interface]");
    return if same then InterfaceSection else Invalid;
  }

  /** The field of a name. */
  function GetField(s: string): Field
  {
    if Named(s, "PrivateKey") then PrivateKey
    else if Named(s, "ListenPort") then ListenPort
    else if Named(s, "Address") then Address
    else if Named(s, "DNS") then DNS
    else if Named(s, "MTU") then MTU
    else if Named(s, "PublicKey") then PublicKey
    else if Named(s, "PresharedKey") then PresharedKey
    else if Named(s, "AllowedIPs") then AllowedIPs
    else if Named(s, "Endpoint") then Endpoint
    else if Named(s, "PersistentKeepalive") then PersistentKeepalive
    else if Named(s, "FwMark") then FwMark
    else if Named(s, "Table") then Table
    else if Named(s, "PreUp") then PreUp
    else if Named(s, "PostUp") then PostUp
    else if Named(s, "PreDown") then PreDown
    else if Named(s, "PostDown") then PostDown
    else if Named(s, "SaveConfig") then SaveConfig
    else Invalid
  }

  /** section_for_field */
  function SectionFor(field: Field): Field
  {
    match field
    case PublicKey => PeerSection
    case PresharedKey => PeerSection
    case AllowedIPs => PeerSection
    case Endpoint => PeerSection
    case PersistentKeepalive => PeerSection
    case InterfaceSection => Invalid
    case PeerSection => Invalid
    case Invalid => Invalid
    case _ => InterfaceSection
  }

  /** The section of a header. */
  function GetSection(s: string): Field
  {
    if Named(s, "[Peer]") then PeerSection else if Named(s, "[Interface]") then InterfaceSection else Invalid
  }

  /** A name fixes the length and the first letter. */
  lemma {:induction false} NamedStart(s: string, name: string)
    requires name != "" && Named(s, name)
    ensures |s| == |name| && Upper(s[0]) == Upper(name[0])
  {
  }

  ghost predicate Starts(s: string, len: nat, c: char)
  {
    |s| == len && len > 0 && Upper(s[0]) == c
  }

  lemma {:induction false} NamesStart(s: string)
    ensures Named(s, "PrivateKey") ==> Starts(s, 10, 'P')
    ensures Named(s, "ListenPort") ==> Starts(s, 10, 'L')
    ensures Named(s, "Address") ==> Starts(s, 7, 'A')
    ensures Named(s, "DNS") ==> Starts(s, 3, 'D')
    ensures Named(s, "MTU") ==> Starts(s, 3, 'M')
    ensures Named(s, "PublicKey") ==> Starts(s, 9, 'P')
    ensures Named(s, "PresharedKey") ==> Starts(s, 12, 'P')
    ensures Named(s, "AllowedIPs") ==> Starts(s, 10, 'A')
    ensures Named(s, "Endpoint") ==> Starts(s, 8, 'E')
    ensures Named(s, "PersistentKeepalive") ==> Starts(s, 19, 'P')
    ensures Named(s, "FwMark") ==> Starts(s, 6, 'F')
    ensures Named(s, "Table") ==> Starts(s, 5, 'T')
    ensures Named(s, "PreUp") ==> Starts(s, 5, 'P')
    ensures Named(s, "PostUp") ==> Starts(s, 6, 'P')
    ensures Named(s, "PreDown") ==> Starts(s, 7, 'P')
    ensures Named(s, "PostDown") ==> Starts(s, 8, 'P')
    ensures Named(s, "SaveConfig") ==> Starts(s, 10, 'S')
  {
    if Named(s, "PrivateKey") { NamedStart(s, "PrivateKey"); }
    if Named(s, "ListenPort") { NamedStart(s, "ListenPort"); }
    if Named(s, "Address") { NamedStart(s, "Address"); }
    if Named(s, "DNS") { NamedStart(s, "DNS"); }
    if Named(s, "MTU") { NamedStart(s, "MTU"); }
    if Named(s, "PublicKey") { NamedStart(s, "PublicKey"); }
    if Named(s, "PresharedKey") { NamedStart(s, "PresharedKey"); }
    if Named(s, "AllowedIPs") { NamedStart(s, "AllowedIPs"); }
    if Named(s, "Endpoint") { NamedStart(s, "Endpoint"); }
    if Named(s, "PersistentKeepalive") { NamedStart(s, "PersistentKeepalive"); }
    if Named(s, "FwMark") { NamedStart(s, "FwMark"); }
    if Named(s, "Table") { NamedStart(s, "Table"); }
    if Named(s, "PreUp") { NamedStart(s, "PreUp"); }
    if Named(s, "PostUp") { NamedStart(s, "PostUp"); }
    if Named(s, "PreDown") { NamedStart(s, "PreDown"); }
    if Named(s, "PostDown") { NamedStart(s, "PostDown"); }
    if Named(s, "SaveConfig") { NamedStart(s, "SaveConfig"); }
  }

  /** Every name stands for its field alone. */
  lemma {:induction false} FieldIs(s: string)
    ensures GetField(s) == PrivateKey <==> Named(s, "PrivateKey")
    ensures GetField(s) == ListenPort <==> Named(s, "ListenPort")
    ensures GetField(s) == Address <==> Named(s, "Address")
    ensures GetField(s) == DNS <==> Named(s, "DNS")
    ensures GetField(s) == MTU <==> Named(s, "MTU")
    ensures GetField(s) == PublicKey <==> Named(s, "PublicKey")
    ensures GetField(s) == PresharedKey <==> Named(s, "PresharedKey")
    ensures GetField(s) == AllowedIPs <==> Named(s, "AllowedIPs")
    ensures GetField(s) == Endpoint <==> Named(s, "Endpoint")
    ensures GetField(s) == PersistentKeepalive <==> Named(s, "PersistentKeepalive")
    ensures GetField(s) == FwMark <==> Named(s, "FwMark")
    ensures GetField(s) == Table <==> Named(s, "Table")
    ensures GetField(s) == PreUp <==> Named(s, "PreUp")
    ensures GetField(s) == PostUp <==> Named(s, "PostUp")
    ensures GetField(s) == PreDown <==> Named(s, "PreDown")
    ensures GetField(s) == PostDown <==> Named(s, "PostDown")
    ensures GetField(s) == SaveConfig <==> Named(s, "SaveConfig")
    ensures GetField(s) != InterfaceSection && GetField(s) != PeerSection
  {
    NamesStart(s);
    hide Named;
  }

  lemma {:induction false} HeaderIs(line: string)
    ensures GetSection(line) == InterfaceSection <==> Named(line, "[Interface]")
    ensures GetSection(line) == PeerSection <==> Named(line, "[Peer]")
    ensures GetSection(line) == Invalid <==> !Heads(line)
    ensures GetSection("") == Invalid
  {
    if Named(line, "[Interface]") { NamedStart(line, "[Interface]"); }
    if Named(line, "[Peer]") { NamedStart(line, "[Peer]"); }
    assert !Named("", "[Peer]") && !Named("", "[Interface]");
    hide Named;
  }

  /** The test of a key against the section is the one by names. */
  lemma {:induction false} KeyTypeIs(header: string, key: string)
    ensures var owner := SectionFor(GetField(key));
            KeyType(header, key) ==
            if owner == Invalid || GetField(key) == Invalid || owner != GetSection(header) then Error else FieldName
  {
    FieldIs(key);
    HeaderIs(header);
    hide Named, GetField, GetSection;
  }

  lemma {:induction false} ValueTypeIs(key: string, v: string)
    ensures var field := GetField(key);
            ValueType(key, v) == if Passes(field, v) then TypeOf(field) else Error
  {
    hide Named, GetField, ValidKey, ValidUint;
    FieldIs(key);
  }

  datatype State = OnNone | OnKey | OnValue | OnComment | OnSection

  /** The variables of the scanner: the current span, its length without trailing blanks, and the equals sign. */
  datatype Scan = Scan(state: State, cur: nat, len: nat, last: nat, equals: nat)

  /** Before character i everything is tiled up to the current token, or up to the equals sign before a value. */
  ghost predicate Ready(text: string, valid: Checks, spans: seq<Span>, sc: Scan, i: nat)
  {
    && i <= |text| && sc.cur + sc.len == i
    && (sc.state == OnValue ==>
          Tiled(text, valid, spans, sc.equals) && sc.equals < sc.cur && Blanks(text, sc.equals + 1, sc.cur))
    && (sc.state != OnValue ==> Tiled(text, valid, spans, sc.cur))
    && (sc.state == OnNone ==> sc.len == 0)
    && (sc.state == OnKey || sc.state == OnSection ==> sc.len > 0)
    && (sc.state == OnValue ==> text[sc.equals] == '=')
    && (sc.state == OnComment ==> sc.len > 0 && text[sc.cur] == '#' && forall p :: sc.cur <= p < i ==> text[p] != '\n')
    && (sc.state != OnComment && sc.len > 0 ==> 0 < sc.last <= sc.len && Blanks(text, sc.cur + sc.last, i))
  }

  /** A token at cur, with last characters in front of the spaces at its end. */
  ghost predicate Word(text: string, cur: nat, len: nat, last: nat, i: nat)
  {
    && cur + len == i <= |text| && 0 < last <= len && !Space(text[cur]) && !Space(text[cur + last - 1])
    && Spaces(text, cur + last, i)
  }

  /** An equals sign behind a key on the line that starts at a. */
  ghost predicate Assigns(text: string, a: nat, equals: nat)
  {
    && a <= equals < |text| && text[equals] == '='
    && var f := Front(text, a, equals); f < equals && text[f] != '[' && forall k :: f < k < equals ==> text[k] != '='
  }

  function KeyEnd(text: string, a: nat, equals: nat): (k: nat)
    requires a <= equals <= |text|
    ensures Front(text, a, equals) <= k <= equals
  {
    Back(text, Front(text, a, equals), equals)
  }

  /** The key in front of an equals sign. */
  function KeyAt(text: string, a: nat, equals: nat): string
    requires a <= equals <= |text|
  {
    text[Front(text, a, equals)..KeyEnd(text, a, equals)]
  }

  function KeySpan(text: string, a: nat, equals: nat): Span
    requires a <= equals <= |text|
  {
    var f := Front(text, a, equals);
    Span(KeyType(Header(text, a), KeyAt(text, a, equals)), f, KeyEnd(text, a, equals) - f)
  }

  /**
   The variables of the scanner in front of character i of the line that starts at a, behind the spans of
   all lines above it.
   */
  ghost predicate Scanned(text: string, valid: Checks, above: seq<Span>, spans: seq<Span>, sc: Scan, a: nat, i: nat,
                          field: Field, section: Field)
  {
    && a <= sc.cur && sc.cur + sc.len == i <= |text| && (a == 0 || text[a - 1] == '\n')
    && (forall k :: a <= k < i ==> text[k] != '\n')
    && (sc.state != OnComment ==> section == GetSection(Header(text, a)) && forall k :: a <= k < i ==> text[k] != '#')
    && match sc.state
       case OnNone => spans == above && sc.len == 0 && Spaces(text, a, i)
       case OnKey =>
         && spans == above && Spaces(text, a, sc.cur) && Word(text, sc.cur, sc.len, sc.last, i) && text[sc.cur] != '['
         && forall k :: sc.cur < k < i ==> text[k] != '='
       case OnSection =>
         spans == above && Spaces(text, a, sc.cur) && Word(text, sc.cur, sc.len, sc.last, i) && text[sc.cur] == '['
       case OnValue =>
         && a <= sc.equals < sc.cur && Assigns(text, a, sc.equals) && Spaces(text, sc.equals + 1, sc.cur)
         && spans == above + [KeySpan(text, a, sc.equals)] && field == GetField(KeyAt(text, a, sc.equals))
         && (sc.len > 0 ==> Word(text, sc.cur, sc.len, sc.last, i))
       case OnComment =>
         && sc.cur < i && text[sc.cur] == '#' && (forall k :: a <= k < sc.cur ==> text[k] != '#')
         && spans == above + BodySpans(text, valid, Header(text, a), a, sc.cur)
         && section == GetSection(HeaderAfter(text, Header(text, a), a, sc.cur))
  }

  /** Behind the end of a token: the spans of the line so far, and the section in force behind it. */
  ghost predicate Flushed(text: string, valid: Checks, above: seq<Span>, spans: seq<Span>, a: nat, h: nat, i: nat,
                          section: Field)
  {
    && a <= h <= i <= |text| && (a == 0 || text[a - 1] == '\n') && (forall k :: a <= k < i ==> text[k] != '\n')
    && Find(text, '#', a, i) == h
    && spans == above + LineSpans(text, valid, Header(text, a), a, i)
    && section == GetSection(HeaderAfter(text, Header(text, a), a, h))
  }

  lemma {:induction false} ScanSpace(text: string, valid: Checks, above: seq<Span>, spans: seq<Span>, sc: Scan, a: nat,
                                     i: nat, field: Field, section: Field)
    requires Scanned(text, valid, above, spans, sc, a, i, field, section) && i < |text| && Space(text[i])
    requires sc.state != OnComment
    ensures var next := if sc.len == 0 then sc.(cur := sc.cur + 1) else sc.(len := sc.len + 1);
            Scanned(text, valid, above, spans, next, a, i + 1, field, section)
  {
    hide Header, GetSection, GetField, KeySpan, KeyAt, BodySpans, HeaderAfter, Assigns;
  }

  lemma {:induction false} ScanOther(text: string, valid: Checks, above: seq<Span>, spans: seq<Span>, sc: Scan, a: nat,
                                     i: nat, field: Field, section: Field)
    requires Scanned(text, valid, above, spans, sc, a, i, field, section) && i < |text|
    requires !Space(text[i]) && text[i] != '\n' && text[i] != '#' && !(text[i] == '=' && sc.state == OnKey)
    requires sc.state != OnComment
    ensures var state := if sc.state != OnNone then sc.state else if text[i] == '[' then OnSection else OnKey;
            Scanned(text, valid, above, spans, sc.(state := state, len := sc.len + 1, last := sc.len + 1), a, i + 1,
                    field, section)
  {
    hide Header, GetSection, GetField, KeySpan, KeyAt, BodySpans, HeaderAfter, Assigns;
  }

  lemma {:induction false} ScanComment(text: string, valid: Checks, above: seq<Span>, spans: seq<Span>, sc: Scan,
                                       a: nat, i: nat, field: Field, section: Field)
    requires Scanned(text, valid, above, spans, sc, a, i, field, section) && i < |text|
    requires sc.state == OnComment && text[i] != '\n'
    ensures Scanned(text, valid, above, spans, sc.(len := sc.len + 1), a, i + 1, field, section)
  {
    hide Header, GetSection, GetField, KeySpan, KeyAt, BodySpans, HeaderAfter, Assigns;
  }

  lemma {:induction false} ScanEquals(text: string, valid: Checks, above: seq<Span>, spans: seq<Span>, sc: Scan, a: nat,
                                      i: nat, field: Field, section: Field)
    requires Scanned(text, valid, above, spans, sc, a, i, field, section) && i < |text|
    requires sc.state == OnKey && text[i] == '='
    ensures var key := text[sc.cur..sc.cur + sc.last];
            Scanned(text, valid, above, spans + [Span(KeyType(Header(text, a), key), sc.cur, sc.last)],
                    Scan(OnValue, i + 1, 0, sc.last, i), a, i + 1, GetField(key), section)
  {
    hide Header, GetSection, GetField, BodySpans, HeaderAfter, Front, Back, KeyType;
    FrontIs(text, a, i, sc.cur);
    BackIs(text, sc.cur, i, sc.cur + sc.last);
    assert Spaces(text, i + 1, i + 1);
    hide Spaces;
  }

  lemma {:induction false} BodyNone(text: string, valid: Checks, header: string, a: nat, i: nat)
    requires Spaces(text, a, i)
    ensures BodySpans(text, valid, header, a, i) == [] && HeaderAfter(text, header, a, i) == header
  {
    FrontIs(text, a, i, i);
    hide Front, Back, Find, Spaces;
  }

  lemma {:induction false} BodyWord(text: string, valid: Checks, header: string, a: nat, cur: nat, len: nat, last: nat,
                                    i: nat)
    requires a <= cur && Spaces(text, a, cur) && Word(text, cur, len, last, i)
    requires text[cur] == '[' || forall k :: cur < k < i ==> text[k] != '='
    ensures var s := text[cur..cur + last];
            && BodySpans(text, valid, header, a, i) ==
               [Span(if text[cur] == '[' && Heads(s) then Section else Error, cur, last)]
            && HeaderAfter(text, header, a, i) == if text[cur] == '[' then s else header
  {
    hide Front, Back, Find, Heads, KeyType, AssignedSpans;
    FrontIs(text, a, i, cur);
    BackIs(text, cur, i, cur + last);
    if text[cur] != '[' { FindIs(text, '=', cur + 1, i, i); }
    hide Spaces;
  }

  lemma {:induction false} BodyField(text: string, valid: Checks, header: string, a: nat, q: nat, i: nat, f: nat)
    requires a <= f < q < i <= |text| && Front(text, a, i) == f && text[f] != '[' && Find(text, '=', f + 1, i) == q
    ensures var k := Back(text, f, q);
            BodySpans(text, valid, header, a, i) ==
            [Span(KeyType(header, text[f..k]), f, k - f)] + AssignedSpans(text, valid, text[f..k], q, i)
  {
    hide Front, Back, Find, KeyType, AssignedSpans, Heads;
  }

  lemma {:induction false} HeaderStays(text: string, header: string, a: nat, i: nat)
    requires a <= i <= |text| && Front(text, a, i) < i && text[Front(text, a, i)] != '['
    ensures HeaderAfter(text, header, a, i) == header
  {
    hide Front, Back;
  }

  lemma {:induction false} BodyAssigns(text: string, valid: Checks, a: nat, q: nat, i: nat)
    requires Assigns(text, a, q) && q < i <= |text|
    ensures var header := Header(text, a);
            && BodySpans(text, valid, header, a, i) ==
               [KeySpan(text, a, q)] + AssignedSpans(text, valid, KeyAt(text, a, q), q, i)
            && HeaderAfter(text, header, a, i) == header
  {
    hide Front, Back, Find, KeyType, AssignedSpans, Header, HeaderAfter, BodySpans;
    var f := Front(text, a, q);
    FrontIs(text, a, i, f);
    FindIs(text, '=', f + 1, i, q);
    hide Spaces, Space;
    HeaderStays(text, Header(text, a), a, i);
    BodyField(text, valid, Header(text, a), a, q, i, f);
  }

  lemma {:induction false} AssignedAt(text: string, valid: Checks, key: string, q: nat, cur: nat, len: nat, last: nat,
                                      i: nat)
    requires q < cur && cur + len == i <= |text| && Spaces(text, q + 1, cur)
    requires len > 0 ==> Word(text, cur, len, last, i)
    ensures AssignedSpans(text, valid, key, q, i) ==
            if len == 0 then [Span(Error, q, 1)]
            else [Span(Delimiter, q, 1)] + ValueSpans(text, valid, key, cur, cur + last)
  {
    hide Front, Back, ValueSpans;
    FrontIs(text, q + 1, i, cur);
    if len > 0 { BackIs(text, cur, i, cur + last); }
    hide Spaces;
  }

  /** A token that is not a comment ends: its spans are those of the line so far. */
  lemma {:induction false} FlushedBody(text: string, valid: Checks, above: seq<Span>, spans: seq<Span>, sc: Scan,
                                       a: nat, i: nat, field: Field, section: Field, r: seq<Span>, current: Field)
    requires Scanned(text, valid, above, spans, sc, a, i, field, section) && sc.state != OnComment
    requires r == above + BodySpans(text, valid, Header(text, a), a, i)
    requires current == GetSection(HeaderAfter(text, Header(text, a), a, i))
    ensures Flushed(text, valid, above, r, a, i, i, current)
  {
    hide Header, GetSection, GetField, KeySpan, KeyAt, BodySpans, HeaderAfter, Assigns, Find;
    FindIs(text, '#', a, i, i);
  }

  lemma {:induction false} FlushedComment(text: string, valid: Checks, above: seq<Span>, spans: seq<Span>, sc: Scan,
                                          a: nat, i: nat, field: Field, section: Field)
    requires Scanned(text, valid, above, spans, sc, a, i, field, section) && sc.state == OnComment
    ensures sc.len > 0
    ensures Flushed(text, valid, above, spans + [Span(Comment, sc.cur, sc.len)], a, sc.cur, i, section)
  {
    hide Header, GetSection, GetField, KeySpan, KeyAt, BodySpans, HeaderAfter, Assigns, Find;
    FindIs(text, '#', a, i, sc.cur);
  }

  /** What Flush appends in front of the end of a token, by the state it was in. */
  lemma {:induction false} FlushedBy(text: string, valid: Checks, above: seq<Span>, spans: seq<Span>, sc: Scan, a: nat,
                                     i: nat, field: Field, section: Field)
    requires Scanned(text, valid, above, spans, sc, a, i, field, section) && sc.state != OnComment
    ensures var header := Header(text, a);
            var body := above + BodySpans(text, valid, header, a, i);
            var after := GetSection(HeaderAfter(text, header, a, i));
            match sc.state
            case OnNone => body == spans && after == section
            case OnKey => body == spans + [Span(Error, sc.cur, sc.last)] && after == section
            case OnSection =>
              && after == GetSection(text[sc.cur..sc.cur + sc.last])
              && body == spans + [Span(if after == Invalid then Error else Section, sc.cur, sc.last)]
            case OnValue =>
              && after == section
              && body == if sc.len == 0 then spans + [Span(Error, sc.equals, 1)]
                         else spans + [Span(Delimiter, sc.equals, 1)]
                              + ValueSpans(text, valid, KeyAt(text, a, sc.equals), sc.cur, sc.cur + sc.last)
            case OnComment => true
  {
    hide Header, GetSection, GetField, KeySpan, KeyAt, BodySpans, HeaderAfter, Assigns, AssignedSpans, ValueSpans;
    hide Heads;
    var header := Header(text, a);
    match sc.state {
      case OnNone => BodyNone(text, valid, header, a, i);
      case OnKey => BodyWord(text, valid, header, a, sc.cur, sc.len, sc.last, i);
      case OnSection =>
        BodyWord(text, valid, header, a, sc.cur, sc.len, sc.last, i);
        HeaderIs(text[sc.cur..sc.cur + sc.last]);
      case OnValue =>
        BodyAssigns(text, valid, a, sc.equals, i);
        AssignedAt(text, valid, KeyAt(text, a, sc.equals), sc.equals, sc.cur, sc.len, sc.last, i);
      case OnComment =>
    }
  }

  /** The end of a token: what is open is appended, and all before i is tiled. */
  method Flush(text: string, spans: seq<Span>, sc: Scan, i: nat, field: Field, section: Field, valid: Checks,
               ghost above: seq<Span>, ghost a: nat)
    returns (r: seq<Span>, current: Field)
    requires Ready(text, valid, spans, sc, i) && Scanned(text, valid, above, spans, sc, a, i, field, section)
    requires i == |text| || text[i] == '\n' || (sc.state != OnComment && text[i] == '#')
    ensures Tiled(text, valid, r, i)
    ensures Flushed(text, valid, above, r, a, if sc.state == OnComment then sc.cur else i, i, current)
  {
    hide Tiled, Blanks, GetSection, Typed, Scanned, Flushed, Header, BodySpans, HeaderAfter, KeyAt, ValueSpans;
    if sc.state == OnComment {
      FlushedComment(text, valid, above, spans, sc, a, i, field, section);
      CommentTyped(text, valid, sc.cur, sc.len);
      TiledAppend(text, valid, spans, sc.cur, sc.len, Comment);
      r, current := Append(spans, sc.cur, sc.len, Comment), section;
      return;
    }
    FlushedBy(text, valid, above, spans, sc, a, i, field, section);
    r, current := spans, section;
    match sc.state {
      case OnNone =>
      case OnKey =>
        Plain(text, valid, sc.cur, sc.last);
        r := AppendTrimmed(text, valid, spans, sc.cur, sc.last, Error, i);
      case OnValue =>
        r := FlushValue(text, spans, sc, i, field, section, valid, above, a);
      case OnSection =>
        current := ReadSection(text[sc.cur..sc.cur + sc.last]);
        Plain(text, valid, sc.cur, sc.last);
        if current != Invalid { SectionTyped(text, valid, sc.cur, sc.last); }
        r := AppendTrimmed(text, valid, spans, sc.cur, sc.last, if current == Invalid then Error else Section, i);
      case OnComment =>
    }
    FlushedBody(text, valid, above, spans, sc, a, i, field, section, r, current);
  }

  /** The end of a value, or of an empty one. */
  method FlushValue(text: string, spans: seq<Span>, sc: Scan, i: nat, field: Field, section: Field, valid: Checks,
                    ghost above: seq<Span>, ghost a: nat)
    returns (r: seq<Span>)
    requires Ready(text, valid, spans, sc, i) && Scanned(text, valid, above, spans, sc, a, i, field, section)
    requires sc.state == OnValue
    ensures Tiled(text, valid, r, i)
    ensures r == if sc.len == 0 then spans + [Span(Error, sc.equals, 1)]
                 else spans + [Span(Delimiter, sc.equals, 1)]
                      + ValueSpans(text, valid, KeyAt(text, a, sc.equals), sc.cur, sc.cur + sc.last)
  {
    hide Tiled, Blanks, Typed, Header, GetField, GetSection, KeyAt, ValueSpans, KeySpan, Assigns, Spaces, Space;
    Plain(text, valid, sc.equals, 1);
    if sc.len > 0 {
      r := AppendTrimmed(text, valid, spans, sc.equals, 1, Delimiter, sc.cur);
      r := HighlightValue(text, r, sc.cur, sc.last, field, valid, KeyAt(text, a, sc.equals));
      TiledBlanks(text, valid, r, sc.cur + sc.last, i);
    } else {
      r := AppendTrimmed(text, valid, spans, sc.equals, 1, Error, i);
    }
  }

  lemma {:induction false} SectionTyped(text: string, valid: Checks, start: nat, len: nat)
    requires start + len <= |text| && GetSection(text[start..start + len]) != Invalid
    ensures Typed(text, valid, Span(Section, start, len))
  {
    hide GetSection;
  }

  lemma {:induction false} CommentTyped(text: string, valid: Checks, start: nat, len: nat)
    requires 0 < len && start + len <= |text| && text[start] == '#'
    requires forall p :: start <= p < start + len ==> text[p] != '\n'
    requires start + len == |text| || text[start + len] == '\n'
    ensures Typed(text, valid, Span(Comment, start, len))
  {
    hide GetField, GetSection, ValidKey, Passes, ValidPrefix, ValidPort;
  }

  /** One span and the blanks behind it. */
  method AppendTrimmed(text: string, valid: Checks, spans: seq<Span>, start: nat, len: nat, typ: Type, i: nat)
    returns (r: seq<Span>)
    requires Tiled(text, valid, spans, start) && len > 0 && start + len <= i <= |text| && Blanks(text, start + len, i)
    requires Typed(text, valid, Span(typ, start, len))
    ensures Tiled(text, valid, r, i) && |r| > 0 && r == spans + [Span(typ, start, len)]
  {
    hide Tiled, Typed, Blanks;
    TiledAppend(text, valid, spans, start, len, typ);
    r := Append(spans, start, len, typ);
    TiledBlanks(text, valid, r, start + len, i);
  }

  /** A character inside a line. */
  method Advance(text: string, valid: Checks, spans: seq<Span>, sc: Scan, i: nat, field: Field, section: Field,
                 ghost above: seq<Span>, ghost a: nat)
    returns (r: seq<Span>, next: Scan, current: Field)
    requires Ready(text, valid, spans, sc, i) && Scanned(text, valid, above, spans, sc, a, i, field, section)
    requires i < |text| && text[i] != '\n' && (sc.state != OnComment ==> text[i] != '#')
    ensures Ready(text, valid, r, next, i + 1) && Scanned(text, valid, above, r, next, a, i + 1, current, section)
  {
    hide Scanned, Header, GetField, GetSection, Tiled, Blanks, Blank;
    NoBlanks(text, i + 1);
    r, current := spans, field;
    if sc.state == OnComment {
      ScanComment(text, valid, above, spans, sc, a, i, field, section);
      next := sc.(len := sc.len + 1);
    } else if text[i] == ' ' || text[i] == '\t' {
      assert Blank(text[i]) by { BlankIs(text[i]); }
      ScanSpace(text, valid, above, spans, sc, a, i, field, section);
      next := Skip(text, valid, spans, sc, i);
    } else if text[i] == '=' && sc.state == OnKey {
      r, next, current := EndKey(text, valid, spans, sc, i, section, field, above, a);
    } else {
      ScanOther(text, valid, above, spans, sc, a, i, field, section);
      var state := if sc.state != OnNone then sc.state else if text[i] == '[' then OnSection else OnKey;
      next := sc.(state := state, len := sc.len + 1, last := sc.len + 1);
    }
  }

  lemma {:induction false} KeyTyped(text: string, valid: Checks, start: nat, len: nat, typ: Type)
    requires start + len <= |text|
    requires typ == Error || (typ == FieldName && GetField(text[start..start + len]) != Invalid)
    ensures Typed(text, valid, Span(typ, start, len))
  {
    hide GetField;
  }

  /** The equals sign behind a key: the key is known for this section or an error. */
  method EndKey(text: string, valid: Checks, spans: seq<Span>, sc: Scan, i: nat, section: Field, ghost field: Field,
                ghost above: seq<Span>, ghost a: nat)
    returns (r: seq<Span>, next: Scan, current: Field)
    requires Ready(text, valid, spans, sc, i) && Scanned(text, valid, above, spans, sc, a, i, field, section)
    requires i < |text| && text[i] == '=' && sc.state == OnKey
    ensures Ready(text, valid, r, next, i + 1) && Scanned(text, valid, above, r, next, a, i + 1, current, section)
  {
    hide Tiled, Blanks, GetField, Typed, SectionFor, Header, GetSection, Scanned, KeyType;
    NoBlanks(text, i + 1);
    ScanEquals(text, valid, above, spans, sc, a, i, field, section);
    current := ReadField(text[sc.cur..sc.cur + sc.last]);
    var owner := SectionFor(current);
    var typ := if owner == Invalid || current == Invalid || owner != section then Error else FieldName;
    InForce(text, valid, above, spans, sc, a, i, field, section);
    KeyTypeIs(Header(text, a), text[sc.cur..sc.cur + sc.last]);
    KeyTyped(text, valid, sc.cur, sc.last, typ);
    r := AppendTrimmed(text, valid, spans, sc.cur, sc.last, typ, i);
    next := Scan(OnValue, i + 1, 0, sc.last, i);
  }

  lemma {:induction false} InForce(text: string, valid: Checks, above: seq<Span>, spans: seq<Span>, sc: Scan, a: nat,
                                   i: nat, field: Field, section: Field)
    requires Scanned(text, valid, above, spans, sc, a, i, field, section) && sc.state != OnComment
    ensures a <= |text| && section == GetSection(Header(text, a))
  {
  }

  /** A blank moves an empty span along and lengthens any other. */
  method Skip(text: string, valid: Checks, ghost spans: seq<Span>, sc: Scan, i: nat) returns (next: Scan)
    requires Ready(text, valid, spans, sc, i) && i < |text| && Blank(text[i]) && sc.state != OnComment
    ensures Ready(text, valid, spans, next, i + 1)
    ensures next == if sc.len == 0 then sc.(cur := sc.cur + 1) else sc.(len := sc.len + 1)
  {
    hide Tiled, Blanks;
    NoBlanks(text, i);
    if sc.len == 0 {
      if sc.state == OnValue {
        BlanksMore(text, sc.equals + 1, i);
      } else {
        BlanksMore(text, i, i);
        TiledBlanks(text, valid, spans, i, i + 1);
      }
      next := sc.(cur := sc.cur + 1);
    } else {
      BlanksMore(text, sc.cur + sc.last, i);
      next := sc.(len := sc.len + 1);
    }
  }

  /**
   highlight_config: every line of the text with the spans and types it has by itself and the header above it,
   and the closing mark.  In the source the length of the closing span is the largest size_t.
   */
  method HighlightConfig(text: string, valid: Checks) returns (spans: seq<Span>)
    ensures spans == SpansFrom(text, valid, 0) + [Span(End, 0, 0xffff_ffff_ffff_ffff)]
    ensures Tiled(text, valid, SpansFrom(text, valid, 0), |text|)
  {
    hide Ready, Tiled, Scanned, Flushed, SpansFrom, Header, GetSection;
    spans := [];
    var sc, section, field := Scan(OnNone, 0, 0, 0, 0), Invalid, Invalid;
    ghost var above, a: nat := [], 0;
    StartReady(text, valid);
    for i := 0 to |text|
      invariant Ready(text, valid, spans, sc, i) && Scanned(text, valid, above, spans, sc, a, i, field, section)
      invariant a <= |text| && SpansFrom(text, valid, 0) == above + SpansFrom(text, valid, a)
    {
      if text[i] == '\n' || (sc.state != OnComment && text[i] == '#') {
        ghost var h := if sc.state == OnComment then sc.cur else i;
        spans, section := Flush(text, spans, sc, i, field, section, valid, above, a);
        field := Invalid;
        sc := NextLine(text, valid, spans, i);
        if text[i] == '#' {
          CommentScanned(text, valid, above, spans, a, i, section);
        } else {
          LineScanned(text, valid, above, spans, a, h, i, section);
          assert above + SpansFrom(text, valid, a) == spans + SpansFrom(text, valid, i + 1);
          above, a := spans, i + 1;
        }
      } else {
        spans, sc, field := Advance(text, valid, spans, sc, i, field, section, above, a);
      }
    }
    ghost var h := if sc.state == OnComment then sc.cur else |text|;
    spans, section := Flush(text, spans, sc, |text|, field, section, valid, above, a);
    LastLine(text, valid, above, spans, a, h, section);
    spans := spans + [Span(End, 0, 0xffff_ffff_ffff_ffff)];
  }

  lemma {:induction false} CommentScanned(text: string, valid: Checks, above: seq<Span>, spans: seq<Span>, a: nat,
                                          i: nat, section: Field)
    requires Flushed(text, valid, above, spans, a, i, i, section) && i < |text| && text[i] == '#'
    ensures Scanned(text, valid, above, spans, Scan(OnComment, i, 1, 0, 0), a, i + 1, Invalid, section)
  {
    hide Header, GetSection, BodySpans, HeaderAfter, Find;
    assert One(Comment, i, i) == [];
  }

  /** A line is complete: its spans are appended, and the header behind it is in force. */
  lemma {:induction false} LineScanned(text: string, valid: Checks, above: seq<Span>, spans: seq<Span>, a: nat, h: nat,
                                       i: nat, section: Field)
    requires Flushed(text, valid, above, spans, a, h, i, section) && i < |text| && text[i] == '\n'
    ensures Scanned(text, valid, spans, spans, Scan(OnNone, i + 1, 0, 0, 0), i + 1, i + 1, Invalid, section)
    ensures above + SpansFrom(text, valid, a) == spans + SpansFrom(text, valid, i + 1)
  {
    hide Header, GetSection, LineSpans, HeaderAfter, Find, SpansFrom;
    HeaderNext(text, a, i);
    SpansNext(text, valid, a, i);
  }

  lemma {:induction false} HeaderNext(text: string, a: nat, i: nat)
    requires a <= i < |text| && (a == 0 || text[a - 1] == '\n') && forall k :: a <= k < i ==> text[k] != '\n'
    ensures Header(text, i + 1) == HeaderAfter(text, Header(text, a), a, Find(text, '#', a, i))
  {
    hide HeaderAfter, Find, LineStart;
    LineStartIs(text, a, i);
  }

  lemma {:induction false} SpansNext(text: string, valid: Checks, a: nat, i: nat)
    requires a <= i < |text| && text[i] == '\n' && forall k :: a <= k < i ==> text[k] != '\n'
    ensures SpansFrom(text, valid, a) ==
            LineSpans(text, valid, Header(text, a), a, i) + SpansFrom(text, valid, i + 1)
  {
    hide Header, LineSpans, Find;
    FindIs(text, '\n', a, |text|, i);
  }

  lemma {:induction false} LineStartIs(text: string, a: nat, i: nat)
    requires a <= i <= |text| && (a == 0 || text[a - 1] == '\n') && forall k :: a <= k < i ==> text[k] != '\n'
    ensures LineStart(text, i) == a
  {
    hide LineStart;
  }

  lemma {:induction false} LastLine(text: string, valid: Checks, above: seq<Span>, spans: seq<Span>, a: nat, h: nat,
                                    section: Field)
    requires Flushed(text, valid, above, spans, a, h, |text|, section)
    ensures spans == above + SpansFrom(text, valid, a)
  {
    hide Header, GetSection, LineSpans, HeaderAfter, Find;
    FindIs(text, '\n', a, |text|, |text|);
  }

  lemma {:induction false} StartReady(text: string, valid: Checks)
    ensures Ready(text, valid, [], Scan(OnNone, 0, 0, 0, 0), 0)
    ensures Scanned(text, valid, [], [], Scan(OnNone, 0, 0, 0, 0), 0, 0, Invalid, Invalid)
    ensures SpansFrom(text, valid, 0) == [] + SpansFrom(text, valid, 0)
  {
    hide Typed, Within, Blank, SpansFrom, GetSection, Header, KeySpan, KeyAt, Assigns, Word, BodySpans, HeaderAfter;
    HeaderStart(text);
    HeaderIs("");
  }

  lemma {:induction false} HeaderStart(text: string)
    ensures Header(text, 0) == ""
  {
    hide HeaderAfter, LineStart, Find;
  }

  /** After a line break a new line starts, at a number sign a comment. */
  method NextLine(text: string, valid: Checks, ghost spans: seq<Span>, i: nat) returns (next: Scan)
    requires Tiled(text, valid, spans, i) && i < |text| && (text[i] == '\n' || text[i] == '#')
    ensures Ready(text, valid, spans, next, i + 1)
    ensures next == if text[i] == '#' then Scan(OnComment, i, 1, 0, 0) else Scan(OnNone, i + 1, 0, 0, 0)
  {
    hide Tiled;
    if text[i] == '#' {
      next := Scan(OnComment, i, 1, 0, 0);
    } else {
      TiledBlanks(text, valid, spans, i, i + 1);
      next := Scan(OnNone, i + 1, 0, 0, 0);
    }
  }

  /** Every character except blanks lies in exactly one span of a tiling. */
  lemma {:induction false} ExactlyOne(text: string, valid: Checks, spans: seq<Span>, p: nat)
    requires Tiled(text, valid, spans, |text|) && p < |text| && !Blank(text[p])
    ensures exists k :: 0 <= k < |spans| && Has(spans[k], p)
                        && forall j :: 0 <= j < |spans| && Has(spans[j], p) ==> j == k
  {
    assert Within(spans, p);
    var k :| 0 <= k < |spans| && Has(spans[k], p);
    assert forall j :: 0 <= j < |spans| && Has(spans[j], p) ==> j == k;
  }
}
