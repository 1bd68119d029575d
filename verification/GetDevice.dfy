/** kernel_get_device of src/ipc-linux.h: peers parsed from a sequence of messages, and their fragments coalesced. */
module GetDevice {
  import opened Machine
  import opened Netlink
  import opened Wireguard
  import opened Wrappers
  import opened Receiver
  import SD = SetDevice

  // ----- the parsers -----

  /** A parsed struct wgpeer without its allowed IPs; an absent key or awg is a cleared flag. */
  datatype Parsed = Parsed(
    key: Option<seq<uint8>>,
    psk: seq<uint8>,
    hasPsk: bool,
    endpoint: Option<seq<uint8>>,
    keepalive: nat,
    awg: Option<bool>)

  datatype Found = Found(peer: Parsed, ips: seq<Ip>)

  /** mnl_attr_get_type */
  function Type(raw: Raw): int
  {
    raw.typ % 0x4000
  }

  /** parse_allowedip: an attribute of the wrong size is passed over. */
  function IpStep(ip: Ip, raw: Raw): Ip
  {
    var n := |raw.payload|;
    if Type(raw) == IP_FAMILY && n == 2 then ip.(family := GetU16(raw.payload, 0))
    else if Type(raw) == IP_ADDR && (n == 4 || n == 16) then ip.(addr := raw.payload)
    else if Type(raw) == IP_CIDR && n == 1 then ip.(cidr := raw.payload[0])
    else ip
  }

  function IpFrom(raws: seq<Raw>): Ip
  {
    if raws == [] then Ip(0, [], 0) else IpStep(IpFrom(raws[..|raws| - 1]), raws[|raws| - 1])
  }

  predicate GoodIp(ip: Ip)
  {
    (ip.family == AF_INET && ip.cidr <= 32) || (ip.family == AF_INET6 && ip.cidr <= 128)
  }

  ghost predicate ValidIps(ips: seq<Ip>)
  {
    forall n :: 0 <= n < |ips| ==> ValidIp(ips[n])
  }

  /** Allowed IPs as far as they were parsed; parsing stops behind one that is refused, which is already in the list. */
  datatype IpRun = IpRun(ips: seq<Ip>, ok: bool)

  function NextIp(run: IpRun, ip: Ip): IpRun
  {
    if run.ok then IpRun(run.ips + [ip], GoodIp(ip)) else run
  }

  /** parse_allowedips over a nest. */
  function IpsFrom(raws: seq<Raw>): IpRun
  {
    if raws == [] then IpRun([], true) else
    NextIp(IpsFrom(raws[..|raws| - 1]), IpFrom(Walk(raws[|raws| - 1].payload)))
  }

  const NO_PEER := Parsed(None, Zeros(32), false, None, 0, None)

  /** The scalar cases of parse_peer. */
  function ScalarStep(p: Parsed, raw: Raw): Parsed
  {
    var t, b := Type(raw), raw.payload;
    if t == PEER_KEY && |b| == 32 then p.(key := Some(b))
    else if t == PEER_PSK && |b| == 32 then p.(psk := b, hasPsk := p.hasPsk || b != Zeros(32))
    else if t == PEER_ENDPOINT && |b| >= 16 then
      var family := GetU16(b, 0);
      if (family == AF_INET && |b| == 16) || (family == AF_INET6 && |b| == 28) then p.(endpoint := Some(b)) else p
    else if t == PEER_KEEPALIVE && |b| == 2 then p.(keepalive := GetU16(b, 0))
    else if t == PEER_FLAGS && |b| == 4 then
      if GetFlags(Some(b)) / 8 % 2 == 1 && p.awg.None? then p.(awg := Some(false)) else p
    else if t == PEER_AWG && |b| == 0 then p.(awg := Some(true))
    else p
  }

  /** A peer as far as it was parsed; behind a refused allowed IP its attributes are skipped. */
  datatype PeerRun = PeerRun(found: Found, ok: bool)

  /** parse_peer */
  function PeerStep(run: PeerRun, raw: Raw): PeerRun
  {
    var f := run.found;
    if !run.ok then run
    else if Type(raw) == PEER_IPS then
      var more := IpsFrom(Walk(raw.payload));
      PeerRun(Found(f.peer, f.ips + more.ips), more.ok)
    else PeerRun(Found(ScalarStep(f.peer, raw), f.ips), true)
  }

  function PeerFrom(raws: seq<Raw>): PeerRun
  {
    if raws == [] then PeerRun(Found(NO_PEER, []), true) else PeerStep(PeerFrom(raws[..|raws| - 1]), raws[|raws| - 1])
  }

  /** parse_peers over a nest: a peer that was parsed in part stays; a peer without a key refuses everything. */
  function PeersFrom(raws: seq<Raw>): Option<seq<Found>>
  {
    if raws == [] then Some([]) else
    var init, f := PeersFrom(raws[..|raws| - 1]), PeerFrom(Walk(raws[|raws| - 1].payload)).found;
    if init.Some? && f.peer.key.Some? then Some(init.value + [f]) else None
  }

  /** The peers in the attributes of one message. */
  function DeviceFrom(raws: seq<Raw>): Option<seq<Found>>
  {
    if raws == [] then Some([]) else
    var init, raw := DeviceFrom(raws[..|raws| - 1]), raws[|raws| - 1];
    if Type(raw) != PEERS then init else
    var peers := PeersFrom(Walk(raw.payload));
    if init.Some? && peers.Some? then Some(init.value + peers.value) else None
  }

  /** The peers of a sequence of messages, in order. */
  function Parse(messages: seq<seq<uint8>>): Option<seq<Found>>
  {
    if messages == [] then Some([]) else
    var m := messages[|messages| - 1];
    var init, last := Parse(messages[..|messages| - 1]), if |m| < HEADERS then None else DeviceFrom(Walk(m[HEADERS..]));
    if init.Some? && last.Some? then Some(init.value + last.value) else None
  }

  // ----- what the parsers make of any attributes -----

  /** The payload of the last attribute of a type that suits. */
  ghost function Latest(raws: seq<Raw>, typ: int, suits: seq<uint8> -> bool): Option<seq<uint8>>
  {
    if raws == [] then None else
    var raw := raws[|raws| - 1];
    if raw.typ % 0x4000 == typ && suits(raw.payload) then Some(raw.payload) else Latest(raws[..|raws| - 1], typ, suits)
  }

  ghost function Little(b: seq<uint8>): (v: nat)
    requires |b| == 2
  {
    b[0] as int + 256 * (b[1] as int)
  }

  ghost function LatestIp(raws: seq<Raw>): Ip
  {
    var family := Latest(raws, 1, b => |b| == 2);
    var addr := Latest(raws, 2, b => |b| == 4 || |b| == 16);
    var cidr := Latest(raws, 3, b => |b| == 1);
    Ip(if family.Some? && |family.value| == 2 then Little(family.value) else 0,
       if addr.Some? then addr.value else [],
       if cidr.Some? && |cidr.value| == 1 then cidr.value[0] else 0)
  }

  lemma {:induction false} IpReads(raws: seq<Raw>)
    ensures IpFrom(raws) == LatestIp(raws)
    decreases |raws|
  {
    if raws != [] { IpReads(raws[..|raws| - 1]); }
  }

  /** An IPv4 or IPv6 socket address of the right size. */
  ghost predicate SocketAddress(b: seq<uint8>)
  {
    (|b| == 16 && b[0] == 2 && b[1] == 0) || (|b| == 28 && b[0] == 10 && b[1] == 0)
  }

  ghost function LatestKey(raws: seq<Raw>): Option<seq<uint8>> { Latest(raws, 1, b => |b| == 32) }
  ghost function LatestPsk(raws: seq<Raw>): Option<seq<uint8>> { Latest(raws, 2, b => |b| == 32) }
  ghost function LatestEndpoint(raws: seq<Raw>): Option<seq<uint8>> { Latest(raws, 4, b => SocketAddress(b)) }
  ghost function LatestKeepalive(raws: seq<Raw>): Option<seq<uint8>> { Latest(raws, 5, b => |b| == 2) }

  /** Some preshared key is not zero. */
  ghost predicate AnySecret(raws: seq<Raw>) { Latest(raws, 2, b => |b| == 32 && b != Zeros(32)).Some? }

  ghost predicate AnyAwg(raws: seq<Raw>) { Latest(raws, 11, b => b == []).Some? }

  /** Some flags have bit 8 set. */
  ghost predicate AnyAwgFlag(raws: seq<Raw>) { Latest(raws, 3, b => |b| == 4 && b[0] / 8 % 2 == 1).Some? }

  /** A peer by the last attribute of each type that has the right size; for awg its attribute outweighs the flags. */
  ghost function LatestPeer(raws: seq<Raw>): Parsed
  {
    var psk, keepalive := LatestPsk(raws), LatestKeepalive(raws);
    Parsed(LatestKey(raws),
           if psk.Some? then psk.value else Zeros(32),
           AnySecret(raws),
           LatestEndpoint(raws),
           if keepalive.Some? && |keepalive.value| == 2 then Little(keepalive.value) else 0,
           if AnyAwg(raws) then Some(true) else if AnyAwgFlag(raws) then Some(false) else None)
  }

  /** The attributes of a peer in front of the end of parsing, or all of them. */
  ghost function Taken(raws: seq<Raw>): (r: seq<Raw>)
    ensures r <= raws
  {
    if raws == [] then [] else
    var init := raws[..|raws| - 1];
    if PeerFrom(init).ok then raws else Taken(init)
  }

  lemma {:induction false} FlagBit(b: seq<uint8>)
    requires |b| == 4
    ensures GetFlags(Some(b)) / 8 % 2 == b[0] / 8 % 2
  {
  }

  lemma {:induction false} LatestMore(raws: seq<Raw>)
    requires raws != []
    ensures var init, t, b := raws[..|raws| - 1], raws[|raws| - 1].typ % 0x4000, raws[|raws| - 1].payload;
            && LatestKey(raws) == (if t == 1 && |b| == 32 then Some(b) else LatestKey(init))
            && LatestPsk(raws) == (if t == 2 && |b| == 32 then Some(b) else LatestPsk(init))
            && LatestEndpoint(raws) == (if t == 4 && SocketAddress(b) then Some(b) else LatestEndpoint(init))
            && LatestKeepalive(raws) == if t == 5 && |b| == 2 then Some(b) else LatestKeepalive(init)
  {
    hide SocketAddress;
  }

  lemma {:induction false} AnyMore(raws: seq<Raw>)
    requires raws != []
    ensures var init, t, b := raws[..|raws| - 1], raws[|raws| - 1].typ % 0x4000, raws[|raws| - 1].payload;
            && (AnySecret(raws) <==> AnySecret(init) || (t == 2 && |b| == 32 && b != Zeros(32)))
            && (AnyAwg(raws) <==> AnyAwg(init) || (t == 11 && b == []))
            && (AnyAwgFlag(raws) <==> AnyAwgFlag(init) || (t == 3 && |b| == 4 && b[0] / 8 % 2 == 1))
  {
    hide Zeros;
  }

  lemma {:induction false} PeerLatest(raws: seq<Raw>)
    requires raws != []
    ensures var raw := raws[|raws| - 1];
            LatestPeer(raws) ==
            if Type(raw) == 9 then LatestPeer(raws[..|raws| - 1]) else ScalarStep(LatestPeer(raws[..|raws| - 1]), raw)
  {
    hide LatestKey, LatestPsk, LatestEndpoint, LatestKeepalive, AnySecret, AnyAwg, AnyAwgFlag, GetFlags, Zeros;
    LatestMore(raws);
    AnyMore(raws);
    var b := raws[|raws| - 1].payload;
    if |b| == 4 { FlagBit(b); }
  }

  /** Any peer that is parsed, well-formed or not, is read by the attributes up to the end of parsing. */
  lemma {:induction false} PeerReads(raws: seq<Raw>)
    ensures PeerFrom(raws).found.peer == LatestPeer(Taken(raws))
    decreases |raws|
  {
    if raws != [] {
      PeerLatest(raws);
      hide LatestPeer, ScalarStep, IpsFrom, Walk;
      PeerReads(raws[..|raws| - 1]);
      TakenAll(raws[..|raws| - 1]);
    } else {
      assert PeerFrom([]).found.peer == NO_PEER;
    }
  }

  lemma {:induction false} TakenAll(raws: seq<Raw>)
    ensures PeerFrom(raws).ok ==> Taken(raws) == raws
    decreases |raws|
  {
    hide ScalarStep, IpsFrom, Walk;
  }

  /** A list of peers is refused exactly if one of them has no key of the right size. */
  lemma {:induction false} PeersRead(raws: seq<Raw>)
    ensures PeersFrom(raws).Some? <==>
            forall i :: 0 <= i < |raws| ==> LatestKey(Taken(Walk(raws[i].payload))).Some?
    ensures PeersFrom(raws).Some? ==>
              && |PeersFrom(raws).value| == |raws|
              && forall i :: 0 <= i < |raws| ==>
                   PeersFrom(raws).value[i].peer == LatestPeer(Taken(Walk(raws[i].payload)))
    decreases |raws|
  {
    hide LatestKey, Walk, PeerFrom;
    if raws != [] {
      PeersRead(raws[..|raws| - 1]);
      PeerReads(Walk(raws[|raws| - 1].payload));
      assert raws == raws[..|raws| - 1] + [raws[|raws| - 1]];
    }
  }

  // ----- what the parsers make of written attributes -----

  function FoundOf(p: Peer): Found
  {
    Found(Parsed(Some(p.key),
                 if p.psk.Some? then p.psk.value else Zeros(32),
                 p.psk.Some? && p.psk.value != Zeros(32),
                 p.endpoint,
                 if p.keepalive.Some? then p.keepalive.value else 0,
                 p.awg),
          p.ips)
  }

  /** The allowed IPs of a list that the parser takes: up to and with the first bad one. */
  function Heard(ips: seq<Ip>): IpRun
  {
    if ips == [] then IpRun([], true) else NextIp(Heard(ips[..|ips| - 1]), ips[|ips| - 1])
  }

  /** All but the last allowed IP are good. */
  ghost predicate GoodButLast(ips: seq<Ip>)
  {
    forall n :: 0 <= n < |ips| - 1 ==> GoodIp(ips[n])
  }

  /**
   What is heard is a beginning of the list, never empty without need, and all of it exactly if
   only the last may be bad.
   */
  lemma {:induction false} HeardIs(ips: seq<Ip>)
    ensures Heard(ips).ips <= ips && (ips != [] ==> Heard(ips).ips != [])
    ensures Heard(ips).ips == ips <==> GoodButLast(ips)
    ensures Heard(ips).ok <==> forall n :: 0 <= n < |ips| ==> GoodIp(ips[n])
  {
    hide GoodIp;
    if ips != [] {
      var init, ip := ips[..|ips| - 1], ips[|ips| - 1];
      HeardIs(init);
      assert ips == init + [ip];
      assert Heard(ips) == NextIp(Heard(init), ip);
      hide Heard;
      assert Heard(init).ok ==> Heard(init).ips == init;
    }
  }

  /** The prefix length does not exceed the bits of the address. */
  ghost predicate PrefixFits(ip: Ip)
  {
    0 < |ip.addr| && ip.cidr <= 8 * |ip.addr|
  }

  /** The parser takes the allowed IPs whose prefix lengths fit, and no others. */
  lemma {:induction false} GoodIpFits(ip: Ip)
    requires ValidIp(ip)
    ensures GoodIp(ip) <==> PrefixFits(ip)
  {
  }

  ghost predicate FitsButLast(ips: seq<Ip>)
  {
    forall n :: 0 <= n < |ips| - 1 ==> PrefixFits(ips[n])
  }

  /** A list is heard whole exactly if all its prefix lengths fit, except perhaps the last. */
  lemma {:induction false} HeardFits(ips: seq<Ip>)
    requires ValidIps(ips)
    ensures Heard(ips).ips == ips <==> FitsButLast(ips)
    ensures Heard(ips).ok <==> forall n :: 0 <= n < |ips| ==> PrefixFits(ips[n])
  {
    forall n | 0 <= n < |ips| ensures GoodIp(ips[n]) <==> PrefixFits(ips[n]) { GoodIpFits(ips[n]); }
    hide GoodIp, PrefixFits, Heard;
    HeardIs(ips);
  }

  /** A fragment as the parser takes it. */
  function Kept(p: Peer): Peer
  {
    p.(ips := Heard(p.ips).ips)
  }

  function KeptAll(peers: seq<Peer>): (r: seq<Peer>)
    ensures |r| == |peers|
  {
    seq(|peers|, n requires 0 <= n < |peers| => Kept(peers[n]))
  }

  lemma {:induction false} RawsAppend(items: seq<Attr>, a: Attr)
    ensures RawsOf(items + [a]) == RawsOf(items) + [RawOf(a)]
  {
    assert (items + [a])[..|items|] == items;
  }

  lemma {:induction false} WalkItems(items: seq<Attr>)
    requires AllWellFormed(items)
    ensures Walk(Enc(items)) == RawsOf(items)
  {
    WalkEnc(items, []);
    assert Enc(items) + [] == Enc(items) && Walk([]) == [] && RawsOf(items) + [] == RawsOf(items);
  }

  lemma {:induction false} IpAppend(items: seq<Attr>, a: Attr)
    ensures IpFrom(RawsOf(items + [a])) == IpStep(IpFrom(RawsOf(items)), RawOf(a))
  {
    RawsAppend(items, a);
    assert (RawsOf(items) + [RawOf(a)])[..|items|] == RawsOf(items);
  }

  lemma {:induction false} IpParsed(ip: Ip)
    requires ValidIp(ip)
    ensures IpFrom(RawsOf(IpItems(ip))) == ip
  {
    var a, b, c := Leaf(IP_FAMILY, U16(ip.family)), Leaf(IP_ADDR, ip.addr), Leaf(IP_CIDR, [ip.cidr]);
    assert [] + [a] == [a];
    IpAppend([], a);
    if ip.family == AF_INET || ip.family == AF_INET6 {
      assert IpItems(ip) == [a] + [b] + [c];
      IpAppend([a], b);
      IpAppend([a] + [b], c);
    } else {
      assert IpItems(ip) == [a] + [c] && ip.addr == [];
      IpAppend([a], c);
    }
    U16Read(ip.family, [], [], U16(ip.family));
    hide IpFrom, U16, GetU16, RawsOf, IpItems;
    assert IpFrom(RawsOf([])) == Ip(0, [], 0) by { RawsNone(); }
  }

  lemma {:induction false} RawsNone()
    ensures RawsOf([]) == [] && IpFrom([]) == Ip(0, [], 0) && IpsFrom([]) == IpRun([], true)
    ensures PeerFrom([]) == PeerRun(Found(NO_PEER, []), true) && PeersFrom([]) == Some([]) && DeviceFrom([]) == Some([])
  {
  }

  lemma {:induction false} IpsParsed(ips: seq<Ip>)
    requires ValidIps(ips)
    requires AllWellFormed(IpAttrs(ips))
    ensures IpsFrom(RawsOf(IpAttrs(ips))) == Heard(ips)
    decreases |ips|
  {
    hide WellFormed, IpItems, RawsOf, IpsFrom, ValidIp, NextIp;
    if ips == [] {
      RawsNone();
      assert IpAttrs(ips) == [];
    } else {
      var init, ip := ips[..|ips| - 1], ips[|ips| - 1];
      var a, attrs := Nest(0, IpItems(ip)), IpAttrs(ips);
      assert attrs[..|init|] == IpAttrs(init) && attrs[|init|] == a && attrs == attrs[..|init|] + [a];
      assert WellFormed(attrs[|init|]);
      hide IpAttrs;
      IpsParsed(init);
      IpsMore(IpAttrs(init), ip);
    }
  }

  lemma {:induction false} IpsMore(attrs: seq<Attr>, ip: Ip)
    requires ValidIp(ip) && WellFormed(Nest(0, IpItems(ip)))
    ensures IpsFrom(RawsOf(attrs + [Nest(0, IpItems(ip))])) == NextIp(IpsFrom(RawsOf(attrs)), ip)
  {
    var a := Nest(0, IpItems(ip));
    RawsAppend(attrs, a);
    assert (RawsOf(attrs) + [RawOf(a)])[..|attrs|] == RawsOf(attrs);
    WalkItems(IpItems(ip));
    IpParsed(ip);
    hide IpFrom, Walk, RawsOf, IpItems, Enc, WellFormed, NextIp;
  }

  lemma {:induction false} PeerOpt(items: seq<Attr>, p: Parsed, t: nat, payload: Option<seq<uint8>>)
    requires t < 0x4000 && t != PEER_IPS && PeerFrom(RawsOf(items)) == PeerRun(Found(p, []), true)
    ensures PeerFrom(RawsOf(items + Opt(t, payload))) ==
            PeerRun(Found(if payload.Some? then ScalarStep(p, Raw(t, payload.value)) else p, []), true)
  {
    if payload.Some? {
      var a := Leaf(t, payload.value);
      hide RawsOf, ScalarStep;
      RawsAppend(items, a);
      assert (RawsOf(items) + [RawOf(a)])[..|items|] == RawsOf(items);
      assert Type(RawOf(a)) == t;
    } else {
      assert items + [] == items;
    }
  }

  lemma {:induction false} FlagsParsed(p: Parsed, q: Peer)
    requires p.awg == if q.awg == Some(true) then Some(true) else None
    requires Flags(q) != 0
    ensures ScalarStep(p, Raw(PEER_FLAGS, U32(Flags(q)))) == p.(awg := q.awg)
  {
    FlagBits(q);
    FlagsRead(Flags(q));
    var b := U32(Flags(q));
    hide U32, Flags, GetFlags, GetU16;
    assert Type(Raw(PEER_FLAGS, b)) == PEER_FLAGS;
    match q.awg {
      case None => assert ScalarStep(p, Raw(PEER_FLAGS, b)) == p;
      case Some(on) => assert ScalarStep(p, Raw(PEER_FLAGS, b)) == if on then p else p.(awg := Some(false));
    }
  }

  lemma {:induction false} KeyParsed(p: Parsed, key: seq<uint8>)
    requires |key| == 32
    ensures ScalarStep(p, Raw(PEER_KEY, key)) == p.(key := Some(key))
    ensures ScalarStep(p, Raw(PEER_PSK, key)) == p.(psk := key, hasPsk := p.hasPsk || key != Zeros(32))
  {
    hide GetU16, GetFlags;
  }

  lemma {:induction false} EndpointParsed(p: Parsed, e: seq<uint8>)
    requires ValidEndpoint(e)
    ensures ScalarStep(p, Raw(PEER_ENDPOINT, e)) == p.(endpoint := Some(e))
  {
    hide GetU16, GetFlags;
  }

  lemma {:induction false} KeepaliveParsed(p: Parsed, v: nat)
    requires v < 0x1_0000
    ensures ScalarStep(p, Raw(PEER_KEEPALIVE, U16(v))) == p.(keepalive := v)
    ensures ScalarStep(p, Raw(PEER_AWG, [])) == p.(awg := Some(true))
  {
    U16Read(v, [], [], U16(v));
    hide GetU16, GetFlags, U16;
  }

  /** The scalars in front of the flags. */
  function Front(q: Peer): seq<Attr>
  {
    Opt(PEER_KEY, Some(q.key)) + Opt(PEER_PSK, q.psk) + Opt(PEER_ENDPOINT, q.endpoint)
    + Opt(PEER_KEEPALIVE, if q.keepalive.Some? then Some(U16(q.keepalive.value)) else None)
  }

  lemma {:induction false} FrontParsed(q: Peer)
    requires ValidPeer(q)
    ensures PeerFrom(RawsOf(Front(q))) == PeerRun(Found(FoundOf(q).peer.(awg := None), []), true)
  {
    var keepalive := if q.keepalive.Some? then Some(U16(q.keepalive.value)) else None;
    var a := Opt(PEER_KEY, Some(q.key));
    var b := a + Opt(PEER_PSK, q.psk);
    var c := b + Opt(PEER_ENDPOINT, q.endpoint);
    assert [] + a == a;
    RawsNone();
    hide PeerFrom, RawsOf, Opt, U16, ScalarStep, ValidEndpoint, ValidIp, Zeros;
    var p1 := NO_PEER.(key := Some(q.key));
    KeyParsed(NO_PEER, q.key);
    PeerOpt([], NO_PEER, PEER_KEY, Some(q.key));
    var p2 := if q.psk.Some? then p1.(psk := q.psk.value, hasPsk := q.psk.value != Zeros(32)) else p1;
    if q.psk.Some? { KeyParsed(p1, q.psk.value); }
    PeerOpt(a, p1, PEER_PSK, q.psk);
    var p3 := p2.(endpoint := q.endpoint);
    if q.endpoint.Some? { EndpointParsed(p2, q.endpoint.value); }
    PeerOpt(b, p2, PEER_ENDPOINT, q.endpoint);
    if q.keepalive.Some? { KeepaliveParsed(p3, q.keepalive.value); }
    PeerOpt(c, p3, PEER_KEEPALIVE, keepalive);
  }

  lemma {:induction false} ScalarsParsed(q: Peer)
    requires ValidPeer(q)
    ensures PeerFrom(RawsOf(PeerScalars(q))) == PeerRun(Found(FoundOf(q).peer, []), true)
  {
    var awg := if q.awg == Some(true) then Some([]) else None;
    var flags := if Flags(q) != 0 then Some(U32(Flags(q))) else None;
    var e := Front(q) + Opt(PEER_AWG, awg);
    assert PeerScalars(q) == e + Opt(PEER_FLAGS, flags);
    FlagBits(q);
    FrontParsed(q);
    hide PeerFrom, RawsOf, Opt, PeerScalars, U32, Flags, ScalarStep, ValidPeer, Front;
    var p4 := FoundOf(q).peer.(awg := None);
    var p5 := p4.(awg := if q.awg == Some(true) then Some(true) else None);
    KeepaliveParsed(p4, 0);
    PeerOpt(Front(q), p4, PEER_AWG, awg);
    if Flags(q) != 0 { FlagsParsed(p5, q); }
    PeerOpt(e, p5, PEER_FLAGS, flags);
  }

  /** parse_peer reads a written fragment back, up to its first bad allowed IP. */
  lemma {:induction false} PeerParsed(q: Peer, a: Attr)
    requires ValidPeer(q) && Carries(a, q) && WellFormed(a)
    ensures PeerFrom(Walk(Enc(a.items))) == PeerRun(FoundOf(Kept(q)), Heard(q.ips).ok)
  {
    var s := PeerScalars(q);
    ScalarsParsed(q);
    assert AllWellFormed(a.items);
    WalkItems(a.items);
    if a == Nest(0, PeerItems(q, true)) {
      var nest := Nest(PEER_IPS, IpAttrs(q.ips));
      assert a.items == s + [nest];
      assert WellFormed(a.items[|s|]) && a.items[|s|] == nest;
      NestWellFormed(PEER_IPS, IpAttrs(q.ips));
      hide WellFormed, Walk, IpAttrs, IpsFrom, RawsOf, PeerFrom, PeerScalars, Enc;
      WalkItems(IpAttrs(q.ips));
      IpsParsed(q.ips);
      NestParsed(s, FoundOf(q).peer, IpAttrs(q.ips), Heard(q.ips));
    } else {
      assert a.items == s + [] == s;
    }
  }

  lemma {:induction false} NestWellFormed(t: nat, items: seq<Attr>)
    requires WellFormed(Nest(t, items))
    ensures AllWellFormed(items)
  {
  }

  lemma {:induction false} TypeOfNest(t: nat, payload: seq<uint8>)
    requires t < 0x4000
    ensures Type(Raw(NESTED + t, payload)) == t
  {
  }

  lemma {:induction false} IpsStep(p: Parsed, attrs: seq<Attr>, run: IpRun)
    requires IpsFrom(Walk(Enc(attrs))) == run
    ensures PeerStep(PeerRun(Found(p, []), true), Raw(NESTED + PEER_IPS, Enc(attrs))) ==
            PeerRun(Found(p, run.ips), run.ok)
  {
    hide Walk, IpsFrom, Enc, EncOne, ScalarStep;
    TypeOfNest(PEER_IPS, Enc(attrs));
    assert [] + run.ips == run.ips;
  }

  lemma {:induction false} NestParsed(s: seq<Attr>, p: Parsed, attrs: seq<Attr>, run: IpRun)
    requires PeerFrom(RawsOf(s)) == PeerRun(Found(p, []), true)
    requires Walk(Enc(attrs)) == RawsOf(attrs) && IpsFrom(RawsOf(attrs)) == run
    ensures PeerFrom(RawsOf(s + [Nest(PEER_IPS, attrs)])) == PeerRun(Found(p, run.ips), run.ok)
  {
    hide RawsOf, Walk, IpsFrom, Enc, EncOne, PeerFrom, ScalarStep, Type, PeerStep;
    var a := Nest(PEER_IPS, attrs);
    var raw := Raw(NESTED + PEER_IPS, Enc(attrs));
    assert RawOf(a) == raw;
    hide RawOf;
    IpsStep(p, attrs, run);
    RawsAppend(s, a);
    PeerFromMore(RawsOf(s), raw);
  }

  lemma {:induction false} PeerFromMore(raws: seq<Raw>, raw: Raw)
    ensures PeerFrom(raws + [raw]) == PeerStep(PeerFrom(raws), raw)
  {
    assert (raws + [raw])[..|raws|] == raws;
    hide PeerStep;
  }

  function FoundsOf(peers: seq<Peer>): (r: seq<Found>)
    ensures |r| == |peers|
  {
    seq(|peers|, n requires 0 <= n < |peers| => FoundOf(peers[n]))
  }

  lemma {:induction false} PeersParsed(attrs: seq<Attr>, frags: seq<Peer>)
    requires CarriesAll(attrs, frags) && AllWellFormed(attrs)
    requires forall n :: 0 <= n < |frags| ==> ValidPeer(frags[n])
    ensures PeersFrom(RawsOf(attrs)) == Some(FoundsOf(KeptAll(frags)))
    decreases |frags|
  {
    hide WellFormed, RawsOf, PeersFrom, ValidPeer, FoundOf, Carries, Kept;
    if frags == [] {
      RawsNone();
      assert attrs == [] && FoundsOf(KeptAll(frags)) == [];
    } else {
      var n := |frags| - 1;
      PeersParsed(attrs[..n], frags[..n]);
      assert attrs == attrs[..n] + [attrs[n]];
      assert WellFormed(attrs[n]) && Carries(attrs[n], frags[n]);
      PeersMore(attrs[..n], FoundsOf(KeptAll(frags[..n])), attrs[n], frags[n]);
      assert FoundsOf(KeptAll(frags)) == FoundsOf(KeptAll(frags[..n])) + [FoundOf(Kept(frags[n]))];
    }
  }

  lemma {:induction false} PeersMore(attrs: seq<Attr>, found: seq<Found>, a: Attr, q: Peer)
    requires PeersFrom(RawsOf(attrs)) == Some(found) && Carries(a, q) && WellFormed(a) && ValidPeer(q)
    ensures PeersFrom(RawsOf(attrs + [a])) == Some(found + [FoundOf(Kept(q))])
  {
    PeerParsed(q, a);
    RawsAppend(attrs, a);
    assert (RawsOf(attrs) + [RawOf(a)])[..|attrs|] == RawsOf(attrs);
    hide WellFormed, RawsOf, Walk, PeerFrom, Enc, ValidPeer, PeerItems, Heard;
  }

  // ----- messages -----

  lemma {:induction false} DeviceFromMore(items: seq<Attr>, a: Attr)
    ensures DeviceFrom(RawsOf(items + [a])) ==
            var init, raw := DeviceFrom(RawsOf(items)), RawOf(a);
            if Type(raw) != PEERS then init else
            var peers := PeersFrom(Walk(raw.payload));
            if init.Some? && peers.Some? then Some(init.value + peers.value) else None
  {
    hide RawsOf, RawOf, Walk, PeersFrom, Type;
    RawsAppend(items, a);
    assert (RawsOf(items) + [RawOf(a)])[..|items|] == RawsOf(items);
  }

  lemma {:induction false} DeviceOpt(items: seq<Attr>, t: nat, payload: Option<seq<uint8>>)
    requires t < 0x4000 && t != PEERS && DeviceFrom(RawsOf(items)) == Some([])
    ensures DeviceFrom(RawsOf(items + Opt(t, payload))) == Some([])
  {
    hide RawsOf, Walk, PeersFrom, DeviceFrom;
    if payload.Some? {
      DeviceFromMore(items, Leaf(t, payload.value));
    } else {
      assert items + [] == items;
    }
  }

  lemma {:induction false} SettingsParsed(d: Device, order: seq<nat>)
    requires forall n :: 0 <= n < |order| ==> order[n] < 0x4000 && order[n] != PEERS
    ensures DeviceFrom(RawsOf(Settings(d, order))) == Some([])
    decreases |order|
  {
    hide RawsOf, DeviceFrom;
    if order == [] {
      RawsNone();
      DeviceOpt([], IFNAME, Some(d.name + [0]));
      assert [] + Opt(IFNAME, Some(d.name + [0])) == Settings(d, []);
    } else {
      var t := order[|order| - 1];
      SettingsParsed(d, order[..|order| - 1]);
      DeviceOpt(Settings(d, order[..|order| - 1]), t, Setting(d, t));
    }
  }

  lemma {:induction false} DevicePartParsed(d: Device)
    ensures DeviceFrom(RawsOf(DeviceItems(d))) == Some([])
  {
    forall n | 0 <= n < |Order()| ensures Order()[n] < 0x4000 && Order()[n] != PEERS { OrderTypes(Order()[n]); }
    hide Order, RawsOf, DeviceFrom, Settings, U32;
    SettingsParsed(d, Order());
    DeviceOpt(Settings(d, Order()), DEVICE_FLAGS, DeviceFlags(d));
  }

  lemma {:induction false} PeersNestParsed(items: seq<Attr>, attrs: seq<Attr>, found: seq<Found>)
    requires DeviceFrom(RawsOf(items)) == Some([]) && PeersFrom(Walk(Enc(attrs))) == Some(found)
    ensures DeviceFrom(RawsOf(items + [Nest(PEERS, attrs)])) == Some(found)
  {
    hide Enc, EncOne, Walk, RawsOf, DeviceFrom, PeersFrom;
    DeviceFromMore(items, Nest(PEERS, attrs));
    TypeOfNest(PEERS, Enc(attrs));
    assert [] + found == found;
  }

  /** The peers of one message are its fragments, each up to its first bad allowed IP. */
  lemma {:induction false} MessageParsed(message: seq<uint8>, d: Device, frags: seq<Peer>)
    requires SD.Encodes(message, d, frags)
    requires forall n :: 0 <= n < |frags| ==> ValidPeer(frags[n])
    ensures |message| >= HEADERS && DeviceFrom(Walk(message[HEADERS..])) == Some(FoundsOf(KeptAll(frags)))
  {
    hide Enc, EncOne, Walk, RawsOf, DeviceFrom, WellFormed, ValidPeer, CarriesAll, PeersFrom, DeviceItems, FoundsOf;
    var items, attrs :| SD.EncodesWith(message, d, items, attrs, frags);
    WalkItems(items);
    DevicePartParsed(d);
    if items == DeviceItems(d) + [Nest(PEERS, attrs)] {
      assert WellFormed(items[|items| - 1]) && items[|items| - 1] == Nest(PEERS, attrs);
      NestWellFormed(PEERS, attrs);
      WalkItems(attrs);
      PeersParsed(attrs, frags);
      PeersNestParsed(DeviceItems(d), attrs, FoundsOf(KeptAll(frags)));
    } else {
      NoneCarried(frags);
    }
  }

  lemma {:induction false} NoneCarried(frags: seq<Peer>)
    requires CarriesAll([], frags)
    ensures frags == []
  {
  }
}
