/** Device configurations, their netlink form, and the receiver documented in uapi/linux/linux/wireguard.h. */
module Wireguard {
  import opened Machine
  import opened Netlink
  import opened Wrappers

  /** struct wgallowedip */
  datatype Ip = Ip(family: nat, addr: seq<uint8>, cidr: uint8)

  /** struct wgpeer as a configuration: an absent optional is a cleared WGPEER_HAS flag. */
  datatype Peer = Peer(
    key: seq<uint8>,
    remove: bool,
    replaceIps: bool,
    psk: Option<seq<uint8>>,
    endpoint: Option<seq<uint8>>,
    keepalive: Option<nat>,
    awg: Option<bool>,
    ips: seq<Ip>)

  /** struct wgdevice: settings maps the attribute type of every flagged scalar to its payload. */
  datatype Device = Device(name: seq<uint8>, settings: map<nat, seq<uint8>>, replacePeers: bool, peers: seq<Peer>)

  const AF_INET: nat := 2
  const AF_INET6: nat := 10

  ghost predicate ValidIp(ip: Ip)
  {
    && ip.family < 0x1_0000
    && |ip.addr| == if ip.family == AF_INET then 4 else if ip.family == AF_INET6 then 16 else 0
  }

  ghost predicate ValidEndpoint(e: seq<uint8>)
  {
    || (|e| == 16 && GetU16(e, 0) == AF_INET)
    || (|e| == 28 && GetU16(e, 0) == AF_INET6)
  }

  ghost predicate ValidPeer(p: Peer)
  {
    && |p.key| == 32
    && (p.psk.Some? ==> |p.psk.value| == 32)
    && (p.endpoint.Some? ==> ValidEndpoint(p.endpoint.value))
    && (p.keepalive.Some? ==> p.keepalive.value < 0x1_0000)
    && forall i :: 0 <= i < |p.ips| ==> ValidIp(p.ips[i])
  }

  // ----- the attribute form -----

  /** An optional attribute. */
  function Opt(typ: nat, payload: Option<seq<uint8>>): seq<Attr>
  {
    match payload
    case None => []
    case Some(b) => [Leaf(typ, b)]
  }

  /** The payload of the last attribute of a type. */
  function Get(items: seq<Attr>, typ: nat): Option<seq<uint8>>
  {
    if items == [] then None else
    var a := items[|items| - 1];
    if a.Leaf? && a.typ == typ then Some(a.payload) else Get(items[..|items| - 1], typ)
  }

  /** The attributes in the last nest of a type, none when it is absent. */
  function GetNest(items: seq<Attr>, typ: nat): seq<Attr>
  {
    if items == [] then [] else
    var a := items[|items| - 1];
    if a.Nest? && a.typ == typ then a.items else GetNest(items[..|items| - 1], typ)
  }

  lemma {:induction false} GetAppend(items: seq<Attr>, a: Attr, typ: nat)
    ensures Get(items + [a], typ) == if a.Leaf? && a.typ == typ then Some(a.payload) else Get(items, typ)
    ensures GetNest(items + [a], typ) == if a.Nest? && a.typ == typ then a.items else GetNest(items, typ)
  {
    assert (items + [a])[..|items|] == items;
  }

  lemma {:induction false} GetOpt(items: seq<Attr>, t: nat, payload: Option<seq<uint8>>, typ: nat)
    ensures Get(items + Opt(t, payload), typ) == if t == typ && payload.Some? then payload else Get(items, typ)
    ensures GetNest(items + Opt(t, payload), typ) == GetNest(items, typ)
  {
    if payload.Some? {
      GetAppend(items, Leaf(t, payload.value), typ);
    } else {
      assert items + [] == items;
    }
  }

  const IP_FAMILY := 1
  const IP_ADDR := 2
  const IP_CIDR := 3

  function IpItems(ip: Ip): seq<Attr>
  {
    [Leaf(IP_FAMILY, U16(ip.family))]
    + Opt(IP_ADDR, if ip.family == AF_INET || ip.family == AF_INET6 then Some(ip.addr) else None)
    + Opt(IP_CIDR, Some([ip.cidr]))
  }

  function GetIp(a: Attr): Ip
  {
    var items := if a.Nest? then a.items else [];
    var family, addr, cidr := Get(items, IP_FAMILY), Get(items, IP_ADDR), Get(items, IP_CIDR);
    Ip(if family.Some? && |family.value| == 2 then GetU16(family.value, 0) else 0,
       if addr.Some? then addr.value else [],
       if cidr.Some? && |cidr.value| == 1 then cidr.value[0] else 0)
  }

  lemma {:induction false} IpRoundTrip(ip: Ip)
    requires ValidIp(ip)
    ensures GetIp(Nest(0, IpItems(ip))) == ip
  {
    var addr := if ip.family == AF_INET || ip.family == AF_INET6 then Some(ip.addr) else None;
    var a := [Leaf(IP_FAMILY, U16(ip.family))];
    var b := a + Opt(IP_ADDR, addr);
    forall t ensures Get(IpItems(ip), t) == if t == IP_CIDR then Some([ip.cidr])
                                            else if t == IP_ADDR && addr.Some? then addr else Get(a, t) {
      GetOpt(a, IP_ADDR, addr, t);
      GetOpt(b, IP_CIDR, Some([ip.cidr]), t);
    }
    U16Read(ip.family, [], [], U16(ip.family));
    assert Get(a, IP_FAMILY) == Some(U16(ip.family)) && Get(a, IP_ADDR) == None;
  }

  const PEER_KEY := 1
  const PEER_PSK := 2
  const PEER_FLAGS := 3
  const PEER_ENDPOINT := 4
  const PEER_KEEPALIVE := 5
  const PEER_IPS := 9
  const PEER_AWG := 11

  const REMOVE_ME := 1
  const REPLACE_IPS := 2
  const HAS_AWG := 8

  function Flags(p: Peer): (v: nat)
  {
    (if p.remove then REMOVE_ME else 0)
    + (if p.replaceIps then REPLACE_IPS else 0)
    + (if p.awg.Some? then HAS_AWG else 0)
  }

  function U32(v: nat): (b: seq<uint8>)
    ensures |b| == 4
  {
    [v % 256, v / 256 % 256, v / 65536 % 256, v / 0x100_0000 % 256]
  }

  function GetFlags(payload: Option<seq<uint8>>): nat
  {
    if payload.Some? && |payload.value| == 4 then
      GetU16(payload.value, 0) + 0x1_0000 * GetU16(payload.value, 2)
    else 0
  }

  lemma {:induction false} FlagsRead(v: nat)
    requires v < 0x1_0000
    ensures GetFlags(Some(U32(v))) == v
  {
  }

  lemma {:induction false} FlagBits(p: Peer)
    ensures Flags(p) < 16 && (Flags(p) % 2 == 1 <==> p.remove) && (Flags(p) / 2 % 2 == 1 <==> p.replaceIps)
    ensures Flags(p) / 8 % 2 == 1 <==> p.awg.Some?
  {
  }

  function IpAttrs(ips: seq<Ip>): (r: seq<Attr>)
    ensures |r| == |ips|
  {
    seq(|ips|, i requires 0 <= i < |ips| => Nest(0, IpItems(ips[i])))
  }

  /** A peer without its allowed IPs. */
  function PeerScalars(p: Peer): seq<Attr>
  {
    [Leaf(PEER_KEY, p.key)]
    + Opt(PEER_PSK, p.psk)
    + Opt(PEER_ENDPOINT, p.endpoint)
    + Opt(PEER_KEEPALIVE, if p.keepalive.Some? then Some(U16(p.keepalive.value)) else None)
    + Opt(PEER_AWG, if p.awg == Some(true) then Some([]) else None)
    + Opt(PEER_FLAGS, if Flags(p) != 0 then Some(U32(Flags(p))) else None)
  }

  function GetPeer(a: Attr): Peer
  {
    var items := if a.Nest? then a.items else [];
    var key, keepalive, flags := Get(items, PEER_KEY), Get(items, PEER_KEEPALIVE), GetFlags(Get(items, PEER_FLAGS));
    Peer(if key.Some? then key.value else [],
         flags % 2 == 1,
         flags / 2 % 2 == 1,
         Get(items, PEER_PSK),
         Get(items, PEER_ENDPOINT),
         if keepalive.Some? && |keepalive.value| == 2 then Some(GetU16(keepalive.value, 0)) else None,
         if flags / 8 % 2 == 1 then Some(Get(items, PEER_AWG).Some?) else None,
         GetIps(GetNest(items, PEER_IPS)))
  }

  function GetIps(items: seq<Attr>): (r: seq<Ip>)
    ensures |r| == |items|
  {
    seq(|items|, i requires 0 <= i < |items| => GetIp(items[i]))
  }

  /** What the scalar attributes of a peer read back as. */
  lemma {:induction false} ScalarsRead(p: Peer, t: nat)
    ensures GetNest(PeerScalars(p), t) == []
    ensures Get(PeerScalars(p), t) ==
            if t == PEER_FLAGS && Flags(p) != 0 then Some(U32(Flags(p)))
            else if t == PEER_AWG && p.awg == Some(true) then Some([])
            else if t == PEER_KEEPALIVE && p.keepalive.Some? then Some(U16(p.keepalive.value))
            else if t == PEER_ENDPOINT && p.endpoint.Some? then p.endpoint
            else if t == PEER_PSK && p.psk.Some? then p.psk
            else if t == PEER_KEY then Some(p.key)
            else None
  {
    var keepalive := if p.keepalive.Some? then Some(U16(p.keepalive.value)) else None;
    var awg := if p.awg == Some(true) then Some([]) else None;
    var flags := if Flags(p) != 0 then Some(U32(Flags(p))) else None;
    var a := [Leaf(PEER_KEY, p.key)];
    var b := a + Opt(PEER_PSK, p.psk);
    var c := b + Opt(PEER_ENDPOINT, p.endpoint);
    var d := c + Opt(PEER_KEEPALIVE, keepalive);
    var e := d + Opt(PEER_AWG, awg);
    assert PeerScalars(p) == e + Opt(PEER_FLAGS, flags);
    GetAppend([], Leaf(PEER_KEY, p.key), t);
    assert [] + [Leaf(PEER_KEY, p.key)] == a && Get([], t) == None && GetNest([], t) == [];
    hide Get, GetNest, Opt, Flags, U16, U32, PeerScalars;
    GetOpt(a, PEER_PSK, p.psk, t);
    GetOpt(b, PEER_ENDPOINT, p.endpoint, t);
    GetOpt(c, PEER_KEEPALIVE, keepalive, t);
    GetOpt(d, PEER_AWG, awg, t);
    GetOpt(e, PEER_FLAGS, flags, t);
  }

  /** The attribute form of a peer; without allowed IPs the nest for them may be missing. */
  function PeerItems(p: Peer, nest: bool): seq<Attr>
  {
    PeerScalars(p) + if nest then [Nest(PEER_IPS, IpAttrs(p.ips))] else []
  }

  /** The attribute is a form of the peer. */
  ghost predicate Carries(a: Attr, p: Peer)
  {
    a == Nest(0, PeerItems(p, true)) || (p.ips == [] && a == Nest(0, PeerItems(p, false)))
  }

  ghost predicate CarriesAll(attrs: seq<Attr>, peers: seq<Peer>)
  {
    |attrs| == |peers| && forall n :: 0 <= n < |attrs| ==> Carries(attrs[n], peers[n])
  }

  lemma {:induction false} PeerRoundTrip(p: Peer, nest: bool)
    requires ValidPeer(p) && (nest || p.ips == [])
    ensures GetPeer(Nest(0, PeerItems(p, nest))) == p
  {
    var s, items := PeerScalars(p), PeerItems(p, nest);
    forall t ensures Get(items, t) == Get(s, t) &&
                     GetNest(items, t) == if nest && t == PEER_IPS then IpAttrs(p.ips) else GetNest(s, t) {
      if nest { GetAppend(s, Nest(PEER_IPS, IpAttrs(p.ips)), t); } else { assert items == s; }
    }
    ScalarsRead(p, PEER_KEY); ScalarsRead(p, PEER_PSK); ScalarsRead(p, PEER_FLAGS); ScalarsRead(p, PEER_ENDPOINT);
    ScalarsRead(p, PEER_KEEPALIVE); ScalarsRead(p, PEER_IPS); ScalarsRead(p, PEER_AWG);
    FlagBits(p);
    FlagsRead(Flags(p));
    if p.keepalive.Some? { U16Read(p.keepalive.value, [], [], U16(p.keepalive.value)); }
    hide Get, GetNest, PeerScalars, PeerItems, U16, U32, GetU16, ValidIp, ValidEndpoint, Flags;
    IpsRoundTrip(p.ips);
    assert GetIps([]) == [];
    hide GetIps;
    assert GetFlags(None) == 0;
    assert GetFlags(Get(items, PEER_FLAGS)) == Flags(p);
    hide GetFlags;
    var q := GetPeer(Nest(0, items));
    assert q.key == p.key && q.psk == p.psk && q.endpoint == p.endpoint && q.keepalive == p.keepalive;
    assert q.ips == p.ips;
    assert q.remove == p.remove && q.replaceIps == p.replaceIps;
    match p.awg {
      case None =>
      case Some(b) => assert Get(items, PEER_AWG).Some? == b;
    }
  }

  lemma {:induction false} IpsRoundTrip(ips: seq<Ip>)
    requires forall i :: 0 <= i < |ips| ==> ValidIp(ips[i])
    ensures GetIps(IpAttrs(ips)) == ips
  {
    forall i | 0 <= i < |ips| ensures GetIps(IpAttrs(ips))[i] == ips[i] {
      IpRoundTrip(ips[i]);
    }
  }

  const IFNAME := 2
  const DEVICE_FLAGS := 5
  const PEERS := 8

  /** The scalar settings in the order in which they are written. */
  function Order(): seq<nat>
  {
    [3, 6, 9, 10, 11, 12, 13, 19, 20, 14, 15, 16, 17, 21, 22, 23, 24, 25, 7]
  }

  lemma {:induction false} OrderTypes(t: nat)
    requires t in Order()
    ensures t < 0x4000 && t != IFNAME && t != DEVICE_FLAGS && t != PEERS
  {
  }

  ghost predicate ValidDevice(d: Device)
  {
    && |d.name| < 16
    && (forall t | t in d.settings :: t in Order())
    && forall i :: 0 <= i < |d.peers| ==> ValidPeer(d.peers[i])
  }

  function Setting(d: Device, t: nat): Option<seq<uint8>>
  {
    if t in d.settings then Some(d.settings[t]) else None
  }

  /** The name and the settings of the listed types. */
  function Settings(d: Device, order: seq<nat>): seq<Attr>
  {
    if order == [] then [Leaf(IFNAME, d.name + [0])] else
    var t := order[|order| - 1];
    Settings(d, order[..|order| - 1]) + Opt(t, Setting(d, t))
  }

  function DeviceFlags(d: Device): Option<seq<uint8>>
  {
    if d.replacePeers then Some(U32(1)) else None
  }

  /** The device part of a message. */
  function DeviceItems(d: Device): seq<Attr>
  {
    Settings(d, Order()) + Opt(DEVICE_FLAGS, DeviceFlags(d))
  }

  function GetPeers(items: seq<Attr>): (r: seq<Peer>)
    ensures |r| == |items|
  {
    seq(|items|, i requires 0 <= i < |items| => GetPeer(items[i]))
  }

  function GetSettings(items: seq<Attr>): map<nat, seq<uint8>>
  {
    map t | t in Order() && Get(items, t).Some? :: Get(items, t).value
  }

  function GetDevice(items: seq<Attr>): Device
  {
    var name := Get(items, IFNAME);
    Device(if name.Some? && name.value != [] then name.value[..|name.value| - 1] else [],
           GetSettings(items),
           GetFlags(Get(items, DEVICE_FLAGS)) % 2 == 1,
           GetPeers(GetNest(items, PEERS)))
  }

  lemma {:induction false} PeersRoundTrip(attrs: seq<Attr>, peers: seq<Peer>)
    requires CarriesAll(attrs, peers) && forall n :: 0 <= n < |peers| ==> ValidPeer(peers[n])
    ensures GetPeers(attrs) == peers
  {
    forall n | 0 <= n < |peers| ensures GetPeer(attrs[n]) == peers[n] {
      PeerRoundTrip(peers[n], attrs[n] == Nest(0, PeerItems(peers[n], true)));
    }
    hide GetPeer;
  }

  lemma {:induction false} SettingsRead(d: Device, order: seq<nat>, t: nat)
    ensures GetNest(Settings(d, order), t) == []
    ensures Get(Settings(d, order), t) == if t in order && t in d.settings then Some(d.settings[t])
                                          else if t == IFNAME then Some(d.name + [0]) else None
  {
    if order == [] {
      GetAppend([], Leaf(IFNAME, d.name + [0]), t);
      assert [] + [Leaf(IFNAME, d.name + [0])] == Settings(d, []);
      assert Get([], t) == None && GetNest([], t) == [];
    } else {
      var init, u := order[..|order| - 1], order[|order| - 1];
      SettingsRead(d, init, t);
      GetOpt(Settings(d, init), u, Setting(d, u), t);
      assert order == init + [u];
    }
  }

  /** A message with this device part and these peer attributes is read as the device with those peers. */
  lemma {:induction false} DeviceRoundTrip(d: Device, items: seq<Attr>, attrs: seq<Attr>)
    requires forall t | t in d.settings :: t in Order()
    requires (items == DeviceItems(d) && attrs == []) || items == DeviceItems(d) + [Nest(PEERS, attrs)]
    ensures GetDevice(items) == d.(peers := GetPeers(attrs))
  {
    forall t | t in Order() ensures Get(items, t) == Setting(d, t) {
      OrderTypes(t);
      DeviceRead(d, items, attrs, t);
    }
    DeviceRead(d, items, attrs, IFNAME);
    DeviceRead(d, items, attrs, DEVICE_FLAGS);
    DeviceRead(d, items, attrs, PEERS);
    FlagsRead(1);
    if IFNAME in Order() { OrderTypes(IFNAME); }
    if DEVICE_FLAGS in Order() { OrderTypes(DEVICE_FLAGS); }
    if PEERS in Order() { OrderTypes(PEERS); }
    assert (d.name + [0])[..|d.name|] == d.name;
    assert GetFlags(None) == 0;
    hide Order, Get, GetNest, DeviceItems, U32, GetPeers;
    assert GetSettings(items) == d.settings;
  }

  lemma {:induction false} DeviceRead(d: Device, items: seq<Attr>, attrs: seq<Attr>, t: nat)
    requires (items == DeviceItems(d) && attrs == []) || items == DeviceItems(d) + [Nest(PEERS, attrs)]
    ensures t == PEERS ==> GetNest(items, t) == attrs
    ensures Get(items, t) == if t == DEVICE_FLAGS && d.replacePeers then Some(U32(1))
                             else if t in Order() && t in d.settings then Some(d.settings[t])
                             else if t == IFNAME then Some(d.name + [0]) else None
  {
    hide Order, Get, GetNest, U32, Settings;
    GetOpt(Settings(d, Order()), DEVICE_FLAGS, DeviceFlags(d), t);
    SettingsRead(d, Order(), t);
    GetAppend(DeviceItems(d), Nest(PEERS, attrs), t);
  }
}
