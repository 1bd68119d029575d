/** What kernel_set_device puts on the wire, byte for byte, by the numbers of uapi/linux/linux/wireguard.h. */
module Wire {
  import opened Machine
  import opened Netlink
  import opened Wireguard
  import opened Wrappers
  import SD = SetDevice

  /** An allowed IP is a nest of family, address and prefix length. */
  function IpBytes(ip: Ip): seq<uint8>
  {
    var cidr := [5, 0, 3, 0, ip.cidr, 0, 0, 0];
    if ip.family == 2 then [28, 0, 0, 128] + ([6, 0, 1, 0, 2, 0, 0, 0] + ([8, 0, 2, 0] + ip.addr) + cidr)
    else if ip.family == 10 then [40, 0, 0, 128] + ([6, 0, 1, 0, 10, 0, 0, 0] + ([20, 0, 2, 0] + ip.addr) + cidr)
    else [20, 0, 0, 128] + ([6, 0, 1, 0, ip.family % 256, ip.family / 256 % 256, 0, 0] + cidr)
  }

  function IpsBytes(ips: seq<Ip>): seq<uint8>
  {
    if ips == [] then [] else IpsBytes(ips[..|ips| - 1]) + IpBytes(ips[|ips| - 1])
  }

  /** Flags 1, 2 and 8: remove the peer, replace its allowed IPs, awg is given. */
  function FlagByte(p: Peer): uint8
  {
    (if p.remove then 1 else 0) + (if p.replaceIps then 2 else 0) + (if p.awg.Some? then 8 else 0)
  }

  function PskBytes(p: Peer): seq<uint8>
  {
    if p.psk.Some? then [36, 0, 2, 0] + p.psk.value else []
  }

  function EndpointBytes(p: Peer): seq<uint8>
  {
    if p.endpoint.None? then []
    else (if |p.endpoint.value| == 16 then [20, 0, 4, 0] else [32, 0, 4, 0]) + p.endpoint.value
  }

  function KeepaliveBytes(p: Peer): seq<uint8>
  {
    if p.keepalive.Some? then [6, 0, 5, 0, p.keepalive.value % 256, p.keepalive.value / 256 % 256, 0, 0] else []
  }

  function AwgBytes(p: Peer): seq<uint8>
  {
    if p.awg == Some(true) then [4, 0, 11, 0] else []
  }

  function FlagsBytes(p: Peer): seq<uint8>
  {
    if FlagByte(p) == 0 then [] else [8, 0, 3, 0, FlagByte(p), 0, 0, 0]
  }

  function ScalarBytes(p: Peer): seq<uint8>
  {
    [36, 0, 1, 0] + p.key + PskBytes(p) + EndpointBytes(p) + KeepaliveBytes(p) + AwgBytes(p) + FlagsBytes(p)
  }

  /** A nest with a type below 256: its length, its type and the mark of a nest. */
  function NestBytes(typ: uint8, body: seq<uint8>): seq<uint8>
  {
    [(4 + |body|) % 256, (4 + |body|) / 256 % 256, typ, 128] + body
  }

  /** An attribute with a type below 256 and a payload, padded to whole words. */
  function LeafBytes(typ: uint8, payload: seq<uint8>): seq<uint8>
  {
    [(4 + |payload|) % 256, (4 + |payload|) / 256 % 256, typ, 0] + payload + Zeros((0 - |payload|) % 4)
  }

  /** A peer in its nest, with or without the nest of its allowed IPs. */
  function PeerBytes(p: Peer, nest: bool): seq<uint8>
  {
    NestBytes(0, ScalarBytes(p) + if nest then NestBytes(9, IpsBytes(p.ips)) else [])
  }

  function PeersBytes(peers: seq<Peer>, nests: seq<bool>): seq<uint8>
    requires |nests| == |peers|
  {
    if peers == [] then [] else
    var n := |peers| - 1;
    PeersBytes(peers[..n], nests[..n]) + PeerBytes(peers[n], nests[n])
  }

  /** The settings of a device that are given, in this order of their attribute types. */
  function SettingsBytes(d: Device, order: seq<uint8>): seq<uint8>
  {
    if order == [] then [] else
    var t := order[|order| - 1];
    SettingsBytes(d, order[..|order| - 1]) + if t in d.settings then LeafBytes(t, d.settings[t]) else []
  }

  /** The name, the private key and port, the AmneziaWG settings, the fwmark, and the flag to replace peers. */
  function DeviceBytes(d: Device): seq<uint8>
  {
    LeafBytes(2, d.name + [0])
    + SettingsBytes(d, [3, 6, 9, 10, 11, 12, 13, 19, 20, 14, 15, 16, 17, 21, 22, 23, 24, 25, 7])
    + if d.replacePeers then [8, 0, 5, 0, 1, 0, 0, 0] else []
  }

  /** A whole message: the device part, and the peers in their nest unless there are none. */
  ghost predicate OnWire(b: seq<uint8>, d: Device, peers: seq<Peer>, nests: seq<bool>)
  {
    && |nests| == |peers| && (forall n :: 0 <= n < |peers| ==> nests[n] || peers[n].ips == [])
    && ((peers == [] && b == DeviceBytes(d)) || b == DeviceBytes(d) + NestBytes(8, PeersBytes(peers, nests)))
  }

  ghost predicate Written(b: seq<uint8>, d: Device, peers: seq<Peer>)
  {
    exists nests :: OnWire(b, d, peers, nests)
  }

  lemma {:induction false} LeafIs(t: nat, p: seq<uint8>)
    requires t < 256
    ensures EncOne(Leaf(t, p)) == LeafBytes(t, p)
  {
    Padding(|p|);
    Numbers(4 + |p|, t);
    hide Align, U16, Zeros;
  }

  lemma {:induction false} Padding(n: nat)
    ensures Align(n) - n == (0 - n) % 4
  {
  }

  lemma {:induction false} Numbers(len: nat, t: nat)
    requires t < 256
    ensures U16(len) + U16(t) == [len % 256, len / 256 % 256, t, 0]
    ensures U16(len) + U16(NESTED + t) == [len % 256, len / 256 % 256, t, 128]
  {
  }

  /** An attribute of whole words, and one of two bytes, that is not long. */
  lemma {:induction false} ShortLeaf(t: uint8, p: seq<uint8>)
    requires |p| < 252
    ensures |p| % 4 == 0 ==> LeafBytes(t, p) == [4 + |p|, 0, t, 0] + p
    ensures |p| == 2 ==> LeafBytes(t, p) == [6, 0, t, 0, p[0], p[1], 0, 0]
    ensures |p| == 1 ==> LeafBytes(t, p) == [5, 0, t, 0, p[0], 0, 0, 0]
  {
    if |p| % 4 == 0 {
      Whole(|p|);
      hide Zeros;
    } else if |p| == 2 {
      assert Zeros(2) == [0, 0];
    } else if |p| == 1 {
      assert Zeros(3) == [0, 0, 0];
    }
  }

  lemma {:induction false} Whole(n: nat)
    requires n % 4 == 0
    ensures Zeros((0 - n) % 4) == []
  {
  }

  lemma {:induction false} NestIs(t: nat, items: seq<Attr>)
    requires t < 256
    ensures EncOne(Nest(t, items)) == NestBytes(t, Enc(items))
  {
    hide Enc, U16;
    Numbers(4 + |Enc(items)|, t);
  }

  /** One more optional attribute with a payload of whole words. */
  lemma {:induction false} OptBytes(items: seq<Attr>, t: nat, payload: Option<seq<uint8>>)
    requires t < 256 && (payload.Some? ==> |payload.value| < 252 && |payload.value| % 4 == 0)
    ensures Enc(items + Opt(t, payload)) ==
            Enc(items) + if payload.Some? then [4 + |payload.value|, 0, t, 0] + payload.value else []
  {
    if payload.Some? {
      hide Enc, EncOne, LeafBytes;
      EncAppend(items, Leaf(t, payload.value));
      LeafIs(t, payload.value);
      ShortLeaf(t, payload.value);
    } else {
      assert items + [] == items;
    }
  }

  /** One more optional attribute with a payload of two bytes. */
  lemma {:induction false} OptShort(items: seq<Attr>, t: nat, payload: Option<seq<uint8>>)
    requires t < 256 && (payload.Some? ==> |payload.value| == 2)
    ensures Enc(items + Opt(t, payload)) ==
            Enc(items) + if payload.Some? then [6, 0, t, 0, payload.value[0], payload.value[1], 0, 0] else []
  {
    if payload.Some? {
      hide Enc, EncOne, LeafBytes;
      EncAppend(items, Leaf(t, payload.value));
      LeafIs(t, payload.value);
      ShortLeaf(t, payload.value);
    } else {
      assert items + [] == items;
    }
  }

  lemma {:induction false} KeyWire(p: Peer)
    requires |p.key| == 32
    ensures Enc([Leaf(PEER_KEY, p.key)]) == [36, 0, 1, 0] + p.key
  {
    OptBytes([], PEER_KEY, Some(p.key));
    assert [] + Opt(PEER_KEY, Some(p.key)) == [Leaf(PEER_KEY, p.key)];
    assert Enc([]) == [];
    hide Enc;
  }

  lemma {:induction false} PskWire(items: seq<Attr>, p: Peer)
    requires p.psk.Some? ==> |p.psk.value| == 32
    ensures Enc(items + Opt(PEER_PSK, p.psk)) == Enc(items) + PskBytes(p)
  {
    hide Enc, Opt;
    OptBytes(items, PEER_PSK, p.psk);
  }

  lemma {:induction false} EndpointWire(items: seq<Attr>, p: Peer)
    requires p.endpoint.Some? ==> ValidEndpoint(p.endpoint.value)
    ensures Enc(items + Opt(PEER_ENDPOINT, p.endpoint)) == Enc(items) + EndpointBytes(p)
  {
    hide Enc, Opt, GetU16;
    OptBytes(items, PEER_ENDPOINT, p.endpoint);
  }

  lemma {:induction false} KeepaliveWire(items: seq<Attr>, p: Peer)
    ensures Enc(items + Opt(PEER_KEEPALIVE, if p.keepalive.Some? then Some(U16(p.keepalive.value)) else None))
            == Enc(items) + KeepaliveBytes(p)
  {
    hide Enc, Opt;
    OptShort(items, PEER_KEEPALIVE, if p.keepalive.Some? then Some(U16(p.keepalive.value)) else None);
  }

  lemma {:induction false} AwgWire(items: seq<Attr>, p: Peer)
    ensures Enc(items + Opt(PEER_AWG, if p.awg == Some(true) then Some([]) else None)) == Enc(items) + AwgBytes(p)
  {
    hide Enc, Opt;
    OptBytes(items, PEER_AWG, if p.awg == Some(true) then Some([]) else None);
  }

  lemma {:induction false} FlagsWire(items: seq<Attr>, p: Peer)
    ensures Enc(items + Opt(PEER_FLAGS, if Flags(p) != 0 then Some(U32(Flags(p))) else None))
            == Enc(items) + FlagsBytes(p)
  {
    hide Enc, Opt;
    assert Flags(p) == FlagByte(p) && U32(Flags(p)) == [FlagByte(p), 0, 0, 0];
    hide FlagByte, Flags, U32;
    OptBytes(items, PEER_FLAGS, if Flags(p) != 0 then Some(U32(Flags(p))) else None);
  }

  lemma {:induction false} ScalarsWire(p: Peer)
    requires ValidPeer(p)
    ensures Enc(PeerScalars(p)) == ScalarBytes(p)
  {
    hide Enc, Opt, ValidIp, ValidEndpoint, U16, U32, Flags;
    hide PskBytes, EndpointBytes, KeepaliveBytes, AwgBytes, FlagsBytes;
    var a := [Leaf(PEER_KEY, p.key)];
    var b := a + Opt(PEER_PSK, p.psk);
    var c := b + Opt(PEER_ENDPOINT, p.endpoint);
    var d := c + Opt(PEER_KEEPALIVE, if p.keepalive.Some? then Some(U16(p.keepalive.value)) else None);
    var e := d + Opt(PEER_AWG, if p.awg == Some(true) then Some([]) else None);
    KeyWire(p);
    PskWire(a, p);
    EndpointWire(b, p);
    KeepaliveWire(c, p);
    AwgWire(d, p);
    FlagsWire(e, p);
  }

  lemma {:induction false} FamilyWire(family: nat)
    ensures Enc([Leaf(IP_FAMILY, U16(family))]) == [6, 0, 1, 0, family % 256, family / 256 % 256, 0, 0]
  {
    OptShort([], IP_FAMILY, Some(U16(family)));
    assert [] + Opt(IP_FAMILY, Some(U16(family))) == [Leaf(IP_FAMILY, U16(family))];
    assert Enc([]) == [];
    hide Enc;
  }

  lemma {:induction false} CidrWire(items: seq<Attr>, cidr: uint8)
    ensures Enc(items + Opt(IP_CIDR, Some([cidr]))) == Enc(items) + [5, 0, 3, 0, cidr, 0, 0, 0]
  {
    hide Enc, EncOne, LeafBytes;
    EncAppend(items, Leaf(IP_CIDR, [cidr]));
    LeafIs(IP_CIDR, [cidr]);
    ShortLeaf(IP_CIDR, [cidr]);
  }

  lemma {:induction false} IpWire(ip: Ip)
    requires ValidIp(ip)
    ensures EncOne(Nest(0, IpItems(ip))) == IpBytes(ip)
  {
    hide Enc, EncOne, U16, Opt, NestBytes, IpBytes;
    var addr := if ip.family == AF_INET || ip.family == AF_INET6 then Some(ip.addr) else None;
    var a := [Leaf(IP_FAMILY, U16(ip.family))];
    FamilyWire(ip.family);
    OptBytes(a, IP_ADDR, addr);
    CidrWire(a + Opt(IP_ADDR, addr), ip.cidr);
    NestIs(0, IpItems(ip));
    IpNest(ip);
  }

  lemma {:induction false} IpNest(ip: Ip)
    requires ValidIp(ip)
    ensures var addr := if ip.family == 2 || ip.family == 10 then [4 + |ip.addr|, 0, 2, 0] + ip.addr else [];
            NestBytes(0, [6, 0, 1, 0, ip.family % 256, ip.family / 256 % 256, 0, 0] + addr
                         + [5, 0, 3, 0, ip.cidr, 0, 0, 0]) == IpBytes(ip)
  {
    var f := [6, 0, 1, 0, ip.family % 256, ip.family / 256 % 256, 0, 0];
    if ip.family != 2 && ip.family != 10 { assert f + [] == f; }
  }

  lemma {:induction false} IpsWire(ips: seq<Ip>)
    requires forall i :: 0 <= i < |ips| ==> ValidIp(ips[i])
    ensures Enc(IpAttrs(ips)) == IpsBytes(ips)
    decreases |ips|
  {
    hide EncOne, Enc, IpBytes, ValidIp, IpItems, IpAttrs;
    IpAttrsTop(ips);
    if ips != [] {
      var n := |ips| - 1;
      IpsWire(ips[..n]);
      IpWire(ips[n]);
      EncAppend(IpAttrs(ips[..n]), Nest(0, IpItems(ips[n])));
    }
  }

  lemma {:induction false} IpAttrsTop(ips: seq<Ip>)
    ensures ips == [] ==> Enc(IpAttrs(ips)) == []
    ensures ips != [] ==> var n := |ips| - 1; IpAttrs(ips) == IpAttrs(ips[..n]) + [Nest(0, IpItems(ips[n]))]
  {
    assert Enc([]) == [];
    hide Enc, IpItems;
    if ips == [] { assert IpAttrs(ips) == []; }
  }

  /** Every attribute of a peer on the wire. */
  lemma {:induction false} PeerWire(p: Peer, nest: bool)
    requires ValidPeer(p)
    ensures EncOne(Nest(0, PeerItems(p, nest))) == PeerBytes(p, nest)
  {
    ScalarsWire(p);
    IpsWire(p.ips);
    hide Enc, EncOne, PeerScalars, ScalarBytes, IpsBytes, NestBytes, ValidIp;
    NestIs(0, PeerItems(p, nest));
    if nest {
      EncAppend(PeerScalars(p), Nest(PEER_IPS, IpAttrs(p.ips)));
      NestIs(PEER_IPS, IpAttrs(p.ips));
    } else {
      assert PeerItems(p, false) == PeerScalars(p);
      assert ScalarBytes(p) + [] == ScalarBytes(p);
    }
  }

  lemma {:induction false} SettingsWire(d: Device, order: seq<uint8>)
    requires forall n :: 0 <= n < |order| ==> order[n] < 256
    ensures Enc(Settings(d, order)) == LeafBytes(2, d.name + [0]) + SettingsBytes(d, order)
    decreases |order|
  {
    hide Enc, EncOne, LeafBytes;
    if order == [] {
      NameWire(d);
    } else {
      var init, t := order[..|order| - 1], order[|order| - 1];
      SettingsWire(d, init);
      SettingWire(d, Settings(d, init), t);
      hide Settings;
    }
  }

  lemma {:induction false} NameWire(d: Device)
    ensures Enc([Leaf(IFNAME, d.name + [0])]) == LeafBytes(2, d.name + [0])
  {
    EncAppend([], Leaf(IFNAME, d.name + [0]));
    assert [] + [Leaf(IFNAME, d.name + [0])] == [Leaf(IFNAME, d.name + [0])];
    assert Enc([]) == [];
    hide Enc, EncOne, LeafBytes;
    LeafIs(2, d.name + [0]);
  }

  lemma {:induction false} SettingWire(d: Device, items: seq<Attr>, t: uint8)
    ensures Enc(items + Opt(t, Setting(d, t))) ==
            Enc(items) + if t in d.settings then LeafBytes(t, d.settings[t]) else []
  {
    hide Enc, EncOne, LeafBytes;
    if t in d.settings {
      EncAppend(items, Leaf(t, d.settings[t]));
      LeafIs(t, d.settings[t]);
    } else {
      assert items + [] == items;
    }
  }

  lemma {:induction false} DeviceWire(d: Device)
    ensures Enc(DeviceItems(d)) == DeviceBytes(d)
  {
    hide Enc, LeafBytes, Settings, SettingsBytes;
    SettingsWire(d, Order());
    OptBytes(Settings(d, Order()), DEVICE_FLAGS, DeviceFlags(d));
  }

  lemma {:induction false} PeersWire(attrs: seq<Attr>, peers: seq<Peer>, nests: seq<bool>)
    requires |attrs| == |peers| == |nests| && forall n :: 0 <= n < |peers| ==> ValidPeer(peers[n])
    requires forall n :: 0 <= n < |peers| ==> attrs[n] == Nest(0, PeerItems(peers[n], nests[n]))
    ensures Enc(attrs) == PeersBytes(peers, nests)
    decreases |peers|
  {
    hide EncOne, PeerBytes, ValidPeer, PeerItems;
    if peers != [] {
      var n := |peers| - 1;
      PeersWire(attrs[..n], peers[..n], nests[..n]);
      PeerWire(peers[n], nests[n]);
    }
  }

  /** Every message that the writer encodes has these bytes behind its headers. */
  lemma {:induction false} MessageWire(message: seq<uint8>, d: Device, frags: seq<Peer>)
    requires SD.Encodes(message, d, frags) && forall n :: 0 <= n < |frags| ==> ValidPeer(frags[n])
    ensures |message| >= 20 && Written(message[20..], d, frags)
  {
    hide Enc, EncOne, PeerItems, ValidPeer, DeviceItems, DeviceBytes, PeersBytes, NestBytes;
    var items, attrs :| SD.EncodesWith(message, d, items, attrs, frags);
    var nests := seq(|frags|, n requires 0 <= n < |frags| => attrs[n] == Nest(0, PeerItems(frags[n], true)));
    PeersWire(attrs, frags, nests);
    DeviceWire(d);
    EncAppend(DeviceItems(d), Nest(PEERS, attrs));
    NestIs(PEERS, attrs);
    assert OnWire(message[20..], d, frags, nests);
  }

  /** The n-th message of a device that is sent holds the peers between two cursor positions. */
  lemma {:induction false} SentWire(sent: seq<seq<uint8>>, cuts: seq<SD.Cut>, dev: Device, i: nat, c: Option<nat>,
                                    n: nat)
    requires ValidDevice(dev) && SD.Transcript(sent, cuts, dev, i, c) && n < |sent|
    ensures |cuts| == |sent| && |sent[n]| >= 20
    ensures var from := if n == 0 then SD.Cut(0, None) else cuts[n - 1];
            && SD.Runs(dev.peers, from.peer, from.cursor, cuts[n].peer, cuts[n].cursor)
            && Written(sent[n][20..], if n == 0 then dev else SD.Bare(dev),
                       SD.Slice(dev.peers, from.peer, from.cursor, cuts[n].peer, cuts[n].cursor))
    decreases |sent|
  {
    hide SD.Encodes, SD.Slice, SD.Runs, Written, ValidPeer;
    if n < |sent| - 1 {
      var last := cuts[|sent| - 2];
      SentWire(sent[..|sent| - 1], cuts[..|sent| - 1], dev, last.peer, last.cursor, n);
    } else {
      var from := if n == 0 then SD.Cut(0, None) else cuts[n - 1];
      SD.SliceValid(dev.peers, from.peer, from.cursor, i, c);
      MessageWire(sent[n], if n == 0 then dev else SD.Bare(dev),
                  SD.Slice(dev.peers, from.peer, from.cursor, i, c));
    }
  }
}
