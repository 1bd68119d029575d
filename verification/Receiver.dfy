/** The effect of WG_CMD_SET_DEVICE messages on an interface, as uapi/linux/linux/wireguard.h documents it. */
module Receiver {
  import opened Wireguard
  import opened Wrappers
  import opened Machine
  import opened Netlink

  datatype Entry = Entry(
    psk: Option<seq<uint8>>,
    endpoint: Option<seq<uint8>>,
    keepalive: nat,
    awg: bool,
    ips: seq<Ip>)

  type Table = map<seq<uint8>, Entry>

  datatype Config = Config(settings: map<nat, seq<uint8>>, peers: Table)

  const NEW_PEER := Entry(None, None, 0, false, [])

  function Without(ips: seq<Ip>, ip: Ip): seq<Ip>
  {
    if ips == [] then [] else
    var rest := Without(ips[1..], ip);
    if ips[0] == ip then rest else [ips[0]] + rest
  }

  /** An allowed IP belongs to one peer: adding it takes it from whoever had it. */
  function AddIp(t: Table, key: seq<uint8>, ip: Ip): Table
  {
    map k | k in t :: t[k].(ips := Without(t[k].ips, ip) + if k == key then [ip] else [])
  }

  function AddIps(t: Table, key: seq<uint8>, ips: seq<Ip>): Table
  {
    if ips == [] then t else AddIp(AddIps(t, key, ips[..|ips| - 1]), key, ips[|ips| - 1])
  }

  /** A peer entry updated by the scalars of a message. */
  function Update(e: Entry, p: Peer): Entry
  {
    Entry(if p.psk.Some? then p.psk else e.psk,
          if p.endpoint.Some? then p.endpoint else e.endpoint,
          if p.keepalive.Some? then p.keepalive.value else e.keepalive,
          if p.awg.Some? then p.awg.value else e.awg,
          if p.replaceIps then [] else e.ips)
  }

  function Lookup(t: Table, key: seq<uint8>): Entry
  {
    if key in t then t[key] else NEW_PEER
  }

  function ApplyPeer(t: Table, p: Peer): Table
  {
    if p.remove then t - {p.key} else
    AddIps(t[p.key := Update(Lookup(t, p.key), p)], p.key, p.ips)
  }

  function ApplyPeers(t: Table, peers: seq<Peer>): Table
  {
    if peers == [] then t else ApplyPeer(ApplyPeers(t, peers[..|peers| - 1]), peers[|peers| - 1])
  }

  function Apply(c: Config, d: Device): Config
  {
    Config(c.settings + d.settings, ApplyPeers(if d.replacePeers then map[] else c.peers, d.peers))
  }

  /** One message, from its bytes. */
  function Receive(c: Config, message: seq<uint8>): Config
  {
    if |message| < HEADERS then c else Apply(c, GetDevice(Tree(message[HEADERS..])))
  }

  function ReceiveAll(c: Config, messages: seq<seq<uint8>>): Config
  {
    if messages == [] then c else Receive(ReceiveAll(c, messages[..|messages| - 1]), messages[|messages| - 1])
  }

  // ----- fragments -----

  /** The first fragment of a peer: everything, but only the first k allowed IPs. */
  function Head(p: Peer, k: nat): Peer
    requires k <= |p.ips|
  {
    p.(ips := p.ips[..k])
  }

  /** A continuation: the key, the repeated flags and a slice of the allowed IPs. */
  function Continuation(p: Peer, i: nat, j: nat): Peer
    requires i <= j <= |p.ips|
  {
    Peer(p.key, p.remove, false, None, None, None, p.awg, p.ips[i..j])
  }

  lemma {:induction false} AddIpsSplit(t: Table, key: seq<uint8>, a: seq<Ip>, b: seq<Ip>)
    ensures AddIps(AddIps(t, key, a), key, b) == AddIps(t, key, a + b)
    decreases |b|
  {
    if b == [] {
      assert a + b == a;
    } else {
      var init := b[..|b| - 1];
      AddIpsSplit(t, key, a, init);
      assert (a + b)[..|a + b| - 1] == a + init && (a + b)[|a + b| - 1] == b[|b| - 1];
      hide AddIp;
    }
  }

  /** Adding allowed IPs changes nothing else. */
  lemma {:induction false} AddIpsKeeps(t: Table, key: seq<uint8>, ips: seq<Ip>, k: seq<uint8>)
    requires k in t
    ensures k in AddIps(t, key, ips) && AddIps(t, key, ips)[k].(ips := []) == t[k].(ips := [])
    decreases |ips|
  {
    if ips != [] {
      AddIpsKeeps(t, key, ips[..|ips| - 1], k);
      hide Without;
    }
  }

  lemma {:induction false} UpdateAgain(e: Entry, p: Peer, c: Peer, f: Entry)
    requires f.(ips := []) == Update(e, p).(ips := [])
    requires c.psk == None && c.endpoint == None && c.keepalive == None && c.awg == p.awg && !c.replaceIps
    ensures Update(f, c) == f
  {
  }

  /** A first fragment followed by its continuation has the effect of the longer first fragment. */
  lemma {:induction false} Resume(t: Table, p: Peer, i: nat, j: nat)
    requires i <= j <= |p.ips|
    ensures ApplyPeer(ApplyPeer(t, Head(p, i)), Continuation(p, i, j)) == ApplyPeer(t, Head(p, j))
  {
    var a, b, c := p.ips[..i], p.ips[i..j], Continuation(p, i, j);
    assert a + b == p.ips[..j];
    if p.remove {
      assert t - {p.key} - {p.key} == t - {p.key};
    } else {
      var e := Update(Lookup(t, p.key), p);
      var t0 := t[p.key := e];
      var t1 := AddIps(t0, p.key, a);
      AddIpsKeeps(t0, p.key, a, p.key);
      UpdateAgain(Lookup(t, p.key), p, c, t1[p.key]);
      AddIpsSplit(t0, p.key, a, b);
      assert Update(Lookup(t, p.key), Head(p, i)) == e && Update(Lookup(t, p.key), Head(p, j)) == e;
      assert t1[p.key := t1[p.key]] == t1;
      hide AddIp, AddIps, Update;
    }
  }

  lemma {:induction false} ApplyPeersSplit(t: Table, a: seq<Peer>, b: seq<Peer>)
    ensures ApplyPeers(ApplyPeers(t, a), b) == ApplyPeers(t, a + b)
    decreases |b|
  {
    if b == [] {
      assert a + b == a;
    } else {
      var init := b[..|b| - 1];
      ApplyPeersSplit(t, a, init);
      assert (a + b)[..|a + b| - 1] == a + init && (a + b)[|a + b| - 1] == b[|b| - 1];
      hide ApplyPeer;
    }
  }
}
