/** kernel_set_device of src/ipc-linux.h: a device sent as a sequence of bounded netlink messages. */
module SetDevice {
  import opened Machine
  import opened Netlink
  import opened Wireguard
  import opened Wrappers
  import opened Receiver

  const IP_MAX: nat := 40
  const SCALARS_MAX: nat := 124

  // ----- appending several attributes -----

  function PushAll(stack: seq<Open>, items: seq<Attr>): seq<Open>
    requires stack != []
  {
    var top := stack[|stack| - 1];
    stack[..|stack| - 1] + [Open(top.head, top.typ, top.items + items)]
  }

  lemma {:induction false} PushNone(stack: seq<Open>)
    requires stack != []
    ensures PushAll(stack, []) == stack
  {
    assert forall s: seq<Attr> :: s + [] == s;
  }

  lemma {:induction false} PushMore(stack: seq<Open>, items: seq<Attr>, more: seq<Attr>)
    requires stack != []
    ensures PushAll(PushAll(stack, items), more) == PushAll(stack, items + more)
  {
    Regroup(stack[|stack| - 1].items, items, more);
  }

  /** The open nests below the innermost one. */
  function Below(stack: seq<Open>): seq<Open>
    requires stack != []
  {
    stack[..|stack| - 1]
  }

  method PutOpt(m: Message, typ: nat, payload: Option<seq<uint8>>) returns (ok: bool)
    requires m.Valid() && typ < 0x4000
    modifies m, m.buf
    ensures m.Valid()
    ensures ok ==> m.stack == PushAll(old(m.stack), Opt(typ, payload))
    ensures ok ==> m.len == old(m.len) + if payload.Some? then 4 + Align(|payload.value|) else 0
    ensures !ok ==> m.stack == old(m.stack) && m.len == old(m.len)
    ensures |m.stack| == |old(m.stack)| && Below(m.stack) == Below(old(m.stack))
    ensures ok <==> payload.None? || old(m.len) + 4 + Align(|payload.value|) <= m.buf.Length
  {
    PushNone(m.stack);
    ok := true;
    if payload.Some? {
      ok := m.PutCheck(typ, payload.value);
    }
  }

  /** Closing the nest that was opened on before, after its items were written. */
  lemma {:induction false} CloseNest(before: seq<Open>, opening: seq<Open>, items: seq<Attr>)
    requires before != [] && opening != [] && Below(opening) == before && opening[|before|].items == []
    ensures var typ, full := opening[|before|].typ, PushAll(opening, items);
            && |full| > 1 && Below(full) == before && full[|full| - 1].typ == typ && full[|full| - 1].items == items
            && Push(before, Nest(typ, items)) == PushAll(before, [Nest(typ, items)])
  {
  }

  // ----- allowed IPs -----

  method PutIpItems(m: Message, ip: Ip) returns (ok: bool)
    requires m.Valid() && ValidIp(ip)
    modifies m, m.buf
    ensures m.Valid() && |m.stack| == |old(m.stack)| && Below(m.stack) == Below(old(m.stack))
    ensures ok ==> m.stack == PushAll(old(m.stack), IpItems(ip)) && m.len <= old(m.len) + 36
    ensures !ok ==> old(m.len) + 36 > m.buf.Length
  {
    hide Message.Valid;
    ghost var before, family := m.stack, [Leaf(IP_FAMILY, U16(ip.family))];
    ghost var addr := Opt(IP_ADDR, if ip.family == AF_INET || ip.family == AF_INET6 then Some(ip.addr) else None);
    ok := m.PutCheck(IP_FAMILY, U16(ip.family));
    if ok {
      PushMore(before, family, addr);
      PushNone(m.stack);
      if ip.family == AF_INET || ip.family == AF_INET6 {
        ok := m.PutCheck(IP_ADDR, ip.addr);
      }
      if ok {
        PushMore(before, family + addr, [Leaf(IP_CIDR, [ip.cidr])]);
        ok := m.PutCheck(IP_CIDR, [ip.cidr]);
      }
    }
  }

  /** The attributes of one allowed IP; a nest that does not fit is cancelled. */
  method PutIp(m: Message, ip: Ip) returns (ok: bool)
    requires m.Valid() && ValidIp(ip)
    modifies m, m.buf
    ensures m.Valid()
    ensures ok ==> m.stack == PushAll(old(m.stack), [Nest(0, IpItems(ip))]) && m.len <= old(m.len) + IP_MAX
    ensures !ok ==> m.stack == old(m.stack) && m.len == old(m.len) && old(m.len) + IP_MAX > m.buf.Length
  {
    hide Message.Valid, Image, IpItems;
    ghost var before := m.stack;
    if m.len + 4 > m.buf.Length { return false; }
    var start := m.NestStart(0);
    CloseNest(before, m.stack, IpItems(ip));
    ok := PutIpItems(m, ip);
    if ok {
      m.NestEnd(start);
    } else {
      m.NestCancel(start);
    }
  }

  // ----- peers -----

  /** The part of a peer that a fragment carries: cursor is where an earlier fragment stopped. */
  function Fragment(p: Peer, cursor: Option<nat>, k: nat): Peer
    requires k <= |p.ips| && (cursor.Some? ==> cursor.value <= k)
  {
    if cursor.Some? then Continuation(p, cursor.value, k) else Head(p, k)
  }

  /** The scalars that only the first fragment carries. */
  function FirstItems(p: Peer): seq<Attr>
  {
    Opt(PEER_PSK, p.psk)
    + Opt(PEER_ENDPOINT, p.endpoint)
    + Opt(PEER_KEEPALIVE, if p.keepalive.Some? then Some(U16(p.keepalive.value)) else None)
  }

  method PutFirst(m: Message, p: Peer) returns (ok: bool)
    requires m.Valid() && ValidPeer(p)
    modifies m, m.buf
    ensures m.Valid() && |m.stack| == |old(m.stack)| && Below(m.stack) == Below(old(m.stack))
    ensures ok ==> m.stack == PushAll(old(m.stack), FirstItems(p)) && m.len <= old(m.len) + 76
    ensures !ok ==> old(m.len) + 76 > m.buf.Length
  {
    assert p.endpoint.Some? ==> |p.endpoint.value| == 16 || |p.endpoint.value| == 28;
    ghost var before, psk, endpoint := m.stack, Opt(PEER_PSK, p.psk), Opt(PEER_ENDPOINT, p.endpoint);
    assert Align(32) == 32 && Align(16) == 16 && Align(28) == 28 && Align(2) == 4;
    hide Message.Valid, ValidPeer, Opt, PushAll, Below, Align, U16;
    ok := PutOpt(m, PEER_PSK, p.psk);
    if !ok { return; }
    ok := PutOpt(m, PEER_ENDPOINT, p.endpoint);
    if !ok { return; }
    PushMore(before, psk, endpoint);
    var keepalive := if p.keepalive.Some? then Some(U16(p.keepalive.value)) else None;
    ok := PutOpt(m, PEER_KEEPALIVE, keepalive);
    PushMore(before, psk + endpoint, Opt(PEER_KEEPALIVE, keepalive));
  }

  /** The flag attributes, which every fragment carries. */
  function FlagItems(awg: Option<bool>, flags: nat): seq<Attr>
  {
    Opt(PEER_AWG, if awg == Some(true) then Some([]) else None)
    + Opt(PEER_FLAGS, if flags != 0 then Some(U32(flags)) else None)
  }

  /**
   The put of the AWG flag is not checked.  It takes four bytes and the flags behind it eight, so
   where it is dropped the flags do not fit either.
   */
  method PutFlags(m: Message, awg: Option<bool>, early: nat) returns (ok: bool)
    requires m.Valid()
    modifies m, m.buf
    ensures m.Valid() && |m.stack| == |old(m.stack)| && Below(m.stack) == Below(old(m.stack))
    ensures var flags := early + if awg.Some? then HAS_AWG else 0;
            ok ==> m.stack == PushAll(old(m.stack), FlagItems(awg, flags)) && m.len <= old(m.len) + 12
    ensures !ok ==> old(m.len) + 12 > m.buf.Length
  {
    hide Message.Valid, U32;
    ghost var before, marked := m.stack, Opt(PEER_AWG, if awg == Some(true) then Some([]) else None);
    var flags := early;
    PushNone(m.stack);
    if awg.Some? {
      if awg.value {
        var _ := m.PutCheck(PEER_AWG, []);
      }
      flags := flags + HAS_AWG;
    }
    ok := true;
    if flags != 0 {
      ok := m.PutCheck(PEER_FLAGS, U32(flags));
      PushMore(before, marked, [Leaf(PEER_FLAGS, U32(flags))]);
    } else {
      PushMore(before, marked, []);
    }
  }

  /** What a fragment carries apart from allowed IPs. */
  function Scalars(p: Peer, first: bool): Peer
  {
    if first then Head(p, 0) else Continuation(p, 0, 0)
  }

  lemma {:induction false} ScalarItems(p: Peer, first: bool)
    ensures var q := Scalars(p, first);
            PeerScalars(q) ==
            [Leaf(PEER_KEY, p.key)] + (if first then FirstItems(p) else []) + FlagItems(p.awg, Flags(q))
  {
    hide U32, U16, Flags;
  }

  /** The key, and in a first fragment the scalars. */
  method PutKey(m: Message, p: Peer, first: bool) returns (ok: bool)
    requires m.Valid() && ValidPeer(p)
    modifies m, m.buf
    ensures m.Valid() && |m.stack| == |old(m.stack)| && Below(m.stack) == Below(old(m.stack))
    ensures ok ==> m.stack == PushAll(old(m.stack), [Leaf(PEER_KEY, p.key)] + if first then FirstItems(p) else [])
    ensures ok ==> m.len <= old(m.len) + 112
    ensures !ok ==> old(m.len) + 112 > m.buf.Length
  {
    ghost var before, key := m.stack, [Leaf(PEER_KEY, p.key)];
    assert |p.key| == 32 && Align(32) == 32 && key == Opt(PEER_KEY, Some(p.key)) && key + [] == key;
    hide Message.Valid, FirstItems, Align, ValidPeer, PushAll, Below, Opt;
    ok := PutOpt(m, PEER_KEY, Some(p.key));
    if ok && first {
      ok := PutFirst(m, p);
      PushMore(before, key, FirstItems(p));
    }
  }

  method PutScalars(m: Message, p: Peer, first: bool) returns (ok: bool)
    requires m.Valid() && ValidPeer(p)
    modifies m, m.buf
    ensures m.Valid() && |m.stack| == |old(m.stack)| && Below(m.stack) == Below(old(m.stack))
    ensures ok ==> m.stack == PushAll(old(m.stack), PeerScalars(Scalars(p, first))) && m.len <= old(m.len) + SCALARS_MAX
    ensures !ok ==> old(m.len) + SCALARS_MAX > m.buf.Length
  {
    ghost var before, head := m.stack, [Leaf(PEER_KEY, p.key)] + if first then FirstItems(p) else [];
    ScalarItems(p, first);
    var flags := (if p.remove then REMOVE_ME else 0) + if first && p.replaceIps then REPLACE_IPS else 0;
    ghost var all := flags + if p.awg.Some? then HAS_AWG else 0;
    assert Flags(Scalars(p, first)) == all;
    assert PeerScalars(Scalars(p, first)) == head + FlagItems(p.awg, all);
    hide Message.Valid, FirstItems, FlagItems, PeerScalars, Flags, Scalars, ValidPeer, PushAll, Below;
    ok := PutKey(m, p, first);
    if ok {
      ok := PutFlags(m, p.awg, flags);
      PushMore(before, head, FlagItems(p.awg, all));
    }
  }

  lemma {:induction false} IpAttrsMore(ips: seq<Ip>, from: nat, k: nat)
    requires from <= k < |ips|
    ensures IpAttrs(ips[from..k]) + [Nest(0, IpItems(ips[k]))] == IpAttrs(ips[from..k + 1])
  {
    hide IpItems;
  }

  /** As many allowed IPs as fit, from a cursor on. */
  method PutIpList(m: Message, p: Peer, from: nat) returns (k: nat)
    requires m.Valid() && ValidPeer(p) && from < |p.ips|
    modifies m, m.buf
    ensures m.Valid() && from <= k <= |p.ips| && m.stack == PushAll(old(m.stack), IpAttrs(p.ips[from..k]))
    ensures k == from ==> old(m.len) + IP_MAX > m.buf.Length
  {
    k := from;
    ghost var before := m.stack;
    PushNone(before);
    assert IpAttrs(p.ips[from..from]) == [];
    hide Message.Valid, Image, IpAttrs, PushAll, ValidIp, IpItems;
    while k < |p.ips|
      invariant m.Valid() && from <= k <= |p.ips| && m.stack == PushAll(before, IpAttrs(p.ips[from..k]))
      invariant k == from ==> m.len == old(m.len)
    {
      var ok := PutIp(m, p.ips[k]);
      if !ok { break; }
      IpAttrsMore(p.ips, from, k);
      PushMore(before, IpAttrs(p.ips[from..k]), [Nest(0, IpItems(p.ips[k]))]);
      k := k + 1;
    }
  }

  /** The allowed IPs from a cursor on; k is where the next fragment goes on. */
  method PutIps(m: Message, p: Peer, from: nat) returns (k: nat, ghost nest: bool)
    requires m.Valid() && ValidPeer(p) && from < |p.ips|
    modifies m, m.buf
    ensures m.Valid() && from <= k <= |p.ips| && |m.stack| == |old(m.stack)| && Below(m.stack) == Below(old(m.stack))
    ensures m.stack == PushAll(old(m.stack), IpsNest(p.ips[from..k], nest))
    ensures nest || k == from
    ensures k == from ==> old(m.len) + 4 + IP_MAX > m.buf.Length
  {
    ghost var before := m.stack;
    k, nest := from, false;
    if m.len + 4 > m.buf.Length {
      PushNone(before);
      return;
    }
    nest := true;
    var start := m.NestStart(PEER_IPS);
    ghost var opening := m.stack;
    hide Message.Valid, Image, IpAttrs, PushAll, ValidPeer;
    k := PutIpList(m, p, from);
    CloseNest(before, opening, IpAttrs(p.ips[from..k]));
    m.NestEnd(start);
  }

  /** The allowed IPs of a fragment; when there is no room for the nest it is missing. */
  function IpsNest(ips: seq<Ip>, nest: bool): seq<Attr>
  {
    if nest then [Nest(PEER_IPS, IpAttrs(ips))] else []
  }

  lemma {:induction false} FragmentItems(p: Peer, cursor: Option<nat>, k: nat, nest: bool)
    requires k <= |p.ips| && (cursor.Some? ==> cursor.value <= k)
    requires nest || k == if cursor.Some? then cursor.value else 0
    ensures var ips := p.ips[if cursor.Some? then cursor.value else 0..k];
            Carries(Nest(0, PeerScalars(Scalars(p, cursor.None?)) + IpsNest(ips, nest)), Fragment(p, cursor, k))
  {
    var q := Fragment(p, cursor, k);
    assert PeerScalars(Scalars(p, cursor.None?)) == PeerScalars(q) by {
      hide U16, U32;
      assert Flags(q) == Flags(Scalars(p, cursor.None?));
    }
    hide PeerScalars;
  }

  function Start(cursor: Option<nat>): nat
  {
    if cursor.Some? then cursor.value else 0
  }

  /** The contents of a peer nest. */
  method PutPeerItems(m: Message, p: Peer, cursor: Option<nat>) returns (ok: bool, k: nat, ghost items: seq<Attr>)
    requires m.Valid() && ValidPeer(p) && (cursor.Some? ==> cursor.value < |p.ips|)
    modifies m, m.buf
    ensures m.Valid() && |m.stack| == |old(m.stack)| && Below(m.stack) == Below(old(m.stack))
    ensures !ok ==> old(m.len) + SCALARS_MAX > m.buf.Length
    ensures ok ==> Start(cursor) <= k <= |p.ips|
    ensures ok ==> m.stack == PushAll(old(m.stack), items) && Carries(Nest(0, items), Fragment(p, cursor, k))
    ensures ok && k == Start(cursor) < |p.ips| ==> old(m.len) + SCALARS_MAX + 4 + IP_MAX > m.buf.Length
  {
    ghost var before, nest := m.stack, false;
    k, items := Start(cursor), PeerScalars(Scalars(p, cursor.None?));
    hide Message.Valid, IpsNest, ValidPeer, PeerScalars, Scalars, Carries, Fragment, PushAll, Below;
    ok := PutScalars(m, p, cursor.None?);
    if ok {
      if p.ips != [] {
        k, nest := PutIps(m, p, k);
      } else {
        PushNone(m.stack);
        assert IpsNest([], false) == [];
      }
      PushMore(before, items, IpsNest(p.ips[Start(cursor)..k], nest));
      items := items + IpsNest(p.ips[Start(cursor)..k], nest);
      FragmentItems(p, cursor, k, nest);
    }
  }

  /** One peer, from its cursor on.  A peer whose scalars do not fit is cancelled. */
  method PutPeer(m: Message, p: Peer, cursor: Option<nat>) returns (ok: bool, k: nat, ghost a: Attr)
    requires m.Valid() && ValidPeer(p) && (cursor.Some? ==> cursor.value < |p.ips|)
    modifies m, m.buf
    ensures m.Valid()
    ensures !ok ==> m.stack == old(m.stack) && m.len == old(m.len) && old(m.len) + 4 + SCALARS_MAX > m.buf.Length
    ensures ok ==> Start(cursor) <= k <= |p.ips|
    ensures ok ==> m.stack == PushAll(old(m.stack), [a]) && Carries(a, Fragment(p, cursor, k))
    ensures ok && k == Start(cursor) < |p.ips| ==> old(m.len) + 8 + SCALARS_MAX + IP_MAX > m.buf.Length
  {
    ghost var before := m.stack;
    ok, k, a := false, 0, Nest(0, []);
    if m.len + 4 > m.buf.Length { return; }
    var start := m.NestStart(0);
    ghost var opening, items := m.stack, [];
    hide Message.Valid, Image, PushAll, ValidPeer, Carries, Fragment;
    ok, k, items := PutPeerItems(m, p, cursor);
    if ok {
      CloseNest(before, opening, items);
      a := Nest(0, items);
      m.NestEnd(start);
    } else {
      m.NestCancel(start);
    }
  }

  // ----- the whole device -----

  ghost predicate ValidCursor(peers: seq<Peer>, i: nat, cursor: Option<nat>)
  {
    i <= |peers| && (cursor.Some? ==> i < |peers| && cursor.value <= |peers[i].ips|)
  }

  /** The peers before i, and of peer i the allowed IPs before the cursor. */
  function UpTo(t: Table, peers: seq<Peer>, i: nat, cursor: Option<nat>): Table
    requires ValidCursor(peers, i, cursor)
  {
    var done := ApplyPeers(t, peers[..i]);
    if cursor.Some? then ApplyPeer(done, Head(peers[i], cursor.value)) else done
  }

  lemma {:induction false} UpToFragment(t: Table, peers: seq<Peer>, i: nat, c: Option<nat>, k: nat)
    requires ValidCursor(peers, i, c) && i < |peers| && Start(c) <= k <= |peers[i].ips|
    ensures ApplyPeer(UpTo(t, peers, i, c), Fragment(peers[i], c, k)) == UpTo(t, peers, i, Some(k))
  {
    if c.Some? {
      Resume(ApplyPeers(t, peers[..i]), peers[i], c.value, k);
    }
  }

  lemma {:induction false} UpToWhole(t: Table, peers: seq<Peer>, i: nat)
    requires i < |peers|
    ensures UpTo(t, peers, i, Some(|peers[i].ips|)) == UpTo(t, peers, i + 1, None)
  {
    var p := peers[i];
    assert p.ips[..|p.ips|] == p.ips && Head(p, |p.ips|) == p;
    assert peers[..i + 1][..i] == peers[..i];
  }

  /** Where the fragment of peer i starts in a message that begins at i0 with cursor c0. */
  function CursorAt(i0: nat, c0: Option<nat>, i: nat): Option<nat>
  {
    if i == i0 then c0 else None
  }

  /** The fragments of a message that goes from one cursor position to another. */
  function Slice(peers: seq<Peer>, i0: nat, c0: Option<nat>, i: nat, c: Option<nat>): seq<Peer>
    requires Runs(peers, i0, c0, i, c)
    decreases i, c.Some?
  {
    if i == i0 && c == c0 then [] else
    if c.Some? then
      (if i == i0 then [] else Slice(peers, i0, c0, i, None)) + [Fragment(peers[i], CursorAt(i0, c0, i), c.value)]
    else
      (if i - 1 == i0 then [] else Slice(peers, i0, c0, i - 1, None))
      + [Fragment(peers[i - 1], CursorAt(i0, c0, i - 1), |peers[i - 1].ips|)]
  }

  /** The second position is at or behind the first. */
  ghost predicate Runs(peers: seq<Peer>, i0: nat, c0: Option<nat>, i: nat, c: Option<nat>)
  {
    ValidCursor(peers, i0, c0) && ValidCursor(peers, i, c) && ((i == i0 && c == c0) || Later(i0, c0, i, c))
  }

  ghost predicate Later(i: nat, c: Option<nat>, j: nat, d: Option<nat>)
  {
    j > i || (j == i && d.Some? && (c.None? || d.value > c.value))
  }

  /** The fragments of a message take every receiver from its first cursor position to its last. */
  lemma {:induction false} SliceApplies(t: Table, peers: seq<Peer>, i0: nat, c0: Option<nat>, i: nat, c: Option<nat>)
    requires Runs(peers, i0, c0, i, c)
    ensures ApplyPeers(UpTo(t, peers, i0, c0), Slice(peers, i0, c0, i, c)) == UpTo(t, peers, i, c)
    decreases i, c.Some?
  {
    hide UpTo, Slice, ApplyPeers, Fragment;
    if i == i0 && c == c0 {
      SliceNone(peers, i, c);
      ApplyNone(UpTo(t, peers, i0, c0));
    } else {
      var at := if c.Some? then i else i - 1;
      if at != i0 {
        SliceApplies(t, peers, i0, c0, at, None);
      } else {
        SliceNone(peers, i0, c0);
        ApplyNone(UpTo(t, peers, i0, c0));
      }
      SliceStep(t, peers, i0, c0, at, i, c);
    }
  }

  lemma {:induction false} SliceStep(t: Table, peers: seq<Peer>, i0: nat, c0: Option<nat>, at: nat, i: nat,
                                     c: Option<nat>)
    requires at < |peers| && Runs(peers, i0, c0, at, CursorAt(i0, c0, at))
    requires Runs(peers, i0, c0, i, c) && Later(at, CursorAt(i0, c0, at), i, c)
    requires (i == at && c.Some?) || (i == at + 1 && c.None?)
    requires ApplyPeers(UpTo(t, peers, i0, c0), Slice(peers, i0, c0, at, CursorAt(i0, c0, at))) ==
             UpTo(t, peers, at, CursorAt(i0, c0, at))
    ensures ApplyPeers(UpTo(t, peers, i0, c0), Slice(peers, i0, c0, i, c)) == UpTo(t, peers, i, c)
  {
    hide UpTo, Slice, ApplyPeers, Fragment;
    var from, k := CursorAt(i0, c0, at), if c.Some? then c.value else |peers[at].ips|;
    SliceMore(peers, i0, c0, at, i, c);
    ApplyMore(UpTo(t, peers, i0, c0), Slice(peers, i0, c0, at, from), Fragment(peers[at], from, k));
    UpToFragment(t, peers, at, from, k);
    UpToWhole(t, peers, at);
  }

  lemma {:induction false} ApplyNone(t: Table)
    ensures ApplyPeers(t, []) == t
  {
  }

  lemma {:induction false} ApplyMore(t: Table, peers: seq<Peer>, p: Peer)
    ensures ApplyPeers(t, peers + [p]) == ApplyPeer(ApplyPeers(t, peers), p)
  {
    assert (peers + [p])[..|peers|] == peers;
  }

  lemma {:induction false} CarriesMore(attrs: seq<Attr>, peers: seq<Peer>, a: Attr, p: Peer)
    requires CarriesAll(attrs, peers) && Carries(a, p)
    ensures CarriesAll(attrs + [a], peers + [p])
  {
    hide Carries;
  }

  /**
   The peers from a cursor position on, as many as fit. A message that starts inside a peer has
   room for progress.
   */
  method PutPeers(m: Message, peers: seq<Peer>, i0: nat, c0: Option<nat>)
    returns (i: nat, c: Option<nat>, ghost attrs: seq<Attr>)
    requires m.Valid() && (forall n :: 0 <= n < |peers| ==> ValidPeer(peers[n]))
    requires i0 < |peers| && AtPeer(peers, i0, c0)
    requires c0.Some? ==> m.len + 8 + SCALARS_MAX + IP_MAX <= m.buf.Length
    modifies m, m.buf
    ensures m.Valid() && m.stack == PushAll(old(m.stack), attrs)
    ensures AtPeer(peers, i, c) && Runs(peers, i0, c0, i, c)
    ensures CarriesAll(attrs, Slice(peers, i0, c0, i, c))
    ensures old(m.len) + 8 + SCALARS_MAX + IP_MAX <= m.buf.Length ==> Later(i0, c0, i, c)
  {
    ghost var before := m.stack;
    i, c, attrs := i0, c0, [];
    PushNone(before);
    assert CarriesAll([], []);
    hide Message.Valid, PushAll, ValidPeer, CarriesAll, Fragment, Slice;
    assert Slice(peers, i0, c0, i0, c0) == [] by { SliceNone(peers, i0, c0); }
    var full := false;
    while i < |peers| && !full
      invariant m.Valid() && m.stack == PushAll(before, attrs) && i0 <= i
      invariant AtPeer(peers, i, c) && Runs(peers, i0, c0, i, c) && CarriesAll(attrs, Slice(peers, i0, c0, i, c))
      invariant !full ==> c == CursorAt(i0, c0, i) && (i == i0 ==> m.len == old(m.len))
      invariant full && old(m.len) + 8 + SCALARS_MAX + IP_MAX <= m.buf.Length ==> Later(i0, c0, i, c)
      decreases |peers| - i, !full
    {
      full, i, c, attrs := PutNext(m, peers, i0, c0, i, c, before, attrs);
    }
  }

  /** One round of the peer loop: full when the message is to be sent. */
  method PutNext(m: Message, peers: seq<Peer>, ghost i0: nat, ghost c0: Option<nat>, i: nat, c: Option<nat>,
                 ghost before: seq<Open>, ghost attrs: seq<Attr>)
    returns (full: bool, j: nat, d: Option<nat>, ghost more: seq<Attr>)
    requires m.Valid() && before != [] && m.stack == PushAll(before, attrs) && i < |peers| && ValidPeer(peers[i])
    requires AtPeer(peers, i, c) && Runs(peers, i0, c0, i, c) && c == CursorAt(i0, c0, i)
    requires CarriesAll(attrs, Slice(peers, i0, c0, i, c))
    requires c.Some? ==> m.len + 8 + SCALARS_MAX + IP_MAX <= m.buf.Length
    modifies m, m.buf
    ensures m.Valid() && m.stack == PushAll(before, more) && AtPeer(peers, j, d) && Runs(peers, i0, c0, j, d)
    ensures CarriesAll(more, Slice(peers, i0, c0, j, d))
    ensures !full ==> j == i + 1 && d == None
    ensures full ==> j == i && ((d == c && old(m.len) + 8 + SCALARS_MAX + IP_MAX > m.buf.Length) || Later(i, c, j, d))
  {
    hide Message.Valid, PushAll, ValidPeer, Carries, CarriesAll, Fragment, Slice;
    ghost var a;
    var ok, k;
    full, j, d, more := true, i, c, attrs;
    ok, k, a := PutPeer(m, peers[i], c);
    if ok {
      PushMore(before, attrs, [a]);
      CarriesMore(attrs, Slice(peers, i0, c0, i, c), a, Fragment(peers[i], c, k));
      more := attrs + [a];
      if k < |peers[i].ips| {
        d := Some(k);
      } else {
        full, j, d := false, i + 1, None;
      }
      SliceMore(peers, i0, c0, i, j, d);
    }
  }

  lemma {:induction false} SliceMore(peers: seq<Peer>, i0: nat, c0: Option<nat>, i: nat, j: nat, d: Option<nat>)
    requires i < |peers| && Runs(peers, i0, c0, i, CursorAt(i0, c0, i))
    requires Runs(peers, i0, c0, j, d) && Later(i, CursorAt(i0, c0, i), j, d)
    requires (j == i && d.Some?) || (j == i + 1 && d.None?)
    ensures var c := CursorAt(i0, c0, i);
            var k := if d.Some? then d.value else |peers[i].ips|;
            Slice(peers, i0, c0, j, d) == Slice(peers, i0, c0, i, c) + [Fragment(peers[i], c, k)]
  {
  }

  lemma {:induction false} SliceNone(peers: seq<Peer>, i: nat, c: Option<nat>)
    requires ValidCursor(peers, i, c)
    ensures Slice(peers, i, c, i, c) == []
  {
  }

  /** The device part of every message but the first: only the name. */
  function Bare(d: Device): Device
  {
    Device(d.name, map[], false, [])
  }

  lemma {:induction false} BareItems(d: Device, order: seq<nat>)
    ensures Settings(Bare(d), order) == [Leaf(IFNAME, d.name + [0])]
    decreases |order|
  {
    if order != [] {
      BareItems(d, order[..|order| - 1]);
    }
  }

  /** The size of one more optional attribute. */
  lemma {:induction false} EncOpt(items: seq<Attr>, t: nat, payload: Option<seq<uint8>>)
    ensures |Enc(items + Opt(t, payload))| == |Enc(items)| + if payload.Some? then 4 + Align(|payload.value|) else 0
  {
    if payload.Some? {
      EncAppend(items, Leaf(t, payload.value));
    } else {
      assert items + [] == items;
    }
  }

  lemma {:induction false} SettingsSize(d: Device, order: seq<nat>, n: nat)
    requires n <= |order|
    ensures |Enc(Settings(d, order[..n]))| <= |Enc(Settings(d, order))|
    decreases |order|
  {
    if n < |order| {
      var init, t := order[..|order| - 1], order[|order| - 1];
      SettingsSize(d, init, n);
      assert init[..n] == order[..n];
      EncOpt(Settings(d, init), t, Setting(d, t));
    } else {
      assert order[..n] == order;
    }
  }

  /** The room a device needs in its first message. */
  function HeaderSize(d: Device): nat
  {
    HEADERS + |Enc(DeviceItems(d))| + if d.peers == [] then 0 else 4
  }

  method PutName(m: Message, d: Device)
    requires m.Valid() && m.len + 20 <= m.buf.Length && |d.name| < 16
    modifies m, m.buf
    ensures m.Valid() && m.stack == PushAll(old(m.stack), [Leaf(IFNAME, d.name + [0])])
    ensures m.len == old(m.len) + |Enc([Leaf(IFNAME, d.name + [0])])| <= old(m.len) + 20
  {
    EncAppend([], Leaf(IFNAME, d.name + [0]));
    assert [] + [Leaf(IFNAME, d.name + [0])] == [Leaf(IFNAME, d.name + [0])] && Enc([]) == [];
    hide Message.Valid, Enc;
    m.Put(IFNAME, d.name + [0]);
  }

  /** The scalar settings and the device flags; none of these puts is checked. */
  method PutSettings(m: Message, d: Device, ghost before: seq<Open>)
    requires ValidDevice(d) && HoldsItems(m, before, [Leaf(IFNAME, d.name + [0])])
    requires HEADERS + |Enc(DeviceItems(d))| <= m.buf.Length
    modifies m, m.buf
    ensures HoldsItems(m, before, DeviceItems(d))
  {
    ghost var all, flags := Settings(d, Order()), Opt(DEVICE_FLAGS, DeviceFlags(d));
    forall n | 0 <= n < |Order()| ensures Order()[n] < 0x4000 { OrderTypes(Order()[n]); }
    EncOpt(all, DEVICE_FLAGS, DeviceFlags(d));
    assert DeviceItems(d) == all + flags;
    hide Message.Valid, Enc, Order, ValidPeer, PushAll, U32, DeviceItems, Settings;
    PutOrder(m, d, Order(), before);
    PushNone(m.stack);
    PushMore(before, all, flags);
    if d.replacePeers {
      PutLeaf(m, DEVICE_FLAGS, U32(1));
    }
  }

  /** The message holds exactly these device attributes. */
  ghost predicate HoldsItems(m: Message, before: seq<Open>, items: seq<Attr>)
    reads m, m.buf
  {
    m.Valid() && before != [] && m.stack == PushAll(before, items) && m.len == HEADERS + |Enc(items)|
  }

  method PutOrder(m: Message, d: Device, order: seq<nat>, ghost before: seq<Open>)
    requires HoldsItems(m, before, [Leaf(IFNAME, d.name + [0])]) && (forall n :: 0 <= n < |order| ==> order[n] < 0x4000)
    requires HEADERS + |Enc(Settings(d, order))| <= m.buf.Length
    modifies m, m.buf
    ensures HoldsItems(m, before, Settings(d, order))
  {
    assert Settings(d, order[..0]) == [Leaf(IFNAME, d.name + [0])];
    hide HoldsItems, Enc, Settings;
    for n := 0 to |order|
      invariant HoldsItems(m, before, Settings(d, order[..n]))
    {
      PutSetting(m, d, order, n, before);
    }
    assert order[..|order|] == order;
  }

  method PutLeaf(m: Message, t: nat, payload: seq<uint8>)
    requires m.Valid() && t < 0x4000 && m.len + 4 + Align(|payload|) <= m.buf.Length
    modifies m, m.buf
    ensures m.Valid() && m.len == old(m.len) + 4 + Align(|payload|)
    ensures m.stack == PushAll(old(m.stack), Opt(t, Some(payload)))
  {
    hide Message.Valid;
    m.Put(t, payload);
  }

  method PutSetting(m: Message, d: Device, order: seq<nat>, n: nat, ghost before: seq<Open>)
    requires n < |order| && order[n] < 0x4000 && HoldsItems(m, before, Settings(d, order[..n]))
    requires HEADERS + |Enc(Settings(d, order))| <= m.buf.Length
    modifies m, m.buf
    ensures HoldsItems(m, before, Settings(d, order[..n + 1]))
  {
    var t := order[n];
    SettingsSize(d, order, n + 1);
    assert order[..n + 1][..n] == order[..n];
    ghost var items := Settings(d, order[..n]);
    assert Settings(d, order[..n + 1]) == items + Opt(t, Setting(d, t));
    EncOpt(items, t, Setting(d, t));
    PushNone(m.stack);
    PushMore(before, items, Opt(t, Setting(d, t)));
    hide Message.Valid, Enc, PushAll, Settings;
    if t in d.settings {
      PutLeaf(m, t, d.settings[t]);
    }
  }

  /** The device part of one message. */
  method PutDevice(m: Message, d: Device, first: bool)
    requires ValidDevice(d) && m.Valid() && m.len == HEADERS && HEADERS + 20 <= m.buf.Length
    requires first ==> HEADERS + |Enc(DeviceItems(d))| <= m.buf.Length
    modifies m, m.buf
    ensures HoldsItems(m, old(m.stack), DeviceItems(if first then d else Bare(d)))
    ensures !first ==> m.len <= HEADERS + 20
  {
    ghost var before := m.stack;
    BareItems(d, Order());
    assert DeviceItems(Bare(d)) == [Leaf(IFNAME, d.name + [0])];
    hide Message.Valid, Enc, Order, ValidPeer, PushAll, DeviceItems, Settings;
    PutName(m, d);
    if first {
      PutSettings(m, d, before);
    }
  }

  /** The message has this device part and these peer attributes, which carry these fragments. */
  ghost predicate EncodesWith(message: seq<uint8>, d: Device, items: seq<Attr>, attrs: seq<Attr>, frags: seq<Peer>)
  {
    && |message| >= HEADERS && message[HEADERS..] == Enc(items) && AllWellFormed(items)
    && ((items == DeviceItems(d) && attrs == []) || items == DeviceItems(d) + [Nest(PEERS, attrs)])
    && CarriesAll(attrs, frags)
  }

  ghost predicate Encodes(message: seq<uint8>, d: Device, frags: seq<Peer>)
  {
    exists items, attrs :: EncodesWith(message, d, items, attrs, frags)
  }

  lemma {:induction false} Finish(m: Message, d: Device, attrs: seq<Attr>, frags: seq<Peer>)
    requires m.Valid() && |m.stack| == 1 && CarriesAll(attrs, frags)
    requires var items := m.stack[0].items;
             (items == DeviceItems(d) && attrs == []) || items == DeviceItems(d) + [Nest(PEERS, attrs)]
    ensures Encodes(m.buf[..m.len], d, frags)
  {
    var stack, items := m.stack, m.stack[0].items;
    assert Image(stack[..0]) == [];
    assert Image(stack) == stack[0].head + Enc(items);
    hide Image, Enc, CarriesAll, DeviceItems;
    assert EncodesWith(m.buf[..m.len], d, items, attrs, frags);
  }

  /** What the receiver makes of a message. */
  lemma {:induction false} Encoded(message: seq<uint8>, d: Device, frags: seq<Peer>)
    requires Encodes(message, d, frags) && (forall t | t in d.settings :: t in Order())
    requires forall n :: 0 <= n < |frags| ==> ValidPeer(frags[n])
    ensures forall c :: Receive(c, message) == Apply(c, d.(peers := frags))
  {
    var items, attrs :| EncodesWith(message, d, items, attrs, frags);
    hide Enc, DeviceItems, Order, GetDevice, Apply, ValidPeer, CarriesAll;
    assert message[HEADERS..] == Enc(items) + [];
    TreeEnc(items, []);
    assert Tree([]) == [] && items + [] == items;
    DeviceRoundTrip(d, items, attrs);
    PeersRoundTrip(attrs, frags);
    hide Tree;
  }

  /** A buffer of this size holds the name, one peer header and one allowed IP. */
  const MIN_BUFFER: nat := HEADERS + 20 + 4 + 8 + SCALARS_MAX + IP_MAX

  ghost predicate AtPeer(peers: seq<Peer>, i: nat, c: Option<nat>)
  {
    ValidCursor(peers, i, c) && (c.Some? ==> c.value < |peers[i].ips|)
  }

  /** One message: the device part, and the peers from the cursor position on that fit. */
  method BuildMessage(dev: Device, first: bool, i: nat, c: Option<nat>, capacity: nat, headers: seq<uint8>)
    returns (message: seq<uint8>, j: nat, d: Option<nat>)
    requires ValidDevice(dev) && |headers| == HEADERS && MIN_BUFFER <= capacity <= 0x1_0000
    requires first ==> HeaderSize(dev) <= capacity
    requires AtPeer(dev.peers, i, c) && (dev.peers != [] ==> i < |dev.peers|) && (first ==> i == 0 && c == None)
    ensures |message| <= capacity && AtPeer(dev.peers, j, d) && Runs(dev.peers, i, c, j, d)
    ensures Encodes(message, if first then dev else Bare(dev), Slice(dev.peers, i, c, j, d))
    ensures !first && dev.peers != [] ==> Later(i, c, j, d)
  {
    ghost var part := if first then dev else Bare(dev);
    ghost var attrs, items := [], DeviceItems(part);
    j, d := i, c;
    SliceNone(dev.peers, i, c);
    assert CarriesAll([], []);
    hide Image, Enc, DeviceItems, PushAll, CarriesAll, Slice, ValidPeer, Message.Valid, Encodes;
    var m := new Message(capacity, headers);
    ghost var before := m.stack;
    PutDevice(m, dev, first);
    Pushed(before, items);
    if dev.peers != [] {
      j, d, attrs := PutPeersNest(m, dev.peers, i, c);
      PushedTwice(before, items, Nest(PEERS, attrs));
    }
    message := m.buf[..m.len];
    Finish(m, part, attrs, Slice(dev.peers, i, c, j, d));
  }

  method PutPeersNest(m: Message, peers: seq<Peer>, i: nat, c: Option<nat>)
    returns (j: nat, d: Option<nat>, ghost attrs: seq<Attr>)
    requires m.Valid() && (forall n :: 0 <= n < |peers| ==> ValidPeer(peers[n])) && m.len + 4 <= m.buf.Length
    requires i < |peers| && AtPeer(peers, i, c)
    requires c.Some? ==> m.len + 12 + SCALARS_MAX + IP_MAX <= m.buf.Length
    modifies m, m.buf
    ensures m.Valid() && m.stack == PushAll(old(m.stack), [Nest(PEERS, attrs)])
    ensures AtPeer(peers, j, d) && Runs(peers, i, c, j, d)
    ensures CarriesAll(attrs, Slice(peers, i, c, j, d))
    ensures old(m.len) + 12 + SCALARS_MAX + IP_MAX <= m.buf.Length ==> Later(i, c, j, d)
  {
    hide Image, PushAll, CarriesAll, Slice, ValidPeer, Message.Valid;
    ghost var before := m.stack;
    var start := m.NestStart(PEERS);
    ghost var opening := m.stack;
    j, d, attrs := PutPeers(m, peers, i, c);
    CloseNest(before, opening, attrs);
    m.NestEnd(start);
  }

  lemma {:induction false} PushedTwice(before: seq<Open>, items: seq<Attr>, a: Attr)
    requires |before| == 1 && before[0].items == []
    ensures var s := PushAll(PushAll(before, items), [a]); |s| == 1 && s[0].items == items + [a]
  {
  }

  lemma {:induction false} Pushed(before: seq<Open>, items: seq<Attr>)
    requires |before| == 1 && before[0].items == []
    ensures |PushAll(before, items)| == 1 && PushAll(before, items)[0].items == items
  {
  }

  /** The configuration after the messages that reach a cursor position. */
  function Reached(conf: Config, dev: Device, i: nat, c: Option<nat>): Config
    requires ValidCursor(dev.peers, i, c)
  {
    Config(conf.settings + dev.settings, UpTo(if dev.replacePeers then map[] else conf.peers, dev.peers, i, c))
  }

  /** A position between two messages. */
  datatype Cut = Cut(peer: nat, cursor: Option<nat>)

  /** The messages are the device cut at these positions, and the last ends at (i, c). */
  ghost predicate Transcript(sent: seq<seq<uint8>>, cuts: seq<Cut>, dev: Device, i: nat, c: Option<nat>)
    decreases |sent|
  {
    && |sent| == |cuts| > 0 && cuts[|cuts| - 1] == Cut(i, c) && AtPeer(dev.peers, i, c)
    && if |sent| == 1 then
         Runs(dev.peers, 0, None, i, c) && Encodes(sent[0], dev, Slice(dev.peers, 0, None, i, c))
       else
         var n, last := |sent| - 1, cuts[|cuts| - 2];
         && Transcript(sent[..n], cuts[..n], dev, last.peer, last.cursor)
         && Runs(dev.peers, last.peer, last.cursor, i, c)
         && Encodes(sent[n], Bare(dev), Slice(dev.peers, last.peer, last.cursor, i, c))
  }

  lemma {:induction false} SliceValid(peers: seq<Peer>, i0: nat, c0: Option<nat>, i: nat, c: Option<nat>)
    requires Runs(peers, i0, c0, i, c) && forall n :: 0 <= n < |peers| ==> ValidPeer(peers[n])
    ensures forall n :: 0 <= n < |Slice(peers, i0, c0, i, c)| ==> ValidPeer(Slice(peers, i0, c0, i, c)[n])
    decreases i, c.Some?
  {
    if i == i0 && c == c0 {
      SliceNone(peers, i, c);
    } else {
      var at := if c.Some? then i else i - 1;
      var from, k := CursorAt(i0, c0, at), if c.Some? then c.value else |peers[at].ips|;
      if at != i0 { SliceValid(peers, i0, c0, at, None); } else { SliceNone(peers, i0, c0); }
      SliceMore(peers, i0, c0, at, i, c);
      hide ValidIp, ValidEndpoint, Slice;
      assert ValidPeer(peers[at]);
      assert ValidPeer(Fragment(peers[at], from, k));
      hide ValidPeer, Fragment;
    }
  }

  lemma {:induction false} FirstReached(conf: Config, dev: Device, message: seq<uint8>, i: nat, c: Option<nat>)
    requires ValidDevice(dev) && Runs(dev.peers, 0, None, i, c)
    requires Encodes(message, dev, Slice(dev.peers, 0, None, i, c))
    ensures Receive(conf, message) == Reached(conf, dev, i, c)
  {
    var base := if dev.replacePeers then map[] else conf.peers;
    assert dev.peers[..0] == [];
    assert UpTo(base, dev.peers, 0, None) == base;
    hide UpTo, Slice, Order, ValidPeer, Encodes, Receive, ApplyPeers;
    SliceValid(dev.peers, 0, None, i, c);
    Encoded(message, dev, Slice(dev.peers, 0, None, i, c));
    SliceApplies(base, dev.peers, 0, None, i, c);
  }

  lemma {:induction false} NextReached(conf: Config, dev: Device, i: nat, c: Option<nat>,
                                       message: seq<uint8>, j: nat, d: Option<nat>)
    requires ValidDevice(dev) && Runs(dev.peers, i, c, j, d)
    requires Encodes(message, Bare(dev), Slice(dev.peers, i, c, j, d))
    ensures Receive(Reached(conf, dev, i, c), message) == Reached(conf, dev, j, d)
  {
    var base := if dev.replacePeers then map[] else conf.peers;
    hide UpTo, Slice, Order, ValidPeer, Encodes, Receive, ApplyPeers;
    SliceValid(dev.peers, i, c, j, d);
    Encoded(message, Bare(dev), Slice(dev.peers, i, c, j, d));
    SliceApplies(base, dev.peers, i, c, j, d);
    var at := Reached(conf, dev, i, c);
    assert at.settings + map[] == at.settings;
  }

  /** Receiving a transcript leaves the configuration at its last position. */
  lemma {:induction false} Delivered(sent: seq<seq<uint8>>, cuts: seq<Cut>, dev: Device, i: nat, c: Option<nat>,
                                     conf: Config)
    requires ValidDevice(dev) && Transcript(sent, cuts, dev, i, c)
    ensures ReceiveAll(conf, sent) == Reached(conf, dev, i, c)
    decreases |sent|
  {
    hide ValidDevice, Runs, Encodes, Slice, Reached, AtPeer, Receive;
    var n := |sent| - 1;
    if n == 0 {
      assert ReceiveAll(conf, sent[..0]) == conf;
      FirstReached(conf, dev, sent[0], i, c);
    } else {
      var last := cuts[n - 1];
      Delivered(sent[..n], cuts[..n], dev, last.peer, last.cursor, conf);
      NextReached(conf, dev, last.peer, last.cursor, sent[n], i, c);
    }
  }

  /** A receiver that took the messages so far stands at a cursor position; before the first it is unchanged. */
  ghost predicate Stopped(sent: seq<seq<uint8>>, cuts: seq<Cut>, dev: Device, conf: Config)
    requires sent == [] || (|cuts| > 0 && ValidCursor(dev.peers, cuts[|cuts| - 1].peer, cuts[|cuts| - 1].cursor))
  {
    ReceiveAll(conf, sent) ==
    if sent == [] then conf else Reached(conf, dev, cuts[|cuts| - 1].peer, cuts[|cuts| - 1].cursor)
  }

  /**
   The message loop.  Every message fits the buffer, and a receiver that takes them one after the
   other ends, from any configuration, where the device taken as a whole would have brought it.
   The n-th message is sent and acknowledged if acks(n); the first failure ends the loop, and then
   the receiver stands at the cursor position of the last acknowledged message.
   */
  method KernelSetDevice(dev: Device, capacity: nat, headers: seq<uint8>, acks: nat -> bool)
    returns (ok: bool, sent: seq<seq<uint8>>, ghost cuts: seq<Cut>)
    requires ValidDevice(dev) && |headers| == HEADERS
    requires MIN_BUFFER <= capacity <= 0x1_0000 && HeaderSize(dev) <= capacity
    ensures forall k :: 0 <= k < |sent| ==> |sent[k]| <= capacity && acks(k)
    ensures ok ==> Transcript(sent, cuts, dev, |dev.peers|, None)
    ensures ok ==> forall conf :: ReceiveAll(conf, sent) == Apply(conf, dev)
    ensures !ok ==> !acks(|sent|)
    ensures !ok && sent != [] ==>
              && |cuts| > 0 && Transcript(sent, cuts, dev, cuts[|cuts| - 1].peer, cuts[|cuts| - 1].cursor)
              && cuts[|cuts| - 1].peer < |dev.peers|
    ensures !ok ==> forall conf :: Stopped(sent, cuts, dev, conf)
  {
    hide Transcript, Slice, ReceiveAll, Apply, HeaderSize, ValidDevice, Encodes, Reached;
    var message, i: nat, c;
    message, i, c := BuildMessage(dev, true, 0, None, capacity, headers);
    if !acks(0) {
      NothingSent(dev);
      return false, [], [];
    }
    sent, cuts := [message], [Cut(i, c)];
    TranscriptFirst(dev, message, i, c);
    while i < |dev.peers|
      invariant AtPeer(dev.peers, i, c) && Transcript(sent, cuts, dev, i, c)
      invariant |cuts| > 0 && cuts[|cuts| - 1] == Cut(i, c) && sent != []
      invariant forall k :: 0 <= k < |sent| ==> |sent[k]| <= capacity && acks(k)
      decreases |dev.peers| - i, if i < |dev.peers| then |dev.peers[i].ips| - (if c.Some? then c.value else -1) else 0
    {
      ghost var at, cursor := i, c;
      message, i, c := BuildMessage(dev, false, i, c, capacity, headers);
      if !acks(|sent|) {
        SomeDelivered(sent, cuts, dev, at, cursor);
        return false, sent, cuts;
      }
      TranscriptMore(sent, cuts, dev, at, cursor, message, i, c);
      sent, cuts := sent + [message], cuts + [Cut(i, c)];
    }
    AllDelivered(sent, cuts, dev);
    ok := true;
  }

  lemma {:induction false} NothingSent(dev: Device)
    ensures forall conf :: Stopped([], [], dev, conf)
  {
  }

  lemma {:induction false} SomeDelivered(sent: seq<seq<uint8>>, cuts: seq<Cut>, dev: Device, i: nat, c: Option<nat>)
    requires ValidDevice(dev) && Transcript(sent, cuts, dev, i, c)
    ensures sent != [] && |cuts| > 0 && cuts[|cuts| - 1] == Cut(i, c) && ValidCursor(dev.peers, i, c)
    ensures forall conf :: Stopped(sent, cuts, dev, conf)
  {
    forall conf: Config ensures Stopped(sent, cuts, dev, conf) {
      Delivered(sent, cuts, dev, i, c, conf);
    }
  }

  lemma {:induction false} TranscriptMore(sent: seq<seq<uint8>>, cuts: seq<Cut>, dev: Device, i: nat, c: Option<nat>,
                                          message: seq<uint8>, j: nat, d: Option<nat>)
    requires Transcript(sent, cuts, dev, i, c) && AtPeer(dev.peers, j, d) && Runs(dev.peers, i, c, j, d)
    requires Encodes(message, Bare(dev), Slice(dev.peers, i, c, j, d))
    ensures Transcript(sent + [message], cuts + [Cut(j, d)], dev, j, d)
  {
    var more, n := sent + [message], |sent|;
    assert more[..n] == sent && (cuts + [Cut(j, d)])[..n] == cuts;
    hide Encodes, Slice;
  }

  lemma {:induction false} TranscriptFirst(dev: Device, message: seq<uint8>, i: nat, c: Option<nat>)
    requires AtPeer(dev.peers, i, c) && Runs(dev.peers, 0, None, i, c)
    requires Encodes(message, dev, Slice(dev.peers, 0, None, i, c))
    ensures Transcript([message], [Cut(i, c)], dev, i, c)
  {
    hide Encodes, Slice;
  }

  lemma {:induction false} AllDelivered(sent: seq<seq<uint8>>, cuts: seq<Cut>, dev: Device)
    requires ValidDevice(dev) && Transcript(sent, cuts, dev, |dev.peers|, None)
    ensures forall conf :: ReceiveAll(conf, sent) == Apply(conf, dev)
  {
    forall conf: Config ensures ReceiveAll(conf, sent) == Apply(conf, dev) {
      Delivered(sent, cuts, dev, |dev.peers|, None, conf);
      ReachedEnd(conf, dev);
    }
  }

  lemma {:induction false} ReachedEnd(conf: Config, dev: Device)
    ensures Reached(conf, dev, |dev.peers|, None) == Apply(conf, dev)
  {
    assert dev.peers[..|dev.peers|] == dev.peers;
  }
}
