/** sync_conf of src/setconf.c: a configuration file turned into a change of the running interface. */
module SyncConf {
  import opened Machine
  import opened Wireguard
  import opened Wrappers
  import opened Receiver

  datatype Origin = Origin(key: seq<uint8>, fromFile: bool)

  function Memcmp(a: seq<uint8>, b: seq<uint8>): int
  {
    if a == [] || b == [] then |a| - |b|
    else if a[0] != b[0] then a[0] as int - b[0] as int
    else Memcmp(a[1..], b[1..])
  }

  /** pubkey_cmp: by key, and for one key the runtime's entries first. */
  function PubkeyCmp(a: Origin, b: Origin): int
  {
    var r := Memcmp(a.key, b.key);
    if r != 0 then r else (if a.fromFile then 1 else 0) - (if b.fromFile then 1 else 0)
  }

  lemma {:induction false} MemcmpOrder(a: seq<uint8>, b: seq<uint8>, c: seq<uint8>)
    ensures Memcmp(a, b) == 0 <==> a == b
    ensures Memcmp(a, b) < 0 <==> Memcmp(b, a) > 0
    ensures Memcmp(a, b) <= 0 && Memcmp(b, c) <= 0 ==> Memcmp(a, c) <= 0
    decreases |a|
  {
    if a != [] && b != [] {
      var c' := if c == [] then [] else c[1..];
      MemcmpOrder(a[1..], b[1..], c');
      assert a == [a[0]] + a[1..] && b == [b[0]] + b[1..];
    }
  }

  lemma {:induction false} CmpOrder(a: Origin, b: Origin, c: Origin)
    ensures PubkeyCmp(a, b) == 0 <==> a == b
    ensures PubkeyCmp(a, b) < 0 <==> PubkeyCmp(b, a) > 0
    ensures PubkeyCmp(a, b) <= 0 && PubkeyCmp(b, c) <= 0 ==> PubkeyCmp(a, c) <= 0
  {
    MemcmpOrder(a.key, b.key, c.key);
    MemcmpOrder(b.key, a.key, c.key);
    MemcmpOrder(b.key, c.key, a.key);
    MemcmpOrder(a.key, c.key, b.key);
    MemcmpOrder(c.key, a.key, b.key);
    hide Memcmp;
  }

  ghost predicate Sorted(s: seq<Origin>)
  {
    forall i, j :: 0 <= i < j < |s| ==> PubkeyCmp(s[i], s[j]) <= 0
  }

  /** qsort with pubkey_cmp. */
  function Insert(s: seq<Origin>, x: Origin): seq<Origin>
  {
    if s == [] || PubkeyCmp(s[|s| - 1], x) <= 0 then s + [x] else Insert(s[..|s| - 1], x) + [s[|s| - 1]]
  }

  function Sort(s: seq<Origin>): seq<Origin>
  {
    if s == [] then [] else Insert(Sort(s[..|s| - 1]), s[|s| - 1])
  }

  lemma {:induction false} InsertSorts(s: seq<Origin>, x: Origin)
    requires Sorted(s)
    ensures Sorted(Insert(s, x)) && multiset(Insert(s, x)) == multiset(s) + multiset{x}
  {
    hide PubkeyCmp;
    if s != [] {
      var init, last := s[..|s| - 1], s[|s| - 1];
      assert s == init + [last];
      if PubkeyCmp(last, x) <= 0 {
        forall i | 0 <= i < |s| ensures PubkeyCmp(s[i], x) <= 0 {
          if i < |s| - 1 { CmpOrder(s[i], last, x); }
        }
        SortedAppend(s, x);
      } else {
        InsertSorts(init, x);
        var r := Insert(init, x);
        forall i | 0 <= i < |r| ensures PubkeyCmp(r[i], last) <= 0 {
          assert r[i] in multiset(r);
          if r[i] == x { CmpOrder(last, x, x); } else { assert r[i] in init; }
        }
        SortedAppend(r, last);
      }
    }
  }

  lemma {:induction false} SortedAppend(s: seq<Origin>, x: Origin)
    requires Sorted(s) && forall i :: 0 <= i < |s| ==> PubkeyCmp(s[i], x) <= 0
    ensures Sorted(s + [x])
  {
    hide PubkeyCmp;
  }

  lemma {:induction false} SortSorts(s: seq<Origin>)
    ensures Sorted(Sort(s)) && multiset(Sort(s)) == multiset(s)
  {
    if s != [] {
      SortSorts(s[..|s| - 1]);
      assert s == s[..|s| - 1] + [s[|s| - 1]];
      InsertSorts(Sort(s[..|s| - 1]), s[|s| - 1]);
      hide Insert, PubkeyCmp;
    }
  }

  // ----- which keys are removed -----

  function Origins(peers: seq<Peer>, fromFile: bool): (r: seq<Origin>)
    ensures |r| == |peers|
  {
    seq(|peers|, i requires 0 <= i < |peers| => Origin(peers[i].key, fromFile))
  }

  /** The entry of a removed peer. */
  function Removal(key: seq<uint8>): Peer
  {
    Peer(key, true, false, None, None, None, None, [])
  }

  /** The test of the loop. */
  predicate Emits(a: seq<Origin>, i: nat)
    requires i < |a|
  {
    !a[i].fromFile && (i == |a| - 1 || !a[i + 1].fromFile || a[i].key != a[i + 1].key)
  }

  /** The removals of the first n entries, the latest in front. */
  function Removals(a: seq<Origin>, n: nat): seq<Peer>
    requires n <= |a|
  {
    if n == 0 then [] else
    if Emits(a, n - 1) then [Removal(a[n - 1].key)] + Removals(a, n - 1) else Removals(a, n - 1)
  }

  ghost predicate RemovesUpTo(a: seq<Origin>, n: nat, key: seq<uint8>)
    requires n <= |a|
  {
    exists i :: 0 <= i < n && a[i].key == key && Emits(a, i)
  }

  lemma {:induction false} RemovesMore(a: seq<Origin>, n: nat, key: seq<uint8>)
    requires 0 < n <= |a|
    ensures RemovesUpTo(a, n, key) <==> RemovesUpTo(a, n - 1, key) || (a[n - 1].key == key && Emits(a, n - 1))
  {
    hide Emits;
    if RemovesUpTo(a, n - 1, key) {
      var i :| 0 <= i < n - 1 && a[i].key == key && Emits(a, i);
      assert 0 <= i < n;
    }
  }

  lemma {:induction false} RemovalsAre(a: seq<Origin>, n: nat, key: seq<uint8>)
    requires n <= |a|
    ensures Removal(key) in Removals(a, n) <==> RemovesUpTo(a, n, key)
    ensures forall p | p in Removals(a, n) :: p == Removal(p.key)
  {
    hide Emits;
    if n > 0 {
      RemovalsAre(a, n - 1, key);
      RemovesMore(a, n, key);
    }
  }

  /** In a sorted list an entry between two entries of one key has that key. */
  lemma {:induction false} Between(a: seq<Origin>, i: nat, j: nat, k: nat)
    requires Sorted(a) && i < j < k < |a| && a[i].key == a[k].key
    ensures a[j].key == a[i].key && (a[j].fromFile ==> a[k].fromFile) && (a[i].fromFile ==> a[j].fromFile)
  {
    assert PubkeyCmp(a[i], a[j]) <= 0 && PubkeyCmp(a[j], a[k]) <= 0;
    MemcmpOrder(a[i].key, a[j].key, a[i].key);
    MemcmpOrder(a[j].key, a[k].key, a[i].key);
    hide Memcmp, Sorted;
  }

  /** The loop removes a key of the runtime unless it is in the file and only once in the runtime. */
  lemma {:induction false} RemovedExactly(a: seq<Origin>, key: seq<uint8>)
    requires Sorted(a)
    ensures RemovesUpTo(a, |a|, key) <==>
            Origin(key, false) in a && (Origin(key, true) !in a || multiset(a)[Origin(key, false)] > 1)
  {
    var r, f := Origin(key, false), Origin(key, true);
    hide Sorted, Emits;
    if RemovesUpTo(a, |a|, key) {
      var i :| 0 <= i < |a| && a[i].key == key && Emits(a, i);
      RemovedNeeds(a, i);
    }
    if r in a && f !in a {
      var i :| 0 <= i < |a| && a[i] == r;
      AloneEmits(a, i);
    }
    if multiset(a)[r] > 1 {
      var i, j := CountsTwice(a, r);
      TwiceEmits(a, i, j);
    }
  }

  lemma {:induction false} RemovedNeeds(a: seq<Origin>, i: nat)
    requires Sorted(a) && i < |a| && Emits(a, i)
    ensures a[i] == Origin(a[i].key, false) && a[i] in a
    ensures Origin(a[i].key, true) in a ==> multiset(a)[a[i]] > 1
  {
    var f := Origin(a[i].key, true);
    if f in a {
      var k :| 0 <= k < |a| && a[k] == f;
      FileLast(a, i, k);
      if i + 1 < k { Between(a, i, i + 1, k); }
      hide Sorted;
      assert a[i + 1] == a[i];
      TwiceCounts(a, i, i + 1);
    }
  }

  lemma {:induction false} AloneEmits(a: seq<Origin>, i: nat)
    requires i < |a| && !a[i].fromFile && Origin(a[i].key, true) !in a
    ensures Emits(a, i)
  {
  }

  lemma {:induction false} TwiceEmits(a: seq<Origin>, i: nat, j: nat)
    requires Sorted(a) && i < j < |a| && a[i] == a[j] && !a[i].fromFile
    ensures Emits(a, i)
  {
    if i + 1 < j { Between(a, i, i + 1, j); }
    hide Sorted;
  }

  lemma {:induction false} FileLast(a: seq<Origin>, i: nat, k: nat)
    requires Sorted(a) && i < |a| && k < |a| && a[i].key == a[k].key && !a[i].fromFile && a[k].fromFile
    ensures i < k
  {
    if k < i {
      assert PubkeyCmp(a[k], a[i]) <= 0;
      MemcmpOrder(a[k].key, a[i].key, a[i].key);
    }
  }

  lemma {:induction false} TwiceCounts<T>(a: seq<T>, i: nat, j: nat)
    requires i < j < |a| && a[i] == a[j]
    ensures multiset(a)[a[i]] > 1
  {
    assert a == a[..j] + [a[j]] + a[j + 1..];
    assert a[i] in a[..j];
  }

  lemma {:induction false} CountsTwice<T>(a: seq<T>, x: T) returns (i: nat, j: nat)
    requires multiset(a)[x] > 1
    ensures i < j < |a| && a[i] == a[j] == x
    decreases |a|
  {
    var n := |a| - 1;
    assert a == a[..n] + [a[n]];
    if a[n] == x {
      assert x in a[..n];
      i :| 0 <= i < n && a[..n][i] == x;
      j := n;
    } else {
      i, j := CountsTwice(a[..n], x);
    }
  }

  // ----- the whole function -----

  ghost function Keys(peers: seq<Peer>): set<seq<uint8>>
  {
    set p | p in peers :: p.key
  }

  /** The key occurs at two places. */
  ghost predicate Repeats(peers: seq<Peer>, key: seq<uint8>)
  {
    exists i, j :: 0 <= i < j < |peers| && peers[i].key == key && peers[j].key == key
  }

  function Entries(file: seq<Peer>, runtime: seq<Peer>): seq<Origin>
  {
    Sort(Origins(file, true) + Origins(runtime, false))
  }

  /** The device that is sent: unchanged when one of the two sides has no peers. */
  function Synced(file: Device, runtime: seq<Peer>): Device
  {
    if file.peers == [] || runtime == [] then file else
    var a := Entries(file.peers, runtime);
    file.(replacePeers := false, peers := Removals(a, |a|) + file.peers)
  }

  /** A runtime of None stands for a failed query. */
  method Sync(file: Device, runtime: Option<seq<Peer>>) returns (ok: bool, out: Device)
    ensures ok <==> file.peers == [] || runtime.Some?
    ensures ok ==> out == Synced(file, if runtime.Some? then runtime.value else [])
  {
    out := file;
    if file.peers == [] { return true, out; }
    if runtime.None? { return false, out; }
    if runtime.value == [] { return true, out; }
    out := out.(replacePeers := false);
    var a := Sort(Origins(file.peers, true) + Origins(runtime.value, false));
    assert a == Entries(file.peers, runtime.value);
    assert Removals(a, 0) + file.peers == file.peers;
    hide Sort, Origins, Entries;
    for i := 0 to |a|
      invariant out == file.(replacePeers := false, peers := Removals(a, i) + file.peers)
    {
      assert Removals(a, i + 1) == if Emits(a, i) then [Removal(a[i].key)] + Removals(a, i) else Removals(a, i);
      Front([Removal(a[i].key)], Removals(a, i), file.peers);
      if a[i].fromFile { continue; }
      if i == |a| - 1 || !a[i + 1].fromFile || a[i].key != a[i + 1].key {
        out := out.(peers := [Removal(a[i].key)] + out.peers);
      }
    }
    ok := true;
  }

  lemma {:induction false} Front<T>(a: seq<T>, b: seq<T>, c: seq<T>)
    ensures a + b + c == a + (b + c)
  {
  }

  lemma {:induction false} OriginsHave(peers: seq<Peer>, from: bool, o: Origin)
    ensures o in Origins(peers, from) <==> o.fromFile == from && o.key in Keys(peers)
    ensures o.fromFile == from ==> (multiset(Origins(peers, from))[o] > 1 <==> Repeats(peers, o.key))
    ensures o.fromFile != from ==> multiset(Origins(peers, from))[o] == 0
  {
    var r := Origins(peers, from);
    if o.fromFile == from && o.key in Keys(peers) {
      var p :| p in peers && p.key == o.key;
      var i :| 0 <= i < |peers| && peers[i] == p;
      assert r[i] == o;
    }
    if o.fromFile == from && multiset(r)[o] > 1 {
      var i, j := CountsTwice(r, o);
      assert peers[i].key == o.key && peers[j].key == o.key;
    }
    if o.fromFile == from && Repeats(peers, o.key) {
      var i, j :| 0 <= i < j < |peers| && peers[i].key == o.key && peers[j].key == o.key;
      assert r[i] == o && r[j] == o;
      TwiceCounts(r, i, j);
    }
  }

  /** A REMOVE entry for exactly the runtime keys absent from the file, and for shared keys the runtime lists twice. */
  lemma {:induction false} SyncRemoves(file: seq<Peer>, runtime: seq<Peer>, key: seq<uint8>)
    ensures var a := Entries(file, runtime);
            Removal(key) in Removals(a, |a|) <==> key in Keys(runtime) && (key !in Keys(file) || Repeats(runtime, key))
  {
    var s := Origins(file, true) + Origins(runtime, false);
    var a, r, f := Sort(s), Origin(key, false), Origin(key, true);
    SortSorts(s);
    OriginsHave(file, true, r);
    OriginsHave(file, true, f);
    OriginsHave(runtime, false, r);
    OriginsHave(runtime, false, f);
    hide Origins, Sort, Sorted, Removals, Keys, Repeats;
    assert r in a <==> multiset(a)[r] > 0;
    assert f in a <==> multiset(a)[f] > 0;
    assert multiset(s) == multiset(Origins(file, true)) + multiset(Origins(runtime, false));
    RemovalsAre(a, |a|, key);
    RemovedExactly(a, key);
  }

  // ----- the effect -----

  /** Removals take their keys from the table and nothing else. */
  lemma {:induction false} ApplyRemovals(t: Table, peers: seq<Peer>)
    requires forall p | p in peers :: p.remove
    ensures ApplyPeers(t, peers) == t - Keys(peers)
    decreases |peers|
  {
    if peers == [] {
      assert Keys(peers) == {};
    } else {
      var init, p := peers[..|peers| - 1], peers[|peers| - 1];
      ApplyRemovals(t, init);
      assert peers == init + [p];
      assert Keys(peers) == Keys(init) + {p.key};
      assert t - Keys(init) - {p.key} == t - Keys(peers);
      hide Keys;
    }
  }

  /** The peers in done have the same allowed IPs in both tables; the second may have more peers. */
  ghost predicate Agree(a: Table, b: Table, done: set<seq<uint8>>, extra: set<seq<uint8>>)
  {
    && a.Keys == done && b.Keys == done + extra
    && forall k | k in done :: k in a && k in b && a[k].ips == b[k].ips
  }

  lemma {:induction false} AgreeIps(a: Table, b: Table, done: set<seq<uint8>>, extra: set<seq<uint8>>, key: seq<uint8>,
                                    ips: seq<Ip>)
    requires Agree(a, b, done, extra)
    ensures Agree(AddIps(a, key, ips), AddIps(b, key, ips), done, extra)
    decreases |ips|
  {
    if ips != [] {
      AgreeIps(a, b, done, extra, key, ips[..|ips| - 1]);
      hide Without;
    }
  }

  /** A peer that replaces its allowed IPs has the same ones afterwards, whatever was there before. */
  lemma {:induction false} AgreePeer(a: Table, b: Table, done: set<seq<uint8>>, extra: set<seq<uint8>>, p: Peer)
    requires Agree(a, b, done, extra) && p.replaceIps && !p.remove
    ensures Agree(ApplyPeer(a, p), ApplyPeer(b, p), done + {p.key}, extra)
  {
    var a1, b1 := a[p.key := Update(Lookup(a, p.key), p)], b[p.key := Update(Lookup(b, p.key), p)];
    assert Agree(a1, b1, done + {p.key}, extra);
    hide Agree, AddIps;
    AgreeIps(a1, b1, done + {p.key}, extra, p.key, p.ips);
  }

  lemma {:induction false} AgreePeers(t: Table, peers: seq<Peer>)
    requires forall p | p in peers :: p.replaceIps && !p.remove
    ensures Agree(ApplyPeers(map[], peers), ApplyPeers(t, peers), Keys(peers), t.Keys)
    decreases |peers|
  {
    if peers == [] {
      assert Keys(peers) == {};
    } else {
      var init, p := peers[..|peers| - 1], peers[|peers| - 1];
      assert peers == init + [p];
      assert Keys(peers) == Keys(init) + {p.key};
      AgreePeers(t, init);
      hide Agree, Keys, ApplyPeer;
      AgreePeer(ApplyPeers(map[], init), ApplyPeers(t, init), Keys(init), t.Keys, p);
    }
  }

  /** The synced device has the effect of the full replacement on every peer's presence and allowed IPs. */
  lemma {:induction false} SyncedApplies(conf: Config, file: Device, runtime: seq<Peer>)
    requires file.replacePeers && forall p | p in file.peers :: p.replaceIps && !p.remove
    requires conf.peers.Keys == Keys(runtime)
    ensures var full, sync := Apply(conf, file), Apply(conf, Synced(file, runtime));
            && full.settings == sync.settings && full.peers.Keys == sync.peers.Keys
            && forall k | k in full.peers :: full.peers[k].ips == sync.peers[k].ips
  {
    if file.peers != [] && runtime != [] {
      var a := Entries(file.peers, runtime);
      var removals := Removals(a, |a|);
      var t := conf.peers - Keys(removals);
      assert forall p | p in removals :: p.remove by { RemovalsAre(a, |a|, []); }
      ApplyRemovals(conf.peers, removals);
      ApplyPeersSplit(conf.peers, removals, file.peers);
      AgreePeers(t, file.peers);
      hide ApplyPeers, Removals, Entries, Repeats;
      forall k | k in t ensures k in Keys(file.peers) {
        SyncRemoves(file.peers, runtime, k);
        assert Removal(k) in removals ==> Removal(k).key in Keys(removals);
      }
      hide Keys;
    }
  }

  /** What the entries of one key say about its scalars, the later ones first. */
  datatype Given = Given(
    psk: Option<seq<uint8>>,
    endpoint: Option<seq<uint8>>,
    keepalive: Option<nat>,
    awg: Option<bool>)

  function GivenBy(peers: seq<Peer>, key: seq<uint8>): Given
  {
    if peers == [] then Given(None, None, None, None) else
    var g, p := GivenBy(peers[..|peers| - 1], key), peers[|peers| - 1];
    if p.key != key then g else
    Given(if p.psk.Some? then p.psk else g.psk, if p.endpoint.Some? then p.endpoint else g.endpoint,
          if p.keepalive.Some? then p.keepalive else g.keepalive, if p.awg.Some? then p.awg else g.awg)
  }

  /** The scalars of an entry with what is given put over them. */
  ghost predicate Overlaid(after: Entry, before: Entry, g: Given)
  {
    && after.psk == (if g.psk.Some? then g.psk else before.psk)
    && after.endpoint == (if g.endpoint.Some? then g.endpoint else before.endpoint)
    && after.keepalive == (if g.keepalive.Some? then g.keepalive.value else before.keepalive)
    && after.awg == (if g.awg.Some? then g.awg.value else before.awg)
  }

  lemma {:induction false} ScalarsAfter(t: Table, peers: seq<Peer>, key: seq<uint8>)
    requires forall p | p in peers :: !p.remove
    requires key in t || key in Keys(peers)
    ensures key in ApplyPeers(t, peers) && Overlaid(ApplyPeers(t, peers)[key], Lookup(t, key), GivenBy(peers, key))
    decreases |peers|
  {
    if peers != [] {
      var init, p := peers[..|peers| - 1], peers[|peers| - 1];
      assert peers == init + [p];
      assert Keys(peers) == Keys(init) + {p.key};
      var u := ApplyPeers(t, init);
      if key in t || key in Keys(init) {
        ScalarsAfter(t, init, key);
      } else {
        NotGiven(t, init, key);
      }
      hide ApplyPeers, Keys, AddIps;
      var v := u[p.key := Update(Lookup(u, p.key), p)];
      AddIpsKeeps(v, p.key, p.ips, key);
    } else {
      assert Keys(peers) == {};
    }
  }

  lemma {:induction false} NotGiven(t: Table, peers: seq<Peer>, key: seq<uint8>)
    requires key !in Keys(peers) && key !in t && forall p | p in peers :: !p.remove
    ensures key !in ApplyPeers(t, peers) && GivenBy(peers, key) == Given(None, None, None, None)
    decreases |peers|
  {
    if peers != [] {
      var init, p := peers[..|peers| - 1], peers[|peers| - 1];
      assert peers == init + [p];
      assert Keys(peers) == Keys(init) + {p.key};
      NotGiven(t, init, key);
      hide ApplyPeers, Keys, AddIps;
      var u := ApplyPeers(t, init);
      AddIpsKeys(u[p.key := Update(Lookup(u, p.key), p)], p.key, p.ips);
    }
  }

  lemma {:induction false} AddIpsKeys(t: Table, key: seq<uint8>, ips: seq<Ip>)
    ensures AddIps(t, key, ips).Keys == t.Keys
    decreases |ips|
  {
    if ips != [] {
      AddIpsKeys(t, key, ips[..|ips| - 1]);
      hide Without;
    }
  }

  /** The synced device: removals in front, and behind them the peers of the file as they are. */
  lemma {:induction false} SyncedPeers(file: Device, runtime: seq<Peer>)
    ensures var s := Synced(file, runtime);
            && s.name == file.name && s.settings == file.settings && |s.peers| >= |file.peers|
            && s.peers[|s.peers| - |file.peers|..] == file.peers
            && forall i :: 0 <= i < |s.peers| - |file.peers| ==>
                 s.peers[i] == Peer(s.peers[i].key, true, false, None, None, None, None, [])
  {
    if file.peers != [] && runtime != [] {
      var a := Entries(file.peers, runtime);
      RemovalsAre(a, |a|, []);
      hide Entries;
      var r := Removals(a, |a|);
      hide Removals;
      forall i | 0 <= i < |r| ensures (r + file.peers)[i] == Removal(r[i].key) {
        assert r[i] in r;
      }
    }
  }

  /**
   The scalars after a sync: what the file gives, over what the interface had.  A peer that is new, or
   that the runtime lists twice and is removed first, starts from nothing.
   */
  lemma {:induction false} SyncedScalars(conf: Config, file: Device, runtime: seq<Peer>, k: seq<uint8>)
    requires file.peers != [] && runtime != [] && conf.peers.Keys == Keys(runtime)
    requires forall p | p in file.peers :: !p.remove
    requires k in Keys(file.peers)
    ensures var sync := Apply(conf, Synced(file, runtime));
            && k in sync.peers
            && Overlaid(sync.peers[k], if k in conf.peers && !Repeats(runtime, k) then conf.peers[k] else NEW_PEER,
                        GivenBy(file.peers, k))
  {
    var a := Entries(file.peers, runtime);
    var removals := Removals(a, |a|);
    assert forall p | p in removals :: p.remove by { RemovalsAre(a, |a|, []); }
    ApplyRemovals(conf.peers, removals);
    ApplyPeersSplit(conf.peers, removals, file.peers);
    var t := conf.peers - Keys(removals);
    ScalarsAfter(t, file.peers, k);
    SyncRemoves(file.peers, runtime, k);
    RemovalKey(a, k);
    hide ApplyPeers, Removals, Entries, Repeats, Keys, GivenBy, Overlaid;
  }

  lemma {:induction false} RemovalKey(a: seq<Origin>, k: seq<uint8>)
    ensures k in Keys(Removals(a, |a|)) <==> Removal(k) in Removals(a, |a|)
  {
    RemovalsAre(a, |a|, k);
    hide Removals;
    var r := Removals(a, |a|);
    assert Removal(k) in r ==> Removal(k).key in Keys(r);
  }

  /** A shared key that the runtime lists twice is removed and then added again. */
  lemma {:induction false} DoubledKey(p: Peer)
    ensures var a := Entries([p], [p, p]); Removal(p.key) in Removals(a, |a|)
  {
    var runtime := [p, p];
    assert p in runtime && p.key in Keys(runtime);
    assert Repeats(runtime, p.key) by { assert runtime[0].key == p.key && runtime[1].key == p.key; }
    hide Entries, Removals, Repeats, Keys;
    SyncRemoves([p], runtime, p.key);
  }
}
