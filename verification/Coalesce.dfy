/** coalesce_peers of src/ipc-linux.h: adjacent fragments of a peer become one peer again. */
module Coalesce {
  import opened Machine
  import opened Netlink
  import opened Wireguard
  import opened Wrappers
  import opened Receiver
  import opened GetDevice
  import SD = SetDevice

  /** One more parsed peer: with the key of the last one it only adds allowed IPs. */
  function Join(acc: seq<Found>, f: Found): seq<Found>
  {
    if acc != [] && acc[|acc| - 1].peer.key == f.peer.key then
      acc[..|acc| - 1] + [Found(acc[|acc| - 1].peer, acc[|acc| - 1].ips + f.ips)]
    else acc + [f]
  }

  function Joined(list: seq<Found>): seq<Found>
  {
    if list == [] then [] else Join(Joined(list[..|list| - 1]), list[|list| - 1])
  }

  lemma {:induction false} JoinedMore(list: seq<Found>, f: Found)
    ensures Joined(list + [f]) == Join(Joined(list), f)
  {
    assert (list + [f])[..|list|] == list;
    hide Join;
  }

  lemma {:induction false} TakeMore<T>(s: seq<T>, n: nat)
    requires n < |s|
    ensures s[..n + 1] == s[..n] + [s[n]] && (n + 1 == |s| ==> s == s[..n] + [s[n]])
  {
  }

  /** No fragment but the first of a run is empty. */
  ghost predicate NoGap(list: seq<Found>)
  {
    forall n :: 0 < n < |list| ==> !EmptyContinuation(list, n)
  }

  ghost predicate EmptyContinuation(list: seq<Found>, n: nat)
    requires 0 < n < |list|
  {
    list[n].peer.key == list[n - 1].peer.key && list[n].ips == []
  }

  lemma {:induction false} NoGapMore(list: seq<Found>, f: Found)
    requires NoGap(list) && (list != [] && list[|list| - 1].peer.key == f.peer.key ==> f.ips != [])
    ensures NoGap(list + [f])
  {
    var more := list + [f];
    forall n | 0 < n < |more| ensures !EmptyContinuation(more, n) {
      if n < |list| { assert !EmptyContinuation(list, n); }
    }
  }

  // ----- fragments of a device -----

  /** The peers before i, and of peer i the allowed IPs before the cursor. */
  function Prefix(peers: seq<Peer>, i: nat, c: Option<nat>): seq<Found>
    requires SD.ValidCursor(peers, i, c)
  {
    FoundsOf(peers[..i]) + if c.Some? then [FoundOf(Head(peers[i], c.value))] else []
  }

  ghost predicate AdjacentDiffer(peers: seq<Peer>)
  {
    forall n :: 0 < n < |peers| ==> NewKey(peers, n)
  }

  ghost predicate NewKey(peers: seq<Peer>, n: nat)
    requires 0 < n < |peers|
  {
    peers[n].key != peers[n - 1].key
  }

  /** The parsed fragments up to a cursor position join to the peers up to there. */
  ghost predicate Rebuilds(list: seq<Found>, peers: seq<Peer>, i: nat, c: Option<nat>)
    requires SD.ValidCursor(peers, i, c)
  {
    && Joined(list) == Prefix(peers, i, c) && NoGap(list)
    && (list == [] <==> i == 0 && c == None)
    && (list != [] ==> list[|list| - 1].peer.key == Some(if c.Some? then peers[i].key else peers[i - 1].key))
  }

  lemma {:induction false} PrefixWhole(peers: seq<Peer>, i: nat)
    requires i < |peers|
    ensures Prefix(peers, i, Some(|peers[i].ips|)) == Prefix(peers, i + 1, None)
  {
    var p := peers[i];
    assert Head(p, |p.ips|) == p by { assert p.ips[..|p.ips|] == p.ips; }
    assert FoundsOf(peers[..i + 1]) == FoundsOf(peers[..i]) + [FoundOf(p)] by {
      assert peers[..i + 1] == peers[..i] + [p];
    }
    hide FoundsOf, FoundOf;
  }

  lemma {:induction false} PrefixJoin(peers: seq<Peer>, i: nat, c: Option<nat>, k: nat)
    requires SD.ValidCursor(peers, i, c) && i < |peers| && AdjacentDiffer(peers)
    requires SD.Start(c) <= k <= |peers[i].ips|
    ensures Join(Prefix(peers, i, c), FoundOf(SD.Fragment(peers[i], c, k))) == Prefix(peers, i, Some(k))
  {
    var p, done := peers[i], FoundsOf(peers[..i]);
    if c.Some? {
      var v := c.value;
      assert p.ips[..v] + p.ips[v..k] == p.ips[..k];
      var h := FoundOf(Head(p, v));
      assert (done + [h])[..|done|] == done;
      assert Found(h.peer, h.ips + p.ips[v..k]) == FoundOf(Head(p, k));
      assert h.peer.key == FoundOf(SD.Fragment(p, c, k)).peer.key;
      assert FoundOf(SD.Fragment(p, c, k)).ips == p.ips[v..k];
    } else {
      assert done + [] == done;
      if i > 0 {
        assert NewKey(peers, i);
        assert done[i - 1] == FoundOf(peers[i - 1]);
      }
    }
  }

  lemma {:induction false} RebuildsMore(list: seq<Found>, peers: seq<Peer>, i: nat, c: Option<nat>, k: nat)
    requires SD.AtPeer(peers, i, c) && i < |peers| && AdjacentDiffer(peers) && Rebuilds(list, peers, i, c)
    requires SD.Start(c) <= k <= |peers[i].ips| && (c.Some? ==> c.value < k)
    ensures Rebuilds(list + [FoundOf(SD.Fragment(peers[i], c, k))], peers, i, Some(k))
    ensures k == |peers[i].ips| ==> Rebuilds(list + [FoundOf(SD.Fragment(peers[i], c, k))], peers, i + 1, None)
  {
    hide Prefix, FoundOf, SD.Fragment, Join, NoGap, Joined, AdjacentDiffer;
    var f := FoundOf(SD.Fragment(peers[i], c, k));
    FragmentFound(peers[i], c, k);
    PrefixJoin(peers, i, c, k);
    PrefixWhole(peers, i);
    JoinedMore(list, f);
    assert i > 0 ==> NewKey(peers, i) by { if i > 0 { KeysDiffer(peers, i); } }
    NoGapMore(list, f);
  }

  lemma {:induction false} KeysDiffer(peers: seq<Peer>, n: nat)
    requires AdjacentDiffer(peers) && 0 < n < |peers|
    ensures NewKey(peers, n)
  {
  }

  lemma {:induction false} FragmentFound(p: Peer, c: Option<nat>, k: nat)
    requires SD.Start(c) <= k <= |p.ips|
    ensures var f := FoundOf(SD.Fragment(p, c, k));
            f.peer.key == Some(p.key) && (c.Some? && c.value < k ==> f.ips != [])
  {
  }

  /** The fragments of one message carry the rebuilding from its first position to its last. */
  lemma {:induction false} SliceRebuilds(list: seq<Found>, peers: seq<Peer>, i0: nat, c0: Option<nat>, i: nat,
                                         c: Option<nat>)
    requires SD.Runs(peers, i0, c0, i, c) && SD.AtPeer(peers, i0, c0) && SD.AtPeer(peers, i, c)
    requires AdjacentDiffer(peers) && Rebuilds(list, peers, i0, c0)
    ensures Rebuilds(list + FoundsOf(SD.Slice(peers, i0, c0, i, c)), peers, i, c)
    decreases i, c.Some?
  {
    hide Rebuilds, AdjacentDiffer, SD.Slice, FoundsOf, FoundOf, SD.Fragment;
    if i == i0 && c == c0 {
      SD.SliceNone(peers, i, c);
      FoundsNone();
      assert list + [] == list;
    } else {
      var at := if c.Some? then i else i - 1;
      var from, k := SD.CursorAt(i0, c0, at), if c.Some? then c.value else |peers[at].ips|;
      if at != i0 {
        SliceRebuilds(list, peers, i0, c0, at, None);
      } else {
        SD.SliceNone(peers, i0, c0);
        FoundsNone();
        assert list + [] == list;
      }
      SD.SliceMore(peers, i0, c0, at, i, c);
      var init := SD.Slice(peers, i0, c0, at, from);
      FoundsMore(init, SD.Fragment(peers[at], from, k));
      RebuildsMore(list + FoundsOf(init), peers, at, from, k);
      Regroup(list, FoundsOf(init), [FoundOf(SD.Fragment(peers[at], from, k))]);
    }
  }

  lemma {:induction false} FoundsNone()
    ensures FoundsOf([]) == []
  {
  }

  lemma {:induction false} FoundsMore(peers: seq<Peer>, p: Peer)
    ensures FoundsOf(peers + [p]) == FoundsOf(peers) + [FoundOf(p)]
  {
    hide FoundOf;
  }

  lemma {:induction false} ParseMore(sent: seq<seq<uint8>>, message: seq<uint8>, init: seq<Found>, found: seq<Found>)
    requires Parse(sent) == Some(init)
    requires |message| >= HEADERS && DeviceFrom(Walk(message[HEADERS..])) == Some(found)
    ensures Parse(sent + [message]) == Some(init + found)
  {
    assert (sent + [message])[..|sent|] == sent;
    hide DeviceFrom, Walk;
  }

  /** The fragments of all messages up to a cut. */
  ghost function Fragments(dev: Device, cuts: seq<SD.Cut>): seq<Peer>
    requires Chained(dev, cuts)
  {
    if cuts == [] then [] else
    var n := |cuts| - 1;
    var from := Before(cuts, n);
    Fragments(dev, cuts[..n]) + SD.Slice(dev.peers, from.peer, from.cursor, cuts[n].peer, cuts[n].cursor)
  }

  /** Where message n starts. */
  ghost function Before(cuts: seq<SD.Cut>, n: nat): SD.Cut
    requires n <= |cuts|
  {
    if n == 0 then SD.Cut(0, None) else cuts[n - 1]
  }

  ghost predicate Chained(dev: Device, cuts: seq<SD.Cut>)
    decreases |cuts|
  {
    cuts != [] ==>
      var n := |cuts| - 1;
      var from, to := Before(cuts, n), cuts[n];
      && Chained(dev, cuts[..n])
      && SD.AtPeer(dev.peers, from.peer, from.cursor) && SD.AtPeer(dev.peers, to.peer, to.cursor)
      && SD.Runs(dev.peers, from.peer, from.cursor, to.peer, to.cursor)
  }

  /** Parsing the messages of a device yields its fragments, and these join to its peers. */
  lemma {:induction false} TranscriptRebuilds(sent: seq<seq<uint8>>, cuts: seq<SD.Cut>, dev: Device, i: nat,
                                              c: Option<nat>)
    requires ValidDevice(dev) && SD.Transcript(sent, cuts, dev, i, c)
    ensures Chained(dev, cuts) && Parse(sent) == Some(FoundsOf(KeptAll(Fragments(dev, cuts))))
    ensures AdjacentDiffer(dev.peers) ==> Rebuilds(FoundsOf(Fragments(dev, cuts)), dev.peers, i, c)
    decreases |sent|
  {
    hide ValidDevice, Rebuilds, Parse, AdjacentDiffer, SD.Slice, SD.Encodes, SD.Runs, SD.AtPeer, FoundsOf, KeptAll;
    var n := |sent| - 1;
    TakeMore(sent, n);
    if n == 0 {
      RebuildsNone(dev.peers);
      assert cuts[..0] == [];
      MessageRebuilds([], [], dev, dev, 0, None, sent[0], i, c);
    } else {
      var last := cuts[n - 1];
      assert cuts[..n][n - 1] == last;
      TranscriptRebuilds(sent[..n], cuts[..n], dev, last.peer, last.cursor);
      MessageRebuilds(sent[..n], Fragments(dev, cuts[..n]), dev, SD.Bare(dev), last.peer, last.cursor, sent[n], i, c);
    }
  }

  lemma {:induction false} RebuildsNone(peers: seq<Peer>)
    ensures SD.AtPeer(peers, 0, None) && Rebuilds(FoundsOf([]), peers, 0, None)
    ensures Parse([]) == Some(FoundsOf(KeptAll([])))
  {
    FoundsNone();
    assert KeptAll([]) == [];
    assert peers[..0] == [];
  }

  lemma {:induction false} MessageRebuilds(sent: seq<seq<uint8>>, frags: seq<Peer>, dev: Device, part: Device,
                                           i0: nat, c0: Option<nat>, message: seq<uint8>, i: nat, c: Option<nat>)
    requires ValidDevice(dev)
    requires SD.AtPeer(dev.peers, i0, c0) && SD.AtPeer(dev.peers, i, c) && SD.Runs(dev.peers, i0, c0, i, c)
    requires SD.Encodes(message, part, SD.Slice(dev.peers, i0, c0, i, c))
    requires Parse(sent) == Some(FoundsOf(KeptAll(frags)))
    requires AdjacentDiffer(dev.peers) ==> Rebuilds(FoundsOf(frags), dev.peers, i0, c0)
    ensures var all := frags + SD.Slice(dev.peers, i0, c0, i, c);
            && Parse(sent + [message]) == Some(FoundsOf(KeptAll(all)))
            && (AdjacentDiffer(dev.peers) ==> Rebuilds(FoundsOf(all), dev.peers, i, c))
  {
    hide SD.Encodes, SD.Slice, Rebuilds, Parse, FoundsOf, KeptAll, DeviceFrom, Walk, AdjacentDiffer, ValidPeer;
    var more := SD.Slice(dev.peers, i0, c0, i, c);
    SD.SliceValid(dev.peers, i0, c0, i, c);
    MessageParsed(message, part, more);
    ParseMore(sent, message, FoundsOf(KeptAll(frags)), FoundsOf(KeptAll(more)));
    FoundsConcat(frags, more);
    if AdjacentDiffer(dev.peers) {
      SliceRebuilds(FoundsOf(frags), dev.peers, i0, c0, i, c);
    }
  }

  lemma {:induction false} FoundsConcat(a: seq<Peer>, b: seq<Peer>)
    ensures FoundsOf(a + b) == FoundsOf(a) + FoundsOf(b)
    ensures FoundsOf(KeptAll(a + b)) == FoundsOf(KeptAll(a)) + FoundsOf(KeptAll(b))
  {
    hide FoundOf, Kept;
  }

  /** Every prefix length in a fragment fits its address, except perhaps the last. */
  ghost predicate AllHeard(frags: seq<Peer>)
  {
    forall n :: 0 <= n < |frags| ==> FitsButLast(frags[n].ips)
  }

  ghost predicate AllValid(frags: seq<Peer>)
  {
    forall n :: 0 <= n < |frags| ==> ValidIps(frags[n].ips)
  }

  lemma {:induction false} KeptNoGap(frags: seq<Peer>)
    requires NoGap(FoundsOf(frags))
    ensures NoGap(FoundsOf(KeptAll(frags)))
  {
    var list, kept := FoundsOf(frags), FoundsOf(KeptAll(frags));
    forall n | 0 < n < |kept| ensures !EmptyContinuation(kept, n) {
      assert !EmptyContinuation(list, n);
      HeardIs(frags[n].ips);
    }
  }

  lemma {:induction false} KeptWhole(frags: seq<Peer>)
    requires AllHeard(frags) && AllValid(frags)
    ensures KeptAll(frags) == frags
  {
    forall n | 0 <= n < |frags| ensures Kept(frags[n]) == frags[n] {
      HeardFits(frags[n].ips);
    }
    hide Kept;
  }

  /** A fragment that is cut short loses allowed IPs for good. */
  lemma {:induction false} KeptFewer(frags: seq<Peer>)
    requires AllValid(frags)
    ensures |AllIps(FoundsOf(KeptAll(frags)))| <= |AllIps(FoundsOf(frags))|
    ensures !AllHeard(frags) ==> |AllIps(FoundsOf(KeptAll(frags)))| < |AllIps(FoundsOf(frags))|
    decreases |frags|
  {
    if frags != [] {
      var n := |frags| - 1;
      var init, q := frags[..n], frags[n];
      TakeMore(frags, n);
      KeptFewer(init);
      HeardIs(q.ips);
      HeardFits(q.ips);
      FoundsConcat(init, [q]);
      var list, kept := FoundsOf(frags), FoundsOf(KeptAll(frags));
      assert list[..n] == FoundsOf(init) && kept[..n] == FoundsOf(KeptAll(init));
      assert list[n].ips == q.ips && kept[n].ips == Heard(q.ips).ips;
      hide Heard, FoundsOf, KeptAll, GoodButLast, FitsButLast;
    }
  }

  /**
   Setting a device and reading it back: the messages of a device, taken by the parser of
   kernel_get_device and coalesced, give its peers exactly if no allowed IP whose prefix length
   exceeds its address stands in front of another one in its fragment.  The list never trips the merge.
   */
  lemma {:induction false} SetThenGet(sent: seq<seq<uint8>>, cuts: seq<SD.Cut>, dev: Device)
    requires ValidDevice(dev) && SD.Transcript(sent, cuts, dev, |dev.peers|, None) && AdjacentDiffer(dev.peers)
    ensures Chained(dev, cuts) && Parse(sent) == Some(FoundsOf(KeptAll(Fragments(dev, cuts))))
    ensures NoGap(Parse(sent).value)
    ensures Joined(Parse(sent).value) == FoundsOf(dev.peers) <==> AllHeard(Fragments(dev, cuts))
  {
    TranscriptRebuilds(sent, cuts, dev, |dev.peers|, None);
    assert dev.peers[..|dev.peers|] == dev.peers;
    assert FoundsOf(dev.peers) + [] == FoundsOf(dev.peers);
    hide ValidDevice, Parse, Joined, NoGap, FoundsOf, KeptAll, AdjacentDiffer, SD.Transcript, AllHeard;
    var frags := Fragments(dev, cuts);
    KeptNoGap(frags);
    FragmentsValid(dev, cuts);
    hide AllValid;
    if AllHeard(frags) {
      KeptWhole(frags);
    } else {
      KeptFewer(frags);
      JoinedKeeps(FoundsOf(frags));
      JoinedKeeps(FoundsOf(KeptAll(frags)));
    }
  }

  /** Every device whose prefix lengths fit their addresses is read back as it was set. */
  lemma {:induction false} Restored(sent: seq<seq<uint8>>, cuts: seq<SD.Cut>, dev: Device)
    requires ValidDevice(dev) && SD.Transcript(sent, cuts, dev, |dev.peers|, None) && AdjacentDiffer(dev.peers)
    requires forall n, k :: 0 <= n < |dev.peers| && 0 <= k < |dev.peers[n].ips| ==>
               var ip := dev.peers[n].ips[k]; |ip.addr| > 0 && ip.cidr <= 8 * |ip.addr|
    ensures Parse(sent).Some? && Joined(Parse(sent).value) == FoundsOf(dev.peers)
  {
    assert forall n, k :: 0 <= n < |dev.peers| && 0 <= k < |dev.peers[n].ips| ==> PrefixFits(dev.peers[n].ips[k]);
    hide ValidDevice, Parse, Joined, FoundsOf, AdjacentDiffer, SD.Transcript, AllHeard, PrefixFits, NoGap;
    SetThenGet(sent, cuts, dev);
    GoodDevice(dev, cuts);
  }

  lemma {:induction false} FragmentsValid(dev: Device, cuts: seq<SD.Cut>)
    requires Chained(dev, cuts) && ValidDevice(dev)
    ensures AllValid(Fragments(dev, cuts))
    decreases |cuts|
  {
    hide SD.Slice, SD.Runs, ValidIp, ValidEndpoint, Order;
    if cuts != [] {
      var n := |cuts| - 1;
      var from := Before(cuts, n);
      FragmentsValid(dev, cuts[..n]);
      SD.SliceValid(dev.peers, from.peer, from.cursor, cuts[n].peer, cuts[n].cursor);
    }
  }

  /** Where all prefix lengths fit, every fragment is heard whole. */
  lemma {:induction false} GoodDevice(dev: Device, cuts: seq<SD.Cut>)
    requires Chained(dev, cuts)
    requires forall n, k :: 0 <= n < |dev.peers| && 0 <= k < |dev.peers[n].ips| ==> PrefixFits(dev.peers[n].ips[k])
    ensures AllHeard(Fragments(dev, cuts))
    decreases |cuts|
  {
    if cuts != [] {
      var n := |cuts| - 1;
      var from := Before(cuts, n);
      GoodDevice(dev, cuts[..n]);
      SliceGood(dev.peers, from.peer, from.cursor, cuts[n].peer, cuts[n].cursor);
      hide FitsButLast, SD.Slice;
    }
  }

  lemma {:induction false} SliceGood(peers: seq<Peer>, i0: nat, c0: Option<nat>, i: nat, c: Option<nat>)
    requires SD.Runs(peers, i0, c0, i, c)
    requires forall n, k :: 0 <= n < |peers| && 0 <= k < |peers[n].ips| ==> PrefixFits(peers[n].ips[k])
    ensures AllHeard(SD.Slice(peers, i0, c0, i, c))
    decreases i, c.Some?
  {
    if i == i0 && c == c0 {
      SD.SliceNone(peers, i, c);
    } else {
      var at := if c.Some? then i else i - 1;
      var from, k := SD.CursorAt(i0, c0, at), if c.Some? then c.value else |peers[at].ips|;
      if at != i0 { SliceGood(peers, i0, c0, at, None); } else { SD.SliceNone(peers, i0, c0); }
      SD.SliceMore(peers, i0, c0, at, i, c);
      hide PrefixFits, SD.Slice;
      assert FitsButLast(SD.Fragment(peers[at], from, k).ips);
      hide FitsButLast, SD.Fragment;
    }
  }

  // ----- in place -----

  class IpNode {
    const ip: Ip
    var next: IpNode?

    constructor (ip: Ip)
      ensures this.ip == ip && next == null
    {
      this.ip := ip;
      next := null;
    }
  }

  class PeerNode {
    const peer: Parsed
    var first: IpNode?
    var last: IpNode?
    var next: PeerNode?

    constructor (peer: Parsed)
      ensures this.peer == peer && first == null && last == null && next == null
    {
      this.peer := peer;
      first, last, next := null, null, null;
    }
  }

  /** The peer nodes in list order, all allowed-IP nodes in list order, and where the IPs of each peer begin. */
  datatype Layout = Layout(peers: seq<PeerNode>, ips: seq<IpNode>, bounds: seq<nat>)

  ghost predicate Sound(y: Layout)
  {
    && |y.bounds| == |y.peers| + 1 && y.bounds[|y.peers|] == |y.ips|
    && (forall m, n :: 0 <= m <= n <= |y.peers| ==> y.bounds[m] <= y.bounds[n])
    && (forall m, n :: 0 <= m < n < |y.peers| ==> y.peers[m] != y.peers[n])
    && (forall m, n :: 0 <= m < n < |y.ips| ==> y.ips[m] != y.ips[n])
  }

  function Ips(y: Layout, lo: nat, hi: nat): (r: seq<Ip>)
    requires lo <= hi <= |y.ips|
    ensures |r| == hi - lo
  {
    seq(hi - lo, k requires 0 <= k < hi - lo => y.ips[lo + k].ip)
  }

  /** The list that the nodes stand for. */
  ghost function Contents(y: Layout): (r: seq<Found>)
    requires Sound(y)
    ensures |r| == |y.peers|
  {
    seq(|y.peers|, n requires 0 <= n < |y.peers| => Found(y.peers[n].peer, Ips(y, y.bounds[n], y.bounds[n + 1])))
  }

  /** The mutable fields of all the nodes. */
  datatype Heap = Heap(first: seq<IpNode?>, last: seq<IpNode?>, next: seq<PeerNode?>, link: seq<IpNode?>)

  ghost function Fields(y: Layout): (h: Heap)
    reads y.peers, y.ips
    ensures Fits(y, h)
  {
    Heap(seq(|y.peers|, n requires 0 <= n < |y.peers| reads y.peers => y.peers[n].first),
         seq(|y.peers|, n requires 0 <= n < |y.peers| reads y.peers => y.peers[n].last),
         seq(|y.peers|, n requires 0 <= n < |y.peers| reads y.peers => y.peers[n].next),
         seq(|y.ips|, k requires 0 <= k < |y.ips| reads y.ips => y.ips[k].next))
  }

  ghost predicate Fits(y: Layout, h: Heap)
  {
    |h.first| == |h.last| == |h.next| == |y.peers| && |h.link| == |y.ips|
  }

  ghost predicate Links(y: Layout, h: Heap, k: nat, hi: nat)
    requires Fits(y, h) && k < hi <= |y.ips|
  {
    h.link[k] == if k + 1 < hi then y.ips[k + 1] else null
  }

  /** The nodes lo to hi are one chain. */
  ghost predicate Chain(y: Layout, h: Heap, lo: nat, hi: nat, first: IpNode?)
    requires Fits(y, h) && lo <= hi <= |y.ips|
  {
    && first == (if lo < hi then y.ips[lo] else null)
    && forall k :: lo <= k < hi ==> Links(y, h, k, hi)
  }

  function PeerAt(y: Layout, n: nat): PeerNode?
  {
    if n < |y.peers| then y.peers[n] else null
  }

  /** After the list was merged, the last peer has allowed IPs but its last pointer is null. */
  ghost predicate Stale(list: seq<Found>)
  {
    && |list| > 1 && list[|list| - 1].peer.key == list[|list| - 2].peer.key && list[|list| - 1].ips == []
    && Joined(list) != [] && Joined(list)[|Joined(list)| - 1].ips != []
  }

  /** Merging element n goes through a null last pointer. */
  ghost predicate Trips(list: seq<Found>, n: nat)
    requires 0 < n < |list|
  {
    list[n].peer.key == list[n - 1].peer.key && Stale(list[..n])
  }

  ghost predicate Safe(list: seq<Found>)
  {
    forall n :: 0 < n < |list| ==> !Trips(list, n)
  }

  /** The elements from..to of the original list, now in the node of the first. */
  datatype Segment = Segment(from: nat, to: nat)

  ghost predicate InList(y: Layout, g: Segment)
    requires Sound(y)
  {
    g.from < g.to <= |y.peers|
  }

  /** The node of a segment: its chain, its last pointer, which a stale one has lost, and its link. */
  ghost predicate Holds(y: Layout, h: Heap, g: Segment, stale: bool)
    requires Sound(y) && InList(y, g) && Fits(y, h)
  {
    var lo, hi := y.bounds[g.from], y.bounds[g.to];
    && Chain(y, h, lo, hi, h.first[g.from])
    && h.last[g.from] == (if lo < hi && !stale then y.ips[hi - 1] else null)
    && h.next[g.from] == PeerAt(y, g.to)
  }

  ghost function Value(y: Layout, g: Segment): Found
    requires Sound(y) && InList(y, g)
  {
    Found(y.peers[g.from].peer, Ips(y, y.bounds[g.from], y.bounds[g.to]))
  }

  ghost predicate AllIn(y: Layout, segs: seq<Segment>)
    requires Sound(y)
  {
    forall m :: 0 <= m < |segs| ==> InList(y, segs[m])
  }

  lemma {:induction false} AllInEnds(y: Layout, segs: seq<Segment>, g: Segment)
    requires Sound(y) && |segs| > 0 && AllIn(y, segs) && InList(y, g)
    ensures InList(y, segs[|segs| - 1]) && AllIn(y, segs[..|segs| - 1]) && AllIn(y, segs + [g])
    ensures AllIn(y, segs[..|segs| - 1] + [g])
  {
    hide InList, Sound;
  }

  ghost predicate Contiguous(y: Layout, segs: seq<Segment>, c: nat)
    requires Sound(y)
  {
    && |segs| > 0 && segs[0].from == 0 && segs[|segs| - 1].to == c <= |y.peers|
    && AllIn(y, segs)
    && (forall m, n :: 0 <= m < n < |segs| ==> segs[m].to <= segs[n].from)
    && (forall m :: 0 < m < |segs| ==> Adjacent(segs, m))
  }

  ghost predicate Adjacent(segs: seq<Segment>, m: nat)
    requires 0 < m < |segs|
  {
    segs[m - 1].to == segs[m].from
  }

  ghost function Values(y: Layout, segs: seq<Segment>): (r: seq<Found>)
    requires Sound(y) && AllIn(y, segs)
    ensures |r| == |segs|
  {
    seq(|segs|, m requires 0 <= m < |segs| => Value(y, segs[m]))
  }

  lemma {:induction false} BoundsOrder(y: Layout, m: nat, n: nat)
    requires Sound(y) && m <= n <= |y.peers|
    ensures |y.bounds| == |y.peers| + 1 && y.bounds[m] <= y.bounds[n] <= |y.ips|
  {
  }

  lemma {:induction false} IpsSplit(y: Layout, a: nat, b: nat, c: nat)
    requires a <= b <= c <= |y.ips|
    ensures Ips(y, a, b) + Ips(y, b, c) == Ips(y, a, c)
  {
  }

  lemma {:induction false} ValueMore(y: Layout, g: Segment)
    requires Sound(y) && InList(y, g) && g.to < |y.peers|
    ensures Value(y, Segment(g.from, g.to + 1)) == Found(Value(y, g).peer, Value(y, g).ips + Contents(y)[g.to].ips)
    ensures Value(y, Segment(g.to, g.to + 1)) == Contents(y)[g.to]
    ensures Value(y, g).peer == y.peers[g.from].peer && Contents(y)[g.to].peer == y.peers[g.to].peer
  {
    BoundsOrder(y, g.from, g.to);
    BoundsOrder(y, g.to, g.to + 1);
    IpsSplit(y, y.bounds[g.from], y.bounds[g.to], y.bounds[g.to + 1]);
    hide Ips, Sound;
  }

  lemma {:induction false} ValuesAppend(y: Layout, segs: seq<Segment>, g: Segment)
    requires Sound(y) && AllIn(y, segs) && InList(y, g)
    ensures AllIn(y, segs + [g]) && Values(y, segs + [g]) == Values(y, segs) + [Value(y, g)]
  {
    hide Value, Sound, InList;
  }

  /** Joining element c to a last segment that ends there. */
  lemma {:induction false} ValuesMore(y: Layout, segs: seq<Segment>, c: nat)
    requires Sound(y) && |segs| > 0 && segs[|segs| - 1].to == c < |y.peers|
    requires AllIn(y, segs) && Joined(Contents(y)[..c]) == Values(y, segs)
    ensures var list, g := Contents(y), segs[|segs| - 1];
            && (y.peers[g.from].peer.key == y.peers[c].peer.key ==>
                  AllIn(y, segs[..|segs| - 1] + [Segment(g.from, c + 1)])
                  && Joined(list[..c + 1]) == Values(y, segs[..|segs| - 1] + [Segment(g.from, c + 1)]))
            && (y.peers[g.from].peer.key != y.peers[c].peer.key ==>
                  AllIn(y, segs + [Segment(c, c + 1)])
                  && Joined(list[..c + 1]) == Values(y, segs + [Segment(c, c + 1)]))
  {
    hide Sound, Contents, Value, Values, Joined, AllIn;
    AllInEnds(y, segs, Segment(c, c + 1));
    AllInEnds(y, segs, Segment(segs[|segs| - 1].from, c + 1));
    var list, g, init := Contents(y), segs[|segs| - 1], segs[..|segs| - 1];
    TakeMore(list, c);
    TakeMore(segs, |segs| - 1);
    JoinedMore(list[..c], list[c]);
    ValueMore(y, g);
    ValuesAppend(y, init, g);
    ValuesAppend(y, init, Segment(g.from, c + 1));
    ValuesAppend(y, segs, Segment(c, c + 1));
  }

  /** The list after element j was merged into peer i, whose chain ends in node k - 1. */
  ghost function Merge(h: Heap, i: nat, j: nat, k: nat): Heap
    requires i < |h.first| == |h.last| == |h.next| && j < |h.first| && (h.first[i] != null ==> 0 < k <= |h.link|)
  {
    var last, next := h.last[i := h.last[j]], h.next[i := h.next[j]];
    if h.first[i] == null then Heap(h.first[i := h.first[j]], last, next, h.link)
    else Heap(h.first, last, next, h.link[k - 1 := h.first[j]])
  }

  /** The body of the loop for two peers of one key; not ok where the source follows a null pointer. */
  method MergeNext(ghost y: Layout, ghost i: nat, ghost j: nat, ghost k: nat, peer: PeerNode) returns (ok: bool)
    requires Sound(y) && i < j < |y.peers| && peer == y.peers[i] && peer.next == y.peers[j]
    requires peer.first != null ==> 0 < k <= |y.ips| && (peer.last != null ==> peer.last == y.ips[k - 1])
    modifies y.peers, y.ips
    ensures ok == old(peer.first == null || peer.last != null)
    ensures ok ==> Fields(y) == Merge(old(Fields(y)), i, j, k)
  {
    var other := peer.next;
    ok := true;
    if peer.first == null {
      peer.first, peer.last := other.first, other.last;
    } else if peer.last == null {
      ok := false;
      return;
    } else {
      peer.last.next := other.first;
      peer.last := other.last;
    }
    peer.next := other.next;
  }

  lemma {:induction false} MergeHolds(y: Layout, h: Heap, g: Segment, stale: bool)
    requires Sound(y) && Fits(y, h) && InList(y, g) && g.to < |y.peers|
    requires Holds(y, h, g, stale) && Untouched(y, h, g.to) && (stale ==> y.bounds[g.from] == y.bounds[g.to])
    ensures y.bounds[g.from] < y.bounds[g.to] ==> 0 < y.bounds[g.to] <= |h.link|
    ensures var m, more := Merge(h, g.from, g.to, y.bounds[g.to]), Segment(g.from, g.to + 1);
            Fits(y, m) && Holds(y, m, more, y.bounds[g.from] < y.bounds[g.to] == y.bounds[g.to + 1])
  {
    var lo, mid, hi := y.bounds[g.from], y.bounds[g.to], y.bounds[g.to + 1];
    BoundsOrder(y, g.from, g.to);
    BoundsOrder(y, g.to, g.to + 1);
    hide Sound;
    var m := Merge(h, g.from, g.to, mid);
    forall k | lo <= k < hi ensures Links(y, m, k, hi) {
      if k < mid { assert Links(y, h, k, mid); } else { assert Links(y, h, k, hi); }
    }
  }

  lemma {:induction false} MergeKeeps(y: Layout, h: Heap, g: Segment, stale: bool, s: Segment, other: bool)
    requires Sound(y) && Fits(y, h) && InList(y, g) && g.to < |y.peers| && Holds(y, h, g, stale)
    requires InList(y, s) && (s.to <= g.from || g.to < s.from) && Holds(y, h, s, other)
    ensures y.bounds[g.from] < y.bounds[g.to] ==> 0 < y.bounds[g.to] <= |h.link|
    ensures var m := Merge(h, g.from, g.to, y.bounds[g.to]); Fits(y, m) && Holds(y, m, s, other)
  {
    BoundsOrder(y, g.from, g.to);
    BoundsOrder(y, s.from, s.to);
    if s.to <= g.from { BoundsOrder(y, s.to, g.from); } else { BoundsOrder(y, g.to, s.from); }
    hide Sound;
    var m := Merge(h, g.from, g.to, y.bounds[g.to]);
    forall k | y.bounds[s.from] <= k < y.bounds[s.to] ensures Links(y, m, k, y.bounds[s.to]) {
      assert Links(y, h, k, y.bounds[s.to]);
    }
  }

  /** Peer n as the parser left it. */
  ghost predicate Untouched(y: Layout, h: Heap, n: nat)
    requires Sound(y) && Fits(y, h) && n < |y.peers|
  {
    Holds(y, h, Segment(n, n + 1), false)
  }

  ghost predicate HoldsAll(y: Layout, h: Heap, segs: seq<Segment>)
    requires Sound(y) && Fits(y, h)
  {
    forall m :: 0 <= m < |segs| ==> InList(y, segs[m]) && Holds(y, h, segs[m], Stale(Contents(y)[..segs[m].to]))
  }

  /** The state of the loop before element c. */
  ghost predicate Reached(y: Layout, h: Heap, segs: seq<Segment>, c: nat)
    requires Sound(y) && Fits(y, h)
  {
    && Contiguous(y, segs, c) && HoldsAll(y, h, segs)
    && (forall n :: c <= n < |y.peers| ==> Untouched(y, h, n))
    && Joined(Contents(y)[..c]) == Values(y, segs)
    && y.peers[segs[|segs| - 1].from].peer.key == y.peers[c - 1].peer.key
    && (forall n :: 0 < n < c ==> !Trips(Contents(y), n))
  }

  /** A list whose last segment joined element c is stale exactly if that added nothing to something. */
  lemma {:induction false} StaleMore(y: Layout, segs: seq<Segment>, c: nat)
    requires Sound(y) && |segs| > 0 && segs[|segs| - 1].to == c + 1 && 0 < c < |y.peers|
    requires AllIn(y, segs) && Joined(Contents(y)[..c + 1]) == Values(y, segs)
    ensures var lo, mid, hi := y.bounds[segs[|segs| - 1].from], y.bounds[c], y.bounds[c + 1];
            Stale(Contents(y)[..c + 1]) <==> y.peers[c].peer.key == y.peers[c - 1].peer.key && lo < mid == hi
  {
    hide Joined, Sound, Values, Contents, Stale, Value;
    var list, g := Contents(y), segs[|segs| - 1];
    BoundsOrder(y, g.from, c);
    BoundsOrder(y, c, c + 1);
    ContentsAt(y, c - 1);
    ContentsAt(y, c);
    ValuesLast(y, segs);
    StaleOf(list[..c + 1], Joined(list[..c + 1]));
  }

  lemma {:induction false} ContentsAt(y: Layout, n: nat)
    requires Sound(y) && n < |y.peers|
    ensures Contents(y)[n].peer == y.peers[n].peer && |Contents(y)[n].ips| == y.bounds[n + 1] - y.bounds[n]
  {
    BoundsOrder(y, n, n + 1);
  }

  lemma {:induction false} ValuesLast(y: Layout, segs: seq<Segment>)
    requires Sound(y) && |segs| > 0 && AllIn(y, segs)
    ensures var g := segs[|segs| - 1];
            |Values(y, segs)[|segs| - 1].ips| == y.bounds[g.to] - y.bounds[g.from]
  {
    BoundsOrder(y, segs[|segs| - 1].from, segs[|segs| - 1].to);
    assert Values(y, segs)[|segs| - 1] == Value(y, segs[|segs| - 1]) by { hide Value; }
  }

  lemma {:induction false} StaleOf(list: seq<Found>, joined: seq<Found>)
    requires |list| > 1 && joined == Joined(list) && joined != []
    ensures var n := |list| - 1;
            Stale(list) <==>
              list[n].peer.key == list[n - 1].peer.key && |list[n].ips| == 0 && |joined[|joined| - 1].ips| > 0
  {
    hide Joined;
  }

  lemma {:induction false} ContiguousAppend(y: Layout, segs: seq<Segment>, c: nat)
    requires Sound(y) && Contiguous(y, segs, c) && c < |y.peers|
    ensures Contiguous(y, segs + [Segment(c, c + 1)], c + 1)
  {
    hide Sound;
    var more := segs + [Segment(c, c + 1)];
    forall m | 0 <= m < |more| ensures InList(y, more[m]) {
      if m < |segs| { assert InList(y, segs[m]); }
    }
    forall m | 0 < m < |more| ensures Adjacent(more, m) {
      if m < |segs| { assert Adjacent(segs, m); }
    }
  }

  lemma {:induction false} ContiguousGrow(y: Layout, segs: seq<Segment>, c: nat)
    requires Sound(y) && Contiguous(y, segs, c) && c < |y.peers|
    ensures Contiguous(y, segs[..|segs| - 1] + [Segment(segs[|segs| - 1].from, c + 1)], c + 1)
  {
    hide Sound;
    var n := |segs| - 1;
    var more := segs[..n] + [Segment(segs[n].from, c + 1)];
    assert InList(y, segs[n]);
    forall m | 0 <= m < |more| ensures InList(y, more[m]) {
      if m < n { assert InList(y, segs[m]); }
    }
    forall m | 0 < m < |more| ensures Adjacent(more, m) {
      assert Adjacent(segs, m);
    }
  }

  lemma {:induction false} NoTrip(y: Layout, c: nat)
    requires Sound(y) && 0 < c < |y.peers| && (forall n :: 0 < n < c ==> !Trips(Contents(y), n))
    requires y.peers[c].peer.key != y.peers[c - 1].peer.key || !Stale(Contents(y)[..c])
    ensures forall n :: 0 < n < c + 1 ==> !Trips(Contents(y), n)
  {
    ContentsAt(y, c);
    ContentsAt(y, c - 1);
    hide Sound, Contents, Stale;
    assert !Trips(Contents(y), c);
    hide Trips;
  }

  lemma {:induction false} HoldsAllMore(y: Layout, h: Heap, segs: seq<Segment>, g: Segment)
    requires Sound(y) && Fits(y, h) && HoldsAll(y, h, segs) && InList(y, g)
             && Holds(y, h, g, Stale(Contents(y)[..g.to]))
    ensures HoldsAll(y, h, segs + [g])
  {
    hide Holds, Sound, InList, Contents, Stale;
  }

  /** The next peer has another key. */
  lemma {:induction false} Advance(y: Layout, h: Heap, segs: seq<Segment>, c: nat)
    requires Sound(y) && Fits(y, h) && Reached(y, h, segs, c) && c < |y.peers|
    requires y.peers[segs[|segs| - 1].from].peer.key != y.peers[c].peer.key
    ensures Reached(y, h, segs + [Segment(c, c + 1)], c + 1)
  {
    hide Sound, Contents, Joined, Values, Trips, Holds, HoldsAll, Stale, AllIn, Untouched, Adjacent;
    var g := Segment(c, c + 1);
    ContiguousEnd(y, segs, c);
    ContiguousAppend(y, segs, c);
    hide Contiguous;
    ValuesMore(y, segs, c);
    StaleMore(y, segs + [g], c);
    UntouchedHolds(y, h, c);
    HoldsAllMore(y, h, segs, g);
    NoTrip(y, c);
  }

  lemma {:induction false} UntouchedHolds(y: Layout, h: Heap, c: nat)
    requires Sound(y) && Fits(y, h) && c < |y.peers| && Untouched(y, h, c)
    ensures InList(y, Segment(c, c + 1)) && Holds(y, h, Segment(c, c + 1), false)
  {
    hide Holds;
  }

  lemma {:induction false} ContiguousEnd(y: Layout, segs: seq<Segment>, c: nat)
    requires Sound(y) && Contiguous(y, segs, c)
    ensures |segs| > 0 && segs[|segs| - 1].to == c > 0 && AllIn(y, segs) && InList(y, segs[|segs| - 1])
  {
    hide Sound;
  }

  /** What the code sees of the last segment: it is stale exactly if its last pointer is missing. */
  lemma {:induction false} LastSegment(y: Layout, h: Heap, segs: seq<Segment>, c: nat)
    requires Sound(y) && Fits(y, h) && Reached(y, h, segs, c)
    ensures var g := segs[|segs| - 1];
            && InList(y, g) && g.to == c > 0 && h.next[g.from] == PeerAt(y, c)
            && Holds(y, h, g, Stale(Contents(y)[..c]))
            && (h.first[g.from] == null || h.last[g.from] != null <==> !Stale(Contents(y)[..c]))
            && (Stale(Contents(y)[..c]) ==> y.bounds[g.from] < y.bounds[c])
            && (h.first[g.from] != null ==> 0 < y.bounds[c] <= |y.ips|)
            && (h.last[g.from] != null ==> 0 < y.bounds[c] <= |y.ips| && h.last[g.from] == y.ips[y.bounds[c] - 1])
  {
    hide Contents, Joined, Values, Trips, Untouched, Adjacent;
    var g := segs[|segs| - 1];
    ContiguousEnd(y, segs, c);
    BoundsOrder(y, g.from, c);
    assert Holds(y, h, g, Stale(Contents(y)[..c])) by { hide Holds, Stale; }
    ValuesLast(y, segs);
    hide Sound, AllIn, HoldsAll, Contiguous;
  }

  lemma {:induction false} MergeKeepsAll(y: Layout, h: Heap, segs: seq<Segment>, c: nat)
    requires Sound(y) && Fits(y, h) && Reached(y, h, segs, c) && c < |y.peers|
    requires var g := segs[|segs| - 1]; h.first[g.from] != null ==> 0 < y.bounds[c] <= |h.link|
    ensures var m := Merge(h, segs[|segs| - 1].from, c, y.bounds[c]);
            Fits(y, m) && HoldsAll(y, m, segs[..|segs| - 1]) && forall n :: c < n < |y.peers| ==> Untouched(y, m, n)
  {
    hide Contents, Joined, Values, Trips, Holds, Stale, Sound, Adjacent, Merge;
    var last := |segs| - 1;
    var g := segs[last];
    LastSegment(y, h, segs, c);
    BoundsOrder(y, c, c);
    var m := Merge(h, g.from, c, y.bounds[c]);
    MergeFits(y, h, g.from, c, y.bounds[c]);
    forall a | 0 <= a < last ensures InList(y, segs[a]) && Holds(y, m, segs[a], Stale(Contents(y)[..segs[a].to])) {
      assert segs[a].to <= segs[last].from;
      MergeKeeps(y, h, g, Stale(Contents(y)[..c]), segs[a], Stale(Contents(y)[..segs[a].to]));
    }
    forall n | c < n < |y.peers| ensures Untouched(y, m, n) {
      assert Untouched(y, h, n);
      MergeKeeps(y, h, g, Stale(Contents(y)[..c]), Segment(n, n + 1), false);
    }
  }

  lemma {:induction false} MergeFits(y: Layout, h: Heap, i: nat, j: nat, k: nat)
    requires Fits(y, h) && i < |y.peers| && j < |y.peers| && (h.first[i] != null ==> 0 < k <= |h.link|)
    ensures Fits(y, Merge(h, i, j, k))
  {
  }

  /** The next peer has the same key and the last pointer is there. */
  lemma {:induction false} Absorb(y: Layout, h: Heap, segs: seq<Segment>, c: nat)
    requires Sound(y) && Fits(y, h) && Reached(y, h, segs, c) && c < |y.peers|
    requires y.peers[segs[|segs| - 1].from].peer.key == y.peers[c].peer.key && !Stale(Contents(y)[..c])
    ensures var g := segs[|segs| - 1];
            && (h.first[g.from] != null ==> 0 < y.bounds[c] <= |h.link|)
            && var m := Merge(h, g.from, c, y.bounds[c]);
               Fits(y, m) && Reached(y, m, segs[..|segs| - 1] + [Segment(g.from, c + 1)], c + 1)
  {
    hide Sound, Contents, Joined, Values, Trips, Holds, HoldsAll, Stale, AllIn, Untouched, Adjacent, Merge;
    var init, g := segs[..|segs| - 1], segs[|segs| - 1];
    var more := Segment(g.from, c + 1);
    LastSegment(y, h, segs, c);
    ContiguousEnd(y, segs, c);
    ContiguousGrow(y, segs, c);
    hide Contiguous;
    ValuesMore(y, segs, c);
    StaleMore(y, init + [more], c);
    MergeHolds(y, h, g, false);
    MergeKeepsAll(y, h, segs, c);
    BoundsOrder(y, c, c);
    HoldsAllMore(y, Merge(h, g.from, c, y.bounds[c]), init, more);
    NoTrip(y, c);
  }

  lemma {:induction false} StartReached(y: Layout, h: Heap)
    requires Sound(y) && Fits(y, h) && |y.peers| > 0 && forall n :: 0 <= n < |y.peers| ==> Untouched(y, h, n)
    ensures Reached(y, h, [Segment(0, 1)], 1)
  {
    hide Sound, Holds, Contents, Values, Untouched, Trips, Joined;
    var g, list := Segment(0, 1), Contents(y);
    UntouchedHolds(y, h, 0);
    OneValue(y, h);
    assert |list[..1]| == 1 && !Stale(list[..1]);
    hide Stale;
    HoldsAllMore(y, h, [], g);
    assert [] + [g] == [g];
  }

  lemma {:induction false} OneValue(y: Layout, h: Heap)
    requires Sound(y) && |y.peers| > 0
    ensures AllIn(y, [Segment(0, 1)]) && Joined(Contents(y)[..1]) == Values(y, [Segment(0, 1)])
  {
    var list := Contents(y);
    JoinedMore([], list[0]);
    assert [] + [list[0]] == list[..1] && Joined([]) == [];
    hide Joined, Sound;
    assert Values(y, [Segment(0, 1)]) == [Value(y, Segment(0, 1))] by { hide Value; }
  }

  /**
   The loop.  It runs through without following a null pointer exactly if the list is safe, and
   then the nodes stand for the joined list.
   */
  method CoalescePeers(first: PeerNode?, ghost y: Layout) returns (ok: bool, ghost segs: seq<Segment>)
    requires Sound(y) && first == PeerAt(y, 0) && forall n :: 0 <= n < |y.peers| ==> Untouched(y, Fields(y), n)
    modifies y.peers, y.ips
    ensures ok <==> Safe(Contents(y))
    ensures ok && first == null ==> Contents(y) == []
    ensures ok && first != null ==> Contiguous(y, segs, |y.peers|) && HoldsAll(y, Fields(y), segs)
    ensures ok && first != null ==> Values(y, segs) == Joined(Contents(y))
  {
    hide Sound, Untouched, Fields, Contents, Contiguous, HoldsAll, Joined, Values, AllIn, Trips;
    if first == null {
      ok, segs := true, [];
    } else {
      StartReached(y, Fields(y));
      ok, segs := Run(y, first);
    }
  }

  method Run(ghost y: Layout, first: PeerNode) returns (ok: bool, ghost segs: seq<Segment>)
    requires Sound(y) && |y.peers| > 0 && first == y.peers[0] && Reached(y, Fields(y), [Segment(0, 1)], 1)
    modifies y.peers, y.ips
    ensures ok <==> Safe(Contents(y))
    ensures ok ==>
            Contiguous(y, segs, |y.peers|) && HoldsAll(y, Fields(y), segs) && Values(y, segs) == Joined(Contents(y))
  {
    hide Sound, Reached, Fields, Contents, Safe, Contiguous, HoldsAll, Joined, Values, AllIn;
    var peer := first;
    ghost var c := 1;
    ok, segs := true, [Segment(0, 1)];
    while ok && peer.next != null
      invariant ok ==> Reached(y, Fields(y), segs, c) && At(y, segs, c, peer)
      invariant !ok ==> !Safe(Contents(y))
      decreases |y.peers| - c, ok
    {
      ok, peer, segs := Step(y, segs, c, peer);
      c := c + 1;
    }
    if ok {
      AtEnd(y, segs, c, peer);
      Finished(y, Fields(y), segs);
    }
  }

  lemma {:induction false} AtEnd(y: Layout, segs: seq<Segment>, c: nat, peer: PeerNode)
    requires Sound(y) && Reached(y, Fields(y), segs, c) && At(y, segs, c, peer) && peer.next == null
    ensures c == |y.peers|
  {
    LastSegment(y, Fields(y), segs, c);
    FieldsAt(y, segs[|segs| - 1].from);
    hide Reached, Fields, Holds, Stale, Contents;
  }

  /** The loop stands at the node of the last segment. */
  ghost predicate At(y: Layout, segs: seq<Segment>, c: nat, peer: PeerNode)
    requires Sound(y)
  {
    && |segs| > 0 && 0 < c <= |y.peers| && segs[|segs| - 1].to == c && segs[|segs| - 1].from < c
    && peer == y.peers[segs[|segs| - 1].from]
  }

  /** One round of the loop. */
  method Step(ghost y: Layout, ghost segs: seq<Segment>, ghost c: nat, peer: PeerNode)
    returns (ok: bool, at: PeerNode, ghost more: seq<Segment>)
    requires Sound(y) && Reached(y, Fields(y), segs, c) && At(y, segs, c, peer) && peer.next != null
    modifies y.peers, y.ips
    ensures c < |y.peers|
    ensures ok ==> Reached(y, Fields(y), more, c + 1) && At(y, more, c + 1, at)
    ensures !ok ==> !Safe(Contents(y))
  {
    hide Sound, Reached, Fields, Merge, Contents, Safe, Contiguous, Stale, Holds;
    ghost var g, h := segs[|segs| - 1], Fields(y);
    LastSegment(y, h, segs, c);
    FieldsAt(y, g.from);
    if peer.peer.key != peer.next.peer.key {
      Advance(y, h, segs, c);
      ok, at, more := true, peer.next, segs + [Segment(c, c + 1)];
    } else {
      BoundsOrder(y, c, c);
      ok := MergeNext(y, g.from, c, y.bounds[c], peer);
      at, more := peer, segs[..|segs| - 1] + [Segment(g.from, c + 1)];
      if ok {
        Absorb(y, h, segs, c);
      } else {
        Tripped(y, segs, h, c);
      }
    }
  }

  lemma {:induction false} FieldsAt(y: Layout, n: nat)
    requires n < |y.peers|
    ensures Fields(y).first[n] == y.peers[n].first && Fields(y).last[n] == y.peers[n].last
            && Fields(y).next[n] == y.peers[n].next
  {
  }

  lemma {:induction false} Tripped(y: Layout, segs: seq<Segment>, h: Heap, c: nat)
    requires Sound(y) && Fits(y, h) && Reached(y, h, segs, c) && c < |y.peers| && Stale(Contents(y)[..c])
    requires y.peers[segs[|segs| - 1].from].peer.key == y.peers[c].peer.key
    ensures !Safe(Contents(y))
  {
    ContiguousEnd(y, segs, c);
    ContentsAt(y, c);
    ContentsAt(y, c - 1);
    hide Sound, Contents, Stale, Joined, Values, HoldsAll;
    assert Trips(Contents(y), c);
  }

  lemma {:induction false} Finished(y: Layout, h: Heap, segs: seq<Segment>)
    requires Sound(y) && Fits(y, h) && Reached(y, h, segs, |y.peers|)
    ensures Safe(Contents(y)) && Contiguous(y, segs, |y.peers|) && HoldsAll(y, h, segs)
    ensures Values(y, segs) == Joined(Contents(y))
  {
    hide Sound, Contents, Stale, Joined, Values, HoldsAll, Trips;
    assert Contents(y)[..|y.peers|] == Contents(y);
  }

  /** Where every continuation brings allowed IPs the list is safe and every last pointer is right. */
  lemma {:induction false} NoGapSafe(list: seq<Found>)
    requires NoGap(list)
    ensures Safe(list) && forall n :: 0 <= n <= |list| ==> !Stale(list[..n])
  {
    forall n | 0 <= n <= |list| ensures !Stale(list[..n]) {
      if n > 1 {
        assert !EmptyContinuation(list, n - 1);
        assert list[..n][n - 1] == list[n - 1] && list[..n][n - 2] == list[n - 2];
      }
    }
    hide Stale, Joined;
  }

  // ----- the joined list -----

  function AllIps(list: seq<Found>): seq<(Option<seq<uint8>>, Ip)>
  {
    if list == [] then [] else AllIps(list[..|list| - 1]) + Owned(list[|list| - 1].peer.key, list[|list| - 1].ips)
  }

  /** Every allowed IP with the key it belongs to. */
  function Owned(key: Option<seq<uint8>>, ips: seq<Ip>): seq<(Option<seq<uint8>>, Ip)>
  {
    seq(|ips|, n requires 0 <= n < |ips| => (key, ips[n]))
  }

  ghost predicate NoTwins(list: seq<Found>)
  {
    forall n :: 0 < n < |list| ==> !Twins(list, n)
  }

  ghost predicate Twins(list: seq<Found>, n: nat)
    requires 0 < n < |list|
  {
    list[n].peer.key == list[n - 1].peer.key
  }

  lemma {:induction false} JoinKeeps(acc: seq<Found>, f: Found)
    requires NoTwins(acc)
    ensures NoTwins(Join(acc, f)) && AllIps(Join(acc, f)) == AllIps(acc) + Owned(f.peer.key, f.ips)
    ensures Join(acc, f) != []
  {
    var r := Join(acc, f);
    forall n | 0 < n < |r| ensures !Twins(r, n) {
      if n < |acc| { assert !Twins(acc, n); }
    }
    if acc != [] && acc[|acc| - 1].peer.key == f.peer.key {
      var init, last := acc[..|acc| - 1], acc[|acc| - 1];
      assert r[..|r| - 1] == init;
      assert Owned(last.peer.key, last.ips + f.ips) == Owned(last.peer.key, last.ips) + Owned(last.peer.key, f.ips);
      hide Owned;
      Regroup(AllIps(init), Owned(last.peer.key, last.ips), Owned(last.peer.key, f.ips));
    } else {
      assert r[..|acc|] == acc;
    }
  }

  /** Joining leaves no two neighbours with one key, and keeps every allowed IP, its owner and the order. */
  lemma {:induction false} JoinedKeeps(list: seq<Found>)
    ensures NoTwins(Joined(list)) && AllIps(Joined(list)) == AllIps(list)
  {
    if list == [] {
      assert Joined(list) == [];
    } else {
      JoinedKeeps(list[..|list| - 1]);
      JoinKeeps(Joined(list[..|list| - 1]), list[|list| - 1]);
      hide Join, NoTwins, Owned;
    }
  }

  /** Two empty continuations behind a peer with allowed IPs make the code follow a null pointer. */
  lemma {:induction false} UnsafeExample(p: Parsed, ip: Ip)
    ensures !Safe([Found(p, [ip]), Found(p, []), Found(p, [])])
  {
    var a, b := Found(p, [ip]), Found(p, []);
    JoinedMore([], a);
    JoinedMore([a], b);
    assert Joined([]) == [] && [] + [a] == [a] && [a] + [b] == [a, b];
    hide Joined;
    assert Joined([a]) == [a];
    assert Joined([a, b]) == [Found(p, [ip] + [])];
    hide Join;
    var list := [a, b, b];
    assert list[..2] == [a, b];
    assert Stale([a, b]);
    assert Trips(list, 2);
  }

  // ----- the condition on the input -----

  /** The elements from m to n have one key. */
  ghost predicate OneRun(list: seq<Found>, m: nat, n: nat)
    requires m <= n < |list|
  {
    forall j :: m <= j <= n ==> list[j].peer.key == list[n].peer.key
  }

  /** Some element of the run that ends at n has allowed IPs. */
  ghost predicate RunHasIps(list: seq<Found>, n: nat)
    requires n < |list|
  {
    exists m :: 0 <= m <= n && OneRun(list, m, n) && list[m].ips != []
  }

  /** Element n - 1 is an empty continuation, an earlier element of its run has allowed IPs, and element n goes on. */
  ghost predicate NullStep(list: seq<Found>, n: nat)
    requires 0 < n < |list|
  {
    && n > 1 && list[n].peer.key == list[n - 1].peer.key
    && EmptyContinuation(list, n - 1) && RunHasIps(list, n - 1)
  }

  lemma {:induction false} RunHasIpsMore(list: seq<Found>, n: nat)
    requires n < |list|
    ensures RunHasIps(list, n) <==>
            list[n].ips != [] || (n > 0 && list[n].peer.key == list[n - 1].peer.key && RunHasIps(list, n - 1))
  {
    if list[n].ips != [] { assert OneRun(list, n, n); }
    if n > 0 && list[n].peer.key == list[n - 1].peer.key && RunHasIps(list, n - 1) {
      var m :| 0 <= m <= n - 1 && OneRun(list, m, n - 1) && list[m].ips != [];
      assert OneRun(list, m, n);
    }
    if RunHasIps(list, n) && list[n].ips == [] {
      var m :| 0 <= m <= n && OneRun(list, m, n) && list[m].ips != [];
      assert list[n - 1].peer.key == list[n].peer.key;
      assert OneRun(list, m, n - 1);
    }
  }

  /** The last joined peer has the key of the last element, and the allowed IPs of its run. */
  lemma {:induction false} JoinedLast(list: seq<Found>, n: nat)
    requires n < |list|
    ensures var j := Joined(list[..n + 1]);
            j != [] && j[|j| - 1].peer.key == list[n].peer.key && (j[|j| - 1].ips != [] <==> RunHasIps(list, n))
  {
    hide Joined, RunHasIps;
    RunHasIpsMore(list, n);
    TakeMore(list, n);
    JoinedMore(list[..n], list[n]);
    if n > 0 {
      JoinedLast(list, n - 1);
    } else {
      assert list[..0] == [];
      JoinedNone();
    }
  }

  lemma {:induction false} JoinedNone()
    ensures Joined([]) == []
  {
  }

  lemma {:induction false} TripsInput(list: seq<Found>, n: nat)
    requires 0 < n < |list|
    ensures Trips(list, n) <==> NullStep(list, n)
  {
    hide Joined, RunHasIps;
    JoinedLast(list, n - 1);
    if n > 1 {
      var s := list[..n];
      assert s[n - 1] == list[n - 1] && s[n - 2] == list[n - 2] && |s| == n;
    }
  }

  /** The merge is safe exactly if no run goes on behind an empty continuation that follows allowed IPs. */
  lemma {:induction false} SafeInput(list: seq<Found>)
    ensures Safe(list) <==> forall n :: 0 < n < |list| ==> !NullStep(list, n)
  {
    forall n | 0 < n < |list| ensures Trips(list, n) <==> NullStep(list, n) {
      TripsInput(list, n);
    }
    hide Trips, NullStep;
  }

  // ----- set, read and merge -----

  /** Every kept peer links to the next kept one: nothing leads to a node that was merged and freed. */
  lemma {:induction false} KeptLinks(y: Layout, h: Heap, segs: seq<Segment>, m: nat)
    requires Sound(y) && Fits(y, h) && Contiguous(y, segs, |y.peers|) && HoldsAll(y, h, segs) && m < |segs|
    ensures InList(y, segs[m])
    ensures h.next[segs[m].from] == if m + 1 < |segs| then y.peers[segs[m + 1].from] else null
  {
    assert InList(y, segs[m]) && Holds(y, h, segs[m], Stale(Contents(y)[..segs[m].to]));
    if m + 1 < |segs| {
      assert Adjacent(segs, m + 1) && InList(y, segs[m + 1]);
    }
    hide Sound, Contents, Stale, Chain;
  }

  /** With every continuation non-empty, the last pointers of the merged list are right. */
  lemma {:induction false} LastPointers(y: Layout, h: Heap, segs: seq<Segment>, m: nat)
    requires Sound(y) && Fits(y, h) && HoldsAll(y, h, segs) && m < |segs| && NoGap(Contents(y))
    ensures InList(y, segs[m]) && Holds(y, h, segs[m], false)
  {
    assert InList(y, segs[m]) && Holds(y, h, segs[m], Stale(Contents(y)[..segs[m].to]));
    NoGapSafe(Contents(y));
    hide Sound, Contents, Stale, Holds, NoGap;
  }

  /**
   The whole round trip on the linked lists.  The nodes that the parser made of the messages of a
   device are merged in place without following a null pointer, and then stand for the device's
   peers exactly if no allowed IP with too long a prefix stands in front of another one in its fragment.
   */
  method MergeDump(first: PeerNode?, ghost y: Layout, ghost sent: seq<seq<uint8>>, ghost cuts: seq<SD.Cut>,
                   ghost dev: Device)
    returns (ok: bool, ghost segs: seq<Segment>)
    requires ValidDevice(dev) && SD.Transcript(sent, cuts, dev, |dev.peers|, None) && AdjacentDiffer(dev.peers)
    requires Sound(y) && first == PeerAt(y, 0) && forall n :: 0 <= n < |y.peers| ==> Untouched(y, Fields(y), n)
    requires Some(Contents(y)) == Parse(sent)
    modifies y.peers, y.ips
    ensures ok && Chained(dev, cuts)
    ensures first == null ==> dev.peers == []
    ensures first != null ==> Contiguous(y, segs, |y.peers|) && HoldsAll(y, Fields(y), segs)
    ensures first != null ==> (Values(y, segs) == FoundsOf(dev.peers) <==> AllHeard(Fragments(dev, cuts)))
    ensures first != null ==> forall m :: 0 <= m < |segs| ==> InList(y, segs[m]) && Holds(y, Fields(y), segs[m], false)
  {
    SetThenGet(sent, cuts, dev);
    NoGapSafe(Contents(y));
    EmptyDump(sent, cuts, dev);
    hide Sound, Untouched, Fields, Contents, Contiguous, Joined, Values, AllIn, Safe, NoGap, Holds, AllHeard;
    hide ValidDevice, SD.Transcript, Parse, FoundsOf, AdjacentDiffer, Stale, InList;
    ok, segs := CoalescePeers(first, y);
    if first != null {
      forall m | 0 <= m < |segs| ensures InList(y, segs[m]) && Holds(y, Fields(y), segs[m], false) {
        LastPointers(y, Fields(y), segs, m);
      }
    }
  }

  lemma {:induction false} EmptyDump(sent: seq<seq<uint8>>, cuts: seq<SD.Cut>, dev: Device)
    requires ValidDevice(dev) && SD.Transcript(sent, cuts, dev, |dev.peers|, None) && AdjacentDiffer(dev.peers)
    ensures Parse(sent) == Some([]) ==> dev.peers == []
  {
    TranscriptRebuilds(sent, cuts, dev, |dev.peers|, None);
    hide ValidDevice, Parse, SD.Transcript, Joined, Prefix, NoGap;
  }

  // ----- distinct keys -----

  /** The fragments of one key stand together. */
  ghost predicate Grouped(list: seq<Found>)
  {
    forall i, j :: 0 <= i < j < |list| && list[i].peer.key == list[j].peer.key ==> OneRun(list, i, j)
  }

  ghost predicate DistinctKeys(list: seq<Found>)
  {
    forall i, j :: 0 <= i < j < |list| ==> list[i].peer.key != list[j].peer.key
  }

  lemma {:induction false} GroupedInit(list: seq<Found>)
    requires Grouped(list) && list != []
    ensures Grouped(list[..|list| - 1])
  {
    var init := list[..|list| - 1];
    forall i, j | 0 <= i < j < |init| && init[i].peer.key == init[j].peer.key ensures OneRun(init, i, j) {
      assert OneRun(list, i, j);
    }
  }

  /** A dump that lists the fragments of a peer together has every key once after coalescing. */
  lemma {:induction false} JoinedDistinct(list: seq<Found>)
    requires Grouped(list)
    ensures DistinctKeys(Joined(list))
    ensures forall k :: 0 <= k < |Joined(list)| ==>
            exists i :: 0 <= i < |list| && list[i].peer.key == Joined(list)[k].peer.key
    decreases |list|
  {
    hide Joined, OneRun;
    if list == [] {
      JoinedNone();
    } else {
      var n := |list| - 1;
      var init, f := list[..n], list[n];
      TakeMore(list, n);
      JoinedMore(init, f);
      GroupedInit(list);
      JoinedDistinct(init);
      var acc, r := Joined(init), Joined(list);
      forall k | 0 <= k < |acc| && acc[k].peer.key == f.peer.key
        ensures k == |acc| - 1 && acc[k].peer.key == f.peer.key
      {
        LastKey(list, k);
      }
      forall k | 0 <= k < |r| ensures exists i :: 0 <= i < |list| && list[i].peer.key == r[k].peer.key {
        if k < |acc| {
          var i :| 0 <= i < |init| && init[i].peer.key == acc[k].peer.key;
          assert list[i].peer.key == r[k].peer.key;
        } else {
          assert list[n].peer.key == r[k].peer.key;
        }
      }
    }
  }

  lemma {:induction false} LastKey(list: seq<Found>, k: nat)
    requires Grouped(list) && list != []
    requires var acc := Joined(list[..|list| - 1]);
             && DistinctKeys(acc) && k < |acc| && acc[k].peer.key == list[|list| - 1].peer.key
             && exists i :: 0 <= i < |list| - 1 && list[i].peer.key == acc[k].peer.key
    ensures k == |Joined(list[..|list| - 1])| - 1
  {
    var n := |list| - 1;
    var acc := Joined(list[..n]);
    var i :| 0 <= i < n && list[i].peer.key == acc[k].peer.key;
    assert OneRun(list, i, n);
    assert list[n - 1].peer.key == list[n].peer.key;
    hide Joined, OneRun, Grouped, RunHasIps;
    JoinedLast(list, n - 1);
  }
}
