/** set_users of src/wg-quick/android.c: the uids that go through the tunnel, as ranges in batches. */
module SetUsers {
  import opened Wrappers

  /** One argument of `network users add`: the uids lo to hi. */
  datatype Range = Range(lo: nat, hi: nat)

  const LAST_UID: nat := 99999
  const BATCH: nat := 18

  /** Sorted, and without the largest number, behind which the next start would be 0. */
  ghost predicate UidList(uids: seq<nat>)
  {
    && (forall i :: 0 <= i < |uids| ==> 0 < uids[i] < 0xffff_ffff)
    && (forall i, j :: 0 <= i < j < |uids| ==> uids[i] <= uids[j])
  }

  /** Where the next range starts, in unsigned 32-bit arithmetic. */
  function Next(uids: seq<nat>): nat
  {
    if uids == [] then 0 else (uids[|uids| - 1] + 1) % 0x1_0000_0000
  }

  /** The non-zero entries in front of the terminating zero. */
  ghost predicate Uids(uids: seq<nat>)
  {
    forall i :: 0 <= i < |uids| ==> 0 < uids[i] < 0x1_0000_0000
  }

  /** The ranges between the excluded uids. */
  function Gaps(uids: seq<nat>): seq<Range>
  {
    if uids == [] then [] else
    var init, uid := uids[..|uids| - 1], uids[|uids| - 1];
    if Next(init) < uid then Gaps(init) + [Range(Next(init), uid - 1)] else Gaps(init)
  }

  function Ranges(uids: seq<nat>): seq<Range>
  {
    if Next(uids) < LAST_UID then Gaps(uids) + [Range(Next(uids), LAST_UID)] else Gaps(uids)
  }

  function Singles(uids: seq<nat>): (r: seq<Range>)
    ensures |r| == |uids|
  {
    seq(|uids|, i requires 0 <= i < |uids| => Range(uids[i], uids[i]))
  }

  ghost predicate Covers(ranges: seq<Range>, x: nat)
  {
    exists i :: 0 <= i < |ranges| && ranges[i].lo <= x <= ranges[i].hi
  }

  /** Ascending and disjoint, each range non-empty and below a bound. */
  ghost predicate Ordered(ranges: seq<Range>, bound: nat)
  {
    && (forall i :: 0 <= i < |ranges| ==> ranges[i].lo <= ranges[i].hi < bound)
    && forall i, j :: 0 <= i < j < |ranges| ==> ranges[i].hi < ranges[j].lo
  }

  lemma {:induction false} CoversMore(ranges: seq<Range>, r: Range, x: nat)
    ensures Covers(ranges + [r], x) <==> Covers(ranges, x) || r.lo <= x <= r.hi
  {
    var more := ranges + [r];
    if Covers(ranges, x) {
      var i :| 0 <= i < |ranges| && ranges[i].lo <= x <= ranges[i].hi;
      assert more[i].lo <= x <= more[i].hi;
    }
    if r.lo <= x <= r.hi { assert more[|ranges|].lo <= x <= more[|ranges|].hi; }
    if Covers(more, x) {
      var i :| 0 <= i < |more| && more[i].lo <= x <= more[i].hi;
      if i < |ranges| { assert ranges[i].lo <= x <= ranges[i].hi; }
    }
  }

  lemma {:induction false} OrderedMore(ranges: seq<Range>, bound: nat, r: Range, more: nat)
    requires Ordered(ranges, bound) && bound <= r.lo <= r.hi < more
    ensures Ordered(ranges + [r], more)
  {
  }

  lemma {:induction false} LastOne(uids: seq<nat>)
    requires UidList(uids) && uids != []
    ensures var init, uid := uids[..|uids| - 1], uids[|uids| - 1];
            && UidList(init) && uid > 0 && Next(init) <= uid + 1 && uids == init + [uid] && Next(uids) == uid + 1
            && (forall x :: x in init ==> x < Next(init))
  {
  }

  lemma {:induction false} GapsOrdered(uids: seq<nat>)
    requires UidList(uids)
    ensures Ordered(Gaps(uids), Next(uids))
    decreases |uids|
  {
    if uids != [] {
      var init, uid := uids[..|uids| - 1], uids[|uids| - 1];
      LastOne(uids);
      hide Ordered, UidList, Next;
      GapsOrdered(init);
      if Next(init) < uid {
        OrderedMore(Gaps(init), Next(init), Range(Next(init), uid - 1), uid + 1);
      } else {
        OrderedWider(Gaps(init), Next(init), uid + 1);
      }
    }
  }

  lemma {:induction false} OrderedWider(ranges: seq<Range>, bound: nat, more: nat)
    requires Ordered(ranges, bound) && bound <= more
    ensures Ordered(ranges, more)
  {
  }

  /** The gaps cover exactly the uids below the next start that are not in the list. */
  lemma {:induction false} GapsCover(uids: seq<nat>, x: nat)
    requires UidList(uids)
    ensures Covers(Gaps(uids), x) <==> x < Next(uids) && x !in uids
    decreases |uids|
  {
    if uids != [] {
      var init, uid := uids[..|uids| - 1], uids[|uids| - 1];
      LastOne(uids);
      hide Covers, UidList, Next;
      GapsCover(init, x);
      CoversMore(Gaps(init), Range(Next(init), uid - 1), x);
    }
  }

  /** All ranges: ascending, disjoint, and what they cover. */
  lemma {:induction false} RangesCover(uids: seq<nat>, x: nat)
    requires UidList(uids)
    ensures exists bound :: Ordered(Ranges(uids), bound)
    ensures Covers(Ranges(uids), x) <==> x !in uids && (x < Next(uids) || (Next(uids) < 99999 && x <= 99999))
  {
    GapsOrdered(uids);
    GapsCover(uids, x);
    assert x in uids ==> x < Next(uids) by { if uids != [] { LastOne(uids); } }
    hide Covers, Ordered, UidList, Gaps, Next;
    if Next(uids) < LAST_UID {
      CoversMore(Gaps(uids), Range(Next(uids), LAST_UID), x);
      OrderedMore(Gaps(uids), Next(uids), Range(Next(uids), LAST_UID), LAST_UID + 1);
      assert Ordered(Ranges(uids), LAST_UID + 1);
    } else {
      assert Ordered(Ranges(uids), Next(uids));
    }
  }

  /**
   The ranges cover exactly 0 to 99999 without the list if and only if the largest listed uid is not
   99998 and every number from 100000 up to it is listed.
   */
  lemma {:induction false} RangesExact(uids: seq<nat>)
    requires UidList(uids)
    ensures (forall x: nat :: Covers(Ranges(uids), x) <==> x <= 99999 && x !in uids) <==>
            Next(uids) != 99999 && forall x :: 99999 < x < Next(uids) ==> x in uids
  {
    forall x: nat ensures Covers(Ranges(uids), x) <==>
                          x !in uids && (x < Next(uids) || (Next(uids) < LAST_UID && x <= LAST_UID)) {
      RangesCover(uids, x);
    }
    assert LAST_UID in uids ==> LAST_UID < Next(uids) by { if uids != [] { LastOne(uids); } }
    hide Covers, UidList, Ranges;
    if Next(uids) == LAST_UID {
      assert !Covers(Ranges(uids), LAST_UID) && LAST_UID !in uids;
    }
  }

  /** With 99998 excluded uid 99999 is left out, although it is not excluded. */
  lemma {:induction false} LastUidMissed()
    ensures UidList([99998]) && !Covers(Ranges([99998]), 99999)
  {
    var uids := [99998];
    assert uids[..0] == [];
    RangesCover(uids, LAST_UID);
    hide Covers, Ranges;
  }

  /** The ranges of included uids cover exactly these. */
  lemma {:induction false} SinglesCover(uids: seq<nat>, x: nat)
    ensures Covers(Singles(uids), x) <==> x in uids
  {
    var r := Singles(uids);
    if x in uids {
      var i :| 0 <= i < |uids| && uids[i] == x;
      assert r[i].lo <= x <= r[i].hi;
    }
  }

  // ----- the commands -----

  function Flatten(commands: seq<seq<Range>>): seq<Range>
  {
    if commands == [] then [] else Flatten(commands[..|commands| - 1]) + commands[|commands| - 1]
  }

  /** Every command carries at least one and at most eighteen ranges. */
  ghost predicate Batched(commands: seq<seq<Range>>)
  {
    forall i :: 0 <= i < |commands| ==> 0 < |commands[i]| <= 18
  }

  lemma {:induction false} FlattenMore(commands: seq<seq<Range>>, c: seq<Range>)
    ensures Flatten(commands + [c]) == Flatten(commands) + c
  {
    assert (commands + [c])[..|commands|] == commands;
  }

  /** One more range in the pending command, which goes out when it is full. */
  method Append(commands: seq<seq<Range>>, pending: seq<Range>, args: nat, r: Range)
    returns (sent: seq<seq<Range>>, left: seq<Range>, count: nat)
    requires Batched(commands) && |pending| == args % BATCH
    ensures Batched(sent) && |left| == count % BATCH
    ensures Flatten(sent) + left == Flatten(commands) + pending + [r]
  {
    sent, left, count := commands, pending + [r], args + 1;
    if count % BATCH == 0 {
      FlattenMore(commands, left);
      sent, left := commands + [left], [];
    }
    hide Flatten;
    assert Flatten(commands) + (pending + [r]) == Flatten(commands) + pending + [r];
  }

  /** The ranges between the excluded uids; the last command is still pending. */
  method AddGaps(uids: seq<nat>) returns (commands: seq<seq<Range>>, pending: seq<Range>)
    requires Uids(uids)
    ensures Batched(commands) && |pending| <= BATCH && Flatten(commands) + pending == Ranges(uids)
  {
    hide Batched, Flatten;
    commands, pending := [], [];
    var args: nat, start: nat := 0, 0;
    NoCommands();
    for i := 0 to |uids|
      invariant Batched(commands) && |pending| == args % BATCH && start == Next(uids[..i])
      invariant Flatten(commands) + pending == Gaps(uids[..i])
    {
      assert uids[..i + 1][..i] == uids[..i];
      if start <= uids[i] - 1 {
        commands, pending, args := Append(commands, pending, args, Range(start, uids[i] - 1));
      }
      start := (uids[i] + 1) % 0x1_0000_0000;
    }
    assert uids[..|uids|] == uids;
    if start < LAST_UID {
      assert Flatten(commands) + (pending + [Range(start, LAST_UID)]) ==
             Flatten(commands) + pending + [Range(start, LAST_UID)];
      pending := pending + [Range(start, LAST_UID)];
    }
  }

  /** The included uids one by one. */
  method AddSingles(uids: seq<nat>) returns (commands: seq<seq<Range>>, pending: seq<Range>)
    ensures Batched(commands) && |pending| <= BATCH && Flatten(commands) + pending == Singles(uids)
  {
    hide Batched, Flatten;
    commands, pending := [], [];
    var args: nat := 0;
    NoCommands();
    for i := 0 to |uids|
      invariant Batched(commands) && |pending| == args % BATCH && Flatten(commands) + pending == Singles(uids[..i])
    {
      assert Singles(uids[..i + 1]) == Singles(uids[..i]) + [Range(uids[i], uids[i])];
      commands, pending, args := Append(commands, pending, args, Range(uids[i], uids[i]));
    }
    assert uids[..|uids|] == uids;
  }

  lemma {:induction false} NoCommands()
    ensures Batched([]) && Flatten([]) == []
  {
  }

  /** Each list stands for the uids that get_uid_list found; giving both lists is refused. */
  method AddUsers(excluded: Option<seq<nat>>, included: Option<seq<nat>>) returns (ok: bool, commands: seq<seq<Range>>)
    requires excluded.Some? ==> Uids(excluded.value)
    requires included.Some? ==> Uids(included.value)
    ensures ok <==> excluded.None? || included.None?
    ensures ok ==> Batched(commands)
    ensures ok && included.None? ==> Flatten(commands) == Ranges(if excluded.Some? then excluded.value else [])
    ensures ok && included.Some? ==> Flatten(commands) == Singles(included.value)
  {
    if excluded.Some? && included.Some? { return false, []; }
    var pending;
    if excluded.Some? || included.None? {
      commands, pending := AddGaps(if excluded.Some? then excluded.value else []);
    } else {
      commands, pending := AddSingles(included.value);
    }
    hide Uids, Flatten, Ranges, Singles;
    if pending != [] {
      FlattenMore(commands, pending);
      commands := commands + [pending];
    } else {
      assert Flatten(commands) + [] == Flatten(commands);
    }
    ok := true;
  }
}
