/** The dynamic-section loop of elf-cleaner: unsupported entries leave the table in place. */
module ElfCleaner {
  import opened Machine
  import opened Bits

  /** Elf_Dyn */
  datatype Entry = Entry(tag: int, val: nat)

  const DT_NULL := 0
  const DT_RPATH := 15
  const DT_RUNPATH := 29
  const DT_GNU_HASH := 0x6fff_fef5
  const DT_VERSYM := 0x6fff_fff0
  const DT_FLAGS_1 := 0x6fff_fffb
  const DT_VERDEF := 0x6fff_fffc
  const DT_VERDEFNUM := 0x6fff_fffd
  const DT_VERNEEDED := 0x6fff_fffe
  const DT_VERNEEDNUM := 0x6fff_ffff
  const DT_AARCH64_BTI_PLT := 0x7000_0001
  const DT_AARCH64_PAC_PLT := 0x7000_0003
  const DT_AARCH64_VARIANT_PCS := 0x7000_0005

  /** What is cleaned for: the API level of the target and whether the file is for AArch64. */
  datatype Target = Target(api: int, aarch64: bool)

  predicate Removable(t: Target, tag: int)
  {
    || tag == DT_RPATH
    || (t.api < 23 && tag in {DT_GNU_HASH, DT_VERSYM, DT_VERNEEDED, DT_VERNEEDNUM, DT_VERDEF, DT_VERDEFNUM})
    || (t.api < 24 && tag == DT_RUNPATH)
    || (t.aarch64 && t.api < 31 && tag in {DT_AARCH64_BTI_PLT, DT_AARCH64_PAC_PLT, DT_AARCH64_VARIANT_PCS})
  }

  /** DF_1_NOW and DF_1_GLOBAL, from level 23 on also DF_1_NODELETE. */
  function Supported(t: Target): nat
  {
    if t.api >= 23 then 11 else 3
  }

  /** Which tags leave the table: the lowest API level that supports each. */
  lemma {:induction false} RemovableIs(t: Target, tag: int)
    ensures tag == 0xf ==> Removable(t, tag)
    ensures tag == 0x1d ==> (Removable(t, tag) <==> t.api < 24)
    ensures tag in {0x6ffffef5, 0x6ffffff0} || 0x6ffffffc <= tag <= 0x6fffffff ==> (Removable(t, tag) <==> t.api < 23)
    ensures tag in {0x70000001, 0x70000003, 0x70000005} ==> (Removable(t, tag) <==> t.aarch64 && t.api < 31)
    ensures Removable(t, tag) ==>
              || tag in {0xf, 0x1d, 0x6ffffef5, 0x6ffffff0, 0x70000001, 0x70000003, 0x70000005}
              || 0x6ffffffc <= tag <= 0x6fffffff
  {
  }

  lemma {:induction false} SupportedBits(t: Target, i: nat)
    ensures BitAt(Supported(t), i) == if i <= 1 || (i == 3 && t.api >= 23) then 1 else 0
  {
    LowBits(11, i);
    LowBits(3, i);
    hide BitAt;
  }

  /** The bits of a number below 16. */
  lemma {:induction false} LowBits(n: nat, i: nat)
    requires n < 16
    ensures BitAt(n, i) == if i == 0 then n % 2 else if i == 1 then n / 2 % 2 else if i == 2 then n / 4 % 2
                           else if i == 3 then n / 8 % 2 else 0
    decreases i
  {
    if i == 0 {
      BitDef(n, 0);
    } else {
      BitShift(n, i - 1);
      LowBits(n / 2, i - 1);
    }
    hide BitAt;
  }

  /** Which flags of a flag entry stay: bits 0 and 1, and bit 3 from level 23 on; other entries stay whole. */
  lemma {:induction false} MaskedIs(t: Target, e: Entry, i: nat)
    ensures e.tag == 0x6ffffffb ==>
            BitAt(Masked(t, e).val, i) == if i <= 1 || (i == 3 && t.api >= 23) then BitAt(e.val, i) else 0
    ensures e.tag != 0x6ffffffb ==> Masked(t, e) == e
  {
    BitAnd(e.val, Supported(t), i);
    SupportedBits(t, i);
    hide And, BitAt, Supported;
  }

  lemma {:induction false} AndAgain(a: int, m: int)
    requires a >= 0 && m >= 0
    ensures And(a, m) >= 0 && And(And(a, m), m) == And(a, m)
    decreases a
  {
    if a != 0 {
      AndAgain(a / 2, m / 2);
      var h, b := And(a / 2, m / 2), if a % 2 == 1 && m % 2 == 1 then 1 else 0;
      assert And(a, m) == 2 * h + b;
    }
  }

  function Masked(t: Target, e: Entry): (r: Entry)
    ensures r.tag == e.tag
  {
    if e.tag == DT_FLAGS_1 then AndAgain(e.val, Supported(t)); Entry(e.tag, And(e.val, Supported(t))) else e
  }

  /** What an entry leaves behind: itself with unsupported flags masked, or nothing. */
  function Share(t: Target, e: Entry): multiset<Entry>
  {
    if e.tag == 0 || Removable(t, e.tag) then multiset{} else multiset{Masked(t, e)}
  }

  /** The entries that should remain. */
  function Kept(t: Target, s: seq<Entry>): multiset<Entry>
  {
    if s == [] then multiset{} else Kept(t, s[..|s| - 1]) + Share(t, s[|s| - 1])
  }

  /** The entries that are in use. */
  function Used(s: seq<Entry>): multiset<Entry>
  {
    if s == [] then multiset{} else
    Used(s[..|s| - 1]) + if s[|s| - 1].tag == 0 then multiset{} else multiset{s[|s| - 1]}
  }

  lemma {:induction false} Exchange<T>(x: multiset<T>, y: multiset<T>, c: multiset<T>, d: multiset<T>, l: multiset<T>)
    requires x + c == y + d
    ensures x + l + c == y + l + d
  {
    assert x + l + c == (x + c) + l;
    assert y + l + d == (y + d) + l;
  }

  lemma {:induction false} Cancel<T>(x: multiset<T>, y: multiset<T>, c: multiset<T>)
    requires x + c == y + c
    ensures x == y
  {
    assert x == (x + c) - c;
    assert y == (y + c) - c;
  }

  lemma {:induction false} KeptUpdate(t: Target, s: seq<Entry>, i: nat, e: Entry)
    requires i < |s|
    ensures Kept(t, s[i := e]) + Share(t, s[i]) == Kept(t, s) + Share(t, e)
    decreases |s|
  {
    var init, u := s[..|s| - 1], s[i := e];
    assert Kept(t, s) == Kept(t, init) + Share(t, s[|s| - 1])
           && Kept(t, u) == Kept(t, u[..|u| - 1]) + Share(t, u[|u| - 1]);
    hide Share, Kept;
    if i < |init| {
      KeptUpdate(t, init, i, e);
      assert u[..|u| - 1] == init[i := e] && u[|u| - 1] == s[|s| - 1];
      Exchange(Kept(t, init[i := e]), Kept(t, init), Share(t, s[i]), Share(t, e), Share(t, s[|s| - 1]));
    } else {
      assert u[..|u| - 1] == init;
      assert Kept(t, init) + Share(t, e) + Share(t, s[i]) == Kept(t, init) + Share(t, s[i]) + Share(t, e);
    }
  }

  /** An update that leaves as much behind. */
  lemma {:induction false} KeptSame(t: Target, s: seq<Entry>, i: nat, e: Entry)
    requires i < |s| && Share(t, s[i]) == Share(t, e)
    ensures Kept(t, s[i := e]) == Kept(t, s)
  {
    KeptUpdate(t, s, i, e);
    hide Kept, Share;
    Cancel(Kept(t, s[i := e]), Kept(t, s), Share(t, e));
  }

  lemma {:induction false} KeptSwap(t: Target, s: seq<Entry>, i: nat, j: nat)
    requires i < |s| && j < |s|
    ensures Kept(t, s[i := s[j]][j := s[i]]) == Kept(t, s)
  {
    hide Kept, Share;
    if i == j {
      assert s[i := s[j]][j := s[i]] == s;
    } else {
      var u := s[i := s[j]];
      KeptUpdate(t, s, i, s[j]);
      KeptUpdate(t, u, j, s[i]);
      var c, d := Share(t, s[i]), Share(t, s[j]);
      assert Kept(t, u) + c == Kept(t, s) + d && Kept(t, u[j := s[i]]) + d == Kept(t, u) + c;
      Cancel(Kept(t, u[j := s[i]]), Kept(t, s), d);
    }
  }

  lemma {:induction false} ShareMasked(t: Target, e: Entry)
    ensures Share(t, Masked(t, e)) == Share(t, e)
  {
    AndAgain(e.val, Supported(t));
    hide And;
  }

  /** Where nothing is removable and every flag entry is masked, what is in use is what is kept. */
  lemma {:induction false} KeptIsUsed(t: Target, s: seq<Entry>)
    requires forall i :: 0 <= i < |s| ==> Clean(t, s[i])
    ensures Used(s) == Kept(t, s)
    decreases |s|
  {
    if s != [] {
      KeptIsUsed(t, s[..|s| - 1]);
      assert Clean(t, s[|s| - 1]);
    }
  }

  ghost predicate Clean(t: Target, e: Entry)
  {
    !Removable(t, e.tag) && Masked(t, e) == e
  }

  /** The entries in use come first. */
  ghost predicate NullsLast(s: seq<Entry>)
  {
    forall i, j :: 0 <= i < j < |s| && s[i].tag == 0 ==> s[j].tag == 0
  }

  /** The index of the last entry in use, 0 when only the first one could be. */
  method LastNonNull(a: array<Entry>) returns (last: int)
    requires 0 < a.Length < 0x1_0000_0000
    ensures 0 <= last < a.Length && Bounded(a[..], last, NullsLast(a[..]))
  {
    last := 0;
    var j := a.Length - 1;
    while j > 0
      invariant 0 <= j < a.Length && last == 0
      invariant forall k :: j < k < a.Length ==> a[k].tag == DT_NULL
    {
      if a[j].tag != DT_NULL {
        last := j;
        break;
      }
      j := j - 1;
    }
  }

  /** Everything behind the index is unused, and with unused entries only at the end everything up to it is used. */
  ghost predicate Bounded(s: seq<Entry>, left: int, tight: bool)
  {
    && -1 <= left < |s|
    && (forall k :: left < k < |s| ==> s[k].tag == DT_NULL)
    && (tight ==> (forall k :: 0 <= k <= left ==> s[k].tag != DT_NULL) || (left == 0 && s[0].tag == DT_NULL))
  }

  lemma {:induction false} RemoveBounds(t: Target, s: seq<Entry>, j: int, e: Entry, last: int, tight: bool)
    requires 0 <= j < |s| && Removable(t, s[j].tag) && e.tag == DT_NULL && Bounded(s, last, tight)
    ensures j <= last
    ensures var u := s[j := e]; Bounded(u[j := u[last]][last := u[j]], last - 1, tight)
  {
    assert s[j].tag != DT_NULL;
    hide Removable;
  }

  /** The entry at j is marked unused and changes places with the last entry in use. */
  method Remove(a: array<Entry>, t: Target, j: int, last: int, ghost tight: bool)
    requires 0 <= j < a.Length < 0x1_0000_0000 && Removable(t, a[j].tag) && Bounded(a[..], last, tight)
    modifies a
    ensures j <= last && Bounded(a[..], last - 1, tight)
    ensures Kept(t, a[..]) == Kept(t, old(a[..]))
    ensures forall k :: 0 <= k < j ==> a[k] == old(a[k])
  {
    ghost var s, e := a[..], Entry(DT_NULL, a[j].val);
    ghost var u := s[j := e];
    KeptSame(t, s, j, e);
    RemoveBounds(t, s, j, e, last, tight);
    hide Kept, Removable, Share, Bounded;
    a[j] := Entry(DT_NULL, a[j].val);
    assert a[..] == u;
    KeptSwap(t, u, j, last);
    a[j], a[last] := a[last], a[j];
    assert a[..] == u[j := u[last]][last := u[j]];
  }

  /** Unsupported flags are cleared; an entry that is not a flag entry stays. */
  method Mask(a: array<Entry>, t: Target, j: int, ghost left: int, ghost tight: bool)
    requires 0 <= j < a.Length && !Removable(t, a[j].tag) && Bounded(a[..], left, tight)
    modifies a
    ensures Clean(t, a[j]) && Bounded(a[..], left, tight)
    ensures Kept(t, a[..]) == Kept(t, old(a[..]))
    ensures forall k :: 0 <= k < a.Length && k != j ==> a[k] == old(a[k])
  {
    ghost var s, e := a[..], Masked(t, a[j]);
    ShareMasked(t, s[j]);
    KeptSame(t, s, j, e);
    AndAgain(a[j].val, Supported(t));
    assert Masked(t, e) == e;
    hide Kept, Removable, Share, And;
    if a[j].tag == DT_FLAGS_1 {
      var masked := And(a[j].val, Supported(t));
      if masked != a[j].val {
        a[j] := Entry(a[j].tag, masked);
      }
    }
    assert a[..] == s[j := e];
  }

  /**
   The loop.  The indices are unsigned 32-bit: stepping back from index 0 wraps around and the next
   step forward returns to 0.
   */
  method CleanSection(a: array<Entry>, t: Target)
    requires 0 < a.Length < 0x1_0000_0000
    modifies a
    ensures forall i :: 0 <= i < a.Length ==> Clean(t, a[i])
    ensures Used(a[..]) == Kept(t, old(a[..]))
    ensures NullsLast(old(a[..])) ==> NullsLast(a[..])
  {
    hide Kept, Used, Removable, Share, Clean, Bounded, NullsLast, Wrap;
    var last := LastNonNull(a);
    ghost var left, tight := last, NullsLast(a[..]);
    var j := 0;
    while j < a.Length
      invariant 0 <= j <= a.Length && Bounded(a[..], left, tight) && -1 <= left && last == Wrap(left)
      invariant forall k :: 0 <= k < j ==> Clean(t, a[k])
      invariant Kept(t, a[..]) == Kept(t, old(a[..]))
      decreases left + a.Length - j
    {
      if Removable(t, a[j].tag) {
        InUse(t, a[..], j, left, tight);
        Remove(a, t, j, last, tight);
        last, left := Wrap(last - 1), left - 1;
        j := Wrap(j - 1);
      } else {
        Mask(a, t, j, left, tight);
      }
      j := Wrap(j + 1);
    }
    KeptIsUsed(t, a[..]);
    if tight { TightNulls(a[..], left); }
  }

  /** Unsigned 32-bit arithmetic. */
  function Wrap(x: int): (r: int)
    ensures 0 <= x < 0x1_0000_0000 ==> r == x
    ensures x == -1 ==> r == 0xffff_ffff
    ensures x == 0x1_0000_0000 ==> r == 0
  {
    x % 0x1_0000_0000
  }

  lemma {:induction false} InUse(t: Target, s: seq<Entry>, j: int, left: int, tight: bool)
    requires 0 <= j < |s| && Removable(t, s[j].tag) && Bounded(s, left, tight)
    ensures j <= left < |s|
  {
    assert s[j].tag != DT_NULL;
    hide Removable;
  }

  lemma {:induction false} TightNulls(s: seq<Entry>, left: int)
    requires Bounded(s, left, true)
    ensures NullsLast(s)
  {
  }
}
