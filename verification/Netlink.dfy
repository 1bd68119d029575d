/** Netlink attributes: the writer and the walkers of src/netlink.h. */
module Netlink {
  import opened Machine

  const NESTED: int := 0x8000

  /** An attribute as the caller sees it: a payload, or a list of attributes under NLA_F_NESTED. */
  datatype Attr =
    | Leaf(typ: nat, payload: seq<uint8>)
    | Nest(typ: nat, items: seq<Attr>)

  function Align(n: nat): (r: nat)
    ensures n <= r < n + 4 && r % 4 == 0
  {
    (n + 3) / 4 * 4
  }

  function U16(v: int): (b: seq<uint8>)
    ensures |b| == 2
  {
    [v % 256, v / 256 % 256]
  }

  function GetU16(b: seq<uint8>, at: nat): (v: int)
    requires at + 2 <= |b|
    ensures 0 <= v < 0x1_0000
  {
    b[at] as int + 256 * (b[at + 1] as int)
  }

  function Zeros(n: nat): (b: seq<uint8>)
    ensures |b| == n
  {
    seq(n, _ => 0)
  }

  /** The bytes of a list of attributes. */
  function Enc(items: seq<Attr>): (b: seq<uint8>)
    ensures |b| % 4 == 0
    decreases items, 1
  {
    if items == [] then [] else Enc(items[..|items| - 1]) + EncOne(items[|items| - 1])
  }

  function EncOne(a: Attr): (b: seq<uint8>)
    ensures |b| % 4 == 0 && |b| >= 4
    decreases a, 0
  {
    match a
    case Leaf(t, p) => U16(4 + |p|) + U16(t) + p + Zeros(Align(|p|) - |p|)
    case Nest(t, items) => var body := Enc(items); U16(4 + |body|) + U16(NESTED + t) + body
  }

  lemma {:induction false} EncAppend(items: seq<Attr>, a: Attr)
    ensures Enc(items + [a]) == Enc(items) + EncOne(a)
  {
    assert (items + [a])[..|items|] == items;
  }

  /** Types below 0x4000 and lengths that 16 bits can hold. */
  ghost predicate WellFormed(a: Attr)
    decreases a
  {
    && a.typ < 0x4000
    && match a
       case Leaf(_, p) => 4 + |p| < 0x1_0000
       case Nest(_, items) => 4 + |Enc(items)| < 0x1_0000 && forall i :: 0 <= i < |items| ==> WellFormed(items[i])
  }

  ghost predicate AllWellFormed(items: seq<Attr>)
  {
    forall i :: 0 <= i < |items| ==> WellFormed(items[i])
  }

  // ----- the walkers -----

  /** One attribute as a walker sees it: the raw type field and the payload. */
  datatype Raw = Raw(typ: int, payload: seq<uint8>)

  /** mnl_attr_ok: the header and the claimed length both fit in what remains. */
  predicate AttrOk(b: seq<uint8>)
  {
    |b| >= 4 && GetU16(b, 0) >= 4 && GetU16(b, 0) <= |b|
  }

  function First(b: seq<uint8>): Raw
    requires AttrOk(b)
  {
    Raw(GetU16(b, 2), b[4..GetU16(b, 0)])
  }

  /** mnl_attr_next: skips the padded length. */
  function Next(b: seq<uint8>): (r: seq<uint8>)
    requires AttrOk(b)
    ensures |r| < |b|
  {
    var n := Align(GetU16(b, 0));
    if n <= |b| then b[n..] else []
  }

  function Walk(b: seq<uint8>): seq<Raw>
    decreases |b|
  {
    if AttrOk(b) then [First(b)] + Walk(Next(b)) else []
  }

  /** The walk of mnl_attr_for_each over the bytes of a message or of a nest. */
  method ForEach(b: seq<uint8>) returns (out: seq<Raw>)
    ensures out == Walk(b)
  {
    out := [];
    var at: nat := 0;
    assert From(b, 0) == b && out + Walk(b) == Walk(b);
    hide Walk, From, GetU16, Align, OkAt, RawAt;
    while OkAt(b, at)
      invariant Walk(b) == out + Walk(From(b, at))
      decreases if at <= |b| then |b| - at else 0
    {
      WalkStep(b, at);
      var raw := RawAt(b, at);
      var next := NextAt(b, at);
      Regroup(out, [raw], Walk(From(b, next)));
      out := out + [raw];
      at := next;
    }
    WalkStop(b, at);
    assert out + [] == out;
  }

  /** mnl_attr_ok at an offset. */
  predicate OkAt(b: seq<uint8>, at: nat)
  {
    at + 4 <= |b| && GetU16(b, at) >= 4 && at + GetU16(b, at) <= |b|
  }

  function RawAt(b: seq<uint8>, at: nat): Raw
    requires OkAt(b, at)
  {
    Raw(GetU16(b, at + 2), b[at + 4..at + GetU16(b, at)])
  }

  function NextAt(b: seq<uint8>, at: nat): (next: nat)
    requires OkAt(b, at)
    ensures at < next && at < |b|
  {
    at + Align(GetU16(b, at))
  }

  function From(b: seq<uint8>, at: nat): seq<uint8>
  {
    if at <= |b| then b[at..] else []
  }

  lemma {:induction false} WalkStep(b: seq<uint8>, at: nat)
    requires OkAt(b, at)
    ensures Walk(From(b, at)) == [RawAt(b, at)] + Walk(From(b, NextAt(b, at)))
  {
    var rest, len := b[at..], GetU16(b, at);
    assert GetU16(rest, 0) == len && GetU16(rest, 2) == GetU16(b, at + 2);
    assert rest[4..len] == b[at + 4..at + len];
    assert OkAt(b, at) && AttrOk(rest);
    hide GetU16, Align;
    assert Next(rest) == From(b, at + Align(len));
  }

  lemma {:induction false} WalkStop(b: seq<uint8>, at: nat)
    requires !OkAt(b, at)
    ensures Walk(From(b, at)) == []
  {
    if at + 4 <= |b| { assert GetU16(b[at..], 0) == GetU16(b, at); }
  }

  /** What a walker reports for a written attribute. */
  function RawOf(a: Attr): Raw
  {
    match a
    case Leaf(t, p) => Raw(t, p)
    case Nest(t, items) => Raw(NESTED + t, Enc(items))
  }

  function RawsOf(items: seq<Attr>): (r: seq<Raw>)
    ensures |r| == |items|
    decreases |items|
  {
    if items == [] then [] else RawsOf(items[..|items| - 1]) + [RawOf(items[|items| - 1])]
  }

  /** Header, payload and padding of one attribute. */
  function Frame(raw: Raw): (b: seq<uint8>)
    ensures |b| == 4 + Align(|raw.payload|)
  {
    U16(4 + |raw.payload|) + U16(raw.typ) + raw.payload + Zeros(Align(|raw.payload|) - |raw.payload|)
  }

  lemma {:induction false} EncFrame(a: Attr)
    ensures EncOne(a) == Frame(RawOf(a))
  {
    if a.Nest? {
      hide Enc;
      var body := Enc(a.items);
      assert Align(|body|) == |body|;
    }
  }

  /** One attribute at the front of a buffer is read back, and the walk goes on behind it. */
  lemma {:induction false} WalkFrame(raw: Raw, rest: seq<uint8>)
    requires 4 + |raw.payload| < 0x1_0000 && 0 <= raw.typ < 0x1_0000
    ensures Walk(Frame(raw) + rest) == [raw] + Walk(rest)
  {
    FrameRead(raw, rest);
  }

  lemma {:induction false} AlignHeader(n: nat)
    ensures Align(4 + n) == 4 + Align(n)
  {
  }

  lemma {:induction false} U16Read(v: int, post: seq<uint8>, pre: seq<uint8>, b: seq<uint8>)
    requires 0 <= v < 0x1_0000 && b == pre + U16(v) + post
    ensures GetU16(b, |pre|) == v
  {
    assert b[|pre|] == v % 256 && b[|pre| + 1] == v / 256 % 256;
  }

  lemma {:induction false} FrameRead(raw: Raw, rest: seq<uint8>)
    requires 4 + |raw.payload| < 0x1_0000 && 0 <= raw.typ < 0x1_0000
    ensures var b := Frame(raw) + rest; AttrOk(b) && First(b) == raw && Next(b) == rest
  {
    hide Align, GetU16, U16, Zeros;
    var b, n := Frame(raw) + rest, 4 + |raw.payload|;
    U16Read(n, U16(raw.typ) + raw.payload + Zeros(Align(|raw.payload|) - |raw.payload|) + rest, [], b);
    U16Read(raw.typ, raw.payload + Zeros(Align(|raw.payload|) - |raw.payload|) + rest, U16(n), b);
    AlignHeader(|raw.payload|);
    assert b[4..n] == raw.payload;
    assert b[Align(n)..] == rest;
  }

  /** The walk of an encoded list delivers exactly the written types and payloads, in order. */
  lemma {:induction false} WalkEnc(items: seq<Attr>, rest: seq<uint8>)
    requires AllWellFormed(items)
    ensures Walk(Enc(items) + rest) == RawsOf(items) + Walk(rest)
    decreases |items|
  {
    if items == [] {
      assert Enc(items) + rest == rest;
      assert RawsOf(items) + Walk(rest) == Walk(rest);
    } else {
      var init, a := items[..|items| - 1], items[|items| - 1];
      assert Enc(items) == Enc(init) + EncOne(a) && RawsOf(items) == RawsOf(init) + [RawOf(a)];
      RawFits(a);
      WalkEnc(init, EncOne(a) + rest);
      hide Enc, EncOne, Walk, Frame, RawOf, RawsOf, WellFormed;
      EncFrame(a);
      WalkFrame(RawOf(a), rest);
      Regroup(Enc(init), EncOne(a), rest);
      Regroup(RawsOf(init), [RawOf(a)], Walk(rest));
    }
  }

  lemma {:induction false} Regroup<T>(a: seq<T>, b: seq<T>, c: seq<T>)
    ensures (a + b) + c == a + (b + c)
  {
  }

  lemma {:induction false} RawFits(a: Attr)
    requires WellFormed(a)
    ensures 4 + |RawOf(a).payload| < 0x1_0000 && 0 <= RawOf(a).typ < 0x1_0000
  {
  }

  /** The tree a receiver builds: mnl_attr_get_type masks the flags, and a nested payload is walked again. */
  function Tree(b: seq<uint8>): seq<Attr>
    decreases |b|
  {
    if AttrOk(b) then
      var raw := First(b);
      var a := if raw.typ >= NESTED
        then Nest(raw.typ % 0x4000, Tree(raw.payload)) else Leaf(raw.typ % 0x4000, raw.payload);
      [a] + Tree(Next(b))
    else []
  }

  /** Reading back a written list gives the list. */
  lemma {:induction false} TreeEnc(items: seq<Attr>, rest: seq<uint8>)
    requires AllWellFormed(items)
    ensures Tree(Enc(items) + rest) == items + Tree(rest)
    decreases items
  {
    if items == [] {
      assert Enc(items) + rest == rest;
      assert items + Tree(rest) == Tree(rest);
    } else {
      var init, a := items[..|items| - 1], items[|items| - 1];
      assert Enc(items) == Enc(init) + EncOne(a) && items == init + [a];
      TreeEnc(init, EncOne(a) + rest);
      if a.Nest? {
        TreeEnc(a.items, []);
        assert Enc(a.items) + [] == Enc(a.items);
        assert Tree([]) == [] && a.items + [] == a.items;
      }
      TreeFront(a, rest);
      hide Enc, EncOne, Tree;
      Regroup(Enc(init), EncOne(a), rest);
      Regroup(init, [a], Tree(rest));
    }
  }

  lemma {:induction false} TreeFront(a: Attr, rest: seq<uint8>)
    requires WellFormed(a) && (a.Nest? ==> Tree(Enc(a.items)) == a.items)
    ensures Tree(EncOne(a) + rest) == [a] + Tree(rest)
  {
    hide Enc, EncOne, Frame;
    RawFits(a);
    EncFrame(a);
    FrameRead(RawOf(a), rest);
    assert Next(EncOne(a) + rest) == rest;
  }

  // ----- the writer -----

  /** An entry under construction: its header bytes and the attributes written so far. */
  datatype Open = Open(head: seq<uint8>, typ: nat, items: seq<Attr>)

  /** The bytes of a message whose innermost open entry is the last of the stack. */
  function Image(stack: seq<Open>): seq<uint8>
  {
    if stack == [] then [] else
    var top := stack[|stack| - 1];
    Image(stack[..|stack| - 1]) + top.head + Enc(top.items)
  }

  /** The stack with one more attribute in its innermost entry. */
  function Push(stack: seq<Open>, a: Attr): seq<Open>
    requires stack != []
  {
    var top := stack[|stack| - 1];
    stack[..|stack| - 1] + [Open(top.head, top.typ, top.items + [a])]
  }

  /** Entry 0 is the message, behind its two headers; the others are nests whose length is not written yet. */
  ghost predicate Nested(stack: seq<Open>)
  {
    && stack != [] && |stack[0].head| == HEADERS
    && (forall i :: 0 < i < |stack| ==> OpenNest(stack[i]))
    && forall i :: 0 <= i < |stack| ==> AllWellFormed(stack[i].items)
  }

  ghost predicate OpenNest(o: Open)
  {
    |o.head| == 4 && o.head[2..] == U16(NESTED + o.typ) && o.typ < 0x4000
  }

  lemma {:induction false} NestedPush(stack: seq<Open>, a: Attr)
    requires Nested(stack) && WellFormed(a)
    ensures Nested(Push(stack, a))
  {
    hide WellFormed, U16;
    var p, n := Push(stack, a), |stack| - 1;
    assert forall i :: 0 <= i < n ==> p[i] == stack[i];
  }

  lemma {:induction false} NestedPop(stack: seq<Open>)
    requires Nested(stack) && |stack| > 1
    ensures Nested(stack[..|stack| - 1])
  {
    hide WellFormed, OpenNest, AllWellFormed;
  }

  lemma {:induction false} ImagePush(stack: seq<Open>, a: Attr)
    requires stack != []
    ensures Image(Push(stack, a)) == Image(stack) + EncOne(a)
  {
    var top, p := stack[|stack| - 1], Push(stack, a);
    EncAppend(top.items, a);
    assert p[..|p| - 1] == stack[..|stack| - 1];
    assert Image(p) == Image(stack[..|stack| - 1]) + top.head + Enc(top.items + [a]);
    hide Enc, EncOne, Push;
    Regroup(Image(stack[..|stack| - 1]) + top.head, Enc(top.items), EncOne(a));
  }

  lemma {:induction false} ImageOpen(stack: seq<Open>, o: Open)
    requires o.items == []
    ensures Image(stack + [o]) == Image(stack) + o.head
  {
    assert (stack + [o])[..|stack|] == stack;
    assert Enc([]) == [];
    hide Enc;
  }

  /** Writing the length over the first two header bytes completes a nest. */
  lemma {:induction false} ImageClose(stack: seq<Open>, bytes: seq<uint8>)
    requires |stack| > 1 && OpenNest(stack[|stack| - 1])
    requires var start := |Image(stack[..|stack| - 1])|;
             && |bytes| == |Image(stack)| && start + 4 <= |bytes| && bytes[..start] == Image(stack)[..start]
             && bytes[start..start + 2] == U16(|bytes| - start) && bytes[start + 2..] == Image(stack)[start + 2..]
    ensures var top := stack[|stack| - 1];
            bytes == Image(Push(stack[..|stack| - 1], Nest(top.typ, top.items)))
  {
    var init, top := stack[..|stack| - 1], stack[|stack| - 1];
    var start, body := |Image(init)|, Enc(top.items);
    ImagePush(init, Nest(top.typ, top.items));
    assert Image(stack) == Image(init) + top.head + body;
    assert EncOne(Nest(top.typ, top.items)) == U16(4 + |body|) + U16(NESTED + top.typ) + body;
    hide Enc, EncOne, Image, U16, Push;
    CloseBytes(Image(init), top.head, body, U16(4 + |body|), U16(NESTED + top.typ), bytes);
  }

  lemma {:induction false} CloseBytes(pre: seq<uint8>, head: seq<uint8>, body: seq<uint8>, length: seq<uint8>,
                                      typ: seq<uint8>, bytes: seq<uint8>)
    requires |head| == 4 && |length| == 2 && head[2..] == typ
    requires |bytes| == |pre + head + body| && bytes[..|pre|] == pre && bytes[|pre|..|pre| + 2] == length
    requires bytes[|pre| + 2..] == (pre + head + body)[|pre| + 2..]
    ensures bytes == pre + (length + typ + body)
  {
    assert (pre + head + body)[|pre| + 2..] == typ + body;
    assert bytes == bytes[..|pre|] + bytes[|pre|..|pre| + 2] + bytes[|pre| + 2..];
  }

  lemma {:induction false} CloseFits(stack: seq<Open>)
    requires Nested(stack) && |stack| > 1 && |Image(stack)| <= 0x1_0000
    ensures var init, top := stack[..|stack| - 1], stack[|stack| - 1];
            && OpenNest(top) && |Image(init)| + 4 <= |Image(stack)| && |Image(init)| % 4 == 0
            && Nested(init) && Nested(Push(init, Nest(top.typ, top.items)))
  {
    var init, top := stack[..|stack| - 1], stack[|stack| - 1];
    NestedPop(stack);
    ImageHeaders(init);
    assert WellFormed(Nest(top.typ, top.items));
    NestedPush(init, Nest(top.typ, top.items));
  }

  lemma {:induction false} ImageHeaders(stack: seq<Open>)
    requires Nested(stack)
    ensures |Image(stack)| >= HEADERS && |Image(stack)| % 4 == 0
  {
    hide Enc, EncOne, WellFormed, AllWellFormed;
    var init, top := stack[..|stack| - 1], stack[|stack| - 1];
    var pre, body := Image(init), Enc(top.items);
    assert Image(stack) == pre + top.head + body && |body| % 4 == 0;
    if |stack| > 1 {
      assert |top.head| == 4 by { assert OpenNest(top); }
      NestedPop(stack);
      ImageHeaders(init);
    } else {
      assert pre == [] && top == stack[0];
    }
  }

  lemma {:induction false} PutFits(stack: seq<Open>, n: nat)
    requires Nested(stack) && |Image(stack)| + 4 + Align(n) <= 0x1_0000
    ensures 4 + n < 0x1_0000 && stack != []
  {
    hide Image, Align, AllWellFormed, OpenNest;
    ImageHeaders(stack);
  }

  lemma {:induction false} PutStep(stack: seq<Open>, a: Attr)
    requires Nested(stack) && a.Leaf? && a.typ < 0x4000 && 4 + |a.payload| < 0x1_0000
    ensures Nested(Push(stack, a))
    ensures Image(Push(stack, a)) ==
            Image(stack) + U16(4 + |a.payload|) + U16(a.typ) + a.payload + Zeros(Align(|a.payload|) - |a.payload|)
  {
    NestedPush(stack, a);
    ImagePush(stack, a);
    hide U16, Zeros, Image, Push;
    Join(Image(stack), U16(4 + |a.payload|), U16(a.typ), a.payload, Zeros(Align(|a.payload|) - |a.payload|));
  }

  lemma {:induction false} Join<T>(a: seq<T>, b: seq<T>, c: seq<T>, d: seq<T>, e: seq<T>)
    ensures a + (b + c + d + e) == a + b + c + d + e
  {
  }

  const HEADERS: nat := 20

  /** A message under construction; nlmsg_len is the field len. */
  class Message {
    const buf: array<uint8>
    var len: nat
    ghost var stack: seq<Open>

    ghost predicate Valid()
      reads this, buf
      ensures Valid() ==> stack != [] && len <= buf.Length <= 0x1_0000
    {
      && len <= buf.Length <= 0x1_0000 && len % 4 == 0
      && Nested(stack) && buf[..len] == Image(stack)
    }

    /** mnlg_msg_prepare: an empty message behind its headers. */
    constructor (capacity: nat, headers: seq<uint8>)
      requires |headers| == HEADERS <= capacity <= 0x1_0000
      ensures Valid() && fresh(buf) && buf.Length == capacity && len == HEADERS
      ensures stack == [Open(headers, 0, [])]
    {
      buf := new uint8[capacity](_ => 0);
      len := HEADERS;
      stack := [Open(headers, 0, [])];
      new;
      Store(0, headers);
      ImageOpen([], stack[0]);
      assert [] + [stack[0]] == stack && Image([]) == [];
    }

    /** memcpy into the buffer. */
    method Store(at: nat, data: seq<uint8>)
      requires at + |data| <= buf.Length
      modifies buf
      ensures buf[..at] == old(buf[..at]) && buf[..at + |data|] == old(buf[..at]) + data
      ensures buf[at + |data|..] == old(buf[at + |data|..])
    {
      for i := 0 to |data|
        invariant buf[..at] == old(buf[..at]) && buf[at..at + i] == data[..i]
        invariant buf[at + i..] == old(buf[at + i..])
      {
        buf[at + i] := data[i];
      }
    }

    /** mnl_attr_put */
    method Put(typ: nat, payload: seq<uint8>)
      requires Valid() && typ < 0x4000 && len + 4 + Align(|payload|) <= buf.Length
      modifies this, buf
      ensures Valid() && len == old(len) + 4 + Align(|payload|)
      ensures stack == Push(old(stack), Leaf(typ, payload))
    {
      hide U16, Zeros, Enc, EncOne, Image, Push, Align;
      ghost var a := Leaf(typ, payload);
      PutFits(stack, |payload|);
      PutStep(stack, a);
      hide Nested;
      Append(typ, payload);
      len := len + 4 + Align(|payload|);
      stack := Push(stack, a);
    }

    /** Header, payload and padding behind the message. */
    method Append(typ: nat, payload: seq<uint8>)
      requires len + 4 + Align(|payload|) <= buf.Length
      modifies buf
      ensures buf[..len + 4 + Align(|payload|)] ==
              old(buf[..len]) + U16(4 + |payload|) + U16(typ) + payload + Zeros(Align(|payload|) - |payload|)
    {
      hide U16, Zeros;
      var end := len + 4 + |payload|;
      Store(len, U16(4 + |payload|));
      Store(len + 2, U16(typ));
      Store(len + 4, payload);
      Store(end, Zeros(Align(|payload|) - |payload|));
    }

    /** mnl_attr_put_check */
    method PutCheck(typ: nat, payload: seq<uint8>) returns (ok: bool)
      requires Valid() && typ < 0x4000
      modifies this, buf
      ensures Valid() && ok == (old(len) + 4 + Align(|payload|) <= buf.Length)
      ensures ok ==> len == old(len) + 4 + Align(|payload|) && stack == Push(old(stack), Leaf(typ, payload))
      ensures !ok ==> len == old(len) && stack == old(stack)
    {
      ok := len + 4 + Align(|payload|) <= buf.Length;
      if ok { Put(typ, payload); }
    }

    /** mnl_attr_nest_start: the length of the nest is left as it lies in the buffer. */
    method NestStart(typ: nat) returns (start: nat)
      requires Valid() && typ < 0x4000 && len + 4 <= buf.Length
      modifies this, buf
      ensures Valid() && len == old(len) + 4
      ensures start == old(len) == |Image(old(stack))|
      ensures |stack| == |old(stack)| + 1 && stack[..|old(stack)|] == old(stack)
      ensures stack[|old(stack)|].typ == typ && stack[|old(stack)|].items == []
    {
      hide U16, Enc, EncOne, Image;
      start := len;
      Store(start + 2, U16(NESTED + typ));
      len := len + 4;
      ghost var o := Open(buf[start..start + 4], typ, []);
      ImageOpen(stack, o);
      stack := stack + [o];
    }

    /** mnl_attr_nest_end */
    method NestEnd(start: nat)
      requires Valid() && |stack| > 1 && start == |Image(stack[..|stack| - 1])|
      modifies this, buf
      ensures Valid() && len == old(len)
      ensures var top := old(stack)[|old(stack)| - 1];
              stack == Push(old(stack)[..|old(stack)| - 1], Nest(top.typ, top.items))
    {
      hide U16, Enc, EncOne, Image, Nested, Push, OpenNest;
      ghost var top, image := stack[|stack| - 1], buf[..len];
      CloseFits(stack);
      Store(start, U16(len - start));
      assert buf[..start + 2][start..] == U16(len - start);
      assert buf[start + 2..len] == image[start + 2..];
      ImageClose(stack, buf[..len]);
      stack := Push(stack[..|stack| - 1], Nest(top.typ, top.items));
    }

    /** mnl_attr_nest_cancel: the message is again what it was before the nest was started. */
    method NestCancel(start: nat)
      requires Valid() && |stack| > 1 && start == |Image(stack[..|stack| - 1])|
      modifies this
      ensures Valid() && len == start && stack == old(stack)[..|old(stack)| - 1]
    {
      hide U16, Enc, EncOne, Nested, OpenNest;
      CloseFits(stack);
      assert Image(stack)[..start] == Image(stack[..|stack| - 1]);
      hide Image;
      len := start;
      stack := stack[..|stack| - 1];
    }
  }

  /** When every nest is ended or cancelled, the walkers deliver exactly what was written and not cancelled. */
  lemma {:induction false} ReadBack(m: Message)
    requires m.Valid() && |m.stack| == 1
    ensures |m.buf[..m.len]| >= HEADERS
    ensures Walk(m.buf[HEADERS..m.len]) == RawsOf(m.stack[0].items)
    ensures Tree(m.buf[HEADERS..m.len]) == m.stack[0].items
  {
    var stack, items := m.stack, m.stack[0].items;
    assert Image(stack[..0]) == [];
    assert Image(stack) == stack[0].head + Enc(items);
    hide Image, Enc, EncOne, WellFormed;
    assert m.buf[HEADERS..m.len] == m.buf[..m.len][HEADERS..] == Enc(items) + [];
    WalkEnc(items, []);
    TreeEnc(items, []);
    assert Walk([]) == [] && Tree([]) == [] && items + [] == items && RawsOf(items) + [] == RawsOf(items);
    hide Walk, Tree, RawsOf;
  }
}
