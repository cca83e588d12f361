/**
 The netlink message builder and attribute walker (src/nl.rs).

 `NlBuf` appends to one buffer and writes each length field only when its scope closes. The meaning of a
 sequence of builder calls is a tree of items, and the bytes in the buffer are the recursive encoding of
 that tree, scopes still open included.
 */
module Netlink {
  import opened Bytes
  import opened Wrappers

  const NLM_F_REQUEST: u16 := 0x1
  const NLM_F_ACK: u16 := 0x4
  const NLM_F_CREATE: u16 := 0x400

  function Align4(n: nat): nat { (n + 3) / 4 * 4 }

  function Padded(s: seq<byte>): seq<byte> { s + Zeros(Align4(|s|) - |s|) }

  // typ | NLA_F_NESTED
  function Flagged(typ: u16): u16 { if typ < 0x8000 then typ + 0x8000 else typ }

  // ---- the tree and its recursive encoding ----

  datatype Item =
    | Chunk(bytes: seq<byte>)
    | Raw(typ: u16, payload: seq<byte>)
    | Nested(typ: u16, kids: seq<Item>)
    | Message(typ: u16, flags: u16, number: u32, body: seq<Item>)

  function AttrHeader(typ: u16, length: nat): (s: seq<byte>)
    ensures |s| == 4
  {
    Le16(ToU16(4 + length)) + Le16(typ)
  }

  function MessageHeader(typ: u16, flags: u16, number: u32, length: nat): (s: seq<byte>)
    ensures |s| == 16
  {
    Le32(ToU32(16 + length)) + Le16(typ) + Le16(flags) + Le32(number) + Le32(0)
  }

  /** A fresh sequence of bytes for each item: the encoder that the buffer replaces. */
  function Encode(item: Item): seq<byte> {
    match item
    case Chunk(bytes) => bytes
    case Raw(typ, payload) => Padded(AttrHeader(typ, |payload|) + payload)
    case Nested(typ, kids) =>
      var content := EncodeAll(kids);
      Padded(AttrHeader(Flagged(typ), |content|) + content)
    case Message(typ, flags, number, body) =>
      var content := EncodeAll(body);
      Padded(MessageHeader(typ, flags, number, |content|) + content)
  }

  function EncodeAll(items: seq<Item>): seq<byte> {
    if items == [] then [] else EncodeAll(items[..|items| - 1]) + Encode(items[|items| - 1])
  }

  lemma {:induction false} EncodeAllConcat(a: seq<Item>, b: seq<Item>)
    ensures EncodeAll(a + b) == EncodeAll(a) + EncodeAll(b)
  {
    if b == [] {
      assert a + b == a;
    } else {
      var n := |b| - 1;
      assert (a + b)[..|a + b| - 1] == a + b[..n];
      EncodeAllConcat(a, b[..n]);
    }
  }

  lemma EncodeAllPrepend(item: Item, items: seq<Item>)
    ensures EncodeAll([item] + items) == Encode(item) + EncodeAll(items)
  {
    EncodeAllConcat([item], items);
    assert EncodeAll([item]) == EncodeAll([]) + Encode(item);
  }

  // ---- scopes still open ----

  datatype Kind = Root | InNested(typ: u16) | InMessage(typ: u16, flags: u16, number: u32)
  datatype Frame = Frame(kind: Kind, items: seq<Item>)

  // What `begin_*` appends: the header with its length field still zero.
  function OpenHeader(kind: Kind): (s: seq<byte>)
    ensures |s| == (match kind case Root => 0 case InNested(_) => 4 case InMessage(_, _, _) => 16)
  {
    match kind
    case Root => []
    case InNested(typ) => [0, 0] + Le16(Flagged(typ))
    case InMessage(typ, flags, number) => [0, 0, 0, 0] + Le16(typ) + Le16(flags) + Le32(number) + Le32(0)
  }

  function Render(frames: seq<Frame>): seq<byte> {
    if frames == [] then []
    else Render(Outer(frames)) + OpenHeader(Top(frames).kind) + EncodeAll(Top(frames).items)
  }

  function Top(frames: seq<Frame>): Frame
    requires frames != []
  {
    frames[|frames| - 1]
  }

  function Outer(frames: seq<Frame>): seq<Frame>
    requires frames != []
  {
    frames[..|frames| - 1]
  }

  // The offset at which the innermost open scope starts.
  function Offset(frames: seq<Frame>): nat
    requires frames != []
  {
    |Render(Outer(frames))|
  }

  // One root frame, and every scope inside it opened at a 4-aligned offset.
  predicate WellFormed(frames: seq<Frame>) {
    && frames != []
    && if |frames| == 1 then Top(frames).kind == Root
       else Top(frames).kind != Root && Offset(frames) % 4 == 0 && WellFormed(Outer(frames))
  }

  function Add(frames: seq<Frame>, item: Item): (r: seq<Frame>)
    requires frames != []
    ensures |r| == |frames| && Outer(r) == Outer(frames)
  {
    Outer(frames) + [Frame(Top(frames).kind, Top(frames).items + [item])]
  }

  function Open(frames: seq<Frame>, kind: Kind): (r: seq<Frame>)
    ensures r != [] && Outer(r) == frames && Top(r) == Frame(kind, [])
  {
    frames + [Frame(kind, [])]
  }

  function Closed(frame: Frame): Item
    requires frame.kind != Root
  {
    match frame.kind
    case InNested(typ) => Nested(typ, frame.items)
    case InMessage(typ, flags, number) => Message(typ, flags, number, frame.items)
  }

  function Close(frames: seq<Frame>): (r: seq<Frame>)
    requires |frames| >= 2 && Top(frames).kind != Root
    ensures |r| == |frames| - 1
  {
    Add(Outer(frames), Closed(Top(frames)))
  }

  lemma RenderAdd(frames: seq<Frame>, item: Item)
    requires frames != []
    ensures Render(Add(frames, item)) == Render(frames) + Encode(item)
  {
    var items := Top(frames).items;
    assert (items + [item])[..|items|] == items;
  }

  lemma CloseWellFormed(frames: seq<Frame>)
    requires WellFormed(frames) && |frames| >= 2
    ensures Top(frames).kind != Root && Offset(frames) % 4 == 0
    ensures WellFormed(Outer(frames)) && WellFormed(Close(frames))
  {
  }

  lemma OpenRefines(frames: seq<Frame>, kind: Kind)
    requires WellFormed(frames) && kind != Root && |Render(frames)| % 4 == 0
    ensures WellFormed(Open(frames, kind)) && Offset(Open(frames, kind)) == |Render(frames)|
    ensures Render(Open(frames, kind)) == Render(frames) + OpenHeader(kind)
  {
  }

  // ---- what each call does to the bytes ----

  function Patch(s: seq<byte>, at: nat, field: seq<byte>): (r: seq<byte>)
    requires at + |field| <= |s|
    ensures |r| == |s|
  {
    s[..at] + field + s[at + |field|..]
  }

  function AttrBytes(buf: seq<byte>, typ: u16, payload: seq<byte>): (r: seq<byte>)
    ensures |r| % 4 == 0
  {
    Padded(buf + Le16(ToU16(4 + |payload|)) + Le16(typ) + payload)
  }

  function EndNestedBytes(buf: seq<byte>, off: nat): (r: seq<byte>)
    requires off + 2 <= |buf|
    ensures |r| % 4 == 0
  {
    Padded(Patch(buf, off, Le16(ToU16(|buf| - off))))
  }

  function EndMessageBytes(buf: seq<byte>, off: nat): (r: seq<byte>)
    requires off + 4 <= |buf|
    ensures |r| % 4 == 0
  {
    Padded(Patch(buf, off, Le32(ToU32(|buf| - off))))
  }

  lemma PaddedShift(a: seq<byte>, b: seq<byte>)
    requires |a| % 4 == 0
    ensures Padded(a + b) == a + Padded(b)
  {
    assert Align4(|a + b|) == |a| + Align4(|b|);
  }

  lemma PatchOpened(base: seq<byte>, blank: seq<byte>, field: seq<byte>, rest: seq<byte>, content: seq<byte>)
    requires |blank| == |field|
    ensures Patch(base + (blank + rest) + content, |base|, field) == base + (field + rest + content)
  {
    var s := base + (blank + rest) + content;
    assert s[..|base|] == base;
    assert s[|base| + |field|..] == rest + content;
  }

  lemma ReassociateHeader(a: seq<byte>, b: seq<byte>, c: seq<byte>, d: seq<byte>, e: seq<byte>, f: seq<byte>)
    ensures a + b + c + d + e + f == a + (b + c + d + e + f)
    ensures b + c + d + e + f == b + (c + d + e + f)
  {
    Regroup(b, c, d, e);
    assert b + c + d + e + f == b + (c + d + e + f);
  }

  lemma AttrRefines(frames: seq<Frame>, typ: u16, payload: seq<byte>)
    requires frames != [] && |Render(frames)| % 4 == 0
    ensures AttrBytes(Render(frames), typ, payload) == Render(Add(frames, Raw(typ, payload)))
  {
    RenderAdd(frames, Raw(typ, payload));
    Regroup(Render(frames), Le16(ToU16(4 + |payload|)), Le16(typ), payload);
    PaddedShift(Render(frames), AttrHeader(typ, |payload|) + payload);
  }

  lemma AttrStrBytes(buf: seq<byte>, typ: u16, s: seq<byte>)
    ensures Padded(buf + Le16(ToU16(4 + |s| + 1)) + Le16(typ) + s + [0]) == AttrBytes(buf, typ, s + [0])
  {
    var header := buf + Le16(ToU16(4 + |s| + 1)) + Le16(typ);
    assert header + s + [0] == header + (s + [0]);
  }

  lemma EndNestedPatches(base: seq<byte>, typ: u16, content: seq<byte>)
    requires |base| % 4 == 0
    ensures EndNestedBytes(base + OpenHeader(InNested(typ)) + content, |base|)
         == base + Padded(AttrHeader(Flagged(typ), |content|) + content)
  {
    PatchOpened(base, [0, 0], Le16(ToU16(4 + |content|)), Le16(Flagged(typ)), content);
    PaddedShift(base, AttrHeader(Flagged(typ), |content|) + content);
  }

  lemma OpenMessageBytes(buf: seq<byte>, typ: u16, flags: u16, number: u32)
    ensures buf + [0, 0, 0, 0] + Le16(typ) + Le16(flags) + Le32(number) + Le32(0)
         == buf + OpenHeader(InMessage(typ, flags, number))
  {
    ReassociateHeader(buf, [0, 0, 0, 0], Le16(typ), Le16(flags), Le32(number), Le32(0));
  }

  lemma EndMessagePatches(base: seq<byte>, typ: u16, flags: u16, number: u32, content: seq<byte>)
    requires |base| % 4 == 0
    ensures EndMessageBytes(base + OpenHeader(InMessage(typ, flags, number)) + content, |base|)
         == base + Padded(MessageHeader(typ, flags, number, |content|) + content)
  {
    var size := Le32(ToU32(16 + |content|));
    ReassociateHeader([], [0, 0, 0, 0], Le16(typ), Le16(flags), Le32(number), Le32(0));
    ReassociateHeader([], size, Le16(typ), Le16(flags), Le32(number), Le32(0));
    PatchOpened(base, [0, 0, 0, 0], size, Le16(typ) + Le16(flags) + Le32(number) + Le32(0), content);
    PaddedShift(base, MessageHeader(typ, flags, number, |content|) + content);
  }

  lemma EndNestedRefines(frames: seq<Frame>)
    requires |frames| >= 2 && Top(frames).kind.InNested? && Offset(frames) % 4 == 0
    ensures |Render(Close(frames))| % 4 == 0
    ensures Offset(frames) + 4 <= |Render(frames)|
    ensures EndNestedBytes(Render(frames), Offset(frames)) == Render(Close(frames))
  {
    hide OpenHeader, EndNestedBytes, EncodeAll, Padded, AttrHeader;
    var outer, top := Outer(frames), Top(frames);
    RenderAdd(outer, Closed(top));
    EndNestedPatches(Render(outer), top.kind.typ, EncodeAll(top.items));
  }

  lemma EndMessageRefines(frames: seq<Frame>)
    requires |frames| >= 2 && Top(frames).kind.InMessage? && Offset(frames) % 4 == 0
    ensures |Render(Close(frames))| % 4 == 0
    ensures Offset(frames) + 16 <= |Render(frames)|
    ensures EndMessageBytes(Render(frames), Offset(frames)) == Render(Close(frames))
  {
    hide OpenHeader, EndMessageBytes, EncodeAll, Padded, MessageHeader;
    var outer, top := Outer(frames), Top(frames);
    RenderAdd(outer, Closed(top));
    EndMessagePatches(Render(outer), top.kind.typ, top.kind.flags, top.kind.number, EncodeAll(top.items));
  }

  // ---- the builder ----

  datatype Scope = Scope(off: nat)

  class NlBuf {
    var buf: seq<byte>
    ghost var frames: seq<Frame>

    ghost predicate Valid()
      reads this
    {
      frames != [] && WellFormed(frames) && buf == Render(frames)
    }

    constructor ()
      ensures Valid() && frames == [Frame(Root, [])]
    {
      buf := [];
      frames := [Frame(Root, [])];
    }

    method Pad()
      modifies `buf
      ensures buf == Padded(old(buf))
    {
      while |buf| % 4 != 0
        invariant |buf| <= Align4(|old(buf)|)
        invariant buf == old(buf) + Zeros(|buf| - |old(buf)|)
        decreases Align4(|old(buf)|) - |buf|
      {
        buf := buf + [0];
      }
    }

    // The buffer renders a tree and the next attribute or scope starts at a multiple of four.
    ghost predicate Aligned()
      reads this
    {
      Valid() && |buf| % 4 == 0
    }

    method PutBytes(b: seq<byte>)
      modifies this
      ensures buf == old(buf) + b
      ensures old(Valid()) ==> Valid() && frames == Add(old(frames), Chunk(b))
    {
      if Valid() {
        RenderAdd(frames, Chunk(b));
        frames := Add(frames, Chunk(b));
      }
      buf := buf + b;
    }

    method Attr(typ: u16, payload: seq<byte>)
      modifies this
      ensures buf == AttrBytes(old(buf), typ, payload)
      ensures old(Aligned()) ==> Aligned() && frames == Add(old(frames), Raw(typ, payload))
    {
      ghost var aligned := Aligned();
      if aligned {
        AttrRefines(frames, typ, payload);
        assert WellFormed(Add(frames, Raw(typ, payload)));
      }
      hide Render, WellFormed, Padded, Le16, Add;
      buf := buf + Le16(ToU16(4 + |payload|));
      buf := buf + Le16(typ);
      buf := buf + payload;
      Pad();
      if aligned {
        frames := Add(frames, Raw(typ, payload));
      }
    }

    method AttrU32Be(typ: u16, v: u32)
      modifies this
      ensures buf == AttrBytes(old(buf), typ, Be32(v))
      ensures old(Aligned()) ==> Aligned() && frames == Add(old(frames), Raw(typ, Be32(v)))
    {
      Attr(typ, Be32(v));
    }

    method AttrStr(typ: u16, s: seq<byte>)
      modifies this
      ensures buf == AttrBytes(old(buf), typ, s + [0])
      ensures old(Aligned()) ==> Aligned() && frames == Add(old(frames), Raw(typ, s + [0]))
    {
      ghost var aligned := Aligned();
      AttrStrBytes(buf, typ, s);
      if aligned {
        AttrRefines(frames, typ, s + [0]);
        frames := Add(frames, Raw(typ, s + [0]));
        assert WellFormed(frames);
      }
      hide Render, WellFormed, Padded, Le16, Add;
      buf := buf + Le16(ToU16(4 + |s| + 1)) + Le16(typ);
      buf := buf + s;
      buf := buf + [0];
      Pad();
    }

    method BeginNested(typ: u16) returns (scope: Scope)
      modifies this
      ensures buf == old(buf) + OpenHeader(InNested(typ)) && scope.off == |old(buf)|
      ensures old(Aligned()) ==> Aligned() && frames == Open(old(frames), InNested(typ)) && scope.off == Offset(frames)
    {
      if Aligned() {
        OpenRefines(frames, InNested(typ));
        frames := Open(frames, InNested(typ));
      }
      scope := Scope(|buf|);
      buf := buf + [0, 0];
      buf := buf + Le16(Flagged(typ));
    }

    // The scope is the innermost one of the tree.
    ghost predicate Closes(scope: Scope)
      reads this
    {
      Valid() && |frames| >= 2 && scope.off == Offset(frames)
    }

    method EndNested(scope: Scope)
      requires scope.off + 2 <= |buf| || (Closes(scope) && Top(frames).kind.InNested?)
      modifies this
      ensures scope.off + 2 <= |old(buf)| && buf == EndNestedBytes(old(buf), scope.off)
      ensures old(Closes(scope) && Top(frames).kind.InNested?) ==> Aligned() && frames == Close(old(frames))
    {
      ghost var closes := Closes(scope) && Top(frames).kind.InNested?;
      if closes {
        CloseWellFormed(frames);
        EndNestedRefines(frames);
      }
      var len := ToU16(|buf| - scope.off);
      buf := Patch(buf, scope.off, Le16(len));
      Pad();
      if closes {
        frames := Close(frames);
      }
    }

    method BeginMessage(typ: u16, flags: u16, number: u32) returns (scope: Scope)
      modifies this
      ensures buf == old(buf) + OpenHeader(InMessage(typ, flags, number)) && scope.off == |old(buf)|
      ensures old(Aligned()) ==>
                Aligned() && frames == Open(old(frames), InMessage(typ, flags, number)) && scope.off == Offset(frames)
    {
      OpenMessageBytes(buf, typ, flags, number);
      ghost var aligned := Aligned();
      if aligned {
        OpenRefines(frames, InMessage(typ, flags, number));
      }
      hide Render, WellFormed, Offset, OpenHeader, Le16, Le32, Open;
      if aligned {
        frames := Open(frames, InMessage(typ, flags, number));
      }
      scope := Scope(|buf|);
      buf := buf + [0, 0, 0, 0];
      buf := buf + Le16(typ);
      buf := buf + Le16(flags);
      buf := buf + Le32(number);
      buf := buf + Le32(0);
    }

    method EndMessage(scope: Scope)
      requires scope.off + 4 <= |buf| || (Closes(scope) && Top(frames).kind.InMessage?)
      modifies this
      ensures scope.off + 4 <= |old(buf)| && buf == EndMessageBytes(old(buf), scope.off)
      ensures old(Closes(scope) && Top(frames).kind.InMessage?) ==> Aligned() && frames == Close(old(frames))
    {
      ghost var closes := Closes(scope) && Top(frames).kind.InMessage?;
      if closes {
        CloseWellFormed(frames);
        EndMessageRefines(frames);
      }
      var len := ToU32(|buf| - scope.off);
      buf := Patch(buf, scope.off, Le32(len));
      Pad();
      assert buf == EndMessageBytes(old(buf), scope.off);
      if closes {
        frames := Close(frames);
      }
    }
  }

  // ---- whole runs of calls ----

  datatype Call =
    | PutBytes(bytes: seq<byte>)
    | Attr(typ: u16, payload: seq<byte>)
    | BeginNested(typ: u16)
    | EndNested
    | BeginMessage(typ: u16, flags: u16, number: u32)
    | EndMessage

  // The buffer and the scopes its callers hold, innermost last.
  datatype Builder = Builder(buf: seq<byte>, scopes: seq<nat>)

  function Innermost(b: Builder): nat
    requires b.scopes != []
  {
    b.scopes[|b.scopes| - 1]
  }

  // A call is legal when an attribute or a scope starts 4-aligned and an end has a scope to close.
  predicate Legal(b: Builder, call: Call) {
    match call
    case PutBytes(_) => true
    case EndNested => b.scopes != [] && Innermost(b) + 2 <= |b.buf|
    case EndMessage => b.scopes != [] && Innermost(b) + 4 <= |b.buf|
    case _ => |b.buf| % 4 == 0
  }

  function Step(b: Builder, call: Call): Builder
    requires Legal(b, call)
  {
    match call
    case PutBytes(bytes) => b.(buf := b.buf + bytes)
    case Attr(typ, payload) => b.(buf := AttrBytes(b.buf, typ, payload))
    case BeginNested(typ) => Builder(b.buf + OpenHeader(InNested(typ)), b.scopes + [|b.buf|])
    case EndNested => Builder(EndNestedBytes(b.buf, Innermost(b)), b.scopes[..|b.scopes| - 1])
    case BeginMessage(typ, flags, number) =>
      Builder(b.buf + OpenHeader(InMessage(typ, flags, number)), b.scopes + [|b.buf|])
    case EndMessage => Builder(EndMessageBytes(b.buf, Innermost(b)), b.scopes[..|b.scopes| - 1])
  }

  predicate LegalRun(b: Builder, calls: seq<Call>)
    decreases |calls|
  {
    calls == [] || (Legal(b, calls[0]) && LegalRun(Step(b, calls[0]), calls[1..]))
  }

  function Run(b: Builder, calls: seq<Call>): Builder
    requires LegalRun(b, calls)
    decreases |calls|
  {
    if calls == [] then b else Run(Step(b, calls[0]), calls[1..])
  }

  // Each end closes a scope of its own kind.
  predicate Bracketed(frames: seq<Frame>, calls: seq<Call>)
    requires frames != []
    decreases |calls|
  {
    calls == [] || (Matches(frames, calls[0]) && Bracketed(Grow(frames, calls[0]), calls[1..]))
  }

  predicate Matches(frames: seq<Frame>, call: Call)
    requires frames != []
  {
    match call
    case EndNested => |frames| >= 2 && Top(frames).kind.InNested?
    case EndMessage => |frames| >= 2 && Top(frames).kind.InMessage?
    case _ => true
  }

  function Grow(frames: seq<Frame>, call: Call): (r: seq<Frame>)
    requires frames != [] && Matches(frames, call)
    ensures r != []
  {
    match call
    case PutBytes(bytes) => Add(frames, Chunk(bytes))
    case Attr(typ, payload) => Add(frames, Raw(typ, payload))
    case BeginNested(typ) => Open(frames, InNested(typ))
    case BeginMessage(typ, flags, number) => Open(frames, InMessage(typ, flags, number))
    case _ => Close(frames)
  }

  function Tree(frames: seq<Frame>, calls: seq<Call>): (r: seq<Frame>)
    requires frames != [] && Bracketed(frames, calls)
    ensures r != []
    decreases |calls|
  {
    if calls == [] then frames else Tree(Grow(frames, calls[0]), calls[1..])
  }

  ghost predicate Represents(b: Builder, frames: seq<Frame>) {
    && WellFormed(frames)
    && b.buf == Render(frames)
    && |b.scopes| == |frames| - 1
    && forall k :: 0 <= k < |b.scopes| ==> b.scopes[k] == |Render(frames[..k + 1])|
  }

  lemma BeginRefines(b: Builder, frames: seq<Frame>, kind: Kind)
    requires Represents(b, frames) && kind != Root && |b.buf| % 4 == 0
    ensures Represents(Builder(b.buf + OpenHeader(kind), b.scopes + [|b.buf|]), Open(frames, kind))
  {
    var inner := Open(frames, kind);
    assert Render(inner) == Render(frames) + OpenHeader(kind);
    forall k | 0 <= k < |frames|
      ensures (b.scopes + [|b.buf|])[k] == |Render(inner[..k + 1])|
    {
      assert inner[..k + 1] == if k < |frames| - 1 then frames[..k + 1] else frames;
    }
  }

  lemma EndRefines(b: Builder, frames: seq<Frame>, buf: seq<byte>)
    requires Represents(b, frames) && |frames| >= 2
    requires Top(frames).kind != Root && buf == Render(Close(frames))
    ensures Represents(Builder(buf, b.scopes[..|b.scopes| - 1]), Close(frames))
  {
    CloseWellFormed(frames);
    forall k | 0 <= k < |frames| - 2
      ensures b.scopes[k] == |Render(Close(frames)[..k + 1])|
    {
      assert Close(frames)[..k + 1] == frames[..k + 1];
    }
  }

  lemma AddRefines(b: Builder, frames: seq<Frame>, item: Item, buf: seq<byte>)
    requires Represents(b, frames) && buf == Render(Add(frames, item))
    ensures Represents(b.(buf := buf), Add(frames, item))
  {
    forall k | 0 <= k < |frames| - 1
      ensures b.scopes[k] == |Render(Add(frames, item)[..k + 1])|
    {
      assert Add(frames, item)[..k + 1] == frames[..k + 1];
    }
  }

  lemma InnermostIsOffset(b: Builder, frames: seq<Frame>)
    requires Represents(b, frames) && |frames| >= 2
    ensures Top(frames).kind != Root && Innermost(b) == Offset(frames) && Offset(frames) % 4 == 0
  {
    assert Outer(frames) == frames[..|frames| - 2 + 1];
  }

  lemma StepRefines(b: Builder, frames: seq<Frame>, call: Call)
    requires Represents(b, frames) && Legal(b, call) && Matches(frames, call)
    ensures Represents(Step(b, call), Grow(frames, call))
  {
    match call {
      case PutBytes(bytes) =>
        RenderAdd(frames, Chunk(bytes));
        AddRefines(b, frames, Chunk(bytes), b.buf + bytes);
      case Attr(typ, payload) =>
        AttrRefines(frames, typ, payload);
        AddRefines(b, frames, Raw(typ, payload), AttrBytes(b.buf, typ, payload));
      case BeginNested(typ) =>
        BeginRefines(b, frames, InNested(typ));
      case BeginMessage(typ, flags, number) =>
        BeginRefines(b, frames, InMessage(typ, flags, number));
      case EndNested =>
        InnermostIsOffset(b, frames);
        EndNestedRefines(frames);
        EndRefines(b, frames, EndNestedBytes(b.buf, Innermost(b)));
      case EndMessage =>
        InnermostIsOffset(b, frames);
        EndMessageRefines(frames);
        EndRefines(b, frames, EndMessageBytes(b.buf, Innermost(b)));
    }
  }

  /** In-place building refines the recursive encoder for every legal, well-bracketed run of calls. */
  lemma {:induction false} RunRefines(b: Builder, frames: seq<Frame>, calls: seq<Call>)
    requires Represents(b, frames) && LegalRun(b, calls) && Bracketed(frames, calls)
    ensures Represents(Run(b, calls), Tree(frames, calls))
    decreases |calls|
  {
    if calls != [] {
      StepRefines(b, frames, calls[0]);
      RunRefines(Step(b, calls[0]), Grow(frames, calls[0]), calls[1..]);
    }
  }

  /** Once every scope is closed the buffer holds exactly the encoding of the tree the calls describe. */
  lemma InPlaceBuildingEncodesTheTree(calls: seq<Call>)
    requires LegalRun(Builder([], []), calls) && Bracketed([Frame(Root, [])], calls)
    requires |Tree([Frame(Root, [])], calls)| == 1
    ensures Run(Builder([], []), calls) == Builder(EncodeAll(Tree([Frame(Root, [])], calls)[0].items), [])
  {
    var start := [Frame(Root, [])];
    assert Render(start) == [];
    RunRefines(Builder([], []), start, calls);
    var done := Tree(start, calls);
    assert Render(Outer(done)) == [];
  }

  // The calls that write a given tree.
  function Calls(items: seq<Item>): seq<Call>
    decreases items, 1
  {
    if items == [] then [] else Calls(items[..|items| - 1]) + CallsOf(items[|items| - 1])
  }

  function CallsOf(item: Item): seq<Call>
    decreases item, 0
  {
    match item
    case Chunk(bytes) => [PutBytes(bytes)]
    case Raw(typ, payload) => [Attr(typ, payload)]
    case Nested(typ, kids) => [BeginNested(typ)] + Calls(kids) + [EndNested]
    case Message(typ, flags, number, body) => [BeginMessage(typ, flags, number)] + Calls(body) + [EndMessage]
  }

  function AddAll(frames: seq<Frame>, items: seq<Item>): (r: seq<Frame>)
    requires frames != []
    ensures r != [] && Outer(r) == Outer(frames) && Top(r) == Frame(Top(frames).kind, Top(frames).items + items)
  {
    Outer(frames) + [Frame(Top(frames).kind, Top(frames).items + items)]
  }

  lemma AddAllSplit(frames: seq<Frame>, items: seq<Item>)
    requires frames != []
    ensures items == [] ==> AddAll(frames, items) == frames
    ensures items != [] ==>
              AddAll(frames, items) == Add(AddAll(frames, items[..|items| - 1]), items[|items| - 1])
  {
    if items == [] {
      assert Top(frames).items + items == Top(frames).items;
    } else {
      assert Top(frames).items + items
          == Top(frames).items + items[..|items| - 1] + [items[|items| - 1]];
    }
  }

  lemma {:induction false} TreeConcat(frames: seq<Frame>, a: seq<Call>, b: seq<Call>)
    requires frames != [] && Bracketed(frames, a) && Bracketed(Tree(frames, a), b)
    ensures Bracketed(frames, a + b) && Tree(frames, a + b) == Tree(Tree(frames, a), b)
    decreases |a|
  {
    if a == [] {
      assert a + b == b;
    } else {
      assert (a + b)[1..] == a[1..] + b;
      TreeConcat(Grow(frames, a[0]), a[1..], b);
    }
  }

  lemma SingleCall(frames: seq<Frame>, call: Call)
    requires frames != [] && Matches(frames, call)
    ensures Bracketed(frames, [call]) && Tree(frames, [call]) == Grow(frames, call)
  {
    hide Grow;
    assert [call][1..] == [];
  }

  lemma ScopeIsBuilt(frames: seq<Frame>, kind: Kind, kids: seq<Item>, begin: Call, end: Call)
    requires frames != [] && kind != Root
    requires Matches(frames, begin) && Grow(frames, begin) == Open(frames, kind)
    requires end == if kind.InNested? then EndNested else EndMessage
    requires Bracketed(Open(frames, kind), Calls(kids))
    requires Tree(Open(frames, kind), Calls(kids)) == AddAll(Open(frames, kind), kids)
    ensures Bracketed(frames, [begin] + Calls(kids) + [end])
    ensures Tree(frames, [begin] + Calls(kids) + [end]) == Add(frames, Closed(Frame(kind, kids)))
  {
    var inner := AddAll(Open(frames, kind), kids);
    assert Top(inner) == Frame(kind, kids) && Outer(inner) == frames;
    assert Grow(inner, end) == Add(frames, Closed(Frame(kind, kids)));
    hide Calls, Grow, Tree, Bracketed, AddAll, Add;
    SingleCall(frames, begin);
    TreeConcat(frames, [begin], Calls(kids));
    SingleCall(inner, end);
    TreeConcat(frames, [begin] + Calls(kids), [end]);
  }

  lemma {:induction false} ItemIsBuilt(frames: seq<Frame>, item: Item)
    requires frames != []
    ensures Bracketed(frames, CallsOf(item)) && Tree(frames, CallsOf(item)) == Add(frames, item)
    decreases item, 0
  {
    match item {
      case Chunk(bytes) => assert CallsOf(item)[1..] == [];
      case Raw(typ, payload) => assert CallsOf(item)[1..] == [];
      case Nested(typ, kids) =>
        ItemsAreBuilt(Open(frames, InNested(typ)), kids);
        ScopeIsBuilt(frames, InNested(typ), kids, BeginNested(typ), EndNested);
      case Message(typ, flags, number, body) =>
        ItemsAreBuilt(Open(frames, InMessage(typ, flags, number)), body);
        ScopeIsBuilt(frames, InMessage(typ, flags, number), body, BeginMessage(typ, flags, number), EndMessage);
    }
  }

  /** Every tree is the tree of a well-bracketed run of calls. */
  lemma {:induction false} ItemsAreBuilt(frames: seq<Frame>, items: seq<Item>)
    requires frames != []
    ensures Bracketed(frames, Calls(items)) && Tree(frames, Calls(items)) == AddAll(frames, items)
    decreases items, 1
  {
    AddAllSplit(frames, items);
    if items != [] {
      var init, last := items[..|items| - 1], items[|items| - 1];
      ItemsAreBuilt(frames, init);
      ItemIsBuilt(AddAll(frames, init), last);
      TreeConcat(frames, Calls(init), CallsOf(last));
    }
  }

  // ---- the attribute walker ----

  datatype AttrView = AttrView(typ: u16, payload: seq<byte>)

  datatype Walked = End | One(view: AttrView, used: nat)

  // The attribute at the front, and how far the next one is.
  function First(body: seq<byte>): (r: Walked)
    ensures r.One? ==> |body| >= 4 && r.used >= 4
  {
    if |body| < 4 then End
    else
      var len := FromLe16(body[..2]);
      if len < 4 || len > |body| then End
      else One(AttrView(FromLe16(body[2..4]) % 0x4000, body[4..len]), Align4(len))
  }

  function Attrs(body: seq<byte>): seq<AttrView>
    decreases |body|
  {
    match First(body)
    case End => []
    case One(view, used) => [view] + Attrs(From(body, used))
  }

  function From(body: seq<byte>, i: nat): seq<byte> { if i <= |body| then body[i..] else [] }

  lemma FirstAt(body: seq<byte>, i: nat)
    requires i + 4 <= |body|
    ensures var len := FromLe16(body[i..i + 2]);
            First(body[i..]) ==
            if len < 4 || i + len > |body| then End
            else One(AttrView(FromLe16(body[i + 2..i + 4]) % 0x4000, body[i + 4..i + len]), Align4(len))
  {
    var rest, len := body[i..], FromLe16(body[i..i + 2]);
    assert rest[..2] == body[i..i + 2];
    assert rest[2..4] == body[i + 2..i + 4];
    if 4 <= len && i + len <= |body| {
      assert rest[4..len] == body[i + 4..i + len];
    }
  }

  lemma AttrsAt(seen: seq<AttrView>, body: seq<byte>, i: nat, view: AttrView, used: nat)
    requires i <= |body| && First(body[i..]) == One(view, used)
    ensures seen + Attrs(From(body, i)) == seen + [view] + Attrs(From(body, i + used))
  {
    assert From(body[i..], used) == From(body, i + used);
  }

  lemma AttrsEnd(seen: seq<AttrView>, body: seq<byte>, i: nat)
    requires i + 4 > |body| || First(body[i..]) == End
    ensures seen + Attrs(From(body, i)) == seen
  {
  }

  /** The callback of the original is the list of its calls here. */
  method ForEachAttr(body: seq<byte>) returns (visited: seq<AttrView>)
    ensures visited == Attrs(body)
  {
    hide First, Attrs;
    visited := [];
    var i: nat := 0;
    assert From(body, 0) == body;
    while i + 4 <= |body|
      invariant visited + Attrs(From(body, i)) == Attrs(body)
      decreases |body| - i
    {
      FirstAt(body, i);
      var len := FromLe16(body[i..i + 2]);
      var typ := FromLe16(body[i + 2..i + 4]) % 0x4000;
      if len < 4 || i + len > |body| {
        AttrsEnd(visited, body, i);
        return;
      }
      AttrsAt(visited, body, i, AttrView(typ, body[i + 4..i + len]), Align4(len));
      visited := visited + [AttrView(typ, body[i + 4..i + len])];
      i := i + Align4(len);
    }
    AttrsEnd(visited, body, i);
  }

  predicate IsAttr(item: Item) { item.Raw? || item.Nested? }

  function Content(item: Item): seq<byte>
    requires IsAttr(item)
  {
    if item.Raw? then item.payload else EncodeAll(item.kids)
  }

  function View(item: Item): AttrView
    requires IsAttr(item)
  {
    AttrView(item.typ % 0x4000, Content(item))
  }

  // The 16-bit length field is not truncated.
  predicate Fits(item: Item)
    requires IsAttr(item)
  {
    4 + |Content(item)| < 0x1_0000
  }

  function Views(items: seq<Item>): seq<AttrView>
    requires forall item <- items :: IsAttr(item)
  {
    seq(|items|, i requires 0 <= i < |items| => View(items[i]))
  }

  lemma FirstOfHeader(len: u16, typ: u16, rest: seq<byte>)
    ensures First(Le16(len) + Le16(typ) + rest) ==
            if len < 4 || len - 4 > |rest| then End
            else One(AttrView(typ % 0x4000, rest[..len - 4]), Align4(len))
  {
    var body := Le16(len) + Le16(typ) + rest;
    assert body[..2] == Le16(len);
    assert body[2..4] == Le16(typ);
    if 4 <= len && len - 4 <= |rest| {
      assert body[4..len] == rest[..len - 4];
    }
  }

  lemma PaddedAttrParts(typ: u16, content: seq<byte>, rest: seq<byte>)
    ensures Padded(AttrHeader(typ, |content|) + content) + rest
         == Le16(ToU16(4 + |content|)) + Le16(typ)
            + (content + (Zeros(Align4(4 + |content|) - (4 + |content|)) + rest))
  {
    var header, pad := AttrHeader(typ, |content|), Zeros(Align4(4 + |content|) - (4 + |content|));
    assert (header + content) + pad + rest == header + (content + (pad + rest));
  }

  lemma TruncatedLength(n: nat)
    ensures 4 + n < 0x1_0000 ==> ToU16(4 + n) == 4 + n
    ensures 4 + n >= 0x1_0000 ==> ToU16(4 + n) < 4 + n
    ensures 4 + n == 0x1_0000 ==> ToU16(4 + n) == 0
  {
  }

  lemma EncodedAttr(item: Item, rest: seq<byte>)
    requires IsAttr(item)
    ensures |Encode(item)| == Align4(4 + |Content(item)|)
    ensures exists typ: u16, pad: seq<byte> ::
              && typ % 0x4000 == item.typ % 0x4000
              && Encode(item) + rest == Le16(ToU16(4 + |Content(item)|)) + Le16(typ) + (Content(item) + pad)
  {
    var content := Content(item);
    var typ := if item.Raw? then item.typ else Flagged(item.typ);
    PaddedAttrParts(typ, content, rest);
  }

  lemma WalkOne(item: Item, rest: seq<byte>)
    requires IsAttr(item)
    ensures var first := First(Encode(item) + rest);
            if Fits(item) then first == One(View(item), |Encode(item)|)
            else (first == End || |first.view.payload| < |Content(item)|)
                 && (4 + |Content(item)| == 0x1_0000 ==> first == End)
  {
    hide First, Encode, EncodeAll, Le16, ToU16, Align4;
    EncodedAttr(item, rest);
    var content := Content(item);
    var typ: u16, pad: seq<byte> :|
      typ % 0x4000 == item.typ % 0x4000
      && Encode(item) + rest == Le16(ToU16(4 + |content|)) + Le16(typ) + (content + pad);
    TruncatedLength(|content|);
    FirstOfHeader(ToU16(4 + |content|), typ, content + pad);
    assert (content + pad)[..|content|] == content;
  }

  /** The walker returns what was built exactly when no length field was truncated. */
  lemma {:induction false} WalkRecoversIff(items: seq<Item>)
    requires forall item <- items :: IsAttr(item)
    ensures Attrs(EncodeAll(items)) == Views(items) <==> forall item <- items :: Fits(item)
  {
    if items != [] {
      var first, rest := items[0], items[1..];
      assert items == [first] + rest;
      EncodeAllPrepend(first, rest);
      WalkOne(first, EncodeAll(rest));
      assert From(EncodeAll(items), |Encode(first)|) == EncodeAll(rest);
      assert Views(items) == [View(first)] + Views(rest);
      WalkRecoversIff(rest);
      assert Views(items)[1..] == Views(rest);
    }
  }
}
