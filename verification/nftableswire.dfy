/**
 The octets of a batch (src/fw.rs:20-116, src/nl.rs), every number written out: what the encoded trees are on the
 wire, without the names of the constants, the tree or the builder.
 */
module NftablesWire {
  import opened Bytes
  import opened Netlink
  import opened Nftables
  import opened NftablesRoundTrip
  import opened Wrappers

  // Length and type in the order of the host, the payload, zeros up to a multiple of four.
  function Tlv(typ: u16, payload: seq<byte>): seq<byte> {
    var len := 4 + |payload|;
    [len % 0x100, len / 0x100 % 0x100, typ % 0x100, typ / 0x100] + payload + Zeros((4 - len % 4) % 4)
  }

  function ValueWire(data: seq<byte>): seq<byte> { Tlv(0x8001, data) }

  // The attributes of an expression, by number.
  function DataWire(e: Expr): seq<byte> {
    match e
    case Ct(key, dreg) => Tlv(2, Be32(key)) + Tlv(1, Be32(dreg))
    case Bitwise(sreg, dreg, len, mask, flip) =>
      Tlv(1, Be32(sreg)) + Tlv(2, Be32(dreg)) + Tlv(3, Be32(len))
      + Tlv(0x8004, ValueWire(mask)) + Tlv(0x8005, ValueWire(flip))
    case Cmp(sreg, op, data) => Tlv(1, Be32(sreg)) + Tlv(2, Be32(op)) + Tlv(0x8003, ValueWire(data))
    case Meta(key, dreg) => Tlv(2, Be32(key)) + Tlv(1, Be32(dreg))
    case Payload(dreg, base, offset, len) =>
      Tlv(2, Be32(dreg)) + Tlv(1, Be32(base)) + Tlv(3, Be32(offset)) + Tlv(4, Be32(len))
    case Verdict(code) => Tlv(1, Be32(0)) + Tlv(0x8002, Tlv(0x8002, Tlv(1, Be32(code))))
    case Immediate(dreg, data) => Tlv(1, Be32(dreg)) + Tlv(0x8002, ValueWire(data))
    case Nat(kind, family, addrReg, portReg) =>
      Tlv(1, Be32(kind)) + Tlv(2, Be32(family)) + Tlv(3, Be32(addrReg)) + Tlv(5, Be32(portReg))
    case Masq => []
  }

  function NameWire(e: Expr): seq<byte> {
    match e
    case Ct(_, _) => [99, 116]
    case Bitwise(_, _, _, _, _) => [98, 105, 116, 119, 105, 115, 101]
    case Cmp(_, _, _) => [99, 109, 112]
    case Meta(_, _) => [109, 101, 116, 97]
    case Payload(_, _, _, _) => [112, 97, 121, 108, 111, 97, 100]
    case Verdict(_) => [105, 109, 109, 101, 100, 105, 97, 116, 101]
    case Immediate(_, _) => [105, 109, 109, 101, 100, 105, 97, 116, 101]
    case Nat(_, _, _, _) => [110, 97, 116]
    case Masq => [109, 97, 115, 113]
  }

  // An element of the list of expressions: the name, then the attributes.
  function ExprWire(e: Expr): seq<byte> { Tlv(0x8001, Tlv(1, NameWire(e) + [0]) + Tlv(0x8002, DataWire(e))) }

  function ExprsWire(es: seq<Expr>): seq<byte> {
    if es == [] then [] else ExprWire(es[0]) + ExprsWire(es[1..])
  }

  function AttrsWire(c: Command): seq<byte> {
    match c
    case BatchBegin => []
    case BatchEnd => []
    case NewTable(name) => Tlv(1, name + [0])
    case NewChain(table, name, hook, priority, chainType, policy) =>
      Tlv(1, table + [0]) + Tlv(3, name + [0]) + Tlv(0x8004, Tlv(1, Be32(hook)) + Tlv(2, Be32(priority)))
      + Tlv(7, chainType + [0]) + Tlv(5, Be32(policy))
    case NewRule(table, chain, exprs) => Tlv(1, table + [0]) + Tlv(2, chain + [0]) + Tlv(0x8004, ExprsWire(exprs))
  }

  // Batch markers are requests of the generic family for subsystem 10; everything else is a request that creates
  // (0x400) and wants an answer (4), of subsystem 10 in the family inet.
  function TypeWire(c: Command): seq<byte> {
    match c
    case BatchBegin => [16, 0, 1, 0]
    case BatchEnd => [17, 0, 1, 0]
    case NewTable(_) => [0, 10, 5, 4]
    case NewChain(_, _, _, _, _, _) => [3, 10, 5, 4]
    case NewRule(_, _, _) => [6, 10, 5, 4]
  }

  function BodyWire(c: Command): seq<byte> {
    (if c.BatchBegin? || c.BatchEnd? then [0, 0, 0, 10] else [1, 0, 0, 0]) + AttrsWire(c)
  }

  function MessageWire(number: u32, c: Command): seq<byte> {
    var body := BodyWire(c);
    var len := 16 + |body|;
    Le32(ToU32(len)) + TypeWire(c) + Le32(number) + [0, 0, 0, 0] + body + Zeros((4 - len % 4) % 4)
  }

  function BatchWire(entries: seq<Entry>): seq<byte> {
    if entries == [] then [] else MessageWire(entries[0].number, entries[0].command) + BatchWire(entries[1..])
  }

  // ---- the encoder writes these octets ----

  lemma PaddingIs(s: seq<byte>)
    ensures Padded(s) == s + Zeros((4 - |s| % 4) % 4)
  {
  }

  lemma HeaderIs(typ: u16, length: nat)
    ensures AttrHeader(typ, length) == [(4 + length) % 0x100, (4 + length) / 0x100 % 0x100, typ % 0x100, typ / 0x100]
  {
    assert (4 + length) % 0x1_0000 % 0x100 == (4 + length) % 0x100;
    assert (4 + length) % 0x1_0000 / 0x100 == (4 + length) / 0x100 % 0x100;
  }

  lemma RawIs(typ: u16, payload: seq<byte>)
    ensures Encode(Raw(typ, payload)) == Tlv(typ, payload)
  {
    PaddingIs(AttrHeader(typ, |payload|) + payload);
    HeaderIs(typ, |payload|);
    hide Padded, AttrHeader;
  }

  lemma NestedIs(typ: u16, kids: seq<Item>)
    requires typ < 0x8000
    ensures Encode(Nested(typ, kids)) == Tlv(0x8000 + typ, EncodeAll(kids))
  {
    hide EncodeAll;
    var content := EncodeAll(kids);
    RawIs(0x8000 + typ, content);
  }

  lemma ValueIs(data: seq<byte>)
    ensures Encode(Value(data)) == ValueWire(data)
  {
    hide EncodeAll, Encode, Tlv;
    NestedIs(1, [Chunk(data)]);
    ValueContent(data);
  }

  lemma NestedValueIs(typ: u16, data: seq<byte>)
    requires typ < 0x8000
    ensures Encode(Nested(typ, [Value(data)])) == Tlv(0x8000 + typ, ValueWire(data))
  {
    hide EncodeAll, Encode, Tlv;
    NestedIs(typ, [Value(data)]);
    ValueIs(data);
    OneItem(Value(data));
  }

  lemma OneItem(a: Item)
    ensures EncodeAll([a]) == Encode(a)
  {
    hide Encode;
    assert [a][..0] == [];
  }

  lemma TwoItems(a: Item, b: Item)
    ensures EncodeAll([a, b]) == Encode(a) + Encode(b)
  {
    hide Encode, EncodeAll;
    OneItem(b);
    EncodeAllPrepend(a, [b]);
    assert [a] + [b] == [a, b];
  }

  lemma ThreeItems(a: Item, b: Item, c: Item)
    ensures EncodeAll([a, b, c]) == Encode(a) + Encode(b) + Encode(c)
  {
    hide Encode, EncodeAll;
    TwoItems(a, b);
    OneItem(c);
    EncodeAllConcat([a, b], [c]);
    assert [a, b] + [c] == [a, b, c];
  }

  lemma FourItems(a: Item, b: Item, c: Item, d: Item)
    ensures EncodeAll([a, b, c, d]) == Encode(a) + Encode(b) + Encode(c) + Encode(d)
  {
    hide Encode, EncodeAll;
    ThreeItems(a, b, c);
    OneItem(d);
    EncodeAllConcat([a, b, c], [d]);
    assert [a, b, c] + [d] == [a, b, c, d];
  }

  lemma FiveItems(a: Item, b: Item, c: Item, d: Item, e: Item)
    ensures EncodeAll([a, b, c, d, e]) == Encode(a) + Encode(b) + Encode(c) + Encode(d) + Encode(e)
  {
    hide Encode, EncodeAll;
    FourItems(a, b, c, d);
    OneItem(e);
    EncodeAllConcat([a, b, c, d], [e]);
    assert [a, b, c, d] + [e] == [a, b, c, d, e];
  }

  lemma SpellingIs(e: Expr)
    ensures Spelling(NameOf(e)) == NameWire(e)
  {
    match NameOf(e) {
      case CT => assert Ascii("ct") == [99, 116];
      case BITWISE => assert Ascii("bitwise") == [98, 105, 116, 119, 105, 115, 101];
      case CMP => assert Ascii("cmp") == [99, 109, 112];
      case META => assert Ascii("meta") == [109, 101, 116, 97];
      case PAYLOAD => assert Ascii("payload") == [112, 97, 121, 108, 111, 97, 100];
      case IMMEDIATE => assert Ascii("immediate") == [105, 109, 109, 101, 100, 105, 97, 116, 101];
      case NAT => assert Ascii("nat") == [110, 97, 116];
      case MASQ => assert Ascii("masq") == [109, 97, 115, 113];
    }
  }

  lemma U32Is(typ: u16, v: u32)
    ensures Encode(U32(typ, v)) == Tlv(typ, Be32(v))
  {
    hide Encode, Tlv, Be32;
    RawIs(typ, Be32(v));
  }

  lemma FourWords(items: seq<Item>, a: u16, b: u16, c: u16, d: u16, v: u32, w: u32, x: u32, y: u32)
    requires items == [U32(a, v), U32(b, w), U32(c, x), U32(d, y)]
    ensures EncodeAll(items) == Tlv(a, Be32(v)) + Tlv(b, Be32(w)) + Tlv(c, Be32(x)) + Tlv(d, Be32(y))
  {
    hide Encode, EncodeAll, Tlv, Be32;
    U32Is(a, v);
    U32Is(b, w);
    U32Is(c, x);
    U32Is(d, y);
    FourItems(items[0], items[1], items[2], items[3]);
  }

  lemma BitwiseIs(e: Expr)
    requires e.Bitwise?
    ensures EncodeAll(DataItems(e)) == DataWire(e)
  {
    var items := DataItems(e);
    hide Encode, EncodeAll, Tlv, Be32, ValueWire;
    U32Is(1, e.sreg);
    U32Is(2, e.dreg);
    U32Is(3, e.len);
    NestedValueIs(4, e.mask);
    NestedValueIs(5, e.flip);
    FiveItems(items[0], items[1], items[2], items[3], items[4]);
  }

  lemma VerdictIs(code: u32)
    ensures EncodeAll(DataItems(Verdict(code))) == DataWire(Verdict(code))
  {
    var items := DataItems(Verdict(code));
    hide Encode, EncodeAll, Tlv, Be32;
    U32Is(1, 0);
    U32Is(1, code);
    OneItem(U32(1, code));
    NestedIs(2, [U32(1, code)]);
    OneItem(items[1].kids[0]);
    NestedIs(2, items[1].kids);
    TwoItems(items[0], items[1]);
  }

  lemma DataIs(e: Expr)
    ensures EncodeAll(DataItems(e)) == DataWire(e)
  {
    var items := DataItems(e);
    hide Encode, EncodeAll, Tlv, Be32, ValueWire;
    match e {
      case Ct(key, dreg) =>
        U32Is(2, key);
        U32Is(1, dreg);
        TwoItems(items[0], items[1]);
      case Bitwise(_, _, _, _, _) => BitwiseIs(e);
      case Cmp(sreg, op, data) =>
        U32Is(1, sreg);
        U32Is(2, op);
        NestedValueIs(3, data);
        ThreeItems(items[0], items[1], items[2]);
      case Meta(key, dreg) =>
        U32Is(2, key);
        U32Is(1, dreg);
        TwoItems(items[0], items[1]);
      case Payload(dreg, base, offset, len) => FourWords(items, 2, 1, 3, 4, dreg, base, offset, len);
      case Verdict(code) => VerdictIs(code);
      case Immediate(dreg, data) =>
        U32Is(1, dreg);
        NestedValueIs(2, data);
        TwoItems(items[0], items[1]);
      case Nat(kind, family, addrReg, portReg) => FourWords(items, 1, 2, 3, 5, kind, family, addrReg, portReg);
      case Masq => EmptyEncoding();
    }
  }

  /** Every expression element, octet by octet. */
  lemma ExprIsWire(e: Expr)
    ensures Encode(ExprItem(e)) == ExprWire(e)
  {
    hide Encode, EncodeAll, Tlv, DataItems, DataWire, NameWire, Spelling;
    var kids := ExprItem(e).kids;
    SpellingIs(e);
    RawIs(1, NameWire(e) + [0]);
    DataIs(e);
    NestedIs(2, DataItems(e));
    TwoItems(kids[0], kids[1]);
    NestedIs(1, kids);
  }

  lemma {:induction false} ExprsAreWire(es: seq<Expr>)
    ensures EncodeAll(ExprItems(es)) == ExprsWire(es)
  {
    hide Encode, ExprWire, ExprItem;
    if es != [] {
      assert ExprItems(es) == [ExprItem(es[0])] + ExprItems(es[1..]);
      EncodeAllPrepend(ExprItem(es[0]), ExprItems(es[1..]));
      ExprIsWire(es[0]);
      ExprsAreWire(es[1..]);
    }
  }

  lemma StrIs(typ: u16, s: seq<byte>)
    ensures Encode(Str(typ, s)) == Tlv(typ, s + [0])
  {
    hide Encode, Tlv;
    RawIs(typ, s + [0]);
  }

  lemma ChainIs(c: Command)
    requires c.NewChain?
    ensures EncodeAll(AttrItems(c)) == AttrsWire(c)
  {
    var items := AttrItems(c);
    hide Encode, EncodeAll, Tlv, Be32;
    StrIs(1, c.table);
    StrIs(3, c.name);
    U32Is(1, c.hook);
    U32Is(2, c.priority);
    TwoItems(items[2].kids[0], items[2].kids[1]);
    NestedIs(4, items[2].kids);
    StrIs(7, c.chainType);
    U32Is(5, c.policy);
    FiveItems(items[0], items[1], items[2], items[3], items[4]);
  }

  lemma AttrsAre(c: Command)
    ensures EncodeAll(AttrItems(c)) == AttrsWire(c)
  {
    var items := AttrItems(c);
    hide Encode, EncodeAll, Tlv, Be32, ExprItems, ExprsWire;
    match c {
      case BatchBegin => EmptyEncoding();
      case BatchEnd => EmptyEncoding();
      case NewTable(name) =>
        StrIs(1, name);
        OneItem(items[0]);
      case NewChain(_, _, _, _, _, _) => ChainIs(c);
      case NewRule(table, chain, exprs) =>
        StrIs(1, table);
        StrIs(2, chain);
        ExprsAreWire(exprs);
        NestedIs(4, ExprItems(exprs));
        ThreeItems(items[0], items[1], items[2]);
    }
  }

  lemma BodyIs(c: Command)
    ensures BodyBytes(c) == BodyWire(c)
  {
    hide AttrItems, AttrsWire, EncodeAll;
    AttrsAre(c);
  }

  lemma TypeIs(c: Command)
    ensures Le16(TypeOf(c)) + Le16(FlagsOf(c)) == TypeWire(c)
  {
  }

  /** Every message, octet by octet: length, type, flags, number, port 0, family, subsystem and attributes. */
  lemma MessageIsWire(entry: Entry)
    ensures EntryBytes(entry) == MessageWire(entry.number, entry.command)
  {
    var c, content := entry.command, BodyBytes(entry.command);
    hide BodyBytes, BodyWire, TypeOf, FlagsOf, TypeWire;
    BodyIs(c);
    TypeIs(c);
    PaddingIs(MessageHeader(TypeOf(c), FlagsOf(c), entry.number, |content|) + content);
    hide Padded;
    assert Le32(0) == [0, 0, 0, 0];
    hide Le32, Le16;
    Regroup(Le32(ToU32(16 + |content|)), Le16(TypeOf(c)), Le16(FlagsOf(c)));
  }

  /** The octets of every batch. */
  lemma {:induction false} BatchIsWire(entries: seq<Entry>)
    ensures EncodeAll(EntryItems(entries)) == BatchWire(entries)
  {
    hide EncodeAll, EntryBytes, MessageWire, CommandItem;
    if entries == [] {
      assert EncodeAll(EntryItems(entries)) == [] by { EmptyEncoding(); }
    } else {
      EntryEncoding(entries);
      MessageIsWire(entries[0]);
      BatchIsWire(entries[1..]);
    }
  }

  /** The walker drops the two flags of a type (nested, byte order) and keeps the other fourteen bits. */
  lemma FlagsAreMasked(low: byte, high: byte)
    ensures Attrs([4, 0, low, high]) == [AttrView(low as int + 0x100 * (high as int % 0x40), [])]
  {
    var s: seq<byte> := [4, 0, low, high];
    assert s[..2] == [4, 0] && s[2..4] == [low, high] && s[4..4] == [];
    assert First(s) == One(AttrView(low as int + 0x100 * (high as int % 0x40), []), 4);
    assert From(s, 4) == [];
    assert Attrs([]) == [];
  }
}
