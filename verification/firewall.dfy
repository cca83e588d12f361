/**
 The firewall compiler (src/fw.rs): a policy becomes one nf_tables batch, written through `NlBuf`.

 Where the original passes a closure to `expr` or `new_rule`, the scope is opened and closed by a pair of
 methods here and the closure's body stands between them.
 */
module Firewall {
  import opened Bytes
  import opened Netlink
  import opened Nftables
  import opened NftablesRoundTrip
  import opened Wrappers

  const NFPROTO_IPV4: u32 := 2

  const NF_INET_PRE_ROUTING: u32 := 0
  const NF_INET_LOCAL_IN: u32 := 1
  const NF_INET_FORWARD: u32 := 2
  const NF_INET_POST_ROUTING: u32 := 4

  const NF_DROP: u32 := 0
  const NF_ACCEPT: u32 := 1

  const NFT_CT_STATE: u32 := 0
  const NFT_CMP_EQ: u32 := 0
  const NFT_CMP_NEQ: u32 := 1
  const NFT_META_IIFNAME: u32 := 11
  const NFT_META_L4PROTO: u32 := 16
  const NFT_PAYLOAD_NETWORK_HEADER: u32 := 1
  const NFT_PAYLOAD_TRANSPORT_HEADER: u32 := 2
  const NFT_NAT_DNAT: u32 := 1

  const NFT_REG_1: u32 := 1
  const NFT_REG_2: u32 := 2

  // CT_ESTABLISHED | CT_RELATED
  const CT_BITS: u32 := 2 + 4

  const IPPROTO_ICMP: byte := 1

  // (-100i32) as u32
  const DSTNAT_PRIO: u32 := 0x1_0000_0000 - 100

  function Table(): seq<byte> { Ascii("lwrt") }
  function InputChain(): seq<byte> { Ascii("input") }
  function ForwardChain(): seq<byte> { Ascii("forward") }
  function PreroutingChain(): seq<byte> { Ascii("prerouting") }
  function PostroutingChain(): seq<byte> { Ascii("postrouting") }

  datatype Forward = Forward(proto: byte, dport: u16, destIp: u32, destPort: u16)

  // ---- the rules as expression lists ----

  function CtAccept(): seq<Expr> {
    [Ct(NFT_CT_STATE, NFT_REG_1),
     Bitwise(NFT_REG_1, NFT_REG_1, 4, Be32(CT_BITS), Be32(0)),
     Cmp(NFT_REG_1, NFT_CMP_NEQ, Be32(0)),
     Verdict(NF_ACCEPT)]
  }

  function IifAccept(ifname: seq<byte>): seq<Expr> {
    [Meta(NFT_META_IIFNAME, NFT_REG_1), Cmp(NFT_REG_1, NFT_CMP_EQ, ifname + [0]), Verdict(NF_ACCEPT)]
  }

  function L4ProtoAccept(proto: byte): seq<Expr> {
    [Meta(NFT_META_L4PROTO, NFT_REG_1), Cmp(NFT_REG_1, NFT_CMP_EQ, [proto]), Verdict(NF_ACCEPT)]
  }

  function Dnat(f: Forward): seq<Expr> {
    [Meta(NFT_META_L4PROTO, NFT_REG_1),
     Cmp(NFT_REG_1, NFT_CMP_EQ, [f.proto]),
     Payload(NFT_REG_1, NFT_PAYLOAD_TRANSPORT_HEADER, 2, 2),
     Cmp(NFT_REG_1, NFT_CMP_EQ, Be16(f.dport)),
     Immediate(NFT_REG_1, Be32(f.destIp)),
     Immediate(NFT_REG_2, Be16(f.destPort)),
     Nat(NFT_NAT_DNAT, NFPROTO_IPV4, NFT_REG_1, NFT_REG_2)]
  }

  function ForwardToDest(f: Forward): seq<Expr> {
    [Meta(NFT_META_L4PROTO, NFT_REG_1),
     Cmp(NFT_REG_1, NFT_CMP_EQ, [f.proto]),
     Payload(NFT_REG_1, NFT_PAYLOAD_NETWORK_HEADER, 16, 4),
     Cmp(NFT_REG_1, NFT_CMP_EQ, Be32(f.destIp)),
     Payload(NFT_REG_1, NFT_PAYLOAD_TRANSPORT_HEADER, 2, 2),
     Cmp(NFT_REG_1, NFT_CMP_EQ, Be16(f.destPort)),
     Verdict(NF_ACCEPT)]
  }

  function Rule(chain: seq<byte>, exprs: seq<Expr>): Command { NewRule(Table(), chain, exprs) }

  // ---- the whole batch ----

  function Preamble(): seq<Command> { [BatchBegin, NewTable(Table())] }

  function BaseChains(): seq<Command> {
    [NewChain(Table(), InputChain(), NF_INET_LOCAL_IN, 0, Ascii("filter"), NF_DROP),
     NewChain(Table(), ForwardChain(), NF_INET_FORWARD, 0, Ascii("filter"), NF_DROP),
     NewChain(Table(), PreroutingChain(), NF_INET_PRE_ROUTING, DSTNAT_PRIO, Ascii("nat"), NF_ACCEPT),
     NewChain(Table(), PostroutingChain(), NF_INET_POST_ROUTING, 100, Ascii("nat"), NF_ACCEPT)]
  }

  function FixedRules(lan: seq<byte>): seq<Command> {
    [Rule(InputChain(), CtAccept()),
     Rule(InputChain(), IifAccept(Ascii("lo"))),
     Rule(InputChain(), IifAccept(lan)),
     Rule(InputChain(), L4ProtoAccept(IPPROTO_ICMP)),
     Rule(ForwardChain(), CtAccept()),
     Rule(ForwardChain(), IifAccept(lan))]
  }

  function ForwardRules(forwards: seq<Forward>): (r: seq<Command>)
    ensures |r| == |forwards|
  {
    seq(|forwards|, i requires 0 <= i < |forwards| => Rule(ForwardChain(), ForwardToDest(forwards[i])))
  }

  function DnatRules(forwards: seq<Forward>): (r: seq<Command>)
    ensures |r| == |forwards|
  {
    seq(|forwards|, i requires 0 <= i < |forwards| => Rule(PreroutingChain(), Dnat(forwards[i])))
  }

  function MasqRules(masq: bool): seq<Command> {
    if masq then [Rule(PostroutingChain(), [Masq])] else []
  }

  function Ruleset(lan: seq<byte>, masq: bool, forwards: seq<Forward>): seq<Command> {
    Preamble() + BaseChains() + FixedRules(lan) + ForwardRules(forwards) + DnatRules(forwards) + MasqRules(masq)
    + [BatchEnd]
  }

  // Messages are numbered from 1 by a 32-bit counter.
  function Numbered(commands: seq<Command>): (r: seq<Entry>)
    ensures |r| == |commands|
  {
    seq(|commands|, i requires 0 <= i < |commands| => Entry(ToU32(1 + i), commands[i]))
  }

  // ---- scopes ----

  lemma CloseAll(frames: seq<Frame>, kind: Kind, items: seq<Item>)
    requires frames != [] && kind != Root
    ensures Close(AddAll(Open(frames, kind), items)) == Add(frames, Closed(Frame(kind, items)))
  {
    assert [] + items == items;
  }

  lemma AddOne(frames: seq<Frame>, items: seq<Item>, item: Item)
    requires frames != []
    ensures Add(AddAll(frames, items), item) == AddAll(frames, items + [item])
  {
    assert Top(frames).items + items + [item] == Top(frames).items + (items + [item]);
  }

  lemma AddNone(frames: seq<Frame>)
    requires frames != []
    ensures AddAll(frames, []) == frames
  {
    AddAllSplit(frames, []);
  }

  lemma AddTwo(frames: seq<Frame>, a: Item, b: Item)
    requires frames != []
    ensures Add(Add(frames, a), b) == AddAll(frames, [a, b])
  {
    assert Top(frames).items + [a] + [b] == Top(frames).items + [a, b];
  }

  lemma AddThree(frames: seq<Frame>, items: seq<Item>)
    requires frames != [] && |items| >= 3
    ensures Add(Add(Add(frames, items[0]), items[1]), items[2]) == AddAll(frames, items[..3])
  {
    AddTwo(frames, items[0], items[1]);
    AddOne(frames, [items[0], items[1]], items[2]);
    assert [items[0], items[1]] + [items[2]] == items[..3];
  }

  lemma AddNext(frames: seq<Frame>, items: seq<Item>, n: nat)
    requires frames != [] && n < |items|
    ensures Add(AddAll(frames, items[..n]), items[n]) == AddAll(frames, items[..n + 1])
  {
    AddOne(frames, items[..n], items[n]);
    assert items[..n] + [items[n]] == items[..n + 1];
  }

  lemma AddFour(frames: seq<Frame>, items: seq<Item>)
    requires frames != [] && |items| == 4
    ensures Add(Add(Add(Add(frames, items[0]), items[1]), items[2]), items[3]) == AddAll(frames, items)
  {
    AddThree(frames, items);
    AddNext(frames, items, 3);
    assert items[..4] == items;
  }

  function OpenExpr(frames: seq<Frame>, name: seq<byte>): (r: seq<Frame>)
    ensures r != []
  {
    Open(Add(Open(frames, InNested(NFTA_LIST_ELEM)), Str(NFTA_EXPR_NAME, name)), InNested(NFTA_EXPR_DATA))
  }

  method BeginExpr(b: NlBuf, name: seq<byte>) returns (elem: Scope, data: Scope)
    requires b.Valid() && |b.buf| % 4 == 0
    modifies b
    ensures b.Valid() && |b.buf| % 4 == 0
    ensures b.frames == OpenExpr(old(b.frames), name)
    ensures elem.off == |Render(old(b.frames))| && data.off == Offset(b.frames)
  {
    elem := b.BeginNested(NFTA_LIST_ELEM);
    b.AttrStr(NFTA_EXPR_NAME, name);
    data := b.BeginNested(NFTA_EXPR_DATA);
  }

  method EndExpr(b: NlBuf, elem: Scope, data: Scope, name: seq<byte>,
                 ghost frames: seq<Frame>, ghost items: seq<Item>)
    requires b.Valid() && frames != [] && b.frames == AddAll(OpenExpr(frames, name), items)
    requires elem.off == |Render(frames)| && data.off == Offset(b.frames)
    modifies b
    ensures b.Valid() && |b.buf| % 4 == 0
    ensures b.frames == Add(frames, Nested(NFTA_LIST_ELEM,
                                           [Str(NFTA_EXPR_NAME, name), Nested(NFTA_EXPR_DATA, items)]))
  {
    hide Render, WellFormed;
    ghost var outer := Add(Open(frames, InNested(NFTA_LIST_ELEM)), Str(NFTA_EXPR_NAME, name));
    CloseAll(outer, InNested(NFTA_EXPR_DATA), items);
    b.EndNested(data);
    ghost var kids := [Str(NFTA_EXPR_NAME, name), Nested(NFTA_EXPR_DATA, items)];
    AddTwo(Open(frames, InNested(NFTA_LIST_ELEM)), kids[0], kids[1]);
    CloseAll(frames, InNested(NFTA_LIST_ELEM), kids);
    b.EndNested(elem);
  }

  method ValueData(b: NlBuf, bytes: seq<byte>)
    requires b.Valid() && |b.buf| % 4 == 0
    modifies b
    ensures b.Valid() && |b.buf| % 4 == 0
    ensures b.frames == Add(old(b.frames), Value(bytes))
  {
    hide Render, WellFormed;
    ghost var frames := b.frames;
    var s := b.BeginNested(NFTA_DATA_VALUE);
    b.PutBytes(bytes);
    assert b.frames == AddAll(Open(frames, InNested(NFTA_DATA_VALUE)), [Chunk(bytes)]);
    CloseAll(frames, InNested(NFTA_DATA_VALUE), [Chunk(bytes)]);
    b.EndNested(s);
  }

  method NestedValue(b: NlBuf, typ: u16, bytes: seq<byte>)
    requires b.Valid() && |b.buf| % 4 == 0
    modifies b
    ensures b.Valid() && |b.buf| % 4 == 0
    ensures b.frames == Add(old(b.frames), Nested(typ, [Value(bytes)]))
  {
    hide Render, WellFormed;
    ghost var frames := b.frames;
    var s := b.BeginNested(typ);
    ValueData(b, bytes);
    assert b.frames == AddAll(Open(frames, InNested(typ)), [Value(bytes)]);
    CloseAll(frames, InNested(typ), [Value(bytes)]);
    b.EndNested(s);
  }

  // ---- expressions ----

  method VerdictExpr(b: NlBuf, code: u32)
    requires b.Valid() && |b.buf| % 4 == 0
    modifies b
    ensures b.Valid() && |b.buf| % 4 == 0
    ensures b.frames == Add(old(b.frames), ExprItem(Verdict(code)))
  {
    hide Render, WellFormed, Spelling;
    ghost var frames, inside := b.frames, OpenExpr(b.frames, Spelling(IMMEDIATE));
    var elem, data := BeginExpr(b, Spelling(IMMEDIATE));
    b.AttrU32Be(NFTA_IMMEDIATE_DREG, NFT_REG_VERDICT);
    ghost var outer := b.frames;
    var value := b.BeginNested(NFTA_IMMEDIATE_DATA);
    ghost var middle := b.frames;
    var verdict := b.BeginNested(NFTA_DATA_VERDICT);
    b.AttrU32Be(NFTA_VERDICT_CODE, code);
    ghost var kids := [U32(NFTA_VERDICT_CODE, code)];
    assert b.frames == AddAll(Open(middle, InNested(NFTA_DATA_VERDICT)), kids);
    CloseAll(middle, InNested(NFTA_DATA_VERDICT), kids);
    b.EndNested(verdict);
    assert b.frames == AddAll(Open(outer, InNested(NFTA_IMMEDIATE_DATA)), [Nested(NFTA_DATA_VERDICT, kids)]);
    CloseAll(outer, InNested(NFTA_IMMEDIATE_DATA), [Nested(NFTA_DATA_VERDICT, kids)]);
    b.EndNested(value);
    AddTwo(inside, DataItems(Verdict(code))[0], DataItems(Verdict(code))[1]);
    EndExpr(b, elem, data, Spelling(IMMEDIATE), frames, DataItems(Verdict(code)));
  }

  method ImmediateValue(b: NlBuf, reg: u32, bytes: seq<byte>)
    requires b.Valid() && |b.buf| % 4 == 0
    modifies b
    ensures b.Valid() && |b.buf| % 4 == 0
    ensures b.frames == Add(old(b.frames), ExprItem(Immediate(reg, bytes)))
  {
    hide Render, WellFormed, Spelling;
    ghost var frames, items := b.frames, DataItems(Immediate(reg, bytes));
    var elem, data := BeginExpr(b, Spelling(IMMEDIATE));
    b.AttrU32Be(NFTA_IMMEDIATE_DREG, reg);
    NestedValue(b, NFTA_IMMEDIATE_DATA, bytes);
    AddTwo(OpenExpr(frames, Spelling(IMMEDIATE)), items[0], items[1]);
    EndExpr(b, elem, data, Spelling(IMMEDIATE), frames, items);
  }

  method MetaLoad(b: NlBuf, key: u32, reg: u32)
    requires b.Valid() && |b.buf| % 4 == 0
    modifies b
    ensures b.Valid() && |b.buf| % 4 == 0
    ensures b.frames == Add(old(b.frames), ExprItem(Meta(key, reg)))
  {
    hide Render, WellFormed, Spelling;
    ghost var frames, items := b.frames, DataItems(Meta(key, reg));
    var elem, data := BeginExpr(b, Spelling(META));
    b.AttrU32Be(NFTA_META_KEY, key);
    b.AttrU32Be(NFTA_META_DREG, reg);
    AddTwo(OpenExpr(frames, Spelling(META)), items[0], items[1]);
    EndExpr(b, elem, data, Spelling(META), frames, items);
  }

  method PayloadLoad(b: NlBuf, base: u32, offset: u32, len: u32, reg: u32)
    requires b.Valid() && |b.buf| % 4 == 0
    modifies b
    ensures b.Valid() && |b.buf| % 4 == 0
    ensures b.frames == Add(old(b.frames), ExprItem(Payload(reg, base, offset, len)))
  {
    hide Render, WellFormed, Spelling;
    ghost var frames, items := b.frames, DataItems(Payload(reg, base, offset, len));
    ghost var inside := OpenExpr(frames, Spelling(PAYLOAD));
    var elem, data := BeginExpr(b, Spelling(PAYLOAD));
    b.AttrU32Be(NFTA_PAYLOAD_DREG, reg);
    b.AttrU32Be(NFTA_PAYLOAD_BASE, base);
    b.AttrU32Be(NFTA_PAYLOAD_OFFSET, offset);
    b.AttrU32Be(NFTA_PAYLOAD_LEN, len);
    AddFour(inside, items);
    EndExpr(b, elem, data, Spelling(PAYLOAD), frames, items);
  }

  method CmpExpr(b: NlBuf, reg: u32, op: u32, bytes: seq<byte>)
    requires b.Valid() && |b.buf| % 4 == 0
    modifies b
    ensures b.Valid() && |b.buf| % 4 == 0
    ensures b.frames == Add(old(b.frames), ExprItem(Cmp(reg, op, bytes)))
  {
    hide Render, WellFormed, Spelling;
    ghost var frames, items := b.frames, DataItems(Cmp(reg, op, bytes));
    ghost var inside := OpenExpr(frames, Spelling(CMP));
    var elem, data := BeginExpr(b, Spelling(CMP));
    b.AttrU32Be(NFTA_CMP_SREG, reg);
    b.AttrU32Be(NFTA_CMP_OP, op);
    NestedValue(b, NFTA_CMP_DATA, bytes);
    AddThree(inside, items);
    assert items[..3] == items;
    EndExpr(b, elem, data, Spelling(CMP), frames, items);
  }

  /** The three expressions that leave `ct state & (established|related) != 0` as the rule's condition. */
  method CtStateMatch(b: NlBuf)
    requires b.Valid() && |b.buf| % 4 == 0
    modifies b
    ensures b.Valid() && |b.buf| % 4 == 0
    ensures b.frames == Add(Add(Add(old(b.frames), ExprItem(CtAccept()[0])), ExprItem(CtAccept()[1])),
                            ExprItem(CtAccept()[2]))
  {
    hide Render, WellFormed, Spelling;
    ghost var start, key := b.frames, DataItems(CtAccept()[0]);
    var elem, data := BeginExpr(b, Spelling(CT));
    b.AttrU32Be(NFTA_CT_KEY, NFT_CT_STATE);
    b.AttrU32Be(NFTA_CT_DREG, NFT_REG_1);
    AddTwo(OpenExpr(start, Spelling(CT)), key[0], key[1]);
    EndExpr(b, elem, data, Spelling(CT), start, key);
    assert b.frames == Add(start, ExprItem(CtAccept()[0]));

    ghost var frames, items := b.frames, DataItems(CtAccept()[1]);
    ghost var inside := OpenExpr(frames, Spelling(BITWISE));
    elem, data := BeginExpr(b, Spelling(BITWISE));
    b.AttrU32Be(NFTA_BITWISE_SREG, NFT_REG_1);
    b.AttrU32Be(NFTA_BITWISE_DREG, NFT_REG_1);
    b.AttrU32Be(NFTA_BITWISE_LEN, 4);
    NestedValue(b, NFTA_BITWISE_MASK, Be32(CT_BITS));
    AddFour(inside, items[..4]);
    NestedValue(b, NFTA_BITWISE_XOR, Be32(0));
    AddNext(inside, items, 4);
    assert items[..5] == items;
    EndExpr(b, elem, data, Spelling(BITWISE), frames, items);
    assert b.frames == Add(frames, ExprItem(CtAccept()[1]));

    CmpExpr(b, NFT_REG_1, NFT_CMP_NEQ, Be32(0));
  }

  method NatExpr(b: NlBuf)
    requires b.Valid() && |b.buf| % 4 == 0
    modifies b
    ensures b.Valid() && |b.buf| % 4 == 0
    ensures b.frames == Add(old(b.frames), ExprItem(Nat(NFT_NAT_DNAT, NFPROTO_IPV4, NFT_REG_1, NFT_REG_2)))
  {
    hide Render, WellFormed, Spelling;
    ghost var frames, items := b.frames, DataItems(Nat(NFT_NAT_DNAT, NFPROTO_IPV4, NFT_REG_1, NFT_REG_2));
    var elem, data := BeginExpr(b, Spelling(NAT));
    b.AttrU32Be(NFTA_NAT_TYPE, NFT_NAT_DNAT);
    b.AttrU32Be(NFTA_NAT_FAMILY, NFPROTO_IPV4);
    b.AttrU32Be(NFTA_NAT_REG_ADDR_MIN, NFT_REG_1);
    b.AttrU32Be(NFTA_NAT_REG_PROTO_MIN, NFT_REG_2);
    AddFour(OpenExpr(frames, Spelling(NAT)), items);
    EndExpr(b, elem, data, Spelling(NAT), frames, items);
  }

  method MasqExpr(b: NlBuf)
    requires b.Valid() && |b.buf| % 4 == 0
    modifies b
    ensures b.Valid() && |b.buf| % 4 == 0
    ensures b.frames == Add(old(b.frames), ExprItem(Masq))
  {
    hide Render, WellFormed, Spelling;
    ghost var frames := b.frames;
    var elem, data := BeginExpr(b, Spelling(MASQ));
    AddNone(OpenExpr(frames, Spelling(MASQ)));
    EndExpr(b, elem, data, Spelling(MASQ), frames, []);
  }

  // ---- messages ----

  method PutGenMsg(b: NlBuf, family: byte, resId: u16)
    requires b.Valid() && |b.buf| % 4 == 0
    modifies b
    ensures b.Valid() && |b.buf| % 4 == 0
    ensures b.frames == Add(old(b.frames), Chunk(GenMsg(family, resId)))
  {
    hide Render, WellFormed;
    b.PutBytes(GenMsg(family, resId));
  }

  // The counter's `+= 1`, wrapping at 32 bits.
  function Next(number: u32): u32 { ToU32(number + 1) }

  method BatchMarker(b: NlBuf, number: u32, marker: Command)
    requires marker.BatchBegin? || marker.BatchEnd?
    requires b.Valid() && |b.buf| % 4 == 0
    modifies b
    ensures b.Valid() && |b.buf| % 4 == 0
    ensures b.frames == Add(old(b.frames), CommandItem(number, marker))
  {
    hide Render, WellFormed;
    ghost var frames, kind := b.frames, InMessage(TypeOf(marker), NLM_F_REQUEST, number);
    var msg := b.BeginMessage(TypeOf(marker), NLM_F_REQUEST, number);
    PutGenMsg(b, 0, NFNL_SUBSYS_NFTABLES);
    assert b.frames == AddAll(Open(frames, kind), [Chunk(GenMsgOf(marker))]);
    CloseAll(frames, kind, [Chunk(GenMsgOf(marker))]);
    b.EndMessage(msg);
    assert [Chunk(GenMsgOf(marker))] + [] == [Chunk(GenMsgOf(marker))];
  }

  method BeginCommand(b: NlBuf, msgType: byte, number: u32) returns (msg: Scope)
    requires b.Valid() && |b.buf| % 4 == 0
    modifies b
    ensures b.Valid() && |b.buf| % 4 == 0
    ensures b.frames == Add(Open(old(b.frames), CommandKind(msgType, number)), Chunk(GenMsg(NFPROTO_INET, 0)))
    ensures msg.off == |Render(old(b.frames))|
  {
    msg := b.BeginMessage(NftType(msgType), NLM_F_REQUEST + NLM_F_CREATE + NLM_F_ACK, number);
    PutGenMsg(b, NFPROTO_INET, 0);
  }

  function CommandKind(msgType: byte, number: u32): Kind {
    InMessage(NftType(msgType), NLM_F_REQUEST + NLM_F_CREATE + NLM_F_ACK, number)
  }

  method NewTableMessage(b: NlBuf, number: u32) returns (next: u32)
    requires b.Valid() && |b.buf| % 4 == 0
    modifies b
    ensures b.Valid() && |b.buf| % 4 == 0
    ensures b.frames == Add(old(b.frames), CommandItem(number, NewTable(Table()))) && next == Next(number)
  {
    hide Render, WellFormed;
    ghost var frames, kind := b.frames, CommandKind(NFT_MSG_NEWTABLE, number);
    var msg := BeginCommand(b, NFT_MSG_NEWTABLE, number);
    b.AttrStr(NFTA_TABLE_NAME, Table());
    ghost var body := [Chunk(GenMsg(NFPROTO_INET, 0)), Str(NFTA_TABLE_NAME, Table())];
    AddTwo(Open(frames, kind), body[0], body[1]);
    CloseAll(frames, kind, body);
    b.EndMessage(msg);
    assert body == [Chunk(GenMsgOf(NewTable(Table())))] + AttrItems(NewTable(Table()));
    next := Next(number);
  }

  method PutHook(b: NlBuf, hook: u32, priority: u32)
    requires b.Valid() && |b.buf| % 4 == 0
    modifies b
    ensures b.Valid() && |b.buf| % 4 == 0
    ensures b.frames == Add(old(b.frames),
                            Nested(NFTA_CHAIN_HOOK, [U32(NFTA_HOOK_HOOKNUM, hook), U32(NFTA_HOOK_PRIORITY, priority)]))
  {
    hide Render, WellFormed;
    ghost var frames := b.frames;
    var scope := b.BeginNested(NFTA_CHAIN_HOOK);
    b.AttrU32Be(NFTA_HOOK_HOOKNUM, hook);
    b.AttrU32Be(NFTA_HOOK_PRIORITY, priority);
    ghost var kids := [U32(NFTA_HOOK_HOOKNUM, hook), U32(NFTA_HOOK_PRIORITY, priority)];
    AddTwo(Open(frames, InNested(NFTA_CHAIN_HOOK)), kids[0], kids[1]);
    CloseAll(frames, InNested(NFTA_CHAIN_HOOK), kids);
    b.EndNested(scope);
  }

  method NewBaseChain(b: NlBuf, number: u32, name: seq<byte>, chainType: seq<byte>, hook: u32, priority: u32, policy: u32)
    returns (next: u32)
    requires b.Valid() && |b.buf| % 4 == 0
    modifies b
    ensures b.Valid() && |b.buf| % 4 == 0
    ensures b.frames == Add(old(b.frames),
                            CommandItem(number, NewChain(Table(), name, hook, priority, chainType, policy)))
    ensures next == Next(number)
  {
    hide Render, WellFormed, Add, AddAll, Be32, Ascii;
    ghost var frames, kind := b.frames, CommandKind(NFT_MSG_NEWCHAIN, number);
    ghost var command := NewChain(Table(), name, hook, priority, chainType, policy);
    ghost var items, inside := [Chunk(GenMsgOf(command))] + AttrItems(command), Open(frames, kind);
    var msg := BeginCommand(b, NFT_MSG_NEWCHAIN, number);
    b.AttrStr(NFTA_CHAIN_TABLE, Table());
    b.AttrStr(NFTA_CHAIN_NAME, name);
    AddThree(inside, items);
    PutHook(b, hook, priority);
    AddNext(inside, items, 3);
    b.AttrStr(NFTA_CHAIN_TYPE, chainType);
    AddNext(inside, items, 4);
    b.AttrU32Be(NFTA_CHAIN_POLICY, policy);
    AddNext(inside, items, 5);
    assert items[..6] == items;
    CloseAll(frames, kind, items);
    b.EndMessage(msg);
    next := Next(number);
  }

  // The frames of a rule whose expression list is still open and empty.
  function OpenRule(frames: seq<Frame>, number: u32, chain: seq<byte>): (r: seq<Frame>)
    ensures r != []
  {
    Open(AddAll(Open(frames, CommandKind(NFT_MSG_NEWRULE, number)), RuleHead(chain)), InNested(NFTA_RULE_EXPRESSIONS))
  }

  function RuleHead(chain: seq<byte>): seq<Item> {
    [Chunk(GenMsg(NFPROTO_INET, 0)), Str(NFTA_RULE_TABLE, Table()), Str(NFTA_RULE_CHAIN, chain)]
  }

  method BeginRule(b: NlBuf, number: u32, chain: seq<byte>) returns (msg: Scope, list: Scope)
    requires b.Valid() && |b.buf| % 4 == 0
    modifies b
    ensures b.Valid() && |b.buf| % 4 == 0
    ensures b.frames == AddAll(OpenRule(old(b.frames), number, chain), ExprItems([]))
    ensures msg.off == |Render(old(b.frames))| && list.off == Offset(b.frames)
  {
    hide Render, WellFormed;
    ghost var inside, head := Open(b.frames, CommandKind(NFT_MSG_NEWRULE, number)), RuleHead(chain);
    msg := BeginCommand(b, NFT_MSG_NEWRULE, number);
    b.AttrStr(NFTA_RULE_TABLE, Table());
    b.AttrStr(NFTA_RULE_CHAIN, chain);
    AddThree(inside, head);
    assert head[..3] == head;
    list := b.BeginNested(NFTA_RULE_EXPRESSIONS);
    AddNone(b.frames);
    assert ExprItems([]) == [];
  }

  method EndRule(b: NlBuf, number: u32, chain: seq<byte>, msg: Scope, list: Scope,
                 ghost frames: seq<Frame>, ghost exprs: seq<Expr>)
    returns (next: u32)
    requires b.Valid() && frames != [] && b.frames == AddAll(OpenRule(frames, number, chain), ExprItems(exprs))
    requires msg.off == |Render(frames)| && list.off == Offset(b.frames)
    modifies b
    ensures b.Valid() && |b.buf| % 4 == 0
    ensures b.frames == Add(frames, CommandItem(number, Rule(chain, exprs))) && next == Next(number)
  {
    hide Render, WellFormed, ExprItems;
    ghost var kind, head := CommandKind(NFT_MSG_NEWRULE, number), RuleHead(chain);
    ghost var inside, last := Open(frames, kind), Nested(NFTA_RULE_EXPRESSIONS, ExprItems(exprs));
    CloseAll(AddAll(inside, head), InNested(NFTA_RULE_EXPRESSIONS), ExprItems(exprs));
    b.EndNested(list);
    AddOne(inside, head, last);
    CloseAll(frames, kind, head + [last]);
    b.EndMessage(msg);
    assert head + [last] == [Chunk(GenMsgOf(Rule(chain, exprs)))] + AttrItems(Rule(chain, exprs));
    next := Next(number);
  }

  // ---- rules ----

  lemma Emit(frames: seq<Frame>, exprs: seq<Expr>, e: Expr) returns (longer: seq<Expr>)
    requires frames != []
    ensures longer == exprs + [e]
    ensures Add(AddAll(frames, ExprItems(exprs)), ExprItem(e)) == AddAll(frames, ExprItems(longer))
  {
    hide ExprItem;
    longer := exprs + [e];
    AddOne(frames, ExprItems(exprs), ExprItem(e));
    assert ExprItems(exprs) + [ExprItem(e)] == ExprItems(longer);
  }

  method RuleCtAccept(b: NlBuf, number: u32, chain: seq<byte>) returns (next: u32)
    requires b.Valid() && |b.buf| % 4 == 0
    modifies b
    ensures b.Valid() && |b.buf| % 4 == 0
    ensures b.frames == Add(old(b.frames), CommandItem(number, Rule(chain, CtAccept()))) && next == Next(number)
  {
    hide Render, WellFormed, Add, AddAll, ExprItem, ExprItems, OpenRule;
    ghost var frames := b.frames;
    ghost var open := OpenRule(frames, number, chain);
    var msg, list := BeginRule(b, number, chain);
    CtStateMatch(b);
    ghost var es := Emit(open, [], CtAccept()[0]);
    es := Emit(open, es, CtAccept()[1]);
    es := Emit(open, es, CtAccept()[2]);
    VerdictExpr(b, NF_ACCEPT);
    es := Emit(open, es, CtAccept()[3]);
    assert es == CtAccept();
    next := EndRule(b, number, chain, msg, list, frames, es);
  }

  method RuleIifAccept(b: NlBuf, number: u32, chain: seq<byte>, ifname: seq<byte>) returns (next: u32)
    requires b.Valid() && |b.buf| % 4 == 0
    modifies b
    ensures b.Valid() && |b.buf| % 4 == 0
    ensures b.frames == Add(old(b.frames), CommandItem(number, Rule(chain, IifAccept(ifname)))) && next == Next(number)
  {
    hide Render, WellFormed, Add, AddAll, ExprItem, ExprItems, OpenRule;
    ghost var frames, exprs := b.frames, IifAccept(ifname);
    ghost var open := OpenRule(frames, number, chain);
    var name := ifname + [0];
    var msg, list := BeginRule(b, number, chain);
    MetaLoad(b, NFT_META_IIFNAME, NFT_REG_1);
    ghost var es := Emit(open, [], exprs[0]);
    CmpExpr(b, NFT_REG_1, NFT_CMP_EQ, name);
    es := Emit(open, es, exprs[1]);
    VerdictExpr(b, NF_ACCEPT);
    es := Emit(open, es, exprs[2]);
    assert es == exprs;
    next := EndRule(b, number, chain, msg, list, frames, es);
  }

  method RuleL4ProtoAccept(b: NlBuf, number: u32, chain: seq<byte>, proto: byte) returns (next: u32)
    requires b.Valid() && |b.buf| % 4 == 0
    modifies b
    ensures b.Valid() && |b.buf| % 4 == 0
    ensures b.frames == Add(old(b.frames), CommandItem(number, Rule(chain, L4ProtoAccept(proto)))) && next == Next(number)
  {
    hide Render, WellFormed, Add, AddAll, ExprItem, ExprItems, OpenRule;
    ghost var frames, exprs := b.frames, L4ProtoAccept(proto);
    ghost var open := OpenRule(frames, number, chain);
    var msg, list := BeginRule(b, number, chain);
    MetaLoad(b, NFT_META_L4PROTO, NFT_REG_1);
    ghost var es := Emit(open, [], exprs[0]);
    CmpExpr(b, NFT_REG_1, NFT_CMP_EQ, [proto]);
    es := Emit(open, es, exprs[1]);
    VerdictExpr(b, NF_ACCEPT);
    es := Emit(open, es, exprs[2]);
    assert es == exprs;
    next := EndRule(b, number, chain, msg, list, frames, es);
  }

  method RuleDnat(b: NlBuf, number: u32, f: Forward) returns (next: u32)
    requires b.Valid() && |b.buf| % 4 == 0
    modifies b
    ensures b.Valid() && |b.buf| % 4 == 0
    ensures b.frames == Add(old(b.frames), CommandItem(number, Rule(PreroutingChain(), Dnat(f)))) && next == Next(number)
  {
    hide Render, WellFormed, Add, AddAll, ExprItem, ExprItems, OpenRule, Be16, Be32;
    ghost var frames, exprs := b.frames, Dnat(f);
    ghost var open := OpenRule(frames, number, PreroutingChain());
    var msg, list := BeginRule(b, number, PreroutingChain());
    MetaLoad(b, NFT_META_L4PROTO, NFT_REG_1);
    ghost var es := Emit(open, [], exprs[0]);
    CmpExpr(b, NFT_REG_1, NFT_CMP_EQ, [f.proto]);
    es := Emit(open, es, exprs[1]);
    PayloadLoad(b, NFT_PAYLOAD_TRANSPORT_HEADER, 2, 2, NFT_REG_1);
    es := Emit(open, es, exprs[2]);
    CmpExpr(b, NFT_REG_1, NFT_CMP_EQ, Be16(f.dport));
    es := Emit(open, es, exprs[3]);
    ImmediateValue(b, NFT_REG_1, Be32(f.destIp));
    es := Emit(open, es, exprs[4]);
    ImmediateValue(b, NFT_REG_2, Be16(f.destPort));
    es := Emit(open, es, exprs[5]);
    NatExpr(b);
    es := Emit(open, es, exprs[6]);
    assert es == exprs;
    next := EndRule(b, number, PreroutingChain(), msg, list, frames, es);
  }

  method RuleForwardToDest(b: NlBuf, number: u32, f: Forward) returns (next: u32)
    requires b.Valid() && |b.buf| % 4 == 0
    modifies b
    ensures b.Valid() && |b.buf| % 4 == 0
    ensures b.frames == Add(old(b.frames), CommandItem(number, Rule(ForwardChain(), ForwardToDest(f))))
    ensures next == Next(number)
  {
    hide Render, WellFormed, Add, AddAll, ExprItem, ExprItems, OpenRule, Be16, Be32;
    ghost var frames, exprs := b.frames, ForwardToDest(f);
    ghost var open := OpenRule(frames, number, ForwardChain());
    var msg, list := BeginRule(b, number, ForwardChain());
    MetaLoad(b, NFT_META_L4PROTO, NFT_REG_1);
    ghost var es := Emit(open, [], exprs[0]);
    CmpExpr(b, NFT_REG_1, NFT_CMP_EQ, [f.proto]);
    es := Emit(open, es, exprs[1]);
    PayloadLoad(b, NFT_PAYLOAD_NETWORK_HEADER, 16, 4, NFT_REG_1);
    es := Emit(open, es, exprs[2]);
    CmpExpr(b, NFT_REG_1, NFT_CMP_EQ, Be32(f.destIp));
    es := Emit(open, es, exprs[3]);
    PayloadLoad(b, NFT_PAYLOAD_TRANSPORT_HEADER, 2, 2, NFT_REG_1);
    es := Emit(open, es, exprs[4]);
    CmpExpr(b, NFT_REG_1, NFT_CMP_EQ, Be16(f.destPort));
    es := Emit(open, es, exprs[5]);
    VerdictExpr(b, NF_ACCEPT);
    es := Emit(open, es, exprs[6]);
    assert es == exprs;
    next := EndRule(b, number, ForwardChain(), msg, list, frames, es);
  }

  method RuleMasq(b: NlBuf, number: u32) returns (next: u32)
    requires b.Valid() && |b.buf| % 4 == 0
    modifies b
    ensures b.Valid() && |b.buf| % 4 == 0
    ensures b.frames == Add(old(b.frames), CommandItem(number, Rule(PostroutingChain(), [Masq])))
    ensures next == Next(number)
  {
    hide Render, WellFormed, Add, AddAll, ExprItem, ExprItems, OpenRule;
    ghost var frames := b.frames;
    var msg, list := BeginRule(b, number, PostroutingChain());
    MasqExpr(b);
    ghost var es := Emit(OpenRule(frames, number, PostroutingChain()), [], Masq);
    assert es == [Masq];
    next := EndRule(b, number, PostroutingChain(), msg, list, frames, es);
  }

  // ---- the batch ----

  ghost predicate Holds(b: NlBuf, number: u32, commands: seq<Command>)
    reads b
  {
    && b.Valid() && |b.buf| % 4 == 0
    && b.frames == [Frame(Root, EntryItems(Numbered(commands)))]
    && number == ToU32(1 + |commands|)
  }

  lemma AppendEntry(entries: seq<Entry>, entry: Entry)
    ensures EntryItems(entries + [entry]) == EntryItems(entries) + [CommandItem(entry.number, entry.command)]
  {
    hide CommandItem;
  }

  lemma AppendNumber(commands: seq<Command>, command: Command)
    ensures Numbered(commands + [command]) == Numbered(commands) + [Entry(ToU32(1 + |commands|), command)]
  {
    hide ToU32;
  }

  lemma AddRoot(items: seq<Item>, item: Item)
    ensures Add([Frame(Root, items)], item) == [Frame(Root, items + [item])]
  {
  }

  lemma Record(commands: seq<Command>, number: u32, command: Command) returns (longer: seq<Command>)
    requires number == ToU32(1 + |commands|)
    ensures longer == commands + [command]
    ensures Add([Frame(Root, EntryItems(Numbered(commands)))], CommandItem(number, command))
         == [Frame(Root, EntryItems(Numbered(longer)))]
    ensures Next(number) == ToU32(1 + |longer|)
  {
    hide CommandItem, Numbered, EntryItems, Add;
    longer := commands + [command];
    AppendNumber(commands, command);
    AppendEntry(Numbered(commands), Entry(number, command));
    AddRoot(EntryItems(Numbered(commands)), CommandItem(number, command));
  }

  method BuildPreamble(b: NlBuf) returns (number: u32)
    requires b.Valid() && b.frames == [Frame(Root, [])]
    modifies b
    ensures Holds(b, number, Preamble())
  {
    RenderRoot([]);
    assert EntryItems(Numbered([])) == [];
    hide Render, WellFormed, Add, Numbered, EntryItems, CommandItem, Ascii, Next, ToU32;
    assert ToU32(1) == 1;
    number := 1;
    BatchMarker(b, number, BatchBegin);
    ghost var done := Record([], number, BatchBegin);
    number := Next(number);
    done := Record(done, number, NewTable(Table()));
    number := NewTableMessage(b, number);
    assert done == Preamble();
  }

  method BuildBaseChains(b: NlBuf, first: u32, ghost before: seq<Command>) returns (number: u32)
    requires Holds(b, first, before)
    modifies b
    ensures Holds(b, number, before + BaseChains())
  {
    hide Render, WellFormed, Add, Numbered, EntryItems, CommandItem, Ascii, Next, ToU32;
    number := first;
    ghost var chains := BaseChains();
    ghost var done := Record(before, number, chains[0]);
    number := NewBaseChain(b, number, InputChain(), Ascii("filter"), NF_INET_LOCAL_IN, 0, NF_DROP);
    done := Record(done, number, chains[1]);
    number := NewBaseChain(b, number, ForwardChain(), Ascii("filter"), NF_INET_FORWARD, 0, NF_DROP);
    done := Record(done, number, chains[2]);
    number := NewBaseChain(b, number, PreroutingChain(), Ascii("nat"), NF_INET_PRE_ROUTING, DSTNAT_PRIO, NF_ACCEPT);
    done := Record(done, number, chains[3]);
    number := NewBaseChain(b, number, PostroutingChain(), Ascii("nat"), NF_INET_POST_ROUTING, 100, NF_ACCEPT);
    assert done == before + chains;
  }

  method BuildFixedRules(b: NlBuf, first: u32, lan: seq<byte>, ghost before: seq<Command>) returns (number: u32)
    requires Holds(b, first, before)
    modifies b
    ensures Holds(b, number, before + FixedRules(lan))
  {
    hide Render, WellFormed, Add, Numbered, EntryItems, CommandItem, CtAccept, IifAccept, L4ProtoAccept, Ascii;
    number := first;
    ghost var rules := FixedRules(lan);
    ghost var done := Record(before, number, rules[0]);
    number := RuleCtAccept(b, number, InputChain());
    done := Record(done, number, rules[1]);
    number := RuleIifAccept(b, number, InputChain(), Ascii("lo"));
    done := Record(done, number, rules[2]);
    number := RuleIifAccept(b, number, InputChain(), lan);
    done := Record(done, number, rules[3]);
    number := RuleL4ProtoAccept(b, number, InputChain(), IPPROTO_ICMP);
    done := Record(done, number, rules[4]);
    number := RuleCtAccept(b, number, ForwardChain());
    done := Record(done, number, rules[5]);
    number := RuleIifAccept(b, number, ForwardChain(), lan);
    assert done == before + rules;
  }

  method BuildForwards(b: NlBuf, first: u32, forwards: seq<Forward>, ghost before: seq<Command>)
    returns (number: u32)
    requires Holds(b, first, before)
    modifies b
    ensures Holds(b, number, before + ForwardRules(forwards) + DnatRules(forwards))
  {
    hide Render, WellFormed, Add, Numbered, EntryItems, CommandItem, ForwardToDest, Dnat, ToU32;
    number := first;
    ghost var done := before;
    for i := 0 to |forwards|
      invariant Holds(b, number, done)
      invariant done == before + ForwardRules(forwards)[..i]
    {
      done := Record(done, number, Rule(ForwardChain(), ForwardToDest(forwards[i])));
      number := RuleForwardToDest(b, number, forwards[i]);
    }
    ghost var middle := before + ForwardRules(forwards);
    assert done == middle;
    for i := 0 to |forwards|
      invariant Holds(b, number, done)
      invariant done == middle + DnatRules(forwards)[..i]
    {
      done := Record(done, number, Rule(PreroutingChain(), Dnat(forwards[i])));
      number := RuleDnat(b, number, forwards[i]);
    }
    assert done == middle + DnatRules(forwards);
  }

  /** The batch in the buffer is the recursive encoding of the numbered rule set, for every policy. */
  method BuildRuleset(lan: seq<byte>, masq: bool, forwards: seq<Forward>) returns (b: NlBuf)
    ensures fresh(b) && b.Valid()
    ensures b.buf == EncodeAll(EntryItems(Numbered(Ruleset(lan, masq, forwards))))
  {
    hide Add, Numbered, EntryItems, CommandItem, Preamble, BaseChains, FixedRules, ForwardRules, DnatRules, Next;
    hide Render, WellFormed;
    b := new NlBuf();
    var number := BuildPreamble(b);
    number := BuildBaseChains(b, number, Preamble());
    ghost var done := Preamble() + BaseChains();
    number := BuildFixedRules(b, number, lan, done);
    done := done + FixedRules(lan);
    number := BuildForwards(b, number, forwards, done);
    done := done + ForwardRules(forwards) + DnatRules(forwards);
    if masq {
      done := Record(done, number, Rule(PostroutingChain(), [Masq]));
      number := RuleMasq(b, number);
    }
    done := Record(done, number, BatchEnd);
    BatchMarker(b, number, BatchEnd);
    assert done == Ruleset(lan, masq, forwards);
    RenderRoot(EntryItems(Numbered(done)));
  }

  lemma RenderRoot(items: seq<Item>)
    ensures Render([Frame(Root, items)]) == EncodeAll(items)
  {
    assert Outer([Frame(Root, items)]) == [];
  }
}
