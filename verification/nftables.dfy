/**
 The nf_tables batch format as the firewall writes it (src/fw.rs): commands and rule expressions, their
 attribute trees, and a decoder that reads them back from bytes with the attribute walker of src/nl.rs.
 */
module Nftables {
  import opened Bytes
  import opened Netlink
  import opened Wrappers

  const NFNL_SUBSYS_NFTABLES: u16 := 10
  const NFNL_MSG_BATCH_BEGIN: u16 := 16
  const NFNL_MSG_BATCH_END: u16 := 17
  const NFT_MSG_NEWTABLE: u16 := 0
  const NFT_MSG_NEWCHAIN: u16 := 3
  const NFT_MSG_NEWRULE: u16 := 6

  const NFPROTO_INET: byte := 1

  const NFTA_TABLE_NAME: u16 := 1
  const NFTA_CHAIN_TABLE: u16 := 1
  const NFTA_CHAIN_NAME: u16 := 3
  const NFTA_CHAIN_HOOK: u16 := 4
  const NFTA_CHAIN_POLICY: u16 := 5
  const NFTA_CHAIN_TYPE: u16 := 7
  const NFTA_HOOK_HOOKNUM: u16 := 1
  const NFTA_HOOK_PRIORITY: u16 := 2
  const NFTA_RULE_TABLE: u16 := 1
  const NFTA_RULE_CHAIN: u16 := 2
  const NFTA_RULE_EXPRESSIONS: u16 := 4
  const NFTA_LIST_ELEM: u16 := 1
  const NFTA_EXPR_NAME: u16 := 1
  const NFTA_EXPR_DATA: u16 := 2
  const NFTA_DATA_VALUE: u16 := 1
  const NFTA_DATA_VERDICT: u16 := 2
  const NFTA_VERDICT_CODE: u16 := 1
  const NFTA_CT_DREG: u16 := 1
  const NFTA_CT_KEY: u16 := 2
  const NFTA_BITWISE_SREG: u16 := 1
  const NFTA_BITWISE_DREG: u16 := 2
  const NFTA_BITWISE_LEN: u16 := 3
  const NFTA_BITWISE_MASK: u16 := 4
  const NFTA_BITWISE_XOR: u16 := 5
  const NFTA_CMP_SREG: u16 := 1
  const NFTA_CMP_OP: u16 := 2
  const NFTA_CMP_DATA: u16 := 3
  const NFTA_META_DREG: u16 := 1
  const NFTA_META_KEY: u16 := 2
  const NFTA_PAYLOAD_BASE: u16 := 1
  const NFTA_PAYLOAD_DREG: u16 := 2
  const NFTA_PAYLOAD_OFFSET: u16 := 3
  const NFTA_PAYLOAD_LEN: u16 := 4
  const NFTA_IMMEDIATE_DREG: u16 := 1
  const NFTA_IMMEDIATE_DATA: u16 := 2
  const NFTA_NAT_TYPE: u16 := 1
  const NFTA_NAT_FAMILY: u16 := 2
  const NFTA_NAT_REG_ADDR_MIN: u16 := 3
  const NFTA_NAT_REG_PROTO_MIN: u16 := 5

  const NFT_REG_VERDICT: u32 := 0

  function Ascii(s: string): (r: seq<byte>)
    ensures |r| == |s|
  {
    seq(|s|, i requires 0 <= i < |s| => s[i] as int % 0x100)
  }

  // ---- expressions ----

  datatype Expr =
    | Ct(key: u32, dreg: u32)
    | Bitwise(sreg: u32, dreg: u32, len: u32, mask: seq<byte>, flip: seq<byte>)
    | Cmp(sreg: u32, op: u32, data: seq<byte>)
    | Meta(key: u32, dreg: u32)
    | Payload(dreg: u32, base: u32, offset: u32, len: u32)
    | Verdict(code: u32)
    | Immediate(dreg: u32, data: seq<byte>)
    | Nat(kind: u32, family: u32, addrReg: u32, portReg: u32)
    | Masq

  datatype Name = CT | BITWISE | CMP | META | PAYLOAD | IMMEDIATE | NAT | MASQ

  function Spelling(name: Name): seq<byte> {
    match name
    case CT => Ascii("ct")
    case BITWISE => Ascii("bitwise")
    case CMP => Ascii("cmp")
    case META => Ascii("meta")
    case PAYLOAD => Ascii("payload")
    case IMMEDIATE => Ascii("immediate")
    case NAT => Ascii("nat")
    case MASQ => Ascii("masq")
  }

  function NameOf(e: Expr): Name {
    match e
    case Ct(_, _) => CT
    case Bitwise(_, _, _, _, _) => BITWISE
    case Cmp(_, _, _) => CMP
    case Meta(_, _) => META
    case Payload(_, _, _, _) => PAYLOAD
    case Verdict(_) => IMMEDIATE
    case Immediate(_, _) => IMMEDIATE
    case Nat(_, _, _, _) => NAT
    case Masq => MASQ
  }

  function U32(typ: u16, v: u32): Item { Raw(typ, Be32(v)) }

  function Str(typ: u16, s: seq<byte>): Item { Raw(typ, s + [0]) }

  function Value(data: seq<byte>): Item { Nested(NFTA_DATA_VALUE, [Chunk(data)]) }

  function DataItems(e: Expr): seq<Item> {
    match e
    case Ct(key, dreg) => [U32(NFTA_CT_KEY, key), U32(NFTA_CT_DREG, dreg)]
    case Bitwise(sreg, dreg, len, mask, flip) =>
      [U32(NFTA_BITWISE_SREG, sreg), U32(NFTA_BITWISE_DREG, dreg), U32(NFTA_BITWISE_LEN, len),
       Nested(NFTA_BITWISE_MASK, [Value(mask)]), Nested(NFTA_BITWISE_XOR, [Value(flip)])]
    case Cmp(sreg, op, data) =>
      [U32(NFTA_CMP_SREG, sreg), U32(NFTA_CMP_OP, op), Nested(NFTA_CMP_DATA, [Value(data)])]
    case Meta(key, dreg) => [U32(NFTA_META_KEY, key), U32(NFTA_META_DREG, dreg)]
    case Payload(dreg, base, offset, len) =>
      [U32(NFTA_PAYLOAD_DREG, dreg), U32(NFTA_PAYLOAD_BASE, base),
       U32(NFTA_PAYLOAD_OFFSET, offset), U32(NFTA_PAYLOAD_LEN, len)]
    case Verdict(code) =>
      [U32(NFTA_IMMEDIATE_DREG, NFT_REG_VERDICT),
       Nested(NFTA_IMMEDIATE_DATA, [Nested(NFTA_DATA_VERDICT, [U32(NFTA_VERDICT_CODE, code)])])]
    case Immediate(dreg, data) =>
      [U32(NFTA_IMMEDIATE_DREG, dreg), Nested(NFTA_IMMEDIATE_DATA, [Value(data)])]
    case Nat(kind, family, addrReg, portReg) =>
      [U32(NFTA_NAT_TYPE, kind), U32(NFTA_NAT_FAMILY, family),
       U32(NFTA_NAT_REG_ADDR_MIN, addrReg), U32(NFTA_NAT_REG_PROTO_MIN, portReg)]
    case Masq => []
  }

  function ExprItem(e: Expr): (r: Item)
    ensures r.Nested? && r.typ == NFTA_LIST_ELEM && |r.kids| == 2
  {
    Nested(NFTA_LIST_ELEM, [Str(NFTA_EXPR_NAME, Spelling(NameOf(e))), Nested(NFTA_EXPR_DATA, DataItems(e))])
  }

  function ExprItems(es: seq<Expr>): (r: seq<Item>)
    ensures |r| == |es|
  {
    seq(|es|, i requires 0 <= i < |es| => ExprItem(es[i]))
  }

  // ---- commands ----

  datatype Command =
    | BatchBegin
    | BatchEnd
    | NewTable(name: seq<byte>)
    | NewChain(table: seq<byte>, name: seq<byte>, hook: u32, priority: u32, chainType: seq<byte>, policy: u32)
    | NewRule(table: seq<byte>, chain: seq<byte>, exprs: seq<Expr>)

  datatype Entry = Entry(number: u32, command: Command)

  // NFNL_SUBSYS_NFTABLES << 8 | msg
  function NftType(msg: byte): u16 { 0x100 * NFNL_SUBSYS_NFTABLES + msg }

  function GenMsg(family: byte, resId: u16): seq<byte> { [family, 0] + Be16(resId) }

  function TypeOf(c: Command): u16 {
    match c
    case BatchBegin => NFNL_MSG_BATCH_BEGIN
    case BatchEnd => NFNL_MSG_BATCH_END
    case NewTable(_) => NftType(NFT_MSG_NEWTABLE)
    case NewChain(_, _, _, _, _, _) => NftType(NFT_MSG_NEWCHAIN)
    case NewRule(_, _, _) => NftType(NFT_MSG_NEWRULE)
  }

  function FlagsOf(c: Command): u16 {
    if c.BatchBegin? || c.BatchEnd? then NLM_F_REQUEST else NLM_F_REQUEST + NLM_F_CREATE + NLM_F_ACK
  }

  function GenMsgOf(c: Command): (r: seq<byte>)
    ensures |r| == 4
  {
    if c.BatchBegin? || c.BatchEnd? then GenMsg(0, NFNL_SUBSYS_NFTABLES) else GenMsg(NFPROTO_INET, 0)
  }

  function AttrItems(c: Command): seq<Item> {
    match c
    case BatchBegin => []
    case BatchEnd => []
    case NewTable(name) => [Str(NFTA_TABLE_NAME, name)]
    case NewChain(table, name, hook, priority, chainType, policy) =>
      [Str(NFTA_CHAIN_TABLE, table), Str(NFTA_CHAIN_NAME, name),
       Nested(NFTA_CHAIN_HOOK, [U32(NFTA_HOOK_HOOKNUM, hook), U32(NFTA_HOOK_PRIORITY, priority)]),
       Str(NFTA_CHAIN_TYPE, chainType), U32(NFTA_CHAIN_POLICY, policy)]
    case NewRule(table, chain, exprs) =>
      [Str(NFTA_RULE_TABLE, table), Str(NFTA_RULE_CHAIN, chain),
       Nested(NFTA_RULE_EXPRESSIONS, ExprItems(exprs))]
  }

  function CommandItem(number: u32, c: Command): Item {
    Message(TypeOf(c), FlagsOf(c), number, [Chunk(GenMsgOf(c))] + AttrItems(c))
  }

  function EntryItems(entries: seq<Entry>): (r: seq<Item>)
    ensures |r| == |entries|
  {
    seq(|entries|, i requires 0 <= i < |entries| => CommandItem(entries[i].number, entries[i].command))
  }

  // ---- the decoder ----

  // A repeated attribute overrides the earlier one.
  function Find(views: seq<AttrView>, typ: u16): Option<seq<byte>> {
    if views == [] then None
    else
      var last := views[|views| - 1];
      if last.typ == typ then Some(last.payload) else Find(views[..|views| - 1], typ)
  }

  function FindU32(views: seq<AttrView>, typ: u16): Option<u32> {
    match Find(views, typ)
    case Some(s) => if |s| == 4 then Some(FromBe32(s)) else None
    case None => None
  }

  function FindStr(views: seq<AttrView>, typ: u16): Option<seq<byte>> {
    match Find(views, typ)
    case Some(s) => if s != [] && s[|s| - 1] == 0 then Some(s[..|s| - 1]) else None
    case None => None
  }

  function FindIn(views: seq<AttrView>, typ: u16): seq<AttrView> {
    match Find(views, typ)
    case Some(s) => Attrs(s)
    case None => []
  }

  function DecodeName(s: seq<byte>): Option<Name> {
    if s == Spelling(CT) then Some(CT)
    else if s == Spelling(BITWISE) then Some(BITWISE)
    else if s == Spelling(CMP) then Some(CMP)
    else if s == Spelling(META) then Some(META)
    else if s == Spelling(PAYLOAD) then Some(PAYLOAD)
    else if s == Spelling(IMMEDIATE) then Some(IMMEDIATE)
    else if s == Spelling(NAT) then Some(NAT)
    else if s == Spelling(MASQ) then Some(MASQ)
    else None
  }

  function DecodeData(name: Name, d: seq<AttrView>): Option<Expr> {
    match name
    case CT =>
      (match (FindU32(d, NFTA_CT_KEY), FindU32(d, NFTA_CT_DREG))
       case (Some(key), Some(dreg)) => Some(Ct(key, dreg))
       case _ => None)
    case BITWISE =>
      (match (FindU32(d, NFTA_BITWISE_SREG), FindU32(d, NFTA_BITWISE_DREG), FindU32(d, NFTA_BITWISE_LEN),
              Find(FindIn(d, NFTA_BITWISE_MASK), NFTA_DATA_VALUE), Find(FindIn(d, NFTA_BITWISE_XOR), NFTA_DATA_VALUE))
       case (Some(sreg), Some(dreg), Some(len), Some(mask), Some(flip)) => Some(Bitwise(sreg, dreg, len, mask, flip))
       case _ => None)
    case CMP =>
      (match (FindU32(d, NFTA_CMP_SREG), FindU32(d, NFTA_CMP_OP), Find(FindIn(d, NFTA_CMP_DATA), NFTA_DATA_VALUE))
       case (Some(sreg), Some(op), Some(data)) => Some(Cmp(sreg, op, data))
       case _ => None)
    case META =>
      (match (FindU32(d, NFTA_META_KEY), FindU32(d, NFTA_META_DREG))
       case (Some(key), Some(dreg)) => Some(Meta(key, dreg))
       case _ => None)
    case PAYLOAD =>
      (match (FindU32(d, NFTA_PAYLOAD_DREG), FindU32(d, NFTA_PAYLOAD_BASE),
              FindU32(d, NFTA_PAYLOAD_OFFSET), FindU32(d, NFTA_PAYLOAD_LEN))
       case (Some(dreg), Some(base), Some(offset), Some(len)) => Some(Payload(dreg, base, offset, len))
       case _ => None)
    case IMMEDIATE =>
      var data := FindIn(d, NFTA_IMMEDIATE_DATA);
      (match (FindU32(d, NFTA_IMMEDIATE_DREG), FindU32(FindIn(data, NFTA_DATA_VERDICT), NFTA_VERDICT_CODE),
              Find(data, NFTA_DATA_VALUE))
       case (Some(dreg), Some(code), None) => if dreg == NFT_REG_VERDICT then Some(Verdict(code)) else None
       case (Some(dreg), None, Some(value)) => Some(Immediate(dreg, value))
       case _ => None)
    case NAT =>
      (match (FindU32(d, NFTA_NAT_TYPE), FindU32(d, NFTA_NAT_FAMILY),
              FindU32(d, NFTA_NAT_REG_ADDR_MIN), FindU32(d, NFTA_NAT_REG_PROTO_MIN))
       case (Some(kind), Some(family), Some(addr), Some(port)) => Some(Nat(kind, family, addr, port))
       case _ => None)
    case MASQ => Some(Masq)
  }

  function DecodeExpr(elem: seq<AttrView>): Option<Expr> {
    match FindStr(elem, NFTA_EXPR_NAME)
    case None => None
    case Some(s) =>
      match DecodeName(s)
      case None => None
      case Some(name) => DecodeData(name, FindIn(elem, NFTA_EXPR_DATA))
  }

  function DecodeExprs(list: seq<AttrView>): Option<seq<Expr>> {
    if list == [] then Some([])
    else if list[0].typ != NFTA_LIST_ELEM then None
    else
      match (DecodeExpr(Attrs(list[0].payload)), DecodeExprs(list[1..]))
      case (Some(e), Some(es)) => Some([e] + es)
      case _ => None
  }

  function DecodeCommand(typ: u16, body: seq<byte>): Option<Command> {
    if |body| < 4 then None
    else
      var d := Attrs(body[4..]);
      if typ == NFNL_MSG_BATCH_BEGIN then Some(BatchBegin)
      else if typ == NFNL_MSG_BATCH_END then Some(BatchEnd)
      else if typ == NftType(NFT_MSG_NEWTABLE) then
        match FindStr(d, NFTA_TABLE_NAME)
        case Some(name) => Some(NewTable(name))
        case None => None
      else if typ == NftType(NFT_MSG_NEWCHAIN) then
        var hook := FindIn(d, NFTA_CHAIN_HOOK);
        match (FindStr(d, NFTA_CHAIN_TABLE), FindStr(d, NFTA_CHAIN_NAME), FindU32(hook, NFTA_HOOK_HOOKNUM),
               FindU32(hook, NFTA_HOOK_PRIORITY), FindStr(d, NFTA_CHAIN_TYPE), FindU32(d, NFTA_CHAIN_POLICY))
        case (Some(table), Some(name), Some(num), Some(prio), Some(kind), Some(policy)) =>
          Some(NewChain(table, name, num, prio, kind, policy))
        case _ => None
      else if typ == NftType(NFT_MSG_NEWRULE) then
        match (FindStr(d, NFTA_RULE_TABLE), FindStr(d, NFTA_RULE_CHAIN), DecodeExprs(FindIn(d, NFTA_RULE_EXPRESSIONS)))
        case (Some(table), Some(chain), Some(exprs)) => Some(NewRule(table, chain, exprs))
        case _ => None
      else None
  }

  /** Cut the batch into messages; they must tile it exactly. */
  function DecodeBatch(s: seq<byte>): Option<seq<Entry>>
    decreases |s|
  {
    if s == [] then Some([])
    else if |s| < 16 then None
    else
      var len := FromLe32(s[..4]);
      if len < 16 || Align4(len) > |s| then None
      else
        match (DecodeCommand(FromLe16(s[4..6]), s[16..len]), DecodeBatch(s[Align4(len)..]))
        case (Some(c), Some(rest)) => Some([Entry(FromLe32(s[8..12]), c)] + rest)
        case _ => None
  }
}
