/** Decoding the bytes of a batch gives back its commands whenever no length field was truncated. */
module NftablesRoundTrip {
  import opened Bytes
  import opened Netlink
  import opened Nftables
  import opened Wrappers

  // No length field in the whole tree is truncated by its cast.
  predicate Sized(item: Item) {
    match item
    case Chunk(_) => true
    case Raw(_, _) => Fits(item)
    case Nested(_, kids) => Fits(item) && forall kid <- kids :: Sized(kid)
    case Message(_, _, _, body) => 16 + |EncodeAll(body)| < 0x1_0000_0000 && forall kid <- body :: Sized(kid)
  }

  predicate Distinct(views: seq<AttrView>) {
    forall i, j :: 0 <= i < j < |views| ==> views[i].typ != views[j].typ
  }

  lemma {:induction false} FindDistinct(views: seq<AttrView>, i: nat)
    requires Distinct(views) && i < |views|
    ensures Find(views, views[i].typ) == Some(views[i].payload)
  {
    if i < |views| - 1 {
      FindDistinct(views[..|views| - 1], i);
    }
  }

  lemma {:induction false} FindAbsent(views: seq<AttrView>, typ: u16)
    requires forall i :: 0 <= i < |views| ==> views[i].typ != typ
    ensures Find(views, typ) == None
  {
    if views != [] {
      FindAbsent(views[..|views| - 1], typ);
    }
  }

  function Key(item: Item): u16
    requires IsAttr(item)
  {
    item.typ % 0x4000
  }

  predicate Keyed(items: seq<Item>) {
    && (forall i :: 0 <= i < |items| ==> IsAttr(items[i]) && Sized(items[i]))
    && (forall i, j :: 0 <= i < j < |items| ==> Key(items[i]) != Key(items[j]))
  }

  // Walking an encoded list of sized attributes finds each of them under its own type.
  lemma Reads(items: seq<Item>, i: nat, key: u16)
    requires Keyed(items) && i < |items| && Key(items[i]) == key
    ensures Find(Attrs(EncodeAll(items)), key) == Some(Content(items[i]))
    ensures items[i].Raw? && |items[i].payload| == 4 ==>
              FindU32(Attrs(EncodeAll(items)), key) == Some(FromBe32(items[i].payload))
    ensures items[i].Nested? ==> FindIn(Attrs(EncodeAll(items)), key) == Attrs(EncodeAll(items[i].kids))
    ensures items[i].Raw? && items[i].payload != [] && items[i].payload[|items[i].payload| - 1] == 0 ==>
              FindStr(Attrs(EncodeAll(items)), key) == Some(items[i].payload[..|items[i].payload| - 1])
  {
    hide EncodeAll, Attrs, Find;
    WalkRecoversIff(items);
    FindDistinct(Views(items), i);
  }

  lemma ReadsU32(items: seq<Item>, i: nat, key: u16, v: u32)
    requires Keyed(items) && i < |items| && Key(items[i]) == key && items[i].Raw? && items[i].payload == Be32(v)
    ensures FindU32(Attrs(EncodeAll(items)), key) == Some(v)
  {
    hide EncodeAll, Attrs, Find;
    Reads(items, i, key);
    BigEndian(v);
  }

  lemma ReadsStr(items: seq<Item>, i: nat, key: u16, s: seq<byte>)
    requires Keyed(items) && i < |items| && Key(items[i]) == key && items[i].Raw? && items[i].payload == s + [0]
    ensures FindStr(Attrs(EncodeAll(items)), key) == Some(s)
  {
    hide EncodeAll, Attrs, Find;
    Reads(items, i, key);
  }

  lemma ReadsNothing(items: seq<Item>, key: u16)
    requires Keyed(items) && forall i :: 0 <= i < |items| ==> Key(items[i]) != key
    ensures Find(Attrs(EncodeAll(items)), key) == None
  {
    hide EncodeAll, Attrs, Find;
    WalkRecoversIff(items);
    FindAbsent(Views(items), key);
  }

  lemma SizedKid(item: Item, k: nat)
    requires Sized(item) && item.Nested? && k < |item.kids|
    ensures Sized(item.kids[k])
  {
    assert item.kids[k] in item.kids;
  }

  lemma ValueContent(data: seq<byte>)
    ensures Content(Value(data)) == data
  {
    assert EncodeAll([Chunk(data)]) == EncodeAll([]) + data;
  }

  lemma ReadsValue(items: seq<Item>, i: nat, key: u16, data: seq<byte>)
    requires Keyed(items) && i < |items| && Key(items[i]) == key
    requires items[i].Nested? && items[i].kids == [Value(data)]
    ensures Find(FindIn(Attrs(EncodeAll(items)), key), NFTA_DATA_VALUE) == Some(data)
    ensures Find(FindIn(Attrs(EncodeAll(items)), key), NFTA_DATA_VERDICT) == None
  {
    hide EncodeAll, Attrs, Find, Sized;
    ValueContent(data);
    Reads(items, i, key);
    SizedKid(items[i], 0);
    Reads([Value(data)], 0, NFTA_DATA_VALUE);
    ReadsNothing([Value(data)], NFTA_DATA_VERDICT);
  }

  lemma ReadsVerdict(items: seq<Item>, i: nat, key: u16, code: u32)
    requires Keyed(items) && i < |items| && Key(items[i]) == key && items[i].Nested?
    requires items[i].kids == [Nested(NFTA_DATA_VERDICT, [U32(NFTA_VERDICT_CODE, code)])]
    ensures var data := FindIn(Attrs(EncodeAll(items)), key);
            && FindU32(FindIn(data, NFTA_DATA_VERDICT), NFTA_VERDICT_CODE) == Some(code)
            && Find(data, NFTA_DATA_VALUE) == None
  {
    hide EncodeAll, Attrs, Find, Sized;
    Reads(items, i, key);
    var inner := [U32(NFTA_VERDICT_CODE, code)];
    SizedKid(items[i], 0);
    SizedKid(items[i].kids[0], 0);
    Reads(items[i].kids, 0, NFTA_DATA_VERDICT);
    ReadsNothing(items[i].kids, NFTA_DATA_VALUE);
    ReadsU32(inner, 0, NFTA_VERDICT_CODE, code);
  }

  predicate AllSized(items: seq<Item>) {
    forall i :: 0 <= i < |items| ==> Sized(items[i])
  }

  lemma DataIsKeyed(e: Expr)
    requires AllSized(DataItems(e))
    ensures Keyed(DataItems(e))
  {
    hide Sized, Be32, EncodeAll;
  }

  lemma DataRoundTrip(e: Expr)
    requires AllSized(DataItems(e))
    ensures DecodeData(NameOf(e), Attrs(EncodeAll(DataItems(e)))) == Some(e)
  {
    hide EncodeAll, Attrs, Find, FindU32, FindIn, Keyed, AllSized, Be32, Sized;
    var items := DataItems(e);
    DataIsKeyed(e);
    match e {
      case Ct(key, dreg) =>
        ReadsU32(items, 0, NFTA_CT_KEY, key);
        ReadsU32(items, 1, NFTA_CT_DREG, dreg);
      case Bitwise(sreg, dreg, len, mask, flip) =>
        ReadsU32(items, 0, NFTA_BITWISE_SREG, sreg);
        ReadsU32(items, 1, NFTA_BITWISE_DREG, dreg);
        ReadsU32(items, 2, NFTA_BITWISE_LEN, len);
        ReadsValue(items, 3, NFTA_BITWISE_MASK, mask);
        ReadsValue(items, 4, NFTA_BITWISE_XOR, flip);
      case Cmp(sreg, op, data) =>
        ReadsU32(items, 0, NFTA_CMP_SREG, sreg);
        ReadsU32(items, 1, NFTA_CMP_OP, op);
        ReadsValue(items, 2, NFTA_CMP_DATA, data);
      case Meta(key, dreg) =>
        ReadsU32(items, 0, NFTA_META_KEY, key);
        ReadsU32(items, 1, NFTA_META_DREG, dreg);
      case Payload(dreg, base, offset, len) =>
        ReadsU32(items, 0, NFTA_PAYLOAD_DREG, dreg);
        ReadsU32(items, 1, NFTA_PAYLOAD_BASE, base);
        ReadsU32(items, 2, NFTA_PAYLOAD_OFFSET, offset);
        ReadsU32(items, 3, NFTA_PAYLOAD_LEN, len);
      case Verdict(code) =>
        ReadsU32(items, 0, NFTA_IMMEDIATE_DREG, NFT_REG_VERDICT);
        ReadsVerdict(items, 1, NFTA_IMMEDIATE_DATA, code);
      case Immediate(dreg, data) =>
        ReadsU32(items, 0, NFTA_IMMEDIATE_DREG, dreg);
        ReadsValue(items, 1, NFTA_IMMEDIATE_DATA, data);
        NoVerdict(FindIn(Attrs(EncodeAll(items)), NFTA_IMMEDIATE_DATA));
      case Nat(kind, family, addrReg, portReg) =>
        ReadsU32(items, 0, NFTA_NAT_TYPE, kind);
        ReadsU32(items, 1, NFTA_NAT_FAMILY, family);
        ReadsU32(items, 2, NFTA_NAT_REG_ADDR_MIN, addrReg);
        ReadsU32(items, 3, NFTA_NAT_REG_PROTO_MIN, portReg);
      case Masq =>
    }
  }

  lemma NoVerdict(data: seq<AttrView>)
    requires Find(data, NFTA_DATA_VERDICT) == None
    ensures FindU32(FindIn(data, NFTA_DATA_VERDICT), NFTA_VERDICT_CODE) == None
  {
  }

  lemma NameRoundTrip(name: Name)
    ensures DecodeName(Spelling(name)) == Some(name)
  {
    assert forall other: Name :: other != name ==>
        |Spelling(other)| != |Spelling(name)| || Spelling(other)[0] != Spelling(name)[0]
        || Spelling(other)[1] != Spelling(name)[1];
  }

  lemma ExprRoundTrip(e: Expr)
    requires Sized(ExprItem(e))
    ensures DecodeExpr(Attrs(Content(ExprItem(e)))) == Some(e)
  {
    hide EncodeAll, Attrs, Find, FindStr, FindIn, DecodeName, DecodeData, Spelling, DataItems;
    var items := ExprItem(e).kids;
    SizedKid(ExprItem(e), 0);
    SizedKid(ExprItem(e), 1);
    assert AllSized(DataItems(e)) by {
      forall k | 0 <= k < |DataItems(e)| ensures Sized(DataItems(e)[k]) { SizedKid(items[1], k); }
    }
    ReadsStr(items, 0, NFTA_EXPR_NAME, Spelling(NameOf(e)));
    Reads(items, 1, NFTA_EXPR_DATA);
    NameRoundTrip(NameOf(e));
    DataRoundTrip(e);
  }

  lemma {:induction false} ListRoundTrip(es: seq<Expr>)
    requires forall i :: 0 <= i < |es| ==> Sized(ExprItem(es[i]))
    ensures forall i :: 0 <= i < |es| ==> IsAttr(ExprItems(es)[i])
    ensures DecodeExprs(Views(ExprItems(es))) == Some(es)
  {
    hide EncodeAll, Attrs, DecodeExpr, ExprItem, Sized;
    if es != [] {
      var items, rest := ExprItems(es), ExprItems(es[1..]);
      assert items[0] == ExprItem(es[0]) && items[1..] == rest;
      ExprRoundTrip(es[0]);
      ListRoundTrip(es[1..]);
      assert Views(items)[1..] == Views(rest);
      assert Views(items)[0] == AttrView(NFTA_LIST_ELEM, Content(ExprItem(es[0])));
      assert [es[0]] + es[1..] == es;
    }
  }

  lemma AttrItemsAreKeyed(c: Command)
    requires AllSized(AttrItems(c))
    ensures Keyed(AttrItems(c))
  {
    hide Sized, Be32, EncodeAll, ExprItems;
  }

  lemma RuleRoundTrip(table: seq<byte>, chain: seq<byte>, exprs: seq<Expr>)
    requires AllSized(AttrItems(NewRule(table, chain, exprs)))
    ensures DecodeExprs(FindIn(Attrs(EncodeAll(AttrItems(NewRule(table, chain, exprs)))), NFTA_RULE_EXPRESSIONS))
         == Some(exprs)
  {
    hide EncodeAll, Attrs, Find, FindIn, Sized, DecodeExprs, ExprItem, Keyed;
    var items := AttrItems(NewRule(table, chain, exprs));
    AttrItemsAreKeyed(NewRule(table, chain, exprs));
    Reads(items, 2, NFTA_RULE_EXPRESSIONS);
    forall k | 0 <= k < |exprs|
      ensures Sized(ExprItem(exprs[k])) && Fits(ExprItem(exprs[k]))
    {
      SizedKid(items[2], k);
      SizedFits(ExprItem(exprs[k]));
    }
    ListRoundTrip(exprs);
    WalkRecoversIff(ExprItems(exprs));
  }

  lemma SizedFits(item: Item)
    requires Sized(item) && IsAttr(item)
    ensures Fits(item)
  {
  }

  lemma ChainRoundTrip(c: Command)
    requires c.NewChain? && AllSized(AttrItems(c))
    ensures var d := Attrs(EncodeAll(AttrItems(c)));
            && FindU32(FindIn(d, NFTA_CHAIN_HOOK), NFTA_HOOK_HOOKNUM) == Some(c.hook)
            && FindU32(FindIn(d, NFTA_CHAIN_HOOK), NFTA_HOOK_PRIORITY) == Some(c.priority)
  {
    hide EncodeAll, Attrs, Find, FindU32, FindIn, Sized, Be32;
    var items := AttrItems(c);
    AttrItemsAreKeyed(c);
    Reads(items, 2, NFTA_CHAIN_HOOK);
    SizedKid(items[2], 0);
    SizedKid(items[2], 1);
    ReadsU32(items[2].kids, 0, NFTA_HOOK_HOOKNUM, c.hook);
    ReadsU32(items[2].kids, 1, NFTA_HOOK_PRIORITY, c.priority);
  }

  lemma CommandRoundTrip(c: Command)
    requires AllSized(AttrItems(c))
    ensures DecodeCommand(TypeOf(c), GenMsgOf(c) + EncodeAll(AttrItems(c))) == Some(c)
  {
    hide EncodeAll, Attrs, Find, FindU32, FindStr, FindIn, Sized, DecodeExprs, ExprItem, Keyed, Be32, AllSized, ExprItems;
    var items := AttrItems(c);
    var body := GenMsgOf(c) + EncodeAll(items);
    assert |GenMsgOf(c)| == 4 && body[4..] == EncodeAll(items);
    AttrItemsAreKeyed(c);
    match c {
      case BatchBegin =>
      case BatchEnd =>
      case NewTable(name) => ReadsStr(items, 0, NFTA_TABLE_NAME, name);
      case NewChain(table, name, hook, priority, chainType, policy) =>
        ReadsStr(items, 0, NFTA_CHAIN_TABLE, table);
        ReadsStr(items, 1, NFTA_CHAIN_NAME, name);
        ChainRoundTrip(c);
        ReadsStr(items, 3, NFTA_CHAIN_TYPE, chainType);
        ReadsU32(items, 4, NFTA_CHAIN_POLICY, policy);
      case NewRule(table, chain, exprs) =>
        ReadsStr(items, 0, NFTA_RULE_TABLE, table);
        ReadsStr(items, 1, NFTA_RULE_CHAIN, chain);
        RuleRoundTrip(table, chain, exprs);
    }
  }

  // The fields of a message read back from its front.
  lemma MessageFields(typ: u16, flags: u16, number: u32, content: seq<byte>, rest: seq<byte>)
    requires 16 + |content| < 0x1_0000_0000
    ensures var s := Padded(MessageHeader(typ, flags, number, |content|) + content) + rest;
            && |s| >= Align4(16 + |content|)
            && FromLe32(s[..4]) == 16 + |content|
            && FromLe16(s[4..6]) == typ
            && FromLe32(s[8..12]) == number
            && s[16..16 + |content|] == content
            && s[Align4(16 + |content|)..] == rest
  {
    var s := Padded(MessageHeader(typ, flags, number, |content|) + content) + rest;
    assert s[..4] == Le32(16 + |content|);
    assert s[4..6] == Le16(typ);
    assert s[8..12] == Le32(number);
    LittleEndian(16 + |content|);
    LittleEndian(number);
  }

  function BodyBytes(c: Command): seq<byte> { GenMsgOf(c) + EncodeAll(AttrItems(c)) }

  function EntryBytes(entry: Entry): seq<byte> {
    var content := BodyBytes(entry.command);
    Padded(MessageHeader(TypeOf(entry.command), FlagsOf(entry.command), entry.number, |content|) + content)
  }

  lemma EntryEncoding(entries: seq<Entry>)
    requires entries != []
    ensures EncodeAll(EntryItems(entries)) == EntryBytes(entries[0]) + EncodeAll(EntryItems(entries[1..]))
  {
    hide AttrItems, MessageHeader, GenMsgOf, Padded, EncodeAll;
    var c := entries[0].command;
    var items, rest := EntryItems(entries), EntryItems(entries[1..]);
    assert items == [items[0]] + rest;
    EncodeAllPrepend(items[0], rest);
    EncodeAllPrepend(Chunk(GenMsgOf(c)), AttrItems(c));
  }

  lemma EntrySized(entry: Entry)
    requires Sized(CommandItem(entry.number, entry.command))
    ensures AllSized(AttrItems(entry.command)) && 16 + |BodyBytes(entry.command)| < 0x1_0000_0000
  {
    hide AttrItems, GenMsgOf, EncodeAll;
    var c := entry.command;
    var item := CommandItem(entry.number, c);
    EncodeAllPrepend(Chunk(GenMsgOf(c)), AttrItems(c));
    forall k | 0 <= k < |AttrItems(c)|
      ensures Sized(AttrItems(c)[k])
    {
      assert AttrItems(c)[k] == item.body[k + 1];
    }
  }

  /** A kernel that reads the batch as nf_tables does sees exactly the commands it was built from. */
  lemma {:induction false} BatchRoundTrip(entries: seq<Entry>)
    requires AllSized(EntryItems(entries))
    ensures DecodeBatch(EncodeAll(EntryItems(entries))) == Some(entries)
  {
    hide AttrItems, MessageHeader, DecodeCommand, Padded, EncodeAll, Sized, TypeOf, FlagsOf, CommandItem, GenMsgOf;
    if entries == [] {
      assert EncodeAll(EntryItems(entries)) == [] by { EmptyEncoding(); }
    } else {
      var Entry(number, c) := entries[0];
      var rest := entries[1..];
      EntryEncoding(entries);
      assert EntryItems(entries)[0] == CommandItem(number, c);
      EntrySized(entries[0]);
      assert EntryItems(entries)[1..] == EntryItems(rest);
      BatchRoundTrip(rest);
      MessageFields(TypeOf(c), FlagsOf(c), number, BodyBytes(c), EncodeAll(EntryItems(rest)));
      CommandRoundTrip(c);
      assert [entries[0]] + rest == entries;
    }
  }

  lemma EmptyEncoding()
    ensures EncodeAll([]) == []
  {
  }
}
