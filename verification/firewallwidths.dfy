/** How wide the attribute trees of rules are, and how wide a rule any reader of attributes can recover. */
module FirewallWidths {
  import opened Bytes
  import opened Netlink
  import opened Nftables
  import opened NftablesRoundTrip
  import opened Wrappers

  // ---- an outer length that fits makes every inner one fit ----

  predicate Plain(item: Item) {
    !item.Message? && (item.Nested? ==> forall kid <- item.kids :: Plain(kid))
  }

  lemma {:induction false} KidWidth(items: seq<Item>, k: nat)
    requires k < |items|
    ensures |Encode(items[k])| <= |EncodeAll(items)|
  {
    hide Encode;
    if k < |items| - 1 {
      KidWidth(items[..|items| - 1], k);
    }
  }

  lemma AttrWidth(item: Item)
    requires IsAttr(item)
    ensures |Encode(item)| == Align4(4 + |Content(item)|)
  {
    hide EncodeAll;
  }

  lemma {:induction false} FitsIsSized(item: Item)
    requires IsAttr(item) && Plain(item)
    ensures Sized(item) <==> Fits(item)
  {
    hide Encode, EncodeAll;
    if item.Nested? && Fits(item) {
      forall k | 0 <= k < |item.kids|
        ensures Sized(item.kids[k])
      {
        KidWidth(item.kids, k);
        assert Plain(item.kids[k]);
        if IsAttr(item.kids[k]) {
          AttrWidth(item.kids[k]);
          FitsIsSized(item.kids[k]);
        }
      }
    }
  }

  // ---- widths of expressions ----

  function DataWidth(e: Expr): nat {
    match e
    case Ct(_, _) => 16
    case Bitwise(_, _, _, mask, flip) => 24 + (4 + Align4(4 + |mask|)) + (4 + Align4(4 + |flip|))
    case Cmp(_, _, data) => 16 + (4 + Align4(4 + |data|))
    case Meta(_, _) => 16
    case Payload(_, _, _, _) => 32
    case Verdict(_) => 8 + 16
    case Immediate(_, data) => 8 + (4 + Align4(4 + |data|))
    case Nat(_, _, _, _) => 32
    case Masq => 0
  }

  function ExprWidth(e: Expr): nat { 4 + Align4(5 + |Spelling(NameOf(e))|) + 4 + DataWidth(e) }

  lemma OneWidth(a: Item)
    ensures |EncodeAll([a])| == |Encode(a)|
  {
    hide Encode;
    assert [a][..0] == [];
  }

  lemma TwoWidth(a: Item, b: Item)
    ensures |EncodeAll([a, b])| == |Encode(a)| + |Encode(b)|
  {
    hide Encode, EncodeAll;
    OneWidth(b);
    EncodeAllPrepend(a, [b]);
    assert [a] + [b] == [a, b];
  }

  lemma ThreeWidth(a: Item, b: Item, c: Item)
    ensures |EncodeAll([a, b, c])| == |Encode(a)| + |Encode(b)| + |Encode(c)|
  {
    hide Encode, EncodeAll;
    TwoWidth(b, c);
    EncodeAllPrepend(a, [b, c]);
    assert [a] + [b, c] == [a, b, c];
  }

  lemma FourWidth(a: Item, b: Item, c: Item, d: Item)
    ensures |EncodeAll([a, b, c, d])| == |Encode(a)| + |Encode(b)| + |Encode(c)| + |Encode(d)|
  {
    hide Encode, EncodeAll;
    ThreeWidth(b, c, d);
    EncodeAllPrepend(a, [b, c, d]);
    assert [a] + [b, c, d] == [a, b, c, d];
  }

  lemma U32Width(typ: u16, v: u32)
    ensures |Encode(U32(typ, v))| == 8
  {
  }

  lemma NestedValueWidth(typ: u16, data: seq<byte>)
    ensures |Encode(Nested(typ, [Value(data)]))| == 4 + Align4(4 + |data|)
  {
    hide EncodeAll, Encode;
    ValueContent(data);
    AttrWidth(Value(data));
    OneWidth(Value(data));
    AttrWidth(Nested(typ, [Value(data)]));
  }

  lemma FourU32Width(items: seq<Item>, a: u32, b: u32, c: u32, d: u32)
    requires |items| == 4 && forall i :: 0 <= i < 4 ==> items[i].Raw?
    requires items[0].payload == Be32(a) && items[1].payload == Be32(b)
    requires items[2].payload == Be32(c) && items[3].payload == Be32(d)
    ensures |EncodeAll(items)| == 32
  {
    hide Encode, EncodeAll, Be32;
    forall i | 0 <= i < 4 ensures |Encode(items[i])| == 8 { AttrWidth(items[i]); }
    FourWidth(items[0], items[1], items[2], items[3]);
    assert items == [items[0], items[1], items[2], items[3]];
  }

  lemma VerdictWidth(code: u32)
    ensures |EncodeAll(DataItems(Verdict(code)))| == 24
  {
    hide EncodeAll, Encode, Be32;
    var items := DataItems(Verdict(code));
    U32Width(NFTA_IMMEDIATE_DREG, NFT_REG_VERDICT);
    U32Width(NFTA_VERDICT_CODE, code);
    OneWidth(U32(NFTA_VERDICT_CODE, code));
    AttrWidth(items[1].kids[0]);
    OneWidth(items[1].kids[0]);
    AttrWidth(items[1]);
    TwoWidth(items[0], items[1]);
  }

  lemma BitwiseWidth(e: Expr)
    requires e.Bitwise?
    ensures |EncodeAll(DataItems(e))| == DataWidth(e)
  {
    hide EncodeAll, Encode, Be32;
    var items := DataItems(e);
    U32Width(NFTA_BITWISE_SREG, e.sreg);
    U32Width(NFTA_BITWISE_DREG, e.dreg);
    U32Width(NFTA_BITWISE_LEN, e.len);
    NestedValueWidth(NFTA_BITWISE_MASK, e.mask);
    NestedValueWidth(NFTA_BITWISE_XOR, e.flip);
    FourWidth(items[1], items[2], items[3], items[4]);
    EncodeAllPrepend(items[0], [items[1], items[2], items[3], items[4]]);
    assert [items[0]] + [items[1], items[2], items[3], items[4]] == items;
  }

  lemma DataWidthIs(e: Expr)
    ensures |EncodeAll(DataItems(e))| == DataWidth(e)
  {
    hide EncodeAll, Encode, Be32;
    var items := DataItems(e);
    match e {
      case Ct(key, dreg) =>
        U32Width(NFTA_CT_KEY, key);
        U32Width(NFTA_CT_DREG, dreg);
        TwoWidth(items[0], items[1]);
      case Bitwise(_, _, _, _, _) => BitwiseWidth(e);
      case Cmp(sreg, op, data) =>
        U32Width(NFTA_CMP_SREG, sreg);
        U32Width(NFTA_CMP_OP, op);
        NestedValueWidth(NFTA_CMP_DATA, data);
        ThreeWidth(items[0], items[1], items[2]);
      case Meta(key, dreg) =>
        U32Width(NFTA_META_KEY, key);
        U32Width(NFTA_META_DREG, dreg);
        TwoWidth(items[0], items[1]);
      case Payload(dreg, base, offset, len) => FourU32Width(items, dreg, base, offset, len);
      case Verdict(code) => VerdictWidth(code);
      case Immediate(dreg, data) =>
        U32Width(NFTA_IMMEDIATE_DREG, dreg);
        NestedValueWidth(NFTA_IMMEDIATE_DATA, data);
        TwoWidth(items[0], items[1]);
      case Nat(kind, family, addrReg, portReg) => FourU32Width(items, kind, family, addrReg, portReg);
      case Masq => EmptyEncoding();
    }
  }

  lemma ElementWidth(name: Item, data: Item, nameWidth: nat, dataWidth: nat)
    requires IsAttr(name) && IsAttr(data) && 4 + |Content(name)| == nameWidth && |Content(data)| == dataWidth
    requires dataWidth % 4 == 0
    ensures |Encode(Nested(NFTA_LIST_ELEM, [name, data]))| == 4 + Align4(nameWidth) + 4 + dataWidth
  {
    hide EncodeAll, Encode;
    AttrWidth(name);
    AttrWidth(data);
    TwoWidth(name, data);
    AttrWidth(Nested(NFTA_LIST_ELEM, [name, data]));
  }

  lemma ExprWidthIs(e: Expr)
    ensures |Encode(ExprItem(e))| == ExprWidth(e)
  {
    hide DataItems, EncodeAll, Encode, DataWidth, Spelling;
    DataWidthIs(e);
    DataWidthAligned(e);
    ElementWidth(Str(NFTA_EXPR_NAME, Spelling(NameOf(e))), Nested(NFTA_EXPR_DATA, DataItems(e)),
                 5 + |Spelling(NameOf(e))|, DataWidth(e));
  }

  lemma DataWidthAligned(e: Expr)
    ensures DataWidth(e) % 4 == 0
  {
  }

  function ListWidth(es: seq<Expr>): nat {
    if es == [] then 0 else ExprWidth(es[0]) + ListWidth(es[1..])
  }

  lemma {:induction false} ListWidthIs(es: seq<Expr>)
    ensures |EncodeAll(ExprItems(es))| == ListWidth(es)
  {
    hide ExprWidth, ExprItem, Encode;
    if es != [] {
      assert ExprItems(es) == [ExprItem(es[0])] + ExprItems(es[1..]);
      EncodeAllPrepend(ExprItem(es[0]), ExprItems(es[1..]));
      ExprWidthIs(es[0]);
      ListWidthIs(es[1..]);
    }
  }

  // ---- what a reader can recover ----

  // The octets that attributes occupy, each padded to a multiple of four.
  function Space(views: seq<AttrView>): nat {
    if views == [] then 0 else Align4(4 + |views[0].payload|) + Space(views[1..])
  }

  function Found(views: seq<AttrView>, typ: u16): nat {
    match Find(views, typ)
    case Some(s) => Align4(4 + |s|)
    case None => 0
  }

  function FoundAll(views: seq<AttrView>, types: seq<u16>): nat {
    if types == [] then 0 else Found(views, types[0]) + FoundAll(views, types[1..])
  }

  function Without(views: seq<AttrView>, typ: u16): seq<AttrView> {
    if views == [] then []
    else
      var init, last := views[..|views| - 1], views[|views| - 1];
      if last.typ == typ then Without(init, typ) else Without(init, typ) + [last]
  }

  lemma {:induction false} SpaceSnoc(views: seq<AttrView>, last: AttrView)
    ensures Space(views + [last]) == Space(views) + Align4(4 + |last.payload|)
  {
    if views == [] {
      assert views + [last] == [last];
    } else {
      assert (views + [last])[1..] == views[1..] + [last];
      SpaceSnoc(views[1..], last);
    }
  }

  lemma {:induction false} WithoutSpace(views: seq<AttrView>, typ: u16)
    ensures Found(views, typ) + Space(Without(views, typ)) <= Space(views)
  {
    hide Space;
    if views != [] {
      var init, last := views[..|views| - 1], views[|views| - 1];
      WithoutSpace(init, typ);
      assert init + [last] == views;
      SpaceSnoc(init, last);
      SpaceSnoc(Without(init, typ), last);
    }
  }

  lemma {:induction false} WithoutKeepsOthers(views: seq<AttrView>, typ: u16, other: u16)
    requires other != typ
    ensures Find(Without(views, typ), other) == Find(views, other)
  {
    if views != [] {
      var init, last := views[..|views| - 1], views[|views| - 1];
      WithoutKeepsOthers(init, typ, other);
      assert (Without(init, typ) + [last])[..|Without(init, typ)|] == Without(init, typ);
    }
  }

  lemma {:induction false} WithoutFindsOthers(views: seq<AttrView>, typ: u16, types: seq<u16>)
    requires typ !in types
    ensures FoundAll(Without(views, typ), types) == FoundAll(views, types)
  {
    hide Find, Without;
    if types != [] {
      WithoutKeepsOthers(views, typ, types[0]);
      WithoutFindsOthers(views, typ, types[1..]);
    }
  }

  // Attributes found under different types occupy different octets.
  lemma {:induction false} FoundFit(views: seq<AttrView>, types: seq<u16>)
    requires forall i, j :: 0 <= i < j < |types| ==> types[i] != types[j]
    ensures FoundAll(views, types) <= Space(views)
    decreases |types|
  {
    hide Find, Without, Found, Space;
    if types != [] {
      WithoutSpace(views, types[0]);
      WithoutFindsOthers(views, types[0], types[1..]);
      FoundFit(Without(views, types[0]), types[1..]);
    }
  }

  lemma FirstFits(body: seq<byte>)
    requires First(body).One?
    ensures var One(view, used) := First(body);
            && |view.payload| <= 0xFFFB && used == Align4(4 + |view.payload|)
            && used + Align4(|From(body, used)|) <= Align4(|body|) && |From(body, used)| < |body|
  {
  }

  lemma {:induction false} AttrsFit(body: seq<byte>)
    ensures Space(Attrs(body)) <= Align4(|body|)
    ensures forall view <- Attrs(body) :: |view.payload| <= 0xFFFB
    decreases |body|
  {
    match First(body) {
      case End =>
      case One(view, used) =>
        var rest := From(body, used);
        FirstFits(body);
        assert Attrs(body) == [view] + Attrs(rest);
        hide First, Attrs;
        AttrsFit(rest);
        assert ([view] + Attrs(rest))[1..] == Attrs(rest);
    }
  }

  lemma {:induction false} FindIsIn(views: seq<AttrView>, typ: u16)
    ensures Find(views, typ).Some? ==> exists view <- views :: view.payload == Find(views, typ).value
  {
    if views != [] && views[|views| - 1].typ != typ {
      FindIsIn(views[..|views| - 1], typ);
    }
  }

  // An attribute within an attribute leaves room for the outer header.
  lemma FoundInside(views: seq<AttrView>, typ: u16, inner: u16)
    requires Find(FindIn(views, typ), inner).Some?
    ensures Find(views, typ).Some? && Found(views, typ) >= 4 + Found(FindIn(views, typ), inner)
  {
    hide Attrs, Space;
    if Find(views, typ).Some? {
      var s := Find(views, typ).value;
      AttrsFit(s);
      FoundFit(Attrs(s), [inner]);
      assert [inner][1..] == [];
    }
  }

  lemma FieldsFit(views: seq<AttrView>)
    ensures Found(views, 1) + Found(views, 2) + Found(views, 3) + Found(views, 4) + Found(views, 5) <= Space(views)
  {
    hide Found, Space;
    var types: seq<u16> := [1, 2, 3, 4, 5];
    FoundFit(views, types);
    assert types[1..] == [2, 3, 4, 5] && types[1..][1..] == [3, 4, 5];
    assert types[1..][1..][1..] == [4, 5] && types[1..][1..][1..][1..] == [5];
    assert FoundAll(views, [5]) == Found(views, 5);
    assert FoundAll(views, [4, 5]) == Found(views, 4) + FoundAll(views, [5]);
    assert FoundAll(views, [3, 4, 5]) == Found(views, 3) + FoundAll(views, [4, 5]);
  }

  lemma U32Found(views: seq<AttrView>, typ: u16)
    requires FindU32(views, typ).Some?
    ensures Found(views, typ) == 8
  {
  }

  lemma DataFits(name: Name, d: seq<AttrView>)
    requires DecodeData(name, d).Some?
    ensures NameOf(DecodeData(name, d).value) == name && DataWidth(DecodeData(name, d).value) <= Space(d)
  {
    hide Space, Find, FindU32, FindIn, Found;
    FieldsFit(d);
    forall typ: u16 | FindU32(d, typ).Some? ensures Found(d, typ) == 8 { U32Found(d, typ); }
    match name {
      case BITWISE =>
        ValueFound(d, NFTA_BITWISE_MASK);
        ValueFound(d, NFTA_BITWISE_XOR);
      case CMP => ValueFound(d, NFTA_CMP_DATA);
      case IMMEDIATE =>
        if FindU32(FindIn(FindIn(d, NFTA_IMMEDIATE_DATA), NFTA_DATA_VERDICT), NFTA_VERDICT_CODE).Some? {
          CodeFound(d);
        } else {
          ValueFound(d, NFTA_IMMEDIATE_DATA);
        }
      case _ =>
    }
  }

  lemma ValueFound(d: seq<AttrView>, typ: u16)
    requires Find(FindIn(d, typ), NFTA_DATA_VALUE).Some?
    ensures Found(d, typ) >= 4 + Align4(4 + |Find(FindIn(d, typ), NFTA_DATA_VALUE).value|)
  {
    hide Find, FindIn;
    FoundInside(d, typ, NFTA_DATA_VALUE);
  }

  lemma CodeFound(d: seq<AttrView>)
    requires FindU32(FindIn(FindIn(d, NFTA_IMMEDIATE_DATA), NFTA_DATA_VERDICT), NFTA_VERDICT_CODE).Some?
    ensures Found(d, NFTA_IMMEDIATE_DATA) >= 16
  {
    hide Find, FindIn, Found;
    var data := FindIn(d, NFTA_IMMEDIATE_DATA);
    U32Found(FindIn(data, NFTA_DATA_VERDICT), NFTA_VERDICT_CODE);
    FoundInside(data, NFTA_DATA_VERDICT, NFTA_VERDICT_CODE);
    FoundInside(d, NFTA_IMMEDIATE_DATA, NFTA_DATA_VERDICT);
  }

  lemma NameIsSpelled(s: seq<byte>)
    requires DecodeName(s).Some?
    ensures Spelling(DecodeName(s).value) == s
  {
  }

  // An expression other than masq needs its data attribute.
  lemma ExprFits(elem: seq<AttrView>)
    requires DecodeExpr(elem).Some? && DecodeExpr(elem) != Some(Masq)
    ensures ExprWidth(DecodeExpr(elem).value) <= 4 + Space(elem)
  {
    hide Attrs, Space, Spelling, DecodeName, DecodeData, DataWidth;
    var e, d := DecodeExpr(elem).value, FindIn(elem, NFTA_EXPR_DATA);
    NameIsSpelled(FindStr(elem, NFTA_EXPR_NAME).value);
    FieldsFit(elem);
    DataFits(DecodeName(FindStr(elem, NFTA_EXPR_NAME).value).value, d);
    if Find(elem, NFTA_EXPR_DATA).Some? {
      AttrsFit(Find(elem, NFTA_EXPR_DATA).value);
    } else {
      NoDataIsMasq(NameOf(e));
    }
  }

  lemma NoDataIsMasq(name: Name)
    ensures DecodeData(name, []).Some? ==> name == MASQ
  {
  }

  lemma {:induction false} ListFits(list: seq<AttrView>)
    requires DecodeExprs(list).Some? && Masq !in DecodeExprs(list).value
    ensures ListWidth(DecodeExprs(list).value) <= Space(list)
  {
    hide Attrs, DecodeExpr, ExprWidth;
    if list != [] {
      var es := DecodeExprs(list).value;
      assert es[0] in es && es[1..] == DecodeExprs(list[1..]).value;
      ListFits(list[1..]);
      ExprFits(Attrs(list[0].payload));
      AttrsFit(list[0].payload);
    }
  }

  lemma EmptyWidths()
    ensures Space([]) == 0 && ListWidth([]) == 0
  {
  }

  lemma CommandFits(typ: u16, body: seq<byte>)
    requires DecodeCommand(typ, body).Some?
    ensures var c := DecodeCommand(typ, body).value; c.NewRule? && Masq !in c.exprs ==> ListWidth(c.exprs) <= 0xFFFC
  {
    hide Attrs, DecodeExprs, ListWidth, Space, Find, FindStr, FindU32;
    var c, d := DecodeCommand(typ, body).value, Attrs(body[4..]);
    EmptyWidths();
    if c.NewRule? && Masq !in c.exprs && c.exprs != [] {
      ListFits(FindIn(d, NFTA_RULE_EXPRESSIONS));
      FindIsIn(d, NFTA_RULE_EXPRESSIONS);
      AttrsFit(body[4..]);
      if Find(d, NFTA_RULE_EXPRESSIONS).Some? {
        AttrsFit(Find(d, NFTA_RULE_EXPRESSIONS).value);
      }
    }
  }

  /** Whatever the bytes are, no rule recovered from them holds more than one 16-bit length can span. */
  lemma {:induction false} ReadRulesAreNarrow(s: seq<byte>)
    requires DecodeBatch(s).Some?
    ensures forall entry <- DecodeBatch(s).value ::
              entry.command.NewRule? && Masq !in entry.command.exprs ==> ListWidth(entry.command.exprs) <= 0xFFFC
    decreases |s|
  {
    hide DecodeCommand, ListWidth;
    if s != [] {
      var len := FromLe32(s[..4]);
      CommandFits(FromLe16(s[4..6]), s[16..len]);
      ReadRulesAreNarrow(s[Align4(len)..]);
    }
  }
}
