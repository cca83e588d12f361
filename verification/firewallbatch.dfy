/** When no length field of the batch is truncated, and what a reader of the batch's bytes then does. */
module FirewallBatch {
  import opened Bytes
  import opened Netlink
  import opened Nftables
  import opened NftablesRoundTrip
  import opened Firewall
  import opened FirewallWidths
  import opened PacketPath
  import opened FirewallMeaning
  import opened Wrappers

  // ---- the batch ----

  // The longest name that keeps every 16-bit length field of the batch exact.
  const MAX_NAME: nat := 65403

  lemma PlainNested(typ: u16, kids: seq<Item>)
    requires forall k :: 0 <= k < |kids| ==> Plain(kids[k])
    ensures Plain(Nested(typ, kids))
  {
  }

  lemma ValueIsPlain(typ: u16, data: seq<byte>)
    ensures Plain(Nested(typ, [Value(data)]))
  {
    PlainNested(NFTA_DATA_VALUE, [Chunk(data)]);
    PlainNested(typ, [Value(data)]);
  }

  lemma ExprIsPlain(e: Expr)
    ensures Plain(ExprItem(e))
  {
    hide Be32, Spelling;
    var items := DataItems(e);
    match e {
      case Bitwise(_, _, _, mask, flip) =>
        ValueIsPlain(NFTA_BITWISE_MASK, mask);
        ValueIsPlain(NFTA_BITWISE_XOR, flip);
      case Cmp(_, _, data) => ValueIsPlain(NFTA_CMP_DATA, data);
      case Immediate(_, data) => ValueIsPlain(NFTA_IMMEDIATE_DATA, data);
      case Verdict(code) =>
        PlainNested(NFTA_DATA_VERDICT, items[1].kids[0].kids);
        PlainNested(NFTA_IMMEDIATE_DATA, items[1].kids);
      case _ =>
    }
    assert forall k :: 0 <= k < |items| ==> Plain(items[k]);
    PlainNested(NFTA_EXPR_DATA, items);
    PlainNested(NFTA_LIST_ELEM, ExprItem(e).kids);
  }

  lemma RuleFits(chain: seq<byte>, exprs: seq<Expr>)
    requires |chain| < 100
    ensures AllSized(AttrItems(Rule(chain, exprs))) <==> ListWidth(exprs) < 0xFFFC
  {
    var items := AttrItems(Rule(chain, exprs));
    var list := Nested(NFTA_RULE_EXPRESSIONS, ExprItems(exprs));
    assert Sized(items[0]) && Sized(items[1]) && items[2] == list;
    hide EncodeAll, ExprItems, Encode, ListWidth, Sized, Plain;
    ListWidthIs(exprs);
    forall i | 0 <= i < |exprs| ensures Plain(ExprItems(exprs)[i]) {
      assert ExprItems(exprs)[i] == ExprItem(exprs[i]) by { ExprItemsAt(exprs, i); }
      ExprIsPlain(exprs[i]);
    }
    PlainNested(NFTA_RULE_EXPRESSIONS, ExprItems(exprs));
    FitsIsSized(list);
  }

  lemma ExprItemsAt(exprs: seq<Expr>, i: nat)
    requires i < |exprs|
    ensures ExprItems(exprs)[i] == ExprItem(exprs[i])
  {
  }

  lemma ChainNamesAreShort()
    ensures |InputChain()| < 100 && |ForwardChain()| < 100 && |PreroutingChain()| < 100 && |PostroutingChain()| < 100
  {
  }

  lemma WidthOfThree(a: Expr, b: Expr, c: Expr)
    ensures ListWidth([a, b, c]) == ExprWidth(a) + ExprWidth(b) + ExprWidth(c)
  {
    hide ExprWidth;
    assert [a, b, c][1..] == [b, c] && [b, c][1..] == [c] && [c][1..] == [];
    assert ListWidth([c]) == ExprWidth(c);
    assert ListWidth([b, c]) == ExprWidth(b) + ExprWidth(c);
  }

  lemma WidthOfSeven(es: seq<Expr>)
    requires |es| <= 7 && forall i :: 0 <= i < |es| ==> ExprWidth(es[i]) < 200
    ensures ListWidth(es) <= 200 * |es|
  {
    hide ExprWidth;
    if es != [] {
      WidthOfSeven(es[1..]);
    }
  }

  lemma FixedWidths(f: Forward, proto: byte)
    ensures ListWidth(CtAccept()) < 0xFFFC && ListWidth(L4ProtoAccept(proto)) < 0xFFFC
    ensures ListWidth(Dnat(f)) < 0xFFFC && ListWidth(ForwardToDest(f)) < 0xFFFC && ListWidth([Masq]) < 0xFFFC
  {
    hide ListWidth, Be32, Be16;
    WidthOfSeven(CtAccept());
    WidthOfSeven(L4ProtoAccept(proto));
    WidthOfSeven(Dnat(f));
    WidthOfSeven(ForwardToDest(f));
    WidthOfSeven([Masq]);
  }

  lemma NameWidth(name: seq<byte>)
    ensures ListWidth(IifAccept(name)) < 0xFFFC <==> |name| <= MAX_NAME
  {
    var es := IifAccept(name);
    WidthOfThree(es[0], es[1], es[2]);
    assert ExprWidth(es[0]) == 36 && ExprWidth(es[1]) == 36 + Align4(5 + |name|) && ExprWidth(es[2]) == 48;
  }

  lemma {:induction false} WidthBound(items: seq<Item>)
    requires Keyed(items)
    ensures |EncodeAll(items)| <= 0x1_0000 * |items|
  {
    hide Encode;
    if items != [] {
      WidthBound(items[..|items| - 1]);
      AttrWidth(items[|items| - 1]);
    }
  }

  lemma CommandSized(number: u32, c: Command)
    ensures Sized(CommandItem(number, c)) <==> AllSized(AttrItems(c))
  {
    hide EncodeAll, Encode, GenMsgOf, ExprItems, Be32;
    var items, body := AttrItems(c), [Chunk(GenMsgOf(c))] + AttrItems(c);
    EncodeAllPrepend(Chunk(GenMsgOf(c)), items);
    if AllSized(items) {
      AttrItemsAreKeyed(c);
      WidthBound(items);
      assert |Encode(Chunk(GenMsgOf(c)))| == 4 by { ChunkWidth(GenMsgOf(c)); }
      forall kid | kid in body ensures Sized(kid) {
        if kid !in items {
          assert kid == Chunk(GenMsgOf(c));
        }
      }
    }
    if Sized(CommandItem(number, c)) {
      forall k | 0 <= k < |items| ensures Sized(items[k]) {
        assert items[k] == body[k + 1];
      }
    }
  }

  lemma ChunkWidth(bytes: seq<byte>)
    ensures |Encode(Chunk(bytes))| == |bytes|
  {
  }

  lemma SetupSized(c: Command)
    requires c in Preamble() || c in BaseChains() || c == BatchEnd
    ensures AllSized(AttrItems(c))
  {
    if c.NewChain? {
      var items := AttrItems(c);
      TwoWidth(items[2].kids[0], items[2].kids[1]);
      assert |c.table| < 20 && |c.name| < 20 && |c.chainType| < 20;
      assert Sized(items[2]);
    }
  }

  // Only a rule that carries the LAN name can be too long.
  lemma RuleSized(c: Command, lan: seq<byte>, forwards: seq<Forward>)
    requires c in FixedRules(lan) || c in ForwardRules(forwards) || c in DnatRules(forwards) || c in MasqRules(true)
    ensures AllSized(AttrItems(c)) <==> (c.exprs == IifAccept(lan) ==> |lan| <= MAX_NAME)
  {
    ChainNamesAreShort();
    hide AttrItems, ListWidth, Ascii, Be32, Be16, InputChain, ForwardChain, PreroutingChain, PostroutingChain;
    RuleFits(c.chain, c.exprs);
    if c.exprs == IifAccept(lan) {
      NameWidth(lan);
    } else if c.exprs == IifAccept(Ascii("lo")) {
      NameWidth(Ascii("lo"));
    } else if c in ForwardRules(forwards) {
      var i :| 0 <= i < |forwards| && c == ForwardRules(forwards)[i];
      FixedWidths(forwards[i], 0);
    } else if c in DnatRules(forwards) {
      var i :| 0 <= i < |forwards| && c == DnatRules(forwards)[i];
      FixedWidths(forwards[i], 0);
    } else {
      FixedWidths(Forward(0, 0, 0, 0), IPPROTO_ICMP);
    }
  }

  /** No length field of the batch is truncated exactly when the LAN name has at most MAX_NAME octets. */
  lemma RulesetSizedIff(lan: seq<byte>, masq: bool, forwards: seq<Forward>)
    ensures AllSized(EntryItems(Numbered(Ruleset(lan, masq, forwards)))) <==> |lan| <= MAX_NAME
  {
    hide AttrItems, Sized, CommandItem, IifAccept, Preamble, BaseChains, FixedRules, ForwardRules, DnatRules, MasqRules;
    var commands := Ruleset(lan, masq, forwards);
    var items := EntryItems(Numbered(commands));
    forall i | 0 <= i < |commands|
      ensures Sized(items[i]) <==> (commands[i].NewRule? && commands[i].exprs == IifAccept(lan) ==> |lan| <= MAX_NAME)
    {
      CommandSized(ToU32(1 + i), commands[i]);
      assert commands[i] in commands;
      if commands[i] in Preamble() || commands[i] in BaseChains() || commands[i] == BatchEnd {
        SetupSized(commands[i]);
        SetupIsNoRule(commands[i]);
      } else {
        MasqRuleIn(masq);
        RulesAreRules(commands[i], lan, forwards);
        RuleSized(commands[i], lan, forwards);
      }
    }
    LanRuleIn(lan, masq, forwards);
    var k :| 0 <= k < |commands| && commands[k] == Rule(InputChain(), IifAccept(lan));
    assert Sized(items[k]) <==> |lan| <= MAX_NAME;
  }

  lemma SetupIsNoRule(c: Command)
    requires c in Preamble() || c in BaseChains() || c == BatchEnd
    ensures !c.NewRule?
  {
  }

  lemma RulesAreRules(c: Command, lan: seq<byte>, forwards: seq<Forward>)
    requires c in FixedRules(lan) || c in ForwardRules(forwards) || c in DnatRules(forwards) || c in MasqRules(true)
    ensures c.NewRule?
  {
  }

  lemma MasqRuleIn(masq: bool)
    ensures forall c <- MasqRules(masq) :: c in MasqRules(true)
  {
  }

  lemma LanRuleIn(lan: seq<byte>, masq: bool, forwards: seq<Forward>)
    ensures Rule(InputChain(), IifAccept(lan)) in Ruleset(lan, masq, forwards)
  {
    hide Preamble, BaseChains, ForwardRules, DnatRules, MasqRules, IifAccept, CtAccept, L4ProtoAccept, Ascii;
    assert FixedRules(lan)[2] in FixedRules(lan);
  }

  // ---- from the bytes to the packet ----

  function Commands(entries: seq<Entry>): (r: seq<Command>)
    ensures |r| == |entries|
  {
    seq(|entries|, i requires 0 <= i < |entries| => entries[i].command)
  }

  // Where the commands of a batch stand in what a reader recovers: messages tile the buffer.
  lemma {:induction false} MessagesTile(entries: seq<Entry>)
    requires forall entry <- entries :: 16 + |BodyBytes(entry.command)| < 0x1_0000_0000
    ensures var batch := DecodeBatch(EncodeAll(EntryItems(entries)));
            batch.Some? ==>
              && |batch.value| == |entries|
              && forall i :: 0 <= i < |entries| ==>
                   DecodeCommand(TypeOf(entries[i].command), BodyBytes(entries[i].command))
                   == Some(batch.value[i].command)
  {
    hide AttrItems, MessageHeader, DecodeCommand, Padded, EncodeAll, Sized, TypeOf, FlagsOf, CommandItem, GenMsgOf, BodyBytes;
    if entries == [] {
      assert EncodeAll(EntryItems(entries)) == [] by { EmptyEncoding(); }
    } else {
      var Entry(number, c) := entries[0];
      var rest := entries[1..];
      EntryEncoding(entries);
      MessagesTile(rest);
      MessageFields(TypeOf(c), FlagsOf(c), number, BodyBytes(c), EncodeAll(EntryItems(rest)));
    }
  }

  // A list of 65532 octets has the length field zero and is taken for the end of the attributes.
  lemma VanishingList(table: Item, chain: Item, list: Item)
    requires IsAttr(table) && IsAttr(chain) && IsAttr(list)
    requires Fits(table) && Fits(chain) && 4 + |Content(list)| == 0x1_0000
    ensures Attrs(EncodeAll([table, chain, list])) == [View(table), View(chain)]
  {
    hide First, EncodeAll, Encode;
    var tail, rest := EncodeAll([list]), EncodeAll([chain, list]);
    assert [table, chain, list] == [table] + [chain, list] && [chain, list] == [chain] + [list];
    EncodeAllPrepend(table, [chain, list]);
    EncodeAllPrepend(chain, [list]);
    EncodeAllPrepend(list, []);
    assert [list] + [] == [list];
    WalkOne(table, rest);
    WalkOne(chain, tail);
    WalkOne(list, EncodeAll([]));
    assert From(EncodeAll([table, chain, list]), |Encode(table)|) == rest;
    assert From(rest, |Encode(chain)|) == tail;
    assert Attrs(tail) == [];
    assert Attrs(rest) == [View(chain)];
  }

  lemma RuleIsRead(c: Command, body: seq<byte>)
    requires c.NewRule? && |body| >= 4
    ensures var d, read := Attrs(body[4..]), DecodeCommand(TypeOf(c), body);
            read.Some? ==> read.value.NewRule? && Some(read.value.exprs) == DecodeExprs(FindIn(d, NFTA_RULE_EXPRESSIONS))
  {
    hide Attrs, FindStr, DecodeExprs, FindIn;
  }

  lemma NothingListed(table: AttrView, chain: AttrView)
    requires table.typ != NFTA_RULE_EXPRESSIONS && chain.typ != NFTA_RULE_EXPRESSIONS
    ensures DecodeExprs(FindIn([table, chain], NFTA_RULE_EXPRESSIONS)) == Some([])
  {
    FindAbsent([table, chain], NFTA_RULE_EXPRESSIONS);
  }

  lemma RuleParts(chain: seq<byte>, exprs: seq<Expr>)
    ensures var c, items := Rule(chain, exprs), AttrItems(Rule(chain, exprs));
            && items == [Str(NFTA_RULE_TABLE, Table()), Str(NFTA_RULE_CHAIN, chain),
                         Nested(NFTA_RULE_EXPRESSIONS, ExprItems(exprs))]
            && |BodyBytes(c)| >= 4 && BodyBytes(c)[4..] == EncodeAll(items)
  {
    hide EncodeAll, ExprItems;
  }

  lemma EmptiedRule(chain: seq<byte>, exprs: seq<Expr>)
    requires |chain| < 100 && ListWidth(exprs) == 0xFFFC
    ensures var c := DecodeCommand(TypeOf(Rule(chain, exprs)), BodyBytes(Rule(chain, exprs)));
            c.Some? ==> c.value.NewRule? && c.value.exprs == []
  {
    hide EncodeAll, ExprItems, Encode, ListWidth, Attrs, DecodeCommand, BodyBytes, DecodeExprs, FindIn, AttrItems, Ascii;
    var table, name := Str(NFTA_RULE_TABLE, Table()), Str(NFTA_RULE_CHAIN, chain);
    var list := Nested(NFTA_RULE_EXPRESSIONS, ExprItems(exprs));
    RuleParts(chain, exprs);
    RuleIsRead(Rule(chain, exprs), BodyBytes(Rule(chain, exprs)));
    ListWidthIs(exprs);
    VanishingList(table, name, list);
    NothingListed(View(table), View(name));
  }

  lemma SizedBody(c: Command)
    requires AllSized(AttrItems(c))
    ensures 16 + |BodyBytes(c)| < 0x1_0000_0000
  {
    hide EncodeAll, GenMsgOf, ExprItems, Be32, Keyed, AllSized;
    AttrItemsAreKeyed(c);
    WidthBound(AttrItems(c));
  }

  lemma RuleBody(chain: seq<byte>, exprs: seq<Expr>)
    requires |chain| < 100 && ListWidth(exprs) <= 0xFFFC
    ensures 16 + |BodyBytes(Rule(chain, exprs))| < 0x1_0000_0000
  {
    var items := AttrItems(Rule(chain, exprs));
    hide EncodeAll, ExprItems, Encode, ListWidth;
    ListWidthIs(exprs);
    AttrWidth(items[0]);
    AttrWidth(items[1]);
    AttrWidth(items[2]);
    ThreeWidth(items[0], items[1], items[2]);
  }

  lemma CommandBody(c: Command, lan: seq<byte>, masq: bool, forwards: seq<Forward>)
    requires c in Ruleset(lan, masq, forwards) && ListWidth(IifAccept(lan)) <= 0xFFFC
    ensures 16 + |BodyBytes(c)| < 0x1_0000_0000
  {
    ChainNamesAreShort();
    hide BodyBytes, AttrItems, IifAccept, ListWidth, AllSized;
    hide Preamble, BaseChains, FixedRules, ForwardRules, DnatRules, MasqRules;
    if c in Preamble() || c in BaseChains() || c == BatchEnd {
      SetupSized(c);
      SizedBody(c);
    } else {
      MasqRuleIn(masq);
      RulesAreRules(c, lan, forwards);
      RuleSized(c, lan, forwards);
      if c.exprs == IifAccept(lan) {
        LanRuleBody(c, lan, forwards);
      } else {
        SizedBody(c);
      }
    }
  }

  lemma LanRuleBody(c: Command, lan: seq<byte>, forwards: seq<Forward>)
    requires c in FixedRules(lan) || c in ForwardRules(forwards) || c in DnatRules(forwards) || c in MasqRules(true)
    requires c.exprs == IifAccept(lan) && ListWidth(IifAccept(lan)) <= 0xFFFC
    ensures 16 + |BodyBytes(c)| < 0x1_0000_0000
  {
    hide BodyBytes, AttrItems, ListWidth, IifAccept;
    ChainNamesAreShort();
    RuleBody(c.chain, c.exprs);
  }

  // Beyond MAX_NAME the rule of the LAN is emptied or does not come back at all.
  lemma LongNameIsLost(lan: seq<byte>, masq: bool, forwards: seq<Forward>)
    requires |lan| > MAX_NAME
    ensures var batch := DecodeBatch(EncodeAll(EntryItems(Numbered(Ruleset(lan, masq, forwards)))));
            batch.Some? ==> Commands(batch.value) != Ruleset(lan, masq, forwards)
  {
    var commands, exprs := Ruleset(lan, masq, forwards), IifAccept(lan);
    var entries := Numbered(commands);
    var bytes := EncodeAll(EntryItems(entries));
    LanRuleIn(lan, masq, forwards);
    ChainNamesAreShort();
    NameWidth(lan);
    hide EntryItems, Ruleset, EncodeAll, DecodeBatch, ListWidth, BodyBytes, DecodeCommand, TypeOf;
    if DecodeBatch(bytes).Some? {
      var batch := DecodeBatch(bytes).value;
      if Commands(batch) == commands {
        var k :| 0 <= k < |commands| && commands[k] == Rule(InputChain(), exprs);
        assert Commands(batch)[k] == batch[k].command && batch[k] in batch;
        assert entries[k].command == Rule(InputChain(), exprs);
        if ListWidth(exprs) > 0xFFFC {
          ReadRulesAreNarrow(bytes);
        } else {
          forall entry <- entries ensures 16 + |BodyBytes(entry.command)| < 0x1_0000_0000 {
            CommandBody(entry.command, lan, masq, forwards);
          }
          MessagesTile(entries);
          EmptiedRule(InputChain(), exprs);
        }
      }
    }
  }

  /**
   A reader of the batch finds the rule set, its messages numbered consecutively from 1, exactly when no
   length field was truncated.
   */
  lemma BatchIsReadBack(lan: seq<byte>, masq: bool, forwards: seq<Forward>)
    ensures var batch := DecodeBatch(EncodeAll(EntryItems(Numbered(Ruleset(lan, masq, forwards)))));
            (|lan| <= MAX_NAME) <==>
            (&& batch.Some?
             && Commands(batch.value) == Ruleset(lan, masq, forwards)
             && forall i :: 0 <= i < |batch.value| ==> batch.value[i].number == ToU32(1 + i))
  {
    hide EntryItems, Ruleset, EncodeAll, DecodeBatch;
    RulesetSizedIff(lan, masq, forwards);
    if |lan| <= MAX_NAME {
      BatchRoundTrip(Numbered(Ruleset(lan, masq, forwards)));
    } else {
      LongNameIsLost(lan, masq, forwards);
    }
  }

  function CountRules(commands: seq<Command>): nat {
    if commands == [] then 0 else (if commands[0].NewRule? then 1 else 0) + CountRules(commands[1..])
  }

  lemma {:induction false} CountConcat(a: seq<Command>, b: seq<Command>)
    ensures CountRules(a + b) == CountRules(a) + CountRules(b)
  {
    if a == [] {
      assert a + b == b;
    } else {
      assert (a + b)[1..] == a[1..] + b;
      CountConcat(a[1..], b);
    }
  }

  lemma {:induction false} CountAll(a: seq<Command>)
    ensures (forall i :: 0 <= i < |a| ==> a[i].NewRule?) ==> CountRules(a) == |a|
    ensures (forall i :: 0 <= i < |a| ==> !a[i].NewRule?) ==> CountRules(a) == 0
  {
    if a != [] {
      CountAll(a[1..]);
    }
  }

  /** The shape of the batch: brackets, one table, four chains, and how many rules. */
  lemma BatchShape(lan: seq<byte>, masq: bool, forwards: seq<Forward>)
    ensures var commands, n := Ruleset(lan, masq, forwards), |forwards|;
            && |commands| == 13 + 2 * n + (if masq then 1 else 0)
            && commands[0] == BatchBegin && commands[|commands| - 1] == BatchEnd
            && commands[1] == NewTable(Table())
            && (forall i :: 2 <= i < 6 ==> commands[i].NewChain?)
            && (forall i :: 6 <= i < |commands| - 1 ==> commands[i].NewRule?)
            && CountRules(commands) == 6 + 2 * n + (if masq then 1 else 0)
  {
    hide CtAccept, IifAccept, L4ProtoAccept, Dnat, ForwardToDest, Ascii;
    var setup, rules := Preamble() + BaseChains(),
                        FixedRules(lan) + ForwardRules(forwards) + DnatRules(forwards) + MasqRules(masq);
    assert Ruleset(lan, masq, forwards) == setup + rules + [BatchEnd];
    assert forall i :: 0 <= i < |rules| ==> rules[i].NewRule?;
    CountConcat(setup + rules, [BatchEnd]);
    CountConcat(setup, rules);
    CountAll(setup);
    CountAll(rules);
    CountAll([BatchEnd]);
    hide CountRules, Ruleset, FixedRules, ForwardRules, DnatRules, MasqRules;
  }

  /** The base chains a reader of the bytes finds at each hook, every field written out. */
  lemma CompiledHooks(lan: seq<byte>, masq: bool, forwards: seq<Forward>, hook: u32)
    requires |lan| <= MAX_NAME
    ensures var batch := DecodeBatch(EncodeAll(EntryItems(Numbered(Ruleset(lan, masq, forwards)))));
            && batch.Some?
            && ChainsAt(Commands(batch.value), hook) ==
               if hook == 0 then [NewChain([108, 119, 114, 116], [112, 114, 101, 114, 111, 117, 116, 105, 110, 103],
                                           0, 0x1_0000_0000 - 100, [110, 97, 116], 1)]
               else if hook == 1 then [NewChain([108, 119, 114, 116], [105, 110, 112, 117, 116],
                                                1, 0, [102, 105, 108, 116, 101, 114], 0)]
               else if hook == 2 then [NewChain([108, 119, 114, 116], [102, 111, 114, 119, 97, 114, 100],
                                                2, 0, [102, 105, 108, 116, 101, 114], 0)]
               else if hook == 4 then [NewChain([108, 119, 114, 116],
                                                [112, 111, 115, 116, 114, 111, 117, 116, 105, 110, 103],
                                                4, 100, [110, 97, 116], 1)]
               else []
  {
    hide EntryItems, Ruleset, EncodeAll, DecodeBatch, ChainsAt;
    BatchIsReadBack(lan, masq, forwards);
    ChainsOfRuleset(lan, masq, forwards, hook);
  }

  /**
   The bytes that `BuildRuleset` leaves, read and run on any packet at the input hook (1): accepted (1) exactly when
   it belongs to a known connection or comes from `lo`, from the LAN or over ICMP (1), and dropped (0) otherwise.
   */
  lemma CompiledInput(lan: seq<byte>, masq: bool, forwards: seq<Forward>, p: Packet)
    requires |lan| <= MAX_NAME && IPv4(p)
    ensures var batch := DecodeBatch(EncodeAll(EntryItems(Numbered(Ruleset(lan, masq, forwards)))));
            && batch.Some?
            && RunHook(Commands(batch.value), 1, p) == Decision(if InputAllowed(lan, p) then 1 else 0, p)
    ensures 0 !in lan ==>
              (InputAllowed(lan, p) <==>
               Established(p) || Related(p) || p.iif == [108, 111] || p.iif == lan || p.l4proto == 1)
  {
    hide EntryItems, Ruleset, EncodeAll, DecodeBatch, RunHook, Established, Related, ArrivesOn, Ascii;
    BatchIsReadBack(lan, masq, forwards);
    InputMeaning(lan, masq, forwards, p);
    NamePrefixIsEquality(lan, p);
    Spellings();
    NamePrefixIsEquality(Ascii("lo"), p);
  }

  /** The same bytes on the way through (hooks 0, 2 and 4): what is redirected is let through to its target. */
  lemma CompiledForward(lan: seq<byte>, masq: bool, forwards: seq<Forward>, p: Packet)
    requires |lan| <= MAX_NAME && IPv4(p)
    ensures var batch := DecodeBatch(EncodeAll(EntryItems(Numbered(Ruleset(lan, masq, forwards)))));
            && batch.Some?
            && var commands := Commands(batch.value);
            && var routed := RunHook(commands, 0, p);
            && routed == Decision(1, match FirstSelecting(forwards, p)
                                     case Some(f) => Redirected(f, p)
                                     case None => p)
            && RunHook(commands, 2, p) == Decision(if ForwardAllowed(lan, forwards, p) then 1 else 0, p)
            && (FirstSelecting(forwards, p).Some? ==> RunHook(commands, 2, routed.packet) == Decision(1, routed.packet))
            && RunHook(commands, 4, p) == Decision(1, if masq then p.(masqueraded := true) else p)
  {
    hide EntryItems, Ruleset, EncodeAll, DecodeBatch, RunHook, Redirected, ForwardAllowed;
    BatchIsReadBack(lan, masq, forwards);
    PreroutingMeaning(lan, masq, forwards, p);
    ForwardMeaning(lan, masq, forwards, p);
    PostroutingMeaning(lan, masq, forwards, p);
    if FirstSelecting(forwards, p).Some? {
      RedirectedPacketsAreForwarded(lan, masq, forwards, p);
    }
  }
}
