/** From the bytes of the batch to what happens to a packet: the main results about the firewall. */
module FirewallMeaning {
  import opened Bytes
  import opened Netlink
  import opened Nftables
  import opened NftablesRoundTrip
  import opened Firewall
  import opened PacketPath
  import opened Wrappers

  // ---- which rules land on which chain ----

  lemma {:induction false} RulesOfConcat(a: seq<Command>, b: seq<Command>, chain: seq<byte>)
    ensures RulesOf(a + b, chain) == RulesOf(a, chain) + RulesOf(b, chain)
  {
    if a == [] {
      assert a + b == b;
    } else {
      assert (a + b)[1..] == a[1..] + b;
      RulesOfConcat(a[1..], b, chain);
    }
  }

  lemma {:induction false} RulesOfNone(a: seq<Command>, chain: seq<byte>)
    requires forall i :: 0 <= i < |a| ==> a[i].NewRule? ==> a[i].chain != chain
    ensures RulesOf(a, chain) == []
  {
    if a != [] {
      RulesOfNone(a[1..], chain);
    }
  }

  lemma {:induction false} RulesOfAll(a: seq<Command>, chain: seq<byte>)
    requires forall i :: 0 <= i < |a| ==> a[i].NewRule? && a[i].chain == chain
    ensures |RulesOf(a, chain)| == |a|
    ensures forall i :: 0 <= i < |a| ==> RulesOf(a, chain)[i] == a[i].exprs
  {
    if a != [] {
      RulesOfAll(a[1..], chain);
    }
  }

  lemma ChainNamesDiffer()
    ensures |InputChain()| == 5 && |ForwardChain()| == 7 && |PreroutingChain()| == 10 && |PostroutingChain()| == 11
  {
  }

  function FixedOn(lan: seq<byte>, chain: seq<byte>): seq<seq<Expr>> {
    if chain == InputChain() then [CtAccept(), IifAccept(Ascii("lo")), IifAccept(lan), L4ProtoAccept(IPPROTO_ICMP)]
    else if chain == ForwardChain() then [CtAccept(), IifAccept(lan)]
    else []
  }

  lemma RulesOfFixed(lan: seq<byte>, chain: seq<byte>)
    ensures RulesOf(FixedRules(lan), chain) == FixedOn(lan, chain)
  {
    ChainNamesDiffer();
    hide CtAccept, IifAccept, L4ProtoAccept, Ascii, InputChain, ForwardChain, Table;
    var rules := FixedRules(lan);
    RulesOfConcat(rules[..4], rules[4..], chain);
    assert rules[..4] + rules[4..] == rules;
    if chain == InputChain() {
      RulesOfAll(rules[..4], chain);
      RulesOfNone(rules[4..], chain);
    } else {
      RulesOfNone(rules[..4], chain);
      if chain == ForwardChain() {
        RulesOfAll(rules[4..], chain);
      } else {
        RulesOfNone(rules[4..], chain);
      }
    }
  }

  function ForwardExprs(forwards: seq<Forward>): (r: seq<seq<Expr>>)
    ensures |r| == |forwards|
  {
    seq(|forwards|, i requires 0 <= i < |forwards| => ForwardToDest(forwards[i]))
  }

  function DnatExprs(forwards: seq<Forward>): (r: seq<seq<Expr>>)
    ensures |r| == |forwards|
  {
    seq(|forwards|, i requires 0 <= i < |forwards| => Dnat(forwards[i]))
  }

  lemma RulesOfRuleset(lan: seq<byte>, masq: bool, forwards: seq<Forward>, chain: seq<byte>)
    ensures RulesOf(Ruleset(lan, masq, forwards), chain) ==
            FixedOn(lan, chain)
            + (if chain == ForwardChain() then ForwardExprs(forwards) else [])
            + (if chain == PreroutingChain() then DnatExprs(forwards) else [])
            + (if chain == PostroutingChain() && masq then [[Masq]] else [])
  {
    ChainNamesDiffer();
    hide RulesOf, FixedRules, Dnat, ForwardToDest, Ascii, Table, FixedOn;
    hide InputChain, ForwardChain, PreroutingChain, PostroutingChain;
    var setup := Preamble() + BaseChains();
    var one := setup + FixedRules(lan);
    var two := one + ForwardRules(forwards);
    var three := two + DnatRules(forwards);
    var four := three + MasqRules(masq);
    RulesOfNone(setup, chain);
    RulesOfConcat(setup, FixedRules(lan), chain);
    RulesOfFixed(lan, chain);
    RulesOfConcat(one, ForwardRules(forwards), chain);
    RulesOfConcat(two, DnatRules(forwards), chain);
    RulesOfConcat(three, MasqRules(masq), chain);
    RulesOfConcat(four, [BatchEnd], chain);
    RulesOfNone([BatchEnd], chain);
    if chain == ForwardChain() {
      RulesOfAll(ForwardRules(forwards), chain);
      assert RulesOf(ForwardRules(forwards), chain) == ForwardExprs(forwards);
    } else {
      RulesOfNone(ForwardRules(forwards), chain);
    }
    if chain == PreroutingChain() {
      RulesOfAll(DnatRules(forwards), chain);
      assert RulesOf(DnatRules(forwards), chain) == DnatExprs(forwards);
    } else {
      RulesOfNone(DnatRules(forwards), chain);
    }
    if chain == PostroutingChain() {
      RulesOfAll(MasqRules(masq), chain);
      assert RulesOf(MasqRules(masq), chain) == if masq then [[Masq]] else [];
    } else {
      RulesOfNone(MasqRules(masq), chain);
    }
  }

  lemma {:induction false} PolicyOfConcat(a: seq<Command>, b: seq<Command>, chain: seq<byte>)
    ensures PolicyOf(a + b, chain) == if PolicyOf(a, chain).Some? then PolicyOf(a, chain) else PolicyOf(b, chain)
  {
    if a == [] {
      assert a + b == b;
    } else {
      assert (a + b)[1..] == a[1..] + b;
      PolicyOfConcat(a[1..], b, chain);
    }
  }

  lemma PolicyOfTwo(c: seq<Command>, chain: seq<byte>)
    requires |c| == 2
    ensures PolicyOf(c, chain) ==
            if c[0].NewChain? && c[0].name == chain then Some(c[0].policy)
            else if c[1].NewChain? && c[1].name == chain then Some(c[1].policy)
            else None
  {
    assert c[1..][1..] == [];
    assert PolicyOf(c[1..], chain) == if c[1].NewChain? && c[1].name == chain then Some(c[1].policy) else None;
  }

  lemma PolicyOfBaseChains(chain: seq<byte>)
    ensures PolicyOf(BaseChains(), chain) ==
            if chain == InputChain() || chain == ForwardChain() then Some(NF_DROP)
            else if chain == PreroutingChain() || chain == PostroutingChain() then Some(NF_ACCEPT)
            else None
  {
    hide InputChain, ForwardChain, PreroutingChain, PostroutingChain, Ascii;
    var c := BaseChains();
    PolicyOfConcat(c[..2], c[2..], chain);
    assert c[..2] + c[2..] == c;
    PolicyOfTwo(c[..2], chain);
    PolicyOfTwo(c[2..], chain);
    hide PolicyOf;
    ChainNamesDiffer();
    assert c[..2][0] == c[0] && c[..2][1] == c[1] && c[2..][0] == c[2] && c[2..][1] == c[3];
    assert c[0].name == InputChain() && c[1].name == ForwardChain();
    assert c[2].name == PreroutingChain() && c[3].name == PostroutingChain();
    hide BaseChains;
    assert chain == PreroutingChain() ==> chain != InputChain() && chain != ForwardChain();
    assert chain == PostroutingChain() ==> chain != InputChain() && chain != ForwardChain();
  }

  lemma PolicyOfRuleset(lan: seq<byte>, masq: bool, forwards: seq<Forward>, chain: seq<byte>)
    ensures PolicyOf(BaseChains(), chain).Some? ==>
              PolicyOf(Ruleset(lan, masq, forwards), chain) == PolicyOf(BaseChains(), chain)
  {
    hide BaseChains, FixedRules, ForwardRules, DnatRules, MasqRules, Ascii;
    var rest := FixedRules(lan) + ForwardRules(forwards) + DnatRules(forwards) + MasqRules(masq) + [BatchEnd];
    assert Ruleset(lan, masq, forwards) == Preamble() + (BaseChains() + rest);
    PolicyOfTwo(Preamble(), chain);
    hide PolicyOf;
    PolicyOfConcat(Preamble(), BaseChains() + rest, chain);
    PolicyOfConcat(BaseChains(), rest, chain);
  }

  // The rules and the policy that a packet meets on a chain of the batch.
  lemma ChainOfRuleset(lan: seq<byte>, masq: bool, forwards: seq<Forward>, chain: seq<byte>, xlat: bool, p: Packet)
    ensures chain == InputChain() ==>
              RunChain(Ruleset(lan, masq, forwards), chain, xlat, p) == RunRules(FixedOn(lan, chain), xlat, NF_DROP, p)
    ensures chain == ForwardChain() ==>
              RunChain(Ruleset(lan, masq, forwards), chain, xlat, p)
              == RunRules(FixedOn(lan, chain) + ForwardExprs(forwards), xlat, NF_DROP, p)
    ensures chain == PreroutingChain() ==>
              RunChain(Ruleset(lan, masq, forwards), chain, xlat, p) == RunRules(DnatExprs(forwards), xlat, NF_ACCEPT, p)
    ensures chain == PostroutingChain() ==>
              RunChain(Ruleset(lan, masq, forwards), chain, xlat, p)
              == RunRules(if masq then [[Masq]] else [], xlat, NF_ACCEPT, p)
  {
    ChainNamesDiffer();
    hide RunRules, RulesOf, PolicyOf, Ruleset, BaseChains, ForwardExprs, DnatExprs, Ascii;
    hide CtAccept, IifAccept, L4ProtoAccept;
    RulesOfRuleset(lan, masq, forwards, chain);
    PolicyOfRuleset(lan, masq, forwards, chain);
    PolicyOfBaseChains(chain);
    var rules := FixedOn(lan, chain);
    assert rules + [] == rules;
    assert rules + ForwardExprs(forwards) + [] == rules + ForwardExprs(forwards);
    assert [] + DnatExprs(forwards) + [] == DnatExprs(forwards);
    assert rules == [] ==> rules + [] + [] + [[Masq]] == [[Masq]];
  }

  // ---- from hooks to chains ----

  lemma {:induction false} ChainsAtConcat(a: seq<Command>, b: seq<Command>, hook: u32)
    requires forall i :: 0 <= i < |b| ==> !b[i].NewChain?
    ensures ChainsAt(a + b, hook) == ChainsAt(a, hook)
  {
    if a == [] {
      assert a + b == b;
      NoChainsAt(b, hook);
    } else {
      assert (a + b)[1..] == a[1..] + b;
      ChainsAtConcat(a[1..], b, hook);
    }
  }

  lemma {:induction false} NoChainsAt(commands: seq<Command>, hook: u32)
    requires forall i :: 0 <= i < |commands| ==> commands[i].NewChain? ==> commands[i].hook != hook
    ensures ChainsAt(commands, hook) == []
  {
    if commands != [] {
      NoChainsAt(commands[1..], hook);
    }
  }

  // The only chain of a hook.
  lemma {:induction false} OneChainAt(commands: seq<Command>, k: nat, hook: u32)
    requires k < |commands| && SitsAt(commands[k], hook)
    requires forall i :: 0 <= i < |commands| && i != k && commands[i].NewChain? ==> commands[i].hook != hook
    ensures ChainsAt(commands, hook) == [commands[k]]
  {
    if k == 0 {
      NoChainsAt(commands[1..], hook);
    } else {
      OneChainAt(commands[1..], k - 1, hook);
    }
  }

  lemma {:induction false} RulesInTable(commands: seq<Command>, table: seq<byte>, chain: seq<byte>)
    requires forall i :: 0 <= i < |commands| ==> commands[i].NewRule? ==> commands[i].table == table
    ensures RulesIn(commands, table, chain) == RulesOf(commands, chain)
  {
    if commands != [] {
      RulesInTable(commands[1..], table, chain);
    }
  }

  lemma RulesetTables(lan: seq<byte>, masq: bool, forwards: seq<Forward>)
    ensures var commands := Ruleset(lan, masq, forwards);
            && (forall i :: 0 <= i < |commands| ==> commands[i].NewRule? ==> commands[i].table == Table())
            && |commands| >= 6 && commands[..6] == Preamble() + BaseChains()
            && (forall i :: 6 <= i < |commands| ==> !commands[i].NewChain?)
  {
    hide CtAccept, IifAccept, L4ProtoAccept, Dnat, ForwardToDest, Ascii;
  }

  lemma Spellings()
    ensures Ascii("lwrt") == [108, 119, 114, 116] && Ascii("lo") == [108, 111]
    ensures Ascii("filter") == FILTER_TYPE && Ascii("nat") == NAT_TYPE
    ensures Ascii("input") == [105, 110, 112, 117, 116] && Ascii("forward") == [102, 111, 114, 119, 97, 114, 100]
    ensures Ascii("prerouting") == [112, 114, 101, 114, 111, 117, 116, 105, 110, 103]
    ensures Ascii("postrouting") == [112, 111, 115, 116, 114, 111, 117, 116, 105, 110, 103]
  {
  }

  // The base chains, octet by octet: table, name, hook, priority, type and policy.
  lemma BaseChainsAre()
    ensures BaseChains() ==
            [NewChain([108, 119, 114, 116], [105, 110, 112, 117, 116], 1, 0, FILTER_TYPE, 0),
             NewChain([108, 119, 114, 116], [102, 111, 114, 119, 97, 114, 100], 2, 0, FILTER_TYPE, 0),
             NewChain([108, 119, 114, 116], [112, 114, 101, 114, 111, 117, 116, 105, 110, 103], 0, 0xFFFF_FF9C, NAT_TYPE, 1),
             NewChain([108, 119, 114, 116], [112, 111, 115, 116, 114, 111, 117, 116, 105, 110, 103], 4, 100, NAT_TYPE, 1)]
  {
    Spellings();
    hide Ascii;
  }

  // The k-th base chain is the only one at its hook.
  lemma HookOfRuleset(lan: seq<byte>, masq: bool, forwards: seq<Forward>, k: nat)
    requires k < 4
    ensures ChainsAt(Ruleset(lan, masq, forwards), BaseChains()[k].hook) == [BaseChains()[k]]
  {
    var commands, setup := Ruleset(lan, masq, forwards), Preamble() + BaseChains();
    RulesetTables(lan, masq, forwards);
    hide Ruleset;
    BaseChainsAre();
    hide Ascii, BaseChains;
    assert commands == setup + commands[6..];
    ChainsAtConcat(setup, commands[6..], BaseChains()[k].hook);
    assert setup[k + 2] == BaseChains()[k];
    OneChainAt(setup, k + 2, BaseChains()[k].hook);
  }

  /**
   The base chains that sit at each hook: one each at 0 (prerouting), 1 (input), 2 (forward) and 4 (postrouting),
   with table, name, hook, priority (-100, 0, 0, 100), type and policy (drop is 0, accept 1) written out, no other.
   */
  lemma ChainsOfRuleset(lan: seq<byte>, masq: bool, forwards: seq<Forward>, hook: u32)
    ensures ChainsAt(Ruleset(lan, masq, forwards), hook) ==
            if hook == 0 then [NewChain([108, 119, 114, 116], [112, 114, 101, 114, 111, 117, 116, 105, 110, 103],
                                        0, 0x1_0000_0000 - 100, [110, 97, 116], 1)]
            else if hook == 1 then [NewChain([108, 119, 114, 116], [105, 110, 112, 117, 116],
                                             1, 0, [102, 105, 108, 116, 101, 114], 0)]
            else if hook == 2 then [NewChain([108, 119, 114, 116], [102, 111, 114, 119, 97, 114, 100],
                                             2, 0, [102, 105, 108, 116, 101, 114], 0)]
            else if hook == 4 then [NewChain([108, 119, 114, 116], [112, 111, 115, 116, 114, 111, 117, 116, 105, 110, 103],
                                             4, 100, [110, 97, 116], 1)]
            else []
  {
    BaseChainsAre();
    var commands, setup := Ruleset(lan, masq, forwards), Preamble() + BaseChains();
    RulesetTables(lan, masq, forwards);
    hide Ruleset, Ascii, BaseChains, ChainsAt;
    assert commands == setup + commands[6..];
    if hook in {0, 1, 2, 4} {
      HookOfRuleset(lan, masq, forwards, if hook == 0 then 2 else if hook == 4 then 3 else hook - 1);
    } else {
      ChainsAtConcat(setup, commands[6..], hook);
      NoChainsAt(setup, hook);
    }
  }

  // A packet at a hook meets the rules and the policy of the chain registered there.
  lemma RunHookIsRunChain(lan: seq<byte>, masq: bool, forwards: seq<Forward>, k: nat, p: Packet)
    requires k < 4
    ensures var commands, c := Ruleset(lan, masq, forwards), BaseChains()[k];
            RunHook(commands, c.hook, p) == RunChain(commands, c.name, c.chainType == NAT_TYPE, p)
  {
    var commands, c := Ruleset(lan, masq, forwards), BaseChains()[k];
    HookOfRuleset(lan, masq, forwards, k);
    RulesetTables(lan, masq, forwards);
    assert c.table == Table();
    RulesInTable(commands, Table(), c.name);
    PolicyOfRuleset(lan, masq, forwards, c.name);
    assert PolicyOf(BaseChains(), c.name) == Some(c.policy) by { BaseChainPolicy(k); }
    hide Ruleset, RulesOf, RulesIn, PolicyOf, RunRules, ChainsAt, Ascii, BaseChains;
    assert [c][1..] == [];
    var d := RunRules(RulesIn(commands, c.table, c.name), c.chainType == NAT_TYPE, c.policy, p);
    assert RunChains(commands, [], d.packet) == Decision(NF_ACCEPT, d.packet);
    assert RunChains(commands, [c], p) == d;
  }

  lemma BaseChainPolicy(k: nat)
    requires k < 4
    ensures PolicyOf(BaseChains(), BaseChains()[k].name) == Some(BaseChains()[k].policy)
  {
    ChainNamesDiffer();
    PolicyOfBaseChains(BaseChains()[k].name);
    hide PolicyOf, Ascii, InputChain, ForwardChain, PreroutingChain, PostroutingChain;
  }

  // ---- lists of rules ----

  lemma {:induction false} RunConcat(a: seq<seq<Expr>>, b: seq<seq<Expr>>, xlat: bool, policy: u32, p: Packet)
    requires forall i :: 0 <= i < |a| ==> RunExprs(a[i], xlat, map[], p) == Mismatch
    ensures RunRules(a + b, xlat, policy, p) == RunRules(b, xlat, policy, p)
  {
    if a == [] {
      assert a + b == b;
    } else {
      assert (a + b)[1..] == a[1..] + b;
      RunConcat(a[1..], b, xlat, policy, p);
    }
  }

  // Rules that accept the packet as it is or do not match: the list accepts when one of them does.
  lemma {:induction false} RunAccepting(rules: seq<seq<Expr>>, xlat: bool, policy: u32, p: Packet)
    requires forall i :: 0 <= i < |rules| ==> RunExprs(rules[i], xlat, map[], p) in {Stop(NF_ACCEPT, p), Mismatch}
    ensures RunRules(rules, xlat, policy, p) ==
            if exists i :: 0 <= i < |rules| && RunExprs(rules[i], xlat, map[], p) == Stop(NF_ACCEPT, p)
            then Decision(NF_ACCEPT, p) else Decision(policy, p)
  {
    if rules != [] && RunExprs(rules[0], xlat, map[], p) == Mismatch {
      RunAccepting(rules[1..], xlat, policy, p);
      assert forall i :: 1 <= i < |rules| ==> rules[i] == rules[1..][i - 1];
    }
  }

  predicate InputAllowed(lan: seq<byte>, p: Packet) {
    Established(p) || Related(p) || ArrivesOn(Ascii("lo"), p) || ArrivesOn(lan, p) || p.l4proto == IPPROTO_ICMP
  }

  predicate ForwardAllowed(lan: seq<byte>, forwards: seq<Forward>, p: Packet)
    requires IPv4(p)
  {
    || Established(p) || Related(p) || ArrivesOn(lan, p)
    || exists i :: 0 <= i < |forwards| && AddressedTo(forwards[i], p)
  }

  // The input chain accepts exactly the allowed packets, and leaves every packet as it was.
  lemma InputChainMeaning(lan: seq<byte>, masq: bool, forwards: seq<Forward>, p: Packet)
    requires IPv4(p)
    ensures RunChain(Ruleset(lan, masq, forwards), InputChain(), false, p)
         == Decision(if InputAllowed(lan, p) then NF_ACCEPT else NF_DROP, p)
  {
    hide CtAccept, IifAccept, L4ProtoAccept, RunExprs, RunRules, RunChain, ArrivesOn, Established, Related, Ascii;
    ChainOfRuleset(lan, masq, forwards, InputChain(), false, p);
    var rules := FixedOn(lan, InputChain());
    var accepts := i => 0 <= i < 4 && RunExprs(rules[i], false, map[], p) == Stop(NF_ACCEPT, p);
    CtRule(false, p);
    IifRule(Ascii("lo"), false, p);
    IifRule(lan, false, p);
    L4ProtoRule(IPPROTO_ICMP, false, p);
    RunAccepting(rules, false, NF_DROP, p);
    assert accepts(0) || accepts(1) || accepts(2) || accepts(3) <==> InputAllowed(lan, p);
    assert rules[0] == CtAccept() && rules[1] == IifAccept(Ascii("lo"));
    assert rules[2] == IifAccept(lan) && rules[3] == L4ProtoAccept(IPPROTO_ICMP);
  }

  // The forward chain: nothing but replies, LAN ingress and packets already addressed to a target.
  lemma ForwardChainMeaning(lan: seq<byte>, masq: bool, forwards: seq<Forward>, p: Packet)
    requires IPv4(p)
    ensures RunChain(Ruleset(lan, masq, forwards), ForwardChain(), false, p)
         == Decision(if ForwardAllowed(lan, forwards, p) then NF_ACCEPT else NF_DROP, p)
  {
    ChainNamesDiffer();
    hide CtAccept, IifAccept, ForwardToDest, RunExprs, RunRules, RunChain, ArrivesOn, Established, Related,
         AddressedTo, Ascii;
    ChainOfRuleset(lan, masq, forwards, ForwardChain(), false, p);
    var rules := FixedOn(lan, ForwardChain()) + ForwardExprs(forwards);
    assert rules[0] == CtAccept() && rules[1] == IifAccept(lan);
    CtRule(false, p);
    IifRule(lan, false, p);
    forall i | 2 <= i < |rules|
      ensures RunExprs(rules[i], false, map[], p) == if AddressedTo(forwards[i - 2], p) then Stop(NF_ACCEPT, p) else Mismatch
    {
      ForwardRule(forwards[i - 2], false, p);
    }
    RunAccepting(rules, false, NF_DROP, p);
    if i :| 0 <= i < |forwards| && AddressedTo(forwards[i], p) {
      assert RunExprs(rules[i + 2], false, map[], p) == Stop(NF_ACCEPT, p);
    }
  }

  lemma {:induction false} RunDnat(forwards: seq<Forward>, p: Packet)
    requires IPv4(p)
    ensures RunRules(DnatExprs(forwards), true, NF_ACCEPT, p) ==
            Decision(NF_ACCEPT, match FirstSelecting(forwards, p) case Some(f) => Redirected(f, p) case None => p)
  {
    hide Dnat, RunExprs, Selects, Redirected;
    if forwards != [] {
      DnatRule(forwards[0], true, p);
      assert DnatExprs(forwards)[1..] == DnatExprs(forwards[1..]);
      RunDnat(forwards[1..], p);
    }
  }

  // Prerouting rewrites a packet to the target of the first forward that selects it, and drops nothing.
  lemma PreroutingChainMeaning(lan: seq<byte>, masq: bool, forwards: seq<Forward>, p: Packet)
    requires IPv4(p)
    ensures RunChain(Ruleset(lan, masq, forwards), PreroutingChain(), true, p) ==
            Decision(NF_ACCEPT, match FirstSelecting(forwards, p) case Some(f) => Redirected(f, p) case None => p)
  {
    ChainOfRuleset(lan, masq, forwards, PreroutingChain(), true, p);
    RunDnat(forwards, p);
  }

  // With masquerading on, every packet that reaches postrouting is masqueraded, whatever its interfaces.
  lemma PostroutingChainMeaning(lan: seq<byte>, masq: bool, forwards: seq<Forward>, p: Packet)
    ensures RunChain(Ruleset(lan, masq, forwards), PostroutingChain(), true, p)
         == Decision(NF_ACCEPT, if masq then p.(masqueraded := true) else p)
  {
    ChainOfRuleset(lan, masq, forwards, PostroutingChain(), true, p);
    RunLast([Masq], true, map[], p);
    assert [[Masq]][0] == [Masq];
  }

  /** At the input hook exactly the allowed packets are accepted, and every packet stays as it was. */
  lemma InputMeaning(lan: seq<byte>, masq: bool, forwards: seq<Forward>, p: Packet)
    requires IPv4(p)
    ensures RunHook(Ruleset(lan, masq, forwards), NF_INET_LOCAL_IN, p)
         == Decision(if InputAllowed(lan, p) then NF_ACCEPT else NF_DROP, p)
  {
    hide RunHook, RunChain, Ruleset, InputAllowed;
    RunHookIsRunChain(lan, masq, forwards, 0, p);
    InputChainMeaning(lan, masq, forwards, p);
  }

  /** At the forward hook: nothing but replies, LAN ingress and packets already addressed to a target. */
  lemma ForwardMeaning(lan: seq<byte>, masq: bool, forwards: seq<Forward>, p: Packet)
    requires IPv4(p)
    ensures RunHook(Ruleset(lan, masq, forwards), NF_INET_FORWARD, p)
         == Decision(if ForwardAllowed(lan, forwards, p) then NF_ACCEPT else NF_DROP, p)
  {
    hide RunHook, RunChain, Ruleset, ForwardAllowed;
    RunHookIsRunChain(lan, masq, forwards, 1, p);
    ForwardChainMeaning(lan, masq, forwards, p);
  }

  /** At the prerouting hook a packet is rewritten to the target of the first forward that selects it; none is dropped. */
  lemma PreroutingMeaning(lan: seq<byte>, masq: bool, forwards: seq<Forward>, p: Packet)
    requires IPv4(p)
    ensures RunHook(Ruleset(lan, masq, forwards), NF_INET_PRE_ROUTING, p) ==
            Decision(NF_ACCEPT, match FirstSelecting(forwards, p) case Some(f) => Redirected(f, p) case None => p)
  {
    hide RunHook, RunChain, Ruleset, Redirected;
    RunHookIsRunChain(lan, masq, forwards, 2, p);
    PreroutingChainMeaning(lan, masq, forwards, p);
  }

  /** At the postrouting hook every packet is masqueraded when masquerading is on, whatever its interfaces. */
  lemma PostroutingMeaning(lan: seq<byte>, masq: bool, forwards: seq<Forward>, p: Packet)
    ensures RunHook(Ruleset(lan, masq, forwards), NF_INET_POST_ROUTING, p)
         == Decision(NF_ACCEPT, if masq then p.(masqueraded := true) else p)
  {
    hide RunHook, RunChain, Ruleset;
    RunHookIsRunChain(lan, masq, forwards, 3, p);
    PostroutingChainMeaning(lan, masq, forwards, p);
  }

  lemma RedirectedIsAddressed(f: Forward, p: Packet)
    requires IPv4(p) && Selects(f, p)
    ensures IPv4(Redirected(f, p)) && AddressedTo(f, Redirected(f, p))
  {
    var q := Redirected(f, p);
    assert q.network[16..20] == Be32(f.destIp);
    assert q.transport[2..4] == Be16(f.destPort);
    BigEndian(f.destIp);
  }

  /** Port forwards compose: what prerouting redirects, the forward chain lets through. */
  lemma RedirectedPacketsAreForwarded(lan: seq<byte>, masq: bool, forwards: seq<Forward>, p: Packet)
    requires IPv4(p) && FirstSelecting(forwards, p).Some?
    ensures var f, commands := FirstSelecting(forwards, p).value, Ruleset(lan, masq, forwards);
            var q := RunHook(commands, NF_INET_PRE_ROUTING, p).packet;
            && q == Redirected(f, p) && IPv4(q)
            && DestAddr(q) == f.destIp && HasPorts(q) && DestPort(q) == f.destPort
            && RunHook(commands, NF_INET_FORWARD, q) == Decision(NF_ACCEPT, q)
  {
    hide RunHook, Ruleset, Redirected;
    var f := FirstSelecting(forwards, p).value;
    PreroutingMeaning(lan, masq, forwards, p);
    RedirectedIsAddressed(f, p);
    var i :| 0 <= i < |forwards| && forwards[i] == f;
    ForwardMeaning(lan, masq, forwards, Redirected(f, p));
  }
}
