/**
 What a batch does to packets: the expression machine of nf_tables over byte-string registers, and the
 meaning of the compiled firewall for every IPv4 packet.
 */
module PacketPath {
  import opened Bytes
  import opened Netlink
  import opened Nftables
  import opened NftablesRoundTrip
  import opened Firewall
  import opened Wrappers

  const IFNAMSIZ: nat := 16

  datatype Packet = Packet(ctState: u32, iif: seq<byte>, l4proto: byte,
                           network: seq<byte>, transport: seq<byte>, masqueraded: bool)

  // An interface name is NUL-free and leaves room for its terminator; an IPv4 header has 20 octets or more.
  predicate IPv4(p: Packet) {
    |p.iif| < IFNAMSIZ && 0 !in p.iif && |p.network| >= 20
  }

  // ---- the machine ----
  //
  // The other side of the format: keys, operators, verdicts and hooks are numbers here (src/fw.rs:33-116), not the
  // compiler's names for them.

  type Registers = map<u32, seq<byte>>

  datatype Outcome = Go(regs: Registers, packet: Packet) | Mismatch | Stop(code: u32, packet: Packet)

  function MetaValue(key: u32, p: Packet): Option<seq<byte>> {
    if key == 11 && |p.iif| <= IFNAMSIZ then Some(p.iif + Zeros(IFNAMSIZ - |p.iif|))
    else if key == 16 then Some([p.l4proto])
    else None
  }

  function HeaderValue(base: u32, offset: nat, len: nat, p: Packet): Option<seq<byte>> {
    if base != 1 && base != 2 then None
    else
      var header := if base == 1 then p.network else p.transport;
      if offset + len <= |header| then Some(header[offset..offset + len]) else None
  }

  function Load(regs: Registers, dreg: u32, value: Option<seq<byte>>, p: Packet): Outcome {
    match value
    case Some(s) => Go(regs[dreg := s], p)
    case None => Mismatch
  }

  function MaskBytes(s: seq<byte>, mask: seq<byte>, flip: seq<byte>): (r: seq<byte>)
    requires |s| == |mask| == |flip|
    ensures |r| == |s|
  {
    seq(|s|, i requires 0 <= i < |s| => BitXor(BitAnd(s[i], mask[i]), flip[i]) % 0x100)
  }

  // Destination rewritten in the IPv4 and transport headers.
  function Rewrite(p: Packet, addr: seq<byte>, port: seq<byte>): (r: Packet)
    requires |addr| == 4 && |port| == 2 && |p.network| >= 20 && |p.transport| >= 4
  {
    p.(network := Patch(p.network, 16, addr), transport := Patch(p.transport, 2, port))
  }

  // Address translation happens in chains of type nat only.
  function Exec(e: Expr, xlat: bool, regs: Registers, p: Packet): Outcome {
    match e
    case Ct(key, dreg) => if key == 0 then Go(regs[dreg := Be32(p.ctState)], p) else Mismatch
    case Bitwise(sreg, dreg, len, mask, flip) =>
      if sreg in regs && |regs[sreg]| == len == |mask| == |flip|
      then Go(regs[dreg := MaskBytes(regs[sreg], mask, flip)], p) else Mismatch
    case Cmp(sreg, op, data) =>
      if sreg in regs && |data| <= |regs[sreg]| &&
         ((op == 0 && regs[sreg][..|data|] == data) || (op == 1 && regs[sreg][..|data|] != data))
      then Go(regs, p) else Mismatch
    case Meta(key, dreg) => Load(regs, dreg, MetaValue(key, p), p)
    case Payload(dreg, base, offset, len) => Load(regs, dreg, HeaderValue(base, offset, len, p), p)
    case Verdict(code) => Stop(code, p)
    case Immediate(dreg, data) => Go(regs[dreg := data], p)
    case Nat(kind, family, addrReg, portReg) =>
      if xlat && kind == 1 && family == 2 && addrReg in regs && portReg in regs
         && |regs[addrReg]| == 4 && |regs[portReg]| == 2 && |p.network| >= 20 && |p.transport| >= 4
      then Stop(1, Rewrite(p, regs[addrReg], regs[portReg])) else Mismatch
    case Masq => if xlat then Stop(1, p.(masqueraded := true)) else Mismatch
  }

  function RunExprs(es: seq<Expr>, xlat: bool, regs: Registers, p: Packet): Outcome {
    if es == [] then Go(regs, p)
    else
      match Exec(es[0], xlat, regs, p)
      case Go(regs', p') => RunExprs(es[1..], xlat, regs', p')
      case outcome => outcome
  }

  datatype Decision = Decision(code: u32, packet: Packet)

  function RunRules(rules: seq<seq<Expr>>, xlat: bool, policy: u32, p: Packet): Decision {
    if rules == [] then Decision(policy, p)
    else
      match RunExprs(rules[0], xlat, map[], p)
      case Stop(code, p') => Decision(code, p')
      case Go(_, p') => RunRules(rules[1..], xlat, policy, p')
      case Mismatch => RunRules(rules[1..], xlat, policy, p)
  }

  // The rules that a list of commands appends to a chain, in order.
  function RulesOf(commands: seq<Command>, chain: seq<byte>): seq<seq<Expr>> {
    if commands == [] then []
    else (if commands[0].NewRule? && commands[0].chain == chain then [commands[0].exprs] else [])
         + RulesOf(commands[1..], chain)
  }

  function PolicyOf(commands: seq<Command>, chain: seq<byte>): Option<u32> {
    if commands == [] then None
    else if commands[0].NewChain? && commands[0].name == chain then Some(commands[0].policy)
    else PolicyOf(commands[1..], chain)
  }

  // A chain that was never created lets everything through.
  function RunChain(commands: seq<Command>, chain: seq<byte>, xlat: bool, p: Packet): Decision {
    var policy := match PolicyOf(commands, chain) case Some(code) => code case None => 1;
    RunRules(RulesOf(commands, chain), xlat, policy, p)
  }

  // ---- a hook ----

  // The priority of a base chain, a signed word.
  function Priority(c: Command): int
    requires c.NewChain?
  {
    if c.priority < 0x8000_0000 then c.priority else c.priority - TWO32
  }

  // "nat" and "filter"
  const NAT_TYPE: seq<byte> := [110, 97, 116]
  const FILTER_TYPE: seq<byte> := [102, 105, 108, 116, 101, 114]

  // Where a base chain can sit: a nat chain not on the way through, and only behind connection tracking (-200).
  predicate SitsAt(c: Command, hook: u32) {
    && c.NewChain? && c.hook == hook
    && (c.chainType == FILTER_TYPE || (c.chainType == NAT_TYPE && hook in {0, 1, 3, 4} && Priority(c) > -200))
  }

  function InsertChain(c: Command, chains: seq<Command>): (r: seq<Command>)
    requires c.NewChain? && forall i :: 0 <= i < |chains| ==> chains[i].NewChain?
    ensures forall i :: 0 <= i < |r| ==> r[i].NewChain?
  {
    if chains == [] || Priority(c) <= Priority(chains[0]) then [c] + chains
    else [chains[0]] + InsertChain(c, chains[1..])
  }

  // The base chains of a hook, lowest priority first.
  function ChainsAt(commands: seq<Command>, hook: u32): (r: seq<Command>)
    ensures forall i :: 0 <= i < |r| ==> r[i].NewChain?
  {
    if commands == [] then []
    else
      var rest := ChainsAt(commands[1..], hook);
      if SitsAt(commands[0], hook) then InsertChain(commands[0], rest) else rest
  }

  // The rules appended to a chain of a table.
  function RulesIn(commands: seq<Command>, table: seq<byte>, chain: seq<byte>): seq<seq<Expr>> {
    if commands == [] then []
    else
      (if commands[0].NewRule? && commands[0].table == table && commands[0].chain == chain then [commands[0].exprs] else [])
      + RulesIn(commands[1..], table, chain)
  }

  // An accepted packet goes on to the next base chain of the hook.
  function RunChains(commands: seq<Command>, chains: seq<Command>, p: Packet): Decision
    requires forall i :: 0 <= i < |chains| ==> chains[i].NewChain?
  {
    if chains == [] then Decision(1, p)
    else
      var d := RunRules(RulesIn(commands, chains[0].table, chains[0].name), chains[0].chainType == NAT_TYPE,
                        chains[0].policy, p);
      if d.code == 1 then RunChains(commands, chains[1..], d.packet) else d
  }

  /** What a batch does to a packet at a hook: the base chains registered there, in order of priority. */
  function RunHook(commands: seq<Command>, hook: u32, p: Packet): Decision {
    RunChains(commands, ChainsAt(commands, hook), p)
  }

  // ---- what the administrator asked for ----

  predicate Established(p: Packet) { p.ctState / 2 % 2 == 1 }
  predicate Related(p: Packet) { p.ctState / 4 % 2 == 1 }

  function WithoutTrailingNuls(s: seq<byte>): seq<byte> {
    if s != [] && s[|s| - 1] == 0 then WithoutTrailingNuls(s[..|s| - 1]) else s
  }

  predicate ArrivesOn(name: seq<byte>, p: Packet) {
    |name| < IFNAMSIZ && p.iif == WithoutTrailingNuls(name)
  }

  predicate HasPorts(p: Packet) { |p.transport| >= 4 }

  function DestPort(p: Packet): u16
    requires HasPorts(p)
  {
    0x100 * p.transport[2] as int + p.transport[3] as int
  }

  function DestAddr(p: Packet): u32
    requires IPv4(p)
  {
    0x100_0000 * p.network[16] as int + 0x1_0000 * p.network[17] as int + 0x100 * p.network[18] as int
    + p.network[19] as int
  }

  predicate Selects(f: Forward, p: Packet) {
    p.l4proto == f.proto && HasPorts(p) && DestPort(p) == f.dport
  }

  predicate AddressedTo(f: Forward, p: Packet)
    requires IPv4(p)
  {
    p.l4proto == f.proto && DestAddr(p) == f.destIp && HasPorts(p) && DestPort(p) == f.destPort
  }

  function FirstSelecting(forwards: seq<Forward>, p: Packet): (r: Option<Forward>)
    ensures r.Some? ==> r.value in forwards && Selects(r.value, p)
  {
    if forwards == [] then None
    else if Selects(forwards[0], p) then Some(forwards[0])
    else FirstSelecting(forwards[1..], p)
  }

  function Redirected(f: Forward, p: Packet): Packet
    requires IPv4(p) && HasPorts(p)
  {
    Rewrite(p, Be32(f.destIp), Be16(f.destPort))
  }

  // ---- one rule at a time ----

  lemma RunStep(es: seq<Expr>, xlat: bool, regs: Registers, p: Packet, regs': Registers)
    requires es != [] && Exec(es[0], xlat, regs, p) == Go(regs', p)
    ensures RunExprs(es, xlat, regs, p) == RunExprs(es[1..], xlat, regs', p)
  {
  }

  lemma RunLast(es: seq<Expr>, xlat: bool, regs: Registers, p: Packet)
    requires es != [] && !Exec(es[0], xlat, regs, p).Go?
    ensures RunExprs(es, xlat, regs, p) == Exec(es[0], xlat, regs, p)
  {
  }

  lemma {:induction false} AndSix(a: nat)
    ensures BitAnd(a, 6) == 2 * (a / 2 % 2) + 4 * (a / 4 % 2)
  {
    assert BitAnd(a, 6) == 2 * BitAnd(a / 2, 3);
    assert BitAnd(a / 2, 3) == a / 2 % 2 + 2 * BitAnd(a / 4, 1);
    assert BitAnd(a / 4, 1) == a / 4 % 2;
  }

  lemma LowOctet(high: nat, low: byte)
    ensures (0x100 * high + low) / 2 % 2 == low / 2 % 2 && (0x100 * high + low) / 4 % 2 == low / 4 % 2
  {
    assert (0x100 * high + low) / 2 == 2 * (0x40 * high) + low / 2;
    assert (0x100 * high + low) / 4 == 2 * (0x20 * high) + low / 4;
  }

  lemma MaskLowOctet(s: seq<byte>)
    requires |s| == 4
    ensures MaskBytes(s, [0, 0, 0, 6], [0, 0, 0, 0]) == [0, 0, 0, BitAnd(s[3], 6)]
  {
    var masked := MaskBytes(s, [0, 0, 0, 6], [0, 0, 0, 0]);
    assert forall i :: 0 <= i < 3 ==> BitAnd(s[i], 0) == 0;
    assert masked[3] == BitXor(BitAnd(s[3], 6), 0) % 0x100 == BitAnd(s[3], 6);
    assert masked[0] == 0 && masked[1] == 0 && masked[2] == 0;
  }

  lemma CtMask(p: Packet)
    ensures MaskBytes(Be32(p.ctState), Be32(CT_BITS), Be32(0)) == Be32(0) <==> !Established(p) && !Related(p)
  {
    hide MaskBytes, BitAnd;
    MaskLowOctet(Be32(p.ctState));
    AndSix(p.ctState % 0x100);
    LowOctet(p.ctState / 0x100, p.ctState % 0x100);
    assert Be32(p.ctState)[3] == p.ctState % 0x100;
    assert Be32(CT_BITS) == [0, 0, 0, 6] && Be32(0) == [0, 0, 0, 0];
    assert Be32(0)[3] == 0 && [0, 0, 0, BitAnd(p.ctState % 0x100, 6)][3] == BitAnd(p.ctState % 0x100, 6);
  }

  lemma CtRule(xlat: bool, p: Packet)
    ensures RunExprs(CtAccept(), xlat, map[], p)
         == if Established(p) || Related(p) then Stop(NF_ACCEPT, p) else Mismatch
  {
    hide MaskBytes, Be32, Established, Related;
    var es, mask, zero := CtAccept(), Be32(CT_BITS), Be32(0);
    var r1: Registers := map[NFT_REG_1 := Be32(p.ctState)];
    var r2 := r1[NFT_REG_1 := MaskBytes(Be32(p.ctState), mask, zero)];
    RunStep(es, xlat, map[], p, r1);
    RunStep(es[1..], xlat, r1, p, r2);
    CtMask(p);
    if Established(p) || Related(p) {
      RunStep(es[1..][1..], xlat, r2, p, r2);
      RunLast(es[1..][1..][1..], xlat, r2, p);
    } else {
      RunLast(es[1..][1..], xlat, r2, p);
    }
  }

  lemma LoadAndCompare(load: Expr, value: Option<seq<byte>>, data: seq<byte>, rest: seq<Expr>, xlat: bool, regs: Registers, p: Packet)
    requires Exec(load, xlat, regs, p) == Load(regs, NFT_REG_1, value, p)
    ensures RunExprs([load, Cmp(NFT_REG_1, NFT_CMP_EQ, data)] + rest, xlat, regs, p) ==
            if value.Some? && data <= value.value then RunExprs(rest, xlat, regs[NFT_REG_1 := value.value], p) else Mismatch
  {
    var es := [load, Cmp(NFT_REG_1, NFT_CMP_EQ, data)] + rest;
    if value == None {
      RunLast(es, xlat, regs, p);
    } else {
      var loaded := regs[NFT_REG_1 := value.value];
      RunStep(es, xlat, regs, p, loaded);
      assert es[1..] == [Cmp(NFT_REG_1, NFT_CMP_EQ, data)] + rest;
      if data <= value.value {
        assert value.value[..|data|] == data;
        RunStep(es[1..], xlat, loaded, p, loaded);
        assert es[1..][1..] == rest;
      } else {
        assert |data| <= |value.value| ==> value.value[..|data|] != data;
        RunLast(es[1..], xlat, loaded, p);
      }
    }
  }

  lemma {:induction false} TrailingNuls(s: seq<byte>)
    ensures WithoutTrailingNuls(s) <= s
    ensures forall i :: |WithoutTrailingNuls(s)| <= i < |s| ==> s[i] == 0
    ensures WithoutTrailingNuls(s) != [] ==> WithoutTrailingNuls(s)[|WithoutTrailingNuls(s)| - 1] != 0
    ensures 0 !in s ==> WithoutTrailingNuls(s) == s
  {
    if s != [] && s[|s| - 1] == 0 {
      TrailingNuls(s[..|s| - 1]);
    }
  }

  /** Comparing the NUL-terminated prefix of the register is equality of names, trailing NULs aside. */
  lemma NamePrefixIsEquality(name: seq<byte>, p: Packet)
    requires IPv4(p)
    ensures name + [0] <= p.iif + Zeros(IFNAMSIZ - |p.iif|) <==> ArrivesOn(name, p)
    ensures 0 !in name ==> (ArrivesOn(name, p) <==> p.iif == name)
  {
    var register, base := p.iif + Zeros(IFNAMSIZ - |p.iif|), WithoutTrailingNuls(name);
    TrailingNuls(name);
    if name + [0] <= register {
      assert forall i :: 0 <= i < |name| ==> name[i] == (name + [0])[i] == register[i];
      assert (name + [0])[|name|] == 0 == register[|name|];
      if p.iif != [] {
        assert forall j :: 0 <= j < |p.iif| ==> register[j] == p.iif[j] && register[j] != 0;
        assert |p.iif| <= |name| && name[|p.iif| - 1] == register[|p.iif| - 1];
        assert |p.iif| - 1 < |base|;
      }
      if base != [] {
        assert register[|base| - 1] == base[|base| - 1];
        assert |base| - 1 < |p.iif|;
      }
      assert p.iif == base;
    }
    if ArrivesOn(name, p) {
      assert forall i :: 0 <= i < |name| ==> name[i] == register[i];
      assert name + [0] == register[..|name| + 1];
    }
  }

  lemma IifRule(name: seq<byte>, xlat: bool, p: Packet)
    requires IPv4(p)
    ensures RunExprs(IifAccept(name), xlat, map[], p) == if ArrivesOn(name, p) then Stop(NF_ACCEPT, p) else Mismatch
  {
    hide ArrivesOn, RunExprs;
    var value := Some(p.iif + Zeros(IFNAMSIZ - |p.iif|));
    var last := [Verdict(NF_ACCEPT)];
    LoadAndCompare(Meta(NFT_META_IIFNAME, NFT_REG_1), value, name + [0], last, xlat, map[], p);
    NamePrefixIsEquality(name, p);
    RunLast(last, xlat, map[NFT_REG_1 := value.value], p);
    assert IifAccept(name) == [IifAccept(name)[0], IifAccept(name)[1]] + last;
  }

  lemma OctetPrefix(a: byte, b: byte)
    ensures [a] <= [b] <==> a == b
  {
    assert [a] <= [b] ==> [a][0] == [b][0];
  }

  lemma ProtoTest(proto: byte, rest: seq<Expr>, xlat: bool, p: Packet)
    ensures RunExprs([Meta(NFT_META_L4PROTO, NFT_REG_1), Cmp(NFT_REG_1, NFT_CMP_EQ, [proto])] + rest, xlat, map[], p) ==
            if p.l4proto == proto then RunExprs(rest, xlat, map[NFT_REG_1 := [proto]], p) else Mismatch
  {
    hide RunExprs;
    OctetPrefix(proto, p.l4proto);
    LoadAndCompare(Meta(NFT_META_L4PROTO, NFT_REG_1), Some([p.l4proto]), [proto], rest, xlat, map[], p);
  }

  lemma L4ProtoRule(proto: byte, xlat: bool, p: Packet)
    ensures RunExprs(L4ProtoAccept(proto), xlat, map[], p) == if p.l4proto == proto then Stop(NF_ACCEPT, p) else Mismatch
  {
    hide RunExprs;
    var last := [Verdict(NF_ACCEPT)];
    ProtoTest(proto, last, xlat, p);
    RunLast(last, xlat, map[NFT_REG_1 := [proto]], p);
    assert L4ProtoAccept(proto) == [L4ProtoAccept(proto)[0], L4ProtoAccept(proto)[1]] + last;
  }

  lemma SameLengthPrefix(a: seq<byte>, b: seq<byte>)
    requires |a| == |b|
    ensures a <= b <==> a == b
  {
  }

  lemma Be16Equal(port: u16, s: seq<byte>)
    requires |s| == 2
    ensures Be16(port) == s <==> FromBe16(s) == port
  {
    if FromBe16(s) == port {
      assert Be16(port)[0] == s[0] && Be16(port)[1] == s[1];
    }
  }

  lemma Be32Equal(addr: u32, s: seq<byte>)
    requires |s| == 4
    ensures Be32(addr) == s <==> FromBe32(s) == addr
  {
    BigEndian(addr);
    var v := FromBe32(s);
    assert v / 0x100_0000 == s[0];
    assert v / 0x1_0000 == 0x100 * s[0] as int + s[1] as int;
    assert v / 0x100 == 0x1_0000 * s[0] as int + 0x100 * s[1] as int + s[2] as int;
    assert Be32(v) == s;
  }

  lemma PortTest(port: u16, rest: seq<Expr>, xlat: bool, regs: Registers, p: Packet)
    ensures RunExprs([Payload(NFT_REG_1, NFT_PAYLOAD_TRANSPORT_HEADER, 2, 2),
                      Cmp(NFT_REG_1, NFT_CMP_EQ, Be16(port))] + rest, xlat, regs, p) ==
            if HasPorts(p) && DestPort(p) == port then RunExprs(rest, xlat, regs[NFT_REG_1 := Be16(port)], p) else Mismatch
  {
    hide RunExprs, Be16;
    var value := HeaderValue(NFT_PAYLOAD_TRANSPORT_HEADER, 2, 2, p);
    LoadAndCompare(Payload(NFT_REG_1, NFT_PAYLOAD_TRANSPORT_HEADER, 2, 2), value, Be16(port), rest, xlat, regs, p);
    if HasPorts(p) {
      Be16Equal(port, p.transport[2..4]);
      SameLengthPrefix(Be16(port), p.transport[2..4]);
    }
  }

  lemma AddrTest(addr: u32, rest: seq<Expr>, xlat: bool, regs: Registers, p: Packet)
    requires IPv4(p)
    ensures RunExprs([Payload(NFT_REG_1, NFT_PAYLOAD_NETWORK_HEADER, 16, 4),
                      Cmp(NFT_REG_1, NFT_CMP_EQ, Be32(addr))] + rest, xlat, regs, p) ==
            if DestAddr(p) == addr then RunExprs(rest, xlat, regs[NFT_REG_1 := Be32(addr)], p) else Mismatch
  {
    hide RunExprs, Be32;
    var value := HeaderValue(NFT_PAYLOAD_NETWORK_HEADER, 16, 4, p);
    LoadAndCompare(Payload(NFT_REG_1, NFT_PAYLOAD_NETWORK_HEADER, 16, 4), value, Be32(addr), rest, xlat, regs, p);
    Be32Equal(addr, p.network[16..20]);
    SameLengthPrefix(Be32(addr), p.network[16..20]);
  }

  lemma ForwardRule(f: Forward, xlat: bool, p: Packet)
    requires IPv4(p)
    ensures RunExprs(ForwardToDest(f), xlat, map[], p) == if AddressedTo(f, p) then Stop(NF_ACCEPT, p) else Mismatch
  {
    hide RunExprs, Be16, Be32;
    var es := ForwardToDest(f);
    var r1: Registers := map[NFT_REG_1 := [f.proto]];
    ProtoTest(f.proto, es[2..], xlat, p);
    assert es == [es[0], es[1]] + es[2..];
    AddrTest(f.destIp, es[4..], xlat, r1, p);
    assert es[2..] == [es[2], es[3]] + es[4..];
    var r2 := r1[NFT_REG_1 := Be32(f.destIp)];
    PortTest(f.destPort, es[6..], xlat, r2, p);
    assert es[4..] == [es[4], es[5]] + es[6..];
    RunLast(es[6..], xlat, r2[NFT_REG_1 := Be16(f.destPort)], p);
  }

  lemma DnatRule(f: Forward, xlat: bool, p: Packet)
    requires IPv4(p)
    ensures RunExprs(Dnat(f), xlat, map[], p) == if xlat && Selects(f, p) then Stop(NF_ACCEPT, Redirected(f, p)) else Mismatch
  {
    hide RunExprs, Be16, Be32, Rewrite;
    var es := Dnat(f);
    var r1: Registers := map[NFT_REG_1 := [f.proto]];
    ProtoTest(f.proto, es[2..], xlat, p);
    assert es == [es[0], es[1]] + es[2..];
    PortTest(f.dport, es[4..], xlat, r1, p);
    assert es[2..] == [es[2], es[3]] + es[4..];
    if Selects(f, p) {
      var r2 := r1[NFT_REG_1 := Be16(f.dport)];
      var r3 := r2[NFT_REG_1 := Be32(f.destIp)];
      var r4 := r3[NFT_REG_2 := Be16(f.destPort)];
      RunStep(es[4..], xlat, r2, p, r3);
      RunStep(es[4..][1..], xlat, r3, p, r4);
      assert es[4..][1..][1..][0] == es[6];
      RunLast(es[4..][1..][1..], xlat, r4, p);
    }
  }
}
