/** DHCPv4 packets: the option walker, the parsers and the builders of src/dhcp.rs (RFC 2131, RFC 2132). */
module DhcpPacket {
  import opened Bytes
  import opened Text
  import opened Wrappers

  const MAGIC: seq<byte> := [99, 130, 83, 99]
  const OP_REQUEST: byte := 1
  const OP_REPLY: byte := 2

  const OPT_SUBNET: byte := 1
  const OPT_ROUTER: byte := 3
  const OPT_DNS: byte := 6
  const OPT_HOSTNAME: byte := 12
  const OPT_REQIP: byte := 50
  const OPT_LEASE: byte := 51
  const OPT_MSGTYPE: byte := 53
  const OPT_SERVERID: byte := 54
  const OPT_PARAMETERS: byte := 55
  const OPT_END: byte := 255

  const DISCOVER: byte := 1
  const OFFER: byte := 2
  const REQUEST: byte := 3
  const ACK: byte := 5
  const NAK: byte := 6

  type Ipv4 = u32
  type Xid = s: seq<byte> | |s| == 4 witness [0, 0, 0, 0]
  type Mac = s: seq<byte> | |s| == 6 witness [0, 0, 0, 0, 0, 0]

  // ---- the option walker ----

  datatype Opt = Opt(code: byte, val: seq<byte>)

  // The options in the octets behind the cookie. A value cut off by the end of the packet is given as far as it goes.
  function OptionsOf(s: seq<byte>): seq<Opt>
    decreases |s|
  {
    if s == [] || s[0] == OPT_END then []
    else if s[0] == 0 then OptionsOf(s[1..])
    else if |s| < 2 then []
    else
      var end := Min(2 + s[1] as int, |s|);
      [Opt(s[0], s[2..end])] + OptionsOf(s[end..])
  }

  function OptionsIn(buf: seq<byte>): seq<Opt> { OptionsOf(buf[Min(240, |buf|)..]) }

  lemma WalkStep(buf: seq<byte>, i: nat)
    requires i < |buf|
    ensures buf[i] == OPT_END ==> OptionsOf(buf[i..]) == []
    ensures buf[i] == 0 ==> OptionsOf(buf[i..]) == OptionsOf(buf[i + 1..])
    ensures buf[i] != OPT_END && buf[i] != 0 && i + 1 == |buf| ==> OptionsOf(buf[i..]) == []
    ensures buf[i] != OPT_END && buf[i] != 0 && i + 1 < |buf| ==>
              var end := Min(i + 2 + buf[i + 1] as int, |buf|);
              OptionsOf(buf[i..]) == [Opt(buf[i], buf[i + 2..end])] + OptionsOf(buf[end..])
  {
    var s := buf[i..];
    assert s[0] == buf[i] && s[1..] == buf[i + 1..];
    if i + 1 < |buf| {
      assert s[1] == buf[i + 1];
      var end := Min(2 + s[1] as int, |s|);
      assert s[2..end] == buf[i + 2..i + end] && s[end..] == buf[i + end..];
    }
  }

  // The walk over offsets; every octet it looks at lies in the packet, whatever the packet holds.
  method Options(buf: seq<byte>) returns (opts: seq<Opt>)
    ensures opts == OptionsIn(buf)
  {
    hide OptionsOf;
    opts := [];
    var i := 240;
    assert OptionsOf([]) == [] by { EmptyArea([OPT_END]); }
    while i < |buf|
      invariant 240 <= i && opts + OptionsOf(buf[Min(i, |buf|)..]) == OptionsIn(buf)
      decreases |buf| - i
    {
      WalkStep(buf, i);
      var code := buf[i];
      if code == OPT_END {
        return;
      }
      if code == 0 {
        i := i + 1;
        continue;
      }
      if i + 1 >= |buf| {
        return;
      }
      var len := buf[i + 1] as int;
      var start := i + 2;
      var end := Min(start + len, |buf|);
      i := start + len;
      opts := opts + [Opt(code, buf[start..end])];
    }
    assert buf[Min(i, |buf|)..] == [];
  }

  // ---- well-formed option areas ----

  // What section 2 of RFC 2132 allows in the option area: single zero octets, and options with a length octet.
  datatype Piece = Pad | Tlv(opt: Opt)

  predicate ValidOpt(o: Opt) { o.code != 0 && o.code != OPT_END && |o.val| < 256 }

  predicate ValidPieces(pieces: seq<Piece>) {
    forall i :: 0 <= i < |pieces| ==> pieces[i].Tlv? ==> ValidOpt(pieces[i].opt)
  }

  function EncodeOpt(o: Opt): seq<byte>
    requires ValidOpt(o)
  {
    [o.code, |o.val|] + o.val
  }

  function EncodePieces(pieces: seq<Piece>): seq<byte>
    requires ValidPieces(pieces)
  {
    if pieces == [] then []
    else (if pieces[0].Pad? then [0] else EncodeOpt(pieces[0].opt)) + EncodePieces(pieces[1..])
  }

  function OptsOf(pieces: seq<Piece>): seq<Opt> {
    if pieces == [] then []
    else (if pieces[0].Pad? then [] else [pieces[0].opt]) + OptsOf(pieces[1..])
  }

  lemma OneOption(o: Opt, rest: seq<byte>)
    requires ValidOpt(o)
    ensures OptionsOf(EncodeOpt(o) + rest) == [o] + OptionsOf(rest)
  {
    var s := EncodeOpt(o) + rest;
    assert s[0] == o.code && s[1] as int == |o.val| && |s| == 2 + |o.val| + |rest|;
    assert s[2..2 + |o.val|] == o.val && s[2 + |o.val|..] == rest;
  }

  lemma EncodeHead(pieces: seq<Piece>)
    requires ValidPieces(pieces) && pieces != []
    ensures ValidPieces(pieces[1..])
    ensures pieces[0].Pad? ==>
              EncodePieces(pieces) == [0] + EncodePieces(pieces[1..]) && OptsOf(pieces) == OptsOf(pieces[1..])
    ensures pieces[0].Tlv? ==>
              && ValidOpt(pieces[0].opt) && OptsOf(pieces) == [pieces[0].opt] + OptsOf(pieces[1..])
              && EncodePieces(pieces) == EncodeOpt(pieces[0].opt) + EncodePieces(pieces[1..])
  {
    hide EncodeOpt, ValidOpt;
  }

  /** The walker finds exactly the options written, whatever pads stand between them and whatever follows END. */
  lemma {:induction false} WalkRecoversOptions(pieces: seq<Piece>, tail: seq<byte>)
    requires ValidPieces(pieces)
    requires tail == [] || tail[0] == OPT_END
    ensures OptionsOf(EncodePieces(pieces) + tail) == OptsOf(pieces)
  {
    hide OptionsOf, EncodeOpt, ValidOpt;
    if pieces == [] {
      EmptyArea(tail);
      assert EncodePieces(pieces) + tail == tail;
    } else {
      EncodeHead(pieces);
      WalkRecoversOptions(pieces[1..], tail);
      hide EncodePieces, OptsOf, ValidPieces;
      var more := EncodePieces(pieces[1..]);
      match pieces[0] {
        case Pad =>
          PadSkipped(more + tail);
          Regroup([0], more, tail);
        case Tlv(o) =>
          OneOption(o, more + tail);
          Regroup(EncodeOpt(o), more, tail);
      }
    }
  }

  lemma EmptyArea(tail: seq<byte>)
    requires tail == [] || tail[0] == OPT_END
    ensures OptionsOf(tail) == [] && OptionsOf([]) == []
  {
  }

  lemma PadSkipped(rest: seq<byte>)
    ensures OptionsOf([0] + rest) == OptionsOf(rest)
  {
    assert ([0] + rest)[1..] == rest;
  }

  // ---- reading packets ----

  function AsIpv4(val: seq<byte>): Option<Ipv4> { if |val| < 4 then None else Some(FromBe32(val[..4])) }

  datatype Packet = Packet(
    op: byte, xid: Xid, chaddr: Mac, yiaddr: Ipv4, msgType: byte, reqIp: Option<Ipv4>, hostname: Option<string>)

  predicate HasHeader(buf: seq<byte>) { |buf| >= 240 && buf[236..240] == MAGIC }

  function Noted(p: Packet, o: Opt): Packet {
    if o.code == OPT_MSGTYPE then p.(msgType := if o.val == [] then 0 else o.val[0])
    else if o.code == OPT_REQIP then p.(reqIp := AsIpv4(o.val))
    else if o.code == OPT_HOSTNAME then p.(hostname := FromUtf8(o.val))
    else p
  }

  function NotedAll(p: Packet, opts: seq<Opt>): Packet
    decreases |opts|
  {
    if opts == [] then p else NotedAll(Noted(p, opts[0]), opts[1..])
  }

  function Header(buf: seq<byte>): Packet
    requires |buf| >= 240
  {
    Packet(buf[0], buf[4..8], buf[28..34], FromBe32(buf[16..20]), 0, None, None)
  }

  function Parsed(buf: seq<byte>): Option<Packet> {
    if HasHeader(buf) then Some(NotedAll(Header(buf), OptionsIn(buf))) else None
  }

  method Parse(buf: seq<byte>) returns (r: Option<Packet>)
    ensures r == Parsed(buf)
  {
    if |buf| < 240 || buf[236..240] != MAGIC {
      return None;
    }
    var p := Header(buf);
    var opts := Options(buf);
    assert opts[0..] == opts;
    for i := 0 to |opts|
      invariant Some(NotedAll(p, opts[i..])) == Parsed(buf)
    {
      assert opts[i..][0] == opts[i] && opts[i..][1..] == opts[i + 1..];
      p := Noted(p, opts[i]);
    }
    assert opts[|opts|..] == [];
    r := Some(p);
  }

  datatype AckData = AckData(isAck: bool, mask: Ipv4, gw: Option<Ipv4>, dns: Option<Ipv4>)

  const DEFAULT_MASK: Ipv4 := 0xFFFF_FF00

  function AckNoted(a: AckData, o: Opt): AckData {
    var ip := AsIpv4(o.val);
    if o.code == OPT_MSGTYPE then (if o.val != [] && o.val[0] == ACK then a.(isAck := true) else a)
    else if o.code == OPT_SUBNET then (if ip.Some? then a.(mask := ip.value) else a)
    else if o.code == OPT_ROUTER then (if ip.Some? then a.(gw := ip) else a)
    else if o.code == OPT_DNS then (if ip.Some? then a.(dns := ip) else a)
    else a
  }

  function AckNotedAll(a: AckData, opts: seq<Opt>): AckData
    decreases |opts|
  {
    if opts == [] then a else AckNotedAll(AckNoted(a, opts[0]), opts[1..])
  }

  datatype Settings = Settings(mask: Ipv4, gw: Option<Ipv4>, dns: Option<Ipv4>)

  function AckParsed(buf: seq<byte>, xid: Xid): Option<Settings> {
    if !HasHeader(buf) || buf[4..8] != xid || buf[0] != OP_REPLY then None
    else
      var a := AckNotedAll(AckData(false, DEFAULT_MASK, None, None), OptionsIn(buf));
      if a.isAck then Some(Settings(a.mask, a.gw, a.dns)) else None
  }

  method ParseAck(buf: seq<byte>, xid: Xid) returns (r: Option<Settings>)
    ensures r == AckParsed(buf, xid)
  {
    if |buf| < 240 || buf[236..240] != MAGIC || buf[4..8] != xid || buf[0] != OP_REPLY {
      return None;
    }
    var a := AckData(false, DEFAULT_MASK, None, None);
    var opts := Options(buf);
    assert opts[0..] == opts;
    for i := 0 to |opts|
      invariant AckNotedAll(a, opts[i..]) == AckNotedAll(AckData(false, DEFAULT_MASK, None, None), OptionsIn(buf))
    {
      assert opts[i..][0] == opts[i] && opts[i..][1..] == opts[i + 1..];
      a := AckNoted(a, opts[i]);
    }
    assert opts[|opts|..] == [];
    r := if a.isAck then Some(Settings(a.mask, a.gw, a.dns)) else None;
  }

  // ---- building packets ----

  // The fixed header of section 2 of RFC 2131, and the cookie.
  function Fixed(op: byte, xid: Xid, flags: byte, yiaddr: Ipv4, siaddr: Ipv4, chaddr: Mac): (s: seq<byte>)
    ensures |s| == 240
  {
    [op, 1, 6, 0] + xid + Zeros(2) + [flags] + Zeros(5) + Be32(yiaddr) + Be32(siaddr) + Zeros(4) + chaddr + Zeros(202) + MAGIC
  }

  function Tlvs(opts: seq<Opt>): seq<Piece> { seq(|opts|, i requires 0 <= i < |opts| => Tlv(opts[i])) }

  function Packed(fixed: seq<byte>, opts: seq<Opt>): seq<byte>
    requires ValidPieces(Tlvs(opts))
  {
    fixed + EncodePieces(Tlvs(opts)) + [OPT_END]
  }

  function ReplyOpts(msgType: byte, server: Ipv4, mask: Ipv4, dns: Ipv4, lease: u32): (opts: seq<Opt>)
    ensures ValidPieces(Tlvs(opts))
  {
    [Opt(OPT_MSGTYPE, [msgType]), Opt(OPT_SERVERID, Be32(server)), Opt(OPT_LEASE, Be32(lease)),
     Opt(OPT_SUBNET, Be32(mask)), Opt(OPT_ROUTER, Be32(server)), Opt(OPT_DNS, Be32(dns))]
  }

  function Reply(req: Packet, msgType: byte, yiaddr: Ipv4, server: Ipv4, mask: Ipv4, dns: Ipv4, lease: u32): seq<byte> {
    Packed(Fixed(OP_REPLY, req.xid, 0, yiaddr, server, req.chaddr), ReplyOpts(msgType, server, mask, dns, lease))
  }

  function ClientOpts(msgType: byte, reqIp: Option<Ipv4>, server: Option<Ipv4>): (opts: seq<Opt>)
    ensures ValidPieces(Tlvs(opts))
  {
    [Opt(OPT_MSGTYPE, [msgType])]
    + (if reqIp.Some? then [Opt(OPT_REQIP, Be32(reqIp.value))] else [])
    + (if server.Some? then [Opt(OPT_SERVERID, Be32(server.value))] else [])
    + [Opt(OPT_PARAMETERS, [OPT_SUBNET, OPT_ROUTER, OPT_DNS])]
  }

  function Client(xid: Xid, mac: Mac, msgType: byte, reqIp: Option<Ipv4>, server: Option<Ipv4>): seq<byte> {
    Packed(Fixed(OP_REQUEST, xid, 0x80, 0, 0, mac), ClientOpts(msgType, reqIp, server))
  }

  // copy_from_slice into a buffer.
  function Put(b: seq<byte>, at: nat, s: seq<byte>): (r: seq<byte>)
    requires at + |s| <= |b|
    ensures |r| == |b|
    ensures forall i :: 0 <= i < |b| ==> r[i] == if at <= i < at + |s| then s[i - at] else b[i]
  {
    b[..at] + s + b[at + |s|..]
  }

  function PushOpt(b: seq<byte>, o: Opt): seq<byte>
    requires |o.val| < 256
  {
    b + [o.code] + [|o.val|] + o.val
  }

  lemma {:induction false} PiecesSnoc(opts: seq<Opt>, o: Opt)
    requires ValidPieces(Tlvs(opts)) && ValidOpt(o)
    ensures ValidPieces(Tlvs(opts + [o]))
    ensures EncodePieces(Tlvs(opts + [o])) == EncodePieces(Tlvs(opts)) + EncodeOpt(o)
  {
    hide ValidOpt;
    if opts == [] {
      assert Tlvs([] + [o]) == [Tlv(o)];
      assert [Tlv(o)][1..] == [];
    } else {
      assert Tlvs(opts + [o])[1..] == Tlvs(opts[1..] + [o]) && Tlvs(opts)[1..] == Tlvs(opts[1..]);
      assert Tlvs(opts + [o])[0] == Tlvs(opts)[0] == Tlv(opts[0]);
      PiecesSnoc(opts[1..], o);
    }
  }

  lemma FixedFields(op: byte, xid: Xid, flags: byte, yiaddr: Ipv4, siaddr: Ipv4, chaddr: Mac)
    ensures var b := Fixed(op, xid, flags, yiaddr, siaddr, chaddr);
            && b[..4] == [op, 1, 6, 0] && b[4..8] == xid && b[8..16] == [0, 0, flags, 0, 0, 0, 0, 0]
            && b[16..20] == Be32(yiaddr) && b[20..24] == Be32(siaddr) && b[24..28] == Zeros(4)
            && b[28..34] == chaddr && b[34..236] == Zeros(202) && b[236..240] == MAGIC
  {
    hide Be32;
    var head := [op, 1, 6, 0] + xid + Zeros(2) + [flags] + Zeros(5);
    var middle := Be32(yiaddr) + Be32(siaddr) + Zeros(4) + chaddr;
    var b := Fixed(op, xid, flags, yiaddr, siaddr, chaddr);
    assert b == head + middle + Zeros(202) + MAGIC;
    hide Fixed;
    assert |head| == 16 && |middle| == 18;
    assert b[..16] == head && b[16..34] == middle && b[34..236] == Zeros(202) && b[236..240] == MAGIC;
  }

  lemma SameByFields(a: seq<byte>, b: seq<byte>)
    requires |a| == |b| == 240
    requires a[..4] == b[..4] && a[4..8] == b[4..8] && a[8..16] == b[8..16] && a[16..20] == b[16..20]
    requires a[20..24] == b[20..24] && a[24..28] == b[24..28] && a[28..34] == b[28..34] && a[34..236] == b[34..236]
    requires a[236..240] == b[236..240]
    ensures a == b
  {
    assert forall c: seq<byte> :: |c| == 240 ==>
      c == c[..4] + c[4..8] + c[8..16] + c[16..20] + c[20..24] + c[24..28] + c[28..34] + c[34..236] + c[236..240];
  }

  method BuildFixed(op: byte, xid: Xid, flags: byte, yiaddr: Ipv4, siaddr: Ipv4, chaddr: Mac) returns (b: seq<byte>)
    ensures b == Fixed(op, xid, flags, yiaddr, siaddr, chaddr)
  {
    hide Fixed, Be32, Put, Zeros;
    b := Zeros(240);
    b := Put(b, 0, [op, 1, 6]);
    b := Put(b, 4, xid);
    b := Put(b, 10, [flags]);
    b := Put(b, 16, Be32(yiaddr));
    b := Put(b, 20, Be32(siaddr));
    b := Put(b, 28, chaddr);
    b := Put(b, 236, MAGIC);
    FixedFields(op, xid, flags, yiaddr, siaddr, chaddr);
    assert b[..4] == [op, 1, 6, 0];
    assert b[4..8] == xid;
    assert b[8] == b[9] == b[11] == b[12] == b[13] == b[14] == b[15] == 0 && b[10] == flags;
    assert b[8..16] == [0, 0, flags, 0, 0, 0, 0, 0];
    assert b[16..20] == Be32(yiaddr);
    assert b[20..24] == Be32(siaddr);
    assert forall i :: 24 <= i < 28 ==> b[i] == 0;
    assert b[24..28] == Zeros(4);
    assert b[28..34] == chaddr;
    assert forall i :: 34 <= i < 236 ==> b[i] == 0;
    assert b[34..236] == Zeros(202);
    assert b[236..240] == MAGIC;
    SameByFields(b, Fixed(op, xid, flags, yiaddr, siaddr, chaddr));
  }

  lemma PushIsEncode(b: seq<byte>, o: Opt)
    requires ValidOpt(o)
    ensures PushOpt(b, o) == b + EncodeOpt(o)
  {
  }

  // Pushing one more option onto a packet under construction.
  lemma PushNext(b: seq<byte>, fixed: seq<byte>, opts: seq<Opt>, o: Opt)
    requires ValidPieces(Tlvs(opts)) && ValidOpt(o) && b == fixed + EncodePieces(Tlvs(opts))
    ensures ValidPieces(Tlvs(opts + [o]))
    ensures PushOpt(b, o) == fixed + EncodePieces(Tlvs(opts + [o]))
  {
    PushIsEncode(b, o);
    PiecesSnoc(opts, o);
    hide EncodePieces, EncodeOpt, ValidPieces, ValidOpt, PushOpt, Tlvs;
    Regroup(fixed, EncodePieces(Tlvs(opts)), EncodeOpt(o));
  }

  lemma NoOptions(fixed: seq<byte>)
    ensures fixed == fixed + EncodePieces(Tlvs([]))
  {
  }

  // A packet under construction: its fixed part and the options pushed so far.
  ghost predicate Holds(b: seq<byte>, fixed: seq<byte>, opts: seq<Opt>) {
    ValidPieces(Tlvs(opts)) && b == fixed + EncodePieces(Tlvs(opts))
  }

  method Push(b: seq<byte>, o: Opt, ghost fixed: seq<byte>, ghost opts: seq<Opt>) returns (r: seq<byte>)
    requires Holds(b, fixed, opts) && ValidOpt(o)
    ensures Holds(r, fixed, opts + [o])
  {
    PushNext(b, fixed, opts, o);
    r := b + [o.code];
    r := r + [|o.val|];
    r := r + o.val;
    assert r == PushOpt(b, o);
  }

  method BuildReply(req: Packet, msgType: byte, yiaddr: Ipv4, server: Ipv4, mask: Ipv4, dns: Ipv4, lease: u32)
    returns (b: seq<byte>)
    ensures b == Reply(req, msgType, yiaddr, server, mask, dns, lease)
  {
    hide EncodePieces, Tlvs, Fixed, Be32;
    b := BuildFixed(OP_REPLY, req.xid, 0, yiaddr, server, req.chaddr);
    ghost var fixed := b;
    NoOptions(fixed);
    var o1, o2, o3 := Opt(OPT_MSGTYPE, [msgType]), Opt(OPT_SERVERID, Be32(server)), Opt(OPT_LEASE, Be32(lease));
    var o4, o5, o6 := Opt(OPT_SUBNET, Be32(mask)), Opt(OPT_ROUTER, Be32(server)), Opt(OPT_DNS, Be32(dns));
    assert Holds(b, fixed, []) by { NoPieces(); }
    hide Holds;
    b := Push(b, o1, fixed, []);
    b := Push(b, o2, fixed, [] + [o1]);
    b := Push(b, o3, fixed, [] + [o1] + [o2]);
    b := Push(b, o4, fixed, [] + [o1] + [o2] + [o3]);
    b := Push(b, o5, fixed, [] + [o1] + [o2] + [o3] + [o4]);
    b := Push(b, o6, fixed, [] + [o1] + [o2] + [o3] + [o4] + [o5]);
    assert [] + [o1] + [o2] + [o3] + [o4] + [o5] + [o6] == ReplyOpts(msgType, server, mask, dns, lease);
    HoldsIs(b, fixed, ReplyOpts(msgType, server, mask, dns, lease));
    b := b + [OPT_END];
  }

  method BuildClient(xid: Xid, mac: Mac, msgType: byte, reqIp: Option<Ipv4>, server: Option<Ipv4>) returns (b: seq<byte>)
    ensures b == Client(xid, mac, msgType, reqIp, server)
  {
    hide EncodePieces, Tlvs, Fixed, Be32;
    b := BuildFixed(OP_REQUEST, xid, 0x80, 0, 0, mac);
    ghost var fixed, opts := b, [];
    NoOptions(fixed);
    assert Holds(b, fixed, opts) by { NoPieces(); }
    hide Holds;
    b := Push(b, Opt(OPT_MSGTYPE, [msgType]), fixed, opts);
    opts := opts + [Opt(OPT_MSGTYPE, [msgType])];
    if reqIp.Some? {
      b := Push(b, Opt(OPT_REQIP, Be32(reqIp.value)), fixed, opts);
      opts := opts + [Opt(OPT_REQIP, Be32(reqIp.value))];
    }
    if server.Some? {
      b := Push(b, Opt(OPT_SERVERID, Be32(server.value)), fixed, opts);
      opts := opts + [Opt(OPT_SERVERID, Be32(server.value))];
    }
    b := Push(b, Opt(OPT_PARAMETERS, [OPT_SUBNET, OPT_ROUTER, OPT_DNS]), fixed, opts);
    opts := opts + [Opt(OPT_PARAMETERS, [OPT_SUBNET, OPT_ROUTER, OPT_DNS])];
    assert opts == ClientOpts(msgType, reqIp, server);
    HoldsIs(b, fixed, opts);
    b := b + [OPT_END];
  }

  lemma NoPieces()
    ensures ValidPieces(Tlvs([]))
  {
  }

  lemma HoldsIs(b: seq<byte>, fixed: seq<byte>, opts: seq<Opt>)
    requires Holds(b, fixed, opts) && ValidPieces(Tlvs(opts))
    ensures b + [OPT_END] == Packed(fixed, opts)
  {
  }

  // ---- round trips ----

  lemma {:induction false} TlvsBack(opts: seq<Opt>)
    ensures OptsOf(Tlvs(opts)) == opts
  {
    if opts != [] {
      TlvsBack(opts[1..]);
      assert Tlvs(opts)[1..] == Tlvs(opts[1..]);
    }
  }

  lemma PackedOptions(fixed: seq<byte>, opts: seq<Opt>, trailing: seq<byte>)
    requires |fixed| == 240 && ValidPieces(Tlvs(opts))
    ensures OptionsIn(Packed(fixed, opts) + trailing) == opts
    ensures |Packed(fixed, opts) + trailing| >= 240 && (Packed(fixed, opts) + trailing)[..240] == fixed
  {
    hide EncodePieces, OptionsOf;
    var area, tail := EncodePieces(Tlvs(opts)), [OPT_END] + trailing;
    assert Packed(fixed, opts) + trailing == fixed + (area + tail);
    assert (fixed + (area + tail))[240..] == area + tail;
    WalkRecoversOptions(Tlvs(opts), tail);
    TlvsBack(opts);
  }

  lemma PackedHeader(op: byte, xid: Xid, flags: byte, yiaddr: Ipv4, siaddr: Ipv4, chaddr: Mac, buf: seq<byte>)
    requires |buf| >= 240 && buf[..240] == Fixed(op, xid, flags, yiaddr, siaddr, chaddr)
    ensures HasHeader(buf) && Header(buf) == Packet(op, xid, chaddr, yiaddr, 0, None, None)
    ensures buf[0] == op && buf[4..8] == xid
  {
    FixedFields(op, xid, flags, yiaddr, siaddr, chaddr);
    BigEndian(yiaddr);
    var f := Fixed(op, xid, flags, yiaddr, siaddr, chaddr);
    hide Fixed, FromBe32, Be32;
    assert buf[4..8] == f[4..8] && buf[16..20] == f[16..20] && buf[28..34] == f[28..34] && buf[236..240] == f[236..240];
    assert buf[0] == f[..4][0];
  }

  // The option notes one at a time.
  lemma NotedCons(p: Packet, o: Opt, rest: seq<Opt>)
    ensures NotedAll(p, [o] + rest) == NotedAll(Noted(p, o), rest)
  {
    hide Noted;
    assert ([o] + rest)[1..] == rest;
  }

  lemma NotedNone(p: Packet)
    ensures NotedAll(p, []) == p
  {
  }

  lemma ClientNoted(p: Packet, msgType: byte, reqIp: Option<Ipv4>, server: Option<Ipv4>)
    requires p.reqIp == None
    ensures NotedAll(p, ClientOpts(msgType, reqIp, server)) == p.(msgType := msgType, reqIp := reqIp)
  {
    var o4 := Opt(OPT_PARAMETERS, [OPT_SUBNET, OPT_ROUTER, OPT_DNS]);
    var end := if server.Some? then [Opt(OPT_SERVERID, Be32(server.value))] + [o4] else [o4];
    var tail := if reqIp.Some? then [Opt(OPT_REQIP, Be32(reqIp.value))] + end else end;
    assert ClientOpts(msgType, reqIp, server) == [Opt(OPT_MSGTYPE, [msgType])] + tail;
    assert [o4] == [o4] + [];
    hide NotedAll, FromUtf8, Be32, FromBe32;
    var q := p.(msgType := msgType);
    NotedCons(p, Opt(OPT_MSGTYPE, [msgType]), tail);
    if reqIp.Some? {
      BigEndian(reqIp.value);
      assert Be32(reqIp.value)[..4] == Be32(reqIp.value);
      NotedCons(q, Opt(OPT_REQIP, Be32(reqIp.value)), end);
    }
    var r := q.(reqIp := reqIp);
    if server.Some? {
      NotedCons(r, Opt(OPT_SERVERID, Be32(server.value)), [o4]);
    }
    NotedCons(r, o4, []);
    NotedNone(r);
  }

  /** The server reads back what a client wrote, whatever follows the packet in the buffer. */
  lemma ClientRoundTrip(xid: Xid, mac: Mac, msgType: byte, reqIp: Option<Ipv4>, server: Option<Ipv4>, trailing: seq<byte>)
    ensures Parsed(Client(xid, mac, msgType, reqIp, server) + trailing)
         == Some(Packet(OP_REQUEST, xid, mac, 0, msgType, reqIp, None))
  {
    hide ClientOpts, Packed, NotedAll, Fixed, OptionsIn, HasHeader, Header;
    var fixed := Fixed(OP_REQUEST, xid, 0x80, 0, 0, mac);
    PackedOptions(fixed, ClientOpts(msgType, reqIp, server), trailing);
    PackedHeader(OP_REQUEST, xid, 0x80, 0, 0, mac, Client(xid, mac, msgType, reqIp, server) + trailing);
    ClientNoted(Packet(OP_REQUEST, xid, mac, 0, 0, None, None), msgType, reqIp, server);
  }

  /** A host name option is read as text exactly when it is valid UTF-8; other packets carry no name. */
  lemma HostNameIff(p: Packet, val: seq<byte>, name: string)
    ensures Noted(p, Opt(OPT_HOSTNAME, val)).hostname == Some(name) <==> val == Utf8All(name)
  {
    hide FromUtf8;
    FromUtf8Iff(val, name);
  }

  lemma ReplyNoted(p: Packet, msgType: byte, server: Ipv4, mask: Ipv4, dns: Ipv4, lease: u32)
    ensures NotedAll(p, ReplyOpts(msgType, server, mask, dns, lease)) == p.(msgType := msgType)
  {
    var o1, o2, o3 := Opt(OPT_MSGTYPE, [msgType]), Opt(OPT_SERVERID, Be32(server)), Opt(OPT_LEASE, Be32(lease));
    var o4, o5, o6 := Opt(OPT_SUBNET, Be32(mask)), Opt(OPT_ROUTER, Be32(server)), Opt(OPT_DNS, Be32(dns));
    assert ReplyOpts(msgType, server, mask, dns, lease) == [o1] + ([o2] + ([o3] + ([o4] + ([o5] + ([o6] + [])))));
    hide NotedAll, Be32;
    var q := p.(msgType := msgType);
    NotedCons(p, o1, [o2] + ([o3] + ([o4] + ([o5] + ([o6] + [])))));
    NotedCons(q, o2, [o3] + ([o4] + ([o5] + ([o6] + []))));
    NotedCons(q, o3, [o4] + ([o5] + ([o6] + [])));
    NotedCons(q, o4, [o5] + ([o6] + []));
    NotedCons(q, o5, [o6] + []);
    NotedCons(q, o6, []);
    NotedNone(q);
  }

  /** A client reads back the type and the address of a reply. */
  lemma ReplyRoundTrip(req: Packet, msgType: byte, yiaddr: Ipv4, server: Ipv4, mask: Ipv4, dns: Ipv4, lease: u32,
                       trailing: seq<byte>)
    ensures Parsed(Reply(req, msgType, yiaddr, server, mask, dns, lease) + trailing)
         == Some(Packet(OP_REPLY, req.xid, req.chaddr, yiaddr, msgType, None, None))
  {
    hide ReplyOpts, Packed, NotedAll, Fixed, OptionsIn, HasHeader, Header;
    PackedOptions(Fixed(OP_REPLY, req.xid, 0, yiaddr, server, req.chaddr),
                  ReplyOpts(msgType, server, mask, dns, lease), trailing);
    PackedHeader(OP_REPLY, req.xid, 0, yiaddr, server, req.chaddr,
                 Reply(req, msgType, yiaddr, server, mask, dns, lease) + trailing);
    ReplyNoted(Packet(OP_REPLY, req.xid, req.chaddr, yiaddr, 0, None, None), msgType, server, mask, dns, lease);
  }

  lemma AckCons(a: AckData, o: Opt, rest: seq<Opt>)
    ensures AckNotedAll(a, [o] + rest) == AckNotedAll(AckNoted(a, o), rest)
  {
    hide AckNoted;
    assert ([o] + rest)[1..] == rest;
  }

  lemma AckNone(a: AckData)
    ensures AckNotedAll(a, []) == a
  {
  }

  lemma WholeAddress(ip: Ipv4)
    ensures AsIpv4(Be32(ip)) == Some(ip)
  {
    assert Be32(ip)[..4] == Be32(ip);
    BigEndian(ip);
    hide Be32, FromBe32;
  }

  lemma AckReplyNoted(a: AckData, msgType: byte, server: Ipv4, mask: Ipv4, dns: Ipv4, lease: u32)
    ensures AckNotedAll(a, ReplyOpts(msgType, server, mask, dns, lease))
         == AckData(a.isAck || msgType == ACK, mask, Some(server), Some(dns))
  {
    var o1, o2, o3 := Opt(OPT_MSGTYPE, [msgType]), Opt(OPT_SERVERID, Be32(server)), Opt(OPT_LEASE, Be32(lease));
    var o4, o5, o6 := Opt(OPT_SUBNET, Be32(mask)), Opt(OPT_ROUTER, Be32(server)), Opt(OPT_DNS, Be32(dns));
    assert ReplyOpts(msgType, server, mask, dns, lease) == [o1] + ([o2] + ([o3] + ([o4] + ([o5] + ([o6] + [])))));
    WholeAddress(mask);
    WholeAddress(server);
    WholeAddress(dns);
    hide AckNotedAll, Be32, AsIpv4;
    var q := a.(isAck := a.isAck || msgType == ACK);
    AckCons(a, o1, [o2] + ([o3] + ([o4] + ([o5] + ([o6] + [])))));
    AckCons(q, o2, [o3] + ([o4] + ([o5] + ([o6] + []))));
    AckCons(q, o3, [o4] + ([o5] + ([o6] + [])));
    AckCons(q, o4, [o5] + ([o6] + []));
    AckCons(q.(mask := mask), o5, [o6] + []);
    AckCons(q.(mask := mask, gw := Some(server)), o6, []);
    AckNone(q.(mask := mask, gw := Some(server), dns := Some(dns)));
  }

  /** The client takes mask, router and name server from an ACK of its transaction, and from no other reply. */
  lemma AckRecoversSettings(req: Packet, msgType: byte, yiaddr: Ipv4, server: Ipv4, mask: Ipv4, dns: Ipv4, lease: u32,
                            trailing: seq<byte>, xid: Xid)
    ensures AckParsed(Reply(req, msgType, yiaddr, server, mask, dns, lease) + trailing, xid)
         == if xid == req.xid && msgType == ACK then Some(Settings(mask, Some(server), Some(dns))) else None
  {
    hide ReplyOpts, Packed, AckNotedAll, Fixed, OptionsIn, HasHeader, Header;
    PackedOptions(Fixed(OP_REPLY, req.xid, 0, yiaddr, server, req.chaddr),
                  ReplyOpts(msgType, server, mask, dns, lease), trailing);
    PackedHeader(OP_REPLY, req.xid, 0, yiaddr, server, req.chaddr,
                 Reply(req, msgType, yiaddr, server, mask, dns, lease) + trailing);
    AckReplyNoted(AckData(false, DEFAULT_MASK, None, None), msgType, server, mask, dns, lease);
  }
}
