/** DHCP packets octet by octet (RFC 2131, section 2; RFC 2132): the numbers of fields and options written out. */
module DhcpWire {
  import opened Bytes
  import opened Text
  import opened DhcpPacket
  import opened Wrappers

  // ---- what is written ----

  lemma {:induction false} TlvsAre(opts: seq<Opt>)
    requires ValidPieces(Tlvs(opts))
    ensures opts == [] ==> EncodePieces(Tlvs(opts)) == []
    ensures opts != [] ==>
              && ValidOpt(opts[0]) && ValidPieces(Tlvs(opts[1..]))
              && EncodePieces(Tlvs(opts)) == EncodeOpt(opts[0]) + EncodePieces(Tlvs(opts[1..]))
  {
    hide EncodeOpt, ValidOpt;
    if opts != [] {
      EncodeHead(Tlvs(opts));
      assert Tlvs(opts)[1..] == Tlvs(opts[1..]);
    }
  }

  // A code, the length four and an address or number, most significant octet first.
  function Four(code: byte, v: u32): (s: seq<byte>)
    ensures |s| == 6
  {
    [code, 4, v / 0x100_0000, v / 0x1_0000 % 0x100, v / 0x100 % 0x100, v % 0x100]
  }

  lemma FourIs(code: byte, v: u32)
    requires code != 0 && code != 255
    ensures EncodeOpt(Opt(code, Be32(v))) == Four(code, v)
  {
  }

  // The 240 octets in front of the options: operation, Ethernet with six octets, transaction, flags, addresses, cookie.
  function Front(op: byte, xid: Xid, broadcast: bool, yiaddr: u32, siaddr: u32, chaddr: Mac): (s: seq<byte>)
    ensures |s| == 240
  {
    [op, 1, 6, 0] + xid + [0, 0, if broadcast then 128 else 0, 0, 0, 0, 0, 0]
    + [yiaddr / 0x100_0000, yiaddr / 0x1_0000 % 0x100, yiaddr / 0x100 % 0x100, yiaddr % 0x100]
    + [siaddr / 0x100_0000, siaddr / 0x1_0000 % 0x100, siaddr / 0x100 % 0x100, siaddr % 0x100]
    + [0, 0, 0, 0] + chaddr + Zeros(202) + [99, 130, 83, 99]
  }

  lemma FrontIs(op: byte, xid: Xid, broadcast: bool, yiaddr: u32, siaddr: u32, chaddr: Mac)
    ensures Fixed(op, xid, if broadcast then 128 else 0, yiaddr, siaddr, chaddr)
         == Front(op, xid, broadcast, yiaddr, siaddr, chaddr)
  {
    var flags: byte := if broadcast then 128 else 0;
    assert Zeros(2) + [flags] + Zeros(5) == [0, 0, flags, 0, 0, 0, 0, 0];
    assert Zeros(4) == [0, 0, 0, 0];
    var head := [op, 1, 6, 0] + xid;
    Regroup(head, Zeros(2), [flags], Zeros(5));
  }

  lemma ReplyOptsAre(msgType: byte, server: Ipv4, mask: Ipv4, dns: Ipv4, lease: u32)
    ensures EncodePieces(Tlvs(ReplyOpts(msgType, server, mask, dns, lease)))
         == [53, 1, msgType] + (Four(54, server) + (Four(51, lease) + (Four(1, mask) + (Four(3, server) + (Four(6, dns) + [])))))
  {
    var opts := ReplyOpts(msgType, server, mask, dns, lease);
    assert opts == [Opt(53, [msgType]), Opt(54, Be32(server)), Opt(51, Be32(lease)),
                    Opt(1, Be32(mask)), Opt(3, Be32(server)), Opt(6, Be32(dns))];
    hide Be32, ReplyOpts, EncodePieces, Tlvs, Four;
    TlvsAre(opts);
    TlvsAre(opts[1..]);
    TlvsAre(opts[1..][1..]);
    TlvsAre(opts[1..][1..][1..]);
    TlvsAre(opts[1..][1..][1..][1..]);
    TlvsAre(opts[1..][1..][1..][1..][1..]);
    TlvsAre(opts[1..][1..][1..][1..][1..][1..]);
    FourIs(54, server);
    FourIs(51, lease);
    FourIs(1, mask);
    FourIs(3, server);
    FourIs(6, dns);
    assert EncodeOpt(opts[0]) == [53, 1, msgType];
  }

  /** A reply: operation 2, and type, server, lease time, mask, router and name server as options 53, 54, 51, 1, 3, 6. */
  lemma ReplyIsWire(req: Packet, msgType: byte, yiaddr: Ipv4, server: Ipv4, mask: Ipv4, dns: Ipv4, lease: u32)
    ensures Reply(req, msgType, yiaddr, server, mask, dns, lease)
         == Front(2, req.xid, false, yiaddr, server, req.chaddr)
            + ([53, 1, msgType] + (Four(54, server) + (Four(51, lease) + (Four(1, mask) + (Four(3, server) + (Four(6, dns) + []))))))
            + [255]
  {
    FrontIs(2, req.xid, false, yiaddr, server, req.chaddr);
    ReplyOptsAre(msgType, server, mask, dns, lease);
    hide Fixed, Front, ReplyOpts, EncodePieces, Four, Tlvs;
  }

  // An option that is there or not.
  function Maybe(code: byte, v: Option<u32>): seq<byte> { if v.Some? then Four(code, v.value) else [] }

  lemma ClientTail(codes: seq<byte>, opts: seq<Opt>)
    requires codes == [1, 3, 6] && opts == [Opt(55, codes)]
    ensures ValidPieces(Tlvs(opts)) && EncodePieces(Tlvs(opts)) == [55, 3, 1, 3, 6]
  {
    TlvsAre(opts);
    TlvsAre(opts[1..]);
  }

  lemma ClientOptsAre(msgType: byte, reqIp: Option<Ipv4>, server: Option<Ipv4>)
    ensures EncodePieces(Tlvs(ClientOpts(msgType, reqIp, server)))
         == [53, 1, msgType] + (Maybe(50, reqIp) + (Maybe(54, server) + [55, 3, 1, 3, 6]))
  {
    var last := [Opt(55, [1, 3, 6])];
    ClientTail([1, 3, 6], last);
    var third := (if server.Some? then [Opt(54, Be32(server.value))] else []) + last;
    var second := (if reqIp.Some? then [Opt(50, Be32(reqIp.value))] else []) + third;
    var opts := ClientOpts(msgType, reqIp, server);
    assert opts == [Opt(53, [msgType])] + second;
    hide ClientOpts, EncodePieces, Tlvs, Be32, Four;
    TlvsAre(opts);
    assert opts[1..] == second;
    assert EncodeOpt(opts[0]) == [53, 1, msgType];
    TlvsAre(second);
    if reqIp.Some? {
      assert second[1..] == third;
      FourIs(50, reqIp.value);
    } else {
      assert second == third;
    }
    TlvsAre(third);
    if server.Some? {
      assert third[1..] == last;
      FourIs(54, server.value);
    } else {
      assert third == last;
    }
  }

  /** A client's packet: operation 1, broadcast flag, type, wishes, and the list of options 1, 3 and 6 it asks for. */
  lemma ClientIsWire(xid: Xid, mac: Mac, msgType: byte, reqIp: Option<Ipv4>, server: Option<Ipv4>)
    ensures Client(xid, mac, msgType, reqIp, server)
         == Front(1, xid, true, 0, 0, mac)
            + ([53, 1, msgType] + (Maybe(50, reqIp) + (Maybe(54, server) + [55, 3, 1, 3, 6]))) + [255]
  {
    FrontIs(1, xid, true, 0, 0, mac);
    ClientOptsAre(msgType, reqIp, server);
    hide Fixed, Front, ClientOpts, EncodePieces, Four, Tlvs, Maybe;
  }

  /** Any reader of options finds all six of a reply, by number and in order, whatever follows in the buffer. */
  lemma ReplyOptionsAreRead(req: Packet, msgType: byte, yiaddr: Ipv4, server: Ipv4, mask: Ipv4, dns: Ipv4, lease: u32,
                            trailing: seq<byte>)
    ensures OptionsIn(Reply(req, msgType, yiaddr, server, mask, dns, lease) + trailing)
         == [Opt(53, [msgType]), Opt(54, Be32(server)), Opt(51, Be32(lease)),
             Opt(1, Be32(mask)), Opt(3, Be32(server)), Opt(6, Be32(dns))]
  {
    hide OptionsIn, Fixed, Be32;
    PackedOptions(Fixed(OP_REPLY, req.xid, 0, yiaddr, server, req.chaddr),
                  ReplyOpts(msgType, server, mask, dns, lease), trailing);
  }

  // ---- what is read ----

  // The value of the last option with a code.
  function LastOption(opts: seq<Opt>, code: byte): Option<seq<byte>> {
    if opts == [] then None
    else if opts[|opts| - 1].code == code then Some(opts[|opts| - 1].val)
    else LastOption(opts[..|opts| - 1], code)
  }

  lemma {:induction false} NotedSnoc(p: Packet, opts: seq<Opt>, o: Opt)
    ensures NotedAll(p, opts + [o]) == Noted(NotedAll(p, opts), o)
    decreases |opts|
  {
    hide Noted;
    if opts == [] {
      assert [] + [o] == [o] && [o][1..] == [];
    } else {
      assert (opts + [o])[1..] == opts[1..] + [o];
      NotedSnoc(Noted(p, opts[0]), opts[1..], o);
    }
  }

  function TypeIn(opts: seq<Opt>): byte {
    match LastOption(opts, 53)
    case Some(val) => if val == [] then 0 else val[0]
    case None => 0
  }

  function AddressOf(val: seq<byte>): Option<Ipv4> {
    if |val| < 4 then None
    else Some(0x100_0000 * val[0] as int + 0x1_0000 * val[1] as int + 0x100 * val[2] as int + val[3] as int)
  }

  function WishIn(opts: seq<Opt>): Option<Ipv4> {
    match LastOption(opts, 50)
    case Some(val) => AddressOf(val)
    case None => None
  }

  function NameIn(opts: seq<Opt>): Option<string> {
    match LastOption(opts, 12)
    case Some(val) => FromUtf8(val)
    case None => None
  }

  lemma AddressIs(val: seq<byte>)
    ensures AsIpv4(val) == AddressOf(val)
  {
  }

  lemma {:induction false} NotedIs(p: Packet, opts: seq<Opt>)
    requires p.msgType == 0 && p.reqIp == None && p.hostname == None
    ensures NotedAll(p, opts) == p.(msgType := TypeIn(opts), reqIp := WishIn(opts), hostname := NameIn(opts))
  {
    hide FromUtf8, AsIpv4, AddressOf;
    if opts != [] {
      var init, last := opts[..|opts| - 1], opts[|opts| - 1];
      assert init + [last] == opts;
      NotedIs(p, init);
      NotedSnoc(p, init, last);
      AddressIs(last.val);
      hide NotedAll;
    }
  }

  /**
   What is read from any octets: nothing without 240 of them or the cookie; otherwise the fields at their offsets, and
   type, wish and host name from the last options 53, 50 and 12.
   */
  lemma ParsedIs(buf: seq<byte>)
    ensures Parsed(buf) ==
            if |buf| < 240 || buf[236..240] != [99, 130, 83, 99] then None
            else
              var opts := OptionsOf(buf[240..]);
              Some(Packet(buf[0], buf[4..8], buf[28..34], AddressOf(buf[16..20]).value,
                          TypeIn(opts), WishIn(opts), NameIn(opts)))
  {
    hide OptionsOf, NotedAll, TypeIn, WishIn, NameIn;
    if HasHeader(buf) {
      AddressIs(buf[16..20]);
      NotedIs(Header(buf), OptionsIn(buf));
    }
  }

  /** An option whose value the packet cuts off is read as far as it goes, and is the last one. */
  lemma CutOffOption(code: byte, length: byte, val: seq<byte>)
    requires code != 0 && code != 255 && |val| <= length
    ensures OptionsOf([code, length] + val) == [Opt(code, val)]
    ensures OptionsOf([code]) == []
  {
    var s := [code, length] + val;
    WalkStep(s, 0);
    WalkStep([code], 0);
    EmptyArea([]);
    hide OptionsOf;
    assert s[0..] == s && [code][0..] == [code];
    assert s[2..|s|] == val && s[|s|..] == [];
    assert [Opt(code, val)] + [] == [Opt(code, val)];
  }
}
