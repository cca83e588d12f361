/** The DHCP server over every sequence of datagrams, and the exchange of a client with it. */
module DhcpRuns {
  import opened Bytes
  import opened DhcpPacket
  import opened DhcpPool
  import opened DhcpWire
  import opened Wrappers

  function RunFrom(plan: Plan, l: Leases, datagrams: seq<seq<byte>>): Leases
    decreases |datagrams|
  {
    if datagrams == [] then l else RunFrom(plan, Served(plan, l, datagrams[0]).0, datagrams[1..])
  }

  lemma {:induction false} RunConcat(plan: Plan, l: Leases, a: seq<seq<byte>>, b: seq<seq<byte>>)
    ensures RunFrom(plan, l, a + b) == RunFrom(plan, RunFrom(plan, l, a), b)
    decreases |a|
  {
    hide Served;
    if a == [] {
      assert a + b == b;
    } else {
      assert (a + b)[1..] == a[1..] + b;
      RunConcat(plan, Served(plan, l, a[0]).0, a[1..], b);
    }
  }

  predicate Keeps(before: Leases, after: Leases) {
    forall m :: m in before.byMac ==> m in after.byMac && after.byMac[m] == before.byMac[m]
  }

  // The address granted is held, so it may be named.
  lemma NamedSound(plan: Plan, l: Leases, mac: Mac, requested: Option<Ipv4>, hostname: Option<string>)
    requires Sound(plan, Leased(plan, l, mac, requested))
    ensures Sound(plan, Named(Leased(plan, l, mac, requested), Granted(plan, l, mac, requested), hostname))
  {
    hide InPool, Granted;
    var ip, after := Granted(plan, l, mac, requested), Leased(plan, l, mac, requested);
    if ip.Some? {
      HeldIsGranted(plan, l, mac, requested);
      assert mac in after.byMac && after.byMac[mac] == ip.value;
    }
  }

  lemma ServedSound(plan: Plan, l: Leases, datagram: seq<byte>)
    requires Sound(plan, l)
    ensures Sound(plan, Served(plan, l, datagram).0) && Keeps(l, Served(plan, l, datagram).0)
  {
    hide Parsed, Reply, Granted, Leased, Sound;
    if Parsed(datagram).Some? {
      var req := Parsed(datagram).value;
      LeasedSound(plan, l, req.chaddr, req.reqIp);
      NamedSound(plan, l, req.chaddr, req.reqIp, req.hostname);
    }
  }

  /**
   Lease safety over every run: no two clients hold the same address, the index is exactly the addresses held,
   every address lies in the pool, only leased addresses have names, and a client's address never changes.
   */
  lemma {:induction false} RunSound(plan: Plan, l: Leases, datagrams: seq<seq<byte>>)
    requires Sound(plan, l)
    ensures Sound(plan, RunFrom(plan, l, datagrams)) && Keeps(l, RunFrom(plan, l, datagrams))
    decreases |datagrams|
  {
    hide Served, Sound;
    if datagrams != [] {
      ServedSound(plan, l, datagrams[0]);
      RunSound(plan, Served(plan, l, datagrams[0]).0, datagrams[1..]);
    }
  }

  // ---- the configured range ----

  predicate AllInRange(plan: Plan, l: Leases) { forall mac :: mac in l.byMac ==> InRange(plan, l.byMac[mac]) }

  function MacOf(i: u32): Mac { [0, 0] + Be32(i) }

  function Discovers(n: nat): seq<seq<byte>>
    requires n <= TWO32
  {
    if n == 0 then [] else Discovers(n - 1) + [Client([0, 0, 0, 0], MacOf(n - 1), DISCOVER, None, None)]
  }

  lemma MacInjective(i: u32, j: u32)
    requires MacOf(i) == MacOf(j)
    ensures i == j
  {
    assert MacOf(i)[2..] == Be32(i) && MacOf(j)[2..] == Be32(j);
    BigEndian(i);
    BigEndian(j);
  }

  // What one DISCOVER of a client with no wishes does.
  lemma DiscoverServed(plan: Plan, l: Leases, mac: Mac, reqIp: Option<Ipv4>, server: Option<Ipv4>, xid: Xid)
    ensures var (after, reply) := Served(plan, l, Client(xid, mac, DISCOVER, reqIp, server));
            var req := Packet(OP_REQUEST, xid, mac, 0, DISCOVER, reqIp, None);
            var ip := Granted(plan, l, mac, reqIp);
            && after == Leased(plan, l, mac, reqIp)
            && reply == if ip.Some? then Some(Reply(req, OFFER, ip.value, plan.server, plan.mask, plan.server, plan.lease)) else None
  {
    hide Parsed, Client, Reply, Granted, Leased;
    var buf := Client(xid, mac, DISCOVER, reqIp, server);
    assert buf + [] == buf;
    ClientRoundTrip(xid, mac, DISCOVER, reqIp, server, []);
  }

  lemma {:induction false} FreeAfter(plan: Plan, used: set<u32>, from: nat, n: nat)
    requires from <= n < plan.count && used == Addresses(plan, n)
    ensures FirstFree(plan, used, from) == Some(Nth(plan, n))
    decreases n - from
  {
    AddressesByOffset(plan, n, Nth(plan, from));
    NthOffset(plan, from, 0);
    if from < n {
      FreeAfter(plan, used, from + 1, n);
    }
  }

  // Clients without wishes are given the addresses in order.
  lemma {:induction false} FilledInOrder(plan: Plan, n: nat)
    requires n <= plan.count
    ensures var l := RunFrom(plan, NoLeases, Discovers(n));
            && l.used == Addresses(plan, n)
            && (forall mac :: mac in l.byMac ==> exists i :: 0 <= i < n && mac == MacOf(i))
            && (forall i :: 0 <= i < n ==> MacOf(i) in l.byMac && l.byMac[MacOf(i)] == Nth(plan, i))
  {
    hide Served, Client, MacOf, Nth;
    if n > 0 {
      var mac := MacOf(n - 1);
      var last := Client([0, 0, 0, 0], mac, DISCOVER, None, None);
      var l := RunFrom(plan, NoLeases, Discovers(n - 1));
      FilledInOrder(plan, n - 1);
      RunConcat(plan, NoLeases, Discovers(n - 1), [last]);
      OneDatagram(plan, l, last);
      DiscoverServed(plan, l, mac, None, None, [0, 0, 0, 0]);
      if mac in l.byMac {
        var i :| 0 <= i < n - 1 && mac == MacOf(i);
        MacInjective(i, n - 1);
      }
      FreeAfter(plan, l.used, 0, n - 1);
      hide RunFrom, Discovers, FirstFree;
    }
  }

  lemma OneDatagram(plan: Plan, l: Leases, datagram: seq<byte>)
    ensures RunFrom(plan, l, [datagram]) == Served(plan, l, datagram).0
  {
    hide Served;
    assert [datagram][1..] == [];
  }

  lemma InRangeWithoutWrap(plan: Plan, l: Leases)
    requires Sound(plan, l) && plan.start as int + plan.count as int <= TWO32
    ensures AllInRange(plan, l)
  {
  }

  /** Every address ever leased lies in [start, start + count) exactly when that range fits 32 bits. */
  lemma InRangeIff(plan: Plan)
    ensures (forall datagrams :: AllInRange(plan, RunFrom(plan, NoLeases, datagrams)))
            <==> plan.start as int + plan.count as int <= TWO32
  {
    if plan.start as int + plan.count as int <= TWO32 {
      forall datagrams
        ensures AllInRange(plan, RunFrom(plan, NoLeases, datagrams))
      {
        RunSound(plan, NoLeases, datagrams);
        InRangeWithoutWrap(plan, RunFrom(plan, NoLeases, datagrams));
      }
    } else {
      var n := TWO32 - plan.start;
      FilledInOrder(plan, n + 1);
      hide RunFrom, Discovers;
      assert Nth(plan, n) == 0;
      assert !InRange(plan, 0);
      assert !AllInRange(plan, RunFrom(plan, NoLeases, Discovers(n + 1)));
    }
  }

  // ---- host names ----

  predicate Accepted(datagram: seq<byte>, mac: Mac) {
    && Parsed(datagram).Some? && Parsed(datagram).value.op == OP_REQUEST && Parsed(datagram).value.chaddr == mac
    && Parsed(datagram).value.msgType in {DISCOVER, REQUEST}
  }

  // The last host name a client told.
  function LastName(datagrams: seq<seq<byte>>, mac: Mac): Option<string> {
    if datagrams == [] then None
    else
      var last := datagrams[|datagrams| - 1];
      if Accepted(last, mac) && Parsed(last).value.hostname.Some? then Parsed(last).value.hostname
      else LastName(datagrams[..|datagrams| - 1], mac)
  }

  function NameAt(l: Leases, v: u32): Option<string> { if v in l.names then Some(l.names[v]) else None }

  // Every holder goes by its last name; a client without a lease told none, or was refused by a full pool.
  ghost predicate NamesFollow(plan: Plan, l: Leases, datagrams: seq<seq<byte>>) {
    && (forall mac :: mac in l.byMac ==> NameAt(l, l.byMac[mac]) == LastName(datagrams, mac))
    && (forall mac :: mac !in l.byMac ==> LastName(datagrams, mac) == None || |l.byMac| == plan.count)
  }

  // One more datagram, in which this client tells at most this name.
  ghost predicate Tells(more: seq<seq<byte>>, datagrams: seq<seq<byte>>, mac: Mac, hostname: Option<string>) {
    forall m: Mac :: LastName(more, m) == if m == mac && hostname.Some? then hostname else LastName(datagrams, m)
  }

  lemma HolderFollows(plan: Plan, l: Leases, datagrams: seq<seq<byte>>, more: seq<seq<byte>>, mac: Mac,
                      hostname: Option<string>)
    requires Injective(l.byMac) && NamesFollow(plan, l, datagrams) && mac in l.byMac
    requires Tells(more, datagrams, mac, hostname)
    ensures NamesFollow(plan, Named(l, Some(l.byMac[mac]), hostname), more)
  {
    hide LastName;
  }

  // A name given to a new address leaves those of the others.
  lemma OtherNamesStay(plan: Plan, l: Leases, mac: Mac, v: u32, hostname: Option<string>, m: Mac)
    requires Sound(plan, l) && v !in l.used && m in l.byMac
    ensures NameAt(Named(Assigned(l, mac, v), Some(v), hostname), l.byMac[m]) == NameAt(l, l.byMac[m])
  {
    hide InPool, Injective;
    assert l.byMac[m] in l.byMac.Values;
  }

  lemma NewNameIs(plan: Plan, l: Leases, mac: Mac, v: u32, hostname: Option<string>)
    requires Sound(plan, l) && v !in l.used
    ensures NameAt(Named(Assigned(l, mac, v), Some(v), hostname), v) == hostname
  {
    hide InPool, Injective;
  }

  lemma NewcomerFollows(plan: Plan, l: Leases, datagrams: seq<seq<byte>>, more: seq<seq<byte>>, mac: Mac, v: u32,
                        hostname: Option<string>)
    requires Sound(plan, l) && NamesFollow(plan, l, datagrams) && mac !in l.byMac && v !in l.used
    requires |l.byMac| < plan.count && Tells(more, datagrams, mac, hostname)
    ensures NamesFollow(plan, Named(Assigned(l, mac, v), Some(v), hostname), more)
  {
    hide LastName, Sound, NameAt;
    var after := Named(Assigned(l, mac, v), Some(v), hostname);
    assert after.byMac == l.byMac[mac := v];
    NewNameIs(plan, l, mac, v, hostname);
    forall m | m in after.byMac
      ensures NameAt(after, after.byMac[m]) == LastName(more, m)
    {
      if m != mac {
        OtherNamesStay(plan, l, mac, v, hostname, m);
      }
    }
  }

  lemma LeaseFollows(plan: Plan, l: Leases, datagrams: seq<seq<byte>>, more: seq<seq<byte>>, mac: Mac,
                     requested: Option<Ipv4>, hostname: Option<string>)
    requires Sound(plan, l) && NamesFollow(plan, l, datagrams) && Tells(more, datagrams, mac, hostname)
    ensures NamesFollow(plan, Named(Leased(plan, l, mac, requested), Granted(plan, l, mac, requested), hostname), more)
  {
    hide InPool, LastName, FirstFree;
    if mac in l.byMac {
      HolderFollows(plan, l, datagrams, more, mac, hostname);
    } else {
      RefusedIffFull(plan, l, mac, requested);
      hide Granted;
      if Granted(plan, l, mac, requested).Some? {
        GrantedIsFree(plan, l, mac, requested);
        HoldersFit(plan, l);
        NewcomerFollows(plan, l, datagrams, more, mac, Granted(plan, l, mac, requested).value, hostname);
      }
    }
  }

  lemma HoldersFit(plan: Plan, l: Leases)
    requires Sound(plan, l)
    ensures |l.byMac| <= plan.count
  {
    UsedWithinPool(plan, l);
    SubsetSize(l.used, Addresses(plan, plan.count));
  }

  lemma ServedFollows(plan: Plan, l: Leases, datagrams: seq<seq<byte>>, datagram: seq<byte>)
    requires Sound(plan, l) && NamesFollow(plan, l, datagrams)
    ensures NamesFollow(plan, Served(plan, l, datagram).0, datagrams + [datagram])
  {
    var more := datagrams + [datagram];
    assert more[..|datagrams|] == datagrams;
    assert forall mac: Mac ::
        LastName(more, mac) == if Accepted(datagram, mac) && Parsed(datagram).value.hostname.Some?
                               then Parsed(datagram).value.hostname else LastName(datagrams, mac);
    hide Parsed, Reply, Granted, Leased, Sound, LastName;
    if Parsed(datagram).Some? && Accepted(datagram, Parsed(datagram).value.chaddr) {
      var req := Parsed(datagram).value;
      LeaseFollows(plan, l, datagrams, more, req.chaddr, req.reqIp, req.hostname);
    }
  }

  lemma {:induction false} RunFollows(plan: Plan, datagrams: seq<seq<byte>>)
    ensures NamesFollow(plan, RunFrom(plan, NoLeases, datagrams), datagrams)
  {
    hide Served, NamesFollow;
    if datagrams == [] {
      assert NamesFollow(plan, NoLeases, []) by { NobodyIsNamed(plan); }
    } else {
      var init, last := datagrams[..|datagrams| - 1], datagrams[|datagrams| - 1];
      assert init + [last] == datagrams;
      RunFollows(plan, init);
      RunSound(plan, NoLeases, init);
      RunConcat(plan, NoLeases, init, [last]);
      OneDatagram(plan, RunFrom(plan, NoLeases, init), last);
      ServedFollows(plan, RunFrom(plan, NoLeases, init), init, last);
    }
  }

  lemma NobodyIsNamed(plan: Plan)
    ensures NamesFollow(plan, NoLeases, [])
  {
  }

  /**
   Whatever the datagrams, the name kept for a leased address is the last host name its holder told, and an
   address whose holder told none has no name.
   */
  lemma NamesAreTheHolders(plan: Plan, datagrams: seq<seq<byte>>)
    ensures var l := RunFrom(plan, NoLeases, datagrams);
            forall mac :: mac in l.byMac ==> NameAt(l, l.byMac[mac]) == LastName(datagrams, mac)
  {
    hide RunFrom, LastName, NameAt;
    RunFollows(plan, datagrams);
  }

  // ---- a client and the server ----

  lemma RequestServed(plan: Plan, l: Leases, mac: Mac, reqIp: Option<Ipv4>, server: Option<Ipv4>, xid: Xid)
    ensures var (after, reply) := Served(plan, l, Client(xid, mac, REQUEST, reqIp, server));
            var req := Packet(OP_REQUEST, xid, mac, 0, REQUEST, reqIp, None);
            var ip := Granted(plan, l, mac, reqIp);
            && after == Leased(plan, l, mac, reqIp)
            && reply == Some(if ip.Some? then Reply(req, ACK, ip.value, plan.server, plan.mask, plan.server, plan.lease)
                             else Reply(req, NAK, 0, plan.server, plan.mask, plan.server, 0))
  {
    hide Parsed, Client, Reply, Granted, Leased;
    var buf := Client(xid, mac, REQUEST, reqIp, server);
    assert buf + [] == buf;
    ClientRoundTrip(xid, mac, REQUEST, reqIp, server, []);
  }

  /** Datagrams that are no DISCOVER (1) or REQUEST (3) of a client (operation 1) change nothing and get no reply. */
  lemma OthersAreIgnored(plan: Plan, l: Leases, datagram: seq<byte>)
    requires var p := Parsed(datagram); p == None || p.value.op != 1 || p.value.msgType !in {1, 3}
    ensures Served(plan, l, datagram) == (l, None)
  {
    hide Parsed, Reply, Granted, Leased;
  }

  /**
   A REQUEST (3) is answered by a NAK (6) without an address exactly when the client is unknown and all addresses are
   held, and otherwise by an ACK (5) of the address granted.
   */
  lemma NakIffFull(plan: Plan, l: Leases, mac: Mac, reqIp: Option<Ipv4>, server: Option<Ipv4>, xid: Xid)
    requires Sound(plan, l)
    ensures var reply := Served(plan, l, Client(xid, mac, 3, reqIp, server)).1;
            var full := mac !in l.byMac && |l.byMac| == plan.count;
            && reply.Some? && (full <==> Granted(plan, l, mac, reqIp) == None)
            && Parsed(reply.value) == Some(if full then Packet(2, xid, mac, 0, 6, None, None)
                                           else Packet(2, xid, mac, Granted(plan, l, mac, reqIp).value, 5, None, None))
  {
    hide Parsed, Client, Reply, Leased, Served, Sound;
    RequestServed(plan, l, mac, reqIp, server, xid);
    var req := Packet(OP_REQUEST, xid, mac, 0, REQUEST, reqIp, None);
    var ip := Granted(plan, l, mac, reqIp);
    if mac !in l.byMac {
      RefusedIffFull(plan, l, mac, reqIp);
    }
    var nak := Reply(req, NAK, 0, plan.server, plan.mask, plan.server, 0);
    assert nak + [] == nak;
    ReplyRoundTrip(req, NAK, 0, plan.server, plan.mask, plan.server, 0, []);
    if ip.Some? {
      var ack := Reply(req, ACK, ip.value, plan.server, plan.mask, plan.server, plan.lease);
      assert ack + [] == ack;
      ReplyRoundTrip(req, ACK, ip.value, plan.server, plan.mask, plan.server, plan.lease, []);
    }
  }

  // What the client knows once its REQUEST has been acknowledged.
  predicate Configured(plan: Plan, ack: seq<byte>, xid: Xid, ip: Ipv4) {
    && Parsed(ack).Some? && Parsed(ack).value.yiaddr == ip
    && AckParsed(ack, xid) == Some(Settings(plan.mask, Some(plan.server), Some(plan.server)))
    && OptionsIn(ack) == [Opt(53, [5]), Opt(54, Be32(plan.server)), Opt(51, Be32(plan.lease)),
                          Opt(1, Be32(plan.mask)), Opt(3, Be32(plan.server)), Opt(6, Be32(plan.server))]
  }

  lemma AckConfigures(plan: Plan, req: Packet, ip: Ipv4)
    ensures Configured(plan, Reply(req, ACK, ip, plan.server, plan.mask, plan.server, plan.lease), req.xid, ip)
  {
    hide Parsed, AckParsed, Reply, OptionsIn, Be32;
    var ack := Reply(req, ACK, ip, plan.server, plan.mask, plan.server, plan.lease);
    assert ack + [] == ack;
    ReplyRoundTrip(req, ACK, ip, plan.server, plan.mask, plan.server, plan.lease, []);
    AckRecoversSettings(req, ACK, ip, plan.server, plan.mask, plan.server, plan.lease, [], req.xid);
    ReplyOptionsAreRead(req, ACK, ip, plan.server, plan.mask, plan.server, plan.lease, []);
  }

  /**
   The exchange of a client with the server: DISCOVER (1) is answered by an OFFER (2) of the client's transaction, and
   whatever the server is sent in between, the REQUEST (3) of the offered address is acknowledged (5) with that address
   and the configured settings and lease time.
   */
  lemma ExchangeCompletes(plan: Plan, l: Leases, between: seq<seq<byte>>, mac: Mac, xid: Xid)
    requires Sound(plan, l) && (mac in l.byMac || |l.byMac| < plan.count)
    ensures var (l1, offer) := Served(plan, l, Client(xid, mac, 1, None, None));
            && offer.Some? && mac in l1.byMac
            && Parsed(offer.value) == Some(Packet(2, xid, mac, l1.byMac[mac], 2, None, None))
            && var ip := l1.byMac[mac];
               var (l3, ack) := Served(plan, RunFrom(plan, l1, between), Client(xid, mac, 3, Some(ip), Some(ip)));
               ack.Some? && Configured(plan, ack.value, xid, ip) && mac in l3.byMac && l3.byMac[mac] == ip
  {
    hide Parsed, Client, Reply, Served, Sound, RunFrom, Configured;
    DiscoverServed(plan, l, mac, None, None, xid);
    if mac !in l.byMac {
      RefusedIffFull(plan, l, mac, None);
    }
    LeasedSound(plan, l, mac, None);
    var l1 := Leased(plan, l, mac, None);
    assert Granted(plan, l, mac, None).Some? && mac in l1.byMac && Granted(plan, l, mac, None) == Some(l1.byMac[mac]);
    hide Leased, Granted;
    var ip := l1.byMac[mac];
    var discover := Packet(OP_REQUEST, xid, mac, 0, DISCOVER, None, None);
    var offer := Reply(discover, OFFER, ip, plan.server, plan.mask, plan.server, plan.lease);
    assert offer + [] == offer;
    ReplyRoundTrip(discover, OFFER, ip, plan.server, plan.mask, plan.server, plan.lease, []);
    RunSound(plan, l1, between);
    var l2 := RunFrom(plan, l1, between);
    RequestServed(plan, l2, mac, Some(ip), Some(ip), xid);
    HeldIsGranted(plan, l2, mac, Some(ip));
    AckConfigures(plan, Packet(OP_REQUEST, xid, mac, 0, REQUEST, Some(ip), None), ip);
  }
}
