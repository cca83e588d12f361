/** The address pool and the server loop of src/dhcp.rs, with the 32-bit arithmetic of a release build. */
module DhcpPool {
  import opened Bytes
  import opened DhcpPacket
  import opened Wrappers

  // What the configuration fixes.
  datatype Plan = Plan(start: u32, count: u32, mask: Ipv4, server: Ipv4, lease: u32)

  // The leases, the redundant index of the addresses in use, and the host names of their holders.
  datatype Leases = Leases(byMac: map<Mac, u32>, used: set<u32>, names: map<u32, string>)

  const NoLeases := Leases(map[], {}, map[])

  // ---- what lease_for grants ----

  function Nth(plan: Plan, off: nat): u32 { ToU32(plan.start as int + off) }

  predicate Asked(plan: Plan, v: u32) { plan.start <= v < ToU32(plan.start as int + plan.count as int) }

  function FirstFree(plan: Plan, used: set<u32>, off: nat): Option<u32>
    requires off <= plan.count
    decreases plan.count as int - off
  {
    if off == plan.count then None
    else if Nth(plan, off) !in used then Some(Nth(plan, off))
    else FirstFree(plan, used, off + 1)
  }

  function Granted(plan: Plan, l: Leases, mac: Mac, requested: Option<Ipv4>): Option<Ipv4> {
    if mac in l.byMac then Some(l.byMac[mac])
    else if requested.Some? && Asked(plan, requested.value) && requested.value !in l.used then requested
    else FirstFree(plan, l.used, 0)
  }

  function Assigned(l: Leases, mac: Mac, v: u32): Leases { l.(byMac := l.byMac[mac := v], used := l.used + {v}) }

  function Leased(plan: Plan, l: Leases, mac: Mac, requested: Option<Ipv4>): Leases {
    var ip := Granted(plan, l, mac, requested);
    if mac !in l.byMac && ip.Some? then Assigned(l, mac, ip.value) else l
  }

  function Named(l: Leases, ip: Option<Ipv4>, hostname: Option<string>): Leases {
    if ip.Some? && hostname.Some? then l.(names := l.names[ip.value := hostname.value]) else l
  }

  // ---- one datagram ----

  function Served(plan: Plan, l: Leases, datagram: seq<byte>): (Leases, Option<seq<byte>>) {
    var parsed := Parsed(datagram);
    if parsed == None || parsed.value.op != OP_REQUEST then (l, None)
    else
      var req := parsed.value;
      var ip := Granted(plan, l, req.chaddr, req.reqIp);
      if req.msgType == DISCOVER then
        (Named(Leased(plan, l, req.chaddr, req.reqIp), ip, req.hostname),
         if ip.Some? then Some(Reply(req, OFFER, ip.value, plan.server, plan.mask, plan.server, plan.lease)) else None)
      else if req.msgType == REQUEST then
        (Named(Leased(plan, l, req.chaddr, req.reqIp), ip, req.hostname),
         Some(if ip.Some? then Reply(req, ACK, ip.value, plan.server, plan.mask, plan.server, plan.lease)
              else Reply(req, NAK, 0, plan.server, plan.mask, plan.server, 0)))
      else (l, None)
  }

  class Pool {
    const plan: Plan
    var byMac: map<Mac, u32>
    var used: set<u32>
    var names: map<u32, string>

    function Now(): Leases
      reads this
    {
      Leases(byMac, used, names)
    }

    constructor (plan: Plan)
      ensures Now() == NoLeases && this.plan == plan
    {
      this.plan, byMac, used, names := plan, map[], {}, map[];
    }

    method Assign(mac: Mac, v: u32)
      modifies this
      ensures Now() == Assigned(old(Now()), mac, v)
    {
      byMac := byMac[mac := v];
      used := used + {v};
    }

    method LeaseFor(mac: Mac, requested: Option<Ipv4>) returns (ip: Option<Ipv4>)
      modifies this
      ensures ip == Granted(plan, old(Now()), mac, requested)
      ensures Now() == Leased(plan, old(Now()), mac, requested)
    {
      if mac in byMac {
        return Some(byMac[mac]);
      }
      if requested.Some? {
        var v := requested.value;
        if v >= plan.start && v < ToU32(plan.start as int + plan.count as int) && v !in used {
          Assign(mac, v);
          return requested;
        }
      }
      for off := 0 to plan.count
        invariant Now() == old(Now()) && FirstFree(plan, used, off) == FirstFree(plan, used, 0)
      {
        var v := ToU32(plan.start as int + off);
        if v !in used {
          Assign(mac, v);
          return Some(v);
        }
      }
      return None;
    }

    method Name(ip: Ipv4, hostname: Option<string>)
      modifies `names
      ensures Now() == Named(old(Now()), Some(ip), hostname)
    {
      if hostname.Some? {
        names := names[ip := hostname.value];
      }
    }

    /** One turn of the server loop. */
    method Serve(datagram: seq<byte>) returns (reply: Option<seq<byte>>)
      modifies this
      ensures (Now(), reply) == Served(plan, old(Now()), datagram)
    {
      hide Parsed, Reply, Granted, Leased;
      reply := None;
      var parsed := Parse(datagram);
      match parsed {
        case None =>
        case Some(req) =>
          if req.op == OP_REQUEST {
            if req.msgType == DISCOVER {
              var ip := LeaseFor(req.chaddr, req.reqIp);
              if ip.Some? {
                Name(ip.value, req.hostname);
                var b := BuildReply(req, OFFER, ip.value, plan.server, plan.mask, plan.server, plan.lease);
                reply := Some(b);
              }
            } else if req.msgType == REQUEST {
              HeldIsGranted(plan, Now(), req.chaddr, req.reqIp);
              var ip: Option<Ipv4>;
              if req.chaddr in byMac {
                ip := Some(byMac[req.chaddr]);
              } else {
                ip := LeaseFor(req.chaddr, req.reqIp);
              }
              if ip.Some? {
                Name(ip.value, req.hostname);
                var b := BuildReply(req, ACK, ip.value, plan.server, plan.mask, plan.server, plan.lease);
                reply := Some(b);
              } else {
                var b := BuildReply(req, NAK, 0, plan.server, plan.mask, plan.server, 0);
                reply := Some(b);
              }
            }
          }
      }
    }
  }

  lemma HeldIsGranted(plan: Plan, l: Leases, mac: Mac, requested: Option<Ipv4>)
    ensures mac in l.byMac ==> Granted(plan, l, mac, requested) == Some(l.byMac[mac]) && Leased(plan, l, mac, requested) == l
  {
  }

  // ---- the pool as a set of addresses ----

  // How far an address lies behind the start, going round after the last one.
  function Offset(plan: Plan, v: u32): nat { if v >= plan.start then v - plan.start else v + TWO32 - plan.start }

  predicate InPool(plan: Plan, v: u32) { Offset(plan, v) < plan.count }

  lemma NthOffset(plan: Plan, off: nat, v: u32)
    requires off < TWO32
    ensures Offset(plan, Nth(plan, off)) == off
    ensures v == Nth(plan, Offset(plan, v))
  {
  }

  function Addresses(plan: Plan, n: nat): set<u32> {
    if n == 0 then {} else Addresses(plan, n - 1) + {Nth(plan, n - 1)}
  }

  lemma {:induction false} AddressesByOffset(plan: Plan, n: nat, v: u32)
    requires n <= TWO32
    ensures v in Addresses(plan, n) <==> Offset(plan, v) < n
  {
    if n > 0 {
      AddressesByOffset(plan, n - 1, v);
      NthOffset(plan, n - 1, v);
      hide Nth, Offset;
    }
  }

  lemma {:induction false} AddressCount(plan: Plan, n: nat)
    requires n <= TWO32
    ensures |Addresses(plan, n)| == n
  {
    if n > 0 {
      AddressCount(plan, n - 1);
      AddressesByOffset(plan, n - 1, Nth(plan, n - 1));
      NthOffset(plan, n - 1, 0);
    }
  }

  /** The range the request is held against is the pool, unless the end of the pool wraps: then it is empty. */
  lemma AskedIff(plan: Plan, v: u32)
    ensures Asked(plan, v) <==> InPool(plan, v) && plan.start as int + plan.count as int < TWO32
  {
  }

  lemma {:induction false} FirstFreeIsLowest(plan: Plan, used: set<u32>, off: nat)
    requires off <= plan.count
    ensures var r := FirstFree(plan, used, off);
            && (r == None ==> forall k :: off <= k < plan.count ==> Nth(plan, k) in used)
            && (r.Some? ==> exists k :: off <= k < plan.count && r.value == Nth(plan, k) && r.value !in used
                                        && forall j :: off <= j < k ==> Nth(plan, j) in used)
    decreases plan.count as int - off
  {
    hide Nth;
    if off < plan.count {
      if Nth(plan, off) in used {
        FirstFreeIsLowest(plan, used, off + 1);
      }
    }
  }

  // ---- invariants ----

  predicate Injective(m: map<Mac, u32>) { forall a, b :: a in m && b in m && a != b ==> m[a] != m[b] }

  predicate Sound(plan: Plan, l: Leases) {
    && l.used == l.byMac.Values && Injective(l.byMac) && l.names.Keys <= l.used
    && forall mac :: mac in l.byMac ==> InPool(plan, l.byMac[mac])
  }

  // The range as the configuration states it.
  predicate InRange(plan: Plan, v: u32) { plan.start <= v < plan.start as int + plan.count as int }

  lemma GrantedIsFree(plan: Plan, l: Leases, mac: Mac, requested: Option<Ipv4>)
    requires mac !in l.byMac && Granted(plan, l, mac, requested).Some?
    ensures var v := Granted(plan, l, mac, requested).value; v !in l.used && InPool(plan, v)
  {
    var v := Granted(plan, l, mac, requested).value;
    if requested.Some? && Asked(plan, requested.value) && requested.value !in l.used {
      AskedIff(plan, v);
    } else {
      FirstFreeIsLowest(plan, l.used, 0);
      hide FirstFree, InPool;
      var k :| 0 <= k < plan.count && v == Nth(plan, k) && v !in l.used;
      NthOffset(plan, k, v);
      assert InPool(plan, v) by { InPoolIs(plan, v); }
    }
  }

  lemma InPoolIs(plan: Plan, v: u32)
    ensures InPool(plan, v) <==> Offset(plan, v) < plan.count
  {
  }

  lemma LeasedSound(plan: Plan, l: Leases, mac: Mac, requested: Option<Ipv4>)
    requires Sound(plan, l)
    ensures Sound(plan, Leased(plan, l, mac, requested))
    ensures forall m :: m in l.byMac ==> m in Leased(plan, l, mac, requested).byMac
                                         && Leased(plan, l, mac, requested).byMac[m] == l.byMac[m]
  {
    if mac !in l.byMac && Granted(plan, l, mac, requested).Some? {
      GrantedIsFree(plan, l, mac, requested);
      hide InPool;
      var v := Granted(plan, l, mac, requested).value;
      var after := l.byMac[mac := v];
      hide Granted;
      assert after[mac] == v;
      assert after.Values == l.byMac.Values + {v} by {
        assert forall m :: m in l.byMac ==> after[m] == l.byMac[m];
      }
    }
  }

  // ---- refusal ----

  lemma OneValueMore(m: map<Mac, u32>, a: Mac)
    requires Injective(m) && a in m
    ensures Injective(m - {a}) && m[a] !in (m - {a}).Values && m.Values == (m - {a}).Values + {m[a]}
  {
    var rest := m - {a};
    assert forall b :: b in rest ==> b in m && rest[b] == m[b];
    assert forall b :: b in m ==> b == a || b in rest;
  }

  lemma {:induction false} ValuesOfInjective(m: map<Mac, u32>)
    requires Injective(m)
    ensures |m.Values| == |m|
    decreases |m|
  {
    hide Injective;
    if m != map[] {
      var a :| a in m;
      var rest := m - {a};
      OneValueMore(m, a);
      assert |m| == |rest| + 1 by {
        assert m.Keys == rest.Keys + {a};
        assert |m.Keys| == |m| && |rest.Keys| == |rest|;
      }
      ValuesOfInjective(rest);
    }
  }

  lemma SubsetOfSameSize(a: set<u32>, b: set<u32>)
    requires a <= b && |a| == |b|
    ensures a == b
  {
    if v :| v in b && v !in a {
      assert a <= b - {v};
      SubsetSize(a, b - {v});
    }
  }

  lemma {:induction false} SubsetSize(a: set<u32>, b: set<u32>)
    requires a <= b
    ensures |a| <= |b|
  {
    if a != {} {
      var v :| v in a;
      SubsetSize(a - {v}, b - {v});
    }
  }

  lemma UsedWithinPool(plan: Plan, l: Leases)
    requires Sound(plan, l)
    ensures l.used <= Addresses(plan, plan.count) && |l.used| == |l.byMac| && |Addresses(plan, plan.count)| == plan.count
  {
    ValuesOfInjective(l.byMac);
    AddressCount(plan, plan.count);
    forall v | v in l.used
      ensures v in Addresses(plan, plan.count)
    {
      AddressesByOffset(plan, plan.count, v);
    }
  }

  /** An unknown client is refused exactly when every address is held, that is, by as many clients as addresses. */
  lemma RefusedIffFull(plan: Plan, l: Leases, mac: Mac, requested: Option<Ipv4>)
    requires Sound(plan, l) && mac !in l.byMac
    ensures Granted(plan, l, mac, requested) == None <==> Addresses(plan, plan.count) <= l.used
    ensures Granted(plan, l, mac, requested) == None <==> |l.byMac| == plan.count
  {
    UsedWithinPool(plan, l);
    var all := Addresses(plan, plan.count);
    if all <= l.used {
      if Granted(plan, l, mac, requested).Some? {
        GrantedIsFree(plan, l, mac, requested);
        AddressesByOffset(plan, plan.count, Granted(plan, l, mac, requested).value);
      }
      assert all == l.used;
    } else {
      var v :| v in all && v !in l.used;
      AddressesByOffset(plan, plan.count, v);
      NthOffset(plan, Offset(plan, v), v);
      FirstFreeIsLowest(plan, l.used, 0);
      if |l.used| == |all| {
        SubsetOfSameSize(l.used, all);
      }
    }
  }

  /** A free address of the pool is granted as asked, unless the end of the pool wraps; failing that, the lowest free. */
  lemma WhatIsGranted(plan: Plan, l: Leases, mac: Mac, requested: Option<Ipv4>)
    requires mac !in l.byMac && Granted(plan, l, mac, requested).Some?
    ensures var v := Granted(plan, l, mac, requested).value;
            if requested.Some? && InPool(plan, requested.value) && requested.value !in l.used
               && plan.start as int + plan.count as int < TWO32
            then v == requested.value
            else v !in l.used && Offset(plan, v) < plan.count
                 && forall w: u32 :: Offset(plan, w) < Offset(plan, v) ==> w in l.used
  {
    if requested.Some? {
      AskedIff(plan, requested.value);
    }
    if !(requested.Some? && Asked(plan, requested.value) && requested.value !in l.used) {
      FirstFreeIsLowest(plan, l.used, 0);
      var v := Granted(plan, l, mac, requested).value;
      hide FirstFree, InPool, Granted, Asked;
      var k :| 0 <= k < plan.count && v == Nth(plan, k) && v !in l.used
               && forall j :: 0 <= j < k ==> Nth(plan, j) in l.used;
      NthOffset(plan, k, v);
      forall w: u32 | Offset(plan, w) < Offset(plan, v)
        ensures w in l.used
      {
        NthOffset(plan, Offset(plan, w), w);
      }
    }
  }
}
