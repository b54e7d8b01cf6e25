/** What a router's forwarding comes to, told by prefix bits, table entries and bytes (layer3/router.c). */
module RouterSending {
  import opened Base
  import opened PendingQueue
  import opened PendingTrace
  import opened RouterArp
  import opened AddressBits
  import opened RouterRun
  import Ipv4Wire
  import IcmpWire

  // ---------------------------------------------------------------- routes

  /** Does the route cover the address? Its leading bits are those of the destination of the route. */
  ghost predicate Covers(r: Route, dst: Ip) {
    Agree(dst, r.dest, if r.prefix >= 32 then 32 else r.prefix)
  }

  /** Route i covers the address, comes before all others that do and are as long, and no longer one does. */
  ghost predicate BestAt(routes: seq<Route>, dst: Ip, i: nat) {
    && i < |routes| && Covers(routes[i], dst)
    && forall j :: 0 <= j < |routes| && Covers(routes[j], dst) ==>
         routes[j].prefix < routes[i].prefix || (routes[j].prefix == routes[i].prefix && i <= j)
  }

  /** None is found exactly if none covers the address; the one found is the best. */
  lemma {:induction false} RouteByBits(routes: seq<Route>, dst: Ip)
    ensures Lookup(routes, dst).None? <==> forall r :: r in routes ==> !Covers(r, dst)
    ensures Lookup(routes, dst).Some? ==>
              exists i: nat :: BestAt(routes, dst, i) && Lookup(routes, dst).value == routes[i]
  {
    hide SameNetwork, Covers, Matches;
    if |routes| > 0 {
      var n := |routes| - 1;
      var rest := routes[..n];
      RouteByBits(rest, dst);
      CoversIsMatches(routes[n], dst);
      assert routes == rest + [routes[n]];
      if Lookup(rest, dst).Some? {
        var i: nat :| BestAt(rest, dst, i) && Lookup(rest, dst).value == rest[i];
        var best := if Covers(routes[n], dst) && routes[n].prefix > rest[i].prefix then n else i;
        assert BestAt(routes, dst, best);
      } else if Covers(routes[n], dst) {
        assert forall j :: 0 <= j < n ==> rest[j] in rest;
        assert BestAt(routes, dst, n);
      }
    }
  }

  lemma CoversIsMatches(r: Route, dst: Ip)
    ensures Covers(r, dst) <==> Matches(r, dst)
  {
    SameNetworkByBits(dst, r.dest, r.prefix);
  }

  // ---------------------------------------------------------------- the first thing that happens

  /** Whom a packet is handed to: the gateway of its route, or its destination if the route names none. */
  function HandTo(r: Route, dst: Ip): Ip {
    if r.hop == Ip(0, 0, 0, 0) then dst else r.hop
  }

  /** A packet without a route, for no port of the router, or for whom there is no more room, changes nothing.
      Any other goes out at once if the ARP table knows whom to hand it to, unless it is too long; otherwise
      it waits, and if nothing waited for that address before and the port has an address, it is asked for. */
  lemma ForwardsExactly(c: Config, s: Router, p: Ipv4Wire.Packet)
    requires Coherent(s.queue)
    ensures var route, r := Lookup(c.routes, p.dst), SendIpv4(c, s, p).1;
            if route.None? || !(1 <= route.value.port <= |c.ports|) then r == s && !SendIpv4(c, s, p).0 else
            var port, to := route.value.port, HandTo(route.value, p.dst);
            if to in s.arp then
              && SendIpv4(c, s, p).0 == (|p.payload| <= 1500 - 20)
              && r == s.(trace := r.trace)
              && (|p.payload| > 1500 - 20 ==> r.trace == s.trace)
              && (|p.payload| <= 1500 - 20 ==>
                    r.trace == s.trace + [Direct(to, s.arp[to].mac, Out(p, port, VlanOut(s, to, port)))])
            else if |s.queue| >= 128 then r == s && !SendIpv4(c, s, p).0
            else
              var queued := s.trace + [Queued(to, Out(p, port, VlanOut(s, to, port)))];
              if exists w :: w in s.queue && w.ip == to then r.trace == queued && SendIpv4(c, s, p).0
              else if c.ports[port - 1].None? || c.ports[port - 1] == Some(Ip(0, 0, 0, 0)) then
                r.trace == queued && !SendIpv4(c, s, p).0
              else queued + [Requested(to)] <= r.trace && SendIpv4(c, s, p).0
  {
    hide Coherent, Eligibles, Remaining, AnswersFrom, Lookup, Requesting, Waiting, IndexFor;
    var route := Lookup(c.routes, p.dst);
    if route.Some? && IsPort(c, route.value.port) {
      var port, to := route.value.port, HandTo(route.value, p.dst);
      var out := Out(p, port, VlanFor(s.arp, s.vlans, to, port));
      assert SendIpv4(c, s, p) == SendToNextHop(c, s, p, to, port);
      if to !in s.arp && |s.queue| < QUEUE_MAX {
        AppendedStep(c, s, out, to);
        AppendLogs(c, s, out, to);
        if IndexFor(s.queue, to) == |s.queue| {
          RequestExtends(c, Appended(c, s, out, to), to, port, Now(c, s));
        }
      }
    }
  }

  /** The VLAN tag: the one the host was learned on, if any, else the one last seen on the port. */
  function VlanOut(s: Router, to: Ip, port: int): int {
    if to in s.arp && s.arp[to].vlan > 0 then s.arp[to].vlan
    else if 1 <= port <= |s.vlans| then s.vlans[port - 1]
    else 0
  }

  lemma RequestExtends(c: Config, s: Router, hop: Ip, port: int, now: real)
    requires Coherent(s.queue) && IndexFor(s.queue, hop) < |s.queue|
    ensures s.trace + [Requested(hop)] <= Requesting(c, s, hop, port, now).trace
  {
    hide Coherent, Eligibles, Remaining, AnswersFrom, IndexFor, Heard, AwaitReply;
    var heard := Heard(c, Log(s, Requested(hop)), hop, port);
    assert Requesting(c, s, hop, port, now) == AwaitReply(c, heard, hop, now);
  }

  // ---------------------------------------------------------------- the error for a packet given up

  /** An error is made exactly if a route covers the source and leaves by a port with an address; it is that
      address that sends it, and it carries type 3, code 1, zeros, and the first 28 bytes of the packet. */
  lemma ErrorExactly(c: Config, original: Ipv4Wire.Packet)
    ensures var route, error := Lookup(c.routes, original.src), ErrorFor(c, original);
            && (error.Some? <==> route.Some? && IsPort(c, route.value.port) && c.ports[route.value.port - 1].Some?
                                 && c.ports[route.value.port - 1].value != Ip(0, 0, 0, 0))
            && (error.Some? ==>
                  var e := error.value;
                  && Some(e.src) == c.ports[route.value.port - 1] && e.dst == original.src
                  && e.ttl == 64 && e.protocol == 1 && |e.payload| >= 8
                  && e.payload[..2] == [3, 1] && e.payload[4..8] == [0, 0, 0, 0]
                  && (|original.payload| <= 1480 && |Ipv4Wire.Encode(original)| >= 28 ==>
                        e.payload[8..] == Ipv4Wire.Encode(original)[..28])
                  && (|original.payload| <= 1480 && |Ipv4Wire.Encode(original)| < 28 ==>
                        e.payload[8..] == Ipv4Wire.Encode(original))
                  && (|original.payload| > 1480 ==> |e.payload| == 8))
  {
    hide Lookup, Ipv4Wire.Encode, IcmpWire.ChecksumOf, Ipv4Wire.HeaderChecksum;
    var icmp := IcmpWire.Create(IcmpWire.DEST_UNREACHABLE, 1, 0, 0, Quote(original)).value;
    var raw := IcmpWire.Encode(icmp);
    assert raw[..2] == [3, 1] && raw[4..8] == [0, 0, 0, 0] && raw[8..] == Quote(original);
  }

  /** Only the errors themselves, Destination Unreachable and Time Exceeded, are never reported. */
  lemma ReportedUnlessError(p: Ipv4Wire.Packet)
    ensures !Eligible(p) <==> p.protocol == 1 && 8 <= |p.payload| <= 8 + 1472 && p.payload[0] in {3, 11}
  {
  }

  // ---------------------------------------------------------------- learning

  /** Hearing from an address enters it with the VLAN of the frame if it is there or there is room, notes the
      VLAN of a tagged frame for its port, and changes nothing else. */
  lemma LearnsExactly(s: Router, port: int, ip: Ip, mac: Mac, vlan: int, other: Ip, otherPort: int)
    ensures var r := Learn(s, port, ip, mac, vlan);
            && (if other == ip && (ip in s.arp || |s.arp| < 100) then
                  other in r.arp && r.arp[other] == ArpEntry(mac, vlan)
                else (other in r.arp <==> other in s.arp) && (other in s.arp ==> r.arp[other] == s.arp[other]))
            && |r.vlans| == |s.vlans|
            && (1 <= otherPort <= |s.vlans| ==>
                  r.vlans[otherPort - 1] == if otherPort == port && vlan > 0 then vlan else s.vlans[otherPort - 1])
            && r == s.(arp := r.arp, vlans := r.vlans)
  {
  }

  /** An ARP request only teaches. A reply that can be stored sends every packet that waits for its sender to
      the address it names, oldest first, by the port it waits for and with the VLAN of that address, and leaves
      all others waiting. */
  lemma HeardExactly(c: Config, s: Router, port: int, ip: Ip, mac: Mac, vlan: int, isReply: bool)
    requires Coherent(s.queue) && !s.stuck && (ip in s.arp || |s.arp| < 100)
    ensures var r := Apply(c, s, HearArp(port, ip, mac, vlan, isReply));
            var learned := Learn(s, port, ip, mac, vlan);
            && ip in learned.arp && learned.arp[ip] == ArpEntry(mac, vlan)
            && r.arp == learned.arp && r.vlans == learned.vlans && !r.stuck
            && (!isReply ==> r == learned)
            && (isReply ==>
                  && r.queue == Others(s.queue, ip)
                  && r.trace == s.trace + FlushEvents(c, learned, ip, Group(s.queue, ip)))
  {
    hide Coherent, FlushKnown, FlushEvents, Group, Others;
    var learned := Learn(s, port, ip, mac, vlan);
    if isReply {
      FlushSendsTheGroup(c, learned, ip);
      assert Flush(c, learned, ip) == FlushKnown(c, learned, ip);
    }
  }
}
