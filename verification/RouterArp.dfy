/** Forwarding from a router: routes, ARP lookups, the queue of unresolved packets, and the ICMP errors
    that report packets given up (layer3/router.c). Failing a packet may queue its error in the same
    queue, without real time queueing polls the queue again, and a request may be answered, and its
    group flushed, before it returns. */
module RouterArp {
  import opened Base
  import opened PendingQueue
  import opened PendingTrace
  import Ipv4Wire
  import IcmpWire

  const QUEUE_MAX := 128
  const ARP_TABLE_MAX := 100
  const QUOTED := 28

  /** A packet and the port and VLAN it is to leave by; port 0 before it is routed. */
  datatype Out = Out(packet: Ipv4Wire.Packet, port: int, vlan: int)

  datatype Route = Route(dest: Ip, prefix: byte, hop: Ip, port: int)
  datatype ArpEntry = ArpEntry(mac: Mac, vlan: int)

  /** Once n events have happened, clock(n) is what the clock shows, and answers(n) is the ARP reply that
      arrives while a request goes out, if any. From refused events on, no reply finds the ARP table full:
      what ends has seen finitely many of those. */
  datatype Config = Config(ports: seq<Option<Ip>>, routes: seq<Route>, realtime: bool, clock: nat -> real,
                           answers: nat -> Option<ArpEntry>, refused: nat)

  /** vlans holds the VLAN last seen on every port. A router that is stuck has entered a flushing loop that
      never ends: nothing happens to it any more. */
  datatype Router = Router(arp: map<Ip, ArpEntry>, vlans: seq<int>, queue: seq<Pending<Out>>, trace: seq<Event<Out>>,
                           stuck: bool)

  // ---------------------------------------------------------------- routes and errors

  predicate IsPort(c: Config, port: int) {
    1 <= port <= |c.ports|
  }

  function InterfaceIp(c: Config, port: int): Ip {
    if IsPort(c, port) && c.ports[port - 1].Some? then c.ports[port - 1].value else ZERO_IP
  }

  function VlanFor(arp: map<Ip, ArpEntry>, vlans: seq<int>, ip: Ip, port: int): int {
    if ip in arp && arp[ip].vlan > 0 then arp[ip].vlan else if 1 <= port <= |vlans| then vlans[port - 1] else 0
  }

  /** The next hop of a route for an address. */
  function Via(r: Route, dst: Ip): Ip {
    if r.hop == ZERO_IP then dst else r.hop
  }

  /** router_lookup_route over the first n routes: the longest matching prefix, the earliest of equals. */
  function Lookup(routes: seq<Route>, dst: Ip): Option<Route> {
    if |routes| == 0 then None else
      var best := Lookup(routes[..|routes| - 1], dst);
      var r := routes[|routes| - 1];
      if Matches(r, dst) && (best.None? || r.prefix > best.value.prefix) then Some(r) else best
  }

  predicate Matches(r: Route, dst: Ip) {
    SameNetwork(dst, r.dest, r.prefix)
  }

  /** The route found covers the address and no route that covers it is more specific; none is found
      only if none covers it. */
  lemma {:induction false} LongestPrefixWins(routes: seq<Route>, dst: Ip)
    ensures Lookup(routes, dst).None? <==> forall r :: r in routes ==> !Matches(r, dst)
    ensures var best := Lookup(routes, dst);
            best.Some? ==> best.value in routes && Matches(best.value, dst)
                           && forall r :: r in routes && Matches(r, dst) ==> r.prefix <= best.value.prefix
  {
    hide SameNetwork;
    if |routes| > 0 {
      var rest := routes[..|routes| - 1];
      LongestPrefixWins(rest, dst);
      assert routes == rest + [routes[|routes| - 1]];
    }
  }

  /** router_can_send_error_for_packet. */
  predicate Eligible(p: Ipv4Wire.Packet) {
    p.protocol == Ipv4Wire.PROTOCOL_ICMP ==>
      var m := IcmpWire.Decode(p.payload);
      m.None? || m.value.kind !in {IcmpWire.DEST_UNREACHABLE, IcmpWire.TIME_EXCEEDED}
  }

  /** The first 28 bytes of a packet, or nothing if it cannot be serialised. */
  function Quote(p: Ipv4Wire.Packet): (raw: seq<byte>)
    ensures |raw| <= QUOTED
  {
    var raw := if |p.payload| > Ipv4Wire.MAX_PAYLOAD then [] else Ipv4Wire.Encode(p);
    if |raw| < QUOTED then raw else raw[..QUOTED]
  }

  /** The packet router_send_icmp_error builds: Destination Unreachable, host unreachable. */
  function ErrorFor(c: Config, original: Ipv4Wire.Packet): Option<Ipv4Wire.Packet> {
    var route := Lookup(c.routes, original.src);
    if route.None? || InterfaceIp(c, route.value.port) == ZERO_IP then None else
    var icmp := IcmpWire.Create(IcmpWire.DEST_UNREACHABLE, 1, 0, 0, Quote(original));
    if icmp.None? then None else
    Ipv4Wire.Create(InterfaceIp(c, route.value.port), original.src, Ipv4Wire.DEFAULT_TTL, Ipv4Wire.PROTOCOL_ICMP,
                    IcmpWire.Encode(icmp.value))
  }

  /** Section 3.2.2 of RFC 1122: an error goes back to the source, quotes the packet, is a valid
      ICMP message, and is itself never answered by an error. */
  lemma ErrorsEndHere(c: Config, original: Ipv4Wire.Packet, error: Ipv4Wire.Packet)
    requires ErrorFor(c, original) == Some(error)
    ensures !Eligible(error) && error.dst == original.src
    ensures var m := IcmpWire.Decode(error.payload);
            m.Some? && m.value.kind == IcmpWire.DEST_UNREACHABLE && m.value.code == 1 && IcmpWire.Valid(m.value)
            && m.value.payload == Quote(original)
  {
    hide IcmpWire.Encode, IcmpWire.Decode, IcmpWire.Valid, Quote, Lookup, IcmpWire.ChecksumOf;
    var m := IcmpWire.Create(IcmpWire.DEST_UNREACHABLE, 1, 0, 0, Quote(original)).value;
    IcmpWire.SendReceive(m);
  }

  // ---------------------------------------------------------------- measures

  function Weight(p: Ipv4Wire.Packet): nat {
    if Eligible(p) then 1 else 0
  }

  /** How many waiting packets may still cause an error. */
  function Eligibles(q: seq<Pending<Out>>): nat {
    if |q| == 0 then 0 else Weight(q[0].info.packet) + Eligibles(q[1..])
  }

  lemma {:induction false} MeasureOfAppend(q: seq<Pending<Out>>, p: Pending<Out>)
    ensures Eligibles(q + [p]) == Eligibles(q) + Weight(p.info.packet)
    ensures 1 <= p.attempts ==> Remaining(q + [p]) <= Remaining(q) + MAX_ATTEMPTS
  {
    hide Weight;
    if |q| == 0 {
      assert q + [p] == [p] && [p][1..] == [];
    } else {
      assert (q + [p])[1..] == q[1..] + [p];
      MeasureOfAppend(q[1..], p);
    }
  }

  lemma {:induction false} MeasureOfRemove(q: seq<Pending<Out>>, k: nat)
    requires k < |q|
    ensures Eligibles(RemoveAt(q, k)) == Eligibles(q) - Weight(q[k].info.packet)
    ensures Remaining(RemoveAt(q, k)) <= Remaining(q)
    ensures q[k].attempts <= MAX_ATTEMPTS ==> Remaining(RemoveAt(q, k)) < Remaining(q)
  {
    hide Weight;
    if k == 0 {
      assert RemoveAt(q, 0) == q[1..];
    } else {
      MeasureOfRemove(q[1..], k - 1);
      var less := RemoveAt(q, k);
      assert less[0] == q[0] && less[1..] == RemoveAt(q[1..], k - 1);
    }
  }

  lemma {:induction false} MeasureOfStamp(q: seq<Pending<Out>>, ip: Ip, attempts: nat, last: real)
    ensures Eligibles(Stamp(q, ip, attempts, last)) == Eligibles(q)
  {
    hide Weight;
    if |q| > 0 {
      MeasureOfStamp(q[1..], ip, attempts, last);
      assert Stamp(q, ip, attempts, last)[1..] == Stamp(q[1..], ip, attempts, last);
    }
  }

  lemma RemoveCoherent(q: seq<Pending<Out>>, k: nat)
    requires Coherent(q) && k < |q|
    ensures Coherent(RemoveAt(q, k)) && 1 <= q[k].attempts <= MAX_ATTEMPTS
  {
    assert q[k] in q;
    assert forall p :: p in RemoveAt(q, k) ==> p in q;
  }

  /** How many answers are given to requests from this event on that may find the ARP table full. */
  function AnswersFrom(c: Config, from: nat): nat
    decreases c.refused - from
  {
    if from >= c.refused then 0 else (if (c.answers)(from).Some? then 1 else 0) + AnswersFrom(c, from + 1)
  }

  function AnswersLeft(c: Config, s: Router): nat {
    AnswersFrom(c, |s.trace|)
  }

  lemma {:induction false} FewerLater(c: Config, a: nat, b: nat)
    requires a <= b
    ensures AnswersFrom(c, b) <= AnswersFrom(c, a)
    ensures a < b && a < c.refused && (c.answers)(a).Some? ==> AnswersFrom(c, b) < AnswersFrom(c, a)
    decreases b - a
  {
    if a < b {
      FewerLater(c, a + 1, b);
    }
  }

  /** Answers are only used up. */
  lemma CountsDown(c: Config)
    ensures forall a: nat, b: nat :: a <= b ==> AnswersFrom(c, b) <= AnswersFrom(c, a)
    ensures forall a: nat, b: nat :: a < b && a < c.refused && (c.answers)(a).Some? ==>
              AnswersFrom(c, b) < AnswersFrom(c, a)
  {
    hide AnswersFrom;
    forall a: nat, b: nat | a <= b
      ensures AnswersFrom(c, b) <= AnswersFrom(c, a)
      ensures a < b && a < c.refused && (c.answers)(a).Some? ==> AnswersFrom(c, b) < AnswersFrom(c, a)
    {
      FewerLater(c, a, b);
    }
  }

  /** None of them is used up while none arrives. */
  lemma {:induction false} NoneArrived(c: Config, a: nat, b: nat)
    requires a <= b && forall n: nat :: a <= n < b ==> (c.answers)(n).None?
    ensures AnswersFrom(c, b) == AnswersFrom(c, a)
    decreases b - a
  {
    if a < b {
      NoneArrived(c, a + 1, b);
    }
  }

  /** Lexicographic: errors still possible, then answers still to come, then attempts still to be made. */
  ghost predicate NoLarger(c: Config, a: Router, b: Router) {
    Smaller(c, a, b) ||
    (Eligibles(a.queue) == Eligibles(b.queue) && AnswersLeft(c, a) == AnswersLeft(c, b)
     && Remaining(a.queue) <= Remaining(b.queue))
  }

  ghost predicate Smaller(c: Config, a: Router, b: Router) {
    || Eligibles(a.queue) < Eligibles(b.queue)
    || (Eligibles(a.queue) == Eligibles(b.queue) &&
        (AnswersLeft(c, a) < AnswersLeft(c, b) ||
         (AnswersLeft(c, a) == AnswersLeft(c, b) && Remaining(a.queue) < Remaining(b.queue))))
  }

  /** r follows s: w packets more than in s, at most, may cause an error, and a flush gets stuck only if an
      answer was used up. */
  ghost predicate AtMost(c: Config, s: Router, r: Router, w: nat) {
    && Coherent(r.queue) && s.trace <= r.trace && AnswersLeft(c, r) <= AnswersLeft(c, s)
    && Eligibles(r.queue) <= Eligibles(s.queue) + w
    && (AnswersLeft(c, r) == AnswersLeft(c, s) && !s.stuck ==> !r.stuck)
  }

  /** An event first. */
  lemma AtMostAfter(c: Config, s: Router, m: Router, e: Event<Out>, r: Router, w: nat, v: nat)
    requires m.trace == s.trace + [e] && (m.stuck ==> s.stuck) && AtMost(c, m, r, w)
    requires Eligibles(m.queue) + w <= Eligibles(s.queue) + v
    ensures AtMost(c, s, r, v) && |s.trace| < |r.trace|
  {
    hide Eligibles, AnswersFrom, Coherent;
    CountsDown(c);
  }

  // ---------------------------------------------------------------- single steps

  /** The oldest packet for ip leaves the queue. */
  function Removed(s: Router, ip: Ip): Router
    requires IndexFor(s.queue, ip) < |s.queue|
  {
    s.(queue := RemoveAt(s.queue, IndexFor(s.queue, ip)))
  }

  function First(s: Router, ip: Ip): Pending<Out>
    requires IndexFor(s.queue, ip) < |s.queue|
  {
    s.queue[IndexFor(s.queue, ip)]
  }

  function Log(s: Router, e: Event<Out>): Router {
    s.(trace := s.trace + [e])
  }

  function Now(c: Config, s: Router): real {
    (c.clock)(|s.trace|)
  }

  /** router_queue_pending_packet with the retry state of the group. */
  function Appended(c: Config, s: Router, out: Out, hop: Ip): Router {
    Log(s, Queued(hop, out)).(queue := s.queue + [Waiting(s.queue, hop, out, Now(c, s))])
  }

  lemma RemovedStep(s: Router, ip: Ip)
    requires Coherent(s.queue) && IndexFor(s.queue, ip) < |s.queue|
    ensures var r := Removed(s, ip).queue;
            && Coherent(r) && Eligibles(r) == Eligibles(s.queue) - Weight(First(s, ip).info.packet)
            && Remaining(r) < Remaining(s.queue)
  {
    hide IndexFor, Eligibles, Remaining, Weight, RemoveAt, Coherent;
    RemoveCoherent(s.queue, IndexFor(s.queue, ip));
    MeasureOfRemove(s.queue, IndexFor(s.queue, ip));
  }

  lemma WaitsFor(q: seq<Pending<Out>>, hop: Ip, out: Out, now: real)
    ensures Waiting(q, hop, out, now).ip == hop
  {
  }

  lemma AppendedStep(c: Config, s: Router, out: Out, hop: Ip)
    requires Coherent(s.queue)
    ensures var r := Appended(c, s, out, hop).queue;
            && Coherent(r) && Eligibles(r) == Eligibles(s.queue) + Weight(out.packet)
            && Remaining(r) <= Remaining(s.queue) + MAX_ATTEMPTS && IndexFor(r, hop) < |r|
  {
    hide Eligibles, Remaining, Weight, IndexFor;
    var p := Waiting(s.queue, hop, out, Now(c, s));
    AppendCoherent(s.queue, hop, out, Now(c, s));
    var r := s.queue + [p];
    assert p in r && r[|s.queue|].ip == hop by { WaitsFor(s.queue, hop, out, Now(c, s)); }
    MeasureOfAppend(s.queue, p);
  }

  // ---------------------------------------------------------------- replies

  /** router_receive notes the VLAN of every tagged frame. */
  function SeenOn(vlans: seq<int>, port: int, vlan: int): seq<int> {
    if vlan > 0 && 1 <= port <= |vlans| then vlans[port - 1 := vlan] else vlans
  }

  /** router_learn_arp, for a frame with this VLAN. */
  function Learn(s: Router, port: int, ip: Ip, mac: Mac, vlan: int): Router {
    s.(arp := if ip in s.arp || |s.arp| < ARP_TABLE_MAX then s.arp[ip := ArpEntry(mac, vlan)] else s.arp,
       vlans := SeenOn(s.vlans, port, vlan))
  }

  /** The ARP cache hit of router_send_packet_to_next_hop. */
  function SendKnown(c: Config, s: Router, p: Ipv4Wire.Packet, hop: Ip, port: int): (bool, Router)
    requires hop in s.arp
  {
    if !IsPort(c, port) || |p.payload| > Ipv4Wire.MAX_PAYLOAD then (false, s)
    else (true, Log(s, Direct(hop, s.arp[hop].mac, Out(p, port, VlanFor(s.arp, s.vlans, hop, port)))))
  }

  /** One turn of the flushing loop: the oldest packet for ip leaves the queue and is sent again. */
  function FlushOne(c: Config, s: Router, ip: Ip): (r: Router)
    requires Coherent(s.queue) && IndexFor(s.queue, ip) < |s.queue| && ip in s.arp
    ensures r.queue == Removed(s, ip).queue && r.arp == s.arp && r.stuck == s.stuck && |s.trace| < |r.trace|
  {
    var p := First(s, ip);
    SendKnown(c, Log(Removed(s, ip), Flushed(ip, s.arp[ip].mac, p.info)), p.info.packet, ip, p.info.port).1
  }

  /** router_flush_pending_packets, with the ARP entry that the reply has just created. */
  function FlushKnown(c: Config, s: Router, ip: Ip): (r: Router)
    requires Coherent(s.queue) && ip in s.arp
    ensures Coherent(r.queue) && s.trace <= r.trace && r.arp == s.arp && r.stuck == s.stuck
    ensures Eligibles(r.queue) <= Eligibles(s.queue) && Remaining(r.queue) <= Remaining(s.queue)
    decreases |s.queue|
  {
    if IndexFor(s.queue, ip) == |s.queue| then s else
    hide Coherent, Eligibles, Remaining, RemoveAt, VlanFor;
    RemovedStep(s, ip);
    FlushKnown(c, FlushOne(c, s, ip), ip)
  }

  /** Is there no room for this address in the ARP table? */
  predicate NoRoom(s: Router, ip: Ip) {
    ip !in s.arp && |s.arp| >= ARP_TABLE_MAX
  }

  /** The reply for ip that arrives while the request just logged goes out, if any. */
  function Reply(c: Config, s: Router, ip: Ip): (r: Option<ArpEntry>)
    ensures r.Some? && NoRoom(s, ip) ==> |s.trace| < c.refused
    ensures |s.trace| < c.refused || !NoRoom(s, ip) ==> r == (c.answers)(|s.trace|)
  {
    if NoRoom(s, ip) && |s.trace| >= c.refused then None else (c.answers)(|s.trace|)
  }

  lemma StampedStep(s: Router, p: Pending<Out>)
    requires Coherent(s.queue) && p in s.queue && p.attempts < MAX_ATTEMPTS
    ensures var r := Stamp(s.queue, p.ip, p.attempts + 1, p.last + RETRY_INTERVAL);
            && Coherent(r) && Eligibles(r) == Eligibles(s.queue) && Remaining(r) < Remaining(s.queue)
            && IndexFor(r, p.ip) < |r|
  {
    hide Eligibles, Remaining, Coherent, Stamp, IndexFor;
    GroupRetries(s.queue, p, p.last + RETRY_INTERVAL);
    MeasureOfStamp(s.queue, p.ip, p.attempts + 1, p.last + RETRY_INTERVAL);
    StampKeepsPlaces(s.queue, p);
  }

  lemma StampKeepsPlaces(q: seq<Pending<Out>>, p: Pending<Out>)
    requires p in q
    ensures var r := Stamp(q, p.ip, p.attempts + 1, p.last + RETRY_INTERVAL); IndexFor(r, p.ip) < |r|
  {
    hide IndexFor, Stamp;
    var i :| 0 <= i < |q| && q[i] == p;
    assert Stamp(q, p.ip, p.attempts + 1, p.last + RETRY_INTERVAL)[i].ip == p.ip;
  }

  // ---------------------------------------------------------------- the recursion

  /** router_send_packet_to_next_hop. */
  function SendToNextHop(c: Config, s: Router, p: Ipv4Wire.Packet, hop: Ip, port: int): (r: (bool, Router))
    requires Coherent(s.queue)
    ensures AtMost(c, s, r.1, Weight(p))
    decreases Eligibles(s.queue) + Weight(p), AnswersLeft(c, s), Remaining(s.queue) + MAX_ATTEMPTS, 4
  {
    hide AnswersFrom, Eligible, Eligibles, Remaining, VlanFor, InterfaceIp, Requesting;
    CountsDown(c);
    if !IsPort(c, port) then (false, s)
    else if hop in s.arp then SendKnown(c, s, p, hop, port)
    else if |s.queue| >= QUEUE_MAX then (false, s)
    else
      hide Coherent, Waiting, IndexFor;
      var out := Out(p, port, VlanFor(s.arp, s.vlans, hop, port));
      AppendedStep(c, s, out, hop);
      var s1 := Appended(c, s, out, hop);
      if IndexFor(s.queue, hop) < |s.queue| then (true, s1)
      else if InterfaceIp(c, port) == ZERO_IP then (false, s1)
      else (true, Requesting(c, s1, hop, port, Now(c, s)))
  }

  /** The first request of a group and what follows it. */
  function Requesting(c: Config, s: Router, hop: Ip, port: int, now: real): (r: Router)
    requires Coherent(s.queue) && IndexFor(s.queue, hop) < |s.queue|
    ensures AtMost(c, s, r, 0)
    decreases Eligibles(s.queue), AnswersLeft(c, s), Remaining(s.queue), 3
  {
    hide Coherent, Eligibles, Remaining, IndexFor;
    AwaitReply(c, Heard(c, Log(s, Requested(hop)), hop, port), hop, now)
  }

  /** router_receive with the reply for ip, if any, that arrives on this port within a request for packets
      that wait for ip: learn and flush. */
  function Heard(c: Config, s: Router, ip: Ip, port: int): (r: Router)
    requires Coherent(s.queue) && IndexFor(s.queue, ip) < |s.queue|
    ensures AtMost(c, s, r, 0) && NoLarger(c, r, s)
    decreases Eligibles(s.queue), AnswersLeft(c, s), Remaining(s.queue), 1
  {
    var answer := Reply(c, s, ip);
    if answer.None? then s else
    hide Coherent, Eligibles, Remaining, AnswersFrom, IndexFor;
    CountsDown(c);
    var learned := Learn(s, port, ip, answer.value.mac, answer.value.vlan);
    if ip in learned.arp then FlushKnown(c, learned, ip) else Flush(c, learned, ip)
  }

  /** router_flush_pending_packets. Without the entry, as when the table was full and the reply could not be
      stored, the loop ends after its first turn or never. */
  function Flush(c: Config, s: Router, ip: Ip): (r: Router)
    requires Coherent(s.queue)
    ensures Coherent(r.queue) && s.trace <= r.trace && Eligibles(r.queue) <= Eligibles(s.queue)
    ensures IndexFor(s.queue, ip) < |s.queue| ==> |s.trace| < |r.trace|
    decreases Eligibles(s.queue), AnswersFrom(c, |s.trace| + 1), Remaining(s.queue) + MAX_ATTEMPTS, 5
  {
    if ip in s.arp then FlushKnown(c, s, ip)
    else if IndexFor(s.queue, ip) == |s.queue| then s
    else
      var r := Turn(c, s, ip);
      if IndexFor(r.queue, ip) == |r.queue| then r else r.(stuck := true)
  }

  /** One turn of the flushing loop without the entry: the packet is sent again to the address that is
      still unknown. */
  function Turn(c: Config, s: Router, ip: Ip): (r: Router)
    requires Coherent(s.queue) && IndexFor(s.queue, ip) < |s.queue|
    ensures AtMost(c, s, r, 0) && |s.trace| < |r.trace|
    decreases Eligibles(s.queue), AnswersFrom(c, |s.trace| + 1), Remaining(s.queue) + MAX_ATTEMPTS, 4
  {
    hide Coherent, Eligibles, Remaining, AnswersFrom, Eligible;
    var p := First(s, ip);
    RemovedStep(s, ip);
    var m := Log(Removed(s, ip), Retaken(ip, p.info));
    var r := SendToNextHop(c, m, p.info.packet, ip, p.info.port).1;
    AtMostAfter(c, s, m, Retaken(ip, p.info), r, Weight(p.info.packet), 0);
    r
  }

  /** After the first request for a group: if it was not answered, without real time all retries run at
      once. */
  function AwaitReply(c: Config, s: Router, hop: Ip, now: real): (r: Router)
    requires Coherent(s.queue)
    ensures AtMost(c, s, r, 0)
    decreases Eligibles(s.queue), AnswersLeft(c, s), Remaining(s.queue), 2
  {
    if s.stuck || c.realtime || hop in s.arp then s
    else Poll(c, s, now + RETRY_INTERVAL * (MAX_ATTEMPTS + 1) as real)
  }

  /** router_send_ipv4_packet. */
  function SendIpv4(c: Config, s: Router, p: Ipv4Wire.Packet): (r: (bool, Router))
    requires Coherent(s.queue)
    ensures AtMost(c, s, r.1, Weight(p))
    decreases Eligibles(s.queue) + Weight(p), AnswersLeft(c, s), Remaining(s.queue) + MAX_ATTEMPTS, 5
  {
    var route := Lookup(c.routes, p.dst);
    if route.None? then (false, s) else SendToNextHop(c, s, p, Via(route.value, p.dst), route.value.port)
  }

  /** router_send_icmp_error, for a failed packet: at most one error is sent for it. */
  function Report(c: Config, s: Router, failed: Ipv4Wire.Packet): (r: Router)
    requires Coherent(s.queue)
    ensures AtMost(c, s, r, 0)
    decreases Eligibles(s.queue), AnswersLeft(c, s), Remaining(s.queue) + MAX_ATTEMPTS, 6
  {
    hide Coherent, Eligibles, Remaining, ErrorFor, AnswersFrom;
    if ErrorFor(c, failed).None? then s else
    CountsDown(c);
    var error := ErrorFor(c, failed).value;
    ErrorsEndHere(c, failed, error);
    var r := SendIpv4(c, Log(s, Reported(Out(error, 0, 0))), error).1;
    AtMostAfter(c, s, Log(s, Reported(Out(error, 0, 0))), Reported(Out(error, 0, 0)), r, 0, 0);
    r
  }

  /** One turn of the draining loop of router_poll_arp. */
  function Failing(c: Config, s: Router, ip: Ip): (r: Router)
    requires Coherent(s.queue) && IndexFor(s.queue, ip) < |s.queue|
    ensures AtMost(c, s, r, 0) && Smaller(c, r, s)
    decreases Eligibles(s.queue), AnswersLeft(c, s), Remaining(s.queue), 0, 0
  {
    hide Coherent, Eligibles, Remaining;
    var p := First(s, ip);
    RemovedStep(s, ip);
    var s1 := Log(Removed(s, ip), Dropped(ip, p.info));
    if Eligible(p.info.packet) then Report(c, s1, p.info.packet) else s1
  }

  /** The draining loop. */
  function Drain(c: Config, s: Router, ip: Ip): (r: Router)
    requires Coherent(s.queue)
    ensures AtMost(c, s, r, 0) && NoLarger(c, r, s)
    ensures !s.stuck && IndexFor(s.queue, ip) < |s.queue| ==> Smaller(c, r, s)
    decreases Eligibles(s.queue), AnswersLeft(c, s), Remaining(s.queue), 0, 1
  {
    if s.stuck || IndexFor(s.queue, ip) == |s.queue| then s else Drain(c, Failing(c, s, ip), ip)
  }

  /** One more request for the group of p. */
  function Retrying(c: Config, s: Router, p: Pending<Out>): (r: Router)
    requires Coherent(s.queue) && p in s.queue && p.attempts < MAX_ATTEMPTS
    ensures AtMost(c, s, r, 0) && Smaller(c, r, s)
    decreases Eligibles(s.queue), AnswersLeft(c, s), Remaining(s.queue), 0, 0
  {
    hide Coherent, Eligibles, Remaining, Stamp, IndexFor, AnswersFrom, InterfaceIp;
    CountsDown(c);
    var s1 := s.(queue := Stamp(s.queue, p.ip, p.attempts + 1, p.last + RETRY_INTERVAL));
    StampedStep(s, p);
    if InterfaceIp(c, p.info.port) == ZERO_IP then s1
    else
      var r := Heard(c, Log(s1, Requested(p.ip)), p.ip, p.info.port);
      AtMostAfter(c, s, Log(s1, Requested(p.ip)), Requested(p.ip), r, 0, 0);
      r
  }

  /** One turn of router_poll_arp for a due packet: retry or give up its whole group. */
  function PollTurn(c: Config, s: Router, p: Pending<Out>): (r: Router)
    requires Coherent(s.queue) && p in s.queue && !s.stuck
    ensures AtMost(c, s, r, 0) && Smaller(c, r, s)
    decreases Eligibles(s.queue), AnswersLeft(c, s), Remaining(s.queue), 0, 2
  {
    GroupState(s.queue, p);
    if p.attempts >= MAX_ATTEMPTS then Drain(c, Log(s, Failed(p.ip)), p.ip) else Retrying(c, s, p)
  }

  /** router_poll_arp: as long as some packet is due. */
  function Poll(c: Config, s: Router, now: real): (r: Router)
    requires Coherent(s.queue)
    ensures AtMost(c, s, r, 0) && NoLarger(c, r, s)
    decreases Eligibles(s.queue), AnswersLeft(c, s), Remaining(s.queue), 1
  {
    var k := IndexDue(s.queue, now, false);
    if s.stuck || k == |s.queue| then s else
    hide Coherent, Eligibles, Remaining;
    Poll(c, PollTurn(c, s, s.queue[k]), now)
  }
}
