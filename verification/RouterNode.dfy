/** The router that is updated in place (layer3/router.c): sending, reporting, polling and flushing over its
    circular queue, each proved equal to its specification. */
module RouterNode {
  import opened Base
  import opened PendingQueue
  import opened PendingTrace
  import opened RouterArp
  import opened RouterRun
  import Ipv4Wire

  class Forwarder {
    const config: Config
    const queue: Ring<Out>
    var arp: map<Ip, ArpEntry>
    var vlans: seq<int>
    var trace: seq<Event<Out>>

    /** A flushing loop that never ends was entered. */
    var stuck: bool

    ghost predicate Valid()
      reads this, queue, queue.items
    {
      queue.Valid() && queue.items.Length == QUEUE_MAX
    }

    ghost function Value(): Router
      reads this, queue
    {
      Router(arp, vlans, queue.contents, trace, stuck)
    }

    constructor (c: Config, blank: Out, portVlans: seq<int>)
      ensures Valid() && fresh(queue) && fresh(queue.items) && config == c
      ensures Value() == Router(map[], portVlans, [], [], false)
    {
      config := c;
      queue := new Ring<Out>(QUEUE_MAX, blank);
      arp, vlans, trace, stuck := map[], portVlans, [], false;
    }

    /** The ARP cache hit of router_send_packet_to_next_hop. */
    method SendToKnown(p: Ipv4Wire.Packet, hop: Ip, port: int) returns (ok: bool)
      requires Valid() && hop in arp
      modifies `trace
      ensures Valid() && (ok, Value()) == SendKnown(config, old(Value()), p, hop, port)
    {
      hide VlanFor;
      if !IsPort(config, port) || |p.payload| > Ipv4Wire.MAX_PAYLOAD {
        return false;
      }
      trace := trace + [Direct(hop, arp[hop].mac, Out(p, port, VlanFor(arp, vlans, hop, port)))];
      ok := true;
    }

    /** router_queue_pending_packet with the retry state of the group, if there is one. */
    method QueueFor(out: Out, hop: Ip, now: real) returns (ok: bool, existing: bool)
      requires Valid() && now == Now(config, Value())
      modifies `trace, queue, queue.items
      ensures Valid() && ok == (|old(queue.contents)| < QUEUE_MAX)
      ensures existing == (IndexFor(old(queue.contents), hop) < |old(queue.contents)|)
      ensures Value() == if ok then Appended(config, old(Value()), out, hop) else old(Value())
    {
      hide IndexFor;
      var k := queue.FindFor(hop);
      existing := k < queue.size;
      var attempts, last := 1, now;
      if existing {
        var first := queue.Get(k);
        attempts, last := first.attempts, first.last;
      }
      ok := queue.Enqueue(Pending(hop, out, attempts, last));
      if ok {
        trace := trace + [Queued(hop, out)];
      }
    }

    /** router_send_packet_to_next_hop. */
    method SendPacketToNextHop(p: Ipv4Wire.Packet, hop: Ip, port: int) returns (ok: bool)
      requires Valid() && Coherent(queue.contents)
      modifies this, queue, queue.items
      ensures Valid() && (ok, Value()) == SendToNextHop(config, old(Value()), p, hop, port)
      decreases Eligibles(queue.contents) + Weight(p), AnswersLeft(config, Value()),
                Remaining(queue.contents) + MAX_ATTEMPTS, 10
    {
      hide Coherent, IndexFor, VlanFor, InterfaceIp, Eligible, Eligibles, Remaining, SendKnown, Appended, Requesting,
        Waiting, AnswersFrom;
      CountsDown(config);
      ghost var before := Value();
      if !IsPort(config, port) {
        return false;
      }
      if hop in arp {
        ok := SendToKnown(p, hop, port);
        return;
      }
      var out := Out(p, port, VlanFor(arp, vlans, hop, port));
      var now := (config.clock)(|trace|);
      AppendedStep(config, before, out, hop);
      AppendLogs(config, before, out, hop);
      var stored, existing := QueueFor(out, hop, now);
      if !stored {
        return false;
      }
      if existing {
        return true;
      }
      if InterfaceIp(config, port) == ZERO_IP {
        return false;
      }
      RequestAddress(hop, port, now);
      ok := true;
    }

    /** The first request of a group, the reply that may arrive within it, and what follows. */
    method RequestAddress(hop: Ip, port: int, now: real)
      requires Valid() && Coherent(queue.contents) && IndexFor(queue.contents, hop) < |queue.contents|
      modifies this, queue, queue.items
      ensures Valid() && Value() == Requesting(config, old(Value()), hop, port, now)
      decreases Eligibles(queue.contents), AnswersLeft(config, Value()), Remaining(queue.contents), 9
    {
      hide Coherent, Eligibles, Remaining, Heard, AwaitReply, IndexFor;
      trace := trace + [Requested(hop)];
      HearAnswer(hop, port);
      RetryWithoutRealTime(hop, now);
    }

    /** router_receive with the reply, if any, that arrives while the request just logged goes out. */
    method HearAnswer(ip: Ip, port: int)
      requires Valid() && Coherent(queue.contents) && IndexFor(queue.contents, ip) < |queue.contents|
      modifies this, queue, queue.items
      ensures Valid() && Value() == Heard(config, old(Value()), ip, port)
      decreases Eligibles(queue.contents), AnswersLeft(config, Value()), Remaining(queue.contents), 3
    {
      hide Coherent, Eligibles, Remaining, Flush, FlushKnown, IndexFor;
      var answer := (config.answers)(|trace|);
      if answer.None? || (ip !in arp && |arp| >= ARP_TABLE_MAX && |trace| >= config.refused) {
        return;
      }
      LearnArp(port, ip, answer.value.mac, answer.value.vlan);
      if ip in arp {
        FlushResolved(ip);
      } else {
        FlushPending(ip);
      }
    }

    /** router_learn_arp, for a frame with this VLAN. */
    method LearnArp(port: int, ip: Ip, mac: Mac, vlan: int)
      requires Valid()
      modifies `arp, `vlans
      ensures Valid() && Value() == Learn(old(Value()), port, ip, mac, vlan)
    {
      vlans := SeenOn(vlans, port, vlan);
      if ip in arp || |arp| < ARP_TABLE_MAX {
        arp := arp[ip := ArpEntry(mac, vlan)];
      }
    }

    method RetryWithoutRealTime(hop: Ip, now: real)
      requires Valid() && Coherent(queue.contents)
      modifies this, queue, queue.items
      ensures Valid() && Value() == AwaitReply(config, old(Value()), hop, now)
      decreases Eligibles(queue.contents), AnswersLeft(config, Value()), Remaining(queue.contents), 8
    {
      hide Coherent, Eligibles, Remaining, Poll;
      if !stuck && !config.realtime && hop !in arp {
        PollArp(now + RETRY_INTERVAL * (MAX_ATTEMPTS + 1) as real);
      }
    }

    /** router_send_ipv4_packet. */
    method SendIpv4Packet(p: Ipv4Wire.Packet) returns (ok: bool)
      requires Valid() && Coherent(queue.contents)
      modifies this, queue, queue.items
      ensures Valid() && (ok, Value()) == SendIpv4(config, old(Value()), p)
      decreases Eligibles(queue.contents) + Weight(p), AnswersLeft(config, Value()),
                Remaining(queue.contents) + MAX_ATTEMPTS, 11
    {
      hide Coherent, Eligibles, Remaining, Eligible, SendToNextHop, Lookup;
      var route := Lookup(config.routes, p.dst);
      if route.None? {
        return false;
      }
      ok := SendPacketToNextHop(p, Via(route.value, p.dst), route.value.port);
    }

    /** router_send_icmp_error: Destination Unreachable, host unreachable. */
    method SendIcmpError(failed: Ipv4Wire.Packet)
      requires Valid() && Coherent(queue.contents)
      modifies this, queue, queue.items
      ensures Valid() && Value() == Report(config, old(Value()), failed)
      decreases Eligibles(queue.contents), AnswersLeft(config, Value()), Remaining(queue.contents) + MAX_ATTEMPTS, 12
    {
      hide Coherent, Eligibles, Remaining, Eligible, SendIpv4, ErrorFor;
      var error := ErrorFor(config, failed);
      if error.Some? {
        ErrorsEndHere(config, failed, error.value);
        trace := trace + [Reported(Out(error.value, 0, 0))];
        var _ := SendIpv4Packet(error.value);
      }
    }

    /** One turn of the draining loop. */
    method FailOne(ip: Ip) returns (more: bool)
      requires Valid() && Coherent(queue.contents) && !stuck
      modifies this, queue, queue.items
      ensures Valid() && Coherent(queue.contents)
      ensures more == (IndexFor(old(queue.contents), ip) < |old(queue.contents)|)
      ensures if more then Value() == Failing(config, old(Value()), ip) else Value() == old(Value())
      decreases Eligibles(queue.contents), AnswersLeft(config, Value()), Remaining(queue.contents), 4
    {
      hide Coherent, IndexFor, Eligible, Eligibles, Remaining, RemoveAt, Report;
      ghost var before := Value();
      var found := queue.DequeueFor(ip);
      more := found.Some?;
      if more {
        RemovedStep(before, ip);
        trace := trace + [Dropped(ip, found.value.info)];
        if Eligible(found.value.info.packet) {
          SendIcmpError(found.value.info.packet);
        }
      }
    }

    method DrainGroup(ip: Ip)
      requires Valid() && Coherent(queue.contents)
      modifies this, queue, queue.items
      ensures Valid() && Value() == Drain(config, old(Value()), ip)
      decreases Eligibles(queue.contents), AnswersLeft(config, Value()), Remaining(queue.contents), 5
    {
      hide Coherent, IndexFor, Eligible, Eligibles, Remaining, Failing;
      ghost var start := Value();
      var more := true;
      while more && !stuck
        invariant Valid() && Coherent(queue.contents) && NoLarger(config, Value(), start)
        invariant Drain(config, Value(), ip) == Drain(config, start, ip)
        invariant !more ==> Value() == Drain(config, start, ip)
        decreases more, Eligibles(queue.contents), AnswersLeft(config, Value()), Remaining(queue.contents)
      {
        more := FailOne(ip);
      }
    }

    method GiveUpGroup(ip: Ip)
      requires Valid() && Coherent(queue.contents)
      modifies this, queue, queue.items
      ensures Valid() && Value() == Drain(config, Log(old(Value()), Failed(ip)), ip)
      decreases Eligibles(queue.contents), AnswersLeft(config, Value()), Remaining(queue.contents), 6
    {
      hide Coherent, Eligibles, Remaining, Drain;
      trace := trace + [Failed(ip)];
      DrainGroup(ip);
    }

    method RetryGroup(p: Pending<Out>)
      requires Valid() && Coherent(queue.contents) && p in queue.contents && p.attempts < MAX_ATTEMPTS
      modifies this, queue, queue.items
      ensures Valid() && Value() == Retrying(config, old(Value()), p)
      decreases Eligibles(queue.contents), AnswersLeft(config, Value()), Remaining(queue.contents), 6
    {
      hide Stamp, InterfaceIp, Coherent, Eligibles, Remaining, Heard, IndexFor;
      StampedStep(Value(), p);
      queue.SetAttempt(p.ip, p.attempts + 1, p.last + RETRY_INTERVAL);
      if InterfaceIp(config, p.info.port) != ZERO_IP {
        trace := trace + [Requested(p.ip)];
        HearAnswer(p.ip, p.info.port);
      }
    }

    /** router_poll_arp. */
    method PollArp(now: real)
      requires Valid() && Coherent(queue.contents)
      modifies this, queue, queue.items
      ensures Valid() && Value() == Poll(config, old(Value()), now)
      decreases Eligibles(queue.contents), AnswersLeft(config, Value()), Remaining(queue.contents), 7
    {
      hide Coherent, Eligible, Eligibles, Remaining, IndexDue, IndexFor, Drain, Retrying;
      ghost var start := Value();
      while !stuck
        invariant Valid() && Coherent(queue.contents) && NoLarger(config, Value(), start)
        invariant Poll(config, Value(), now) == Poll(config, start, now)
        decreases Eligibles(queue.contents), AnswersLeft(config, Value()), Remaining(queue.contents)
      {
        var k := queue.FindDue(now, false);
        if k == queue.size {
          return;
        }
        var p := queue.Get(k);
        assert IndexFor(queue.contents, p.ip) < |queue.contents| by { GroupState(queue.contents, p); }
        if p.attempts >= MAX_ATTEMPTS {
          GiveUpGroup(p.ip);
        } else {
          RetryGroup(p);
        }
      }
    }

    /** router_flush_pending_packets, with the ARP entry that the reply has just created. */
    method FlushResolved(ip: Ip)
      requires Valid() && Coherent(queue.contents) && ip in arp
      modifies `trace, queue, queue.items
      ensures Valid() && Value() == FlushKnown(config, old(Value()), ip)
    {
      hide Coherent, IndexFor, VlanFor, RemoveAt;
      var more := true;
      while more
        invariant Valid() && Coherent(queue.contents)
        invariant if more then FlushKnown(config, Value(), ip) == FlushKnown(config, old(Value()), ip)
                  else Value() == FlushKnown(config, old(Value()), ip)
        decreases more, |queue.contents|
      {
        ghost var before := Value();
        var found := queue.DequeueFor(ip);
        more := found.Some?;
        if more {
          RemovedStep(before, ip);
          KnownKeeps(config, before, ip);
          trace := trace + [Flushed(ip, arp[ip].mac, found.value.info)];
          var _ := SendToKnown(found.value.info.packet, ip, found.value.info.port);
        }
      }
    }

    /** router_flush_pending_packets. Without the entry the loop ends after one turn, or never. */
    method FlushPending(ip: Ip)
      requires Valid() && Coherent(queue.contents)
      modifies this, queue, queue.items
      ensures Valid() && Coherent(queue.contents) && Value() == Flush(config, old(Value()), ip)
      decreases Eligibles(queue.contents), AnswersFrom(config, |trace| + 1),
                Remaining(queue.contents) + MAX_ATTEMPTS, 13
    {
      hide Coherent, IndexFor, FlushKnown, RemoveAt, SendToNextHop, Eligibles, Remaining, Eligible;
      if ip in arp {
        FlushResolved(ip);
        return;
      }
      ghost var before := Value();
      var found := queue.DequeueFor(ip);
      if found.Some? {
        RemovedStep(before, ip);
        trace := trace + [Retaken(ip, found.value.info)];
        var _ := SendPacketToNextHop(found.value.info.packet, ip, found.value.info.port);
        var k := queue.FindFor(ip);
        if k < queue.size {
          stuck := true;
        }
      }
    }

    /** An ARP message: learn the sender and, for a reply, flush. */
    method ReceiveArp(port: int, ip: Ip, mac: Mac, vlan: int, isReply: bool)
      requires Valid() && Coherent(queue.contents)
      modifies this, queue, queue.items
      ensures Valid() && Value() == Apply(config, old(Value()), HearArp(port, ip, mac, vlan, isReply))
    {
      hide Coherent, Flush;
      if !stuck {
        LearnArp(port, ip, mac, vlan);
        if isReply {
          FlushPending(ip);
        }
      }
    }
  }
}
