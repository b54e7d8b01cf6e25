/** What a router keeps through every step (layer3/router.c): errors are reported fairly, requests are
    bounded, and no packet is lost, repeated or overtaken. */
module RouterRun {
  import opened Base
  import opened PendingQueue
  import opened PendingTrace
  import opened RouterArp
  import Ipv4Wire

  // ---------------------------------------------------------------- what every step keeps

  /** Event n is a dropped packet that must be reported. */
  ghost predicate NeedsReport(c: Config, e: Event<Out>) {
    e.Dropped? && Eligible(e.info.packet) && ErrorFor(c, e.info.packet).Some?
  }

  /** Errors correspond one to one to the failed packets that may be reported, each right after its
      packet, and each goes out or is queued at once; a failed ICMP error is dropped in silence. */
  ghost predicate Answered(c: Config, t: seq<Event<Out>>) {
    && (forall n :: 0 <= n < |t| && t[n].Reported? ==>
          n > 0 && NeedsReport(c, t[n - 1]) && t[n].info == Out(ErrorFor(c, t[n - 1].info.packet).value, 0, 0))
    && (forall n {:trigger NeedsReport(c, t[n])} :: 0 <= n < |t| && NeedsReport(c, t[n]) ==>
          n + 1 < |t| && t[n + 1].Reported?)
    && (forall n :: 0 <= n < |t| - 1 && t[n].Reported? ==> Carries(c, t[n + 1], t[n].info.packet))
  }

  /** A packet goes out, or is queued, for the next hop and by the port of its route. */
  predicate Carries(c: Config, e: Event<Out>, p: Ipv4Wire.Packet) {
    (e.Direct? || e.Queued?) && e.info.packet == p && IsRouted(c, p, e.ip, e.info.port)
  }

  predicate IsRouted(c: Config, p: Ipv4Wire.Packet, hop: Ip, port: int) {
    var route := Lookup(c.routes, p.dst);
    route.Some? && hop == Via(route.value, p.dst) && port == route.value.port
  }

  /** No error is made but not yet on its way. */
  predicate NothingPending(t: seq<Event<Out>>) {
    |t| > 0 ==> !t[|t| - 1].Reported?
  }

  lemma AnsweredQuiet(c: Config, t: seq<Event<Out>>, e: Event<Out>)
    requires Answered(c, t) && !e.Reported? && !NeedsReport(c, e)
    requires NothingPending(t) || Carries(c, e, t[|t| - 1].info.packet)
    ensures Answered(c, t + [e]) && NothingPending(t + [e])
  {
    hide Eligible, ErrorFor, NeedsReport, Carries;
    var r := t + [e];
    forall n | 0 <= n < |r| && NeedsReport(c, r[n])
      ensures n + 1 < |r| && r[n + 1].Reported?
    {
      assert NeedsReport(c, t[n]);
    }
  }

  lemma AnsweredReport(c: Config, t: seq<Event<Out>>, e: Event<Out>)
    requires Answered(c, t) && NothingPending(t) && NeedsReport(c, e)
    ensures Answered(c, t + [e] + [Reported(Out(ErrorFor(c, e.info.packet).value, 0, 0))])
  {
    hide Eligible, ErrorFor, Carries;
    var r := t + [e] + [Reported(Out(ErrorFor(c, e.info.packet).value, 0, 0))];
    forall n | 0 <= n < |r| && NeedsReport(c, r[n])
      ensures n + 1 < |r| && r[n + 1].Reported?
    {
      assert n < |t| ==> NeedsReport(c, t[n]);
    }
  }

  ghost predicate RequestsBounded(s: Router) {
    forall ip :: OpenRequests(s.trace, ip) <= Attempts(s.queue, ip)
  }

  /** Only packets for existing ports wait. */
  ghost predicate PortsValid(c: Config, q: seq<Pending<Out>>) {
    forall p :: p in q ==> IsPort(c, p.info.port)
  }

  /** The part of the invariant that does not depend on how errors are reported. */
  ghost predicate Accounted(c: Config, s: Router) {
    && |s.queue| <= QUEUE_MAX && PortsValid(c, s.queue)
    && Conserved(s.trace, s.queue) && AtMostThreeRequests(s.trace) && RequestsBounded(s)
  }

  ghost predicate Good(c: Config, s: Router) {
    Coherent(s.queue) && Accounted(c, s) && Answered(c, s.trace) && NothingPending(s.trace)
  }

  /** The same, but the error just made may still have to be sent: p, to this hop by this port, as its
      route says, and it can be. */
  ghost predicate Ready(c: Config, s: Router, p: Ipv4Wire.Packet, hop: Ip, port: int) {
    && Coherent(s.queue) && Accounted(c, s) && Answered(c, s.trace)
    && (NothingPending(s.trace) ||
        (s.trace[|s.trace| - 1].info.packet == p && IsRouted(c, p, hop, port) && IsPort(c, port)
         && |p.payload| <= Ipv4Wire.MAX_PAYLOAD && |s.queue| < QUEUE_MAX))
  }

  /** Events that move no packet and ask for no address. */
  lemma QuietAccounted(c: Config, s: Router, e: Event<Out>)
    requires Accounted(c, s) && (e.Direct? || e.Reported? || e.Failed?)
    ensures Accounted(c, Log(s, e))
  {
    hide Conserved, AtMostThreeRequests, OpenRequests, Attempts;
    ConservedIdle(s.trace, s.queue, e);
    AtMostThreeSnoc(s.trace, e);
    forall x
      ensures OpenRequests(s.trace + [e], x) <= Attempts(s.queue, x)
    {
      Snoc(s.trace, e, x);
      assert OpenRequests(s.trace, x) <= Attempts(s.queue, x);
    }
  }

  lemma {:induction false} AttemptsOfRemove(q: seq<Pending<Out>>, ip: Ip, x: Ip)
    requires IndexFor(q, ip) < |q| && x != ip
    ensures Attempts(RemoveAt(q, IndexFor(q, ip)), x) == Attempts(q, x)
  {
    var k := IndexFor(q, ip);
    hide Attempts;
    AttemptsOfHead(q, x);
    if k == 0 {
      assert RemoveAt(q, 0) == q[1..];
    } else {
      AttemptsOfRemove(q[1..], ip, x);
      var less := RemoveAt(q, k);
      assert less[0] == q[0] && less[1..] == RemoveAt(q[1..], k - 1);
      AttemptsOfHead(less, x);
    }
  }

  lemma LeaveAccounted(c: Config, s: Router, ip: Ip, e: Event<Out>)
    requires Accounted(c, s) && IndexFor(s.queue, ip) < |s.queue|
    requires Leaving(e) && e.ip == ip && e.info == First(s, ip).info
    ensures Accounted(c, Log(Removed(s, ip), e))
  {
    hide Conserved, AtMostThreeRequests, OpenRequests, Attempts, RemoveAt, IndexFor;
    ConservedFirst(s.trace, s.queue, ip, e);
    AtMostThreeSnoc(s.trace, e);
    assert PortsValid(c, Removed(s, ip).queue) by { RemovePorts(c, s.queue, IndexFor(s.queue, ip)); }
    forall x
      ensures OpenRequests(s.trace + [e], x) <= Attempts(Removed(s, ip).queue, x)
    {
      Snoc(s.trace, e, x);
      assert OpenRequests(s.trace, x) <= Attempts(s.queue, x);
      if x != ip {
        AttemptsOfRemove(s.queue, ip, x);
      }
    }
  }

  lemma RemovePorts(c: Config, q: seq<Pending<Out>>, k: nat)
    requires PortsValid(c, q) && k < |q|
    ensures PortsValid(c, RemoveAt(q, k))
  {
    hide IsPort;
    assert forall p :: p in RemoveAt(q, k) ==> p in q;
  }

  lemma AppendPorts(c: Config, q: seq<Pending<Out>>, hop: Ip, out: Out, now: real)
    requires PortsValid(c, q) && IsPort(c, out.port)
    ensures PortsValid(c, q + [Waiting(q, hop, out, now)])
  {
    hide IsPort, IndexFor;
  }

  lemma StampPorts(c: Config, q: seq<Pending<Out>>, ip: Ip, attempts: nat, last: real)
    requires PortsValid(c, q)
    ensures PortsValid(c, Stamp(q, ip, attempts, last))
  {
    hide IsPort, Stamp;
    var r := Stamp(q, ip, attempts, last);
    forall p | p in r
      ensures IsPort(c, p.info.port)
    {
      var i :| 0 <= i < |r| && r[i] == p;
      assert q[i] in q;
    }
  }

  lemma AppendAccounted(c: Config, s: Router, out: Out, hop: Ip)
    requires Accounted(c, s) && |s.queue| < QUEUE_MAX && IsPort(c, out.port)
    ensures Accounted(c, Appended(c, s, out, hop))
    ensures IndexFor(s.queue, hop) == |s.queue| ==>
              OpenRequests(Appended(c, s, out, hop).trace, hop) == 0
              && Attempts(Appended(c, s, out, hop).queue, hop) == 1
  {
    hide Conserved, AtMostThreeRequests, OpenRequests, IndexFor;
    var p := Waiting(s.queue, hop, out, Now(c, s));
    ConservedQueued(s.trace, s.queue, p);
    AtMostThreeSnoc(s.trace, Queued(hop, out));
    AppendPorts(c, s.queue, hop, out, Now(c, s));
    forall x
      ensures OpenRequests(s.trace + [Queued(hop, out)], x) <= Attempts(s.queue, x) <= Attempts(s.queue + [p], x)
    {
      Snoc(s.trace, Queued(hop, out), x);
      AttemptsOfAppend(s.queue, p, x);
      assert OpenRequests(s.trace, x) <= Attempts(s.queue, x);
    }
    AttemptsOfAppend(s.queue, p, hop);
    assert OpenRequests(s.trace + [Queued(hop, out)], hop) <= Attempts(s.queue, hop);
  }

  lemma RequestAccounted(c: Config, s: Router, ip: Ip)
    requires Accounted(c, s) && OpenRequests(s.trace, ip) < Attempts(s.queue, ip) <= MAX_ATTEMPTS
    ensures Accounted(c, Log(s, Requested(ip)))
  {
    hide Conserved, AtMostThreeRequests, OpenRequests, Attempts;
    ConservedIdle(s.trace, s.queue, Requested(ip));
    AtMostThreeSnoc(s.trace, Requested(ip));
    forall x
      ensures OpenRequests(s.trace + [Requested(ip)], x) <= Attempts(s.queue, x)
    {
      Snoc(s.trace, Requested(ip), x);
      assert OpenRequests(s.trace, x) <= Attempts(s.queue, x);
    }
  }

  lemma StampAccounted(c: Config, s: Router, ip: Ip, attempts: nat, last: real)
    requires Accounted(c, s) && IndexFor(s.queue, ip) < |s.queue| && attempts > Attempts(s.queue, ip)
    ensures var r := s.(queue := Stamp(s.queue, ip, attempts, last));
            Accounted(c, r) && OpenRequests(r.trace, ip) < Attempts(r.queue, ip) == attempts
  {
    hide Conserved, AtMostThreeRequests, OpenRequests, Stamp, Attempts, IndexFor;
    ConservedStamp(s.trace, s.queue, ip, attempts, last);
    AttemptsOfStamp(s.queue, ip, attempts, last, ip);
    StampPorts(c, s.queue, ip, attempts, last);
    assert OpenRequests(s.trace, ip) <= Attempts(s.queue, ip);
    forall x
      ensures OpenRequests(s.trace, x) <= Attempts(Stamp(s.queue, ip, attempts, last), x)
    {
      AttemptsOfStamp(s.queue, ip, attempts, last, x);
      assert OpenRequests(s.trace, x) <= Attempts(s.queue, x);
    }
  }

  lemma WaitingAttempts(q: seq<Pending<Out>>, p: Pending<Out>)
    requires Coherent(q) && p in q
    ensures IndexFor(q, p.ip) < |q| && Attempts(q, p.ip) == p.attempts
  {
    hide IndexFor;
    GroupState(q, p);
  }

  lemma FlushKnownGood(c: Config, s: Router, ip: Ip)
    requires Good(c, s) && ip in s.arp
    ensures Good(c, FlushKnown(c, s, ip))
    decreases |s.queue|
  {
    hide Accounted, Answered, NeedsReport, Coherent, SendKnown, RemoveAt, IndexFor;
    if IndexFor(s.queue, ip) < |s.queue| {
      var p := First(s, ip);
      var e := Flushed(ip, s.arp[ip].mac, p.info);
      RemovedStep(s, ip);
      LeaveAccounted(c, s, ip, e);
      QuietEvents(c, e);
      AnsweredQuiet(c, s.trace, e);
      SendKnownGood(c, Log(Removed(s, ip), e), p.info.packet, ip, p.info.port);
      KnownKeeps(c, s, ip);
      FlushKnownGood(c, FlushOne(c, s, ip), ip);
    }
  }

  lemma KnownKeeps(c: Config, s: Router, ip: Ip)
    requires Coherent(s.queue) && IndexFor(s.queue, ip) < |s.queue| && ip in s.arp
    ensures FlushOne(c, s, ip).queue == Removed(s, ip).queue && FlushOne(c, s, ip).arp == s.arp
  {
  }

  lemma AccountsIgnoreTheTable(c: Config, s: Router, t: Router)
    requires Good(c, s) && t.queue == s.queue && t.trace == s.trace
    ensures Good(c, t)
  {
    hide Conserved, AtMostThreeRequests, Answered, Coherent, OpenRequests, Attempts, PortsValid;
    forall ip
      ensures OpenRequests(t.trace, ip) <= Attempts(t.queue, ip)
    {
      assert OpenRequests(s.trace, ip) <= Attempts(s.queue, ip);
    }
  }

  lemma HeardGood(c: Config, s: Router, ip: Ip, port: int)
    requires Good(c, s) && IndexFor(s.queue, ip) < |s.queue|
    ensures Coherent(s.queue) && Good(c, Heard(c, s, ip, port))
    decreases Eligibles(s.queue), AnswersLeft(c, s), Remaining(s.queue), 1
  {
    hide Good, Flush, FlushKnown, Coherent, Eligibles, Remaining, IndexFor;
    assert Coherent(s.queue) by { GoodIsCoherent(c, s); }
    var answer := Reply(c, s, ip);
    if answer.Some? {
      var learned := Learn(s, port, ip, answer.value.mac, answer.value.vlan);
      AccountsIgnoreTheTable(c, s, learned);
      if ip in learned.arp {
        FlushKnownGood(c, learned, ip);
      } else {
        FlushGood(c, learned, ip);
      }
    }
  }

  lemma FlushGood(c: Config, s: Router, ip: Ip)
    requires Good(c, s)
    ensures Good(c, Flush(c, s, ip))
    decreases Eligibles(s.queue), AnswersFrom(c, |s.trace| + 1), Remaining(s.queue) + MAX_ATTEMPTS, 5
  {
    hide Good, FlushKnown, Turn, IndexFor, Eligibles, Remaining;
    GoodIsCoherent(c, s);
    if ip in s.arp {
      FlushKnownGood(c, s, ip);
    } else if IndexFor(s.queue, ip) < |s.queue| {
      TurnGood(c, s, ip);
      AccountsIgnoreTheTable(c, Turn(c, s, ip), Turn(c, s, ip).(stuck := true));
    }
  }

  lemma TurnGood(c: Config, s: Router, ip: Ip)
    requires Good(c, s) && IndexFor(s.queue, ip) < |s.queue|
    ensures Good(c, Turn(c, s, ip))
    decreases Eligibles(s.queue), AnswersFrom(c, |s.trace| + 1), Remaining(s.queue) + MAX_ATTEMPTS, 4
  {
    hide Accounted, Answered, NeedsReport, Coherent, SendToNextHop, RemoveAt, IndexFor, Eligibles, Remaining, Weight;
    var p := First(s, ip);
    var e := Retaken(ip, p.info);
    RemovedStep(s, ip);
    LeaveAccounted(c, s, ip, e);
    QuietEvents(c, e);
    AnsweredQuiet(c, s.trace, e);
    SendGood(c, Log(Removed(s, ip), e), p.info.packet, ip, p.info.port);
  }

  lemma RetryGood(c: Config, s: Router, p: Pending<Out>)
    requires Good(c, s) && p in s.queue && p.attempts < MAX_ATTEMPTS
    ensures Good(c, Retrying(c, s, p))
    decreases Eligibles(s.queue), AnswersLeft(c, s), Remaining(s.queue), 0, 0
  {
    hide Coherent, Good, InterfaceIp, Eligibles, Remaining, Heard, Stamp;
    GoodIsCoherent(c, s);
    StampedStep(s, p);
    AskedAgainGood(c, s, p);
    var asked := Log(s.(queue := Stamp(s.queue, p.ip, p.attempts + 1, p.last + RETRY_INTERVAL)), Requested(p.ip));
    HeardGood(c, asked, p.ip, p.info.port);
  }

  lemma AskedAgainGood(c: Config, s: Router, p: Pending<Out>)
    requires Good(c, s) && p in s.queue && p.attempts < MAX_ATTEMPTS
    ensures var stamped := s.(queue := Stamp(s.queue, p.ip, p.attempts + 1, p.last + RETRY_INTERVAL));
            Good(c, stamped) && Good(c, Log(stamped, Requested(p.ip)))
  {
    hide Coherent, Accounted, Answered, Attempts, IndexFor, OpenRequests, Stamp, NeedsReport, Eligibles, Remaining;
    WaitingAttempts(s.queue, p);
    StampedStep(s, p);
    StampAccounted(c, s, p.ip, p.attempts + 1, p.last + RETRY_INTERVAL);
    var stamped := s.(queue := Stamp(s.queue, p.ip, p.attempts + 1, p.last + RETRY_INTERVAL));
    RequestAccounted(c, stamped, p.ip);
    QuietEvents(c, Requested(p.ip));
    AnsweredQuiet(c, s.trace, Requested(p.ip));
  }

  lemma QuietEvents(c: Config, e: Event<Out>)
    requires !e.Dropped?
    ensures !NeedsReport(c, e)
  {
  }

  lemma SendKnownGood(c: Config, s: Router, p: Ipv4Wire.Packet, hop: Ip, port: int)
    requires Ready(c, s, p, hop, port) && hop in s.arp
    ensures Good(c, SendKnown(c, s, p, hop, port).1)
  {
    hide Accounted, Answered, NeedsReport, Coherent, VlanFor, IsRouted;
    var e := Direct(hop, s.arp[hop].mac, Out(p, port, VlanFor(s.arp, s.vlans, hop, port)));
    QuietEvents(c, e);
    QuietAccounted(c, s, e);
    if IsPort(c, port) && |p.payload| <= Ipv4Wire.MAX_PAYLOAD {
      AnsweredQuiet(c, s.trace, e);
    }
  }

  lemma SendGood(c: Config, s: Router, p: Ipv4Wire.Packet, hop: Ip, port: int)
    requires Ready(c, s, p, hop, port)
    ensures Good(c, SendToNextHop(c, s, p, hop, port).1)
    decreases Eligibles(s.queue) + Weight(p), AnswersLeft(c, s), Remaining(s.queue) + MAX_ATTEMPTS, 4
  {
    hide Accounted, Answered, InterfaceIp, Coherent, IndexFor, Eligible, Waiting, Eligibles, Remaining, VlanFor,
      SendKnown, Requesting, Appended, IsRouted;
    if IsPort(c, port) {
      if hop in s.arp {
        SendKnownGood(c, s, p, hop, port);
      } else if |s.queue| < QUEUE_MAX {
        var out := Out(p, port, VlanFor(s.arp, s.vlans, hop, port));
        AppendedGood(c, s, out, hop);
        AppendedStep(c, s, out, hop);
        if IndexFor(s.queue, hop) == |s.queue| && InterfaceIp(c, port) != ZERO_IP {
          AppendLogs(c, s, out, hop);
          RequestGood(c, Appended(c, s, out, hop), hop, port, Now(c, s));
        }
      }
    }
  }

  lemma AppendLogs(c: Config, s: Router, out: Out, hop: Ip)
    ensures var s1 := Appended(c, s, out, hop);
            && s1.arp == s.arp && s1.vlans == s.vlans && s1.trace == s.trace + [Queued(hop, out)]
            && s1.stuck == s.stuck
  {
  }

  lemma RequestGood(c: Config, s: Router, hop: Ip, port: int, now: real)
    requires Good(c, Log(s, Requested(hop))) && IndexFor(s.queue, hop) < |s.queue|
    ensures Coherent(s.queue) && Good(c, Requesting(c, s, hop, port, now))
    decreases Eligibles(s.queue), AnswersLeft(c, s), Remaining(s.queue), 3
  {
    hide Good, Coherent, Eligibles, Remaining, IndexFor, Heard, AwaitReply;
    var asked := Log(s, Requested(hop));
    assert Coherent(s.queue) by { GoodIsCoherent(c, asked); }
    HeardGood(c, asked, hop, port);
    AwaitGood(c, Heard(c, asked, hop, port), hop, now);
  }

  lemma AwaitGood(c: Config, s: Router, hop: Ip, now: real)
    requires Good(c, s)
    ensures Good(c, AwaitReply(c, s, hop, now))
    decreases Eligibles(s.queue), AnswersLeft(c, s), Remaining(s.queue), 2
  {
    hide Good, Poll;
    GoodIsCoherent(c, s);
    if !c.realtime {
      PollGood(c, s, now + RETRY_INTERVAL * (MAX_ATTEMPTS + 1) as real);
    }
  }

  lemma AppendedGood(c: Config, s: Router, out: Out, hop: Ip)
    requires Ready(c, s, out.packet, hop, out.port) && |s.queue| < QUEUE_MAX && IsPort(c, out.port)
    ensures Good(c, Appended(c, s, out, hop))
    ensures IndexFor(s.queue, hop) == |s.queue| ==> Good(c, Log(Appended(c, s, out, hop), Requested(hop)))
  {
    hide Accounted, Answered, Attempts, OpenRequests, NeedsReport, Coherent, IndexFor, Waiting, IsRouted;
    var s1 := Appended(c, s, out, hop);
    AppendedStep(c, s, out, hop);
    AppendAccounted(c, s, out, hop);
    QuietEvents(c, Queued(hop, out));
    AnsweredQuiet(c, s.trace, Queued(hop, out));
    if IndexFor(s.queue, hop) == |s.queue| {
      RequestAccounted(c, s1, hop);
      QuietEvents(c, Requested(hop));
      AnsweredQuiet(c, s1.trace, Requested(hop));
    }
  }

  lemma ForwardGood(c: Config, s: Router, p: Ipv4Wire.Packet)
    requires var route := Lookup(c.routes, p.dst);
             Good(c, s) || (route.Some? && Ready(c, s, p, Via(route.value, p.dst), route.value.port))
    ensures Good(c, SendIpv4(c, s, p).1)
    decreases Eligibles(s.queue) + Weight(p), AnswersLeft(c, s), Remaining(s.queue) + MAX_ATTEMPTS, 5
  {
    hide Accounted, Answered, Coherent, SendToNextHop, Lookup, Eligibles, Remaining;
    var route := Lookup(c.routes, p.dst);
    if route.Some? {
      SendGood(c, s, p, Via(route.value, p.dst), route.value.port);
    }
  }

  /** An error has a route, out of an interface with an address, and fits a packet. */
  lemma ErrorsCanGo(c: Config, original: Ipv4Wire.Packet, error: Ipv4Wire.Packet)
    requires ErrorFor(c, original) == Some(error)
    ensures var route := Lookup(c.routes, error.dst);
            && route.Some? && IsPort(c, route.value.port) && InterfaceIp(c, route.value.port) != ZERO_IP
            && |error.payload| <= Ipv4Wire.MAX_PAYLOAD
  {
    hide IcmpWire.Encode, Quote, Lookup, IcmpWire.Create;
  }

  lemma GoodIsCoherent(c: Config, s: Router)
    requires Good(c, s)
    ensures Coherent(s.queue)
  {
  }

  /** Sending the error for the packet that was dropped last. */
  lemma ReportGood(c: Config, s: Router, failed: Ipv4Wire.Packet, error: Ipv4Wire.Packet)
    requires Coherent(s.queue) && Accounted(c, s) && |s.queue| < QUEUE_MAX && ErrorFor(c, failed) == Some(error)
    requires Answered(c, s.trace + [Reported(Out(error, 0, 0))])
    ensures Good(c, SendIpv4(c, Log(s, Reported(Out(error, 0, 0))), error).1)
    decreases Eligibles(s.queue), AnswersLeft(c, s), Remaining(s.queue) + MAX_ATTEMPTS, 6
  {
    hide Accounted, Answered, Coherent, SendIpv4, ErrorFor, Eligibles, Remaining, Eligible, Lookup, InterfaceIp;
    QuietAccounted(c, s, Reported(Out(error, 0, 0)));
    ErrorsEndHere(c, failed, error);
    ErrorsCanGo(c, failed, error);
    ForwardGood(c, Log(s, Reported(Out(error, 0, 0))), error);
  }

  /** Dropping one packet and reporting it, if it may be reported. */
  lemma FailOneGood(c: Config, s: Router, ip: Ip)
    requires Good(c, s) && IndexFor(s.queue, ip) < |s.queue|
    ensures Good(c, Failing(c, s, ip))
    decreases Eligibles(s.queue), AnswersLeft(c, s), Remaining(s.queue), 0, 0
  {
    hide Answered, Conserved, AtMostThreeRequests, RequestsBounded, PortsValid, Coherent, IndexFor, SendIpv4, ErrorFor,
      Eligibles, Remaining, RemoveAt, Eligible;
    var p := First(s, ip);
    var e := Dropped(ip, p.info);
    RemovedStep(s, ip);
    var s1 := Log(Removed(s, ip), e);
    LeaveAccounted(c, s, ip, e);
    if NeedsReport(c, e) {
      AnsweredReport(c, s.trace, e);
      ReportGood(c, s1, p.info.packet, ErrorFor(c, p.info.packet).value);
    } else {
      AnsweredQuiet(c, s.trace, e);
    }
  }

  lemma DrainGood(c: Config, s: Router, ip: Ip)
    requires Good(c, s)
    ensures Good(c, Drain(c, s, ip))
    decreases Eligibles(s.queue), AnswersLeft(c, s), Remaining(s.queue), 0, 1
  {
    hide Good, IndexFor, Failing, Eligibles, Remaining;
    GoodIsCoherent(c, s);
    if !s.stuck && IndexFor(s.queue, ip) < |s.queue| {
      FailOneGood(c, s, ip);
      DrainGood(c, Failing(c, s, ip), ip);
    }
  }

  lemma PollGood(c: Config, s: Router, now: real)
    requires Good(c, s)
    ensures Good(c, Poll(c, s, now))
    decreases Eligibles(s.queue), AnswersLeft(c, s), Remaining(s.queue), 1
  {
    hide Accounted, Answered, IndexFor, Eligibles, Remaining, Coherent, Drain, IndexDue, Retrying, NeedsReport;
    var k := IndexDue(s.queue, now, false);
    if !s.stuck && k < |s.queue| {
      var p := s.queue[k];
      PollStep(c, s, p);
      if p.attempts >= MAX_ATTEMPTS {
        DrainGood(c, Log(s, Failed(p.ip)), p.ip);
        PollGood(c, Drain(c, Log(s, Failed(p.ip)), p.ip), now);
      } else {
        RetryGood(c, s, p);
        PollGood(c, Retrying(c, s, p), now);
      }
    }
  }

  lemma PollStep(c: Config, s: Router, p: Pending<Out>)
    requires Good(c, s) && p in s.queue
    ensures Good(c, Log(s, Failed(p.ip))) && IndexFor(s.queue, p.ip) < |s.queue|
  {
    GroupState(s.queue, p);
    hide Accounted, Answered, IndexFor, Eligibles, Remaining, Coherent, Retrying;
    QuietEvents(c, Failed(p.ip));
    QuietAccounted(c, s, Failed(p.ip));
    AnsweredQuiet(c, s.trace, Failed(p.ip));
  }

  // ---------------------------------------------------------------- polling leaves nothing due

  /** When polling ends, nothing is due. */
  lemma PollLeavesNothingDue(c: Config, s: Router, now: real)
    requires Coherent(s.queue)
    ensures var r := Poll(c, s, now); r.stuck || forall p :: p in r.queue ==> !IsDue(p, now, false)
    decreases Eligibles(s.queue), AnswersLeft(c, s), Remaining(s.queue)
  {
    hide Eligibles, Remaining, Coherent, Drain, IndexDue, Retrying, IsDue;
    var k := IndexDue(s.queue, now, false);
    if !s.stuck && k < |s.queue| {
      var p := s.queue[k];
      GroupState(s.queue, p);
      if p.attempts >= MAX_ATTEMPTS {
        PollLeavesNothingDue(c, Drain(c, Log(s, Failed(p.ip)), p.ip), now);
      } else {
        PollLeavesNothingDue(c, Retrying(c, s, p), now);
      }
    }
  }

  // ---------------------------------------------------------------- flushing

  /** What flushing a group puts in the trace: every packet leaves once, oldest first, each followed by
      its transmission to the resolved address. */
  function FlushEvents(c: Config, s: Router, ip: Ip, group: seq<Pending<Out>>): seq<Event<Out>>
    requires ip in s.arp
  {
    if |group| == 0 then [] else
      var o := group[0].info;
      [Flushed(ip, s.arp[ip].mac, o)] +
      (if IsPort(c, o.port) && |o.packet.payload| <= Ipv4Wire.MAX_PAYLOAD
       then [Direct(ip, s.arp[ip].mac, Out(o.packet, o.port, VlanFor(s.arp, s.vlans, ip, o.port)))] else []) +
      FlushEvents(c, s, ip, group[1..])
  }

  lemma FlushEventsOf(c: Config, s: Router, t: Router, ip: Ip, group: seq<Pending<Out>>)
    requires ip in s.arp && s.arp == t.arp && s.vlans == t.vlans
    ensures FlushEvents(c, s, ip, group) == FlushEvents(c, t, ip, group)
  {
    if |group| > 0 {
      FlushEventsOf(c, s, t, ip, group[1..]);
    }
  }

  lemma FlushOneSends(c: Config, s: Router, ip: Ip)
    requires Coherent(s.queue) && IndexFor(s.queue, ip) < |s.queue| && ip in s.arp
    ensures var r := FlushOne(c, s, ip);
            && r.queue == RemoveAt(s.queue, IndexFor(s.queue, ip)) && r.arp == s.arp && r.vlans == s.vlans
            && r.trace == s.trace + FlushEvents(c, s, ip, [First(s, ip)])
  {
    hide Coherent, VlanFor, RemoveAt, IndexFor, IsPort;
    var one := [First(s, ip)];
    assert one[1..] == [] && FlushEvents(c, s, ip, one[1..]) == [];
  }

  lemma FlushEventsHead(c: Config, s: Router, ip: Ip, p: Pending<Out>, rest: seq<Pending<Out>>)
    requires ip in s.arp
    ensures FlushEvents(c, s, ip, [p] + rest) == FlushEvents(c, s, ip, [p]) + FlushEvents(c, s, ip, rest)
  {
    hide VlanFor, IsPort;
    assert ([p] + rest)[1..] == rest && [p][1..] == [];
    assert FlushEvents(c, s, ip, [p][1..]) == [];
  }

  lemma {:induction false} FlushSendsTheGroup(c: Config, s: Router, ip: Ip)
    requires Coherent(s.queue) && ip in s.arp
    ensures var r := FlushKnown(c, s, ip);
            && r.queue == Others(s.queue, ip) && r.arp == s.arp && r.vlans == s.vlans
            && r.trace == s.trace + FlushEvents(c, s, ip, Group(s.queue, ip))
    decreases |s.queue|
  {
    hide Coherent, Group, Others, FlushEvents, RemoveAt, IndexFor, FlushOne;
    var k := IndexFor(s.queue, ip);
    if k == |s.queue| {
      EmptyGroup(s.queue, ip);
      assert FlushEvents(c, s, ip, []) == [] by { NoFlushEvents(c, s, ip); }
    } else {
      RemovedStep(s, ip);
      RemoveFirstOfGroup(s.queue, ip);
      var s1 := FlushOne(c, s, ip);
      FlushOneSends(c, s, ip);
      FlushSendsTheGroup(c, s1, ip);
      FlushEventsOf(c, s, s1, ip, Group(s1.queue, ip));
      FlushEventsHead(c, s, ip, First(s, ip), Group(s1.queue, ip));
    }
  }

  lemma NoFlushEvents(c: Config, s: Router, ip: Ip)
    requires ip in s.arp
    ensures FlushEvents(c, s, ip, []) == []
  {
  }

  // ---------------------------------------------------------------- whole runs

  /** Everything that touches the queue or its packets' way: frames with a VLAN tag, packets to forward or
      originate, ARP messages, timer polls. */
  datatype Step =
    | SeeTag(port: int, vlan: int) | Forward(p: Ipv4Wire.Packet)
    | HearArp(port: int, ip: Ip, mac: Mac, vlan: int, isReply: bool) | Tick(now: real)

  function Apply(c: Config, s: Router, step: Step): Router
    requires Coherent(s.queue)
  {
    if s.stuck then s else
    match step
    case SeeTag(port, vlan) => s.(vlans := SeenOn(s.vlans, port, vlan))
    case Forward(p) => SendIpv4(c, s, p).1
    case HearArp(port, ip, mac, vlan, isReply) =>
      var learned := Learn(s, port, ip, mac, vlan);
      if isReply then Flush(c, learned, ip) else learned
    case Tick(now) => Poll(c, s, now)
  }

  lemma ApplyGood(c: Config, s: Router, step: Step)
    requires Good(c, s)
    ensures Good(c, Apply(c, s, step))
  {
    hide Accounted, Answered, Coherent, SendIpv4, Flush, Poll;
    match step {
      case SeeTag(port, vlan) => AccountsIgnoreTheTable(c, s, s.(vlans := SeenOn(s.vlans, port, vlan)));
      case Forward(p) => ForwardGood(c, s, p);
      case HearArp(port, ip, mac, vlan, isReply) =>
        var learned := Learn(s, port, ip, mac, vlan);
        assert Good(c, learned) by { AccountsIgnoreTheTable(c, s, learned); }
        FlushGood(c, learned, ip);
      case Tick(now) => PollGood(c, s, now);
    }
  }

  /** Any steps from the start. (Steps are defined on coherent queues, which RunGood shows all to be.) */
  ghost predicate IsRun(c: Config, ss: seq<Router>, steps: seq<Step>) {
    && |ss| == |steps| + 1 && ss[0] == Router(map[], ss[0].vlans, [], [], false)
    && forall i :: 0 <= i < |steps| ==> (Coherent(ss[i].queue) ==> ss[i + 1] == Apply(c, ss[i], steps[i]))
  }

  lemma {:induction false} RunGood(c: Config, ss: seq<Router>, steps: seq<Step>, i: nat)
    requires IsRun(c, ss, steps) && i < |ss|
    ensures Good(c, ss[i])
  {
    hide Good, Apply, Coherent;
    if i == 0 {
      StartGood(c, ss[0]);
    } else {
      RunGood(c, ss, steps, i - 1);
      GoodIsCoherent(c, ss[i - 1]);
      ApplyGood(c, ss[i - 1], steps[i - 1]);
      assert ss[(i - 1) + 1] == Apply(c, ss[i - 1], steps[i - 1]);
    }
  }

  lemma StartGood(c: Config, s: Router)
    requires s.queue == [] && s.trace == []
    ensures Good(c, s)
  {
  }

  /** In every reachable state, whichever requests are answered at once and even if a flush got stuck: an
      error is made exactly for those failed packets that may be reported and have a route back, right
      after the packet and only once; it is at once sent out or queued for the next hop and by the port of
      that route, and if it fails in its turn it is never itself reported; no address is asked for a fourth
      time before one of its packets leaves; retry state is shared within a group; and for every address
      the packets accepted are those that left, in order, followed by those still waiting, in order. */
  lemma EveryRunReportsFairly(c: Config, ss: seq<Router>, steps: seq<Step>, i: nat)
    requires IsRun(c, ss, steps) && i < |ss|
    ensures var s := ss[i];
            && Answered(c, s.trace)
            && (forall n :: 0 <= n < |s.trace| && s.trace[n].Reported? ==>
                  n > 0 && s.trace[n - 1].Dropped? && Eligible(s.trace[n - 1].info.packet)
                  && !Eligible(s.trace[n].info.packet) && s.trace[n].info.packet.dst == s.trace[n - 1].info.packet.src
                  && n + 1 < |s.trace| && Carries(c, s.trace[n + 1], s.trace[n].info.packet))
            && (forall n, ip :: 0 <= n <= |s.trace| ==> OpenRequests(s.trace[..n], ip) <= 3)
            && Coherent(s.queue) && |s.queue| <= QUEUE_MAX && PortsValid(c, s.queue)
            && (forall ip :: Entered(s.trace, ip) == Left(s.trace, ip) + Infos(Group(s.queue, ip)))
  {
    RunGood(c, ss, steps, i);
    hide IsRun, OpenRequests, Entered, Left, Infos, Group, Attempts, Coherent, ErrorFor, Carries, PortsValid;
    var t := ss[i].trace;
    forall n | 0 <= n < |t| && t[n].Reported?
      ensures n > 0 && t[n - 1].Dropped? && Eligible(t[n - 1].info.packet)
      ensures !Eligible(t[n].info.packet) && t[n].info.packet.dst == t[n - 1].info.packet.src
      ensures n + 1 < |t| && Carries(c, t[n + 1], t[n].info.packet)
    {
      assert NeedsReport(c, t[n - 1]);
      ErrorsEndHere(c, t[n - 1].info.packet, t[n].info.packet);
    }
  }
}
