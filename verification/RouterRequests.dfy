/** When a router gives an address up (router_poll_arp, layer3/router.c): where every port has an address,
    after exactly three requests, none of its packets having left before. With real time packets pile up
    behind a request, and polls never nest; without it polls nest, and never does a second packet wait. */
module RouterRequests {
  import opened Base
  import opened PendingQueue
  import opened PendingTrace
  import opened RouterArp
  import opened RouterRun
  import Ipv4Wire

  /** Every port can send requests. */
  ghost predicate AllAddressed(c: Config) {
    forall port :: IsPort(c, port) ==> InterfaceIp(c, port) != ZERO_IP
  }

  /** As many requests as attempts, for every address but those of a group that is just leaving. */
  ghost predicate Settled(t: seq<Event<Out>>, q: seq<Pending<Out>>, leaving: set<Ip>) {
    forall ip :: OpenRequests(t, ip) == Attempts(q, ip) || (ip in leaving && OpenRequests(t, ip) == 0)
  }

  ghost predicate Exact(c: Config, s: Router, leaving: set<Ip>) {
    && FailsAfterThree(s.trace)
    && (s.stuck || (PortsValid(c, s.queue) && Settled(s.trace, s.queue, leaving)))
  }

  /** Without real time, nothing waits. */
  predicate Idle(c: Config, s: Router) {
    s.stuck || c.realtime || s.queue == []
  }

  /** Without real time, only one packet waits, for ip. */
  predicate Single(c: Config, s: Router, ip: Ip) {
    c.realtime || (|s.queue| == 1 && s.queue[0].ip == ip)
  }

  // ---------------------------------------------------------------- single steps

  lemma NoneAttempted(q: seq<Pending<Out>>, ip: Ip)
    requires IndexFor(q, ip) == |q|
    ensures Attempts(q, ip) == 0
  {
  }

  lemma OneLeaves(c: Config, s: Router, ip: Ip, e: Event<Out>, leaving: set<Ip>)
    requires Exact(c, s, leaving) && !s.stuck && IndexFor(s.queue, ip) < |s.queue| && Leaving(e) && e.ip == ip
    ensures Exact(c, Log(Removed(s, ip), e), leaving + {ip})
  {
    hide OpenRequests, Attempts, IndexFor, RemoveAt, PortsValid;
    FailsAfterThreeSnoc(s.trace, e);
    RemovePorts(c, s.queue, IndexFor(s.queue, ip));
    forall x
      ensures OpenRequests(s.trace + [e], x) == Attempts(Removed(s, ip).queue, x) ||
              (x in leaving + {ip} && OpenRequests(s.trace + [e], x) == 0)
    {
      Snoc(s.trace, e, x);
      assert OpenRequests(s.trace, x) == Attempts(s.queue, x) || (x in leaving && OpenRequests(s.trace, x) == 0);
      if x != ip {
        AttemptsOfRemove(s.queue, ip, x);
      }
    }
  }

  lemma OneQuiet(c: Config, s: Router, e: Event<Out>, leaving: set<Ip>)
    requires Exact(c, s, leaving) && (e.Direct? || e.Reported?)
    ensures Exact(c, Log(s, e), leaving)
  {
    hide OpenRequests, Attempts, PortsValid;
    FailsAfterThreeSnoc(s.trace, e);
    forall x
      ensures OpenRequests(s.trace + [e], x) == OpenRequests(s.trace, x)
    {
      Snoc(s.trace, e, x);
    }
  }

  /** Once a group has left, its address is no exception. */
  lemma GroupGone(c: Config, s: Router, ip: Ip, leaving: set<Ip>)
    requires Exact(c, s, leaving + {ip}) && (s.stuck || IndexFor(s.queue, ip) == |s.queue|)
    ensures Exact(c, s, leaving)
  {
    hide OpenRequests, IndexFor, PortsValid, Attempts, FailsAfterThree;
    if !s.stuck {
      NoneAttempted(s.queue, ip);
    }
  }

  lemma StillExact(c: Config, s: Router, leaving: set<Ip>, more: set<Ip>)
    requires Exact(c, s, leaving) && leaving <= more
    ensures Exact(c, s, more)
  {
    hide OpenRequests, PortsValid, Attempts, FailsAfterThree;
  }

  /** Nothing is leaving an empty queue. */
  lemma EmptyExact(c: Config, s: Router, leaving: set<Ip>)
    requires Exact(c, s, leaving) && s.queue == []
    ensures Exact(c, s, {})
  {
    hide OpenRequests, PortsValid, FailsAfterThree;
  }

  lemma TableIgnored(c: Config, s: Router, r: Router, leaving: set<Ip>)
    requires Exact(c, s, leaving) && r.queue == s.queue && r.trace == s.trace && r.stuck == s.stuck
    ensures Exact(c, r, leaving)
  {
    hide OpenRequests, PortsValid, Attempts, FailsAfterThree;
  }

  lemma OneJoins(c: Config, s: Router, out: Out, hop: Ip, leaving: set<Ip>)
    requires Exact(c, s, leaving) && !s.stuck && IsPort(c, out.port) && IndexFor(s.queue, hop) < |s.queue|
    ensures Exact(c, Appended(c, s, out, hop), leaving)
  {
    hide OpenRequests, Attempts, PortsValid, IsPort, FailsAfterThree, IndexFor;
    var p := Waiting(s.queue, hop, out, Now(c, s));
    FailsAfterThreeSnoc(s.trace, Queued(hop, out));
    AppendPorts(c, s.queue, hop, out, Now(c, s));
    forall x
      ensures OpenRequests(s.trace + [Queued(hop, out)], x) == OpenRequests(s.trace, x)
      ensures Attempts(s.queue + [p], x) == Attempts(s.queue, x)
    {
      Snoc(s.trace, Queued(hop, out), x);
      AttemptsOfAppend(s.queue, p, x);
      JoinsAttempts(s.queue, p, x);
    }
  }

  lemma JoinsAttempts(q: seq<Pending<Out>>, p: Pending<Out>, ip: Ip)
    requires IndexFor(q, p.ip) < |q|
    ensures Attempts(q + [p], ip) == Attempts(q, ip)
  {
    hide IndexFor;
    AttemptsOfAppend(q, p, ip);
  }

  /** The first packet for an address, and the first request. */
  lemma OneOpens(c: Config, s: Router, out: Out, hop: Ip, leaving: set<Ip>)
    requires Exact(c, s, leaving) && !s.stuck && IsPort(c, out.port) && IndexFor(s.queue, hop) == |s.queue|
    ensures Exact(c, Log(Appended(c, s, out, hop), Requested(hop)), leaving)
  {
    hide OpenRequests, Attempts, PortsValid, IsPort, FailsAfterThree, IndexFor;
    var p := Waiting(s.queue, hop, out, Now(c, s));
    assert p == Pending(hop, out, 1, Now(c, s));
    var t := s.trace + [Queued(hop, out)];
    FailsAfterThreeSnoc(s.trace, Queued(hop, out));
    FailsAfterThreeSnoc(t, Requested(hop));
    AppendPorts(c, s.queue, hop, out, Now(c, s));
    NoneAttempted(s.queue, hop);
    forall x
      ensures OpenRequests(t + [Requested(hop)], x) == Attempts(s.queue + [p], x) ||
              (x in leaving && OpenRequests(t + [Requested(hop)], x) == 0)
    {
      Snoc(s.trace, Queued(hop, out), x);
      Snoc(t, Requested(hop), x);
      AttemptsOfAppend(s.queue, p, x);
      if IndexFor(s.queue, x) == |s.queue| {
        NoneAttempted(s.queue, x);
      }
      assert OpenRequests(s.trace, x) == Attempts(s.queue, x) || (x in leaving && OpenRequests(s.trace, x) == 0);
    }
  }

  /** Another request for a whole group. */
  lemma OneRetries(c: Config, s: Router, p: Pending<Out>)
    requires Exact(c, s, {}) && !s.stuck && Coherent(s.queue) && p in s.queue
    ensures var stamped := s.(queue := Stamp(s.queue, p.ip, p.attempts + 1, p.last + RETRY_INTERVAL));
            Exact(c, Log(stamped, Requested(p.ip)), {})
  {
    hide OpenRequests, Attempts, PortsValid, IsPort, FailsAfterThree, IndexFor, Stamp, Coherent;
    FailsAfterThreeSnoc(s.trace, Requested(p.ip));
    StampPorts(c, s.queue, p.ip, p.attempts + 1, p.last + RETRY_INTERVAL);
    WaitingAttempts(s.queue, p);
    var q := Stamp(s.queue, p.ip, p.attempts + 1, p.last + RETRY_INTERVAL);
    forall x
      ensures OpenRequests(s.trace + [Requested(p.ip)], x) == Attempts(q, x)
    {
      Snoc(s.trace, Requested(p.ip), x);
      AttemptsOfStamp(s.queue, p.ip, p.attempts + 1, p.last + RETRY_INTERVAL, x);
      assert OpenRequests(s.trace, x) == Attempts(s.queue, x);
    }
  }

  /** Giving up after the third attempt, and so after the third request. */
  lemma OneFails(c: Config, s: Router, p: Pending<Out>)
    requires Exact(c, s, {}) && !s.stuck && Coherent(s.queue) && p in s.queue && p.attempts >= MAX_ATTEMPTS
    ensures Exact(c, Log(s, Failed(p.ip)), {p.ip})
  {
    hide OpenRequests, Attempts, PortsValid, FailsAfterThree, IndexFor;
    WaitingAttempts(s.queue, p);
    assert OpenRequests(s.trace, p.ip) == Attempts(s.queue, p.ip);
    FailsAfterThreeSnoc(s.trace, Failed(p.ip));
    forall x
      ensures OpenRequests(s.trace + [Failed(p.ip)], x) == Attempts(s.queue, x) ||
              (x == p.ip && OpenRequests(s.trace + [Failed(p.ip)], x) == 0)
    {
      Snoc(s.trace, Failed(p.ip), x);
      assert OpenRequests(s.trace, x) == Attempts(s.queue, x);
    }
  }

  // ---------------------------------------------------------------- the recursion

  lemma {:induction false} FlushKnownExact(c: Config, s: Router, ip: Ip, leaving: set<Ip>)
    requires Exact(c, s, leaving + {ip}) && !s.stuck && Coherent(s.queue) && ip in s.arp
    ensures var r := FlushKnown(c, s, ip); Exact(c, r, leaving) && (Single(c, s, ip) ==> Idle(c, r))
    decreases |s.queue|
  {
    hide Exact, Coherent, RemoveAt, IndexFor, VlanFor, IsPort, Leaving;
    if IndexFor(s.queue, ip) == |s.queue| {
      GroupGone(c, s, ip, leaving);
    } else {
      var p := First(s, ip);
      var e := Flushed(ip, s.arp[ip].mac, p.info);
      RemovedStep(s, ip);
      FlushedLeaves(e);
      OneLeaves(c, s, ip, e, leaving + {ip});
      assert leaving + {ip} + {ip} == leaving + {ip};
      var out := Out(p.info.packet, p.info.port, VlanFor(s.arp, s.vlans, ip, p.info.port));
      OneQuiet(c, Log(Removed(s, ip), e), Direct(ip, s.arp[ip].mac, out), leaving + {ip});
      KnownKeeps(c, s, ip);
      var m := FlushOne(c, s, ip);
      assert Exact(c, m, leaving + {ip});
      FlushKnownExact(c, m, ip, leaving);
      if Single(c, s, ip) && !c.realtime {
        SingleLeaves(c, s, ip);
        assert FlushKnown(c, m, ip) == m;
      }
    }
  }

  lemma FlushedLeaves(e: Event<Out>)
    requires e.Flushed? || e.Retaken? || e.Dropped?
    ensures Leaving(e)
  {
  }

  lemma SingleLeaves(c: Config, s: Router, ip: Ip)
    requires Single(c, s, ip) && !c.realtime && IndexFor(s.queue, ip) < |s.queue|
    ensures Removed(s, ip).queue == []
  {
  }

  /** A request may be answered before it returns. */
  lemma HeardExact(c: Config, s: Router, ip: Ip, port: int, leaving: set<Ip>)
    requires Exact(c, s, leaving) && !s.stuck && Coherent(s.queue) && IndexFor(s.queue, ip) < |s.queue|
    requires Single(c, s, ip) && AllAddressed(c)
    ensures var r := Heard(c, s, ip, port); Exact(c, r, leaving) && (r == s || Idle(c, r))
    decreases Eligibles(s.queue), AnswersLeft(c, s), Remaining(s.queue), 1
  {
    hide Exact, Coherent, Eligibles, Remaining, IndexFor, Flush, FlushKnown, AllAddressed;
    var answer := Reply(c, s, ip);
    if answer.Some? {
      var learned := Learn(s, port, ip, answer.value.mac, answer.value.vlan);
      TableIgnored(c, s, learned, leaving);
      if ip in learned.arp {
        StillExact(c, learned, leaving, leaving + {ip});
        FlushKnownExact(c, learned, ip, leaving);
      } else {
        FlushExact(c, learned, ip, leaving);
      }
    }
  }

  lemma FlushExact(c: Config, s: Router, ip: Ip, leaving: set<Ip>)
    requires Exact(c, s, leaving) && !s.stuck && Coherent(s.queue) && AllAddressed(c)
    requires Single(c, s, ip) || s.queue == []
    ensures var r := Flush(c, s, ip); Exact(c, r, leaving) && Idle(c, r)
    decreases Eligibles(s.queue), AnswersFrom(c, |s.trace| + 1), Remaining(s.queue) + MAX_ATTEMPTS, 5
  {
    hide Exact, Coherent, Eligibles, Remaining, IndexFor, Turn, FlushKnown, AllAddressed;
    if ip in s.arp {
      StillExact(c, s, leaving, leaving + {ip});
      FlushKnownExact(c, s, ip, leaving);
      EmptyFlush(c, s, ip);
    } else if IndexFor(s.queue, ip) < |s.queue| {
      TurnExact(c, s, ip, leaving);
      var r := Turn(c, s, ip);
      if IndexFor(r.queue, ip) == |r.queue| {
        GroupGone(c, r, ip, leaving);
      } else {
        StuckExact(c, r, leaving + {ip}, leaving);
      }
    } else {
      SingleIsThere(c, s, ip);
    }
  }

  lemma StuckExact(c: Config, s: Router, leaving: set<Ip>, fewer: set<Ip>)
    requires Exact(c, s, leaving)
    ensures Exact(c, s.(stuck := true), fewer)
  {
  }

  lemma EmptyFlush(c: Config, s: Router, ip: Ip)
    requires Coherent(s.queue) && ip in s.arp
    ensures s.queue == [] ==> FlushKnown(c, s, ip) == s
  {
  }

  lemma SingleIsThere(c: Config, s: Router, ip: Ip)
    requires (Single(c, s, ip) || s.queue == []) && IndexFor(s.queue, ip) == |s.queue|
    ensures Idle(c, s)
  {
  }

  lemma TurnExact(c: Config, s: Router, ip: Ip, leaving: set<Ip>)
    requires Exact(c, s, leaving) && !s.stuck && Coherent(s.queue) && IndexFor(s.queue, ip) < |s.queue|
    requires (Single(c, s, ip) || s.queue == []) && AllAddressed(c)
    ensures var r := Turn(c, s, ip); Exact(c, r, leaving + {ip}) && Idle(c, r)
    decreases Eligibles(s.queue), AnswersFrom(c, |s.trace| + 1), Remaining(s.queue) + MAX_ATTEMPTS, 4
  {
    hide Exact, Coherent, Eligibles, Remaining, IndexFor, SendToNextHop, RemoveAt, AllAddressed, Weight, Leaving;
    var p := First(s, ip).info;
    var e := Retaken(ip, p);
    RemovedStep(s, ip);
    FlushedLeaves(e);
    OneLeaves(c, s, ip, e, leaving);
    if !c.realtime {
      SingleLeaves(c, s, ip);
    }
    SendExact(c, Log(Removed(s, ip), e), p.packet, ip, p.port, leaving + {ip});
  }

  /** The address that has just been asked for is no exception. */
  lemma SendExact(c: Config, s: Router, p: Ipv4Wire.Packet, hop: Ip, port: int, leaving: set<Ip>)
    requires Exact(c, s, leaving) && !s.stuck && Coherent(s.queue) && Idle(c, s) && AllAddressed(c)
    ensures var r := SendToNextHop(c, s, p, hop, port).1; Exact(c, r, leaving) && Idle(c, r)
    decreases Eligibles(s.queue) + Weight(p), AnswersLeft(c, s), Remaining(s.queue) + MAX_ATTEMPTS, 4
  {
    hide Exact, InterfaceIp, Coherent, IndexFor, Eligible, Waiting, Eligibles, Remaining, VlanFor, Requesting,
      Appended;
    if IsPort(c, port) {
      assert InterfaceIp(c, port) != ZERO_IP;
      var out := Out(p, port, VlanFor(s.arp, s.vlans, hop, port));
      if hop in s.arp {
        OneQuiet(c, s, Direct(hop, s.arp[hop].mac, out), leaving);
      } else if |s.queue| < QUEUE_MAX {
        AppendedStep(c, s, out, hop);
        AppendLogs(c, s, out, hop);
        var s1 := Appended(c, s, out, hop);
        if IndexFor(s.queue, hop) < |s.queue| {
          OneJoins(c, s, out, hop, leaving);
        } else {
          var fewer := if c.realtime then leaving else {};
          if !c.realtime {
            EmptyExact(c, s, leaving);
          }
          OneOpens(c, s, out, hop, fewer);
          OpensAlone(c, s, out, hop);
          RequestExact(c, s1, hop, port, Now(c, s), fewer);
          StillExact(c, Requesting(c, s1, hop, port, Now(c, s)), fewer, leaving);
        }
      }
    }
  }

  lemma OpensAlone(c: Config, s: Router, out: Out, hop: Ip)
    requires Idle(c, s) && !s.stuck && IndexFor(s.queue, hop) == |s.queue|
    ensures var s1 := Appended(c, s, out, hop);
            c.realtime || s1.queue == [Pending(hop, out, 1, Now(c, s))]
  {
  }

  /** Without real time, everything that waits is given up by then. */
  predicate EndsBy(c: Config, s: Router, now: real) {
    c.realtime || s.queue == [] ||
    (|s.queue| == 1 && s.queue[0].last + RETRY_INTERVAL * (MAX_ATTEMPTS + 1 - s.queue[0].attempts) as real <= now)
  }

  lemma RequestExact(c: Config, s: Router, hop: Ip, port: int, now: real, leaving: set<Ip>)
    requires Exact(c, Log(s, Requested(hop)), leaving) && !s.stuck && Coherent(s.queue) && AllAddressed(c)
    requires IndexFor(s.queue, hop) < |s.queue| && hop !in s.arp
    requires c.realtime || (|s.queue| == 1 && s.queue[0].ip == hop && s.queue[0].attempts == 1
                            && s.queue[0].last == now && leaving == {})
    ensures var r := Requesting(c, s, hop, port, now); Exact(c, r, leaving) && Idle(c, r)
    decreases Eligibles(s.queue), AnswersLeft(c, s), Remaining(s.queue), 3
  {
    hide Exact, Coherent, Eligibles, Remaining, IndexFor, Heard, AwaitReply, AllAddressed, AnswersFrom;
    CountsDown(c);
    var asked := Log(s, Requested(hop));
    HeardExact(c, asked, hop, port, leaving);
    AwaitExact(c, Heard(c, asked, hop, port), hop, now, leaving);
  }

  lemma AwaitExact(c: Config, s: Router, hop: Ip, now: real, leaving: set<Ip>)
    requires Exact(c, s, leaving) && Coherent(s.queue) && AllAddressed(c)
    requires s.stuck || EndsBy(c, s, now + RETRY_INTERVAL * (MAX_ATTEMPTS + 1) as real)
    requires c.realtime || leaving == {}
    requires hop in s.arp ==> Idle(c, s)
    ensures var r := AwaitReply(c, s, hop, now); Exact(c, r, leaving) && Idle(c, r)
    decreases Eligibles(s.queue), AnswersLeft(c, s), Remaining(s.queue), 2
  {
    hide Exact, Coherent, Eligibles, Remaining, Poll, AllAddressed;
    if !s.stuck && !c.realtime {
      PollExact(c, s, now + RETRY_INTERVAL * (MAX_ATTEMPTS + 1) as real);
    }
  }

  lemma ForwardExact(c: Config, s: Router, p: Ipv4Wire.Packet, leaving: set<Ip>)
    requires Exact(c, s, leaving) && !s.stuck && Coherent(s.queue) && Idle(c, s) && AllAddressed(c)
    ensures var r := SendIpv4(c, s, p).1; Exact(c, r, leaving) && Idle(c, r)
    decreases Eligibles(s.queue) + Weight(p), AnswersLeft(c, s), Remaining(s.queue) + MAX_ATTEMPTS, 5
  {
    hide Exact, Coherent, SendToNextHop, Lookup, Eligibles, Remaining, AllAddressed, Idle;
    var route := Lookup(c.routes, p.dst);
    if route.Some? {
      SendExact(c, s, p, Via(route.value, p.dst), route.value.port, leaving);
    }
  }

  lemma ReportExact(c: Config, s: Router, failed: Ipv4Wire.Packet, leaving: set<Ip>)
    requires Exact(c, s, leaving) && !s.stuck && Coherent(s.queue) && Idle(c, s) && AllAddressed(c)
    ensures var r := Report(c, s, failed); Exact(c, r, leaving) && Idle(c, r)
    decreases Eligibles(s.queue), AnswersLeft(c, s), Remaining(s.queue) + MAX_ATTEMPTS, 6
  {
    hide Exact, Coherent, SendIpv4, Eligibles, Remaining, AllAddressed, ErrorFor, AnswersFrom, Eligible;
    if ErrorFor(c, failed).Some? {
      CountsDown(c);
      var error := ErrorFor(c, failed).value;
      ErrorsEndHere(c, failed, error);
      OneQuiet(c, s, Reported(Out(error, 0, 0)), leaving);
      ForwardExact(c, Log(s, Reported(Out(error, 0, 0))), error, leaving);
    }
  }

  lemma FailingExact(c: Config, s: Router, ip: Ip, leaving: set<Ip>)
    requires Exact(c, s, leaving) && !s.stuck && Coherent(s.queue) && IndexFor(s.queue, ip) < |s.queue|
    requires Single(c, s, ip) && AllAddressed(c)
    ensures var r := Failing(c, s, ip); Exact(c, r, leaving + {ip}) && Idle(c, r)
    decreases Eligibles(s.queue), AnswersLeft(c, s), Remaining(s.queue), 0, 0
  {
    hide Exact, Coherent, IndexFor, Report, Eligibles, Remaining, RemoveAt, Eligible, AllAddressed, AnswersFrom,
      Leaving;
    CountsDown(c);
    var p := First(s, ip);
    var e := Dropped(ip, p.info);
    RemovedStep(s, ip);
    FlushedLeaves(e);
    OneLeaves(c, s, ip, e, leaving);
    if !c.realtime {
      SingleLeaves(c, s, ip);
    }
    if Eligible(p.info.packet) {
      ReportExact(c, Log(Removed(s, ip), e), p.info.packet, leaving + {ip});
    }
  }

  lemma DrainExact(c: Config, s: Router, ip: Ip, leaving: set<Ip>)
    requires Exact(c, s, leaving + {ip}) && Coherent(s.queue) && AllAddressed(c)
    requires s.stuck || Single(c, s, ip) || s.queue == []
    ensures var r := Drain(c, s, ip); Exact(c, r, leaving) && Idle(c, r)
    decreases Eligibles(s.queue), AnswersLeft(c, s), Remaining(s.queue), 0, 1
  {
    hide Exact, Coherent, IndexFor, Failing, Eligibles, Remaining, AllAddressed, AnswersFrom;
    if s.stuck || IndexFor(s.queue, ip) == |s.queue| {
      GroupGone(c, s, ip, leaving);
      if !s.stuck {
        SingleIsThere(c, s, ip);
      }
    } else {
      assert s.queue != [];
      FailingExact(c, s, ip, leaving + {ip});
      assert leaving + {ip} + {ip} == leaving + {ip};
      DrainExact(c, Failing(c, s, ip), ip, leaving);
    }
  }

  lemma RetryExact(c: Config, s: Router, p: Pending<Out>, now: real)
    requires Exact(c, s, {}) && !s.stuck && Coherent(s.queue) && p in s.queue && p.attempts < MAX_ATTEMPTS
    requires EndsBy(c, s, now) && AllAddressed(c)
    ensures var r := Retrying(c, s, p); Exact(c, r, {}) && (Idle(c, r) || EndsBy(c, r, now))
    decreases Eligibles(s.queue), AnswersLeft(c, s), Remaining(s.queue), 0, 0
  {
    hide Coherent, InterfaceIp, Eligibles, Remaining, Heard, Stamp, Exact, AnswersFrom, IndexFor, PortsValid;
    CountsDown(c);
    OneRetries(c, s, p);
    StampedStep(s, p);
    assert InterfaceIp(c, p.info.port) != ZERO_IP by { PortOf(c, s, p); }
    var stamped := s.(queue := Stamp(s.queue, p.ip, p.attempts + 1, p.last + RETRY_INTERVAL));
    assert c.realtime || stamped.queue == [p.(attempts := p.attempts + 1, last := p.last + RETRY_INTERVAL)];
    HeardExact(c, Log(stamped, Requested(p.ip)), p.ip, p.info.port, {});
  }

  lemma PortOf(c: Config, s: Router, p: Pending<Out>)
    requires Exact(c, s, {}) && !s.stuck && p in s.queue
    ensures IsPort(c, p.info.port)
  {
    hide IsPort, Settled, FailsAfterThree;
  }

  lemma PollExact(c: Config, s: Router, now: real)
    requires Exact(c, s, {}) && Coherent(s.queue) && (s.stuck || EndsBy(c, s, now)) && AllAddressed(c)
    ensures var r := Poll(c, s, now); Exact(c, r, {}) && Idle(c, r)
    decreases Eligibles(s.queue), AnswersLeft(c, s), Remaining(s.queue), 1
  {
    hide Exact, IndexFor, Eligibles, Remaining, Coherent, Drain, IndexDue, Retrying, AllAddressed, AnswersFrom;
    CountsDown(c);
    var k := IndexDue(s.queue, now, false);
    if !s.stuck && k < |s.queue| {
      var p := s.queue[k];
      GroupState(s.queue, p);
      if p.attempts >= MAX_ATTEMPTS {
        OneFails(c, s, p);
        assert {} + {p.ip} == {p.ip};
        DrainExact(c, Log(s, Failed(p.ip)), p.ip, {});
        PollExact(c, Drain(c, Log(s, Failed(p.ip)), p.ip), now);
      } else {
        RetryExact(c, s, p, now);
        PollExact(c, Retrying(c, s, p), now);
      }
    } else if !s.stuck && !c.realtime && s.queue != [] {
      AllEnded(c, s, now);
    }
  }

  lemma AllEnded(c: Config, s: Router, now: real)
    requires EndsBy(c, s, now) && Coherent(s.queue)
    requires IndexDue(s.queue, now, false) == |s.queue|
    ensures c.realtime || s.queue == []
  {
    if |s.queue| == 1 {
      assert s.queue[0] in s.queue;
    }
  }

  // ---------------------------------------------------------------- one turn of a poll

  /** A group is given up exactly when its three attempts were made and the last lies a second back; the
      first event is the decision, and then the whole group leaves. Otherwise the whole group counts one
      attempt more, a second after the one before, and, by a port with an address, is asked for at once. */
  lemma TurnDecides(c: Config, s: Router, now: real)
    requires Coherent(s.queue) && !s.stuck && IndexDue(s.queue, now, false) < |s.queue|
    ensures var p := s.queue[IndexDue(s.queue, now, false)];
            var r := PollTurn(c, s, p);
            && p.last + 1000.0 <= now && 1 <= p.attempts <= 3
            && Poll(c, s, now) == Poll(c, r, now)
            && (p.attempts == 3 ==>
                  s.trace + [Failed(p.ip)] <= r.trace && (r.stuck || forall o :: o in r.queue ==> o.ip != p.ip))
            && (p.attempts < 3 && InterfaceIp(c, p.info.port) != ZERO_IP ==> s.trace + [Requested(p.ip)] <= r.trace)
            && (p.attempts < 3 && ((c.answers)(|s.trace| + 1).None? || InterfaceIp(c, p.info.port) == ZERO_IP) ==>
                  && r.arp == s.arp && |r.queue| == |s.queue|
                  && r.trace == s.trace + (if InterfaceIp(c, p.info.port) == ZERO_IP then [] else [Requested(p.ip)])
                  && forall i :: 0 <= i < |s.queue| ==>
                       r.queue[i] == if s.queue[i].ip != p.ip then s.queue[i]
                                     else s.queue[i].(attempts := p.attempts + 1, last := p.last + 1000.0))
  {
    hide Eligibles, Remaining, AnswersFrom, Coherent, IndexDue, Drain, IndexFor, InterfaceIp, Stamp, Retrying;
    var p := s.queue[IndexDue(s.queue, now, false)];
    GroupState(s.queue, p);
    if p.attempts == 3 {
      DrainEmpties(c, Log(s, Failed(p.ip)), p.ip);
    } else {
      assert PollTurn(c, s, p) == Retrying(c, s, p);
      RetryAsks(c, s, p);
    }
  }

  lemma RetryAsks(c: Config, s: Router, p: Pending<Out>)
    requires Coherent(s.queue) && p in s.queue && p.attempts < MAX_ATTEMPTS
    ensures var r := Retrying(c, s, p);
            var q := Stamp(s.queue, p.ip, p.attempts + 1, p.last + RETRY_INTERVAL);
            var asked := Log(s.(queue := q), Requested(p.ip));
            if InterfaceIp(c, p.info.port) == ZERO_IP then r == asked.(trace := s.trace)
            else asked.trace <= r.trace && ((c.answers)(|s.trace| + 1).None? ==> r == asked)
  {
    hide Eligibles, Remaining, AnswersFrom, Coherent, IndexFor, InterfaceIp, Stamp, Flush, FlushKnown, Learn;
    StampedStep(s, p);
    var s1 := s.(queue := Stamp(s.queue, p.ip, p.attempts + 1, p.last + RETRY_INTERVAL));
    if InterfaceIp(c, p.info.port) != ZERO_IP {
      assert Retrying(c, s, p) == Heard(c, Log(s1, Requested(p.ip)), p.ip, p.info.port);
    }
  }

  lemma DrainEmpties(c: Config, s: Router, ip: Ip)
    requires Coherent(s.queue)
    ensures var r := Drain(c, s, ip); r.stuck || forall o :: o in r.queue ==> o.ip != ip
    decreases Eligibles(s.queue), AnswersLeft(c, s), Remaining(s.queue)
  {
    hide Eligibles, Remaining, Coherent, IndexFor, AnswersFrom, Failing;
    if !s.stuck && IndexFor(s.queue, ip) < |s.queue| {
      DrainEmpties(c, Failing(c, s, ip), ip);
    }
  }

  // ---------------------------------------------------------------- whole runs

  lemma StepExact(c: Config, s: Router, step: Step)
    requires Exact(c, s, {}) && Coherent(s.queue) && Idle(c, s) && AllAddressed(c)
    ensures var r := Apply(c, s, step); Exact(c, r, {}) && Idle(c, r)
  {
    hide Exact, Coherent, SendIpv4, Flush, Poll, AllAddressed;
    if !s.stuck {
      match step {
        case SeeTag(port, vlan) => TableIgnored(c, s, s.(vlans := SeenOn(s.vlans, port, vlan)), {});
        case Forward(p) => ForwardExact(c, s, p, {});
        case HearArp(port, ip, mac, vlan, isReply) =>
          var learned := Learn(s, port, ip, mac, vlan);
          TableIgnored(c, s, learned, {});
          FlushExact(c, learned, ip, {});
        case Tick(now) => PollExact(c, s, now);
      }
    }
  }

  lemma {:induction false} RunExact(c: Config, ss: seq<Router>, steps: seq<Step>, i: nat)
    requires IsRun(c, ss, steps) && i < |ss| && AllAddressed(c)
    ensures Exact(c, ss[i], {}) && Idle(c, ss[i])
  {
    hide Exact, Apply, Coherent, AllAddressed, Good;
    if i == 0 {
      assert Exact(c, ss[0], {}) by { StartExact(c, ss[0]); }
    } else {
      RunExact(c, ss, steps, i - 1);
      assert Coherent(ss[i - 1].queue) by {
        RunGood(c, ss, steps, i - 1);
        GoodIsCoherent(c, ss[i - 1]);
      }
      StepExact(c, ss[i - 1], steps[i - 1]);
      assert ss[(i - 1) + 1] == Apply(c, ss[i - 1], steps[i - 1]);
    }
  }

  lemma StartExact(c: Config, s: Router)
    requires s.queue == [] && s.trace == []
    ensures Exact(c, s, {})
  {
  }

  /** In every run of a router whose ports all have addresses, an address is given up only after three
      requests, none of whose packets has left since the first; unless a flush got stuck, an address that
      packets wait for has been asked for as often as attempts were counted, and none else since its last
      packet left; and without real time nothing waits between two steps. */
  lemma GivenUpAfterThree(c: Config, ss: seq<Router>, steps: seq<Step>, i: nat)
    requires IsRun(c, ss, steps) && i < |ss| && forall port :: IsPort(c, port) ==> InterfaceIp(c, port) != ZERO_IP
    ensures var s := ss[i];
            && (forall n :: 0 <= n < |s.trace| && s.trace[n].Failed? ==>
                  OpenRequests(s.trace[..n], s.trace[n].ip) == 3)
            && (s.stuck || forall p :: p in s.queue ==> OpenRequests(s.trace, p.ip) == p.attempts)
            && (s.stuck || forall ip :: (forall p :: p in s.queue ==> p.ip != ip) ==> OpenRequests(s.trace, ip) == 0)
            && (s.stuck || c.realtime || s.queue == [])
  {
    hide IsRun, OpenRequests, Attempts, IsPort, InterfaceIp, Coherent;
    RunExact(c, ss, steps, i);
    var s := ss[i];
    if !s.stuck {
      assert Coherent(s.queue) by {
        RunGood(c, ss, steps, i);
        GoodIsCoherent(c, s);
      }
      forall p | p in s.queue
        ensures OpenRequests(s.trace, p.ip) == p.attempts
      {
        WaitingAttempts(s.queue, p);
        assert OpenRequests(s.trace, p.ip) == Attempts(s.queue, p.ip);
      }
      forall ip | forall p :: p in s.queue ==> p.ip != ip
        ensures OpenRequests(s.trace, ip) == 0
      {
        NoneAttempted(s.queue, ip);
        assert OpenRequests(s.trace, ip) == Attempts(s.queue, ip);
      }
    }
  }
}
