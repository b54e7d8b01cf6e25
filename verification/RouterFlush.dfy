/** Flushing when the reply could not be stored (router_flush_pending_packets, layer3/router.c): the loop
    sends the waiting packets to an address that is still unknown. When it ends, and when it never does. */
module RouterFlush {
  import opened Base
  import opened PendingQueue
  import opened PendingTrace
  import opened RouterArp
  import opened RouterRun
  import Ipv4Wire

  /** Are there packets for ip that the loop can never get rid of? */
  predicate Endless(c: Config, s: Router, ip: Ip) {
    && IndexFor(s.queue, ip) < |s.queue|
    && (c.realtime || |Group(s.queue, ip)| >= 2 || InterfaceIp(c, First(s, ip).info.port) == ZERO_IP)
  }

  lemma StillGrouped(q: seq<Pending<Out>>, ip: Ip)
    ensures IndexFor(q, ip) == |q| <==> Group(q, ip) == []
  {
    if IndexFor(q, ip) == |q| {
      EmptyGroup(q, ip);
    } else {
      RemoveFirstOfGroup(q, ip);
    }
  }

  lemma FirstOfGroup(s: Router, ip: Ip)
    requires IndexFor(s.queue, ip) < |s.queue|
    ensures |Group(s.queue, ip)| > 0 && Group(s.queue, ip)[0] == First(s, ip)
  {
    RemoveFirstOfGroup(s.queue, ip);
  }

  // ---------------------------------------------------------------- the loop that never ends

  /** q is rest with one packet more: p for ip, by this port. */
  predicate JoinedBy(q: seq<Pending<Out>>, rest: seq<Pending<Out>>, ip: Ip, p: Ipv4Wire.Packet, port: int) {
    && |q| == |rest| + 1 && q[..|rest|] == rest
    && q[|rest|].ip == ip && q[|rest|].info.packet == p && q[|rest|].info.port == port
  }

  lemma LastIsFirst(q: seq<Pending<Out>>, rest: seq<Pending<Out>>, ip: Ip, p: Ipv4Wire.Packet, port: int)
    requires JoinedBy(q, rest, ip, p, port) && IndexFor(rest, ip) == |rest|
    ensures IndexFor(q, ip) == |rest| && RemoveAt(q, |rest|) == rest
  {
    hide IndexFor;
    assert forall i :: 0 <= i < |rest| ==> rest[i] == q[i];
  }

  lemma AppendJoins(c: Config, s: Router, out: Out, ip: Ip)
    ensures JoinedBy(Appended(c, s, out, ip).queue, s.queue, ip, out.packet, out.port)
  {
  }

  /** Sent without room for an answer, the packet just joins the queue, unless retries run at once. */
  lemma SendRequeues(c: Config, s: Router, p: Ipv4Wire.Packet, ip: Ip, port: int)
    requires Coherent(s.queue) && |s.queue| < QUEUE_MAX && NoRoom(s, ip) && IsPort(c, port)
    requires c.realtime || IndexFor(s.queue, ip) < |s.queue| || InterfaceIp(c, port) == ZERO_IP
    ensures var r := SendToNextHop(c, s, p, ip, port).1;
            r.arp == s.arp && JoinedBy(r.queue, s.queue, ip, p, port)
    decreases AnswersLeft(c, s), 1
  {
    hide AnswersFrom, Coherent, Eligibles, Remaining, VlanFor, IndexFor, Eligible, InterfaceIp, Appended, Heard,
      JoinedBy;
    CountsDown(c);
    var out := Out(p, port, VlanFor(s.arp, s.vlans, ip, port));
    AppendedStep(c, s, out, ip);
    AppendLogs(c, s, out, ip);
    AppendJoins(c, s, out, ip);
    var s1 := Appended(c, s, out, ip);
    if IndexFor(s.queue, ip) == |s.queue| && InterfaceIp(c, port) != ZERO_IP {
      HeardRequeues(c, Log(s1, Requested(ip)), s.queue, p, ip, port);
      assert Requesting(c, s1, ip, port, Now(c, s)) == Heard(c, Log(s1, Requested(ip)), ip, port);
    }
  }

  /** An answer that finds no room flushes, and so sends, the packet once more. */
  lemma HeardRequeues(c: Config, s: Router, rest: seq<Pending<Out>>, p: Ipv4Wire.Packet, ip: Ip, port: int)
    requires Coherent(s.queue) && |rest| < QUEUE_MAX && NoRoom(s, ip) && IsPort(c, port) && c.realtime
    requires JoinedBy(s.queue, rest, ip, p, port) && IndexFor(rest, ip) == |rest| && IndexFor(s.queue, ip) < |s.queue|
    ensures var r := Heard(c, s, ip, port); r.arp == s.arp && JoinedBy(r.queue, rest, ip, p, port)
    decreases AnswersLeft(c, s), 0
  {
    hide Coherent, Eligibles, Remaining, SendToNextHop, IndexFor, JoinedBy, RemoveAt;
    LastIsFirst(s.queue, rest, ip, p, port);
    var answer := Reply(c, s, ip);
    if answer.Some? {
      var learned := Learn(s, port, ip, answer.value.mac, answer.value.vlan);
      RemovedStep(learned, ip);
      TailOf(s.queue, rest, ip, p, port);
      var s1 := Log(Removed(learned, ip), Retaken(ip, First(learned, ip).info));
      SendRequeues(c, s1, p, ip, port);
      assert Turn(c, learned, ip) == SendToNextHop(c, s1, p, ip, port).1;
    }
  }

  lemma TailOf(q: seq<Pending<Out>>, rest: seq<Pending<Out>>, ip: Ip, p: Ipv4Wire.Packet, port: int)
    requires JoinedBy(q, rest, ip, p, port)
    ensures |q| == |rest| + 1 && q[|rest|].info.packet == p && q[|rest|].info.port == port
  {
  }

  lemma RemovedIsShorter(s: Router, ip: Ip)
    requires IndexFor(s.queue, ip) < |s.queue|
    ensures |Removed(s, ip).queue| == |s.queue| - 1
  {
  }

  /** Each turn takes the oldest packet of such a group out and queues it again at the end. */
  lemma TurnRequeues(c: Config, s: Router, ip: Ip)
    requires Good(c, s) && NoRoom(s, ip) && Endless(c, s, ip)
    ensures var r := Turn(c, s, ip);
            var p := First(s, ip).info;
            r.arp == s.arp && JoinedBy(r.queue, Removed(s, ip).queue, ip, p.packet, p.port)
  {
    hide Coherent, Group, Eligibles, Remaining, RemoveAt, IndexFor, InterfaceIp, SendToNextHop, JoinedBy, Good;
    var p := First(s, ip);
    assert Coherent(s.queue) && |s.queue| <= QUEUE_MAX && IsPort(c, p.info.port) by { GoodPorts(c, s, p); }
    RemovedStep(s, ip);
    RemovedIsShorter(s, ip);
    RemoveFirstOfGroup(s.queue, ip);
    var s1 := Log(Removed(s, ip), Retaken(ip, p.info));
    StillGrouped(s1.queue, ip);
    SendRequeues(c, s1, p.info.packet, ip, p.info.port);
  }

  lemma GoodPorts(c: Config, s: Router, p: Pending<Out>)
    requires Good(c, s)
    ensures Coherent(s.queue) && |s.queue| <= QUEUE_MAX && (p in s.queue ==> IsPort(c, p.info.port))
  {
    hide IsPort;
  }

  lemma GroupMoves(s: Router, r: Router, ip: Ip)
    requires IndexFor(s.queue, ip) < |s.queue|
    requires JoinedBy(r.queue, Removed(s, ip).queue, ip, First(s, ip).info.packet, First(s, ip).info.port)
    ensures var before, after := Group(s.queue, ip), Group(r.queue, ip);
            && |r.queue| == |s.queue| && |after| == |before| > 0 && after[..|after| - 1] == before[1..]
            && after[|after| - 1].info.packet == before[0].info.packet
            && after[|after| - 1].info.port == before[0].info.port
  {
    hide Group, IndexFor, RemoveAt;
    RemoveFirstOfGroup(s.queue, ip);
    RemovedIsShorter(s, ip);
    var rest := Removed(s, ip).queue;
    assert r.queue == rest + [r.queue[|rest|]];
    GroupAppend(rest, r.queue[|rest|], ip);
  }

  /** n turns of the loop, unless one of them is stuck itself. */
  function Turns(c: Config, s: Router, ip: Ip, n: nat): (r: Router)
    requires Coherent(s.queue)
    ensures Coherent(r.queue)
    decreases n
  {
    if n == 0 || s.stuck || IndexFor(s.queue, ip) == |s.queue| then s else Turns(c, Turn(c, s, ip), ip, n - 1)
  }

  /** Such a loop never ends: after every number of turns the group is as large as before. */
  lemma {:induction false} FlushNeverEnds(c: Config, s: Router, ip: Ip, n: nat)
    requires Good(c, s) && NoRoom(s, ip) && Endless(c, s, ip)
    ensures Coherent(s.queue)
    ensures var r := Turns(c, s, ip, n);
            && r.arp == s.arp && |r.queue| == |s.queue| && |Group(r.queue, ip)| == |Group(s.queue, ip)| > 0
            && Endless(c, r, ip)
    decreases n
  {
    hide Good, Coherent, Group, IndexFor, InterfaceIp, Turn, JoinedBy;
    assert Coherent(s.queue) by { GoodIsCoherent(c, s); }
    FirstOfGroup(s, ip);
    if n > 0 && !s.stuck {
      TurnRequeues(c, s, ip);
      var r := Turn(c, s, ip);
      GroupMoves(s, r, ip);
      StillGrouped(r.queue, ip);
      FirstOfGroup(r, ip);
      TurnGood(c, s, ip);
      FlushNeverEnds(c, r, ip, n - 1);
    }
  }

  // ---------------------------------------------------------------- what becomes of a group without room

  /** r follows s and nothing was sent to ip meanwhile; the ARP table has the same addresses. */
  ghost predicate Since(s: Router, r: Router, ip: Ip) {
    && r.arp.Keys == s.arp.Keys && |s.trace| <= |r.trace| && r.trace[..|s.trace|] == s.trace
    && forall n :: |s.trace| <= n < |r.trace| && r.trace[n].Flushed? ==> r.trace[n].ip != ip
  }

  function Deadline(p: Pending<Out>): real {
    p.last + RETRY_INTERVAL * (MAX_ATTEMPTS as real - p.attempts as real)
  }

  ghost predicate DroppedSince(s: Router, r: Router, ip: Ip, p: Ipv4Wire.Packet) {
    exists n :: |s.trace| <= n < |r.trace| && r.trace[n].Dropped? && r.trace[n].ip == ip && r.trace[n].info.packet == p
  }

  /** What becomes of the packets for ip, unless a flush gets stuck: none appear, or the oldest still waits
      with its deadline, or it was dropped and none are left. */
  ghost predicate Kept(s: Router, r: Router, ip: Ip) {
    Since(s, r, ip) && (s.stuck ==> r.stuck) && (r.stuck || GroupKept(s, r, ip))
  }

  ghost predicate GroupKept(s: Router, r: Router, ip: Ip) {
    var before, after := Group(s.queue, ip), Group(r.queue, ip);
    && (|before| == 0 ==> |after| == 0)
    && (|before| > 0 ==>
          if |after| > 0 then
            after[0].info.packet == before[0].info.packet && Deadline(after[0]) == Deadline(before[0])
          else DroppedSince(s, r, ip, before[0].info.packet))
  }

  lemma SinceSince(s: Router, m: Router, r: Router, ip: Ip)
    requires Since(s, m, ip) && Since(m, r, ip)
    ensures Since(s, r, ip)
    ensures forall p :: DroppedSince(s, m, ip, p) || DroppedSince(m, r, ip, p) ==> DroppedSince(s, r, ip, p)
  {
    assert r.trace[..|s.trace|] == m.trace[..|s.trace|];
    forall n | |s.trace| <= n < |m.trace|
      ensures r.trace[n] == m.trace[n]
    {
      assert r.trace[..|m.trace|][n] == m.trace[n];
    }
  }

  lemma KeptKept(s: Router, m: Router, r: Router, ip: Ip)
    requires Kept(s, m, ip) && Kept(m, r, ip)
    ensures Kept(s, r, ip)
  {
    hide Group, Since, DroppedSince, Deadline;
    SinceSince(s, m, r, ip);
  }

  /** A step that logs at most one event and leaves the group of ip alone. */
  lemma QuietKept(s: Router, r: Router, ip: Ip)
    requires r.arp.Keys == s.arp.Keys && Group(r.queue, ip) == Group(s.queue, ip) && (s.stuck ==> r.stuck)
    requires r.trace == s.trace || (exists e :: r.trace == s.trace + [e] && (e.Flushed? ==> e.ip != ip))
    ensures Kept(s, r, ip)
  {
    hide Group;
  }

  lemma StuckKept(s: Router, r: Router, ip: Ip)
    requires Since(s, r, ip)
    ensures Kept(s, r.(stuck := true), ip)
  {
  }

  lemma FlushKnownKept(c: Config, s: Router, x: Ip, ip: Ip)
    requires Coherent(s.queue) && x in s.arp && x != ip
    ensures Kept(s, FlushKnown(c, s, x), ip)
    decreases |s.queue|
  {
    hide Coherent, Group, IndexFor, RemoveAt, Kept, VlanFor, IsPort;
    if IndexFor(s.queue, x) == |s.queue| {
      QuietKept(s, s, ip);
    } else {
      RemovedStep(s, x);
      var p := First(s, x);
      var m := Log(Removed(s, x), Flushed(x, s.arp[x].mac, p.info));
      OtherGroupsKept(s.queue, x, ip);
      QuietKept(s, m, ip);
      var r := FlushOne(c, s, x);
      QuietKept(m, r, ip);
      KeptKept(s, m, r, ip);
      FlushKnownKept(c, r, x, ip);
      KeptKept(s, r, FlushKnown(c, r, x), ip);
    }
  }

  lemma StillNoRoom(s: Router, r: Router, ip: Ip)
    requires NoRoom(s, ip) && (Since(s, r, ip) || Kept(s, r, ip))
    ensures NoRoom(r, ip)
  {
    assert |r.arp.Keys| == |s.arp.Keys|;
  }

  /** An answer within a request, for whatever address. */
  lemma HeardKept(c: Config, s: Router, x: Ip, port: int, ip: Ip)
    requires Good(c, s) && NoRoom(s, ip) && !c.realtime && IndexFor(s.queue, x) < |s.queue|
    ensures Coherent(s.queue) && Kept(s, Heard(c, s, x, port), ip)
    decreases Eligibles(s.queue), AnswersLeft(c, s), Remaining(s.queue), 1
  {
    hide Coherent, Group, Good, Kept, Flush, FlushKnown, Eligibles, Remaining, IndexFor;
    GoodIsCoherent(c, s);
    var answer := Reply(c, s, x);
    if answer.None? {
      QuietKept(s, s, ip);
    } else {
      var learned := Learn(s, port, x, answer.value.mac, answer.value.vlan);
      assert learned.arp.Keys == s.arp.Keys;
      QuietKept(s, learned, ip);
      StillNoRoom(s, learned, ip);
      AccountsIgnoreTheTable(c, s, learned);
      if x in learned.arp {
        FlushKnownKept(c, learned, x, ip);
        KeptKept(s, learned, FlushKnown(c, learned, x), ip);
      } else {
        FlushKept(c, learned, x, ip);
        KeptKept(s, learned, Flush(c, learned, x), ip);
      }
    }
  }

  lemma FlushKept(c: Config, s: Router, x: Ip, ip: Ip)
    requires Good(c, s) && NoRoom(s, ip) && !c.realtime
    ensures Coherent(s.queue) && Kept(s, Flush(c, s, x), ip)
    decreases Eligibles(s.queue), AnswersFrom(c, |s.trace| + 1), Remaining(s.queue) + MAX_ATTEMPTS, 8
  {
    hide Coherent, Group, Good, Kept, Since, IndexFor, Turn, FlushKnown, Eligibles, Remaining, Endless, DroppedSince;
    assert Coherent(s.queue) by { GoodIsCoherent(c, s); }
    if x in s.arp {
      FlushKnownKept(c, s, x, ip);
    } else if IndexFor(s.queue, x) == |s.queue| {
      QuietKept(s, s, ip);
    } else if x != ip {
      TurnOtherKept(c, s, x, ip);
      KeptIsSince(s, Turn(c, s, x), ip);
      StuckKept(s, Turn(c, s, x), ip);
    } else {
      TurnKept(c, s, ip);
      StuckKept(s, Turn(c, s, ip), ip);
      StillGrouped(Turn(c, s, ip).queue, ip);
      if Endless(c, s, ip) {
        TurnRequeues(c, s, ip);
        GroupMoves(s, Turn(c, s, ip), ip);
      } else {
        OwnGroupGone(s, Turn(c, s, ip), ip);
      }
    }
  }

  lemma KeptIsSince(s: Router, r: Router, ip: Ip)
    requires Kept(s, r, ip)
    ensures Since(s, r, ip)
  {
  }

  lemma OwnGroupGone(s: Router, r: Router, ip: Ip)
    requires IndexFor(s.queue, ip) < |s.queue| && Since(s, r, ip) && (s.stuck ==> r.stuck)
    requires r.stuck || (Group(r.queue, ip) == [] && DroppedSince(s, r, ip, First(s, ip).info.packet))
    ensures Kept(s, r, ip)
  {
    hide Group, IndexFor, Since, DroppedSince;
    FirstOfGroup(s, ip);
  }

  /** A turn of the loop for another address. */
  lemma TurnOtherKept(c: Config, s: Router, x: Ip, ip: Ip)
    requires Good(c, s) && NoRoom(s, ip) && !c.realtime && IndexFor(s.queue, x) < |s.queue| && x != ip
    ensures Coherent(s.queue) && Kept(s, Turn(c, s, x), ip)
    decreases Eligibles(s.queue), AnswersFrom(c, |s.trace| + 1), Remaining(s.queue) + MAX_ATTEMPTS, 7
  {
    hide Coherent, Group, Good, Kept, IndexFor, RemoveAt, Eligibles, Remaining, Eligible, SendToNextHop;
    assert Coherent(s.queue) by { GoodIsCoherent(c, s); }
    RemovedStep(s, x);
    var p := First(s, x).info;
    var s1 := Log(Removed(s, x), Retaken(x, p));
    RetakenGood(c, s, x);
    OtherGroupsKept(s.queue, x, ip);
    QuietKept(s, s1, ip);
    GoodIsReady(c, s1, p.packet, x, p.port);
    SendKept(c, s1, p.packet, x, p.port, ip);
    KeptKept(s, s1, Turn(c, s, x), ip);
  }

  lemma RetakenGood(c: Config, s: Router, ip: Ip)
    requires Good(c, s) && IndexFor(s.queue, ip) < |s.queue|
    ensures Good(c, Log(Removed(s, ip), Retaken(ip, First(s, ip).info)))
  {
    hide Accounted, Answered, NeedsReport, Coherent, RemoveAt, IndexFor;
    var e := Retaken(ip, First(s, ip).info);
    RemovedStep(s, ip);
    LeaveAccounted(c, s, ip, e);
    QuietEvents(c, e);
    AnsweredQuiet(c, s.trace, e);
  }

  lemma GoodIsReady(c: Config, s: Router, p: Ipv4Wire.Packet, hop: Ip, port: int)
    requires Good(c, s)
    ensures Ready(c, s, p, hop, port)
  {
  }

  lemma LoggedSince(s: Router, r: Router, e: Event<Out>, ip: Ip)
    requires r.arp.Keys == s.arp.Keys && r.trace == s.trace + [e] && (e.Flushed? ==> e.ip != ip)
    ensures Since(s, r, ip)
  {
  }

  /** The router when the oldest packet for ip has been taken out to be sent again. */
  function Taking(s: Router, ip: Ip): Router
    requires IndexFor(s.queue, ip) < |s.queue|
  {
    Log(Removed(s, ip), Retaken(ip, First(s, ip).info))
  }

  lemma TakingOut(c: Config, s: Router, ip: Ip)
    requires Good(c, s) && NoRoom(s, ip) && IndexFor(s.queue, ip) < |s.queue|
    ensures var s1, p := Taking(s, ip), First(s, ip).info;
            && Coherent(s.queue) && Coherent(s1.queue) && Ready(c, s1, p.packet, ip, p.port)
            && |s1.queue| < QUEUE_MAX && IsPort(c, p.port) && s1.arp == s.arp && s1.stuck == s.stuck
            && |s1.trace| == |s.trace| + 1 && Since(s, s1, ip)
            && Eligibles(s1.queue) + Weight(p.packet) == Eligibles(s.queue) && Remaining(s1.queue) < Remaining(s.queue)
            && (IndexFor(s1.queue, ip) == |s1.queue| <==> |Group(s.queue, ip)| < 2)
            && Turn(c, s, ip) == SendToNextHop(c, s1, p.packet, ip, p.port).1
  {
    hide AnswersFrom, Coherent, Group, Good, Since, IndexFor, RemoveAt, Eligibles, Remaining, Weight, SendToNextHop;
    GoodPorts(c, s, First(s, ip));
    RemovedStep(s, ip);
    RemovedIsShorter(s, ip);
    RemoveFirstOfGroup(s.queue, ip);
    RetakenGood(c, s, ip);
    LoggedSince(s, Taking(s, ip), Retaken(ip, First(s, ip).info), ip);
    StillGrouped(Taking(s, ip).queue, ip);
    GoodIsReady(c, Taking(s, ip), First(s, ip).info.packet, ip, First(s, ip).info.port);
  }

  /** A turn of the loop for the address itself: unless the loop is endless, the packet is given up. */
  lemma TurnKept(c: Config, s: Router, ip: Ip)
    requires Good(c, s) && NoRoom(s, ip) && !c.realtime && IndexFor(s.queue, ip) < |s.queue|
    ensures Coherent(s.queue)
    ensures var r := Turn(c, s, ip);
            && Since(s, r, ip) && (s.stuck ==> r.stuck)
            && (Endless(c, s, ip) || r.stuck ||
                (Group(r.queue, ip) == [] && DroppedSince(s, r, ip, First(s, ip).info.packet)))
    decreases Eligibles(s.queue), AnswersFrom(c, |s.trace| + 1), Remaining(s.queue) + MAX_ATTEMPTS, 7
  {
    hide AnswersFrom, Coherent, Group, Good, Ready, Since, DroppedSince, IndexFor, Taking, Eligibles, Remaining, Weight,
      SendToNextHop, Turn, InterfaceIp;
    TakingOut(c, s, ip);
    var p, s1 := First(s, ip).info, Taking(s, ip);
    if IndexFor(s1.queue, ip) < |s1.queue| {
      SendKept(c, s1, p.packet, ip, p.port, ip);
    } else if InterfaceIp(c, p.port) == ZERO_IP {
      SendUnasked(c, s1, p.packet, ip, p.port);
    } else {
      SendOpens(c, s1, p.packet, ip, p.port);
    }
    SinceSince(s, s1, Turn(c, s, ip), ip);
  }

  /** Opening a group on an interface without an address. */
  lemma SendUnasked(c: Config, s: Router, p: Ipv4Wire.Packet, ip: Ip, port: int)
    requires Coherent(s.queue) && NoRoom(s, ip) && |s.queue| < QUEUE_MAX && IsPort(c, port)
    requires IndexFor(s.queue, ip) == |s.queue| && InterfaceIp(c, port) == ZERO_IP
    ensures var r := SendToNextHop(c, s, p, ip, port).1; Since(s, r, ip) && r.stuck == s.stuck
  {
    hide Coherent, Since, IndexFor, VlanFor, InterfaceIp, Eligibles, Remaining, Eligible, Appended;
    var out := Out(p, port, VlanFor(s.arp, s.vlans, ip, port));
    AppendedStep(c, s, out, ip);
    AppendLogs(c, s, out, ip);
    LoggedSince(s, Appended(c, s, out, ip), Queued(ip, out), ip);
  }

  lemma Opening(c: Config, s: Router, out: Out, ip: Ip)
    requires IndexFor(s.queue, ip) == |s.queue|
    ensures Group(s.queue, ip) == []
    ensures var s1 := Appended(c, s, out, ip);
            Since(s, s1, ip) && Group(s1.queue, ip) == [Pending(ip, out, 1, Now(c, s))]
  {
    hide Group, IndexFor;
    StillGrouped(s.queue, ip);
    GroupAppend(s.queue, Waiting(s.queue, ip, out, Now(c, s)), ip);
  }

  /** Opening the group of an address there is no room for: the packet is given up before the call ends. */
  lemma SendOpens(c: Config, s: Router, p: Ipv4Wire.Packet, ip: Ip, port: int)
    requires Ready(c, s, p, ip, port) && NoRoom(s, ip) && !c.realtime && |s.queue| < QUEUE_MAX
    requires IsPort(c, port) && InterfaceIp(c, port) != ZERO_IP && IndexFor(s.queue, ip) == |s.queue|
    ensures Coherent(s.queue)
    ensures var r := SendToNextHop(c, s, p, ip, port).1;
            && Since(s, r, ip) && (s.stuck ==> r.stuck)
            && (r.stuck || (Group(r.queue, ip) == [] && DroppedSince(s, r, ip, p)))
    decreases Eligibles(s.queue) + Weight(p), AnswersLeft(c, s), Remaining(s.queue) + MAX_ATTEMPTS, 5
  {
    hide Coherent, Accounted, Answered, Group, Since, DroppedSince, IndexFor, VlanFor, InterfaceIp, Eligibles,
      Remaining, Eligible, Requesting, Appended, IsRouted;
    assert Coherent(s.queue);
    var out := Out(p, port, VlanFor(s.arp, s.vlans, ip, port));
    AppendedStep(c, s, out, ip);
    AppendLogs(c, s, out, ip);
    AppendedGood(c, s, out, ip);
    Opening(c, s, out, ip);
    var s1 := Appended(c, s, out, ip);
    OpenedIsGivenUp(c, s1, Pending(ip, out, 1, Now(c, s)), port);
    SinceSince(s, s1, SendToNextHop(c, s, p, ip, port).1, ip);
  }

  lemma StampKept(s: Router, p: Pending<Out>, ip: Ip)
    requires Coherent(s.queue) && p in s.queue
    ensures Kept(s, s.(queue := Stamp(s.queue, p.ip, p.attempts + 1, p.last + RETRY_INTERVAL)), ip)
  {
    hide Coherent, Group, Stamp, DroppedSince, IndexFor;
    var before := Group(s.queue, ip);
    GroupOfStamp(s.queue, p.ip, p.attempts + 1, p.last + RETRY_INTERVAL, ip);
    if |before| > 0 {
      GroupMembers(s.queue, ip);
      assert before[0] in before;
      GroupState(s.queue, p);
      assert p.ip == ip ==> before[0].attempts == p.attempts && before[0].last == p.last;
      StampedDeadline(before[0], p);
    }
  }

  /** An attempt more, an interval later: the deadline stays. */
  lemma StampedDeadline(q: Pending<Out>, p: Pending<Out>)
    requires p.ip == q.ip ==> q.attempts == p.attempts && q.last == p.last
    ensures Deadline(StampOne(q, p.ip, p.attempts + 1, p.last + RETRY_INTERVAL)) == Deadline(q)
  {
  }

  lemma RetryKept(c: Config, s: Router, p: Pending<Out>, ip: Ip)
    requires Good(c, s) && p in s.queue && p.attempts < MAX_ATTEMPTS && NoRoom(s, ip) && !c.realtime
    ensures Coherent(s.queue) && Kept(s, Retrying(c, s, p), ip)
    decreases Eligibles(s.queue), AnswersLeft(c, s), Remaining(s.queue), 0, 2
  {
    hide Good, Coherent, Group, Kept, Stamp, Heard, InterfaceIp, Eligibles, Remaining;
    assert Coherent(s.queue) by { GoodIsCoherent(c, s); }
    var m := s.(queue := Stamp(s.queue, p.ip, p.attempts + 1, p.last + RETRY_INTERVAL));
    StampedStep(s, p);
    StampKept(s, p, ip);
    AskedAgainGood(c, s, p);
    var asked := Log(m, Requested(p.ip));
    QuietKept(m, asked, ip);
    KeptKept(s, m, asked, ip);
    HeardKept(c, asked, p.ip, p.info.port, ip);
    KeptKept(s, asked, Heard(c, asked, p.ip, p.info.port), ip);
  }

  lemma AppendKept(c: Config, s: Router, out: Out, hop: Ip, ip: Ip)
    requires hop == ip ==> IndexFor(s.queue, ip) < |s.queue|
    ensures Kept(s, Appended(c, s, out, hop), ip)
  {
    hide Group, IndexFor, Waiting, Since, DroppedSince;
    LoggedSince(s, Appended(c, s, out, hop), Queued(hop, out), ip);
    var p := Waiting(s.queue, hop, out, Now(c, s));
    assert p.ip == hop by { WaitsFor(s.queue, hop, out, Now(c, s)); }
    GroupAppend(s.queue, p, ip);
    StillGrouped(s.queue, ip);
  }

  /** Sending, to ip itself only to join its group or by an interface that has an address. */
  lemma SendKept(c: Config, s: Router, p: Ipv4Wire.Packet, hop: Ip, port: int, ip: Ip)
    requires Ready(c, s, p, hop, port) && NoRoom(s, ip) && !c.realtime
    requires hop == ip ==> IndexFor(s.queue, ip) < |s.queue| || InterfaceIp(c, port) != ZERO_IP
    ensures Coherent(s.queue) && Kept(s, SendToNextHop(c, s, p, hop, port).1, ip)
    decreases Eligibles(s.queue) + Weight(p), AnswersLeft(c, s), Remaining(s.queue) + MAX_ATTEMPTS, 6
  {
    hide Coherent, Accounted, Answered, Group, Kept, IndexFor, VlanFor, InterfaceIp, Eligibles, Remaining, Eligible,
      Requesting, Appended, IsRouted;
    assert Coherent(s.queue);
    var r := SendToNextHop(c, s, p, hop, port).1;
    var out := Out(p, port, VlanFor(s.arp, s.vlans, hop, port));
    var s1 := Appended(c, s, out, hop);
    if hop in s.arp || !IsPort(c, port) || |s.queue| >= QUEUE_MAX {
      QuietKept(s, r, ip);
    } else if hop == ip && IndexFor(s.queue, hop) == |s.queue| {
      SendOpens(c, s, p, ip, port);
      NoGroupKept(s, r, ip);
    } else {
      AppendedStep(c, s, out, hop);
      AppendLogs(c, s, out, hop);
      AppendKept(c, s, out, hop, ip);
      if IndexFor(s.queue, hop) == |s.queue| && InterfaceIp(c, port) != ZERO_IP {
        AppendedGood(c, s, out, hop);
        RequestKept(c, s1, hop, port, Now(c, s), ip);
        KeptKept(s, s1, r, ip);
      }
    }
  }

  lemma NoGroupKept(s: Router, r: Router, ip: Ip)
    requires IndexFor(s.queue, ip) == |s.queue| && Since(s, r, ip) && (s.stuck ==> r.stuck)
    requires r.stuck || Group(r.queue, ip) == []
    ensures Kept(s, r, ip)
  {
    hide Group, IndexFor, Since;
    StillGrouped(s.queue, ip);
  }

  lemma RequestKept(c: Config, s: Router, hop: Ip, port: int, now: real, ip: Ip)
    requires Good(c, s) && Good(c, Log(s, Requested(hop))) && NoRoom(s, ip) && !c.realtime
    requires IndexFor(s.queue, hop) < |s.queue|
    ensures Coherent(s.queue) && Kept(s, Requesting(c, s, hop, port, now), ip)
    decreases Eligibles(s.queue), AnswersLeft(c, s), Remaining(s.queue), 3
  {
    hide Good, Coherent, Group, Kept, Eligibles, Remaining, Heard, Poll, IndexFor;
    assert Coherent(s.queue) by { GoodIsCoherent(c, s); }
    var asked := Log(s, Requested(hop));
    var heard := Heard(c, asked, hop, port);
    var now' := now + RETRY_INTERVAL * (MAX_ATTEMPTS + 1) as real;
    QuietKept(s, asked, ip);
    HeardKept(c, asked, hop, port, ip);
    HeardGood(c, asked, hop, port);
    KeptKept(s, asked, heard, ip);
    if !heard.stuck && hop !in heard.arp {
      StillNoRoom(s, heard, ip);
      PollKept(c, heard, now', ip);
      KeptKept(s, heard, Poll(c, heard, now'), ip);
    }
  }

  /** A group that was just opened, with its first request due to go out, does not survive the polling
      that follows: three requests fit in the time. */
  lemma OpenedIsGivenUp(c: Config, s: Router, p: Pending<Out>, port: int)
    requires Good(c, s) && Good(c, Log(s, Requested(p.ip))) && NoRoom(s, p.ip) && !c.realtime
    requires Group(s.queue, p.ip) == [p] && p.attempts == 1 && IndexFor(s.queue, p.ip) < |s.queue|
    ensures Coherent(s.queue)
    ensures var r := Requesting(c, s, p.ip, port, p.last);
            && Since(s, r, p.ip) && (s.stuck ==> r.stuck)
            && (r.stuck || (Group(r.queue, p.ip) == [] && DroppedSince(s, r, p.ip, p.info.packet)))
    decreases Eligibles(s.queue), AnswersLeft(c, s), Remaining(s.queue), 4
  {
    hide Good, Coherent, Group, Eligibles, Remaining, Requesting, Since, DroppedSince, IsDue, Deadline,
      IndexFor;
    assert Coherent(s.queue) by { GoodIsCoherent(c, s); }
    RequestKept(c, s, p.ip, port, p.last, p.ip);
    var r := Requesting(c, s, p.ip, port, p.last);
    if !r.stuck && |Group(r.queue, p.ip)| > 0 {
      var g := Group(r.queue, p.ip)[0];
      assert g in Group(r.queue, p.ip);
      GroupMembers(r.queue, p.ip);
      GroupState(r.queue, g);
      var now := p.last + RETRY_INTERVAL * (MAX_ATTEMPTS + 1) as real;
      StillNoRoom(s, r, p.ip);
      NothingDueAfter(c, s, p.ip, port, p.last, g);
      DueByDeadline(p, g, now);
    }
  }

  lemma NothingDueAfter(c: Config, s: Router, ip: Ip, port: int, last: real, g: Pending<Out>)
    requires Coherent(s.queue) && NoRoom(s, ip) && !c.realtime && IndexFor(s.queue, ip) < |s.queue|
    requires var r := Requesting(c, s, ip, port, last);
             !r.stuck && NoRoom(r, ip) && g in r.queue
    ensures !IsDue(g, last + RETRY_INTERVAL * (MAX_ATTEMPTS + 1) as real, false)
  {
    hide Coherent, Heard, Poll, IsDue, IndexFor;
    var heard := Heard(c, Log(s, Requested(ip)), ip, port);
    PollLeavesNothingDue(c, heard, last + RETRY_INTERVAL * (MAX_ATTEMPTS + 1) as real);
  }

  lemma DueByDeadline(p: Pending<Out>, g: Pending<Out>, now: real)
    requires p.attempts == 1 && 1 <= g.attempts <= MAX_ATTEMPTS && Deadline(g) == Deadline(p)
    requires now == p.last + RETRY_INTERVAL * (MAX_ATTEMPTS + 1) as real
    ensures IsDue(g, now, false)
  {
  }

  lemma PollKept(c: Config, s: Router, now: real, ip: Ip)
    requires Good(c, s) && NoRoom(s, ip) && !c.realtime
    ensures Coherent(s.queue) && Kept(s, Poll(c, s, now), ip)
    decreases Eligibles(s.queue), AnswersLeft(c, s), Remaining(s.queue), 1
  {
    hide Good, Coherent, Group, Kept, Eligibles, Remaining, Drain, Retrying, IndexDue, NoRoom;
    assert Coherent(s.queue) by { GoodIsCoherent(c, s); }
    var k := IndexDue(s.queue, now, false);
    if s.stuck || k == |s.queue| {
      QuietKept(s, s, ip);
    } else {
      var p := s.queue[k];
      GroupState(s.queue, p);
      var m := if p.attempts >= MAX_ATTEMPTS then Drain(c, Log(s, Failed(p.ip)), p.ip) else Retrying(c, s, p);
      if p.attempts >= MAX_ATTEMPTS {
        GivenUpKept(c, s, p.ip, ip);
        PollStep(c, s, p);
        DrainGood(c, Log(s, Failed(p.ip)), p.ip);
      } else {
        RetryKept(c, s, p, ip);
        RetryGood(c, s, p);
      }
      StillNoRoom(s, m, ip);
      PollKept(c, m, now, ip);
      KeptKept(s, m, Poll(c, m, now), ip);
    }
  }

  lemma GivenUpKept(c: Config, s: Router, x: Ip, ip: Ip)
    requires Good(c, s) && NoRoom(s, ip) && !c.realtime
    ensures Coherent(s.queue) && Kept(s, Drain(c, Log(s, Failed(x)), x), ip)
    decreases Eligibles(s.queue), AnswersLeft(c, s), Remaining(s.queue), 0, 2
  {
    hide Good, Coherent, Group, Kept, Eligibles, Remaining, Drain;
    assert Coherent(s.queue) by { GoodIsCoherent(c, s); }
    var m := Log(s, Failed(x));
    FailedGood(c, s, x);
    QuietKept(s, m, ip);
    DrainKept(c, m, x, ip);
    KeptKept(s, m, Drain(c, m, x), ip);
  }

  lemma FailedGood(c: Config, s: Router, x: Ip)
    requires Good(c, s)
    ensures Good(c, Log(s, Failed(x)))
  {
    hide Accounted, Answered, Coherent;
    QuietEvents(c, Failed(x));
    QuietAccounted(c, s, Failed(x));
    AnsweredQuiet(c, s.trace, Failed(x));
  }

  /** One packet dropped and reported, not of ip's group. */
  lemma FailOtherKept(c: Config, s: Router, x: Ip, ip: Ip)
    requires Good(c, s) && NoRoom(s, ip) && !c.realtime && IndexFor(s.queue, x) < |s.queue| && x != ip
    ensures Coherent(s.queue) && Kept(s, Failing(c, s, x), ip)
    decreases Eligibles(s.queue), AnswersLeft(c, s), Remaining(s.queue), 0, 0
  {
    hide Good, Coherent, Group, Kept, IndexFor, RemoveAt, Eligibles, Remaining, Report;
    assert Coherent(s.queue) by { GoodIsCoherent(c, s); }
    RemovedStep(s, x);
    var p := First(s, x);
    var s1 := Log(Removed(s, x), Dropped(x, p.info));
    OtherGroupsKept(s.queue, x, ip);
    QuietKept(s, s1, ip);
    if Eligible(p.info.packet) {
      ReportKept(c, s, x, ip);
      KeptKept(s, s1, Report(c, s1, p.info.packet), ip);
    }
  }

  /** One packet of ip's own group dropped and reported. */
  lemma FailOwnSince(c: Config, s: Router, ip: Ip)
    requires Good(c, s) && NoRoom(s, ip) && !c.realtime && IndexFor(s.queue, ip) < |s.queue|
    ensures Coherent(s.queue)
    ensures var r := Failing(c, s, ip);
            Since(s, r, ip) && (s.stuck ==> r.stuck) && DroppedSince(s, r, ip, First(s, ip).info.packet)
    decreases Eligibles(s.queue), AnswersLeft(c, s), Remaining(s.queue), 0, 0
  {
    hide Good, Coherent, Group, IndexFor, RemoveAt, Eligibles, Remaining, Eligible, Report;
    assert Coherent(s.queue) by { GoodIsCoherent(c, s); }
    RemovedStep(s, ip);
    var p := First(s, ip);
    var s1 := Log(Removed(s, ip), Dropped(ip, p.info));
    assert Since(s, s1, ip) && s1.trace[|s.trace|] == Dropped(ip, p.info);
    if Eligible(p.info.packet) {
      ReportKept(c, s, ip, ip);
      SinceSince(s, s1, Report(c, s1, p.info.packet), ip);
    }
  }

  lemma DrainEmpties(c: Config, s: Router, ip: Ip)
    requires Coherent(s.queue)
    ensures var r := Drain(c, s, ip); r.stuck || IndexFor(r.queue, ip) == |r.queue|
    decreases Eligibles(s.queue), AnswersLeft(c, s), Remaining(s.queue)
  {
    hide Coherent, IndexFor, Eligibles, Remaining, Failing;
    if !s.stuck && IndexFor(s.queue, ip) < |s.queue| {
      DrainEmpties(c, Failing(c, s, ip), ip);
    }
  }

  lemma DrainKept(c: Config, s: Router, x: Ip, ip: Ip)
    requires Good(c, s) && NoRoom(s, ip) && !c.realtime
    ensures Coherent(s.queue) && Kept(s, Drain(c, s, x), ip)
    decreases Eligibles(s.queue), AnswersLeft(c, s), Remaining(s.queue), 0, 1
  {
    hide Good, Coherent, Group, Kept, Since, IndexFor, Eligibles, Remaining, Failing, NoRoom, DroppedSince;
    assert Coherent(s.queue) by { GoodIsCoherent(c, s); }
    if s.stuck || IndexFor(s.queue, x) == |s.queue| {
      QuietKept(s, s, ip);
    } else {
      var m := Failing(c, s, x);
      var r := Drain(c, m, x);
      FailOneGood(c, s, x);
      if x != ip {
        FailOtherKept(c, s, x, ip);
        StillNoRoom(s, m, ip);
        DrainKept(c, m, x, ip);
        KeptKept(s, m, r, ip);
      } else {
        FailOwnSince(c, s, ip);
        StillNoRoom(s, m, ip);
        DrainKept(c, m, x, ip);
        DrainEmpties(c, m, ip);
        OwnGroupKept(s, m, r, ip);
      }
    }
  }

  lemma OwnGroupKept(s: Router, m: Router, r: Router, ip: Ip)
    requires IndexFor(s.queue, ip) < |s.queue| && (r.stuck || IndexFor(r.queue, ip) == |r.queue|)
    requires Since(s, m, ip) && (s.stuck ==> m.stuck) && DroppedSince(s, m, ip, First(s, ip).info.packet)
    requires Kept(m, r, ip)
    ensures Kept(s, r, ip)
  {
    hide Group, IndexFor, Since, DroppedSince;
    SinceSince(s, m, r, ip);
    StillGrouped(r.queue, ip);
    FirstOfGroup(s, ip);
  }

  /** The error for the oldest packet of x, just dropped. */
  lemma ReportKept(c: Config, s: Router, x: Ip, ip: Ip)
    requires Good(c, s) && NoRoom(s, ip) && !c.realtime && IndexFor(s.queue, x) < |s.queue|
    requires Eligible(First(s, x).info.packet)
    ensures Coherent(Removed(s, x).queue)
    ensures var p := First(s, x).info;
            var s1 := Log(Removed(s, x), Dropped(x, p));
            Kept(s1, Report(c, s1, p.packet), ip)
    decreases Eligibles(Removed(s, x).queue), AnswersLeft(c, s), Remaining(Removed(s, x).queue) + MAX_ATTEMPTS, 7
  {
    hide AnswersFrom, Accounted, Answered, Coherent, Group, Kept, IndexFor, Eligibles, Remaining, SendToNextHop,
      Eligible, ErrorFor, InterfaceIp, Lookup, RemoveAt;
    CountsDown(c);
    RemovedStep(s, x);
    var p := First(s, x).info;
    var s1 := Log(Removed(s, x), Dropped(x, p));
    if ErrorFor(c, p.packet).None? {
      QuietKept(s1, s1, ip);
    } else {
      var error := ErrorFor(c, p.packet).value;
      var m := Log(s1, Reported(Out(error, 0, 0)));
      ErrorsEndHere(c, p.packet, error);
      ErrorsCanGo(c, p.packet, error);
      var route := Lookup(c.routes, error.dst).value;
      ErrorIsReady(c, s, x, error);
      QuietKept(s1, m, ip);
      SendKept(c, m, error, Via(route, error.dst), route.port, ip);
      KeptKept(s1, m, SendIpv4(c, m, error).1, ip);
    }
  }

  lemma ErrorIsReady(c: Config, s: Router, x: Ip, error: Ipv4Wire.Packet)
    requires Good(c, s) && IndexFor(s.queue, x) < |s.queue| && Eligible(First(s, x).info.packet)
    requires ErrorFor(c, First(s, x).info.packet) == Some(error)
    ensures var route := Lookup(c.routes, error.dst);
            var m := Log(Log(Removed(s, x), Dropped(x, First(s, x).info)), Reported(Out(error, 0, 0)));
            route.Some? && Ready(c, m, error, Via(route.value, error.dst), route.value.port)
  {
    hide Answered, Conserved, AtMostThreeRequests, RequestsBounded, PortsValid, Coherent, IndexFor, ErrorFor, RemoveAt,
      Eligible, Lookup, InterfaceIp, Eligibles, Remaining;
    var p := First(s, x).info;
    var e := Dropped(x, p);
    RemovedStep(s, x);
    var s1 := Log(Removed(s, x), e);
    LeaveAccounted(c, s, x, e);
    AnsweredReport(c, s.trace, e);
    QuietAccounted(c, s1, Reported(Out(error, 0, 0)));
    ErrorsCanGo(c, p.packet, error);
  }

  // ---------------------------------------------------------------- when the loop ends

  /** Otherwise, a single packet without real time on an interface with an address, the loop ends after one
      turn, unless an answer within the turn starts one that never ends: nothing gets stuck if none arrives.
      The packet opens its group anew, is asked for in vain, and is dropped; nothing was flushed and nothing
      waits any more. */
  lemma FlushGivesUp(c: Config, s: Router, ip: Ip)
    requires Good(c, s) && NoRoom(s, ip) && IndexFor(s.queue, ip) < |s.queue| && !Endless(c, s, ip)
    ensures Coherent(s.queue)
    ensures var r := Turn(c, s, ip);
            && NoRoom(r, ip)
            && ((forall n: nat :: |s.trace| <= n < |r.trace| ==> (c.answers)(n).None?) && !s.stuck ==> !r.stuck)
            && (forall n :: |s.trace| <= n < |r.trace| && r.trace[n].Flushed? ==> r.trace[n].ip != ip)
            && (r.stuck || (IndexFor(r.queue, ip) == |r.queue| && DroppedSince(s, r, ip, First(s, ip).info.packet)))
  {
    hide AnswersFrom, Coherent, Group, Good, DroppedSince, IndexFor, Turn, Eligibles, Remaining;
    TurnKept(c, s, ip);
    var r := Turn(c, s, ip);
    StillGrouped(r.queue, ip);
    StillNoRoom(s, r, ip);
    if forall n: nat :: |s.trace| <= n < |r.trace| ==> (c.answers)(n).None? {
      NoneArrived(c, |s.trace|, |r.trace|);
    }
  }

  /** Exactly when flushing never ends while no request of its turn is answered. */
  lemma FlushStuckExactly(c: Config, s: Router, ip: Ip)
    requires Good(c, s) && NoRoom(s, ip) && !s.stuck
    ensures Coherent(s.queue)
    ensures var r := Flush(c, s, ip);
            (forall n: nat :: |s.trace| <= n < |r.trace| ==> (c.answers)(n).None?) ==>
              (r.stuck <==> Endless(c, s, ip))
  {
    hide Coherent, Group, Good, DroppedSince, IndexFor, Turn, InterfaceIp, JoinedBy;
    GoodIsCoherent(c, s);
    if IndexFor(s.queue, ip) < |s.queue| {
      var r := Turn(c, s, ip);
      if Endless(c, s, ip) {
        TurnRequeues(c, s, ip);
        GroupMoves(s, r, ip);
        StillGrouped(r.queue, ip);
      } else {
        FlushGivesUp(c, s, ip);
      }
    }
  }

  /** As long as every request is answered the turn goes on: up to the point from which no answer is
      refused any more, for every such point. So with refused answers that never stop it never ends. */
  lemma AnswersKeepItGoing(c: Config, s: Router, ip: Ip)
    requires Good(c, s) && NoRoom(s, ip) && IndexFor(s.queue, ip) < |s.queue| && !Endless(c, s, ip)
    requires forall n: nat :: |s.trace| <= n < c.refused ==> (c.answers)(n).Some?
    ensures Coherent(s.queue) && |Turn(c, s, ip).trace| >= c.refused
    decreases AnswersFrom(c, |s.trace| + 1), 2
  {
    hide AnswersFrom, Coherent, Group, Good, Ready, Since, IndexFor, Taking, Eligibles, Remaining, Weight,
      SendToNextHop, Turn, InterfaceIp;
    TakingOut(c, s, ip);
    SendGoesOn(c, Taking(s, ip), First(s, ip).info.packet, ip, First(s, ip).info.port);
  }

  lemma SendGoesOn(c: Config, s: Router, p: Ipv4Wire.Packet, ip: Ip, port: int)
    requires Ready(c, s, p, ip, port) && NoRoom(s, ip) && |s.queue| < QUEUE_MAX && !c.realtime
    requires IsPort(c, port) && InterfaceIp(c, port) != ZERO_IP && IndexFor(s.queue, ip) == |s.queue|
    requires forall n: nat :: |s.trace| <= n < c.refused ==> (c.answers)(n).Some?
    ensures Coherent(s.queue) && |SendToNextHop(c, s, p, ip, port).1.trace| >= c.refused
    decreases AnswersLeft(c, s), 1
  {
    hide Coherent, Accounted, Answered, Group, Since, IndexFor, VlanFor, InterfaceIp, Eligibles, Remaining, Eligible,
      Requesting, Appended, IsRouted;
    assert Coherent(s.queue);
    var out := Out(p, port, VlanFor(s.arp, s.vlans, ip, port));
    AppendedStep(c, s, out, ip);
    AppendLogs(c, s, out, ip);
    AppendedGood(c, s, out, ip);
    Opening(c, s, out, ip);
    RequestGoesOn(c, Appended(c, s, out, ip), Pending(ip, out, 1, Now(c, s)));
  }

  lemma RequestGoesOn(c: Config, s: Router, p: Pending<Out>)
    requires Good(c, Log(s, Requested(p.ip))) && NoRoom(s, p.ip) && Group(s.queue, p.ip) == [p]
    requires !c.realtime && InterfaceIp(c, p.info.port) != ZERO_IP && IndexFor(s.queue, p.ip) < |s.queue|
    requires forall n: nat :: |s.trace| <= n < c.refused ==> (c.answers)(n).Some?
    ensures Coherent(s.queue) && |Requesting(c, s, p.ip, p.info.port, p.last).trace| >= c.refused
    decreases AnswersLeft(c, s), 0
  {
    hide Coherent, Group, Good, IndexFor, Heard, Poll;
    var asked := Log(s, Requested(p.ip));
    assert Coherent(s.queue) by { GoodIsCoherent(c, asked); }
    if |asked.trace| < c.refused {
      HeardGoesOn(c, asked, p.ip, p);
    }
  }

  lemma HeardGoesOn(c: Config, s: Router, ip: Ip, p: Pending<Out>)
    requires Good(c, s) && NoRoom(s, ip) && |s.trace| < c.refused && Group(s.queue, ip) == [p]
    requires !c.realtime && InterfaceIp(c, p.info.port) != ZERO_IP && IndexFor(s.queue, ip) < |s.queue|
    requires forall n: nat :: |s.trace| <= n < c.refused ==> (c.answers)(n).Some?
    ensures Coherent(s.queue) && |Heard(c, s, ip, p.info.port).trace| >= c.refused
    decreases AnswersLeft(c, s), 0
  {
    hide Coherent, Group, Good, IndexFor, Turn, InterfaceIp;
    assert Coherent(s.queue) by { GoodIsCoherent(c, s); }
    var answer := Reply(c, s, ip).value;
    var learned := Learn(s, p.info.port, ip, answer.mac, answer.vlan);
    AccountsIgnoreTheTable(c, s, learned);
    FirstOfGroup(learned, ip);
    AnswersKeepItGoing(c, learned, ip);
  }
}
