/** Sending from a host: ARP lookups, the queue of unresolved packets and retry polling
    (layer2/host.c). What goes out, and what happens to queued packets, is recorded in a trace. */
module HostArp {
  import opened Base
  import opened PendingQueue
  import opened PendingTrace

  const QUEUE_MAX := 64
  const ARP_TABLE_MAX := 100
  const MAX_FRAME_PAYLOAD := 1500

  datatype Frame = Frame(ethertype: u16, payload: seq<byte>)

  /** answers(n) is the ARP reply that arrives while a request goes out, once n events have happened. */
  datatype Config = Config(hasIp: bool, ip: Ip, prefix: byte, gateway: Ip, realtime: bool,
                           answers: nat -> Option<Mac>)

  datatype Host = Host(arp: map<Ip, Mac>, queue: seq<Pending<Frame>>, trace: seq<Event<Frame>>)

  // ---------------------------------------------------------------- specification

  function NextHop(c: Config, target: Ip): Ip {
    if c.hasIp && SameNetwork(c.ip, target, c.prefix) then target else c.gateway
  }

  function Learn(arp: map<Ip, Mac>, ip: Ip, mac: Mac): map<Ip, Mac> {
    if ip in arp || |arp| < ARP_TABLE_MAX then arp[ip := mac] else arp
  }

  function Leaves(ip: Ip, how: Option<Mac>, frame: Frame): Event<Frame> {
    if how.Some? then Flushed(ip, how.value, frame) else Dropped(ip, frame)
  }

  /** Take the packets for ip out of the queue one by one: sent to a MAC address, or discarded. */
  function Drain(h: Host, ip: Ip, how: Option<Mac>): Host
    decreases |h.queue|
  {
    var k := IndexFor(h.queue, ip);
    if k == |h.queue| then h else
    Drain(h.(queue := RemoveAt(h.queue, k), trace := h.trace + [Leaves(ip, how, h.queue[k].info)]), ip, how)
  }

  /** host_flush_pending_packets: without an ARP entry nothing happens. */
  function Flush(h: Host, ip: Ip): Host {
    if ip in h.arp then Drain(h, ip, Some(h.arp[ip])) else h
  }

  /** An ARP reply: learn the sender, then send what waits for it. */
  function Resolve(h: Host, ip: Ip, mac: Mac): Host {
    Flush(h.(arp := Learn(h.arp, ip, mac)), ip)
  }

  function GiveUp(h: Host, ip: Ip): Host {
    Drain(h.(trace := h.trace + [Failed(ip)]), ip, None)
  }

  function AskAgain(h: Host, p: Pending<Frame>): Host {
    h.(queue := Stamp(h.queue, p.ip, p.attempts + 1, p.last + RETRY_INTERVAL), trace := h.trace + [Requested(p.ip)])
  }

  /** The reply, if any, that arrives while the request just made goes out. */
  function Answered(c: Config, h: Host, ip: Ip): Host {
    var answer := (c.answers)(|h.trace|);
    if answer.Some? then Resolve(h, ip, answer.value) else h
  }

  function Retry(c: Config, h: Host, p: Pending<Frame>): Host {
    Answered(c, AskAgain(h, p), p.ip)
  }

  /** host_poll_arp: as long as some packet is due, retry or give up its whole group. */
  function Poll(c: Config, h: Host, now: real): Host
    requires Coherent(h.queue)
    decreases Remaining(h.queue)
  {
    var k := IndexDue(h.queue, now, true);
    if k == |h.queue| then h else
    PollProgress(c, h, h.queue[k]);
    Poll(c, if h.queue[k].attempts >= MAX_ATTEMPTS then GiveUp(h, h.queue[k].ip) else Retry(c, h, h.queue[k]), now)
  }

  /** A packet for an unresolved next hop joins the group waiting for it, with the group's retry
      state; the first one opens the group and sends the first request. */
  function Enqueued(h: Host, hop: Ip, frame: Frame, now: real): Host {
    h.(queue := h.queue + [Waiting(h.queue, hop, frame, now)],
       trace := h.trace + [Queued(hop, frame)] + if IndexFor(h.queue, hop) < |h.queue| then [] else [Requested(hop)])
  }

  /** host_send_l3_packet. */
  function SendL3(c: Config, h: Host, target: Ip, frame: Frame, now: real): (bool, Host)
    requires Coherent(h.queue)
  {
    var hop := NextHop(c, target);
    if |frame.payload| > MAX_FRAME_PAYLOAD then (false, h)
    else if target == BROADCAST_IP then (true, h.(trace := h.trace + [Direct(target, BROADCAST_MAC, frame)]))
    else if !c.hasIp then (false, h)
    else if hop in h.arp then (true, h.(trace := h.trace + [Direct(hop, h.arp[hop], frame)]))
    else if |h.queue| >= QUEUE_MAX then (false, h)
    else
      EnqueueCoherent(h, hop, frame, now);
      var h1 := Enqueued(h, hop, frame, now);
      (true, if IndexFor(h.queue, hop) < |h.queue| then h1 else AfterRequest(c, h1, hop, now))
  }

  /** The rest of a send that opened a group: take in the reply, and without real time run all retries. */
  function AfterRequest(c: Config, h: Host, hop: Ip, now: real): Host
    requires Coherent(h.queue)
  {
    AnsweredCoherent(c, h, hop);
    var h1 := Answered(c, h, hop);
    if !c.realtime && hop !in h1.arp then Poll(c, h1, now + RETRY_INTERVAL * (MAX_ATTEMPTS + 1) as real) else h1
  }

  // ---------------------------------------------------------------- one step at a time

  /** Draining takes exactly the packets for ip, and leaves the others untouched and in order. */
  lemma {:induction false} DrainQueue(h: Host, ip: Ip, how: Option<Mac>)
    ensures Drain(h, ip, how).queue == Others(h.queue, ip) && Drain(h, ip, how).arp == h.arp
    decreases |h.queue|
  {
    var k := IndexFor(h.queue, ip);
    if k == |h.queue| {
      EmptyGroup(h.queue, ip);
    } else {
      RemoveFirstOfGroup(h.queue, ip);
      DrainQueue(h.(queue := RemoveAt(h.queue, k), trace := h.trace + [Leaves(ip, how, h.queue[k].info)]), ip, how);
    }
  }

  function LeaveEvents(ip: Ip, how: Option<Mac>, frames: seq<Frame>): seq<Event<Frame>> {
    if |frames| == 0 then [] else [Leaves(ip, how, frames[0])] + LeaveEvents(ip, how, frames[1..])
  }

  /** Each of them is sent (or discarded) exactly once, oldest first, and nothing else happens. */
  lemma {:induction false} DrainTrace(h: Host, ip: Ip, how: Option<Mac>)
    ensures Drain(h, ip, how).trace == h.trace + LeaveEvents(ip, how, Infos(Group(h.queue, ip)))
    decreases |h.queue|
  {
    hide Group, Infos, RemoveAt;
    var k := IndexFor(h.queue, ip);
    if k == |h.queue| {
      EmptyGroup(h.queue, ip);
      assert LeaveEvents(ip, how, []) == [];
      assert Infos<Frame>([]) == [];
    } else {
      var e := Leaves(ip, how, h.queue[k].info);
      var rest := RemoveAt(h.queue, k);
      RemoveFirstOfGroup(h.queue, ip);
      DrainTrace(h.(queue := rest, trace := h.trace + [e]), ip, how);
      InfosConcat([h.queue[k]], Group(rest, ip));
      OneInfo(h.queue[k]);
      assert ([h.queue[k].info] + Infos(Group(rest, ip)))[1..] == Infos(Group(rest, ip));
    }
  }

  lemma PollProgress(c: Config, h: Host, p: Pending<Frame>)
    requires Coherent(h.queue) && p in h.queue
    ensures Coherent(GiveUp(h, p.ip).queue) && Remaining(GiveUp(h, p.ip).queue) < Remaining(h.queue)
    ensures p.attempts < MAX_ATTEMPTS ==>
              Coherent(Retry(c, h, p).queue) && Remaining(Retry(c, h, p).queue) < Remaining(h.queue)
  {
    hide Drain, Others, Stamp, Remaining, Coherent, Answered;
    DrainQueue(h.(trace := h.trace + [Failed(p.ip)]), p.ip, None);
    GroupLeaves(h.queue, p.ip);
    if p.attempts < MAX_ATTEMPTS {
      GroupRetries(h.queue, p, p.last + RETRY_INTERVAL);
      AnsweredCoherent(c, AskAgain(h, p), p.ip);
    }
  }

  lemma EnqueueCoherent(h: Host, hop: Ip, frame: Frame, now: real)
    requires Coherent(h.queue)
    ensures Coherent(Enqueued(h, hop, frame, now).queue)
  {
    AppendCoherent(h.queue, hop, frame, now);
  }

  lemma ResolveCoherent(h: Host, ip: Ip, mac: Mac)
    requires Coherent(h.queue)
    ensures Coherent(Resolve(h, ip, mac).queue) && Remaining(Resolve(h, ip, mac).queue) <= Remaining(h.queue)
  {
    hide Drain, Others, Coherent, Remaining;
    var learned := h.(arp := Learn(h.arp, ip, mac));
    if ip in learned.arp {
      DrainQueue(learned, ip, Some(learned.arp[ip]));
      GroupLeaves(h.queue, ip);
    }
  }

  lemma AnsweredCoherent(c: Config, h: Host, ip: Ip)
    requires Coherent(h.queue)
    ensures Coherent(Answered(c, h, ip).queue) && Remaining(Answered(c, h, ip).queue) <= Remaining(h.queue)
  {
    hide Resolve, Coherent, Remaining;
    var answer := (c.answers)(|h.trace|);
    if answer.Some? {
      ResolveCoherent(h, ip, answer.value);
    }
  }

  // ---------------------------------------------------------------- polling leaves nothing due

  lemma {:induction false} PollLeavesNothingDue(c: Config, h: Host, now: real)
    requires Coherent(h.queue)
    ensures Coherent(Poll(c, h, now).queue) && forall p :: p in Poll(c, h, now).queue ==> !IsDue(p, now, true)
    decreases Remaining(h.queue)
  {
    var k := IndexDue(h.queue, now, true);
    if k < |h.queue| {
      var p := h.queue[k];
      PollProgress(c, h, p);
      hide GiveUp, Retry, IndexDue, Coherent, Remaining, IsDue;
      PollLeavesNothingDue(c, if p.attempts >= MAX_ATTEMPTS then GiveUp(h, p.ip) else Retry(c, h, p), now);
    }
  }

  // ---------------------------------------------------------------- what every step keeps

  /** Every group shares its retry state; as many requests as the group's attempts went out since
      it was opened; no packet is lost, duplicated or reordered within its group. */
  ghost predicate Good(h: Host) {
    && Coherent(h.queue) && |h.queue| <= QUEUE_MAX
    && Conserved(h.trace, h.queue)
    && AtMostThreeRequests(h.trace) && FailsAfterThree(h.trace)
    && RequestsCounted(h)
  }

  ghost predicate RequestsCounted(h: Host) {
    forall ip :: OpenRequests(h.trace, ip) == Attempts(h.queue, ip)
  }

  lemma {:induction false} DrainKeeps(h: Host, ip: Ip, how: Option<Mac>)
    requires Conserved(h.trace, h.queue) && AtMostThreeRequests(h.trace) && FailsAfterThree(h.trace)
    ensures var r := Drain(h, ip, how);
            Conserved(r.trace, r.queue) && AtMostThreeRequests(r.trace) && FailsAfterThree(r.trace)
    decreases |h.queue|
  {
    hide Conserved, AtMostThreeRequests, FailsAfterThree, RemoveAt;
    var k := IndexFor(h.queue, ip);
    if k < |h.queue| {
      var e := Leaves(ip, how, h.queue[k].info);
      ConservedFirst(h.trace, h.queue, ip, e);
      AtMostThreeSnoc(h.trace, e);
      FailsAfterThreeSnoc(h.trace, e);
      DrainKeeps(h.(queue := RemoveAt(h.queue, k), trace := h.trace + [e]), ip, how);
    }
  }

  lemma {:induction false} DrainRequests(h: Host, ip: Ip, how: Option<Mac>, x: Ip)
    ensures OpenRequests(Drain(h, ip, how).trace, x) ==
            if x == ip && IndexFor(h.queue, ip) < |h.queue| then 0 else OpenRequests(h.trace, x)
    decreases |h.queue|
  {
    hide OpenRequests, RemoveAt;
    var k := IndexFor(h.queue, ip);
    if k < |h.queue| {
      var e := Leaves(ip, how, h.queue[k].info);
      Snoc(h.trace, e, x);
      DrainRequests(h.(queue := RemoveAt(h.queue, k), trace := h.trace + [e]), ip, how, x);
    }
  }

  lemma ShorterOthers<T(!new)>(q: seq<Pending<T>>, ip: Ip)
    ensures |Others(q, ip)| <= |q|
  {
    if |q| > 0 {
      ShorterOthers(q[1..], ip);
    }
  }

  /** Draining a group whose requests are counted, or were just declared failed. */
  lemma DrainCounted(h: Host, ip: Ip, how: Option<Mac>)
    requires forall x :: x != ip ==> OpenRequests(h.trace, x) == Attempts(h.queue, x)
    requires IndexFor(h.queue, ip) == |h.queue| ==> OpenRequests(h.trace, ip) == 0
    ensures RequestsCounted(Drain(h, ip, how))
  {
    hide OpenRequests, Attempts, Drain, Others;
    DrainQueue(h, ip, how);
    forall x
      ensures OpenRequests(Drain(h, ip, how).trace, x) == Attempts(Drain(h, ip, how).queue, x)
    {
      DrainRequests(h, ip, how, x);
      AttemptsOfOthers(h.queue, ip, x);
    }
  }

  lemma FlushGood(h: Host, ip: Ip)
    requires Good(h)
    ensures Good(Flush(h, ip))
  {
    hide Conserved, AtMostThreeRequests, FailsAfterThree, Coherent, OpenRequests, Drain, Others;
    if ip in h.arp {
      var how := Some(h.arp[ip]);
      DrainQueue(h, ip, how);
      GroupLeaves(h.queue, ip);
      ShorterOthers(h.queue, ip);
      DrainKeeps(h, ip, how);
      assert OpenRequests(h.trace, ip) == Attempts(h.queue, ip);
      DrainCounted(h, ip, how);
    }
  }

  lemma ResolveGood(h: Host, ip: Ip, mac: Mac)
    requires Good(h)
    ensures Good(Resolve(h, ip, mac))
  {
    hide Flush, Conserved, AtMostThreeRequests, FailsAfterThree, Coherent, OpenRequests, Attempts;
    FlushGood(h.(arp := Learn(h.arp, ip, mac)), ip);
  }

  lemma GiveUpGood(h: Host, p: Pending<Frame>)
    requires Good(h) && p in h.queue && p.attempts >= MAX_ATTEMPTS
    ensures Good(GiveUp(h, p.ip))
  {
    hide Conserved, AtMostThreeRequests, FailsAfterThree, OpenRequests, Drain, Others, IndexFor;
    GroupState(h.queue, p);
    var failed := h.(trace := h.trace + [Failed(p.ip)]);
    assert OpenRequests(h.trace, p.ip) == MAX_ATTEMPTS;
    ConservedIdle(h.trace, h.queue, Failed(p.ip));
    AtMostThreeSnoc(h.trace, Failed(p.ip));
    FailsAfterThreeSnoc(h.trace, Failed(p.ip));
    DrainKeeps(failed, p.ip, None);
    DrainQueue(failed, p.ip, None);
    GroupLeaves(h.queue, p.ip);
    ShorterOthers(h.queue, p.ip);
    forall x
      ensures x != p.ip ==> OpenRequests(failed.trace, x) == Attempts(h.queue, x)
      ensures OpenRequests(failed.trace, p.ip) == 0
    {
      Snoc(h.trace, Failed(p.ip), x);
      Snoc(h.trace, Failed(p.ip), p.ip);
      assert OpenRequests(h.trace, x) == Attempts(h.queue, x);
    }
    DrainCounted(failed, p.ip, None);
  }

  lemma RetryCounted(h: Host, p: Pending<Frame>)
    requires RequestsCounted(h) && IndexFor(h.queue, p.ip) < |h.queue| && Attempts(h.queue, p.ip) == p.attempts
    ensures RequestsCounted(AskAgain(h, p)) && OpenRequests(h.trace, p.ip) == p.attempts
  {
    hide OpenRequests, Stamp, IndexFor, Attempts;
    forall x
      ensures OpenRequests(AskAgain(h, p).trace, x) == Attempts(AskAgain(h, p).queue, x)
    {
      Snoc(h.trace, Requested(p.ip), x);
      AttemptsOfStamp(h.queue, p.ip, p.attempts + 1, p.last + RETRY_INTERVAL, x);
      assert OpenRequests(h.trace, x) == Attempts(h.queue, x);
    }
  }

  lemma RetryTrace(h: Host, p: Pending<Frame>)
    requires Conserved(h.trace, h.queue) && AtMostThreeRequests(h.trace) && FailsAfterThree(h.trace)
    requires OpenRequests(h.trace, p.ip) < MAX_ATTEMPTS
    ensures var r := AskAgain(h, p);
            Conserved(r.trace, r.queue) && AtMostThreeRequests(r.trace) && FailsAfterThree(r.trace)
  {
    hide Conserved, AtMostThreeRequests, FailsAfterThree, OpenRequests, Stamp;
    ConservedStamp(h.trace, h.queue, p.ip, p.attempts + 1, p.last + RETRY_INTERVAL);
    ConservedIdle(h.trace, AskAgain(h, p).queue, Requested(p.ip));
    AtMostThreeSnoc(h.trace, Requested(p.ip));
    FailsAfterThreeSnoc(h.trace, Requested(p.ip));
  }

  lemma AskAgainGood(h: Host, p: Pending<Frame>)
    requires Good(h) && p in h.queue && p.attempts < MAX_ATTEMPTS
    ensures Good(AskAgain(h, p))
  {
    hide Coherent, Conserved, AtMostThreeRequests, FailsAfterThree, RequestsCounted, OpenRequests, Stamp, Remaining,
      IndexFor, StampOne, Group, Infos;
    GroupState(h.queue, p);
    RetryCounted(h, p);
    RetryTrace(h, p);
    GroupRetries(h.queue, p, p.last + RETRY_INTERVAL);
  }

  lemma AnsweredGood(c: Config, h: Host, ip: Ip)
    requires Good(h)
    ensures Good(Answered(c, h, ip))
  {
    hide Good, Resolve;
    var answer := (c.answers)(|h.trace|);
    if answer.Some? {
      ResolveGood(h, ip, answer.value);
    }
  }

  lemma {:induction false} PollGood(c: Config, h: Host, now: real)
    requires Good(h)
    ensures Good(Poll(c, h, now))
    decreases Remaining(h.queue)
  {
    var k := IndexDue(h.queue, now, true);
    if k < |h.queue| {
      var p := h.queue[k];
      PollProgress(c, h, p);
      assert Coherent(h.queue) && p in h.queue;
      hide GiveUp, AskAgain, Answered, IndexDue, Coherent, Remaining, IsDue, Good;
      if p.attempts >= MAX_ATTEMPTS {
        GiveUpGood(h, p);
        PollGood(c, GiveUp(h, p.ip), now);
      } else {
        AskAgainGood(h, p);
        AnsweredGood(c, AskAgain(h, p), p.ip);
        PollGood(c, Retry(c, h, p), now);
      }
    }
  }

  lemma IdleGood(h: Host, e: Event<Frame>)
    requires Good(h) && e.Direct?
    ensures Good(h.(trace := h.trace + [e]))
  {
    hide Conserved, AtMostThreeRequests, FailsAfterThree, OpenRequests, Attempts, Coherent;
    ConservedIdle(h.trace, h.queue, e);
    AtMostThreeSnoc(h.trace, e);
    FailsAfterThreeSnoc(h.trace, e);
    forall x
      ensures OpenRequests(h.trace + [e], x) == Attempts(h.queue, x)
    {
      Snoc(h.trace, e, x);
      assert OpenRequests(h.trace, x) == Attempts(h.queue, x);
    }
  }

  lemma QueuedGood(h: Host, hop: Ip, frame: Frame, now: real)
    requires Good(h) && |h.queue| < QUEUE_MAX
    ensures Good(Enqueued(h, hop, frame, now))
  {
    hide Conserved, AtMostThreeRequests, FailsAfterThree, OpenRequests, Coherent, RequestsCounted, IndexFor;
    var p := Waiting(h.queue, hop, frame, now);
    var t := h.trace + [Queued(hop, frame)];
    EnqueueCoherent(h, hop, frame, now);
    ConservedQueued(h.trace, h.queue, p);
    AtMostThreeSnoc(h.trace, Queued(hop, frame));
    FailsAfterThreeSnoc(h.trace, Queued(hop, frame));
    EnqueuedCounted(h, hop, frame, now);
    if IndexFor(h.queue, hop) < |h.queue| {
      assert t + [] == t;
    } else {
      assert OpenRequests(h.trace, hop) == 0 by { assert RequestsCounted(h); OpenWhenEmpty(h, hop); }
      Snoc(h.trace, Queued(hop, frame), hop);
      ConservedIdle(t, h.queue + [p], Requested(hop));
      AtMostThreeSnoc(t, Requested(hop));
      FailsAfterThreeSnoc(t, Requested(hop));
    }
  }

  lemma OpenWhenEmpty(h: Host, hop: Ip)
    requires RequestsCounted(h) && IndexFor(h.queue, hop) == |h.queue|
    ensures OpenRequests(h.trace, hop) == 0
  {
    hide OpenRequests;
  }

  lemma EnqueuedCounted(h: Host, hop: Ip, frame: Frame, now: real)
    requires RequestsCounted(h)
    ensures RequestsCounted(Enqueued(h, hop, frame, now))
  {
    hide OpenRequests, IndexFor;
    var p := Waiting(h.queue, hop, frame, now);
    var t := h.trace + [Queued(hop, frame)];
    assert t + [] == t;
    forall x
      ensures OpenRequests(Enqueued(h, hop, frame, now).trace, x) == Attempts(h.queue + [p], x)
    {
      Snoc(h.trace, Queued(hop, frame), x);
      Snoc(t, Requested(hop), x);
      AttemptsOfAppend(h.queue, p, x);
      assert OpenRequests(h.trace, x) == Attempts(h.queue, x);
    }
  }

  lemma SendGood(c: Config, h: Host, target: Ip, frame: Frame, now: real)
    requires Good(h)
    ensures Good(SendL3(c, h, target, frame, now).1)
  {
    hide Good, Coherent, Enqueued, Answered, Poll, IndexFor, NextHop;
    assert Coherent(h.queue) by { GoodIsCoherent(h); }
    var hop := NextHop(c, target);
    if target == BROADCAST_IP {
      IdleGood(h, Direct(target, BROADCAST_MAC, frame));
    } else if hop in h.arp {
      IdleGood(h, Direct(hop, h.arp[hop], frame));
    } else if |h.queue| < QUEUE_MAX {
      QueuedGood(h, hop, frame, now);
      var h1 := Enqueued(h, hop, frame, now);
      GoodIsCoherent(h1);
      AnsweredGood(c, h1, hop);
      PollGood(c, Answered(c, h1, hop), now + RETRY_INTERVAL * (MAX_ATTEMPTS + 1) as real);
    }
  }

  lemma GoodIsCoherent(h: Host)
    requires Good(h)
    ensures Coherent(h.queue)
  {
  }

  // ---------------------------------------------------------------- whole runs

  /** Everything that touches the queue: sends, ARP requests and replies from others, timer polls. */
  datatype Step =
    | Send(target: Ip, frame: Frame, now: real)
    | HearRequest(ip: Ip, mac: Mac) | HearReply(ip: Ip, mac: Mac) | Tick(now: real)

  function Apply(c: Config, h: Host, s: Step): Host
    requires Coherent(h.queue)
  {
    match s
    case Send(target, frame, now) => SendL3(c, h, target, frame, now).1
    case HearRequest(ip, mac) => h.(arp := Learn(h.arp, ip, mac))
    case HearReply(ip, mac) => Resolve(h, ip, mac)
    case Tick(now) => Poll(c, h, now)
  }

  const START := Host(map[], [], [])

  /** Any steps from the start. (Steps are defined on coherent queues, which RunGood shows all to be.) */
  ghost predicate IsRun(c: Config, hs: seq<Host>, steps: seq<Step>) {
    && |hs| == |steps| + 1 && hs[0] == START
    && forall i :: 0 <= i < |steps| ==> (Coherent(hs[i].queue) ==> hs[i + 1] == Apply(c, hs[i], steps[i]))
  }

  lemma StartGood()
    ensures Good(START)
  {
  }

  lemma ApplyGood(c: Config, h: Host, s: Step)
    requires Good(h)
    ensures Good(Apply(c, h, s))
  {
    hide SendL3, Resolve, Poll, Coherent, Conserved, AtMostThreeRequests, FailsAfterThree, OpenRequests, Attempts;
    match s {
      case Send(target, frame, now) => SendGood(c, h, target, frame, now);
      case HearReply(ip, mac) => ResolveGood(h, ip, mac);
      case Tick(now) => PollGood(c, h, now);
      case HearRequest(_, _) =>
    }
  }

  lemma {:induction false} RunGood(c: Config, hs: seq<Host>, steps: seq<Step>, i: nat)
    requires IsRun(c, hs, steps) && i < |hs|
    ensures Good(hs[i])
  {
    hide Good, Apply, Coherent;
    if i == 0 {
      StartGood();
    } else {
      RunGood(c, hs, steps, i - 1);
      GoodIsCoherent(hs[i - 1]);
      ApplyGood(c, hs[i - 1], steps[i - 1]);
      assert hs[(i - 1) + 1] == Apply(c, hs[i - 1], steps[i - 1]);
    }
  }

  /** In every reachable state, whatever the clock says: packets for one address share attempt count and
      time; no address is asked for a fourth time before its packets leave; a group is given up only
      after exactly three requests; and the packets accepted for an address are those that left, in
      order, followed by those still waiting, in order. */
  lemma EveryRunResolvesFairly(c: Config, hs: seq<Host>, steps: seq<Step>, i: nat)
    requires IsRun(c, hs, steps) && i < |hs|
    ensures var h := hs[i];
            && (forall p, r :: p in h.queue && r in h.queue && p.ip == r.ip ==>
                  p.attempts == r.attempts && p.last == r.last)
            && (forall n, ip :: 0 <= n <= |h.trace| ==> OpenRequests(h.trace[..n], ip) <= 3)
            && (forall n :: 0 <= n < |h.trace| && h.trace[n].Failed? ==> OpenRequests(h.trace[..n], h.trace[n].ip) == 3)
            && (forall ip :: Entered(h.trace, ip) == Left(h.trace, ip) + Infos(Group(h.queue, ip)))
  {
    RunGood(c, hs, steps, i);
    hide IsRun, OpenRequests, Entered, Left, Infos, Group, Attempts;
  }

  /** Polling never consults the ARP table: a group whose address became known from somebody's ARP
      request, which does not flush it, is retried and, if no retry is answered, given up all the same. */
  lemma {:induction false} PollIgnoresTheTable(c: Config, h: Host, arp: map<Ip, Mac>, now: real)
    requires Coherent(h.queue) && forall n :: (c.answers)(n).None?
    ensures Poll(c, h.(arp := arp), now) == Poll(c, h, now).(arp := arp)
    decreases Remaining(h.queue)
  {
    var k := IndexDue(h.queue, now, true);
    if k < |h.queue| {
      var p := h.queue[k];
      PollProgress(c, h, p);
      DrainIgnoresTheTable(h.(trace := h.trace + [Failed(p.ip)]), arp, p.ip, None);
      hide Drain, IndexDue, Coherent, Remaining, IsDue, Stamp, Resolve;
      PollIgnoresTheTable(c, if p.attempts >= MAX_ATTEMPTS then GiveUp(h, p.ip) else Retry(c, h, p), arp, now);
    }
  }

  lemma {:induction false} DrainIgnoresTheTable(h: Host, arp: map<Ip, Mac>, ip: Ip, how: Option<Mac>)
    ensures Drain(h.(arp := arp), ip, how) == Drain(h, ip, how).(arp := arp)
    decreases |h.queue|
  {
    var k := IndexFor(h.queue, ip);
    if k < |h.queue| {
      var rest := h.(queue := RemoveAt(h.queue, k), trace := h.trace + [Leaves(ip, how, h.queue[k].info)]);
      DrainIgnoresTheTable(rest, arp, ip, how);
    }
  }

  // ---------------------------------------------------------------- the host itself

  class Sender {
    const config: Config
    const queue: Ring<Frame>
    var arp: map<Ip, Mac>
    var trace: seq<Event<Frame>>

    ghost predicate Valid()
      reads this, queue, queue.items
    {
      queue.Valid() && queue.items.Length == QUEUE_MAX
    }

    ghost function Value(): Host
      reads this, queue
    {
      Host(arp, queue.contents, trace)
    }

    constructor (c: Config)
      ensures Valid() && fresh(queue) && fresh(queue.items) && Value() == START && config == c
    {
      config := c;
      queue := new Ring<Frame>(QUEUE_MAX, Frame(0, []));
      arp, trace := map[], [];
    }

    method DrainGroup(ip: Ip, how: Option<Mac>) returns (count: nat)
      requires Valid()
      modifies `trace, queue, queue.items
      ensures Valid() && Value() == Drain(old(Value()), ip, how)
      ensures count + |queue.contents| == |old(queue.contents)|
    {
      hide IndexFor, RemoveAt;
      ghost var goal := Drain(Value(), ip, how);
      count := 0;
      var found := queue.DequeueFor(ip);
      while found.Some?
        invariant Valid() && count + |queue.contents| + (if found.Some? then 1 else 0) == |old(queue.contents)|
        invariant if found.Some?
                  then goal == Drain(Value().(trace := trace + [Leaves(ip, how, found.value.info)]), ip, how)
                  else goal == Value()
        decreases |queue.contents| + if found.Some? then 1 else 0
      {
        trace := trace + [Leaves(ip, how, found.value.info)];
        count := count + 1;
        found := queue.DequeueFor(ip);
      }
    }

    /** host_flush_pending_packets. */
    method FlushPending(ip: Ip) returns (sent: nat)
      requires Valid()
      modifies `trace, queue, queue.items
      ensures Valid() && Value() == Flush(old(Value()), ip) && sent == |old(queue.contents)| - |queue.contents|
    {
      hide Drain;
      sent := 0;
      if ip in arp {
        sent := DrainGroup(ip, Some(arp[ip]));
      }
    }

    /** host_learn_arp and, for a reply, the flush that follows it. */
    method ReceiveArp(ip: Ip, mac: Mac, isReply: bool)
      requires Valid()
      modifies `arp, `trace, queue, queue.items
      ensures Valid()
      ensures Value() == if isReply then Resolve(old(Value()), ip, mac)
                         else old(Value()).(arp := Learn(old(arp), ip, mac))
    {
      hide Flush;
      arp := Learn(arp, ip, mac);
      if isReply {
        var _ := FlushPending(ip);
      }
    }

    /** The reply, if any, that arrives while the request just made goes out. */
    method HearAnswer(ip: Ip)
      requires Valid()
      modifies `arp, `trace, queue, queue.items
      ensures Valid() && Value() == Answered(config, old(Value()), ip)
    {
      hide Resolve;
      var answer := (config.answers)(|trace|);
      if answer.Some? {
        ReceiveArp(ip, answer.value, true);
      }
    }

    /** One more request for the group of p. */
    method RetryGroup(p: Pending<Frame>)
      requires Valid()
      modifies `arp, `trace, queue, queue.items
      ensures Valid() && Value() == Retry(config, old(Value()), p)
    {
      hide Answered, Stamp;
      queue.SetAttempt(p.ip, p.attempts + 1, p.last + RETRY_INTERVAL);
      trace := trace + [Requested(p.ip)];
      HearAnswer(p.ip);
    }

    /** host_poll_arp. */
    method PollArp(now: real)
      requires Valid() && Coherent(queue.contents)
      modifies `arp, `trace, queue, queue.items
      ensures Valid() && Value() == Poll(config, old(Value()), now)
    {
      hide Coherent, Remaining, IndexDue, Drain, Retry;
      ghost var goal := Poll(config, Value(), now);
      while true
        invariant Valid() && Coherent(queue.contents) && goal == Poll(config, Value(), now)
        decreases Remaining(queue.contents)
      {
        var k := queue.FindDue(now, true);
        if k == queue.size {
          return;
        }
        var p := queue.Get(k);
        PollProgress(config, Value(), p);
        if p.attempts >= MAX_ATTEMPTS {
          trace := trace + [Failed(p.ip)];
          var _ := DrainGroup(p.ip, None);
        } else {
          RetryGroup(p);
        }
      }
    }

    /** host_send_l3_packet. */
    method SendPacket(target: Ip, frame: Frame, now: real) returns (ok: bool)
      requires Valid() && Coherent(queue.contents)
      modifies this, queue, queue.items
      ensures Valid() && (ok, Value()) == SendL3(config, old(Value()), target, frame, now)
    {
      hide Coherent, Poll, Answered, IndexFor, NextHop;
      if |frame.payload| > MAX_FRAME_PAYLOAD {
        return false;
      }
      if target == BROADCAST_IP {
        trace := trace + [Direct(target, BROADCAST_MAC, frame)];
        return true;
      }
      if !config.hasIp {
        return false;
      }
      var hop := NextHop(config, target);
      if hop in arp {
        trace := trace + [Direct(hop, arp[hop], frame)];
        return true;
      }
      ok := SendLater(hop, frame, now);
    }

    method SendLater(hop: Ip, frame: Frame, now: real) returns (ok: bool)
      requires Valid() && Coherent(queue.contents)
      modifies this, queue, queue.items
      ensures Valid() && ok == (|old(queue.contents)| < QUEUE_MAX)
      ensures !ok ==> Value() == old(Value())
      ensures ok ==> Coherent(Enqueued(old(Value()), hop, frame, now).queue)
      ensures ok ==> var h1 := Enqueued(old(Value()), hop, frame, now);
                     Value() == if IndexFor(old(queue.contents), hop) < |old(queue.contents)| then h1
                                else AfterRequest(config, h1, hop, now)
    {
      hide Coherent, Poll, Answered, IndexFor;
      ghost var before := Value();
      var k := queue.FindFor(hop);
      var existing := k < queue.size;
      var attempts, last := 1, now;
      if existing {
        var first := queue.Get(k);
        attempts, last := first.attempts, first.last;
      }
      EnqueueCoherent(before, hop, frame, now);
      ok := queue.Enqueue(Pending(hop, frame, attempts, last));
      if !ok {
        return;
      }
      trace := trace + [Queued(hop, frame)];
      assert trace + [] == trace;
      if !existing {
        trace := trace + [Requested(hop)];
        assert trace == before.trace + [Queued(hop, frame)] + [Requested(hop)];
        AwaitReply(hop, now);
      }
    }

    method AwaitReply(hop: Ip, now: real)
      requires Valid() && Coherent(queue.contents)
      modifies this, queue, queue.items
      ensures Valid() && Value() == AfterRequest(config, old(Value()), hop, now)
    {
      hide Coherent, Poll, Answered;
      AnsweredCoherent(config, Value(), hop);
      HearAnswer(hop);
      if !config.realtime && hop !in arp {
        PollArp(now + RETRY_INTERVAL * (MAX_ATTEMPTS + 1) as real);
      }
    }
  }
}
