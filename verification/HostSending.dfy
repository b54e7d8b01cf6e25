/** What a host's sending and polling come to, told by prefix bits, table entries and the clock
    (layer2/host.c). */
module HostSending {
  import opened Base
  import opened PendingQueue
  import opened PendingTrace
  import opened HostArp
  import opened AddressBits

  // ---------------------------------------------------------------- towards whom

  /** Where a packet for this address has to go first: to the address itself if it shares the leading
      prefix bits of the host's own, and to the gateway otherwise. */
  function Towards(c: Config, target: Ip): Ip {
    if Agree(c.ip, target, if c.prefix >= 32 then 32 else c.prefix) then target else c.gateway
  }

  /** r has happened to h. */
  ghost predicate Extends(h: Host, r: Host) {
    |h.trace| <= |r.trace| && r.trace[..|h.trace|] == h.trace
  }

  lemma ExtendsOn(a: Host, b: Host, c: Host)
    requires Extends(a, b) && Extends(b, c)
    ensures Extends(a, c)
    ensures |b.trace| <= |c.trace| && forall i :: 0 <= i < |b.trace| ==> c.trace[i] == b.trace[i]
  {
    assert c.trace[..|b.trace|][..|a.trace|] == a.trace;
    assert forall i :: 0 <= i < |b.trace| ==> c.trace[..|b.trace|][i] == b.trace[i];
  }

  lemma FlushExtends(h: Host, ip: Ip)
    ensures Extends(h, Flush(h, ip))
  {
    hide Drain;
    if ip in h.arp {
      DrainTrace(h, ip, Some(h.arp[ip]));
    }
  }

  lemma AnsweredExtends(c: Config, h: Host, ip: Ip)
    ensures Extends(h, Answered(c, h, ip))
  {
    hide Flush;
    var answer := (c.answers)(|h.trace|);
    if answer.Some? {
      FlushExtends(h.(arp := Learn(h.arp, ip, answer.value)), ip);
    }
  }

  /** One turn of the retry loop for a due packet. */
  function PollTurn(c: Config, h: Host, p: Pending<Frame>): Host {
    if p.attempts >= MAX_ATTEMPTS then GiveUp(h, p.ip) else Retry(c, h, p)
  }

  lemma TurnExtends(c: Config, h: Host, p: Pending<Frame>)
    ensures Extends(h, PollTurn(c, h, p))
  {
    hide Drain, Answered, Stamp, LeaveEvents;
    DrainTrace(h.(trace := h.trace + [Failed(p.ip)]), p.ip, None);
    AnsweredExtends(c, AskAgain(h, p), p.ip);
  }

  lemma {:induction false} PollExtends(c: Config, h: Host, now: real)
    requires Coherent(h.queue)
    ensures Extends(h, Poll(c, h, now))
    decreases Remaining(h.queue)
  {
    hide GiveUp, Retry, Coherent, Remaining, IndexDue, Extends;
    var k := IndexDue(h.queue, now, true);
    if k < |h.queue| {
      var p := h.queue[k];
      PollProgress(c, h, p);
      TurnExtends(c, h, p);
      var m := PollTurn(c, h, p);
      PollExtends(c, m, now);
      ExtendsOn(h, m, Poll(c, m, now));
    } else {
      LoggedExtends(h, h, []);
    }
  }

  lemma HopByBits(c: Config, target: Ip)
    requires c.hasIp
    ensures NextHop(c, target) == Towards(c, target)
  {
    SameNetworkByBits(c.ip, target, c.prefix);
  }

  /** Exactly when a packet is refused, which then changes nothing. */
  lemma RefusedExactly(c: Config, h: Host, target: Ip, frame: Frame, now: real)
    requires Coherent(h.queue)
    ensures var (ok, r) := SendL3(c, h, target, frame, now);
            && (!ok <==> |frame.payload| > 1500 ||
                         (target != Ip(255, 255, 255, 255) &&
                          (!c.hasIp || (Towards(c, target) !in h.arp && |h.queue| >= 64))))
            && (!ok ==> r == h)
  {
    hide Coherent, Towards, NextHop, AfterRequest;
    if c.hasIp {
      HopByBits(c, target);
    }
  }

  /** An accepted packet: broadcasts go to everybody; others are sent at once to the address entered in the
      table for the host they have to reach first, or wait for that host and, if nobody did, it is asked for. */
  lemma SendsTowards(c: Config, h: Host, target: Ip, frame: Frame, now: real)
    requires Coherent(h.queue) && SendL3(c, h, target, frame, now).0
    ensures var r, n := SendL3(c, h, target, frame, now).1, |h.trace|;
            var to := Towards(c, target);
            && Extends(h, r) && n < |r.trace|
            && (target == Ip(255, 255, 255, 255) ==>
                  r.trace == h.trace + [Direct(target, BROADCAST_MAC, frame)] && r.queue == h.queue)
            && (target != Ip(255, 255, 255, 255) && to in h.arp ==>
                  r.trace == h.trace + [Direct(to, h.arp[to], frame)] && r.queue == h.queue)
            && (target != Ip(255, 255, 255, 255) && to !in h.arp ==>
                  && r.trace[n] == Queued(to, frame)
                  && (Group(h.queue, to) == [] ==> n + 1 < |r.trace| && r.trace[n + 1] == Requested(to))
                  && (Group(h.queue, to) != [] ==> |r.trace| == n + 1))
  {
    hide Coherent, Towards, NextHop, Group, AfterRequest, Extends, Waiting, IndexFor;
    var r, to := SendL3(c, h, target, frame, now).1, Towards(c, target);
    if target == BROADCAST_IP {
      LoggedExtends(h, r, [Direct(target, BROADCAST_MAC, frame)]);
    } else {
      HopByBits(c, target);
      if to in h.arp {
        LoggedExtends(h, r, [Direct(to, h.arp[to], frame)]);
      } else {
        GroupIsThere(h.queue, to);
        EnqueueCoherent(h, to, frame, now);
        var h1 := Enqueued(h, to, frame, now);
        var asked := if IndexFor(h.queue, to) < |h.queue| then [] else [Requested(to)];
        assert h1.trace == h.trace + ([Queued(to, frame)] + asked);
        LoggedExtends(h, h1, [Queued(to, frame)] + asked);
        if IndexFor(h.queue, to) == |h.queue| {
          assert h1.trace[|h.trace|] == Queued(to, frame) && h1.trace[|h.trace| + 1] == Requested(to);
          AfterExtends(c, h1, to, now);
          ExtendsOn(h, h1, AfterRequest(c, h1, to, now));
        }
      }
    }
  }

  lemma LoggedExtends(h: Host, r: Host, es: seq<Event<Frame>>)
    requires r.trace == h.trace + es
    ensures Extends(h, r)
  {
  }

  lemma GroupIsThere<T(!new)>(q: seq<Pending<T>>, ip: Ip)
    ensures Group(q, ip) == [] <==> IndexFor(q, ip) == |q|
  {
    if IndexFor(q, ip) == |q| {
      EmptyGroup(q, ip);
    } else {
      RemoveFirstOfGroup(q, ip);
    }
  }

  lemma AfterExtends(c: Config, h: Host, hop: Ip, now: real)
    requires Coherent(h.queue)
    ensures Extends(h, AfterRequest(c, h, hop, now))
  {
    hide Coherent, Answered, Poll, Extends;
    AnsweredExtends(c, h, hop);
    AnsweredCoherent(c, h, hop);
    var h1 := Answered(c, h, hop);
    PollExtends(c, h1, now + RETRY_INTERVAL * (MAX_ATTEMPTS + 1) as real);
    ExtendsOn(h, h1, Poll(c, h1, now + RETRY_INTERVAL * (MAX_ATTEMPTS + 1) as real));
    assert Extends(h, h1);
  }

  // ---------------------------------------------------------------- replies

  /** Learning sets one entry if there is room for it or it is there, and nothing else. */
  lemma LearnsOne(arp: map<Ip, Mac>, ip: Ip, mac: Mac, other: Ip)
    ensures var r := Learn(arp, ip, mac);
            if other == ip && (ip in arp || |arp| < 100) then other in r && r[other] == mac
            else (other in r <==> other in arp) && (other in arp ==> r[other] == arp[other])
  {
  }

  lemma {:induction false} LeaveEventAt(ip: Ip, how: Option<Mac>, frames: seq<Frame>, k: nat)
    ensures |LeaveEvents(ip, how, frames)| == |frames|
    ensures k < |frames| ==> LeaveEvents(ip, how, frames)[k] == Leaves(ip, how, frames[k])
  {
    if |frames| > 0 {
      LeaveEventAt(ip, how, frames[1..], if k > 0 then k - 1 else 0);
    }
  }

  /** A reply that can be entered sends every packet that waits for its sender to the address it names,
      oldest first, and nothing else happens. One that cannot changes nothing. */
  lemma ReplySends(h: Host, ip: Ip, mac: Mac, k: nat)
    ensures var r, g := Resolve(h, ip, mac), Group(h.queue, ip);
            if ip in h.arp || |h.arp| < 100 then
              && r.arp == h.arp[ip := mac] && r.queue == Others(h.queue, ip) && Extends(h, r)
              && |r.trace| == |h.trace| + |g|
              && (k < |g| ==> r.trace[|h.trace| + k] == Flushed(ip, mac, g[k].info))
            else r == h
  {
    hide Group, Others, Drain, Infos;
    if ip in h.arp || |h.arp| < ARP_TABLE_MAX {
      var learned := h.(arp := h.arp[ip := mac]);
      DrainQueue(learned, ip, Some(mac));
      DrainTrace(learned, ip, Some(mac));
      LeaveEventAt(ip, Some(mac), Infos(Group(h.queue, ip)), k);
    }
  }

  // ---------------------------------------------------------------- the timetable

  /** How often ip was asked for. */
  function Asked(t: seq<Event<Frame>>, ip: Ip): nat {
    if |t| == 0 then 0 else
      Asked(t[..|t| - 1], ip) + if t[|t| - 1].Requested? && t[|t| - 1].ip == ip then 1 else 0
  }

  lemma AskedMore(t: seq<Event<Frame>>, e: Event<Frame>, ip: Ip)
    ensures Asked(t + [e], ip) == Asked(t, ip) + if e.Requested? && e.ip == ip then 1 else 0
  {
    assert (t + [e])[..|t|] == t;
  }

  lemma {:induction false} AskedNoMore(t: seq<Event<Frame>>, ip: Ip, x: Ip, how: Option<Mac>, frames: seq<Frame>)
    ensures Asked(t + LeaveEvents(x, how, frames), ip) == Asked(t, ip)
    decreases |frames|
  {
    if |frames| == 0 {
      assert t + LeaveEvents(x, how, frames) == t;
    } else {
      var e := Leaves(x, how, frames[0]);
      assert t + LeaveEvents(x, how, frames) == (t + [e]) + LeaveEvents(x, how, frames[1..]);
      AskedMore(t, e, ip);
      AskedNoMore(t + [e], ip, x, how, frames[1..]);
    }
  }

  /** The packets for one address that have made a attempts, the last at the time last. */
  predicate InState(g: seq<Pending<Frame>>, attempts: nat, last: real) {
    forall p :: p in g ==> p.attempts == attempts && p.last == last
  }

  /** A group of an unanswered address, polled at the time now: attempts follow each other every 1000 ms, at
      most three, each with a request; 1000 ms after the third all its packets are given up. Otherwise they
      all wait on, in order, having made every attempt that was due and none that was not. */
  ghost predicate OnTime(g: seq<Pending<Frame>>, asked: nat, g': seq<Pending<Frame>>, asked': nat, now: real) {
    if |g| == 0 then g' == [] && asked' == asked
    else
      var a, last := g[0].attempts, g[0].last;
      if last + 1000.0 * (4 - a) as real <= now then g' == [] && asked' == asked + (3 - a)
      else
        Infos(g') == Infos(g) && a <= g'[0].attempts <= 3 &&
        var n := g'[0].attempts - a;
        && InState(g', a + n, last + 1000.0 * n as real) && asked' == asked + n
        && now < last + 1000.0 * (n + 1) as real && (n > 0 ==> last + 1000.0 * n as real <= now)
  }

  lemma GroupInState(q: seq<Pending<Frame>>, ip: Ip)
    requires Coherent(q)
    ensures var g := Group(q, ip);
            |g| > 0 ==> 1 <= g[0].attempts <= 3 && g[0] in q && g[0].ip == ip && InState(g, g[0].attempts, g[0].last)
  {
    hide Group;
    GroupMembers(q, ip);
    var g := Group(q, ip);
    if |g| > 0 {
      assert g[0] in g;
    }
  }

  /** Nothing is due. */
  lemma TimetableEnds(h: Host, now: real, ip: Ip)
    requires Coherent(h.queue) && IndexDue(h.queue, now, true) == |h.queue|
    ensures var g := Group(h.queue, ip); OnTime(g, Asked(h.trace, ip), g, Asked(h.trace, ip), now)
  {
    hide Group, Asked, Infos, Coherent, IndexDue;
    GroupInState(h.queue, ip);
  }

  lemma TurnElsewhere(c: Config, h: Host, p: Pending<Frame>, ip: Ip)
    requires Coherent(h.queue) && p in h.queue && p.ip != ip && (c.answers)(|AskAgain(h, p).trace|).None?
    ensures var m := PollTurn(c, h, p);
            Group(m.queue, ip) == Group(h.queue, ip) && Asked(m.trace, ip) == Asked(h.trace, ip)
  {
    hide Group, Others, Stamp, Asked, Drain, LeaveEvents, Infos;
    var failed := h.(trace := h.trace + [Failed(p.ip)]);
    if p.attempts >= MAX_ATTEMPTS {
      DrainQueue(failed, p.ip, None);
      DrainTrace(failed, p.ip, None);
      GroupOfOthers(h.queue, p.ip, ip);
      AskedMore(h.trace, Failed(p.ip), ip);
      AskedNoMore(failed.trace, ip, p.ip, None, Infos(Group(h.queue, p.ip)));
    } else {
      GroupOfStamp(h.queue, p.ip, p.attempts + 1, p.last + RETRY_INTERVAL, ip);
      GroupMembers(h.queue, ip);
      StampElsewhere(Group(h.queue, ip), p.ip, p.attempts + 1, p.last + RETRY_INTERVAL);
      AskedMore(h.trace, Requested(p.ip), ip);
    }
  }

  lemma StampElsewhere(g: seq<Pending<Frame>>, x: Ip, attempts: nat, last: real)
    requires forall p :: p in g ==> p.ip != x
    ensures Stamp(g, x, attempts, last) == g
  {
    hide Stamp;
    assert forall i :: 0 <= i < |g| ==> g[i] in g;
  }

  /** A turn for the group itself: one attempt more, or none left. */
  lemma TurnHere(c: Config, h: Host, p: Pending<Frame>)
    requires Coherent(h.queue) && p in h.queue && (c.answers)(|AskAgain(h, p).trace|).None?
    ensures var m := PollTurn(c, h, p); var g, g' := Group(h.queue, p.ip), Group(m.queue, p.ip);
            && |g| > 0 && g[0].attempts == p.attempts && g[0].last == p.last
            && if p.attempts >= 3 then g' == [] && Asked(m.trace, p.ip) == Asked(h.trace, p.ip)
               else Infos(g') == Infos(g) && InState(g', p.attempts + 1, p.last + 1000.0)
                    && Asked(m.trace, p.ip) == Asked(h.trace, p.ip) + 1
  {
    hide Group, Others, Stamp, Asked, Drain, LeaveEvents, Infos, Coherent;
    GroupMembers(h.queue, p.ip);
    GroupInState(h.queue, p.ip);
    assert p in Group(h.queue, p.ip);
    var failed := h.(trace := h.trace + [Failed(p.ip)]);
    if p.attempts >= MAX_ATTEMPTS {
      DrainQueue(failed, p.ip, None);
      DrainTrace(failed, p.ip, None);
      GroupOfOthers(h.queue, p.ip, p.ip);
      AskedMore(h.trace, Failed(p.ip), p.ip);
      AskedNoMore(failed.trace, p.ip, p.ip, None, Infos(Group(h.queue, p.ip)));
    } else {
      GroupOfStamp(h.queue, p.ip, p.attempts + 1, p.last + RETRY_INTERVAL, p.ip);
      StampKeepsInfos(h.queue, p.ip, p.attempts + 1, p.last + RETRY_INTERVAL, p.ip);
      StampedState(Group(h.queue, p.ip), p.ip, p.attempts + 1, p.last + RETRY_INTERVAL);
      AskedMore(h.trace, Requested(p.ip), p.ip);
    }
  }

  lemma StampedState(g: seq<Pending<Frame>>, x: Ip, attempts: nat, last: real)
    requires forall p :: p in g ==> p.ip == x
    ensures InState(Stamp(g, x, attempts, last), attempts, last)
  {
    hide Stamp;
    var r := Stamp(g, x, attempts, last);
    forall p | p in r
      ensures p.attempts == attempts && p.last == last
    {
      var i :| 0 <= i < |r| && r[i] == p;
      assert g[i] in g;
    }
  }

  lemma OneMoreAttempt(g: seq<Pending<Frame>>, n: nat, g1: seq<Pending<Frame>>, n1: nat, g2: seq<Pending<Frame>>,
                       n2: nat, now: real)
    requires |g| > 0 && 1 <= g[0].attempts <= 3 && g[0].last + 1000.0 <= now
    requires if g[0].attempts == 3 then g1 == [] && n1 == n
             else Infos(g1) == Infos(g) && InState(g1, g[0].attempts + 1, g[0].last + 1000.0) && n1 == n + 1
    requires OnTime(g1, n1, g2, n2, now)
    ensures OnTime(g, n, g2, n2, now)
  {
    hide Infos;
    assert |Infos(g1)| == |g1| && |Infos(g)| == |g| && |Infos(g2)| == |g2|;
    if |g1| > 0 {
      assert g1[0] in g1;
    }
  }

  /** The timetable: without answers, every group goes its own way, whatever else is in the queue. */
  lemma {:induction false} PollsOnTime(c: Config, h: Host, now: real, ip: Ip)
    requires Coherent(h.queue) && forall n :: (c.answers)(n).None?
    ensures var r := Poll(c, h, now);
            OnTime(Group(h.queue, ip), Asked(h.trace, ip), Group(r.queue, ip), Asked(r.trace, ip), now)
    decreases Remaining(h.queue)
  {
    hide GiveUp, Retry, AskAgain, Coherent, Remaining, IndexDue, Group, Asked, OnTime, InState, Infos;
    var k := IndexDue(h.queue, now, true);
    if k == |h.queue| {
      TimetableEnds(h, now, ip);
    } else {
      var p := h.queue[k];
      PollProgress(c, h, p);
      var m := PollTurn(c, h, p);
      PollsOnTime(c, m, now, ip);
      if p.ip == ip {
        TurnHere(c, h, p);
        GroupInState(h.queue, ip);
        var r := Poll(c, m, now);
        OneMoreAttempt(Group(h.queue, ip), Asked(h.trace, ip), Group(m.queue, ip), Asked(m.trace, ip),
                       Group(r.queue, ip), Asked(r.trace, ip), now);
      } else {
        TurnElsewhere(c, h, p, ip);
      }
    }
  }

  /** Without real time a packet for an unknown host that never answers has been asked for three times and
      given up before the call returns. */
  lemma GivenUpAtOnce(c: Config, h: Host, target: Ip, frame: Frame, now: real)
    requires Coherent(h.queue) && forall n :: (c.answers)(n).None?
    requires !c.realtime && c.hasIp && target != Ip(255, 255, 255, 255) && |frame.payload| <= 1500
    requires var to := Towards(c, target); to !in h.arp && Group(h.queue, to) == [] && |h.queue| < 64
    ensures var (ok, r) := SendL3(c, h, target, frame, now);
            var to := Towards(c, target);
            ok && Group(r.queue, to) == [] && Asked(r.trace, to) == Asked(h.trace, to) + 3
  {
    hide Coherent, Towards, NextHop, Group, Asked, Infos, Poll, OnTime, IndexFor;
    var to := Towards(c, target);
    HopByBits(c, target);
    GroupIsThere(h.queue, to);
    EnqueueCoherent(h, to, frame, now);
    var h1 := Enqueued(h, to, frame, now);
    GroupAppend(h.queue, Waiting(h.queue, to, frame, now), to);
    AskedMore(h.trace, Queued(to, frame), to);
    AskedMore(h.trace + [Queued(to, frame)], Requested(to), to);
    var r := Poll(c, h1, now + RETRY_INTERVAL * (MAX_ATTEMPTS + 1) as real);
    PollsOnTime(c, h1, now + RETRY_INTERVAL * (MAX_ATTEMPTS + 1) as real, to);
    assert Group(h1.queue, to) == [Pending(to, frame, 1, now)];
    JustOpened(Pending(to, frame, 1, now), Asked(h1.trace, to), Group(r.queue, to), Asked(r.trace, to), now + 4000.0);
  }

  lemma JustOpened(p: Pending<Frame>, n: nat, g: seq<Pending<Frame>>, n': nat, now: real)
    requires p.attempts == 1 && now == p.last + 4000.0 && OnTime([p], n, g, n', now)
    ensures g == [] && n' == n + 2
  {
  }
}
