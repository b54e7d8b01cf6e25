/** What becomes of packets that wait for address resolution, as a trace of events. */
module PendingTrace {
  import opened Base
  import opened PendingQueue

  /** Queued: accepted for later. Requested: an ARP request went out. Flushed: a queued packet went
      out. Retaken: a queued packet was taken out to be sent again to the same, still unknown address.
      Failed: resolution was given up. Dropped: a queued packet was discarded. Reported: an error is
      made for the packet just dropped. Direct: a packet went out to ip at once. */
  datatype Event<T> =
    | Queued(ip: Ip, info: T) | Requested(ip: Ip) | Flushed(ip: Ip, mac: Mac, info: T)
    | Retaken(ip: Ip, info: T) | Failed(ip: Ip) | Dropped(ip: Ip, info: T) | Reported(info: T)
    | Direct(ip: Ip, mac: Mac, info: T)

  /** The packets that entered the queue for ip, in order. */
  function Entered<T(!new)>(t: seq<Event<T>>, ip: Ip): seq<T> {
    if |t| == 0 then [] else
      var e := t[|t| - 1];
      Entered(t[..|t| - 1], ip) + if e.Queued? && e.ip == ip then [e.info] else []
  }

  /** Does a packet leave the queue? */
  predicate Leaving<T(!new)>(e: Event<T>) {
    e.Flushed? || e.Retaken? || e.Dropped?
  }

  /** The packets that left the queue for ip, in order. */
  function Left<T(!new)>(t: seq<Event<T>>, ip: Ip): seq<T> {
    if |t| == 0 then [] else
      var e := t[|t| - 1];
      Left(t[..|t| - 1], ip) + if Leaving(e) && e.ip == ip then [e.info] else []
  }

  /** ARP requests for ip since packets for it last left the queue or were given up. */
  function OpenRequests<T(!new)>(t: seq<Event<T>>, ip: Ip): nat {
    if |t| == 0 then 0 else
      var e := t[|t| - 1];
      if (Leaving(e) || e.Failed?) && e.ip == ip then 0
      else OpenRequests(t[..|t| - 1], ip) + if e.Requested? && e.ip == ip then 1 else 0
  }

  /** An unresolved address is asked for at most three times before its group leaves the queue. */
  ghost predicate AtMostThreeRequests<T(!new)>(t: seq<Event<T>>) {
    forall n, ip :: 0 <= n <= |t| ==> OpenRequests(t[..n], ip) <= MAX_ATTEMPTS
  }

  /** A group is given up only after exactly three requests. */
  ghost predicate FailsAfterThree<T(!new)>(t: seq<Event<T>>) {
    forall n :: 0 <= n < |t| && t[n].Failed? ==> OpenRequests(t[..n], t[n].ip) == MAX_ATTEMPTS
  }

  /** Attempts made so far for the group of ip, none if nothing waits for it. */
  function Attempts<T(!new)>(q: seq<Pending<T>>, ip: Ip): nat {
    var k := IndexFor(q, ip);
    if k < |q| then q[k].attempts else 0
  }

  /** First in, first out for every address: what entered is what left, then what still waits. */
  ghost predicate Conserved<T(!new)>(t: seq<Event<T>>, q: seq<Pending<T>>) {
    forall ip :: Entered(t, ip) == Left(t, ip) + Infos(Group(q, ip))
  }

  lemma Snoc<T(!new)>(t: seq<Event<T>>, e: Event<T>, ip: Ip)
    ensures Entered(t + [e], ip) == Entered(t, ip) + (if e.Queued? && e.ip == ip then [e.info] else [])
    ensures Left(t + [e], ip) == Left(t, ip) + (if Leaving(e) && e.ip == ip then [e.info] else [])
    ensures OpenRequests(t + [e], ip) ==
            if (Leaving(e) || e.Failed?) && e.ip == ip then 0
            else OpenRequests(t, ip) + if e.Requested? && e.ip == ip then 1 else 0
  {
    assert (t + [e])[..|t|] == t;
  }

  lemma AtMostThreeSnoc<T(!new)>(t: seq<Event<T>>, e: Event<T>)
    requires AtMostThreeRequests(t) && (e.Requested? ==> OpenRequests(t, e.ip) < MAX_ATTEMPTS)
    ensures AtMostThreeRequests(t + [e])
  {
    hide OpenRequests;
    var r := t + [e];
    forall n, ip | 0 <= n <= |r|
      ensures OpenRequests(r[..n], ip) <= MAX_ATTEMPTS
    {
      if n <= |t| {
        assert r[..n] == t[..n];
      } else {
        assert r[..n] == t + [e] && t[..|t|] == t;
        Snoc(t, e, ip);
      }
    }
  }

  lemma FailsAfterThreeSnoc<T(!new)>(t: seq<Event<T>>, e: Event<T>)
    requires FailsAfterThree(t) && (e.Failed? ==> OpenRequests(t, e.ip) == MAX_ATTEMPTS)
    ensures FailsAfterThree(t + [e])
  {
    hide OpenRequests;
    var r := t + [e];
    forall n | 0 <= n < |r| && r[n].Failed?
      ensures OpenRequests(r[..n], r[n].ip) == MAX_ATTEMPTS
    {
      if n < |t| {
        assert r[..n] == t[..n];
      } else {
        assert r[..n] == t;
      }
    }
  }

  lemma AttemptsOfHead<T(!new)>(q: seq<Pending<T>>, ip: Ip)
    requires |q| > 0
    ensures Attempts(q, ip) == if q[0].ip == ip then q[0].attempts else Attempts(q[1..], ip)
    ensures IndexFor(q, ip) < |q| <==> q[0].ip == ip || IndexFor(q[1..], ip) < |q[1..]|
  {
  }

  lemma {:induction false} AttemptsOfAppend<T(!new)>(q: seq<Pending<T>>, p: Pending<T>, ip: Ip)
    ensures Attempts(q + [p], ip) ==
            if IndexFor(q, ip) < |q| then Attempts(q, ip) else if p.ip == ip then p.attempts else 0
  {
    if |q| > 0 {
      hide Attempts, IndexFor;
      assert (q + [p])[1..] == q[1..] + [p];
      AttemptsOfAppend(q[1..], p, ip);
      AttemptsOfHead(q, ip);
      AttemptsOfHead(q + [p], ip);
    } else {
      assert q + [p] == [p];
    }
  }

  lemma {:induction false} AttemptsOfStamp<T(!new)>(q: seq<Pending<T>>, stamped: Ip, attempts: nat, last: real, ip: Ip)
    ensures Attempts(Stamp(q, stamped, attempts, last), ip) ==
            if ip == stamped && IndexFor(q, ip) < |q| then attempts else Attempts(q, ip)
  {
    if |q| > 0 {
      AttemptsOfStamp(q[1..], stamped, attempts, last, ip);
      var r := Stamp(q, stamped, attempts, last);
      assert r[1..] == Stamp(q[1..], stamped, attempts, last);
      hide Stamp, Attempts, IndexFor;
      assert r[0] == StampOne(q[0], stamped, attempts, last);
      AttemptsOfHead(q, ip);
      AttemptsOfHead(r, ip);
    }
  }

  lemma {:induction false} AttemptsOfOthers<T(!new)>(q: seq<Pending<T>>, out: Ip, ip: Ip)
    ensures Attempts(Others(q, out), ip) == if ip == out then 0 else Attempts(q, ip)
  {
    if |q| > 0 {
      AttemptsOfOthers(q[1..], out, ip);
      hide Attempts, IndexFor;
      AttemptsOfHead(q, ip);
      if q[0].ip != out {
        assert Others(q, out)[1..] == Others(q[1..], out);
        AttemptsOfHead(Others(q, out), ip);
      } else {
        assert Others(q, out) == Others(q[1..], out);
      }
    }
  }

  /** Queueing keeps the order of every address. */
  lemma ConservedQueued<T(!new)>(t: seq<Event<T>>, q: seq<Pending<T>>, p: Pending<T>)
    requires Conserved(t, q)
    ensures Conserved(t + [Queued(p.ip, p.info)], q + [p])
  {
    hide Entered, Left, Infos, Group;
    forall ip
      ensures Entered(t + [Queued(p.ip, p.info)], ip) ==
              Left(t + [Queued(p.ip, p.info)], ip) + Infos(Group(q + [p], ip))
    {
      Snoc(t, Queued(p.ip, p.info), ip);
      GroupAppend(q, p, ip);
      InfosConcat(Group(q, ip), [p]);
      OneInfo(p);
      assert Group(q, ip) + [] == Group(q, ip);
      assert Entered(t, ip) == Left(t, ip) + Infos(Group(q, ip));
    }
  }

  lemma OneInfo<T(!new)>(p: Pending<T>)
    ensures Infos([p]) == [p.info]
  {
  }

  /** Events that move no packet. */
  lemma ConservedIdle<T(!new)>(t: seq<Event<T>>, q: seq<Pending<T>>, e: Event<T>)
    requires Conserved(t, q) && !e.Queued? && !Leaving(e)
    ensures Conserved(t + [e], q)
  {
    hide Entered, Left, Infos, Group;
    forall ip
      ensures Entered(t + [e], ip) == Left(t + [e], ip) + Infos(Group(q, ip))
    {
      Snoc(t, e, ip);
      assert Entered(t, ip) == Left(t, ip) + Infos(Group(q, ip));
    }
  }

  lemma ConservedStamp<T(!new)>(t: seq<Event<T>>, q: seq<Pending<T>>, ip: Ip, attempts: nat, last: real)
    requires Conserved(t, q)
    ensures Conserved(t, Stamp(q, ip, attempts, last))
  {
    hide Entered, Left, Infos, Group, Stamp;
    forall x
      ensures Entered(t, x) == Left(t, x) + Infos(Group(Stamp(q, ip, attempts, last), x))
    {
      StampKeepsInfos(q, ip, attempts, last, x);
      assert Entered(t, x) == Left(t, x) + Infos(Group(q, x));
    }
  }

  /** The oldest packet for ip leaves. */
  lemma ConservedFirst<T(!new)>(t: seq<Event<T>>, q: seq<Pending<T>>, ip: Ip, e: Event<T>)
    requires Conserved(t, q) && IndexFor(q, ip) < |q|
    requires Leaving(e) && e.ip == ip && e.info == q[IndexFor(q, ip)].info
    ensures Conserved(t + [e], RemoveAt(q, IndexFor(q, ip)))
  {
    hide Entered, Left, Infos, Group, RemoveAt;
    var k := IndexFor(q, ip);
    forall x
      ensures Entered(t + [e], x) == Left(t + [e], x) + Infos(Group(RemoveAt(q, k), x))
    {
      Snoc(t, e, x);
      assert Entered(t, x) == Left(t, x) + Infos(Group(q, x));
      if x == ip {
        RemoveFirstOfGroup(q, ip);
        InfosConcat([q[k]], Group(RemoveAt(q, k), ip));
        OneInfo(q[k]);
      } else {
        OtherGroupsKept(q, ip, x);
      }
    }
  }

  lemma {:induction false} OtherGroupsKept<T(!new)>(q: seq<Pending<T>>, ip: Ip, x: Ip)
    requires IndexFor(q, ip) < |q| && x != ip
    ensures Group(RemoveAt(q, IndexFor(q, ip)), x) == Group(q, x)
  {
    var k := IndexFor(q, ip);
    if k == 0 {
      assert RemoveAt(q, 0) == q[1..];
    } else {
      OtherGroupsKept(q[1..], ip, x);
      var less := RemoveAt(q, k);
      assert less[0] == q[0] && less[1..] == RemoveAt(q[1..], k - 1);
    }
  }
}
