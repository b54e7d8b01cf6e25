/** Packets waiting for address resolution: a sequence specification, and the circular buffer that
    layer2/host.c (64 entries) and layer3/router.c (128 entries) both use. */
module PendingQueue {
  import opened Base

  const MAX_ATTEMPTS := 3
  const RETRY_INTERVAL := 1000.0

  /** A packet waiting for ip; info is what has to be sent once the address is known. */
  datatype Pending<T(!new)> = Pending(ip: Ip, info: T, attempts: nat, last: real)

  // ---------------------------------------------------------------- sequence specification

  /** Position of the first packet waiting for ip, or |q|. */
  function IndexFor<T(!new)>(q: seq<Pending<T>>, ip: Ip): (k: nat)
    ensures k <= |q| && (k < |q| ==> q[k].ip == ip) && forall i :: 0 <= i < k ==> q[i].ip != ip
  {
    if |q| == 0 || q[0].ip == ip then 0 else 1 + IndexFor(q[1..], ip)
  }

  predicate IsDue<T(!new)>(p: Pending<T>, now: real, onlyStarted: bool) {
    (onlyStarted ==> p.attempts > 0) && p.last + RETRY_INTERVAL <= now
  }

  /** Position of the first packet whose retry time has come, or |q|. */
  function IndexDue<T(!new)>(q: seq<Pending<T>>, now: real, onlyStarted: bool): (k: nat)
    ensures k <= |q| && (k < |q| ==> IsDue(q[k], now, onlyStarted))
    ensures forall i :: 0 <= i < k ==> !IsDue(q[i], now, onlyStarted)
  {
    if |q| == 0 || IsDue(q[0], now, onlyStarted) then 0 else 1 + IndexDue(q[1..], now, onlyStarted)
  }

  function RemoveAt<T(!new)>(q: seq<T>, k: nat): (r: seq<T>)
    requires k < |q|
    ensures |r| == |q| - 1
  {
    q[..k] + q[k + 1..]
  }

  /** The packets waiting for ip, in order. */
  function Group<T(!new)>(q: seq<Pending<T>>, ip: Ip): seq<Pending<T>> {
    if |q| == 0 then [] else (if q[0].ip == ip then [q[0]] else []) + Group(q[1..], ip)
  }

  /** All the other packets, in order. */
  function Others<T(!new)>(q: seq<Pending<T>>, ip: Ip): seq<Pending<T>> {
    if |q| == 0 then [] else (if q[0].ip != ip then [q[0]] else []) + Others(q[1..], ip)
  }

  function StampOne<T(!new)>(p: Pending<T>, ip: Ip, attempts: nat, last: real): Pending<T> {
    if p.ip == ip then p.(attempts := attempts, last := last) else p
  }

  /** Record one more attempt for every packet waiting for ip. */
  function Stamp<T(!new)>(q: seq<Pending<T>>, ip: Ip, attempts: nat, last: real): (r: seq<Pending<T>>)
    ensures |r| == |q| && forall i :: 0 <= i < |q| ==> r[i] == StampOne(q[i], ip, attempts, last)
  {
    if |q| == 0 then [] else [StampOne(q[0], ip, attempts, last)] + Stamp(q[1..], ip, attempts, last)
  }

  /** All packets for one address share their retry state, between 1 and 3 attempts. */
  ghost predicate Coherent<T(!new)>(q: seq<Pending<T>>) {
    && (forall p :: p in q ==> 1 <= p.attempts <= MAX_ATTEMPTS)
    && (forall p, r :: p in q && r in q && p.ip == r.ip ==> p.attempts == r.attempts && p.last == r.last)
  }

  /** Attempts still to be made before every packet is sent or given up. */
  function Remaining<T(!new)>(q: seq<Pending<T>>): nat {
    if |q| == 0 then 0 else
      (if q[0].attempts <= MAX_ATTEMPTS then MAX_ATTEMPTS + 1 - q[0].attempts else 0) + Remaining(q[1..])
  }

  function Infos<T(!new)>(g: seq<Pending<T>>): (r: seq<T>)
    ensures |r| == |g| && forall i :: 0 <= i < |g| ==> r[i] == g[i].info
  {
    if |g| == 0 then [] else [g[0].info] + Infos(g[1..])
  }

  // ---------------------------------------------------------------- laws of the specification

  lemma {:induction false} GroupMembers<T(!new)>(q: seq<Pending<T>>, ip: Ip)
    ensures forall p :: p in Group(q, ip) <==> p in q && p.ip == ip
    ensures forall p :: p in Others(q, ip) <==> p in q && p.ip != ip
  {
    if |q| > 0 {
      GroupMembers(q[1..], ip);
      assert q == [q[0]] + q[1..];
    }
  }

  lemma {:induction false} RemoveFirstOfGroup<T(!new)>(q: seq<Pending<T>>, ip: Ip)
    requires IndexFor(q, ip) < |q|
    ensures var k := IndexFor(q, ip);
            && Group(q, ip) == [q[k]] + Group(RemoveAt(q, k), ip)
            && Others(RemoveAt(q, k), ip) == Others(q, ip)
  {
    var k := IndexFor(q, ip);
    if k == 0 {
      assert RemoveAt(q, 0) == q[1..];
    } else {
      RemoveFirstOfGroup(q[1..], ip);
      var less := RemoveAt(q, k);
      assert less[0] == q[0] && less[1..] == RemoveAt(q[1..], k - 1);
      assert Others(q, ip) == [q[0]] + Others(q[1..], ip);
    }
  }

  lemma {:induction false} EmptyGroup<T(!new)>(q: seq<Pending<T>>, ip: Ip)
    requires IndexFor(q, ip) == |q|
    ensures Group(q, ip) == [] && Others(q, ip) == q
  {
    if |q| > 0 {
      EmptyGroup(q[1..], ip);
    }
  }

  lemma {:induction false} GroupAppend<T(!new)>(q: seq<Pending<T>>, p: Pending<T>, ip: Ip)
    ensures Group(q + [p], ip) == Group(q, ip) + (if p.ip == ip then [p] else [])
  {
    if |q| == 0 {
      assert q + [p] == [p];
    } else {
      GroupAppend(q[1..], p, ip);
      assert (q + [p])[1..] == q[1..] + [p];
    }
  }

  lemma {:induction false} GroupOfOthers<T(!new)>(q: seq<Pending<T>>, out: Ip, ip: Ip)
    ensures Group(Others(q, out), ip) == if ip == out then [] else Group(q, ip)
  {
    if |q| > 0 {
      GroupOfOthers(q[1..], out, ip);
      if q[0].ip != out {
        assert Others(q, out)[1..] == Others(q[1..], out);
      } else {
        assert Others(q, out) == Others(q[1..], out);
      }
    }
  }

  lemma {:induction false} StampKeepsInfos<T(!new)>(q: seq<Pending<T>>, stamped: Ip, attempts: nat, last: real, ip: Ip)
    ensures Infos(Group(Stamp(q, stamped, attempts, last), ip)) == Infos(Group(q, ip))
  {
    if |q| > 0 {
      StampKeepsInfos(q[1..], stamped, attempts, last, ip);
      var r := Stamp(q, stamped, attempts, last);
      assert r[1..] == Stamp(q[1..], stamped, attempts, last);
      InfosOfHead(q, ip);
      InfosOfHead(r, ip);
    }
  }

  lemma {:induction false} GroupOfStamp<T(!new)>(q: seq<Pending<T>>, x: Ip, attempts: nat, last: real, ip: Ip)
    ensures Group(Stamp(q, x, attempts, last), ip) == Stamp(Group(q, ip), x, attempts, last)
  {
    if |q| > 0 {
      GroupOfStamp(q[1..], x, attempts, last, ip);
      var r := Stamp(q, x, attempts, last);
      assert r[1..] == Stamp(q[1..], x, attempts, last);
      if q[0].ip == ip {
        assert Group(q, ip)[1..] == Group(q[1..], ip);
      } else {
        assert Group(q, ip) == Group(q[1..], ip);
      }
    }
  }

  lemma InfosOfHead<T(!new)>(q: seq<Pending<T>>, ip: Ip)
    requires |q| > 0
    ensures Infos(Group(q, ip)) == (if q[0].ip == ip then [q[0].info] else []) + Infos(Group(q[1..], ip))
  {
    if q[0].ip == ip {
      assert Group(q, ip)[1..] == Group(q[1..], ip);
    } else {
      assert Group(q, ip) == Group(q[1..], ip);
    }
  }

  lemma InfosConcat<T(!new)>(a: seq<Pending<T>>, b: seq<Pending<T>>)
    ensures Infos(a + b) == Infos(a) + Infos(b)
  {
    hide Infos;
    assert forall i :: 0 <= i < |a + b| ==> Infos(a + b)[i] == (Infos(a) + Infos(b))[i];
  }

  /** One more attempt for a due group leaves less to do. */
  lemma {:induction false} StampProgress<T(!new)>(q: seq<Pending<T>>, ip: Ip, attempts: nat, last: real)
    requires attempts <= MAX_ATTEMPTS
    requires forall p :: p in q && p.ip == ip ==> p.attempts < attempts
    ensures Remaining(Stamp(q, ip, attempts, last)) <= Remaining(q)
    ensures IndexFor(q, ip) < |q| ==> Remaining(Stamp(q, ip, attempts, last)) < Remaining(q)
  {
    if |q| > 0 {
      StampProgress(q[1..], ip, attempts, last);
    }
  }

  lemma {:induction false} OthersProgress<T(!new)>(q: seq<Pending<T>>, ip: Ip)
    ensures Remaining(Others(q, ip)) <= Remaining(q)
    ensures forall p :: p in q && p.ip == ip && p.attempts <= MAX_ATTEMPTS ==> Remaining(Others(q, ip)) < Remaining(q)
  {
    if |q| > 0 {
      OthersProgress(q[1..], ip);
      assert q == [q[0]] + q[1..];
      if q[0].ip != ip {
        assert Others(q, ip)[1..] == Others(q[1..], ip);
      } else {
        assert Others(q, ip) == Others(q[1..], ip);
      }
    }
  }

  /** The group that is retried stays coherent, and so does everything else. */
  lemma StampCoherent<T(!new)>(q: seq<Pending<T>>, ip: Ip, attempts: nat, last: real)
    requires Coherent(q) && 1 <= attempts <= MAX_ATTEMPTS
    ensures Coherent(Stamp(q, ip, attempts, last))
  {
    var r := Stamp(q, ip, attempts, last);
    forall p | p in r
      ensures 1 <= p.attempts <= MAX_ATTEMPTS && exists o :: o in q && p == StampOne(o, ip, attempts, last)
    {
      var i :| 0 <= i < |r| && r[i] == p;
      assert q[i] in q;
    }
  }

  /** Giving up or sending a whole group keeps the rest coherent and is progress. */
  lemma GroupLeaves<T(!new)>(q: seq<Pending<T>>, ip: Ip)
    requires Coherent(q)
    ensures Coherent(Others(q, ip)) && Remaining(Others(q, ip)) <= Remaining(q)
    ensures forall p :: p in q && p.ip == ip ==> Remaining(Others(q, ip)) < Remaining(q)
  {
    hide Group, Others, Remaining;
    GroupMembers(q, ip);
    OthersProgress(q, ip);
  }

  lemma GroupState<T(!new)>(q: seq<Pending<T>>, p: Pending<T>)
    requires Coherent(q) && p in q
    ensures IndexFor(q, p.ip) < |q| && 1 <= p.attempts <= MAX_ATTEMPTS
    ensures forall r :: r in q && r.ip == p.ip ==> r.attempts == p.attempts && r.last == p.last
  {
    hide IndexFor;
    var i :| 0 <= i < |q| && q[i] == p;
    assert q[i].ip == p.ip;
  }

  /** One more attempt for the group of p keeps the queue coherent and is progress. */
  lemma GroupRetries<T(!new)>(q: seq<Pending<T>>, p: Pending<T>, last: real)
    requires Coherent(q) && p in q && p.attempts < MAX_ATTEMPTS
    ensures var r := Stamp(q, p.ip, p.attempts + 1, last); Coherent(r) && Remaining(r) < Remaining(q)
  {
    hide Stamp, Remaining, StampOne, Coherent, IndexFor;
    GroupState(q, p);
    StampProgress(q, p.ip, p.attempts + 1, last);
    StampCoherent(q, p.ip, p.attempts + 1, last);
  }

  /** A new packet for hop: the first of its group, or one more with the group's retry state. */
  function Waiting<T(!new)>(q: seq<Pending<T>>, hop: Ip, info: T, now: real): Pending<T> {
    var k := IndexFor(q, hop);
    if k == |q| then Pending(hop, info, 1, now) else Pending(hop, info, q[k].attempts, q[k].last)
  }

  lemma AppendCoherent<T(!new)>(q: seq<Pending<T>>, hop: Ip, info: T, now: real)
    requires Coherent(q)
    ensures Coherent(q + [Waiting(q, hop, info, now)])
  {
    hide IndexFor;
    var p := Waiting(q, hop, info, now);
    assert forall r :: r in q + [p] <==> r in q || r == p;
    var k := IndexFor(q, hop);
    assert k < |q| ==> q[k] in q;
  }

  // ---------------------------------------------------------------- the circular buffer

  class Ring<T(!new)> {
    const items: array<Pending<T>>
    var head: nat
    var tail: nat
    var size: nat

    /** What is waiting, oldest first. */
    ghost var contents: seq<Pending<T>>

    ghost predicate Valid()
      reads this, items
    {
      && 0 < items.Length
      && head < items.Length && size <= items.Length
      && tail == (head + size) % items.Length
      && |contents| == size
      && (forall i :: 0 <= i < size ==> contents[i] == items[Slot(i)])
    }

    /** Where the i-th waiting packet is stored. */
    function Slot(i: nat): (s: nat)
      requires head < items.Length && i <= items.Length
      reads this
      ensures s < items.Length
    {
      if head + i < items.Length then head + i else head + i - items.Length
    }

    constructor (capacity: nat, blank: T)
      requires capacity > 0
      ensures Valid() && fresh(items) && items.Length == capacity && contents == []
    {
      items := new Pending<T>[capacity](_ => Pending(ZERO_IP, blank, 0, 0.0));
      head, tail, size, contents := 0, 0, 0, [];
    }

    /** The increment of head and tail wraps around at the capacity. */
    static lemma Increment(at: nat, capacity: nat)
      requires at < capacity
      ensures (at + 1) % capacity == if at + 1 < capacity then at + 1 else 0
    {
      if at + 1 == capacity {
        assert (at + 1) % capacity == 0;
      }
    }

    static lemma Wraps(at: nat, capacity: nat)
      requires at < 2 * capacity
      ensures at % capacity == if at < capacity then at else at - capacity
    {
      if at >= capacity {
        assert at == capacity + (at - capacity);
        assert (capacity + (at - capacity)) % capacity == (at - capacity) % capacity by {
          AddOnce(at - capacity, capacity);
        }
      }
    }

    static lemma Products(n: nat, q: int)
      ensures q <= 0 ==> n * q <= 0
      ensures q >= 2 ==> n * q >= n * 2
    {
    }

    static lemma AddOnce(x: nat, n: nat)
      requires x < n
      ensures (n + x) % n == x
    {
      Products(n, (n + x) / n);
    }

    method PushBack(p: Pending<T>)
      requires Valid() && size < items.Length
      modifies this, items
      ensures Valid() && contents == old(contents) + [p]
    {
      Wraps(head + size, items.Length);
      Wraps(head + size + 1, items.Length);
      Increment(tail, items.Length);
      items[tail] := p;
      tail := (tail + 1) % items.Length;
      size := size + 1;
      contents := contents + [p];
    }

    method PopFront() returns (p: Pending<T>)
      requires Valid() && size > 0
      modifies this
      ensures Valid() && old(contents) == [p] + contents
    {
      Wraps(head + size, items.Length);
      Increment(head, items.Length);
      p := items[head];
      assert p == contents[0] by { assert Slot(0) == head; }
      PopMoves();
    }

    method PopMoves()
      requires Valid() && size > 0
      modifies this
      ensures Valid() && contents == old(contents)[1..]
    {
      Wraps(head + size, items.Length);
      Increment(head, items.Length);
      forall i | 0 <= i < size - 1
        ensures contents[1..][i] == items[Slot(i + 1)]
      {
      }
      head := (head + 1) % items.Length;
      size := size - 1;
      contents := contents[1..];
      Wraps(head + size, items.Length);
    }

    /** host_queue_pending_packet_with_arp_state, router_queue_pending_packet. */
    method Enqueue(p: Pending<T>) returns (ok: bool)
      requires Valid()
      modifies this, items
      ensures Valid() && ok == (|old(contents)| < items.Length)
      ensures contents == if ok then old(contents) + [p] else old(contents)
    {
      if size >= items.Length {
        return false;
      }
      PushBack(p);
      ok := true;
    }

    /** The buffer after i packets of q were rotated and the k-th left out. */
    static function Rotated(q: seq<Pending<T>>, k: nat, i: nat): seq<Pending<T>>
      requires i <= |q|
    {
      q[i..] + if k < i then q[..k] + q[k + 1..i] else q[..i]
    }

    static lemma RotateStep(q: seq<Pending<T>>, k: nat, i: nat)
      requires i < |q|
      ensures Rotated(q, k, i)[0] == q[i]
      ensures Rotated(q, k, i + 1) == if k == i then Rotated(q, k, i)[1..] else Rotated(q, k, i)[1..] + [q[i]]
    {
    }

    static lemma RotateEnds(q: seq<Pending<T>>, k: nat)
      ensures Rotated(q, k, 0) == q && Rotated(q, k, |q|) == if k < |q| then RemoveAt(q, k) else q
    {
    }

    /** host_dequeue_pending_packet_for_ip, router_dequeue_pending_for_ip: rotate the whole buffer
        once and leave out the first match. */
    method DequeueFor(ip: Ip) returns (found: Option<Pending<T>>)
      requires Valid()
      modifies this, items
      ensures Valid()
      ensures var q := old(contents); var k := IndexFor(q, ip);
              if k < |q| then found == Some(q[k]) && contents == RemoveAt(q, k) else found == None && contents == q
    {
      hide IndexFor, Rotated, RemoveAt;
      ghost var q := contents;
      ghost var k := IndexFor(q, ip);
      var count := size;
      found := None;
      RotateEnds(q, k);
      var i := 0;
      while i < count
        invariant i <= count == |q| && Valid() && size == if k < i then count - 1 else count
        invariant contents == Rotated(q, k, i) && found == if k < i then Some(q[k]) else None
      {
        RotateStep(q, k, i);
        var current := PopFront();
        if found.None? && current.ip == ip {
          found := Some(current);
        } else {
          PushBack(current);
        }
        i := i + 1;
      }
    }

    /** host_find_pending_for_ip, router_find_pending_for_ip, as a position. */
    method FindFor(ip: Ip) returns (k: nat)
      requires Valid()
      ensures k == IndexFor(contents, ip)
    {
      var index := head;
      k := 0;
      while k < size && items[index].ip != ip
        invariant k <= size && index == Slot(k) && forall i :: 0 <= i < k ==> contents[i].ip != ip
      {
        Increment(index, items.Length);
        index := (index + 1) % items.Length;
        k := k + 1;
      }
    }

    /** The scan at the head of host_poll_arp and router_poll_arp. */
    method FindDue(now: real, onlyStarted: bool) returns (k: nat)
      requires Valid()
      ensures k == IndexDue(contents, now, onlyStarted)
    {
      var index := head;
      k := 0;
      while k < size && !IsDue(items[index], now, onlyStarted)
        invariant k <= size && index == Slot(k) && forall i :: 0 <= i < k ==> !IsDue(contents[i], now, onlyStarted)
      {
        Increment(index, items.Length);
        index := (index + 1) % items.Length;
        k := k + 1;
      }
    }

    method Get(k: nat) returns (p: Pending<T>)
      requires Valid() && k < |contents|
      ensures p == contents[k]
    {
      p := items[Slot(k)];
    }

    static lemma StampStep(q: seq<Pending<T>>, stamped: seq<Pending<T>>, i: nat)
      requires i < |q| == |stamped|
      ensures stamped[..i + 1] + q[i + 1..] == (stamped[..i] + q[i..])[i := stamped[i]]
      ensures (stamped[..i] + q[i..])[i] == q[i]
    {
    }

    /** host_set_arp_attempt_for_ip, router_set_arp_attempt_for_ip. */
    method SetAttempt(ip: Ip, attempts: nat, last: real)
      requires Valid()
      modifies this, items
      ensures Valid() && contents == Stamp(old(contents), ip, attempts, last)
    {
      hide Stamp, StampOne;
      ghost var q := contents;
      ghost var stamped := Stamp(q, ip, attempts, last);
      var index, i := head, 0;
      assert contents == stamped[..0] + q[0..];
      while i < size
        invariant i <= size == |q| && Valid() && index == Slot(i)
        invariant contents == stamped[..i] + q[i..]
      {
        StampStep(q, stamped, i);
        StampAt(i, index, ip, attempts, last);
        Increment(index, items.Length);
        index := (index + 1) % items.Length;
        i := i + 1;
      }
      assert stamped[..|q|] + q[|q|..] == stamped;
    }

    method StampAt(ghost i: nat, index: nat, ip: Ip, attempts: nat, last: real)
      requires Valid() && i < size && index == Slot(i)
      modifies `contents, items
      ensures Valid() && contents == old(contents)[i := StampOne(old(contents)[i], ip, attempts, last)]
    {
      items[index] := StampOne(items[index], ip, attempts, last);
      contents := contents[i := items[index]];
    }
  }
}
