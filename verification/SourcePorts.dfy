/** The search for a free source port (layer4/tcp_socket.c) and the host's cursor (layer2/host.c). */
module SourcePorts {
  import opened Base
  import opened TcpSpec

  const LOWEST := 1024
  const HIGHEST := 65535
  const PORTS := 64512
  const DYNAMIC := 49152

  predicate IsUserPort(p: int) {
    LOWEST <= p <= HIGHEST
  }

  /** A socket that keeps a port from being used towards a remote endpoint. */
  predicate Blocks(s: Tcb, ip: Ip, port: u16, candidate: int) {
    s.inUse && s.state != Closed && s.localPort == candidate && s.remotePort == port && s.remoteIp == ip
  }

  predicate Used(t: seq<Tcb>, ip: Ip, port: u16, candidate: int) {
    exists i :: 0 <= i < |t| && Blocks(t[i], ip, port, candidate)
  }

  function After(p: int): int {
    if p == HIGHEST then LOWEST else p + 1
  }

  /** The scan: at most `left` candidates, wrapping from 65535 to 1024; 0 if all are used. */
  function Scan(t: seq<Tcb>, ip: Ip, port: u16, candidate: int, left: nat): int
    decreases left
  {
    if left == 0 then 0
    else if !Used(t, ip, port, candidate) then candidate
    else Scan(t, ip, port, After(candidate), left - 1)
  }

  /** tcp_socket_select_source_port. */
  function Select(t: seq<Tcb>, ip: Ip, port: u16, preferred: u16): int {
    Scan(t, ip, port, if preferred >= LOWEST then preferred else DYNAMIC, PORTS)
  }

  // ---------------------------------------------------------------- what the scan finds

  /** How many steps of the wrapping scan lead from a to b. */
  function Distance(a: int, b: int): int {
    if b >= a then b - a else b - a + PORTS
  }

  /** The candidate after k steps. */
  function Nth(start: int, k: nat): int {
    if start + k <= HIGHEST then start + k else start + k - PORTS
  }

  /** The scan visits every user port exactly once. */
  lemma VisitsEachOnce(start: int, p: int)
    requires IsUserPort(start) && IsUserPort(p)
    ensures 0 <= Distance(start, p) < PORTS && Nth(start, Distance(start, p)) == p
    ensures forall k: nat :: k < PORTS && Nth(start, k) == p ==> k == Distance(start, p)
    ensures forall k: nat :: k < PORTS ==>
              IsUserPort(Nth(start, k)) && (k + 1 < PORTS ==> Nth(start, k + 1) == After(Nth(start, k)))
  {
  }

  /** The port found is unused, and nearer to the start of the scan than any other unused one; none is
      found only if every port within reach is used. */
  lemma {:induction false} ScanFindsNearest(t: seq<Tcb>, ip: Ip, port: u16, candidate: int, left: nat)
    requires IsUserPort(candidate) && left <= PORTS
    ensures var r := Scan(t, ip, port, candidate, left);
            && (r == 0 || (IsUserPort(r) && !Used(t, ip, port, r) && Distance(candidate, r) < left))
            && forall q :: IsUserPort(q) && !Used(t, ip, port, q) && Distance(candidate, q) < left ==>
                 r != 0 && Distance(candidate, r) <= Distance(candidate, q)
    decreases left
  {
    hide Used;
    if left > 0 && Used(t, ip, port, candidate) {
      ScanFindsNearest(t, ip, port, After(candidate), left - 1);
      var r := Scan(t, ip, port, candidate, left);
      forall q | IsUserPort(q) && !Used(t, ip, port, q) && Distance(candidate, q) < left
        ensures r != 0 && Distance(candidate, r) <= Distance(candidate, q)
      {
        assert Distance(After(candidate), q) == Distance(candidate, q) - 1;
      }
    }
  }

  /** A port is returned, and it is a free one, exactly when some user port is free. */
  lemma SelectIsExact(t: seq<Tcb>, ip: Ip, port: u16, preferred: u16)
    ensures var r := Select(t, ip, port, preferred);
            && (r == 0 || (IsUserPort(r) && !Used(t, ip, port, r)))
            && (r == 0 <==> forall q :: IsUserPort(q) ==> Used(t, ip, port, q))
  {
    hide Used, Scan;
    var start := if preferred >= LOWEST then preferred else DYNAMIC;
    ScanFindsNearest(t, ip, port, start, PORTS);
    forall q | IsUserPort(q)
      ensures Distance(start, q) < PORTS
    {
    }
  }

  // ---------------------------------------------------------------- pigeonhole

  function Taken(t: seq<Tcb>): (s: set<int>)
    ensures |s| <= |t|
    ensures forall i :: 0 <= i < |t| ==> t[i].localPort as int in s
  {
    if |t| == 0 then {} else
      assert t == [t[0]] + t[1..];
      {t[0].localPort as int} + Taken(t[1..])
  }

  function Between(low: int, high: int): (s: set<int>)
    requires low <= high
    ensures |s| == high - low && forall p :: p in s <==> low <= p < high
    decreases high - low
  {
    if low == high then {} else {high - 1} + Between(low, high - 1)
  }

  lemma SubsetSize(a: set<int>, b: set<int>)
    requires a <= b
    ensures |a| <= |b|
  {
    assert b == a + (b - a);
  }

  /** A table of fewer sockets than there are user ports always leaves one free. */
  lemma SmallTableNeverFails(t: seq<Tcb>, ip: Ip, port: u16, preferred: u16)
    requires |t| < PORTS
    ensures Select(t, ip, port, preferred) != 0
  {
    SelectIsExact(t, ip, port, preferred);
    hide Scan, Select, Taken, Between;
    if forall q :: IsUserPort(q) ==> Used(t, ip, port, q) {
      var low, high: int := LOWEST, HIGHEST + 1;
      forall p | p in Between(low, high)
        ensures p in Taken(t)
      {
        assert Used(t, ip, port, p);
      }
      SubsetSize(Between(low, high), Taken(t));
      assert false;
    }
  }

  // ---------------------------------------------------------------- the cursor

  /** Selections of a host whose cursor moves behind every port it hands out, on an unchanged table. */
  ghost predicate Successive(t: seq<Tcb>, ip: Ip, port: u16, ps: seq<int>) {
    && (forall i :: 0 <= i < |ps| ==> IsUserPort(ps[i]) && !Used(t, ip, port, ps[i]))
    && (forall i :: 0 < i < |ps| ==> ps[i] == Scan(t, ip, port, After(ps[i - 1]), PORTS))
  }

  /** No free port is skipped. */
  lemma Nearer(t: seq<Tcb>, ip: Ip, port: u16, p: int, q: int)
    requires IsUserPort(p) && IsUserPort(q) && p != q && !Used(t, ip, port, q)
    ensures var r := Scan(t, ip, port, After(p), PORTS); Distance(r, q) < Distance(p, q)
  {
    hide Used, Scan;
    ScanFindsNearest(t, ip, port, After(p), PORTS);
    assert Distance(After(p), q) == Distance(p, q) - 1;
  }

  lemma {:induction false} NearerAndNearer(t: seq<Tcb>, ip: Ip, port: u16, ps: seq<int>, i: nat, j: nat, q: int)
    requires Successive(t, ip, port, ps) && i < j < |ps| && IsUserPort(q) && !Used(t, ip, port, q)
    requires forall k :: i <= k < j ==> ps[k] != q
    ensures Distance(ps[j], q) < Distance(ps[i], q)
    decreases j
  {
    hide Used, Scan, Distance;
    assert ps[j] == Scan(t, ip, port, After(ps[j - 1]), PORTS);
    Nearer(t, ip, port, ps[j - 1], q);
    if i < j - 1 {
      NearerAndNearer(t, ip, port, ps, i, j - 1, q);
    }
  }

  /** No port is handed out a second time before all free ones have had their turn. */
  lemma RepeatsOnlyWhenExhausted(t: seq<Tcb>, ip: Ip, port: u16, ps: seq<int>, i: nat, j: nat, q: int)
    requires Successive(t, ip, port, ps) && i < j < |ps| && ps[i] == ps[j]
    requires IsUserPort(q) && !Used(t, ip, port, q)
    ensures exists k :: i <= k < j && ps[k] == q
  {
    hide Used, Scan, Distance;
    if forall k :: i <= k < j ==> ps[k] != q {
      NearerAndNearer(t, ip, port, ps, i, j, q);
      assert false;
    }
  }

  // ---------------------------------------------------------------- the loops

  method IsUsed(sockets: array<Tcb>, ip: Ip, port: u16, candidate: int) returns (used: bool)
    ensures used == Used(sockets[..], ip, port, candidate)
  {
    used := false;
    for i := 0 to sockets.Length
      invariant forall k :: 0 <= k < i ==> !Blocks(sockets[k], ip, port, candidate)
    {
      if Blocks(sockets[i], ip, port, candidate) {
        assert Blocks(sockets[..][i], ip, port, candidate);
        return true;
      }
    }
  }

  /** tcp_socket_select_source_port. */
  method SelectPort(sockets: array<Tcb>, ip: Ip, port: u16, preferred: u16) returns (r: int)
    ensures r == Select(sockets[..], ip, port, preferred)
  {
    hide Used, Scan;
    var candidate: int := if preferred >= LOWEST then preferred else DYNAMIC;
    ghost var t := sockets[..];
    ghost var goal := Scan(t, ip, port, candidate, PORTS);
    var attempt := 0;
    while attempt < PORTS
      invariant attempt <= PORTS && goal == Scan(t, ip, port, candidate, PORTS - attempt)
    {
      ScanStep(t, ip, port, candidate, PORTS - attempt);
      var used := IsUsed(sockets, ip, port, candidate);
      if !used {
        return candidate;
      }
      candidate := if candidate == HIGHEST then LOWEST else candidate + 1;
      attempt := attempt + 1;
    }
    ScanStep(t, ip, port, candidate, 0);
    r := 0;
  }

  lemma ScanStep(t: seq<Tcb>, ip: Ip, port: u16, candidate: int, left: nat)
    ensures Scan(t, ip, port, candidate, left) ==
            if left == 0 then 0
            else if !Used(t, ip, port, candidate) then candidate
            else Scan(t, ip, port, After(candidate), left - 1)
  {
  }
}
