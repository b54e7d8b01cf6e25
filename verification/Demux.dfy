/** The TCP sockets of one host: allocation, lookup by four-tuple and child sockets
    (layer4/tcp_socket.c, the TCP branch of host_receive in layer2/host.c, magi_connect and
    magi_listen in layer7/magi_socket.c). */
module Demux {
  import opened Base
  import opened TcpWire
  import opened TcpSpec
  import opened SourcePorts

  const MAX_SOCKETS := 16

  datatype Key = Key(localIp: Ip, localPort: u16, remoteIp: Ip, remotePort: u16)

  function KeyOf(s: Tcb): Key {
    Key(s.localIp, s.localPort, s.remoteIp, s.remotePort)
  }

  /** A connection, from its SYN to its release. */
  predicate IsLive(s: Tcb) {
    s.inUse && !s.isListening && s.state != Closed
  }

  // ---------------------------------------------------------------- lookup and allocation

  function LiveIndex(t: seq<Tcb>, key: Key): (k: nat)
    ensures k <= |t| && (k < |t| ==> IsLive(t[k]) && KeyOf(t[k]) == key)
    ensures forall i :: 0 <= i < k ==> !(IsLive(t[i]) && KeyOf(t[i]) == key)
  {
    if |t| == 0 || (IsLive(t[0]) && KeyOf(t[0]) == key) then 0 else 1 + LiveIndex(t[1..], key)
  }

  predicate ListensOn(s: Tcb, ip: Ip, port: u16) {
    s.inUse && s.isListening && s.localIp == ip && s.localPort == port
  }

  function ListenerIndex(t: seq<Tcb>, ip: Ip, port: u16): (k: nat)
    ensures k <= |t| && (k < |t| ==> ListensOn(t[k], ip, port))
    ensures forall i :: 0 <= i < k ==> !ListensOn(t[i], ip, port)
  {
    if |t| == 0 || ListensOn(t[0], ip, port) then 0 else 1 + ListenerIndex(t[1..], ip, port)
  }

  /** tcp_socket_find: a connection first, then a listener; |t| for neither. */
  function Find(t: seq<Tcb>, key: Key): (k: nat)
    ensures k <= |t|
  {
    if LiveIndex(t, key) < |t| then LiveIndex(t, key) else ListenerIndex(t, key.localIp, key.localPort)
  }

  function FreeIndex(t: seq<Tcb>): (k: nat)
    ensures k <= |t| && (k < |t| ==> !t[k].inUse) && forall i :: 0 <= i < k ==> t[i].inUse
  {
    if |t| == 0 || !t[0].inUse then 0 else 1 + FreeIndex(t[1..])
  }

  predicate Recyclable(s: Tcb) {
    s.inUse && !s.isListening && s.state == TimeWait
  }

  function OldIndex(t: seq<Tcb>): (k: nat)
    ensures k <= |t| && (k < |t| ==> Recyclable(t[k])) && forall i :: 0 <= i < k ==> !Recyclable(t[i])
  {
    if |t| == 0 || Recyclable(t[0]) then 0 else 1 + OldIndex(t[1..])
  }

  /** tcp_socket_alloc: a free slot, else the first in TIME_WAIT; |t| for neither. */
  function Alloc(t: seq<Tcb>): (k: nat)
    ensures k <= |t| && (k < |t| ==> !t[k].inUse || Recyclable(t[k]))
  {
    if FreeIndex(t) < |t| then FreeIndex(t) else OldIndex(t)
  }

  const NEW := ZEROED.(inUse := true)

  // ---------------------------------------------------------------- steps

  /** next is the host's port cursor, 0 before the first selection. */
  datatype Host = Host(sockets: seq<Tcb>, next: u16)

  function Preferred(port: u16): u16 {
    if port as int + 2000 > 65535 then DYNAMIC else port as int + 2000
  }

  /** host_select_tcp_source_port: the port, 0 for none, and the host with its cursor behind it. */
  function SelectOnHost(h: Host, ip: Ip, port: u16): (int, Host) {
    var p := Select(h.sockets, ip, port, if h.next != 0 then h.next else Preferred(port));
    (p, if IsUserPort(p) then h.(next := After(p)) else h)
  }

  /** One selection: an unused port, and the next search starts behind it. */
  lemma CursorMovesOn(h: Host, ip: Ip, port: u16)
    requires |h.sockets| < PORTS
    ensures var (p, h1) := SelectOnHost(h, ip, port);
            && IsUserPort(p) && !Used(h.sockets, ip, port, p) && h1 == h.(next := After(p))
            && SelectOnHost(h1, ip, port).0 == Scan(h.sockets, ip, port, After(p), PORTS)
  {
    var preferred := if h.next != 0 then h.next else Preferred(port);
    SelectIsExact(h.sockets, ip, port, preferred);
    SmallTableNeverFails(h.sockets, ip, port, preferred);
    hide Scan, Used;
  }

  /** Selections that follow each other, the cursor being all that changes. */
  ghost predicate Selections(hs: seq<Host>, ip: Ip, port: u16) {
    forall k :: 0 < k < |hs| ==> hs[k] == SelectOnHost(hs[k - 1], ip, port).1
  }

  lemma {:induction false} SameSockets(hs: seq<Host>, ip: Ip, port: u16, k: nat)
    requires Selections(hs, ip, port) && k < |hs|
    ensures hs[k].sockets == hs[0].sockets
  {
    hide Select;
    if k > 0 {
      SameSockets(hs, ip, port, k - 1);
    }
  }

  /** On an unchanged table the host hands out no port a second time before every free one had its turn. */
  lemma NoPortRepeatsEarly(hs: seq<Host>, ip: Ip, port: u16, i: nat, j: nat, q: int)
    requires Selections(hs, ip, port) && i < j < |hs| && |hs[0].sockets| < PORTS
    requires SelectOnHost(hs[i], ip, port).0 == SelectOnHost(hs[j], ip, port).0
    requires IsUserPort(q) && !Used(hs[0].sockets, ip, port, q)
    ensures exists k :: i <= k < j && SelectOnHost(hs[k], ip, port).0 == q
  {
    hide SelectOnHost, Scan, Used;
    var t := hs[0].sockets;
    var ps := seq(|hs|, k requires 0 <= k < |hs| => SelectOnHost(hs[k], ip, port).0);
    forall k | 0 <= k < |hs|
      ensures IsUserPort(ps[k]) && !Used(t, ip, port, ps[k])
      ensures k > 0 ==> ps[k] == Scan(t, ip, port, After(ps[k - 1]), PORTS)
    {
      SameSockets(hs, ip, port, k);
      CursorMovesOn(hs[k], ip, port);
      if k > 0 {
        SameSockets(hs, ip, port, k - 1);
        CursorMovesOn(hs[k - 1], ip, port);
      }
    }
    RepeatsOnlyWhenExhausted(t, ip, port, ps, i, j, q);
    var k :| i <= k < j && ps[k] == q;
  }

  /** magi_connect up to its SYN. */
  function Connecting(h: Host, localIp: Ip, ip: Ip, port: u16): Host {
    var k := Alloc(h.sockets);
    if k == |h.sockets| then h else
    var h1 := h.(sockets := h.sockets[k := NEW]);
    var (src, h2) := SelectOnHost(h1, ip, port);
    if !IsUserPort(src) then h.(sockets := h.sockets[k := ZEROED])
    else h2.(sockets := h.sockets[k := TcpSpec.Connect(NEW, localIp, src, ip, port).0])
  }

  /** magi_listen. */
  function Listening(h: Host, ip: Ip, port: u16): Host {
    var k := Alloc(h.sockets);
    if k == |h.sockets| then h
    else h.(sockets := h.sockets[k := NEW.(state := Listen, localIp := ip, localPort := port, isListening := true)])
  }

  predicate IsOpening(m: Segment) {
    HasSyn(m.flags) && !HasAck(m.flags) && !HasFin(m.flags) && !HasRst(m.flags)
  }

  function Child(listener: Tcb, m: Segment, src: Ip): Tcb {
    NEW.(state := Listen, localIp := listener.localIp, localPort := m.dstPort, remoteIp := src, remotePort := m.srcPort)
  }

  /** The TCP branch of host_receive at a host with address own; dst may also be the broadcast address. */
  function Arriving(h: Host, m: Segment, src: Ip, dst: Ip, own: Ip): Host {
    if !Valid(m, src, dst) then h else
    var k := Find(h.sockets, Key(own, m.dstPort, src, m.srcPort));
    if k == |h.sockets| then h
    else if h.sockets[k].isListening && IsOpening(m) then
      var c := Alloc(h.sockets);
      if c == |h.sockets| then h
      else h.(sockets := h.sockets[c := Receive(Child(h.sockets[k], m, src), m, src, dst).tcb])
    else h.(sockets := h.sockets[k := Receive(h.sockets[k], m, src, dst).tcb])
  }

  /** What an application does with a socket it holds. */
  datatype Call = Push(data: seq<byte>) | Take(maxLen: nat) | Shut | Release

  function Called(s: Tcb, call: Call): Tcb {
    match call
    case Push(data) => (match SendData(s, data) case None => s case Some(r) => r.0)
    case Take(n) => RecvData(s, n).1
    case Shut => CloseSocket(s).0
    case Release => ZEROED
  }

  datatype Step =
    | Connect(localIp: Ip, ip: Ip, port: u16) | ListenOn(ip: Ip, port: u16)
    | Arrive(m: Segment, src: Ip, dst: Ip, own: Ip) | Use(k: nat, call: Call)

  function Next(h: Host, s: Step): Host {
    match s
    case Connect(localIp, ip, port) => Connecting(h, localIp, ip, port)
    case ListenOn(ip, port) => Listening(h, ip, port)
    case Arrive(m, src, dst, own) => Arriving(h, m, src, dst, own)
    case Use(k, call) =>
      if k < |h.sockets| && h.sockets[k].inUse then h.(sockets := h.sockets[k := Called(h.sockets[k], call)]) else h
  }

  // ---------------------------------------------------------------- the invariant

  /** A socket in use is past its allocation, and in LISTEN exactly if it is a listener: no child stays there. */
  predicate SocketOk(s: Tcb) {
    (s.inUse ==> s.state != Closed && (s.state == Listen <==> s.isListening)) && (!s.inUse ==> !s.isListening)
  }

  ghost predicate Distinct(t: seq<Tcb>) {
    forall i, j :: 0 <= i < j < |t| && IsLive(t[i]) && IsLive(t[j]) ==> KeyOf(t[i]) != KeyOf(t[j])
  }

  ghost predicate Ok(t: seq<Tcb>) {
    Distinct(t) && forall i :: 0 <= i < |t| ==> SocketOk(t[i])
  }

  /** s may stand at position k: no other connection has its four-tuple. */
  ghost predicate NoClash(t: seq<Tcb>, k: nat, s: Tcb) {
    IsLive(s) ==> forall i :: 0 <= i < |t| && i != k && IsLive(t[i]) ==> KeyOf(t[i]) != KeyOf(s)
  }

  lemma StoreKeeps(t: seq<Tcb>, k: nat, s: Tcb)
    requires Ok(t) && k < |t| && SocketOk(s) && NoClash(t, k, s)
    ensures Ok(t[k := s])
  {
    hide IsLive, KeyOf, SocketOk;
  }

  /** Segments and calls leave the identity of a socket in use alone, or release it. */
  ghost predicate SameSocket(s: Tcb, r: Tcb) {
    r == ZEROED || (KeyOf(r) == KeyOf(s) && r.inUse == s.inUse && r.isListening == s.isListening)
  }

  /** What the clauses of SEGMENT ARRIVES do to a socket that is past LISTEN. */
  ghost predicate Stays(s: Tcb, r: Tcb) {
    SameSocket(s, r) && (SocketOk(s) ==> SocketOk(r))
  }

  lemma FinKeepsIdentity(s: Tcb, t: Tcb, m: Segment, next: TcpState)
    requires t.inUse == s.inUse && t.isListening == s.isListening && KeyOf(t) == KeyOf(s) && t.state == s.state
    requires s.state !in {Closed, Listen} && next !in {Closed, Listen}
    ensures Stays(s, ConsumeFin(t, m, next).tcb)
  {
    hide PrepareAck;
  }

  lemma OpenKeepsIdentity(s: Tcb, m: Segment)
    ensures s.state == SynSent ==> Stays(s, OnSynSent(s, m).tcb)
    ensures s.state == SynReceived ==> Stays(s, OnSynReceived(s, m).tcb)
    ensures s.state == Closing ==> Stays(s, OnClosing(s, m).tcb)
    ensures s.state == LastAck ==> Stays(s, OnLastAck(s, m).tcb)
  {
    hide PrepareAck, Offer, Empty;
  }

  lemma DataKeepsIdentity(s: Tcb, m: Segment)
    ensures s.state == Established ==> Stays(s, OnEstablished(s, m).tcb)
    ensures s.state == FinWait1 ==> Stays(s, OnFinWait1(s, m).tcb)
    ensures s.state == FinWait2 ==> Stays(s, OnFinWait2(s, m).tcb)
  {
    hide PrepareAck, Offer, Empty, ConsumeFin;
    var t := BufferPayload(s, m.seqNum, m.payload);
    var t1 := if HasAck(m.flags) then AcknowledgeData(s, m.ackNum) else s;
    if s.state == Established {
      FinKeepsIdentity(s, BufferPayload(t1, m.seqNum, m.payload), m, CloseWait);
    } else if s.state == FinWait1 {
      FinKeepsIdentity(s, t, m, if AcksAll(s, m) then TimeWait else Closing);
    } else if s.state == FinWait2 {
      FinKeepsIdentity(s, t, m, TimeWait);
    }
  }

  lemma ReceiveKeepsIdentity(s: Tcb, m: Segment, src: Ip, dst: Ip)
    requires SocketOk(s) && s.inUse && !(s.isListening && IsOpening(m))
    ensures SameSocket(s, Receive(s, m, src, dst).tcb) && SocketOk(Receive(s, m, src, dst).tcb)
    ensures s.isListening ==> Receive(s, m, src, dst).tcb == s
  {
    hide Valid, OnSynSent, OnSynReceived, OnEstablished, OnFinWait1, OnFinWait2, OnClosing, OnLastAck, Seal, Empty;
    OpenKeepsIdentity(s, m);
    DataKeepsIdentity(s, m);
  }

  /** An opening segment moves a child out of LISTEN. */
  lemma ChildOpens(s: Tcb, m: Segment, src: Ip, dst: Ip)
    requires s.state == Listen && IsOpening(m) && Valid(m, src, dst)
    ensures var r := Receive(s, m, src, dst).tcb;
            r == s.(rx := r.rx, sendSeq := r.sendSeq, state := SynReceived) && r.sendSeq == 2000 + m.srcPort as int
  {
    hide Valid, Seal;
  }

  lemma CallKeepsIdentity(s: Tcb, call: Call)
    ensures SameSocket(s, Called(s, call)) && (SocketOk(s) ==> SocketOk(Called(s, call)))
  {
    hide Seal, Empty;
  }

  lemma SameKeeps(t: seq<Tcb>, k: nat, r: Tcb)
    requires Ok(t) && k < |t| && t[k].inUse && SameSocket(t[k], r) && SocketOk(r)
    ensures Ok(t[k := r])
  {
    forall i | 0 <= i < |t| && i != k && IsLive(t[i]) && IsLive(r)
      ensures KeyOf(t[i]) != KeyOf(r)
    {
      assert IsLive(t[k]);
    }
    hide IsLive, KeyOf, SocketOk;
    StoreKeeps(t, k, r);
  }

  lemma ConnectKeeps(h: Host, localIp: Ip, ip: Ip, port: u16)
    requires Ok(h.sockets)
    ensures Ok(Connecting(h, localIp, ip, port).sockets) && |Connecting(h, localIp, ip, port).sockets| == |h.sockets|
  {
    var t := h.sockets;
    var k := Alloc(t);
    if k < |t| {
      var t1 := t[k := NEW];
      var src := SelectOnHost(h.(sockets := t1), ip, port).0;
      if IsUserPort(src) {
        var s := TcpSpec.Connect(NEW, localIp, src, ip, port).0;
        SelectIsExact(t1, ip, port, if h.next != 0 then h.next else Preferred(port));
        hide Select, Scan, Seal, Empty;
        forall i | 0 <= i < |t| && i != k && IsLive(t[i])
          ensures KeyOf(t[i]) != KeyOf(s)
        {
          assert t1[i] == t[i] && !Blocks(t1[i], ip, port, src);
        }
        StoreKeeps(t, k, s);
      } else {
        StoreKeeps(t, k, ZEROED);
      }
    }
  }

  lemma ListenKeeps(h: Host, ip: Ip, port: u16)
    requires Ok(h.sockets)
    ensures Ok(Listening(h, ip, port).sockets) && |Listening(h, ip, port).sockets| == |h.sockets|
  {
    hide Empty, Distinct;
    var k := Alloc(h.sockets);
    if k < |h.sockets| {
      StoreKeeps(h.sockets, k, NEW.(state := Listen, localIp := ip, localPort := port, isListening := true));
    }
  }

  lemma ArriveKeeps(h: Host, m: Segment, src: Ip, dst: Ip, own: Ip)
    requires Ok(h.sockets)
    ensures Ok(Arriving(h, m, src, dst, own).sockets) && |Arriving(h, m, src, dst, own).sockets| == |h.sockets|
  {
    hide Valid, Receive, Empty, Distinct;
    var t := h.sockets;
    var key := Key(own, m.dstPort, src, m.srcPort);
    var k := Find(t, key);
    if Valid(m, src, dst) && k < |t| {
      if t[k].isListening && IsOpening(m) {
        var c := Alloc(t);
        if c < |t| {
          var child := Child(t[k], m, src);
          ChildOpens(child, m, src, dst);
          assert LiveIndex(t, key) == |t| && KeyOf(child) == key;
          StoreKeeps(t, c, Receive(child, m, src, dst).tcb);
        }
      } else {
        ReceiveKeepsIdentity(t[k], m, src, dst);
        SameKeeps(t, k, Receive(t[k], m, src, dst).tcb);
      }
    }
  }

  lemma NextKeeps(h: Host, s: Step)
    requires Ok(h.sockets)
    ensures Ok(Next(h, s).sockets) && |Next(h, s).sockets| == |h.sockets|
  {
    hide Connecting, Listening, Arriving, Called;
    match s {
      case Connect(localIp, ip, port) => ConnectKeeps(h, localIp, ip, port);
      case ListenOn(ip, port) => ListenKeeps(h, ip, port);
      case Arrive(m, src, dst, own) => ArriveKeeps(h, m, src, dst, own);
      case Use(k, call) =>
        if k < |h.sockets| && h.sockets[k].inUse {
          CallKeepsIdentity(h.sockets[k], call);
          SameKeeps(h.sockets, k, Called(h.sockets[k], call));
        }
    }
  }

  /** A connection is found by its four-tuple, before any listener and before any other connection. */
  lemma FindsItself(t: seq<Tcb>, k: nat)
    requires Ok(t) && k < |t| && IsLive(t[k])
    ensures Find(t, KeyOf(t[k])) == k
  {
    hide IsLive, KeyOf, SocketOk;
    var i := LiveIndex(t, KeyOf(t[k]));
    assert i <= k;
  }

  /** A listener is left exactly as it was by any segment. */
  lemma ListenersStay(h: Host, m: Segment, src: Ip, dst: Ip, own: Ip, i: nat)
    requires Ok(h.sockets) && i < |h.sockets| && h.sockets[i].isListening
    ensures Arriving(h, m, src, dst, own).sockets[i] == h.sockets[i]
  {
    hide Valid, Receive, Empty, Distinct;
    var t := h.sockets;
    var k := Find(t, Key(own, m.dstPort, src, m.srcPort));
    assert SocketOk(t[i]);
    if k == i && !IsOpening(m) {
      ReceiveKeepsIdentity(t[i], m, src, dst);
    }
  }

  /** A SYN for a listening port, when there is a slot for it, gives a new connection in SYN_RECEIVED
      that every later segment of the same four-tuple will find. */
  lemma SynOpensConnection(h: Host, m: Segment, src: Ip, dst: Ip, own: Ip)
    requires Ok(h.sockets) && Valid(m, src, dst) && IsOpening(m)
    requires var t := h.sockets; var k := Find(t, Key(own, m.dstPort, src, m.srcPort));
             k < |t| && t[k].isListening && Alloc(t) < |t|
    ensures var t := Arriving(h, m, src, dst, own).sockets; var c := Find(t, Key(own, m.dstPort, src, m.srcPort));
            c < |t| && IsLive(t[c]) && t[c].state == SynReceived
  {
    var t := h.sockets;
    var key := Key(own, m.dstPort, src, m.srcPort);
    var k := Find(t, key);
    var c := Alloc(t);
    var child := Child(t[k], m, src);
    ChildOpens(child, m, src, dst);
    ArriveKeeps(h, m, src, dst, own);
    assert KeyOf(child) == key;
    hide Valid, Receive, Empty, Distinct, LiveIndex, ListenerIndex;
    FindsItself(Arriving(h, m, src, dst, own).sockets, c);
  }

  // ---------------------------------------------------------------- whole runs

  ghost predicate IsRun(hs: seq<Host>, steps: seq<Step>) {
    && |hs| == |steps| + 1 && |hs[0].sockets| == MAX_SOCKETS
    && (forall i :: 0 <= i < |hs[0].sockets| ==> hs[0].sockets[i] == ZEROED)
    && forall i :: 0 <= i < |steps| ==> hs[i + 1] == Next(hs[i], steps[i])
  }

  lemma {:induction false} RunOk(hs: seq<Host>, steps: seq<Step>, i: nat)
    requires IsRun(hs, steps) && i < |hs|
    ensures Ok(hs[i].sockets) && |hs[i].sockets| == MAX_SOCKETS
  {
    if i == 0 {
      hide Next, Empty;
    } else {
      hide Next, Ok;
      RunOk(hs, steps, i - 1);
      NextKeeps(hs[i - 1], steps[i - 1]);
      assert hs[(i - 1) + 1] == Next(hs[i - 1], steps[i - 1]);
    }
  }

  /** In every reachable state: connections have pairwise distinct four-tuples and each is the one its
      four-tuple finds; sockets in LISTEN are exactly the listeners; and no segment changes a listener. */
  lemma EveryRunDemultiplexes(hs: seq<Host>, steps: seq<Step>, i: nat)
    requires IsRun(hs, steps) && i < |hs|
    ensures var t := hs[i].sockets;
            && (forall j, k :: 0 <= j < k < |t| && IsLive(t[j]) && IsLive(t[k]) ==> KeyOf(t[j]) != KeyOf(t[k]))
            && (forall k :: 0 <= k < |t| && IsLive(t[k]) ==> Find(t, KeyOf(t[k])) == k)
            && (forall k :: 0 <= k < |t| && t[k].inUse ==> (t[k].state == Listen <==> t[k].isListening))
    ensures i < |steps| && steps[i].Arrive? ==>
              && |hs[i].sockets| == |hs[i + 1].sockets| == MAX_SOCKETS
              && forall k :: 0 <= k < MAX_SOCKETS && hs[i].sockets[k].isListening ==>
                   hs[i + 1].sockets[k] == hs[i].sockets[k]
  {
    RunOk(hs, steps, i);
    var t := hs[i].sockets;
    hide Find, Arriving;
    forall k | 0 <= k < |t| && IsLive(t[k])
      ensures Find(t, KeyOf(t[k])) == k
    {
      FindsItself(t, k);
    }
    if i < |steps| && steps[i].Arrive? {
      var s := steps[i];
      RunOk(hs, steps, i + 1);
      forall k | 0 <= k < MAX_SOCKETS && hs[i].sockets[k].isListening
        ensures hs[i + 1].sockets[k] == hs[i].sockets[k]
      {
        ListenersStay(hs[i], s.m, s.src, s.dst, s.own, k);
      }
    }
  }

  // ---------------------------------------------------------------- the table itself

  class SocketTable {
    const sockets: array<Tcb>
    var next: u16

    ghost function Value(): Host
      reads this, sockets
    {
      Host(sockets[..], next)
    }

    constructor ()
      ensures fresh(sockets) && sockets.Length == MAX_SOCKETS && next == 0
      ensures forall i :: 0 <= i < MAX_SOCKETS ==> sockets[i] == ZEROED
    {
      sockets := new Tcb[MAX_SOCKETS](_ => ZEROED);
      next := 0;
    }

    /** tcp_socket_find. */
    method FindSocket(key: Key) returns (k: nat)
      ensures k == Find(sockets[..], key)
    {
      k := 0;
      while k < sockets.Length && !(IsLive(sockets[k]) && KeyOf(sockets[k]) == key)
        invariant k <= sockets.Length
        invariant forall i :: 0 <= i < k ==> !(IsLive(sockets[i]) && KeyOf(sockets[i]) == key)
      {
        k := k + 1;
      }
      assert k == LiveIndex(sockets[..], key);
      if k < sockets.Length {
        return;
      }
      k := 0;
      while k < sockets.Length && !ListensOn(sockets[k], key.localIp, key.localPort)
        invariant k <= sockets.Length
        invariant forall i :: 0 <= i < k ==> !ListensOn(sockets[i], key.localIp, key.localPort)
      {
        k := k + 1;
      }
      assert k == ListenerIndex(sockets[..], key.localIp, key.localPort);
    }

    /** The search of tcp_socket_alloc. */
    method AllocSlot() returns (k: nat)
      ensures k == Alloc(sockets[..])
    {
      k := 0;
      while k < sockets.Length && sockets[k].inUse
        invariant k <= sockets.Length && forall i :: 0 <= i < k ==> sockets[i].inUse
      {
        k := k + 1;
      }
      assert k == FreeIndex(sockets[..]);
      if k < sockets.Length {
        return;
      }
      k := 0;
      while k < sockets.Length && !Recyclable(sockets[k])
        invariant k <= sockets.Length && forall i :: 0 <= i < k ==> !Recyclable(sockets[i])
      {
        k := k + 1;
      }
      assert k == OldIndex(sockets[..]);
    }

    /** magi_connect up to its SYN. */
    method StartConnect(localIp: Ip, ip: Ip, port: u16) returns (ok: bool)
      modifies `next, sockets
      ensures Value() == Connecting(old(Value()), localIp, ip, port)
    {
      hide Alloc, Select, Empty, Seal;
      ghost var before := Value();
      var k := AllocSlot();
      if k == sockets.Length {
        return false;
      }
      sockets[k] := NEW;
      assert sockets[..] == before.sockets[k := NEW];
      var src := SelectPort(sockets, ip, port, if next != 0 then next else Preferred(port));
      assert IsUserPort(src) || src == 0 by {
        SelectIsExact(sockets[..], ip, port, if next != 0 then next else Preferred(port));
      }
      if src == 0 {
        sockets[k] := ZEROED;
        assert sockets[..] == before.sockets[k := ZEROED];
        return false;
      }
      next := if src == HIGHEST then LOWEST else src + 1;
      sockets[k] := TcpSpec.Connect(sockets[k], localIp, src, ip, port).0;
      assert sockets[..] == before.sockets[k := sockets[k]];
      ok := true;
    }

    /** magi_listen. */
    method StartListen(ip: Ip, port: u16) returns (ok: bool)
      modifies sockets
      ensures Value() == Listening(old(Value()), ip, port)
    {
      hide Alloc, Empty;
      var k := AllocSlot();
      ok := k < sockets.Length;
      if ok {
        sockets[k] := NEW.(state := Listen, localIp := ip, localPort := port, isListening := true);
      }
    }

    /** The TCP branch of host_receive. */
    method ReceiveSegment(m: Segment, src: Ip, dst: Ip, own: Ip) returns (response: Option<Segment>)
      modifies sockets
      ensures Value() == Arriving(old(Value()), m, src, dst, own)
    {
      hide Alloc, Find, Empty, Receive, Valid;
      response := None;
      var valid := ValidateChecksum(m, src, dst);
      if !valid {
        return;
      }
      var k := FindSocket(Key(own, m.dstPort, src, m.srcPort));
      if k == sockets.Length {
        return;
      }
      var socket := sockets[k];
      if socket.isListening && IsOpening(m) {
        k := AllocSlot();
        if k == sockets.Length {
          return;
        }
        socket := Child(socket, m, src);
      }
      var o := Receive(socket, m, src, dst);
      sockets[k] := o.tcb;
      response := o.response;
    }
  }
}
