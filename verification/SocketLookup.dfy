/** Which socket a segment reaches, and what connecting, listening and arriving do to the table, slot by slot
    (layer4/tcp_socket.c, layer2/host.c, layer7/magi_socket.c). */
module SocketLookup {
  import opened Base
  import opened TcpWire
  import opened TcpSpec
  import opened SourcePorts
  import opened Demux

  // ---------------------------------------------------------------- lookup

  /** A connection between these two endpoints, in any state from its SYN to TIME_WAIT. */
  predicate Connects(s: Tcb, localIp: Ip, localPort: u16, remoteIp: Ip, remotePort: u16) {
    && s.inUse && !s.isListening && s.state != Closed
    && s.localIp == localIp && s.localPort == localPort && s.remoteIp == remoteIp && s.remotePort == remotePort
  }

  predicate Listens(s: Tcb, ip: Ip, port: u16) {
    s.inUse && s.isListening && s.localIp == ip && s.localPort == port
  }

  /** The first connection between the endpoints is found; if there is none, the first listener on the local
      one; and nothing exactly if there is neither. */
  lemma FindExactly(t: seq<Tcb>, localIp: Ip, localPort: u16, remoteIp: Ip, remotePort: u16, k: nat)
    requires k < |t|
    ensures Find(t, Key(localIp, localPort, remoteIp, remotePort)) == k <==>
              || (&& Connects(t[k], localIp, localPort, remoteIp, remotePort)
                  && forall i :: 0 <= i < k ==> !Connects(t[i], localIp, localPort, remoteIp, remotePort))
              || (&& (forall s :: s in t ==> !Connects(s, localIp, localPort, remoteIp, remotePort))
                  && Listens(t[k], localIp, localPort) && forall i :: 0 <= i < k ==> !Listens(t[i], localIp, localPort))
  {
    var key := Key(localIp, localPort, remoteIp, remotePort);
    forall i | 0 <= i < |t|
      ensures Connects(t[i], localIp, localPort, remoteIp, remotePort) <==> IsLive(t[i]) && KeyOf(t[i]) == key
      ensures t[i] in t
    {
    }
    hide LiveIndex, ListenerIndex, Connects, IsLive, KeyOf;
    var live := LiveIndex(t, key);
    if live < |t| {
      assert Connects(t[live], localIp, localPort, remoteIp, remotePort);
    } else {
      assert forall s :: s in t ==> !Connects(s, localIp, localPort, remoteIp, remotePort);
    }
  }

  lemma FindNothing(t: seq<Tcb>, localIp: Ip, localPort: u16, remoteIp: Ip, remotePort: u16)
    ensures Find(t, Key(localIp, localPort, remoteIp, remotePort)) == |t| <==>
              forall s :: s in t ==>
                !Connects(s, localIp, localPort, remoteIp, remotePort) && !Listens(s, localIp, localPort)
  {
    var key := Key(localIp, localPort, remoteIp, remotePort);
    var k := Find(t, key);
    if k < |t| {
      FindExactly(t, localIp, localPort, remoteIp, remotePort, k);
      assert t[k] in t;
    }
    hide LiveIndex, ListenerIndex;
  }

  /** The slot for a new socket: the first unused one, else the first connection in TIME_WAIT. */
  lemma AllocExactly(t: seq<Tcb>, k: nat)
    requires k < |t|
    ensures Alloc(t) == k <==>
              || (!t[k].inUse && forall i :: 0 <= i < k ==> t[i].inUse)
              || (&& (forall s :: s in t ==> s.inUse) && t[k].state == TimeWait && !t[k].isListening
                  && forall i :: 0 <= i < k ==> t[i].state != TimeWait || t[i].isListening)
  {
    hide FreeIndex, OldIndex;
    assert forall i :: 0 <= i < |t| ==> t[i] in t;
  }

  // ---------------------------------------------------------------- arriving

  /** What becomes of a valid segment at a host. One for a connection goes to it and changes nothing else. A SYN
      for a listener leaves a new socket in SYN_RECEIVED, expecting the byte behind the SYN, in the next slot,
      if there is one, and changes nothing else. Anything else for a listener goes to it, and anything for
      nobody, like an invalid segment, changes nothing. */
  lemma ArrivesExactly(h: Host, m: Segment, src: Ip, dst: Ip, own: Ip)
    ensures var r := Arriving(h, m, src, dst, own);
            var k := Find(h.sockets, Key(own, m.dstPort, src, m.srcPort));
            && r.next == h.next
            && (!Valid(m, src, dst) || k == |h.sockets| ==> r == h)
            && (Valid(m, src, dst) && k < |h.sockets| ==>
                  var c := Alloc(h.sockets);
                  if h.sockets[k].isListening && IsOpening(m) then
                    if c == |h.sockets| then r == h
                    else
                      && |r.sockets| == |h.sockets| && r.sockets == h.sockets[c := r.sockets[c]]
                      && Connects(r.sockets[c], own, m.dstPort, src, m.srcPort) && r.sockets[c].state == SynReceived
                      && r.sockets[c].rx == Reassembly((m.seqNum + 1) % 0x1_0000_0000, [], Empty(4096))
                      && r.sockets[c].sendSeq == 2000 + m.srcPort as int && r.sockets[c].sendBuf == []
                  else r.sockets == h.sockets[k := Receive(h.sockets[k], m, src, dst).tcb])
  {
    var key := Key(own, m.dstPort, src, m.srcPort);
    var k := Find(h.sockets, key);
    hide Valid, Empty, Find;
    if Valid(m, src, dst) && k < |h.sockets| {
      var c := Alloc(h.sockets);
      if h.sockets[k].isListening && IsOpening(m) && c < |h.sockets| {
        assert h.sockets[k].localIp == own by { ListenerIsOwn(h.sockets, key, k); }
        ChildExpects(Child(h.sockets[k], m, src), m, src, dst);
      }
    }
    hide Receive, IsOpening, Alloc;
  }

  lemma ListenerIsOwn(t: seq<Tcb>, key: Key, k: nat)
    requires k < |t| && k == Find(t, key) && t[k].isListening
    ensures t[k].localIp == key.localIp
  {
    hide LiveIndex, ListenerIndex;
  }

  lemma ChildExpects(s: Tcb, m: Segment, src: Ip, dst: Ip)
    requires s.state == Listen && IsOpening(m) && Valid(m, src, dst)
    ensures var r := Receive(s, m, src, dst).tcb;
            r == s.(rx := s.rx.(recvSeq := (m.seqNum + 1) % 0x1_0000_0000), sendSeq := 2000 + m.srcPort as int,
                    state := SynReceived)
  {
    hide Valid, Seal;
  }

  // ---------------------------------------------------------------- connecting and listening

  /** Where the search for a port starts: at the cursor, or, the first time, 2000 above the remote port, if that
      is a port at all; below the user ports, at 49152. */
  function SearchStart(h: Host, port: u16): int {
    var wanted := if h.next != 0 then h.next as int else if port + 2000 <= 65535 then port + 2000 else 49152;
    if wanted < 1024 then 49152 else wanted
  }

  /** A new connection takes the next slot, if there is one, goes to SYN_SENT between these endpoints, and sends
      from the first port at or behind the start of the search that no connection to the same remote endpoint
      uses; the cursor moves behind it, and nothing else changes. */
  lemma ConnectsExactly(h: Host, localIp: Ip, ip: Ip, port: u16)
    requires |h.sockets| < PORTS
    ensures var r, k := Connecting(h, localIp, ip, port), Alloc(h.sockets);
            && (k == |h.sockets| ==> r == h)
            && (k < |h.sockets| ==>
                  && |r.sockets| == |h.sockets| && r.sockets == h.sockets[k := r.sockets[k]]
                  && var s := r.sockets[k];
                     && Connects(s, localIp, s.localPort, ip, port) && s.state == SynSent && s.sendSeq == 1000
                     && 1024 <= s.localPort && r.next == (if s.localPort == 65535 then 1024 else s.localPort + 1)
                     && !Used(h.sockets[k := NEW], ip, port, s.localPort as int)
                     && forall q :: 1024 <= q <= 65535 && !Used(h.sockets[k := NEW], ip, port, q) ==>
                          Distance(SearchStart(h, port), s.localPort as int) <= Distance(SearchStart(h, port), q))
  {
    var k := Alloc(h.sockets);
    if k < |h.sockets| {
      var t := h.sockets[k := NEW];
      var preferred := if h.next != 0 then h.next else Preferred(port);
      SmallTableNeverFails(t, ip, port, preferred);
      SelectIsExact(t, ip, port, preferred);
      ScanFindsNearest(t, ip, port, SearchStart(h, port), PORTS);
      assert Select(t, ip, port, preferred) == Scan(t, ip, port, SearchStart(h, port), PORTS);
      hide Used, Scan, Seal, Empty, Alloc;
      var p := SelectOnHost(h.(sockets := t), ip, port).0;
      forall q | 1024 <= q <= 65535 && !Used(t, ip, port, q)
        ensures Distance(SearchStart(h, port), p) <= Distance(SearchStart(h, port), q)
      {
        assert IsUserPort(q) && Distance(SearchStart(h, port), q) < PORTS;
      }
    }
  }

  /** A port towards a remote endpoint is used by the connections to it that are not closed. */
  lemma UsedExactly(t: seq<Tcb>, ip: Ip, port: u16, p: int)
    ensures Used(t, ip, port, p) <==>
              exists s :: s in t && s.inUse && s.state != Closed && s.localPort as int == p
                          && s.remotePort == port && s.remoteIp == ip
  {
    forall s | s in t && Blocks(s, ip, port, p)
      ensures Used(t, ip, port, p)
    {
      var i :| 0 <= i < |t| && t[i] == s;
    }
  }

  /** A listener takes the next slot, if there is one. */
  lemma ListensExactly(h: Host, ip: Ip, port: u16)
    ensures var r, k := Listening(h, ip, port), Alloc(h.sockets);
            && r.next == h.next && (k == |h.sockets| ==> r == h)
            && (k < |h.sockets| ==>
                  && |r.sockets| == |h.sockets| && r.sockets == h.sockets[k := r.sockets[k]]
                  && Listens(r.sockets[k], ip, port) && r.sockets[k].state == Listen)
  {
    hide Alloc, Empty;
  }
}
