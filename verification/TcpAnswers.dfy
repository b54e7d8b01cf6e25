/** What a TCP endpoint answers, where each segment takes it, and what the user calls come to
    (layer4/tcp_socket.c, layer7/magi_socket.c), for every control block and every segment. */
module TcpAnswers {
  import opened Base
  import opened TcpWire
  import opened TcpSpec

  // ---------------------------------------------------------------- flags

  function Digit(b: bool): nat {
    if b then 1 else 0
  }

  /** The flag bits of section 3.1 of RFC 793, from the right: FIN, SYN, RST, PSH, ACK, and the rest. */
  lemma FlagBits(fin: bool, syn: bool, rst: bool, psh: bool, ack: bool, rest: nat)
    requires rest < 8
    ensures var f := Digit(fin) + 2 * Digit(syn) + 4 * Digit(rst) + 8 * Digit(psh) + 16 * Digit(ack) + 32 * rest;
            && f < 0x100 && HasFin(f) == fin && HasSyn(f) == syn && HasRst(f) == rst && HasAck(f) == ack
  {
    var f := Digit(fin) + 2 * Digit(syn) + 4 * Digit(rst) + 8 * Digit(psh) + 16 * Digit(ack) + 32 * rest;
    assert f / 2 == Digit(syn) + 2 * Digit(rst) + 4 * Digit(psh) + 8 * Digit(ack) + 16 * rest;
    assert f / 4 == Digit(rst) + 2 * Digit(psh) + 4 * Digit(ack) + 8 * rest;
    assert f / 0x10 == Digit(ack) + 2 * rest;
  }

  // ---------------------------------------------------------------- what is answered

  /** From this end of the connection to the other, with these flags and this payload, in sequence. */
  ghost predicate SentBy(m: Segment, t: Tcb, flags: byte, payload: seq<byte>) {
    && Valid(m, t.localIp, t.remoteIp) && m.srcPort == t.localPort && m.dstPort == t.remotePort
    && m.seqNum == t.sendSeq && m.ackNum == t.rx.recvSeq && m.flags == flags && m.payload == payload
    && m.dataOffset == 5 && m.window == 65535 && m.urgentPtr == 0
  }

  lemma SealedFields(s: Segment, src: Ip, dst: Ip)
    requires |s.payload| <= MAX_PAYLOAD
    ensures var m := Seal(s, src, dst); Valid(m, src, dst) && m == s.(checksum := m.checksum)
  {
    SealedIsValid(s, src, dst);
  }

  lemma PreparedAck(t: Tcb)
    ensures SentBy(PrepareAck(t), t, 0x10, [])
  {
    SealedFields(Make(t.localPort, t.remotePort, t.sendSeq, t.rx.recvSeq, ACK, []), t.localIp, t.remoteIp);
    hide Valid, Seal;
  }

  /** Does the segment get an answer in this state? */
  predicate CallsForAnswer(t: Tcb, s: Segment) {
    match t.state
    case Listen => HasSyn(s.flags) && !HasAck(s.flags) && !HasFin(s.flags) && !HasRst(s.flags)
    case SynSent => AcksSyn(t, s) && HasSyn(s.flags)
    case SynReceived => AcksSyn(t, s) && !HasSyn(s.flags) && s.seqNum == t.rx.recvSeq && |s.payload| > 0
    case Established => |s.payload| > 0 || HasFin(s.flags)
    case FinWait1 => |s.payload| > 0 || HasFin(s.flags)
    case FinWait2 => |s.payload| > 0 || HasFin(s.flags)
    case _ => false
  }

  predicate AcksSyn(t: Tcb, s: Segment) {
    HasAck(s.flags) && !HasFin(s.flags) && !HasRst(s.flags) && s.ackNum == (t.sendSeq + 1) % 0x1_0000_0000
  }

  /** Exactly the valid segments that open a connection, or carry data or a FIN in a state that takes them,
      are answered. A SYN is answered by a SYN with an acknowledgement of it; everything else by a bare
      acknowledgement of all that has been received, this segment included. */
  lemma AnswersExactly(t: Tcb, s: Segment, src: Ip, dst: Ip)
    ensures var o := Receive(t, s, src, dst);
            && (o.response.Some? <==> Valid(s, src, dst) && CallsForAnswer(t, s))
            && (o.response.Some? && t.state != Listen ==> SentBy(o.response.value, o.tcb, 0x10, []))
            && (o.response.Some? && t.state == Listen ==>
                  var m := o.response.value;
                  && Valid(m, dst, src) && m.srcPort == s.dstPort && m.dstPort == s.srcPort && m.flags == 0x12
                  && m.seqNum == 2000 + s.srcPort && m.ackNum == (s.seqNum + 1) % 0x1_0000_0000 && m.payload == []
                  && o.tcb.sendSeq == m.seqNum && o.tcb.rx.recvSeq == m.ackNum)
  {
    var o := Receive(t, s, src, dst);
    hide Valid, Seal, PrepareAck, SentBy, Offer, HasAck, HasSyn, HasFin, HasRst;
    if Valid(s, src, dst) && CallsForAnswer(t, s) {
      if t.state == Listen {
        SealedFields(Make(s.dstPort, s.srcPort, o.tcb.sendSeq, o.tcb.rx.recvSeq, SYN_ACK, []), dst, src);
      } else {
        AnswersWithAck(t, s, src, dst);
      }
    }
  }

  lemma AnswersWithAck(t: Tcb, s: Segment, src: Ip, dst: Ip)
    requires Valid(s, src, dst) && CallsForAnswer(t, s) && t.state != Listen
    ensures var o := Receive(t, s, src, dst); o.response.Some? && SentBy(o.response.value, o.tcb, 0x10, [])
  {
    hide Valid, PrepareAck, SentBy, Offer, HasAck, HasSyn, HasFin, HasRst;
    var o := Receive(t, s, src, dst);
    assert o.response == Some(PrepareAck(o.tcb)) by {
      hide Seal;
      if t.state == FinWait1 && !HasFin(s.flags) {
        assert PrepareAck(BufferPayload(t, s.seqNum, s.payload)) == PrepareAck(o.tcb) by { AckFields(t, s, o.tcb); }
      }
    }
    PreparedAck(o.tcb);
  }

  lemma AckFields(t: Tcb, s: Segment, u: Tcb)
    requires u == BufferPayload(t, s.seqNum, s.payload).(sendAck := u.sendAck, state := u.state)
    ensures PrepareAck(BufferPayload(t, s.seqNum, s.payload)) == PrepareAck(u)
  {
    hide Seal, Offer;
  }

  // ---------------------------------------------------------------- where it goes

  /** Once its payload is filed, is the FIN of the segment the next thing expected? */
  predicate FinIsDue(t: Tcb, s: Segment) {
    HasFin(s.flags) && (s.seqNum + |s.payload|) % 0x1_0000_0000 == Offer(t.rx, s.seqNum, s.payload).1.recvSeq
  }

  /** Section 3.9 of RFC 793 as far as the program follows it: the next state. */
  function NextState(t: Tcb, s: Segment): TcpState {
    match t.state
    case Listen => if CallsForAnswer(t, s) then SynReceived else Listen
    case SynSent => if CallsForAnswer(t, s) then Established else SynSent
    case SynReceived =>
      if AcksSyn(t, s) && !HasSyn(s.flags) && s.seqNum == t.rx.recvSeq then Established else SynReceived
    case Established => if FinIsDue(t, s) then CloseWait else Established
    case FinWait1 =>
      var acked := HasAck(s.flags) && s.ackNum == t.sendSeq;
      if FinIsDue(t, s) then (if acked then TimeWait else Closing)
      else if acked && !HasFin(s.flags) then FinWait2
      else FinWait1
    case FinWait2 => if FinIsDue(t, s) then TimeWait else FinWait2
    case Closing => if HasAck(s.flags) && s.ackNum == t.sendSeq then TimeWait else Closing
    case LastAck => if HasAck(s.flags) && s.ackNum == t.sendSeq then Closed else LastAck
    case TimeWait => TimeWait
    case Closed => Closed
    case CloseWait => CloseWait
  }

  /** r is t after s: in the next state; where data is taken, the receive side is that of the offered payload,
      with the FIN counted if due; a release leaves a zeroed socket; and addresses, ports and, after the
      handshake, the next sequence number to send stay. */
  ghost predicate MovedBy(t: Tcb, s: Segment, r: Tcb) {
    && r.state == NextState(t, s) && (t.state == LastAck && r.state == Closed ==> r == ZEROED)
    && (t.state in {Established, FinWait1, FinWait2} ==>
          var rx := Offer(t.rx, s.seqNum, s.payload).1;
          && r.sendSeq == t.sendSeq && r.hasData == BufferPayload(t, s.seqNum, s.payload).hasData
          && r.rx == if FinIsDue(t, s) then rx.(recvSeq := (rx.recvSeq + 1) % 0x1_0000_0000) else rx)
    && (t.state in {FinWait1, FinWait2} ==> r.sendBuf == t.sendBuf && r.startSeq == t.startSeq)
    && (t.state == Established ==>
          var u := if HasAck(s.flags) then AcknowledgeData(t, s.ackNum) else t;
          r.sendBuf == u.sendBuf && r.startSeq == u.startSeq && r.sendAck == u.sendAck)
    && (t.state in {Closing, TimeWait, Closed, CloseWait} ==> r == t.(state := r.state, sendAck := r.sendAck))
    && (r != ZEROED ==> SamePeers(t, r))
  }

  predicate SamePeers(t: Tcb, r: Tcb) {
    && r.inUse == t.inUse && r.isListening == t.isListening
    && r.localIp == t.localIp && r.localPort == t.localPort && r.remoteIp == t.remoteIp && r.remotePort == t.remotePort
  }

  /** An invalid segment changes nothing, and a valid one leads to exactly this. */
  lemma MovesExactly(t: Tcb, s: Segment, src: Ip, dst: Ip)
    ensures var r := Receive(t, s, src, dst).tcb; if Valid(s, src, dst) then MovedBy(t, s, r) else r == t
  {
    hide Valid, PrepareAck, Seal, Offer, HasAck, HasSyn, HasFin, HasRst, Empty, MovedBy;
    if Valid(s, src, dst) {
      match t.state {
        case Established => EstablishedMoves(t, s);
        case FinWait1 => FinWait1Moves(t, s);
        case FinWait2 => FinWait2Moves(t, s);
        case _ => OtherwiseMoves(t, s, src, dst);
      }
    }
  }

  lemma EstablishedMoves(t: Tcb, s: Segment)
    requires t.state == Established
    ensures MovedBy(t, s, OnEstablished(t, s).tcb)
  {
    hide PrepareAck, Offer, HasAck, HasSyn, HasFin, HasRst, Empty, AcknowledgeData;
    AcknowledgeKeeps(t, s.ackNum);
  }

  lemma AcknowledgeKeeps(t: Tcb, ackNum: u32)
    ensures var r := AcknowledgeData(t, ackNum);
            r == t.(sendBuf := r.sendBuf, startSeq := r.startSeq, sendAck := r.sendAck)
  {
  }

  lemma FinWait1Moves(t: Tcb, s: Segment)
    requires t.state == FinWait1
    ensures MovedBy(t, s, OnFinWait1(t, s).tcb)
  {
    hide PrepareAck, Offer, HasAck, HasSyn, HasFin, HasRst, Empty;
  }

  lemma FinWait2Moves(t: Tcb, s: Segment)
    requires t.state == FinWait2
    ensures MovedBy(t, s, OnFinWait2(t, s).tcb)
  {
    hide PrepareAck, Offer, HasAck, HasSyn, HasFin, HasRst, Empty;
  }

  lemma OtherwiseMoves(t: Tcb, s: Segment, src: Ip, dst: Ip)
    requires t.state !in {Established, FinWait1, FinWait2} && Valid(s, src, dst)
    ensures MovedBy(t, s, Receive(t, s, src, dst).tcb)
  {
    hide Valid, PrepareAck, Seal, Offer, HasAck, HasSyn, HasFin, HasRst, Empty;
  }

  // ---------------------------------------------------------------- user calls

  /** Data is taken exactly in ESTABLISHED, between 1 and 1460 bytes at a time, and as long as everything not
      yet acknowledged stays within 4096 bytes; it then goes out at once as it is. */
  lemma SendsExactly(t: Tcb, data: seq<byte>)
    ensures SendData(t, data).Some? <==>
            t.state == Established && 1 <= |data| <= 1460 && |t.sendBuf| + |data| <= 4096
    ensures SendData(t, data).Some? ==>
              var (r, m) := SendData(t, data).value;
              && SentBy(m, t, 0x18, data) && r.sendSeq == (t.sendSeq + |data|) % 0x1_0000_0000
              && r.sendBuf == t.sendBuf + data && r.state == Established && r.rx == t.rx && r.inUse == t.inUse
  {
    if SendData(t, data).Some? {
      SealedFields(Make(t.localPort, t.remotePort, t.sendSeq, t.rx.recvSeq, PSH_ACK, data), t.localIp, t.remoteIp);
    }
    hide Valid, Seal;
  }

  /** A FIN goes out exactly from ESTABLISHED and CLOSE_WAIT and takes a sequence number of its own. */
  lemma ClosesExactly(t: Tcb)
    ensures var (r, fin) := CloseSocket(t);
            && (fin.Some? <==> t.state in {Established, CloseWait})
            && (fin.Some? ==>
                  && SentBy(fin.value, t, 0x11, []) && r.sendSeq == (t.sendSeq + 1) % 0x1_0000_0000
                  && r == t.(state := if t.state == Established then FinWait1 else LastAck, sendSeq := r.sendSeq))
            && (fin.None? ==> r == if t.state in {FinWait1, FinWait2, Closing, TimeWait, LastAck} then t else ZEROED)
  {
    SealedFields(Make(t.localPort, t.remotePort, t.sendSeq, t.rx.recvSeq, FIN_ACK, []), t.localIp, t.remoteIp);
    hide Valid, Seal, Empty;
  }

  function Total(sizes: seq<nat>): nat {
    if |sizes| == 0 then 0 else sizes[0] + Total(sizes[1..])
  }

  /** One read after another, each of at most the given number of bytes. */
  function ReadAll(t: Tcb, sizes: seq<nat>): (seq<byte>, Tcb)
    decreases |sizes|
  {
    if |sizes| == 0 then ([], t) else
    var (first, t1) := RecvData(t, sizes[0]);
    var (rest, t2) := ReadAll(t1, sizes[1..]);
    (first + rest, t2)
  }

  lemma ReadsSome(t: Tcb, size: nat)
    requires t.hasData == (|t.rx.data| > 0)
    ensures var (bytes, r) := RecvData(t, size);
            && |bytes| == (if size < |t.rx.data| then size else |t.rx.data|) && bytes + r.rx.data == t.rx.data
            && r == t.(rx := t.rx.(data := r.rx.data), hasData := |r.rx.data| > 0)
  {
  }

  lemma Joined(all: seq<byte>, first: seq<byte>, rest: seq<byte>, m: nat)
    requires all == first + rest && m <= |rest|
    ensures first + rest[..m] == all[..|first| + m] && rest[m..] == all[|first| + m..]
  {
  }

  /** However the reads are cut, together they hand out the first bytes in the buffer, as many as were asked
      for or are there, and leave the others. */
  lemma {:induction false} ReadsInOrder(t: Tcb, sizes: seq<nat>)
    requires t.hasData == (|t.rx.data| > 0)
    ensures var (bytes, r) := ReadAll(t, sizes);
            var n := if Total(sizes) < |t.rx.data| then Total(sizes) else |t.rx.data|;
            && bytes == t.rx.data[..n] && r.rx.data == t.rx.data[n..]
            && r == t.(rx := t.rx.(data := r.rx.data), hasData := |r.rx.data| > 0)
    decreases |sizes|
  {
    if |sizes| > 0 {
      hide RecvData;
      var (first, t1) := RecvData(t, sizes[0]);
      ReadsSome(t, sizes[0]);
      ReadsInOrder(t1, sizes[1..]);
      var m := if Total(sizes[1..]) < |t1.rx.data| then Total(sizes[1..]) else |t1.rx.data|;
      Joined(t.rx.data, first, t1.rx.data, m);
    }
  }
}
