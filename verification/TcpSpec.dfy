/** The TCP control block as a value, and every operation on it as a function:
    layer4/tcp_socket.c and the TCP branches of layer7/magi_socket.c.
    The class in TcpSocket.dfy performs the same operations in place. */
module TcpSpec {
  import opened Base
  import opened TcpWire

  const BUFFER_SIZE := 4096

  datatype TcpState =
    | Closed | Listen | SynSent | SynReceived | Established
    | FinWait1 | FinWait2 | Closing | TimeWait | CloseWait | LastAck

  /** The receive side: in-order bytes not yet read, and the out-of-order slots, where slot i
      stands for sequence number recvSeq + i. */
  datatype Reassembly = Reassembly(recvSeq: u32, data: seq<byte>, slots: seq<Option<byte>>)

  datatype Tcb = Tcb(
    inUse: bool, state: TcpState, localIp: Ip, localPort: u16, remoteIp: Ip, remotePort: u16,
    sendSeq: u32, sendAck: u32, sendBuf: seq<byte>, startSeq: u32,
    rx: Reassembly, hasData: bool, isListening: bool)

  function Empty(n: nat): (s: seq<Option<byte>>)
    ensures |s| == n && forall i :: 0 <= i < n ==> s[i].None?
  {
    seq(n, i => None)
  }

  /** A zeroed socket, as tcp_socket_free leaves it. */
  const ZEROED := Tcb(false, Closed, ZERO_IP, 0, ZERO_IP, 0, 0, 0, [], 0, Reassembly(0, [], Empty(BUFFER_SIZE)),
                      false, false)

  // ---------------------------------------------------------------- reassembly

  /** How many slots are filled. */
  function Count(slots: seq<Option<byte>>): (n: nat)
    ensures n <= |slots|
  {
    if |slots| == 0 then 0 else Count(slots[..|slots| - 1]) + if slots[|slots| - 1].Some? then 1 else 0
  }

  /** Length of the run of filled slots at the front. */
  function Ready(slots: seq<Option<byte>>): (n: nat)
    ensures n <= |slots|
    ensures forall i :: 0 <= i < n ==> slots[i].Some?
    ensures n < |slots| ==> slots[n].None?
  {
    if |slots| == 0 || slots[0].None? then 0 else 1 + Ready(slots[1..])
  }

  /** The bytes of filled slots. */
  function Bytes(slots: seq<Option<byte>>): (b: seq<byte>)
    requires forall i :: 0 <= i < |slots| ==> slots[i].Some?
    ensures |b| == |slots| && forall i :: 0 <= i < |b| ==> slots[i] == Some(b[i])
  {
    if |slots| == 0 then [] else [slots[0].value] + Bytes(slots[1..])
  }

  /** Write bytes at an offset, keeping whatever a slot already holds. */
  function Merge(slots: seq<Option<byte>>, offset: nat, bytes: seq<byte>): (m: seq<Option<byte>>)
    ensures |m| == |slots|
  {
    seq(|slots|, i requires 0 <= i < |slots| =>
      if slots[i].None? && offset <= i < offset + |bytes| then Some(bytes[i - offset]) else slots[i])
  }

  /** Drop the first n slots and open as many empty ones at the end. */
  function Shift(slots: seq<Option<byte>>, n: nat): (s: seq<Option<byte>>)
    requires n <= |slots|
    ensures |s| == |slots|
  {
    slots[n..] + Empty(n)
  }

  datatype Verdict = Duplicate | Refused | Stored

  /** The window test, the capacity test, the filing of the bytes and the shift of tcp_buffer_payload. */
  function StoreAt(rx: Reassembly, offset: nat, news: seq<byte>): (Verdict, Reassembly) {
    if offset >= BUFFER_SIZE || |news| > BUFFER_SIZE - offset then (Refused, rx) else
    var merged := Merge(rx.slots, offset, news);
    if |rx.data| + Count(merged) > BUFFER_SIZE then (Refused, rx) else
    var ready := Ready(merged);
    (Stored, Reassembly(Wrap32(rx.recvSeq + ready), rx.data + Bytes(merged[..ready]), Shift(merged, ready)))
  }

  /** tcp_buffer_payload: trim what was received before and store the rest. */
  function Offer(rx: Reassembly, seqNum: u32, payload: seq<byte>): (Verdict, Reassembly) {
    if |payload| == 0 then (Duplicate, rx) else
    var stale := if seqNum < rx.recvSeq then rx.recvSeq - seqNum else 0;
    if stale >= |payload| then (Duplicate, rx)
    else StoreAt(rx, Wrap32(Wrap32(seqNum + stale) - rx.recvSeq), payload[stale..])
  }

  function BufferPayload(t: Tcb, seqNum: u32, payload: seq<byte>): Tcb {
    var (verdict, rx) := Offer(t.rx, seqNum, payload);
    t.(rx := rx, hasData := if verdict == Stored then |rx.data| > 0 else t.hasData)
  }

  // ---------------------------------------------------------------- sending side

  /** tcp_acknowledge_data. */
  function AcknowledgeData(t: Tcb, ackNum: u32): Tcb {
    if ackNum <= t.sendAck || ackNum > t.sendSeq then t else
    var acked := if ackNum - t.sendAck > |t.sendBuf| then |t.sendBuf| else ackNum - t.sendAck;
    t.(sendBuf := t.sendBuf[acked..], startSeq := if acked > 0 then ackNum else t.startSeq, sendAck := ackNum)
  }

  /** tcp_prepare_ack. */
  function PrepareAck(t: Tcb): Segment {
    Seal(Make(t.localPort, t.remotePort, t.sendSeq, t.rx.recvSeq, ACK, []), t.localIp, t.remoteIp)
  }

  // ---------------------------------------------------------------- segment arrives

  /** Return value, new control block, and the response segment if one was filled in. */
  datatype Outcome = Outcome(handled: bool, tcb: Tcb, response: Option<Segment>)

  function FinSeq(s: Segment): u32 {
    Wrap32(s.seqNum + |s.payload|)
  }

  /** The FIN clause shared by ESTABLISHED, FIN_WAIT_1 and FIN_WAIT_2. */
  function ConsumeFin(t: Tcb, s: Segment, next: TcpState): Outcome {
    if FinSeq(s) != t.rx.recvSeq then Outcome(true, t, Some(PrepareAck(t))) else
    var t1 := t.(rx := t.rx.(recvSeq := Wrap32(t.rx.recvSeq + 1)), state := next);
    Outcome(true, t1, Some(PrepareAck(t1)))
  }

  function OnListen(t: Tcb, s: Segment, src: Ip, dst: Ip): Outcome {
    if HasSyn(s.flags) && !HasAck(s.flags) && !HasFin(s.flags) && !HasRst(s.flags) then
      var t1 := t.(rx := t.rx.(recvSeq := Wrap32(s.seqNum + 1)), sendSeq := 2000 + s.srcPort as int,
                   state := SynReceived);
      Outcome(true, t1,
              Some(Seal(Make(s.dstPort, s.srcPort, t1.sendSeq, t1.rx.recvSeq, SYN_ACK, []), dst, src)))
    else Outcome(false, t, None)
  }

  function OnSynSent(t: Tcb, s: Segment): Outcome {
    if HasSyn(s.flags) && HasAck(s.flags) && !HasFin(s.flags) && !HasRst(s.flags) &&
       s.ackNum == Wrap32(t.sendSeq + 1) then
      var t1 := t.(rx := t.rx.(recvSeq := Wrap32(s.seqNum + 1)), sendAck := s.ackNum, sendSeq := s.ackNum,
                   state := Established);
      Outcome(true, t1, Some(PrepareAck(t1)))
    else Outcome(false, t, None)
  }

  function OnSynReceived(t: Tcb, s: Segment): Outcome {
    if HasAck(s.flags) && !HasSyn(s.flags) && !HasFin(s.flags) && !HasRst(s.flags) &&
       s.ackNum == Wrap32(t.sendSeq + 1) && s.seqNum == t.rx.recvSeq then
      var t1 := t.(sendAck := s.ackNum, sendSeq := s.ackNum, state := Established);
      var t2 := BufferPayload(t1, s.seqNum, s.payload);
      Outcome(true, t2, if |s.payload| > 0 then Some(PrepareAck(t2)) else None)
    else Outcome(false, t, None)
  }

  function OnEstablished(t: Tcb, s: Segment): Outcome {
    var t1 := if HasAck(s.flags) then AcknowledgeData(t, s.ackNum) else t;
    var t2 := BufferPayload(t1, s.seqNum, s.payload);
    if HasFin(s.flags) then ConsumeFin(t2, s, CloseWait)
    else if |s.payload| > 0 then Outcome(true, t2, Some(PrepareAck(t2)))
    else Outcome(HasAck(s.flags), t2, None)
  }

  /** Does the segment acknowledge everything sent, our FIN included? */
  predicate AcksAll(t: Tcb, s: Segment) {
    HasAck(s.flags) && s.ackNum == t.sendSeq
  }

  function OnFinWait1(t: Tcb, s: Segment): Outcome {
    var t1 := BufferPayload(t, s.seqNum, s.payload);
    if HasFin(s.flags) then ConsumeFin(t1, s, if AcksAll(t, s) then TimeWait else Closing)
    else
      var response := if |s.payload| > 0 then Some(PrepareAck(t1)) else None;
      if AcksAll(t, s) then Outcome(true, t1.(sendAck := s.ackNum, state := FinWait2), response)
      else Outcome(|s.payload| > 0, t1, response)
  }

  function OnFinWait2(t: Tcb, s: Segment): Outcome {
    var t1 := BufferPayload(t, s.seqNum, s.payload);
    if HasFin(s.flags) then ConsumeFin(t1, s, TimeWait)
    else if |s.payload| > 0 then Outcome(true, t1, Some(PrepareAck(t1)))
    else Outcome(false, t1, None)
  }

  function OnClosing(t: Tcb, s: Segment): Outcome {
    if AcksAll(t, s) then Outcome(true, t.(sendAck := s.ackNum, state := TimeWait), None)
    else Outcome(false, t, None)
  }

  function OnLastAck(t: Tcb, s: Segment): Outcome {
    if AcksAll(t, s) then Outcome(true, ZEROED, None) else Outcome(false, t, None)
  }

  /** tcp_socket_receive_segment. */
  function Receive(t: Tcb, s: Segment, src: Ip, dst: Ip): Outcome {
    if !Valid(s, src, dst) then Outcome(false, t, None) else
    match t.state
    case Listen => OnListen(t, s, src, dst)
    case SynSent => OnSynSent(t, s)
    case SynReceived => OnSynReceived(t, s)
    case Established => OnEstablished(t, s)
    case FinWait1 => OnFinWait1(t, s)
    case FinWait2 => OnFinWait2(t, s)
    case Closing => OnClosing(t, s)
    case LastAck => OnLastAck(t, s)
    case TimeWait => Outcome(true, t, None)
    case Closed => Outcome(false, t, None)
    case CloseWait => Outcome(false, t, None)
  }

  // ---------------------------------------------------------------- user calls

  /** tcp_socket_connect and the SYN of magi_connect. */
  function Connect(t: Tcb, localIp: Ip, srcPort: u16, remoteIp: Ip, dstPort: u16): (Tcb, Segment) {
    (t.(state := SynSent, localIp := localIp, localPort := srcPort, remoteIp := remoteIp, remotePort := dstPort,
        sendSeq := 1000, rx := t.rx.(recvSeq := 0), sendAck := 0, hasData := false),
     Seal(Make(srcPort, dstPort, 1000, 0, SYN, []), localIp, remoteIp))
  }

  /** magi_send on a TCP socket: buffer, build the PSH segment, advance sendSeq. None is a refusal. */
  function SendData(t: Tcb, data: seq<byte>): Option<(Tcb, Segment)> {
    if |data| == 0 || |data| > MAX_PAYLOAD || t.state != Established || |t.sendBuf| + |data| > BUFFER_SIZE then None
    else
    Some((t.(sendBuf := t.sendBuf + data, startSeq := if |t.sendBuf| == 0 then t.sendSeq else t.startSeq,
             sendSeq := Wrap32(t.sendSeq + |data|)),
          Seal(Make(t.localPort, t.remotePort, t.sendSeq, t.rx.recvSeq, PSH_ACK, data), t.localIp, t.remoteIp)))
  }

  /** tcp_socket_recv. */
  function RecvData(t: Tcb, maxLen: nat): (seq<byte>, Tcb) {
    if maxLen == 0 || !t.hasData || |t.rx.data| == 0 then ([], t) else
    var n := if |t.rx.data| < maxLen then |t.rx.data| else maxLen;
    (t.rx.data[..n], t.(rx := t.rx.(data := t.rx.data[n..]), hasData := |t.rx.data| - n > 0))
  }

  /** magi_close on a TCP socket: a FIN from ESTABLISHED or CLOSE_WAIT, release before the handshake
      is complete, nothing on the control block in the other states. */
  function CloseSocket(t: Tcb): (Tcb, Option<Segment>) {
    if t.state == Established || t.state == CloseWait then
      (t.(state := if t.state == Established then FinWait1 else LastAck, sendSeq := Wrap32(t.sendSeq + 1)),
       Some(Seal(Make(t.localPort, t.remotePort, t.sendSeq, t.rx.recvSeq, FIN_ACK, []), t.localIp, t.remoteIp)))
    else if t.state in {Closed, Listen, SynSent, SynReceived} then (ZEROED, None)
    else (t, None)
  }
}
