/** The TCP socket as the repository keeps it: fixed buffers updated in place. Every method is
    proved to change the socket's value exactly as the function of the same name in TcpSpec. */
module TcpSocket {
  import opened Base
  import opened TcpWire
  import opened TcpSpec

  lemma CountOfEmpty(n: nat)
    ensures Count(Empty(n)) == 0
  {
    if n > 0 {
      assert Empty(n)[..n - 1] == Empty(n - 1);
      CountOfEmpty(n - 1);
    }
  }

  lemma {:induction false} CountOfFill(slots: seq<Option<byte>>, i: nat, b: byte)
    requires i < |slots| && slots[i].None?
    ensures Count(slots[i := Some(b)]) == Count(slots) + 1
  {
    var n := |slots| - 1;
    if i == n {
      assert slots[i := Some(b)][..n] == slots[..n];
    } else {
      assert slots[i := Some(b)][..n] == slots[..n][i := Some(b)];
      CountOfFill(slots[..n], i, b);
    }
  }

  lemma {:induction false} CountOfConcat(a: seq<Option<byte>>, b: seq<Option<byte>>)
    ensures Count(a + b) == Count(a) + Count(b)
  {
    if |b| == 0 {
      assert a + b == a;
    } else {
      assert (a + b)[..|a + b| - 1] == a + b[..|b| - 1];
      CountOfConcat(a, b[..|b| - 1]);
    }
  }

  lemma {:induction false} CountOfFull(slots: seq<Option<byte>>)
    requires forall i :: 0 <= i < |slots| ==> slots[i].Some?
    ensures Count(slots) == |slots|
  {
    if |slots| > 0 {
      CountOfFull(slots[..|slots| - 1]);
    }
  }

  /** Moving the ready run out removes exactly that many filled slots. */
  lemma CountOfShift(slots: seq<Option<byte>>, n: nat)
    requires n <= |slots| && forall i :: 0 <= i < n ==> slots[i].Some?
    ensures Count(Shift(slots, n)) == Count(slots) - n
  {
    assert slots == slots[..n] + slots[n..];
    CountOfConcat(slots[..n], slots[n..]);
    CountOfFull(slots[..n]);
    CountOfConcat(slots[n..], Empty(n));
    CountOfEmpty(n);
  }

  /** One more byte of the payload merged. */
  lemma MergeStep(slots: seq<Option<byte>>, offset: nat, bytes: seq<byte>, i: nat)
    requires i < |bytes| && offset + |bytes| <= |slots|
    ensures var m := Merge(slots, offset, bytes[..i]);
            && m[offset + i] == slots[offset + i]
            && Merge(slots, offset, bytes[..i + 1]) ==
               if slots[offset + i].None? then m[offset + i := Some(bytes[i])] else m
  {
  }

  lemma ShiftNothing(slots: seq<Option<byte>>)
    ensures Shift(slots, 0) == slots && Bytes(slots[..0]) == []
  {
  }

  lemma WrapNothing(x: u32)
    ensures Wrap32(x + 0) == x
  {
  }

  class TcpSocket {
    var inUse: bool
    var state: TcpState
    var localIp: Ip
    var localPort: u16
    var remoteIp: Ip
    var remotePort: u16
    var sendSeq: u32
    var recvSeq: u32
    var sendAck: u32
    const sendData: array<byte>
    var sendSize: nat
    var startSeq: u32
    const recvData: array<byte>
    var recvSize: nat
    const pending: array<byte>
    const pendingValid: array<bool>
    var pendingCount: nat
    var hasData: bool
    var isListening: bool

    /** The abstract contents of the four buffers, kept in step by every method. */
    ghost var sendBuf: seq<byte>
    ghost var recvBuf: seq<byte>
    ghost var slots: seq<Option<byte>>

    ghost predicate Valid()
      reads this, sendData, recvData, pending, pendingValid
    {
      && sendData.Length == recvData.Length == pending.Length == pendingValid.Length == BUFFER_SIZE
      && sendData != recvData && sendData != pending && recvData != pending
      && sendSize == |sendBuf| <= BUFFER_SIZE && (forall i :: 0 <= i < sendSize ==> sendData[i] == sendBuf[i])
      && recvSize == |recvBuf| <= BUFFER_SIZE && (forall i :: 0 <= i < recvSize ==> recvData[i] == recvBuf[i])
      && |slots| == BUFFER_SIZE && pendingCount == Count(slots)
      && (forall i :: 0 <= i < BUFFER_SIZE ==> slots[i] == if pendingValid[i] then Some(pending[i]) else None)
    }

    ghost function Rx(): Reassembly
      reads this
    {
      Reassembly(recvSeq, recvBuf, slots)
    }

    ghost function Value(): Tcb
      reads this
    {
      Tcb(inUse, state, localIp, localPort, remoteIp, remotePort, sendSeq, sendAck, sendBuf, startSeq,
          Rx(), hasData, isListening)
    }

    ghost const Repr: set<object> := {this, sendData, recvData, pending, pendingValid}

    constructor ()
      ensures Valid() && fresh(Repr) && Value() == ZEROED
    {
      inUse, state, hasData, isListening := false, Closed, false, false;
      localIp, localPort, remoteIp, remotePort := ZERO_IP, 0, ZERO_IP, 0;
      sendSeq, recvSeq, sendAck, startSeq := 0, 0, 0, 0;
      sendSize, recvSize, pendingCount := 0, 0, 0;
      sendData := new byte[BUFFER_SIZE];
      recvData := new byte[BUFFER_SIZE];
      pending := new byte[BUFFER_SIZE];
      pendingValid := new bool[BUFFER_SIZE](_ => false);
      sendBuf, recvBuf := [], [];
      new;
      slots := Empty(pending.Length);
      CountOfEmpty(pending.Length);
    }

    method ClearSlots()
      requires Valid()
      modifies `pendingCount, `slots, pendingValid
      ensures Valid() && slots == Empty(BUFFER_SIZE)
    {
      forall i | 0 <= i < pendingValid.Length {
        pendingValid[i] := false;
      }
      slots := Empty(pendingValid.Length);
      pendingCount := 0;
      CountOfEmpty(pendingValid.Length);
    }

    method ClearBuffers()
      requires Valid()
      modifies `sendSize, `sendBuf, `startSeq, `recvSize, `recvBuf
      ensures Valid() && sendBuf == recvBuf == [] && startSeq == 0
    {
      sendSize, startSeq, recvSize := 0, 0, 0;
      sendBuf, recvBuf := [], [];
    }

    method SetAddresses(ip: Ip, port: u16, peerIp: Ip, peerPort: u16)
      requires Valid()
      modifies `localIp, `localPort, `remoteIp, `remotePort
      ensures Valid() && localIp == ip && localPort == port && remoteIp == peerIp && remotePort == peerPort
    {
      localIp, localPort, remoteIp, remotePort := ip, port, peerIp, peerPort;
    }

    method SetSequence(send: u32, recv: u32, ack: u32)
      requires Valid()
      modifies `sendSeq, `recvSeq, `sendAck
      ensures Valid() && sendSeq == send && recvSeq == recv && sendAck == ack
    {
      sendSeq, recvSeq, sendAck := send, recv, ack;
    }

    method SetStatus(used: bool, newState: TcpState, listening: bool)
      requires Valid()
      modifies `inUse, `state, `isListening, `hasData
      ensures Valid() && inUse == used && state == newState && isListening == listening && !hasData
    {
      inUse, state, isListening, hasData := used, newState, listening, false;
    }

    /** tcp_socket_free. */
    method Free()
      requires Valid()
      modifies this, pendingValid
      ensures Valid() && Value() == ZEROED
    {
      hide Valid, Count, Empty;
      ClearSlots();
      ClearBuffers();
      SetAddresses(ZERO_IP, 0, ZERO_IP, 0);
      SetSequence(0, 0, 0);
      SetStatus(false, Closed, false);
    }

    /** The first loop of tcp_buffer_payload: how many of the bytes fall in empty slots. */
    method CountNew(offset: nat, news: seq<byte>) returns (newCount: nat)
      requires Valid() && offset + |news| <= BUFFER_SIZE
      ensures pendingCount + newCount == Count(Merge(slots, offset, news))
    {
      newCount := 0;
      assert Merge(slots, offset, news[..0]) == slots;
      for i := 0 to |news|
        invariant pendingCount + newCount == Count(Merge(slots, offset, news[..i]))
      {
        MergeStep(slots, offset, news, i);
        if !pendingValid[offset + i] {
          CountOfFill(Merge(slots, offset, news[..i]), offset + i, news[i]);
          newCount := newCount + 1;
        }
      }
      assert news[..|news|] == news;
    }

    /** The second loop: file the bytes in the empty slots. */
    method FileBytes(offset: nat, news: seq<byte>)
      requires Valid() && offset + |news| <= BUFFER_SIZE
      modifies `pendingCount, `slots, pending, pendingValid
      ensures Valid() && slots == Merge(old(slots), offset, news)
    {
      ghost var before := slots;
      assert Merge(before, offset, news[..0]) == before;
      for i := 0 to |news|
        invariant Valid() && slots == Merge(before, offset, news[..i])
      {
        MergeStep(before, offset, news, i);
        var pos := offset + i;
        if !pendingValid[pos] {
          CountOfFill(slots, pos, news[i]);
          pending[pos] := news[i];
          pendingValid[pos] := true;
          pendingCount := pendingCount + 1;
          slots := slots[pos := Some(news[i])];
        }
      }
      assert news[..|news|] == news;
    }

    /** memcpy of the ready bytes behind the readable ones. */
    method CopyReady(ready: nat)
      requires Valid() && recvSize + ready <= BUFFER_SIZE && ready <= BUFFER_SIZE
      requires forall i :: 0 <= i < ready ==> slots[i].Some?
      modifies `recvSize, `recvBuf, recvData
      ensures Valid() && recvBuf == old(recvBuf) + Bytes(slots[..ready])
    {
      hide Count, Bytes;
      ghost var bytes := Bytes(slots[..ready]);
      forall i | 0 <= i < ready {
        recvData[recvSize + i] := pending[i];
      }
      recvBuf := recvBuf + bytes;
      recvSize := recvSize + ready;
      forall i | 0 <= i < recvSize
        ensures recvData[i] == recvBuf[i]
      {
        if i >= old(recvSize) {
          assert slots[..ready][i - old(recvSize)] == Some(bytes[i - old(recvSize)]);
        }
      }
    }

    /** memmove and memset of the slots behind them. */
    method CloseGap(ready: nat)
      requires Valid() && ready <= BUFFER_SIZE
      requires forall i :: 0 <= i < ready ==> slots[i].Some?
      modifies `pendingCount, `slots, pending, pendingValid
      ensures Valid() && slots == Shift(old(slots), ready)
    {
      CountOfShift(slots, ready);
      pendingCount := pendingCount - ready;
      forall i | 0 <= i < BUFFER_SIZE {
        pending[i] := if i < BUFFER_SIZE - ready then pending[i + ready] else 0;
      }
      forall i | 0 <= i < BUFFER_SIZE {
        pendingValid[i] := i < BUFFER_SIZE - ready && pendingValid[i + ready];
      }
      slots := Shift(slots, ready);
    }

    /** The scan for the contiguous front. */
    method ScanReady() returns (ready: nat)
      requires Valid()
      ensures ready == Ready(slots)
    {
      hide Count, Ready, Bytes;
      ready := 0;
      while ready < BUFFER_SIZE && pendingValid[ready]
        invariant ready <= BUFFER_SIZE && forall i :: 0 <= i < ready ==> slots[i].Some?
      {
        ready := ready + 1;
      }
      ReadyIs(slots, ready);
    }

    /** Move the contiguous front behind the readable bytes, when there is one. */
    method Advance()
      requires Valid() && recvSize + pendingCount <= BUFFER_SIZE
      modifies `pendingCount, `slots, `recvSize, `recvBuf, `recvSeq, recvData, pending, pendingValid
      ensures Valid()
      ensures var n := Ready(old(slots));
              Rx() == Reassembly(Wrap32(old(recvSeq) + n), old(recvBuf) + Bytes(old(slots)[..n]), Shift(old(slots), n))
    {
      hide Count, Ready, Bytes, Shift, Wrap32;
      var ready := ScanReady();
      CountOfShift(slots, ready);
      if ready > 0 {
        CopyReady(ready);
        recvSeq := Wrap32(recvSeq + ready);
        CloseGap(ready);
      } else {
        ShiftNothing(slots);
        WrapNothing(recvSeq);
        assert recvBuf + [] == recvBuf;
      }
    }

    /** tcp_buffer_payload from the window test on. */
    method StoreAt(offset: nat, news: seq<byte>) returns (stored: bool)
      requires Valid()
      modifies `pendingCount, `slots, `recvSize, `recvBuf, `recvSeq, recvData, pending, pendingValid
      ensures Valid() && (if stored then Stored else Refused, Rx()) == TcpSpec.StoreAt(old(Rx()), offset, news)
    {
      if offset >= BUFFER_SIZE || |news| > BUFFER_SIZE - offset {
        return false;
      }
      var newCount := CountNew(offset, news);
      if recvSize + pendingCount + newCount > BUFFER_SIZE {
        return false;
      }
      FileBytes(offset, news);
      Advance();
      stored := true;
    }

    /** tcp_buffer_payload after the part received before has been cut off. */
    method StoreTrimmed(seqNum: u32, payload: seq<byte>) returns (ok: bool)
      requires Valid()
      modifies `hasData, `pendingCount, `slots, `recvSize, `recvBuf, `recvSeq, recvData, pending, pendingValid
      ensures Valid()
      ensures (if ok then Stored else Refused, Rx()) ==
              TcpSpec.StoreAt(old(Rx()), Wrap32(seqNum - old(recvSeq)), payload)
      ensures hasData == if ok then |recvBuf| > 0 else old(hasData)
    {
      ok := StoreAt(Wrap32(seqNum - recvSeq), payload);
      if ok {
        hasData := recvSize > 0;
      }
    }

    /** tcp_buffer_payload. */
    method BufferPayload(seqNum: u32, payload: seq<byte>) returns (ok: bool)
      requires Valid()
      modifies `hasData, `pendingCount, `slots, `recvSize, `recvBuf, `recvSeq, recvData, pending, pendingValid
      ensures Valid() && Value() == TcpSpec.BufferPayload(old(Value()), seqNum, payload)
      ensures ok == (Offer(old(Rx()), seqNum, payload).0 != Refused)
    {
      hide TcpSpec.StoreAt;
      if |payload| == 0 {
        return true;
      }
      var alreadyReceived := 0;
      if seqNum < recvSeq {
        alreadyReceived := recvSeq - seqNum;
        if alreadyReceived >= |payload| {
          return true;
        }
      }
      ok := StoreTrimmed(Wrap32(seqNum + alreadyReceived), payload[alreadyReceived..]);
    }

    /** tcp_acknowledge_data. */
    method AcknowledgeData(ackNum: u32)
      requires Valid()
      modifies this, sendData
      ensures Valid() && Value() == TcpSpec.AcknowledgeData(old(Value()), ackNum)
    {
      hide Count;
      if ackNum <= sendAck || ackNum > sendSeq {
        return;
      }
      var acked := ackNum - sendAck;
      if acked > sendSize {
        acked := sendSize;
      }
      if acked > 0 {
        forall i | 0 <= i < sendSize - acked {
          sendData[i] := sendData[acked + i];
        }
        sendSize := sendSize - acked;
        startSeq := ackNum;
        sendBuf := sendBuf[acked..];
      }
      sendAck := ackNum;
    }

    function PrepareAck(): Segment
      reads this
      ensures PrepareAck() == TcpSpec.PrepareAck(Value())
    {
      Seal(Make(localPort, remotePort, sendSeq, recvSeq, ACK, []), localIp, remoteIp)
    }

    /** The FIN clause of the three synchronized states that accept one. */
    method ConsumeFin(s: Segment, next: TcpState) returns (response: Segment)
      requires Valid()
      modifies this
      ensures Valid() && Outcome(true, Value(), Some(response)) == TcpSpec.ConsumeFin(old(Value()), s, next)
    {
      hide Seal;
      var finSeq := Wrap32(s.seqNum + |s.payload|);
      if finSeq != recvSeq {
        response := PrepareAck();
        return;
      }
      recvSeq := Wrap32(recvSeq + 1);
      response := PrepareAck();
      state := next;
    }

    /** tcp_socket_receive_segment. */
    method ReceiveSegment(s: Segment, src: Ip, dst: Ip) returns (handled: bool, response: Option<Segment>)
      requires Valid()
      modifies Repr
      ensures Valid() && Outcome(handled, Value(), response) == Receive(old(Value()), s, src, dst)
    {
      hide OnListen, OnSynSent, OnSynReceived, OnEstablished, OnFinWait1, OnFinWait2, TcpWire.Valid;
      response := None;
      var intact := ValidateChecksum(s, src, dst);
      if !intact {
        return false, None;
      }
      match state {
        case Listen =>
          handled, response := InListen(s, src, dst);
          return;
        case SynSent =>
          handled, response := InSynSent(s);
          return;
        case SynReceived =>
          handled, response := InSynReceived(s);
          return;
        case Established =>
          handled, response := InEstablished(s);
          return;
        case FinWait1 =>
          handled, response := InFinWait1(s);
          return;
        case FinWait2 =>
          handled, response := InFinWait2(s);
          return;
        case Closing =>
          if HasAck(s.flags) && s.ackNum == sendSeq {
            sendAck := s.ackNum;
            state := TimeWait;
            return true, None;
          }
        case LastAck =>
          if HasAck(s.flags) && s.ackNum == sendSeq {
            Free();
            return true, None;
          }
        case TimeWait =>
          return true, None;
        case Closed =>
        case CloseWait =>
      }
      handled := false;
    }

    method InListen(s: Segment, src: Ip, dst: Ip) returns (handled: bool, response: Option<Segment>)
      requires Valid()
      modifies this
      ensures Valid() && Outcome(handled, Value(), response) == OnListen(old(Value()), s, src, dst)
    {
      hide Seal;
      if HasSyn(s.flags) && !(HasAck(s.flags) || HasFin(s.flags) || HasRst(s.flags)) {
        recvSeq := Wrap32(s.seqNum + 1);
        sendSeq := 2000 + s.srcPort as int;
        state := SynReceived;
        return true, Some(Seal(Make(s.dstPort, s.srcPort, sendSeq, recvSeq, SYN_ACK, []), dst, src));
      }
      return false, None;
    }

    method InSynSent(s: Segment) returns (handled: bool, response: Option<Segment>)
      requires Valid()
      modifies this
      ensures Valid() && Outcome(handled, Value(), response) == OnSynSent(old(Value()), s)
    {
      hide TcpSpec.PrepareAck, PrepareAck;
      if HasSyn(s.flags) && HasAck(s.flags) && !(HasFin(s.flags) || HasRst(s.flags)) &&
         s.ackNum == Wrap32(sendSeq + 1) {
        recvSeq := Wrap32(s.seqNum + 1);
        sendAck := s.ackNum;
        sendSeq := sendAck;
        state := Established;
        return true, Some(PrepareAck());
      }
      return false, None;
    }

    method InSynReceived(s: Segment) returns (handled: bool, response: Option<Segment>)
      requires Valid()
      modifies Repr
      ensures Valid() && Outcome(handled, Value(), response) == OnSynReceived(old(Value()), s)
    {
      hide TcpSpec.PrepareAck, PrepareAck, Count, TcpSpec.StoreAt, Wrap32, Empty;
      if HasAck(s.flags) && !(HasSyn(s.flags) || HasFin(s.flags) || HasRst(s.flags)) &&
         s.ackNum == Wrap32(sendSeq + 1) && s.seqNum == recvSeq {
        sendAck := s.ackNum;
        sendSeq := s.ackNum;
        state := Established;
        response := None;
        if |s.payload| > 0 {
          var _ := BufferPayload(s.seqNum, s.payload);
          response := Some(PrepareAck());
        }
        return true, response;
      }
      return false, None;
    }

    method InFinWait2(s: Segment) returns (handled: bool, response: Option<Segment>)
      requires Valid()
      modifies Repr
      ensures Valid() && Outcome(handled, Value(), response) == OnFinWait2(old(Value()), s)
    {
      hide TcpSpec.PrepareAck, PrepareAck, Count, TcpSpec.StoreAt, Wrap32, Empty;
      var hasPayload := |s.payload| > 0;
      if hasPayload {
        var _ := BufferPayload(s.seqNum, s.payload);
      }
      if HasFin(s.flags) {
        var r := ConsumeFin(s, TimeWait);
        return true, Some(r);
      }
      if hasPayload {
        return true, Some(PrepareAck());
      }
      return false, None;
    }

    method InEstablished(s: Segment) returns (handled: bool, response: Option<Segment>)
      requires Valid()
      modifies Repr
      ensures Valid() && Outcome(handled, Value(), response) == OnEstablished(old(Value()), s)
    {
      hide TcpSpec.PrepareAck, PrepareAck;
      var hasPayload := |s.payload| > 0;
      if HasAck(s.flags) {
        AcknowledgeData(s.ackNum);
      }
      if hasPayload {
        var _ := BufferPayload(s.seqNum, s.payload);
      }
      if HasFin(s.flags) {
        var r := ConsumeFin(s, CloseWait);
        return true, Some(r);
      }
      if hasPayload {
        return true, Some(PrepareAck());
      }
      return HasAck(s.flags), None;
    }

    method InFinWait1(s: Segment) returns (handled: bool, response: Option<Segment>)
      requires Valid()
      modifies Repr
      ensures Valid() && Outcome(handled, Value(), response) == OnFinWait1(old(Value()), s)
    {
      hide TcpSpec.PrepareAck, PrepareAck, Count, TcpSpec.StoreAt, Wrap32, Empty;
      var hasPayload := |s.payload| > 0;
      var finAcked := HasAck(s.flags) && s.ackNum == sendSeq;
      response := None;
      if hasPayload {
        var _ := BufferPayload(s.seqNum, s.payload);
      }
      if HasFin(s.flags) {
        var r := ConsumeFin(s, if finAcked then TimeWait else Closing);
        return true, Some(r);
      }
      if hasPayload {
        response := Some(PrepareAck());
      }
      if finAcked {
        sendAck := s.ackNum;
        state := FinWait2;
        return true, response;
      }
      return hasPayload, response;
    }

    /** tcp_socket_send. */
    method Buffer(data: seq<byte>) returns (ok: bool)
      requires Valid()
      modifies this, sendData
      ensures Valid()
      ensures ok == (|data| > 0 && old(state) == Established && old(sendSize) + |data| <= BUFFER_SIZE)
      ensures var t := old(Value());
              Value() == if ok then t.(sendBuf := t.sendBuf + data,
                                       startSeq := if |t.sendBuf| == 0 then t.sendSeq else t.startSeq)
                         else t
    {
      if |data| == 0 || state != Established || sendSize + |data| > BUFFER_SIZE {
        return false;
      }
      if sendSize == 0 {
        startSeq := sendSeq;
      }
      forall i | 0 <= i < |data| {
        sendData[sendSize + i] := data[i];
      }
      sendSize := sendSize + |data|;
      sendBuf := sendBuf + data;
      ok := true;
    }

    /** The TCP branch of magi_send: the segment handed to the network, or None for a refusal. */
    method SendData(data: seq<byte>) returns (sent: Option<Segment>)
      requires Valid()
      modifies this, sendData
      ensures Valid()
      ensures match TcpSpec.SendData(old(Value()), data)
              case None => sent == None && Value() == old(Value())
              case Some((t, segment)) => sent == Some(segment) && Value() == t
    {
      hide Seal;
      if |data| == 0 || |data| > MAX_PAYLOAD {
        return None;
      }
      var buffered := Buffer(data);
      if !buffered {
        return None;
      }
      sent := Some(Seal(Make(localPort, remotePort, sendSeq, recvSeq, PSH_ACK, data), localIp, remoteIp));
      sendSeq := Wrap32(sendSeq + |data|);
    }

    /** tcp_socket_recv. */
    method RecvData(maxLen: nat) returns (out: seq<byte>)
      requires Valid()
      modifies this, recvData
      ensures Valid() && (out, Value()) == TcpSpec.RecvData(old(Value()), maxLen)
    {
      if maxLen == 0 || !hasData || recvSize == 0 {
        return [];
      }
      var copyLen := if recvSize < maxLen then recvSize else maxLen;
      out := recvData[..copyLen];
      assert out == recvBuf[..copyLen];
      forall i | 0 <= i < recvSize - copyLen {
        recvData[i] := recvData[copyLen + i];
      }
      recvSize := recvSize - copyLen;
      hasData := recvSize > 0;
      recvBuf := recvBuf[copyLen..];
    }

    /** tcp_socket_connect and the SYN built by magi_connect. */
    method Connect(ip: Ip, srcPort: u16, peerIp: Ip, dstPort: u16) returns (syn: Segment)
      requires Valid()
      modifies this
      ensures Valid() && (Value(), syn) == TcpSpec.Connect(old(Value()), ip, srcPort, peerIp, dstPort)
    {
      hide Seal;
      SetStatus(inUse, SynSent, isListening);
      SetAddresses(ip, srcPort, peerIp, dstPort);
      SetSequence(1000, 0, 0);
      syn := Seal(Make(srcPort, dstPort, sendSeq, 0, SYN, []), ip, peerIp);
    }

    /** The TCP branch of magi_close, with the state change of tcp_socket_close. */
    method CloseSocket() returns (fin: Option<Segment>)
      requires Valid()
      modifies this, pendingValid
      ensures Valid() && (Value(), fin) == TcpSpec.CloseSocket(old(Value()))
    {
      hide Seal;
      if state != Established && state != CloseWait {
        if state == Closed || state == Listen || state == SynSent || state == SynReceived {
          Free();
        }
        return None;
      }
      fin := Some(Seal(Make(localPort, remotePort, sendSeq, recvSeq, FIN_ACK, []), localIp, remoteIp));
      state := if state == Established then FinWait1 else LastAck;
      sendSeq := Wrap32(sendSeq + 1);
    }
  }

  /** The scan stops where the specification's run ends. */
  lemma ReadyIs(slots: seq<Option<byte>>, n: nat)
    requires n <= |slots| && (forall i :: 0 <= i < n ==> slots[i].Some?) && (n < |slots| ==> slots[n].None?)
    ensures Ready(slots) == n
  {
  }
}
