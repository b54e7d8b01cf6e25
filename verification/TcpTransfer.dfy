/** Progress of one TCP connection: what an answer does for the sender, and a whole life of a connection in
    which everything written is read and both sides close. */
module TcpTransfer {
  import opened Base
  import opened TcpWire
  import opened TcpSpec
  import opened TcpReassembly
  import opened TcpRun
  import opened TcpAnswers

  // ---------------------------------------------------------------- one answer

  lemma AnswerOf(p: Party, q: Party, m: Segment)
    requires Local(p, q) && Local(q, p) && Legit(p, q, m) && q.tcb.inUse
    requires q.tcb.state in {Established, FinWait1, FinWait2} && (|m.payload| > 0 || HasFin(m.flags))
    ensures var (q1, answers) := Perform(q, p, Action.Arrive(m));
            var o := Receive(q.tcb, m, p.ip, q.ip);
            && o.response.Some? && answers == {o.response.value} && q1 == With(q, o.tcb) && o.tcb.inUse
            && SentBy(o.response.value, o.tcb, 0x10, []) && Legit(q1, p, o.response.value)
            && Local(q1, p) && Local(p, q1) && Grows(q, q1) && q1.tcb == o.tcb
  {
    hide Local, Grows, Receive, SentBy, Valid, CutFrom;
    assert Valid(m, p.ip, q.ip);
    hide Legit;
    AnswersExactly(q.tcb, m, p.ip, q.ip);
    MovesExactly(q.tcb, m, p.ip, q.ip);
    var o := Receive(q.tcb, m, p.ip, q.ip);
    assert o.tcb.inUse by { StillInUse(q.tcb, m, o.tcb); }
    ArrivalSound(q, p, m);
    PeerUnmoved(q, With(q, o.tcb), p);
  }

  lemma StillInUse(t: Tcb, s: Segment, r: Tcb)
    requires MovedBy(t, s, r) && t.inUse && t.state in {Established, FinWait1, FinWait2}
    ensures r.inUse
  {
    hide Offer, HasAck, HasFin, AcknowledgeData;
    assert r.state != Closed;
  }

  /** Whatever data the peer gets, old or new, taken or refused, its answer tells what it has: once the
      answer arrives, the send buffer is exactly what the peer has not received. */
  lemma AnswerAcknowledges(p: Party, q: Party, m: Segment) returns (a: Segment)
    requires Local(p, q) && Local(q, p) && Legit(p, q, m) && |m.payload| > 0
    requires p.tcb.inUse && p.tcb.state == Established
    requires q.tcb.inUse && q.tcb.state in {Established, FinWait1, FinWait2}
    ensures var (q1, answers) := Perform(q, p, Action.Arrive(m));
            var p1 := Perform(p, q1, Action.Arrive(a)).0;
            && answers == {a} && a.flags == 0x10 && a.payload == [] && a.seqNum == q1.tcb.sendSeq
            && a.ackNum == q1.tcb.rx.recvSeq && Valid(a, q.ip, p.ip)
            && p1.tcb.sendAck == B(p) + |q1.got| && p.sent == q1.got + p1.tcb.sendBuf
            && p1 == p.(tcb := p1.tcb) && p1.tcb.state == Established && p1.tcb.inUse && p1.tcb.rx == p.tcb.rx
            && Perform(p, q1, Action.Arrive(a)).1 == {} && Local(p1, q1) && Local(q1, p1)
  {
    hide Local, Legit, Grows, Receive, SentBy, Perform, AcknowledgeData;
    AnswerOf(p, q, m);
    var q1 := Perform(q, p, Action.Arrive(m)).0;
    a := Receive(q.tcb, m, p.ip, q.ip).response.value;
    TakesAnswer(p, q1, a);
    assert a.flags == 0x10 && a.payload == [] && a.seqNum == q1.tcb.sendSeq && a.ackNum == q1.tcb.rx.recvSeq by {
      SentFields(a, q1.tcb);
    }
    assert Valid(a, q.ip, p.ip) by { LegitIsValid(q1, p, a); }
    AckKeepsState(p.tcb, a.ackNum);
  }

  lemma SentFields(m: Segment, t: Tcb)
    requires SentBy(m, t, 0x10, [])
    ensures m.flags == 0x10 && m.payload == [] && m.seqNum == t.sendSeq && m.ackNum == t.rx.recvSeq
  {
    hide Valid;
  }

  lemma LegitIsValid(p: Party, q: Party, m: Segment)
    requires Legit(p, q, m)
    ensures Valid(m, p.ip, q.ip)
  {
    hide Valid;
  }

  /** A bare acknowledgement of all that q has arrives at p. */
  lemma TakesAnswer(p: Party, q: Party, a: Segment)
    requires Local(p, q) && Local(q, p) && Legit(q, p, a) && p.tcb.inUse && p.tcb.state == Established
    requires SentBy(a, q.tcb, 0x10, []) && q.tcb.inUse
    ensures var (p1, answers) := Perform(p, q, Action.Arrive(a));
            && answers == {} && p1.tcb.sendAck == B(p) + |q.got| && p.sent == q.got + p1.tcb.sendBuf
            && p1 == p.(tcb := p1.tcb) && p1.tcb == AcknowledgeData(p.tcb, a.ackNum)
            && Local(p1, q) && Local(q, p1)
  {
    assert a.ackNum == B(p) + |q.got| by { AcksReceived(p, q); }
    assert p.tcb.sendAck <= a.ackNum by { AcksReceived(p, q); }
    assert Receive(p.tcb, a, q.ip, p.ip) == Outcome(true, AcknowledgeData(p.tcb, a.ackNum), None) by {
      hide Local, AcknowledgeData, Fits;
      PlainArrives(p.tcb, a, q.ip, p.ip);
    }
    hide SentBy, Receive, Legit, Grows;
    AckClauseHere(p, q, a);
  }

  lemma AckClauseHere(p: Party, q: Party, a: Segment)
    requires Local(p, q) && Local(q, p) && Legit(q, p, a) && p.tcb.inUse && p.tcb.state == Established
    requires a.ackNum == B(p) + |q.got| >= p.tcb.sendAck && HasAck(a.flags)
    ensures var p1 := With(p, AcknowledgeData(p.tcb, a.ackNum));
            && p1.tcb.sendAck == B(p) + |q.got| && p.sent == q.got + p1.tcb.sendBuf && p1 == p.(tcb := p1.tcb)
            && p1.tcb == AcknowledgeData(p.tcb, a.ackNum) && Local(p1, q) && Local(q, p1)
  {
    var p1 := With(p, AcknowledgeData(p.tcb, a.ackNum));
    AckTcb(p, p.tcb, a.ackNum);
    GotIsSent(p, q);
    assert Local(p1, q) && Grows(p, p1) && p1 == p.(tcb := p1.tcb) && p1.tcb.sendAck == a.ackNum by {
      hide Local, Legit, With, AcknowledgeData, Grows;
      AckClause(p, q, a);
    }
    assert p1.tcb.state == Established && p1.tcb.inUse by { AckKeepsState(p.tcb, a.ackNum); }
    assert p1.sent == q.got + p1.tcb.sendBuf by {
      hide With, AcknowledgeData, Legit;
      UnackedRest(p1, q);
    }
    hide Local, Legit, With, AcknowledgeData;
    PeerUnmoved(p, p1, q);
  }

  lemma UnackedRest(p: Party, q: Party)
    requires Local(p, q) && p.tcb.inUse && p.tcb.state == Established
    requires p.tcb.sendAck == B(p) + |q.got| && q.got <= p.sent
    ensures p.sent == q.got + p.tcb.sendBuf
  {
    hide Life, Received;
  }

  lemma GotIsSent(p: Party, q: Party)
    requires Local(q, p)
    ensures q.got <= p.sent
  {
    hide Life, Sending, SlotsHold;
  }

  lemma AcksReceived(p: Party, q: Party)
    requires Local(p, q) && Local(q, p) && p.tcb.inUse && p.tcb.state == Established && q.tcb.inUse
    ensures q.synced && q.tcb.rx.recvSeq == B(p) + |q.got| && p.tcb.sendAck <= q.tcb.rx.recvSeq
  {
    hide Fits, SlotsHold, Unacked;
  }

  lemma PlainArrives(t: Tcb, a: Segment, src: Ip, dst: Ip)
    requires t.state == Established && a.flags == 0x10 && a.payload == [] && Valid(a, src, dst)
    ensures Receive(t, a, src, dst) == Outcome(true, AcknowledgeData(t, a.ackNum), None)
  {
    hide Valid, AcknowledgeData;
    EmptyOffer(AcknowledgeData(t, a.ackNum).rx, a.seqNum, a.payload);
  }

  // ---------------------------------------------------------------- data that is next in order

  lemma {:induction false} CountFront(slots: seq<Option<byte>>, n: nat)
    requires n <= |slots| && forall i :: 0 <= i < |slots| ==> (slots[i].Some? <==> i < n)
    ensures Count(slots) == n
  {
    if |slots| > 0 {
      CountFront(slots[..|slots| - 1], if n == |slots| then n - 1 else n);
    }
  }

  /** The rest of the stream, if there is room for it, becomes readable at once. */
  lemma RestIsStored(rx: Reassembly, base: nat, stream: seq<byte>, pos: nat, seqNum: u32, payload: seq<byte>)
    requires Consistent(rx, base, stream, pos) && Fits(base, stream) && |payload| > 0
    requires stream == stream[..pos] + payload && seqNum == base + pos && |rx.data| + |payload| <= BUFFER_SIZE
    ensures var after := Offer(rx, seqNum, payload).1;
            && after.data == rx.data + payload && after.recvSeq == base + |stream|
            && Offer(rx, seqNum, payload).0 == Stored
  {
    hide Offer, StoreAt, Shift, Count, Ready;
    assert stream[pos..] == payload && payload[0..] == payload;
    Trimmed(rx, base, stream, pos, seqNum, payload);
    var merged := Merge(rx.slots, 0, payload);
    assert forall i :: 0 <= i < |merged| ==> (merged[i].Some? <==> i < |payload|);
    CountFront(merged, |payload|);
    RefusedIff(rx, base, stream, pos, seqNum, payload);
    var next := StoreKeeps(rx, base, stream, pos, 0, payload);
    assert Ready(merged) >= |payload|;
    assert stream[pos..next] == payload;
  }

  /** The segment that carries all that q has not received. */
  ghost predicate CarriesRest(p: Party, q: Party, m: Segment) {
    && Legit(p, q, m) && |m.payload| > 0 && p.sent == q.got + m.payload && m.seqNum == B(p) + |q.got|
    && !HasFin(m.flags)
  }

  /** It is received whole, if there is room: the stream is complete and readable at q. */
  lemma RestArrives(p: Party, q: Party, m: Segment)
    requires Local(p, q) && Local(q, p) && CarriesRest(p, q, m) && |q.tcb.rx.data| + |m.payload| <= BUFFER_SIZE
    requires q.tcb.inUse && q.tcb.state in {Established, FinWait1, FinWait2}
    ensures var q1 := Perform(q, p, Action.Arrive(m)).0;
            && q1.got == p.sent && q1.tcb.rx.data == q.tcb.rx.data + m.payload && q1.read == q.read
            && q1.sent == q.sent && (q.tcb.state != FinWait1 ==> q1.tcb.state == q.tcb.state)
            && |q1.tcb.sendBuf| <= |q.tcb.sendBuf| && q1.tcb.inUse
  {
    assert Consistent(q.tcb.rx, B(p), p.sent, |q.got|) && Fits(B(p), p.sent) by { Ready4Data(q, p); }
    assert q.read + q.tcb.rx.data == q.got by { ReadyParts(q, p); }
    assert p.sent[..|q.got|] == q.got;
    RestIsStored(q.tcb.rx, B(p), p.sent, |q.got|, m.seqNum, m.payload);
    AnswerOf(p, q, m);
    MovesExactly(q.tcb, m, p.ip, q.ip);
    hide Local, Legit, Grows, Receive, SentBy, Offer, Valid, Consistent, AcknowledgeData, Fits, HasFin, HasAck;
    assert Valid(m, p.ip, q.ip) by { LegitIsValid(p, q, m); }
    var q1 := Perform(q, p, Action.Arrive(m)).0;
    AcknowledgeShrinks(q.tcb, m.ackNum);
    assert q1.tcb.rx.data == q.tcb.rx.data + m.payload;
    assert q1.got == q1.read + q1.tcb.rx.data;
    assert q.read + (q.tcb.rx.data + m.payload) == (q.read + q.tcb.rx.data) + m.payload;
  }

  lemma AcknowledgeShrinks(t: Tcb, ackNum: u32)
    ensures |AcknowledgeData(t, ackNum).sendBuf| <= |t.sendBuf|
  {
  }

  // ---------------------------------------------------------------- a FIN and its acknowledgement

  lemma FinGoesOut(p: Party, q: Party) returns (fin: Segment)
    requires Local(p, q) && p.tcb.state in {Established, CloseWait}
    ensures var (p1, out) := Perform(p, q, Shut);
            && out == {fin} && SentBy(fin, p.tcb, 0x11, []) && fin.seqNum == B(p) + |p.sent|
            && p1 == p.(tcb := p1.tcb, finSent := true) && p1.tcb.inUse && p1.tcb.rx == p.tcb.rx
            && p1.tcb.state == (if p.tcb.state == Established then FinWait1 else LastAck)
            && p1.tcb.sendSeq == B(p) + |p.sent| + 1 && p.tcb.inUse
  {
    ShutShape(p, q);
    ClosesExactly(p.tcb);
    hide Local, SentBy, CloseSocket, Wrap32, With;
    fin := CloseSocket(p.tcb).1.value;
    assert fin.seqNum == p.tcb.sendSeq by { SentNumber(fin, p.tcb, 0x11); }
  }

  lemma SentNumber(m: Segment, t: Tcb, flags: byte)
    requires SentBy(m, t, flags, [])
    ensures m.seqNum == t.sendSeq && m.ackNum == t.rx.recvSeq && m.flags == flags && m.payload == []
  {
    hide Valid;
  }

  lemma FinTaken(t: Tcb, fin: Segment, src: Ip, dst: Ip)
    requires t.state in {Established, FinWait1, FinWait2} && Valid(fin, src, dst)
    requires fin.flags == 0x11 && fin.payload == [] && fin.seqNum == t.rx.recvSeq < 0xFFFF_FFFF
    ensures var r := Receive(t, fin, src, dst).tcb;
            && r.rx == t.rx.(recvSeq := t.rx.recvSeq + 1) && r.sendSeq == t.sendSeq && r.inUse == t.inUse
            && |r.sendBuf| <= |t.sendBuf|
            && r.state == (if t.state == Established then CloseWait
                           else if t.state == FinWait1 && fin.ackNum != t.sendSeq then Closing
                           else TimeWait)
  {
    hide Receive, Offer, Valid, AcknowledgeData, HasSyn, HasRst;
    MovesExactly(t, fin, src, dst);
    EmptyOffer(t.rx, fin.seqNum, fin.payload);
    AcknowledgeShrinks(t, fin.ackNum);
    assert FinIsDue(t, fin) && HasAck(fin.flags);
    hide FinIsDue, HasFin, HasAck;
  }

  /** A FIN behind everything received is taken and acknowledged. */
  lemma FinArrives(p: Party, q: Party, fin: Segment) returns (a: Segment)
    requires Local(p, q) && Local(q, p) && Legit(p, q, fin) && fin.flags == 0x11 && fin.payload == []
    requires fin.seqNum == B(p) + |p.sent| && q.got == p.sent && !q.finGot
    requires q.tcb.inUse && q.tcb.state in {Established, FinWait1, FinWait2}
    ensures var (q1, answers) := Perform(q, p, Action.Arrive(fin));
            && answers == {a} && SentBy(a, q1.tcb, 0x10, []) && Legit(q1, p, a) && q1.tcb.inUse
            && q1 == q.(tcb := q1.tcb, finGot := true) && q1.tcb.rx == q.tcb.rx.(recvSeq := B(p) + |p.sent| + 1)
            && q1.tcb.sendSeq == q.tcb.sendSeq && |q1.tcb.sendBuf| <= |q.tcb.sendBuf|
            && q1.tcb.state == (if q.tcb.state == Established then CloseWait
                                else if q.tcb.state == FinWait1 && fin.ackNum != q.tcb.sendSeq then Closing
                                else TimeWait)
            && Local(q1, p) && Local(p, q1)
  {
    assert q.tcb.rx.recvSeq == B(p) + |p.sent| && B(p) + |p.sent| + 1 < 0x1_0000_0000 by {
      RcvNumber(p, q);
    }
    assert q.read + q.tcb.rx.data == q.got by { ReadyParts(q, p); }
    assert Valid(fin, p.ip, q.ip) by { LegitIsValid(p, q, fin); }
    assert With(q, q.tcb) == q by { LocalIsSettled(q, p); }
    AnswerOf(p, q, fin);
    FinTaken(q.tcb, fin, p.ip, q.ip);
    hide Local, Legit, Grows, Receive, SentBy, Valid, Fits;
    a := Receive(q.tcb, fin, p.ip, q.ip).response.value;
  }

  lemma RcvNumber(p: Party, q: Party)
    requires Local(p, q) && Local(q, p) && q.tcb.inUse && q.tcb.state in {Established, FinWait1, FinWait2}
    ensures q.tcb.rx.recvSeq == RcvNxt(p, q) && Fits(B(p), p.sent)
  {
    hide Fits, SlotsHold, Unacked;
  }
}
