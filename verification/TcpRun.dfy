/** One TCP connection: two endpoints and a network that may lose, duplicate, delay and reorder
    segments, over all runs. Every segment ever sent stays in the network, and any of them may be
    delivered at any time, any number of times or never. */
module TcpRun {
  import opened Base
  import opened TcpWire
  import opened TcpSpec
  import opened TcpReassembly

  /** An endpoint: its socket, and the history the theorems are about. sent and finSent record what the
      application wrote and closed, got and finGot what arrived in order, read what was handed out. */
  datatype Party = Party(
    ip: Ip, port: u16, iss: u32, tcb: Tcb, began: bool, synced: bool,
    sent: seq<byte>, finSent: bool, got: seq<byte>, finGot: bool, read: seq<byte>)

  datatype Action = Open | Push(data: seq<byte>) | Take(maxLen: nat) | Shut | Drop | Arrive(m: Segment)

  /** The endpoint after its socket became t. A released socket leaves the history as it was. */
  function With(p: Party, t: Tcb): Party {
    if !t.inUse then p.(tcb := t) else
    p.(tcb := t, began := t.state !in {Closed, Listen}, synced := t.state !in {Closed, Listen, SynSent},
       finSent := t.state in {FinWait1, FinWait2, Closing, TimeWait, LastAck},
       got := p.read + t.rx.data, finGot := t.state in {CloseWait, LastAck, Closing, TimeWait})
  }

  /** A connect that is not answered in time is released, whatever arrived meanwhile. */
  predicate MayFail(p: Party) {
    p.tcb.state !in {Closed, Listen} && p.sent == [] && !p.finSent
  }

  predicate Enabled(p: Party, incoming: set<Segment>, a: Action) {
    match a
    case Open => p.tcb.inUse && p.tcb.state == Closed
    case Drop => p.tcb.state == TimeWait || MayFail(p)
    case Arrive(m) => m in incoming
    case Push(_) => true
    case Take(_) => true
    case Shut => true
  }

  /** One action of p towards q: the new p and the segments it puts on the network. Drop is the release
      of a failed connect or the reuse of a TIME_WAIT slot. */
  function Perform(p: Party, q: Party, a: Action): (Party, set<Segment>) {
    match a
    case Open =>
      var (t, syn) := Connect(p.tcb, p.ip, p.port, q.ip, q.port);
      (With(p, t), {syn})
    case Push(data) =>
      (match SendData(p.tcb, data)
       case None => (p, {})
       case Some((t, segment)) => (With(p, t).(sent := p.sent + data), {segment}))
    case Take(maxLen) =>
      var (bytes, t) := RecvData(p.tcb, maxLen);
      (With(p.(read := p.read + bytes), t), {})
    case Shut =>
      var (t, fin) := CloseSocket(p.tcb);
      (With(p, t), if fin.Some? then {fin.value} else {})
    case Drop => (With(p, ZEROED), {})
    case Arrive(m) =>
      var o := Receive(p.tcb, m, q.ip, p.ip);
      (With(p, o.tcb), if o.response.Some? then {o.response.value} else {})
  }

  // ---------------------------------------------------------------- the invariant

  function B(p: Party): nat { p.iss + 1 }

  /** The next sequence number q expects from p. */
  function RcvNxt(p: Party, q: Party): nat {
    B(p) + |q.got| + if q.finGot then 1 else 0
  }

  /** p has closed, and every byte and the FIN have arrived at q. */
  ghost predicate PeerHasAll(p: Party, q: Party) {
    p.finSent && q.finGot && q.got == p.sent
  }

  /** The history agrees with the connection state. */
  ghost predicate Life(p: Party, q: Party) {
    && (p.tcb.inUse ==> With(p, p.tcb) == p && p.tcb.hasData == (|p.tcb.rx.data| > 0))
    && (p.tcb.inUse && p.tcb.state != Closed ==>
          p.tcb.localIp == p.ip && p.tcb.localPort == p.port && p.tcb.remoteIp == q.ip && p.tcb.remotePort == q.port)
    && (p.synced ==> p.began) && (!p.synced ==> p.got == [] && p.sent == [] && !p.finSent && !p.finGot)
    && (!p.tcb.inUse ==> p.tcb == ZEROED)
    && (p.tcb.inUse && p.tcb.state == Closed ==> p.iss == 1000)
    && (p.tcb.inUse && p.tcb.state == Listen ==> p.iss == 2000 + q.port)
    && Fits(B(p), p.sent)
  }

  /** What may be on the network from p: its SYN, cuts of its stream, its FIN, and bare ACKs. */
  ghost predicate Legit(p: Party, q: Party, m: Segment) {
    && p.began && Valid(m, p.ip, q.ip)
    && (HasSyn(m.flags) ==> m.seqNum == p.iss && |m.payload| == 0 && !HasFin(m.flags))
    && (HasSyn(m.flags) ==> m.srcPort == p.port && m.dstPort == q.port)
    && (|m.payload| > 0 ==> CutFrom(B(p), p.sent, m.seqNum, m.payload))
    && (HasFin(m.flags) ==> p.finSent && m.seqNum + |m.payload| == B(p) + |p.sent|)
    && (HasAck(m.flags) ==> p.synced && B(q) <= m.ackNum <= RcvNxt(q, p))
  }

  /** What q has of p's stream: a prefix, all of it once the FIN is consumed, and slots that hold
      only later bytes of it. */
  ghost predicate Received(p: Party, q: Party) {
    && q.got <= p.sent && (q.finGot ==> p.finSent && q.got == p.sent) && (q.synced ==> p.began)
    && (q.tcb.inUse ==>
          && SlotsHold(q.tcb.rx.slots, p.sent, |q.got|)
          && (q.synced ==> q.tcb.rx.recvSeq == RcvNxt(p, q)))
  }

  /** The send buffer is the unacknowledged part of the stream and at most 4096 bytes. */
  ghost predicate Unacked(p: Party) {
    && B(p) <= p.tcb.sendAck <= B(p) + |p.sent|
    && p.tcb.sendBuf == p.sent[p.tcb.sendAck - B(p)..] && |p.tcb.sendBuf| <= BUFFER_SIZE
    && (|p.tcb.sendBuf| > 0 ==> p.tcb.startSeq == p.tcb.sendAck)
  }

  predicate Handshaking(s: TcpState) {
    s in {SynSent, SynReceived}
  }

  predicate Synchronized(s: TcpState) {
    s !in {Closed, Listen, SynSent, SynReceived}
  }

  ghost predicate Sending(p: Party, q: Party) {
    && (p.tcb.inUse && !Synchronized(p.tcb.state) ==> p.sent == [] && p.tcb.sendBuf == [])
    && (p.tcb.inUse && Handshaking(p.tcb.state) ==> p.tcb.sendSeq == p.iss)
    && (p.tcb.inUse && Synchronized(p.tcb.state) ==>
          && q.synced && p.tcb.sendSeq == B(p) + |p.sent| + (if p.finSent then 1 else 0)
          && B(p) <= p.tcb.sendAck <= RcvNxt(p, q)
          && (p.tcb.state !in {FinWait2, TimeWait} ==> Unacked(p))
          && (p.tcb.state in {FinWait2, TimeWait} ==> PeerHasAll(p, q)))
    && (!p.tcb.inUse && p.finSent ==> PeerHasAll(p, q)) && (!p.tcb.inUse && !p.finSent ==> p.sent == [])
  }

  ghost predicate Local(p: Party, q: Party) {
    Life(p, q) && Received(q, p) && Sending(p, q)
  }

  ghost predicate AllLegit(p: Party, q: Party, pq: set<Segment>) {
    forall m :: m in pq ==> Legit(p, q, m)
  }

  /** The invariant, symmetric in the two endpoints. */
  ghost predicate Inv(p: Party, q: Party, pq: set<Segment>, qp: set<Segment>) {
    Local(p, q) && Local(q, p) && AllLegit(p, q, pq) && AllLegit(q, p, qp)
  }

  // ---------------------------------------------------------------- one endpoint moves

  /** Histories only grow, and stop growing at the FIN. */
  ghost predicate Grows(p: Party, p': Party) {
    && p'.iss == p.iss && p'.port == p.port && p'.ip == p.ip
    && (p.began ==> p'.began) && (p.synced ==> p'.synced)
    && p.sent <= p'.sent && (p.finSent ==> p'.finSent && p'.sent == p.sent)
    && p.got <= p'.got && (p.finGot ==> p'.finGot && p'.got == p.got)
  }

  lemma LegitStays(p: Party, p': Party, q: Party, q': Party, m: Segment)
    requires Legit(p, q, m) && Grows(p, p') && Grows(q, q')
    ensures Legit(p', q', m)
  {
    hide Valid;
  }

  lemma LifeUnmoved(p: Party, p': Party, q: Party)
    requires Life(q, p) && Grows(p, p')
    ensures Life(q, p')
  {
    hide Fits, With, Empty;
  }

  lemma ReceivedUnmoved(p: Party, p': Party, q: Party)
    requires Received(p, q) && Grows(p, p')
    ensures Received(p', q)
  {
    hide SlotsHold;
    if q.tcb.inUse {
      SlotsHoldMore(q.tcb.rx.slots, p.sent, p'.sent, |q.got|);
    }
  }

  /** Slots that hold bytes of a stream still do when the stream has grown. */
  lemma SlotsHoldMore(slots: seq<Option<byte>>, stream: seq<byte>, longer: seq<byte>, pos: nat)
    requires SlotsHold(slots, stream, pos) && stream <= longer
    ensures SlotsHold(slots, longer, pos)
  {
  }

  lemma SendingUnmoved(p: Party, p': Party, q: Party)
    requires Sending(q, p) && Grows(p, p')
    ensures Sending(q, p')
  {
    hide Unacked;
  }

  /** What q knows about p survives p's growth. */
  lemma PeerUnmoved(p: Party, p': Party, q: Party)
    requires Local(q, p) && Grows(p, p')
    ensures Local(q, p')
  {
    hide Life, Received, Sending, Grows;
    LifeUnmoved(p, p', q);
    ReceivedUnmoved(p, p', q);
    SendingUnmoved(p, p', q);
  }

  lemma Moved(p: Party, q: Party, pq: set<Segment>, qp: set<Segment>, p': Party, emitted: set<Segment>)
    requires Inv(p, q, pq, qp) && Grows(p, p') && Local(p', q) && AllLegit(p', q, emitted)
    ensures Inv(p', q, pq + emitted, qp)
  {
    hide Local, Legit, Grows;
    PeerUnmoved(p, p', q);
    assert Grows(q, q) by { SelfGrows(q); }
    forall m | m in pq
      ensures Legit(p', q, m)
    {
      LegitStays(p, p', q, q, m);
    }
    forall m | m in qp
      ensures Legit(q, p', m)
    {
      LegitStays(q, q, p, p', m);
    }
  }

  lemma SelfGrows(p: Party)
    ensures Grows(p, p)
  {
  }

  lemma GrowsOn(a: Party, b: Party, c: Party)
    requires Grows(a, b) && Grows(b, c)
    ensures Grows(a, c)
  {
  }

  /** Nothing on the sending side differs. */
  predicate SameSending(p: Party, p': Party) {
    && p'.iss == p.iss && p'.sent == p.sent && p'.finSent == p.finSent && p'.tcb.inUse == p.tcb.inUse
    && p'.tcb.sendSeq == p.tcb.sendSeq && p'.tcb.sendAck == p.tcb.sendAck
    && p'.tcb.sendBuf == p.tcb.sendBuf && p'.tcb.startSeq == p.tcb.startSeq
  }

  lemma SameUnacked(p: Party, p': Party, q: Party)
    requires SameSending(p, p')
    ensures Unacked(p) == Unacked(p') && PeerHasAll(p, q) == PeerHasAll(p', q)
    ensures RcvNxt(p, q) == RcvNxt(p', q) && B(p) == B(p')
  {
  }

  /** A synchronized endpoint moves on; it may finish only once its peer has everything. */
  lemma SendingMovesOn(p: Party, p': Party, q: Party)
    requires Sending(p, q) && SameSending(p, p') && p.tcb.inUse
    requires Synchronized(p.tcb.state) && Synchronized(p'.tcb.state)
    requires p'.tcb.state in {FinWait2, TimeWait} ==> PeerHasAll(p, q)
    requires p.tcb.state in {FinWait2, TimeWait} ==> p'.tcb.state in {FinWait2, TimeWait}
    ensures Sending(p', q)
  {
    SameUnacked(p, p', q);
    hide Unacked, PeerHasAll, RcvNxt;
  }

  // ---------------------------------------------------------------- the clauses of SEGMENT ARRIVES

  /** tcp_acknowledge_data on a legitimate acknowledgement drops exactly the acknowledged prefix;
      the clamp to the buffer size is not taken. */
  lemma AckClause(p: Party, q: Party, m: Segment)
    requires Local(p, q) && Legit(q, p, m) && p.tcb.inUse && p.tcb.state == Established && HasAck(m.flags)
    requires Local(q, p)
    ensures var p' := With(p, AcknowledgeData(p.tcb, m.ackNum));
            && Local(p', q) && Grows(p, p') && p' == p.(tcb := p'.tcb) && p'.tcb.rx == p.tcb.rx
            && p'.tcb.sendAck == (if m.ackNum > p.tcb.sendAck then m.ackNum else p.tcb.sendAck)
            && (m.ackNum > p.tcb.sendAck ==> m.ackNum - p.tcb.sendAck <= |p.tcb.sendBuf|)
  {
    hide Valid, Consistent;
  }

  /** p with the readable bytes and slots of t, once next bytes of q's stream have arrived. */
  ghost predicate DataStep(p: Party, q: Party, t: Tcb, next: nat) {
    && Local(p, q) && p.tcb.inUse && p.tcb.state in {Established, FinWait1, FinWait2}
    && t == p.tcb.(rx := t.rx, hasData := |t.rx.data| > 0) && |p.got| <= next <= |q.sent|
    && p.read + t.rx.data == q.sent[..next] && Consistent(t.rx, B(q), q.sent, next)
  }

  lemma DataShape(p: Party, q: Party, t: Tcb, next: nat)
    requires DataStep(p, q, t, next)
    ensures With(p, t) == p.(tcb := t, got := q.sent[..next]) && p.synced && !p.finGot && p.got <= q.sent[..next]
  {
    hide Fits, Consistent, SlotsHold, Unacked, Sending, Empty;
    assert p.got <= q.sent;
  }

  lemma DataLife(p: Party, q: Party, t: Tcb, next: nat)
    requires DataStep(p, q, t, next)
    ensures Life(With(p, t), q)
  {
    DataShape(p, q, t, next);
    hide Fits, Consistent, SlotsHold, Received, Sending, Empty;
  }

  lemma DataReceived(p: Party, q: Party, t: Tcb, next: nat)
    requires DataStep(p, q, t, next)
    ensures Received(q, With(p, t))
  {
    DataShape(p, q, t, next);
    hide Fits, SlotsHold, Life, Sending, With, Empty;
  }

  lemma DataArrives(p: Party, q: Party, t: Tcb, next: nat)
    requires DataStep(p, q, t, next)
    ensures Local(With(p, t), q) && Grows(p, With(p, t)) && With(p, t) == p.(tcb := t, got := q.sent[..next])
  {
    DataShape(p, q, t, next);
    DataLife(p, q, t, next);
    DataReceived(p, q, t, next);
    assert Sending(With(p, t), q) by {
      FinishedHasAll(p, q);
      hide Fits, Consistent, SlotsHold, Life, Received, With, Sending, Empty, PeerHasAll;
      SendingMovesOn(p, With(p, t), q);
    }
    hide Life, Received, Sending, With, Fits, Consistent;
  }

  lemma FinishedHasAll(p: Party, q: Party)
    requires Sending(p, q)
    ensures p.tcb.inUse && p.tcb.state in {FinWait2, TimeWait} ==> PeerHasAll(p, q)
  {
    hide Unacked, PeerHasAll;
  }

  lemma PayloadClause(p: Party, q: Party, m: Segment)
    requires Local(p, q) && Legit(q, p, m) && p.tcb.inUse && p.tcb.state in {Established, FinWait1, FinWait2}
    requires Fits(B(q), q.sent)
    ensures var p' := With(p, BufferPayload(p.tcb, m.seqNum, m.payload));
            Local(p', q) && Grows(p, p') && p' == p.(tcb := p'.tcb, got := p'.got)
            && p'.tcb == p.tcb.(rx := p'.tcb.rx, hasData := p'.tcb.hasData)
  {
    hide Offer, Valid, Local, With, Fits, Consistent, CutFrom, Legit, Grows;
    var t := p.tcb;
    ReadyParts(p, q);
    if |m.payload| > 0 {
      CutOf(p, q, m);
      var next := PayloadStep(p, q, m);
      DataArrives(p, q, BufferPayload(t, m.seqNum, m.payload), next);
    } else {
      EmptyOffer(t.rx, m.seqNum, m.payload);
      assert BufferPayload(t, m.seqNum, m.payload) == t;
      SelfGrows(p);
    }
  }

  lemma CutOf(p: Party, q: Party, m: Segment)
    requires Legit(q, p, m) && |m.payload| > 0
    ensures CutFrom(B(q), q.sent, m.seqNum, m.payload)
  {
    hide Valid, CutFrom;
  }

  lemma PayloadStep(p: Party, q: Party, m: Segment) returns (next: nat)
    requires Local(p, q) && p.tcb.inUse && p.tcb.state in {Established, FinWait1, FinWait2}
    requires Fits(B(q), q.sent) && CutFrom(B(q), q.sent, m.seqNum, m.payload)
    ensures DataStep(p, q, BufferPayload(p.tcb, m.seqNum, m.payload), next)
  {
    hide Offer, Local, With, Fits, Consistent, CutFrom;
    var rx := p.tcb.rx;
    ReadyParts(p, q);
    next := OfferKeeps(rx, B(q), q.sent, |p.got|, m.seqNum, m.payload);
    var after := Offer(rx, m.seqNum, m.payload).1;
    assert p.read + after.data == q.sent[..next] by {
      assert p.read + (rx.data + q.sent[|p.got|..next]) == (p.read + rx.data) + q.sent[|p.got|..next];
      assert q.sent[..|p.got|] + q.sent[|p.got|..next] == q.sent[..next];
    }
    StoredHasData(rx, m.seqNum, m.payload);
  }

  lemma ReadyParts(p: Party, q: Party)
    requires Local(p, q) && p.tcb.inUse && p.tcb.state in {Established, FinWait1, FinWait2}
    ensures p.read + p.tcb.rx.data == p.got == q.sent[..|p.got|] && |p.got| <= |q.sent| && With(p, p.tcb) == p
    ensures Consistent(p.tcb.rx, B(q), q.sent, |p.got|) && p.tcb.hasData == (|p.tcb.rx.data| > 0)
  {
    hide SlotsHold, Fits, Sending, Empty;
    assert p.got <= q.sent;
  }

  lemma EmptyOffer(rx: Reassembly, seqNum: u32, payload: seq<byte>)
    requires |payload| == 0
    ensures Offer(rx, seqNum, payload) == (Duplicate, rx)
  {
  }

  lemma StoredHasData(rx: Reassembly, seqNum: u32, payload: seq<byte>)
    ensures Offer(rx, seqNum, payload).0 != Stored ==> Offer(rx, seqNum, payload).1 == rx
  {
    hide Merge, Ready, Shift, Bytes, Count;
  }

  /** A FIN at the next expected sequence number means that nothing before it is missing. */
  lemma FinMeansAll(p: Party, q: Party, m: Segment)
    requires Received(q, p) && Legit(q, p, m) && p.tcb.inUse && HasFin(m.flags) && p.synced && !p.finGot
    requires FinSeq(m) == p.tcb.rx.recvSeq && Fits(B(q), q.sent)
    ensures p.got == q.sent && q.finSent && p.tcb.rx.recvSeq == B(q) + |q.sent|
  {
    hide Valid, CutFrom, SlotsHold;
  }

  predicate FinMoves(from: TcpState, to: TcpState) {
    (from, to) in {(Established, CloseWait), (FinWait1, TimeWait), (FinWait1, Closing), (FinWait2, TimeWait)}
  }

  /** p after it consumed the FIN and moved on. */
  function AfterFin(p: Party, next: TcpState): Party {
    With(p, p.tcb.(rx := p.tcb.rx.(recvSeq := Wrap32(p.tcb.rx.recvSeq + 1)), state := next))
  }

  ghost predicate FinIsNext(p: Party, q: Party, next: TcpState) {
    && Local(p, q) && p.tcb.inUse && FinMoves(p.tcb.state, next) && (next == TimeWait ==> PeerHasAll(p, q))
    && p.got == q.sent && q.finSent && p.tcb.rx.recvSeq == B(q) + |q.sent| && Fits(B(q), q.sent)
  }

  lemma AfterFinReceived(p: Party, q: Party, next: TcpState)
    requires FinIsNext(p, q, next)
    ensures var p' := AfterFin(p, next);
            Received(q, p') && Grows(p, p') && p'.finGot && p'.got == p.got && p'.finSent == p.finSent && p'.synced
  {
    hide SlotsHold, Wrap32, Unacked;
    SmallWrap(p.tcb.rx.recvSeq + 1);
    var p' := AfterFin(p, next);
    assert p'.got == p.got && p'.finGot && p'.synced && p'.finSent == p.finSent;
  }

  lemma SmallWrap(x: nat)
    requires x < 0x1_0000_0000
    ensures Wrap32(x) == x
  {
  }

  lemma AfterFinLife(p: Party, q: Party, next: TcpState)
    requires FinIsNext(p, q, next)
    ensures Life(AfterFin(p, next), q)
  {
    hide Fits, Received, Wrap32, Sending, PeerHasAll, Empty;
  }

  lemma AfterFinSending(p: Party, q: Party, next: TcpState)
    requires FinIsNext(p, q, next)
    requires var p' := AfterFin(p, next); p'.finSent == p.finSent && p'.got == p.got
    ensures Sending(AfterFin(p, next), q)
  {
    hide Fits, Received, Wrap32, Empty, Life, Sending, PeerHasAll;
    SendingMovesOn(p, AfterFin(p, next), q);
  }

  lemma TakesFin(p: Party, q: Party, next: TcpState)
    requires FinIsNext(p, q, next)
    ensures Local(AfterFin(p, next), q)
  {
    AfterFinReceived(p, q, next);
    AfterFinLife(p, q, next);
    AfterFinSending(p, q, next);
    hide Life, Received, Sending, FinIsNext, AfterFin;
  }

  /** The FIN clause: a FIN is consumed only when everything before it has arrived. */
  lemma FinClause(p: Party, q: Party, m: Segment, next: TcpState)
    requires Local(p, q) && Legit(q, p, m) && p.tcb.inUse && HasFin(m.flags)
    requires FinMoves(p.tcb.state, next) && Local(q, p)
    requires p.tcb.state == FinWait1 && next == TimeWait ==> AcksAll(p.tcb, m)
    ensures var p' := With(p, ConsumeFin(p.tcb, m, next).tcb);
            && Local(p', q) && Grows(p, p')
            && (p'.finGot ==> p.got == q.sent && q.finSent) && (!p'.finGot ==> p' == p)
  {
    hide Local, Legit, Grows, With, FinIsNext, PrepareAck, FinSeq, Wrap32, HasFin, AcksAll, FinMoves;
    if FinSeq(m) == p.tcb.rx.recvSeq {
      FinNext(p, q, m, next);
      AfterFinReceived(p, q, next);
      TakesFin(p, q, next);
    } else {
      NotYetFin(p, q, next);
      SelfGrows(p);
    }
  }

  lemma NotYetFin(p: Party, q: Party, next: TcpState)
    requires Local(p, q) && p.tcb.inUse && FinMoves(p.tcb.state, next)
    ensures !p.finGot && With(p, p.tcb) == p
  {
    hide Received, Sending, Empty;
  }

  lemma FinNext(p: Party, q: Party, m: Segment, next: TcpState)
    requires Local(p, q) && Legit(q, p, m) && p.tcb.inUse && HasFin(m.flags)
    requires FinMoves(p.tcb.state, next) && Local(q, p) && FinSeq(m) == p.tcb.rx.recvSeq
    requires p.tcb.state == FinWait1 && next == TimeWait ==> AcksAll(p.tcb, m)
    ensures FinIsNext(p, q, next) && p.got == q.sent && q.finSent
  {
    hide Legit, SlotsHold, Unacked;
    FinMeansAll(p, q, m);
    if p.tcb.state == FinWait1 && next == TimeWait {
      FinAckedClause(p, q, m);
    }
  }

  /** An acknowledgement of everything, FIN included, means the peer has everything. */
  lemma AckedAll(p: Party, q: Party, m: Segment)
    requires Sending(p, q) && Received(p, q) && Legit(q, p, m) && p.tcb.inUse && AcksAll(p.tcb, m)
    requires p.tcb.state in {FinWait1, Closing, LastAck} && p.finSent
    ensures PeerHasAll(p, q) && m.ackNum == RcvNxt(p, q)
  {
    hide Valid, CutFrom, SlotsHold, Unacked;
    assert q.got <= p.sent;
  }

  lemma FinAckedClause(p: Party, q: Party, m: Segment)
    requires Local(p, q) && Legit(q, p, m) && p.tcb.inUse && p.tcb.state in {FinWait1, Closing, LastAck}
    requires AcksAll(p.tcb, m) && Local(q, p)
    ensures PeerHasAll(p, q)
    ensures p.tcb.state == FinWait1 ==>
              var p' := With(p, p.tcb.(sendAck := m.ackNum, state := FinWait2)); Local(p', q) && Grows(p, p')
    ensures p.tcb.state == Closing ==>
              var p' := With(p, p.tcb.(sendAck := m.ackNum, state := TimeWait)); Local(p', q) && Grows(p, p')
    ensures p.tcb.state == LastAck ==> Local(With(p, ZEROED), q) && Grows(p, With(p, ZEROED))
  {
    assert p.finSent && PeerHasAll(p, q) && m.ackNum == RcvNxt(p, q) by { AckedAll(p, q, m); }
    hide Legit, SlotsHold, Fits, Unacked;
    SelfGrows(p);
    if p.tcb.state == FinWait1 {
      FinishedMove(p, q, m.ackNum, FinWait2);
    } else if p.tcb.state == Closing {
      FinishedMove(p, q, m.ackNum, TimeWait);
    }
  }

  lemma FinishedMove(p: Party, q: Party, ackNum: u32, next: TcpState)
    requires Local(p, q) && p.tcb.inUse && PeerHasAll(p, q) && ackNum == RcvNxt(p, q)
    requires (p.tcb.state, next) in {(FinWait1, FinWait2), (Closing, TimeWait)}
    ensures var p' := With(p, p.tcb.(sendAck := ackNum, state := next)); Local(p', q) && Grows(p, p')
  {
    hide SlotsHold, Fits, Unacked;
  }

  lemma ReplyIsLegit(p: Party, q: Party)
    requires Local(p, q) && p.tcb.inUse && p.synced
    ensures Legit(p, q, PrepareAck(p.tcb))
  {
    var t := p.tcb;
    SealedIsValid(Make(t.localPort, t.remotePort, t.sendSeq, t.rx.recvSeq, ACK, []), t.localIp, t.remoteIp);
    hide Valid, ChecksumOf, SlotsHold, Fits, CutFrom;
  }

  // ---------------------------------------------------------------- SEGMENT ARRIVES, state by state

  /** The outcome of one arrival keeps the invariant of p, and its reply may go on the network. */
  ghost predicate Sound(p: Party, q: Party, o: Outcome) {
    var p' := With(p, o.tcb);
    Local(p', q) && Grows(p, p') && (o.response.Some? ==> Legit(p', q, o.response.value))
  }

  lemma SoundAck(p: Party, q: Party, t: Tcb, handled: bool)
    requires var p' := With(p, t); Local(p', q) && Grows(p, p') && p'.synced && t.inUse
    ensures Sound(p, q, Outcome(handled, t, Some(PrepareAck(t)))) && Sound(p, q, Outcome(handled, t, None))
  {
    hide Local, Legit, Grows, PrepareAck;
    ReplyIsLegit(With(p, t), q);
  }

  lemma ListenSound(p: Party, q: Party, m: Segment)
    requires Local(p, q) && Local(q, p) && Legit(q, p, m) && p.tcb.inUse && p.tcb.state == Listen
    ensures Sound(p, q, OnListen(p.tcb, m, q.ip, p.ip))
  {
    var t := p.tcb;
    hide Seal, Valid;
    if HasSyn(m.flags) && !HasAck(m.flags) && !HasFin(m.flags) && !HasRst(m.flags) {
      SealedIsValid(Make(m.dstPort, m.srcPort, p.iss, B(q), SYN_ACK, []), p.ip, q.ip);
      SealKeeps(Make(m.dstPort, m.srcPort, p.iss, B(q), SYN_ACK, []), p.ip, q.ip);
    }
  }

  lemma SealKeeps(s: Segment, src: Ip, dst: Ip)
    ensures Seal(s, src, dst) == s.(checksum := Seal(s, src, dst).checksum)
  {
  }

  lemma SynSentSound(p: Party, q: Party, m: Segment)
    requires Local(p, q) && Local(q, p) && Legit(q, p, m) && p.tcb.inUse && p.tcb.state == SynSent
    ensures Sound(p, q, OnSynSent(p.tcb, m))
  {
    hide PrepareAck, Valid, SlotsHold, CutFrom;
    var o := OnSynSent(p.tcb, m);
    if o.handled {
      SoundAck(p, q, o.tcb, true);
    }
  }

  /** p with its SYN acknowledged. */
  function Acked(p: Party, ackNum: u32): Party {
    With(p, p.tcb.(sendAck := ackNum, sendSeq := ackNum, state := Established))
  }

  lemma SynAcked(p: Party, q: Party, m: Segment)
    requires Local(p, q) && Local(q, p) && Legit(q, p, m) && p.tcb.inUse && p.tcb.state == SynReceived
    requires HasAck(m.flags) && m.ackNum == Wrap32(p.tcb.sendSeq + 1)
    ensures var p1 := Acked(p, m.ackNum);
            && Local(p1, q) && Grows(p, p1) && Fits(B(q), q.sent) && p1 == With(p, p1.tcb) && p1.tcb.inUse
            && p1.tcb == p.tcb.(sendAck := m.ackNum, sendSeq := m.ackNum, state := Established)
  {
    hide Valid, SlotsHold, CutFrom, Wrap32, Fits, HasAck, HasSyn, HasFin;
    SynNumber(p, q, m);
    assert p.sent == [] && p.tcb.sendBuf == [];
  }

  lemma SynNumber(p: Party, q: Party, m: Segment)
    requires Local(p, q) && p.tcb.inUse && p.tcb.state == SynReceived && m.ackNum == Wrap32(p.tcb.sendSeq + 1)
    ensures m.ackNum == B(p)
  {
    hide SlotsHold, Unacked;
    SmallWrap(p.tcb.sendSeq + 1);
  }

  lemma SynReceivedSound(p: Party, q: Party, m: Segment)
    requires Local(p, q) && Local(q, p) && Legit(q, p, m) && p.tcb.inUse && p.tcb.state == SynReceived
    ensures Sound(p, q, OnSynReceived(p.tcb, m))
  {
    hide PrepareAck, Valid, Local, Legit, Grows, BufferPayload, With, Fits, HasAck, HasSyn, HasFin, Wrap32;
    if OnSynReceived(p.tcb, m).handled {
      SynAcked(p, q, m);
      PayloadSound(p, Acked(p, m.ackNum), q, m);
    } else {
      assert With(p, p.tcb) == p by { LocalIsSettled(p, q); }
      SelfGrows(p);
    }
  }

  /** From an intermediate p1 on: payload clause and acknowledgement. */
  lemma PayloadSound(p: Party, p1: Party, q: Party, m: Segment)
    requires Local(p1, q) && Grows(p, p1) && Legit(q, p, m) && p1.tcb.inUse && p1 == With(p, p1.tcb)
    requires p1.tcb.state in {Established, FinWait1, FinWait2} && Fits(B(q), q.sent)
    ensures var t2 := BufferPayload(p1.tcb, m.seqNum, m.payload); var p2 := With(p, t2);
            && p2 == With(p1, t2) && Local(p2, q) && Grows(p, p2) && Grows(p1, p2)
            && t2 == p1.tcb.(rx := t2.rx, hasData := t2.hasData) && Legit(q, p1, m) && Legit(q, p2, m)
            && Sound(p, q, Outcome(true, t2, Some(PrepareAck(t2)))) && Sound(p, q, Outcome(true, t2, None))
            && Sound(p, q, Outcome(false, t2, None))
  {
    hide PrepareAck, Local, Legit, Grows, BufferPayload, Fits;
    SelfGrows(q);
    LegitStays(q, q, p, p1, m);
    PayloadClause(p1, q, m);
    var t2 := BufferPayload(p1.tcb, m.seqNum, m.payload);
    var p2 := With(p1, t2);
    GrowsOn(p, p1, p2);
    LegitStays(q, q, p1, p2, m);
    SoundAck(p, q, t2, true);
    SoundAck(p, q, t2, false);
  }

  /** The tail of ESTABLISHED, FIN_WAIT_1 and FIN_WAIT_2: payload, then the FIN if there is one. */
  lemma FinSound(p: Party, p1: Party, q: Party, m: Segment, next: TcpState)
    requires Local(p1, q) && Grows(p, p1) && Local(q, p) && Legit(q, p, m) && p1.tcb.inUse && p1 == With(p, p1.tcb)
    requires FinMoves(p1.tcb.state, next) && Fits(B(q), q.sent) && HasFin(m.flags)
    requires p1.tcb.state == FinWait1 && next == TimeWait ==> AcksAll(p1.tcb, m)
    ensures Sound(p, q, ConsumeFin(BufferPayload(p1.tcb, m.seqNum, m.payload), m, next))
  {
    hide PrepareAck, Local, Legit, Grows, BufferPayload, Fits;
    PayloadSound(p, p1, q, m);
    var t2 := BufferPayload(p1.tcb, m.seqNum, m.payload);
    var p2 := With(p, t2);
    PeerUnmoved(p, p2, q);
    FinClause(p2, q, m, next);
    var o := ConsumeFin(t2, m, next);
    GrowsOn(p, p2, With(p2, o.tcb));
    SoundAck(p, q, o.tcb, true);
  }

  lemma EstablishedSound(p: Party, q: Party, m: Segment)
    requires Local(p, q) && Local(q, p) && Legit(q, p, m) && p.tcb.inUse && p.tcb.state == Established
    ensures Sound(p, q, OnEstablished(p.tcb, m))
  {
    hide PrepareAck, Local, Legit, Grows, BufferPayload, Fits, AcknowledgeData, Sound, With, HasAck, HasFin, ConsumeFin;
    StreamFits(p, q);
    LocalIsSettled(p, q);
    SelfGrows(p);
    var p1 := p;
    if HasAck(m.flags) {
      AckClause(p, q, m);
      p1 := With(p, AcknowledgeData(p.tcb, m.ackNum));
      AckKeepsState(p.tcb, m.ackNum);
      AckTcb(p, p.tcb, m.ackNum);
    }
    PayloadSound(p, p1, q, m);
    if HasFin(m.flags) {
      FinSound(p, p1, q, m, CloseWait);
    }
  }

  lemma StreamFits(p: Party, q: Party)
    requires Local(q, p)
    ensures Fits(B(q), q.sent)
  {
    hide Fits;
  }

  lemma AckTcb(p: Party, t: Tcb, ackNum: u32)
    ensures With(p, AcknowledgeData(t, ackNum)).tcb == AcknowledgeData(t, ackNum)
  {
    hide AcknowledgeData;
  }

  lemma AckKeepsState(t: Tcb, ackNum: u32)
    ensures var t1 := AcknowledgeData(t, ackNum); t1.state == t.state && t1.inUse == t.inUse && t1.rx == t.rx
  {
  }

  lemma FinWait1Sound(p: Party, q: Party, m: Segment)
    requires Local(p, q) && Local(q, p) && Legit(q, p, m) && p.tcb.inUse && p.tcb.state == FinWait1
    ensures Sound(p, q, OnFinWait1(p.tcb, m))
  {
    assert Fits(B(q), q.sent) && With(p, p.tcb) == p;
    hide PrepareAck, Local, Legit, Grows, BufferPayload, Fits;
    SelfGrows(p);
    PayloadSound(p, p, q, m);
    var t1 := BufferPayload(p.tcb, m.seqNum, m.payload);
    var p1 := With(p, t1);
    if HasFin(m.flags) {
      FinSound(p, p, q, m, if AcksAll(p.tcb, m) then TimeWait else Closing);
    } else if AcksAll(p.tcb, m) {
      PeerUnmoved(p, p1, q);
      FinAckedClause(p1, q, m);
      var t2 := t1.(sendAck := m.ackNum, state := FinWait2);
      GrowsOn(p, p1, With(p1, t2));
      SoundAck(p, q, t2, true);
      assert PrepareAck(t2) == PrepareAck(t1) by { AckSeesNoState(t1, t2); }
    }
  }

  lemma AckSeesNoState(t1: Tcb, t2: Tcb)
    requires t2 == t1.(sendAck := t2.sendAck, state := t2.state)
    ensures PrepareAck(t1) == PrepareAck(t2)
  {
    hide Seal;
  }

  lemma FinWait2Sound(p: Party, q: Party, m: Segment)
    requires Local(p, q) && Local(q, p) && Legit(q, p, m) && p.tcb.inUse && p.tcb.state == FinWait2
    ensures Sound(p, q, OnFinWait2(p.tcb, m))
  {
    assert Fits(B(q), q.sent) && With(p, p.tcb) == p;
    hide PrepareAck, Local, Legit, Grows, BufferPayload, Fits;
    SelfGrows(p);
    PayloadSound(p, p, q, m);
    if HasFin(m.flags) {
      FinSound(p, p, q, m, TimeWait);
    }
  }

  lemma ArrivalSound(p: Party, q: Party, m: Segment)
    requires Local(p, q) && Local(q, p) && Legit(q, p, m)
    ensures Sound(p, q, Receive(p.tcb, m, q.ip, p.ip))
  {
    hide OnListen, OnSynSent, OnSynReceived, OnEstablished, OnFinWait1, OnFinWait2, Valid, SlotsHold, CutFrom,
      PrepareAck;
    SelfGrows(p);
    match p.tcb.state {
      case Listen => if p.tcb.inUse { ListenSound(p, q, m); }
      case SynSent => if p.tcb.inUse { SynSentSound(p, q, m); }
      case SynReceived => if p.tcb.inUse { SynReceivedSound(p, q, m); }
      case Established => if p.tcb.inUse { EstablishedSound(p, q, m); }
      case FinWait1 => if p.tcb.inUse { FinWait1Sound(p, q, m); }
      case FinWait2 => if p.tcb.inUse { FinWait2Sound(p, q, m); }
      case Closing => if p.tcb.inUse && AcksAll(p.tcb, m) { FinAckedClause(p, q, m); }
      case LastAck => if p.tcb.inUse && AcksAll(p.tcb, m) { FinAckedClause(p, q, m); }
      case _ =>
    }
  }

  // ---------------------------------------------------------------- user calls

  /** One action keeps p's invariant, and what it sends may go on the network. */
  ghost predicate Keeps(p: Party, q: Party, a: Action) {
    var (p', emitted) := Perform(p, q, a);
    Fits(B(p), p'.sent) ==> Local(p', q) && Grows(p, p') && AllLegit(p', q, emitted)
  }

  lemma OpenKeeps(p: Party, q: Party)
    requires Local(p, q) && p.tcb.inUse && p.tcb.state == Closed
    ensures Keeps(p, q, Open)
  {
    var syn := Make(p.port, q.port, 1000, 0, SYN, []);
    SealKeeps(syn, p.ip, q.ip);
    SealedIsValid(syn, p.ip, q.ip);
    hide Seal, Valid;
  }

  lemma PushKeeps(p: Party, q: Party, data: seq<byte>)
    requires Local(p, q)
    ensures Keeps(p, q, Push(data))
  {
    hide Seal, Valid, SlotsHold, Wrap32;
    if SendData(p.tcb, data).None? {
      SelfGrows(p);
    } else if Fits(B(p), p.sent + data) {
      PushMoves(p, q, data);
      PushEmits(p, q, data);
    }
  }

  ghost predicate PushStep(p: Party, q: Party, data: seq<byte>) {
    Local(p, q) && SendData(p.tcb, data).Some? && Fits(B(p), p.sent + data)
  }

  lemma PushShape(p: Party, q: Party, data: seq<byte>)
    requires PushStep(p, q, data)
    ensures var p' := Perform(p, q, Push(data)).0; var t := p.tcb;
            && t.inUse && t.state == Established && t.sendSeq == B(p) + |p.sent|
            && p.synced && p.began && q.synced && !p.finSent
            && p' == p.(tcb := p'.tcb, sent := p.sent + data)
            && p'.tcb == t.(sendBuf := t.sendBuf + data, startSeq := if |t.sendBuf| == 0 then t.sendSeq else t.startSeq,
                            sendSeq := t.sendSeq + |data|)
            && |t.sendBuf| + |data| <= BUFFER_SIZE
  {
    hide Seal, SlotsHold, Wrap32, Received, Unacked, Empty;
    SmallWrap(p.tcb.sendSeq + |data|);
  }

  lemma PushLife(p: Party, q: Party, data: seq<byte>)
    requires PushStep(p, q, data)
    ensures Life(Perform(p, q, Push(data)).0, q)
  {
    PushShape(p, q, data);
    hide Perform, Received, Sending, Fits, Empty;
  }

  /** Bytes added to the stream and to the send buffer. */
  lemma UnackedGrows(p: Party, p': Party, data: seq<byte>)
    requires Unacked(p) && p'.iss == p.iss && p'.sent == p.sent + data && p'.tcb.sendAck == p.tcb.sendAck
    requires p'.tcb.sendBuf == p.tcb.sendBuf + data && |p'.tcb.sendBuf| <= BUFFER_SIZE
    requires p'.tcb.startSeq == if |p.tcb.sendBuf| == 0 then B(p) + |p.sent| else p.tcb.startSeq
    ensures Unacked(p')
  {
    var from := p.tcb.sendAck - B(p);
    assert p'.sent[from..] == p.sent[from..] + data;
  }

  lemma PushSending(p: Party, q: Party, data: seq<byte>)
    requires PushStep(p, q, data)
    ensures Sending(Perform(p, q, Push(data)).0, q)
  {
    PushShape(p, q, data);
    hide Perform, Received, Life, Fits, With, Empty, SendData, Unacked;
    UnackedGrows(p, Perform(p, q, Push(data)).0, data);
  }

  lemma PushMoves(p: Party, q: Party, data: seq<byte>)
    requires PushStep(p, q, data)
    ensures var p' := Perform(p, q, Push(data)).0;
            Local(p', q) && Grows(p, p') && p'.sent == p.sent + data && p'.tcb.rx == p.tcb.rx && p'.synced && p'.began
            && p.tcb.sendSeq == B(p) + |p.sent| && p'.finGot == p.finGot && p'.got == p.got && p.tcb.inUse
  {
    PushShape(p, q, data);
    PushLife(p, q, data);
    PushSending(p, q, data);
    hide Perform, Life, Sending, Fits, SendData, SlotsHold;
  }

  lemma PushEmits(p: Party, q: Party, data: seq<byte>)
    requires Local(p, q) && SendData(p.tcb, data).Some?
    requires var p' := Perform(p, q, Push(data)).0;
             && Local(p', q) && p'.sent == p.sent + data && p'.synced && p'.began
             && p'.finGot == p.finGot && p'.got == p.got
    requires p.tcb.sendSeq == B(p) + |p.sent| && p.tcb.inUse
    ensures AllLegit(Perform(p, q, Push(data)).0, q, Perform(p, q, Push(data)).1)
  {
    hide Seal, Valid, SlotsHold, Wrap32, Unacked, Fits;
    var t := p.tcb;
    var segment := Make(t.localPort, t.remotePort, t.sendSeq, t.rx.recvSeq, PSH_ACK, data);
    SealKeeps(segment, p.ip, q.ip);
    SealedIsValid(segment, p.ip, q.ip);
    assert (p.sent + data)[|p.sent|..] == data;
  }

  lemma TakeKeeps(p: Party, q: Party, maxLen: nat)
    requires Local(p, q)
    ensures Keeps(p, q, Take(maxLen))
  {
    SelfGrows(p);
    assert p.read + [] == p.read;
    var (bytes, t) := RecvData(p.tcb, maxLen);
    if t == p.tcb {
      hide Local, Grows, Fits;
      assert bytes == [];
      assert With(p, t) == p by { LocalIsSettled(p, q); }
    } else {
      assert p.read + bytes + t.rx.data == p.read + (bytes + t.rx.data);
      assert bytes + t.rx.data == p.tcb.rx.data;
      ReadKeeps(p, q, p.read + bytes, t);
    }
  }

  lemma LocalIsSettled(p: Party, q: Party)
    requires Local(p, q)
    ensures With(p, p.tcb) == p
  {
  }

  /** Moving bytes from the buffer to the application changes nothing else. */
  lemma ReadKeeps(p: Party, q: Party, read: seq<byte>, t: Tcb)
    requires Local(p, q) && p.tcb.inUse && read + t.rx.data == p.got
    requires t == p.tcb.(rx := p.tcb.rx.(data := t.rx.data), hasData := |t.rx.data| > 0)
    ensures var p' := With(p.(read := read), t); Local(p', q) && Grows(p, p')
  {
    hide SlotsHold, Fits;
    var p' := With(p.(read := read), t);
    assert p' == p.(read := read, tcb := t);
  }

  lemma ShutKeeps(p: Party, q: Party)
    requires Local(p, q) && p.tcb.state in {Established, CloseWait}
    ensures Keeps(p, q, Shut)
  {
    ShutMoves(p, q);
    ShutEmits(p, q);
    hide Seal, Local, Legit, Grows, Fits;
  }

  lemma ShutShape(p: Party, q: Party)
    requires Local(p, q) && p.tcb.state in {Established, CloseWait}
    ensures var p' := Perform(p, q, Shut).0; var t := p.tcb;
            && t.inUse && t.sendSeq == B(p) + |p.sent| && !p.finSent && p.synced && q.synced
            && p' == p.(tcb := p'.tcb, finSent := true)
            && p'.tcb == t.(state := if t.state == Established then FinWait1 else LastAck, sendSeq := t.sendSeq + 1)
  {
    hide Seal, SlotsHold, Wrap32, Received, Unacked, Empty;
    assert p.tcb.inUse && p.tcb.sendSeq == B(p) + |p.sent|;
    SmallWrap(p.tcb.sendSeq + 1);
  }

  lemma ShutLife(p: Party, q: Party)
    requires Local(p, q) && p.tcb.state in {Established, CloseWait}
    ensures Life(Perform(p, q, Shut).0, q)
  {
    ShutShape(p, q);
    hide Perform, Received, Sending, Fits, Empty;
  }

  lemma ShutSending(p: Party, q: Party)
    requires Local(p, q) && p.tcb.state in {Established, CloseWait}
    ensures Sending(Perform(p, q, Shut).0, q)
  {
    ShutShape(p, q);
    hide Perform, Received, Life, Fits, With, Empty;
    var p' := Perform(p, q, Shut).0;
    assert Unacked(p) && Unacked(p');
    hide Unacked;
  }

  lemma ShutMoves(p: Party, q: Party)
    requires Local(p, q) && p.tcb.state in {Established, CloseWait}
    ensures var p' := Perform(p, q, Shut).0;
            && Local(p', q) && Grows(p, p') && p' == p.(tcb := p'.tcb, finSent := true)
            && p.tcb.sendSeq == B(p) + |p.sent| && p.tcb.inUse
  {
    ShutShape(p, q);
    ShutLife(p, q);
    ShutSending(p, q);
    hide Perform, Life, Sending, SlotsHold;
  }

  lemma ShutEmits(p: Party, q: Party)
    requires Local(p, q) && p.tcb.inUse && p.tcb.state in {Established, CloseWait} && p.tcb.sendSeq == B(p) + |p.sent|
    requires Perform(p, q, Shut).0 == p.(tcb := Perform(p, q, Shut).0.tcb, finSent := true)
    ensures AllLegit(Perform(p, q, Shut).0, q, Perform(p, q, Shut).1)
  {
    hide Valid, SlotsHold, Wrap32, Unacked, Fits, Seal;
    var t := p.tcb;
    var fin := Make(t.localPort, t.remotePort, t.sendSeq, t.rx.recvSeq, FIN_ACK, []);
    SealKeeps(fin, p.ip, q.ip);
    SealedIsValid(fin, p.ip, q.ip);
  }

  lemma ReleaseKeeps(p: Party, q: Party)
    requires Local(p, q) && p.tcb.state !in {Established, CloseWait}
    ensures Keeps(p, q, Shut)
  {
    hide Valid, SlotsHold, Unacked;
    SelfGrows(p);
  }

  lemma DropKeeps(p: Party, q: Party)
    requires Local(p, q) && (p.tcb.state == TimeWait || MayFail(p))
    ensures Keeps(p, q, Drop)
  {
    hide Valid, SlotsHold, Unacked, Fits;
    SelfGrows(p);
  }

  lemma ActionKeeps(p: Party, q: Party, incoming: set<Segment>, a: Action)
    requires Local(p, q) && Local(q, p) && AllLegit(q, p, incoming) && Enabled(p, incoming, a)
    ensures Keeps(p, q, a)
  {
    hide Local, Legit, Grows, Receive;
    match a {
      case Open => OpenKeeps(p, q);
      case Push(data) => PushKeeps(p, q, data);
      case Take(maxLen) => TakeKeeps(p, q, maxLen);
      case Shut => if p.tcb.state in {Established, CloseWait} { ShutKeeps(p, q); } else { ReleaseKeeps(p, q); }
      case Drop => DropKeeps(p, q);
      case Arrive(m) => ArrivalSound(p, q, m);
    }
  }

  // ---------------------------------------------------------------- whole runs

  datatype World = World(a: Party, b: Party, ab: set<Segment>, ba: set<Segment>)

  datatype Event = Event(byA: bool, action: Action)

  /** A fresh client, and the child socket a listener creates for the client's first SYN. */
  function Start(ipA: Ip, portA: u16, ipB: Ip, portB: u16): World {
    var client := ZEROED.(inUse := true);
    var child := client.(state := Listen, localIp := ipB, localPort := portB, remoteIp := ipA, remotePort := portA);
    World(Party(ipA, portA, 1000, client, false, false, [], false, [], false, []),
          Party(ipB, portB, 2000 + portA as int, child, false, false, [], false, [], false, []), {}, {})
  }

  predicate Possible(w: World, e: Event) {
    if e.byA then Enabled(w.a, w.ba, e.action) else Enabled(w.b, w.ab, e.action)
  }

  function Next(w: World, e: Event): World {
    if e.byA then
      var (a, emitted) := Perform(w.a, w.b, e.action); w.(a := a, ab := w.ab + emitted)
    else
      var (b, emitted) := Perform(w.b, w.a, e.action); w.(b := b, ba := w.ba + emitted)
  }

  /** A run: any interleaving of possible actions, as long as neither stream nears 2^32. */
  ghost predicate IsRun(ws: seq<World>, es: seq<Event>, first: World) {
    && |ws| == |es| + 1 && ws[0] == first
    && (forall i :: 0 <= i < |es| ==> Possible(ws[i], es[i]) && ws[i + 1] == Next(ws[i], es[i]))
    && (forall i :: 0 <= i < |ws| ==> Fits(B(ws[i].a), ws[i].a.sent) && Fits(B(ws[i].b), ws[i].b.sent))
  }

  ghost predicate WorldInv(w: World) {
    Inv(w.a, w.b, w.ab, w.ba)
  }

  lemma StartInv(ipA: Ip, portA: u16, ipB: Ip, portB: u16)
    ensures WorldInv(Start(ipA, portA, ipB, portB))
  {
  }

  lemma PerformKeepsIss(p: Party, q: Party, a: Action)
    ensures Perform(p, q, a).0.iss == p.iss
  {
    hide Receive, Connect, CloseSocket, SendData, RecvData;
  }

  lemma NextInv(w: World, e: Event)
    requires WorldInv(w) && Possible(w, e)
    requires var w' := Next(w, e); Fits(B(w'.a), w'.a.sent) && Fits(B(w'.b), w'.b.sent)
    ensures WorldInv(Next(w, e))
  {
    hide Perform, Local, Legit, Grows, Fits, Enabled;
    if e.byA {
      ActionKeeps(w.a, w.b, w.ba, e.action);
      PerformKeepsIss(w.a, w.b, e.action);
      var (a, emitted) := Perform(w.a, w.b, e.action);
      Moved(w.a, w.b, w.ab, w.ba, a, emitted);
    } else {
      ActionKeeps(w.b, w.a, w.ab, e.action);
      PerformKeepsIss(w.b, w.a, e.action);
      var (b, emitted) := Perform(w.b, w.a, e.action);
      Moved(w.b, w.a, w.ba, w.ab, b, emitted);
    }
  }

  lemma {:induction false} RunInv(ws: seq<World>, es: seq<Event>, ipA: Ip, portA: u16, ipB: Ip, portB: u16, i: nat)
    requires IsRun(ws, es, Start(ipA, portA, ipB, portB)) && i < |ws|
    ensures WorldInv(ws[i])
  {
    hide WorldInv, Next, Possible, Fits;
    if i == 0 {
      StartInv(ipA, portA, ipB, portB);
    } else {
      RunInv(ws, es, ipA, portA, ipB, portB, i - 1);
      assert ws[(i - 1) + 1] == Next(ws[i - 1], es[i - 1]);
      NextInv(ws[i - 1], es[i - 1]);
    }
  }

  // ---------------------------------------------------------------- what the invariant promises

  /** From x to y, in order, without loss or invention: what y's application has read, followed by
      y's readable bytes, is the prefix of what x's application wrote up to recvSeq. */
  ghost predicate InOrder(x: Party, y: Party) {
    && y.got <= x.sent
    && (y.tcb.inUse ==> y.read + y.tcb.rx.data == y.got)
    && (y.tcb.inUse && y.synced ==> y.tcb.rx.recvSeq == x.iss + 1 + |y.got| + (if y.finGot then 1 else 0))
  }

  /** Acknowledged <= received <= sent. The SYN is counted by its receiver before its sender moves
      on, so the second inequality fails, by one, exactly from when y has counted x's SYN until x's
      handshake ends. */
  ghost predicate NumbersOrdered(x: Party, y: Party) {
    && (x.tcb.inUse && Synchronized(x.tcb.state) && y.tcb.inUse ==> x.tcb.sendAck <= y.tcb.rx.recvSeq <= x.tcb.sendSeq)
    && (x.tcb.inUse && Handshaking(x.tcb.state) && y.tcb.inUse && y.synced ==> y.tcb.rx.recvSeq == x.tcb.sendSeq + 1)
  }

  /** x leaves FIN_WAIT_1 or CLOSING through an acknowledged FIN, or LAST_ACK, only when y has every
      byte and the FIN; y takes a FIN only when nothing before it is missing. */
  ghost predicate CloseIsSound(x: Party, y: Party) {
    && (x.tcb.state in {FinWait2, TimeWait} || (!x.tcb.inUse && x.finSent) ==>
          y.finGot && y.got == x.sent && (y.tcb.inUse ==> (x.tcb.inUse ==> y.tcb.rx.recvSeq == x.tcb.sendSeq)))
    && (y.finGot ==> x.finSent && y.got == x.sent)
    && (y.finGot && y.tcb.inUse ==> forall i :: 0 <= i < |y.tcb.rx.slots| ==> y.tcb.rx.slots[i].None?)
  }

  /** In ESTABLISHED the send buffer is exactly the stream from sendAck to sendSeq. */
  ghost predicate SendBufferExact(x: Party) {
    x.tcb.inUse && x.tcb.state == Established ==>
      && x.iss + 1 <= x.tcb.sendAck <= x.tcb.sendSeq == x.iss + 1 + |x.sent|
      && x.tcb.sendBuf == x.sent[x.tcb.sendAck - x.iss - 1..x.tcb.sendSeq - x.iss - 1]
      && |x.tcb.sendBuf| <= BUFFER_SIZE && (|x.tcb.sendBuf| > 0 ==> x.tcb.startSeq == x.tcb.sendAck)
  }

  ghost predicate Safe(x: Party, y: Party) {
    InOrder(x, y) && NumbersOrdered(x, y) && CloseIsSound(x, y) && SendBufferExact(x)
  }

  lemma InvOrdersNumbers(x: Party, y: Party)
    requires Local(x, y) && Local(y, x)
    ensures InOrder(x, y) && NumbersOrdered(x, y)
  {
    hide SlotsHold, Fits, Unacked;
  }

  lemma InvCloses(x: Party, y: Party)
    requires Sending(x, y) && Received(x, y) && Life(x, y)
    ensures CloseIsSound(x, y)
  {
    hide Fits, Unacked, With, Empty;
    if y.finGot && y.tcb.inUse {
      NothingBehindTheEnd(y.tcb.rx.slots, x.sent, |y.got|);
    }
    hide SlotsHold;
  }

  /** Slots behind the end of a stream are empty. */
  lemma NothingBehindTheEnd(slots: seq<Option<byte>>, stream: seq<byte>, pos: nat)
    requires SlotsHold(slots, stream, pos) && pos >= |stream|
    ensures forall i :: 0 <= i < |slots| ==> slots[i].None?
  {
  }

  lemma InvBuffers(x: Party, y: Party)
    requires Sending(x, y) && Life(x, y)
    ensures SendBufferExact(x)
  {
    hide Fits, PeerHasAll, Empty;
  }

  lemma InvParts(x: Party, y: Party)
    requires Local(x, y) && Local(y, x)
    ensures Sending(x, y) && Received(x, y) && Life(x, y)
  {
    hide Sending, Received, Life;
  }

  lemma InvIsSafe(x: Party, y: Party)
    requires Local(x, y) && Local(y, x)
    ensures Safe(x, y)
  {
    hide InOrder, NumbersOrdered, CloseIsSound, SendBufferExact, Local;
    InvOrdersNumbers(x, y);
    InvParts(x, y);
    InvCloses(x, y);
    InvBuffers(x, y);
  }

  /** The safety theorem: in every state of every run, in both directions. */
  lemma EveryRunIsSafe(ws: seq<World>, es: seq<Event>, ipA: Ip, portA: u16, ipB: Ip, portB: u16)
    requires IsRun(ws, es, Start(ipA, portA, ipB, portB))
    ensures forall i :: 0 <= i < |ws| ==> Safe(ws[i].a, ws[i].b) && Safe(ws[i].b, ws[i].a)
  {
    forall i | 0 <= i < |ws|
      ensures Safe(ws[i].a, ws[i].b) && Safe(ws[i].b, ws[i].a)
    {
      RunInv(ws, es, ipA, portA, ipB, portB, i);
      hide Safe, Local;
      InvIsSafe(ws[i].a, ws[i].b);
      InvIsSafe(ws[i].b, ws[i].a);
    }
  }

  // ---------------------------------------------------------------- flow control

  /** In these states the payload of a segment is buffered. */
  predicate TakesData(p: Party) {
    p.tcb.inUse && p.tcb.state in {SynReceived, Established, FinWait1, FinWait2}
  }

  /** The window test at p never rejects m. Only the capacity test can refuse it, exactly when the
      unread bytes and all filled slots exceed the buffer, so never once p has read everything. */
  ghost predicate FitsWindow(p: Party, q: Party, m: Segment) {
    var rx := p.tcb.rx;
    var start, end := m.seqNum - q.iss - 1, m.seqNum - q.iss - 1 + |m.payload|;
    var at := if start < |p.got| then 0 else start - |p.got|;
    && Valid(m, q.ip, p.ip) && m.seqNum + |m.payload| <= rx.recvSeq + BUFFER_SIZE
    && (end > |p.got| ==> |p.got| + at <= end <= |q.sent|)
    && (Offer(rx, m.seqNum, m.payload).0 == Refused <==>
          end > |p.got| && |rx.data| + Count(Merge(rx.slots, at, q.sent[|p.got| + at..end])) > BUFFER_SIZE)
    && (|rx.data| == 0 ==> Offer(rx, m.seqNum, m.payload).0 != Refused)
  }

  lemma DataFitsWindow(p: Party, q: Party, pq: set<Segment>, qp: set<Segment>, m: Segment)
    requires Inv(p, q, pq, qp) && m in qp && |m.payload| > 0 && TakesData(p)
    ensures FitsWindow(p, q, m)
  {
    hide Valid, Offer, Count, Merge, Unacked, SlotsHold;
    var rx := p.tcb.rx;
    assert Legit(q, p, m);
    WindowHolds(p, q);
    assert Consistent(rx, B(q), q.sent, |p.got|) by { Ready4Data(p, q); }
    RefusedIff(rx, B(q), q.sent, |p.got|, m.seqNum, m.payload);
    assert |rx.slots| == BUFFER_SIZE by { Ready4Data(p, q); }
  }

  /** Flow control in every run: whatever the network delivers to an endpoint that takes data,
      old duplicates included. */
  lemma FlowControl(ws: seq<World>, es: seq<Event>, ipA: Ip, portA: u16, ipB: Ip, portB: u16, i: nat, m: Segment)
    requires IsRun(ws, es, Start(ipA, portA, ipB, portB)) && i < |ws| && |m.payload| > 0
    ensures m in ws[i].ba && TakesData(ws[i].a) ==> FitsWindow(ws[i].a, ws[i].b, m)
    ensures m in ws[i].ab && TakesData(ws[i].b) ==> FitsWindow(ws[i].b, ws[i].a, m)
  {
    RunInv(ws, es, ipA, portA, ipB, portB, i);
    hide FitsWindow, Local, Legit, TakesData, IsRun;
    var w := ws[i];
    if m in w.ba && TakesData(w.a) {
      DataFitsWindow(w.a, w.b, w.ab, w.ba, m);
    }
    if m in w.ab && TakesData(w.b) {
      DataFitsWindow(w.b, w.a, w.ba, w.ab, m);
    }
  }

  lemma Ready4Data(p: Party, q: Party)
    requires Local(p, q) && p.tcb.inUse && p.tcb.state in {SynReceived, Established, FinWait1, FinWait2}
    ensures Consistent(p.tcb.rx, B(q), q.sent, |p.got|) && |p.tcb.rx.slots| == BUFFER_SIZE
  {
  }

  /** The sender keeps at most 4096 bytes beyond what its peer has received. */
  lemma WindowHolds(p: Party, q: Party)
    requires Local(p, q) && Local(q, p) && p.tcb.inUse
    ensures |q.sent| - |p.got| <= BUFFER_SIZE
  {
    hide SlotsHold, Fits;
  }

  // ---------------------------------------------------------------- the runs are not empty

  lemma OpensWith(p: Party, q: Party)
    requires p.tcb == ZEROED.(inUse := true)
    ensures var syn := Seal(Make(p.port, q.port, 1000, 0, SYN, []), p.ip, q.ip);
            && Perform(p, q, Open).1 == {syn} && Perform(p, q, Open).0.tcb.state == SynSent
            && Perform(p, q, Open).0.tcb.sendSeq == 1000 && Perform(p, q, Open).0.tcb.inUse
            && Perform(p, q, Open).0.tcb.localIp == p.ip && Perform(p, q, Open).0.tcb.localPort == p.port
            && Perform(p, q, Open).0.tcb.remoteIp == q.ip && Perform(p, q, Open).0.tcb.remotePort == q.port
  {
    hide Seal, Empty;
  }

  /** A SYN in LISTEN, its SYN-ACK in SYN_SENT and the ACK in SYN_RECEIVED. */
  lemma AnswersSyn(t: Tcb, m: Segment, src: Ip, dst: Ip)
    requires t.state == Listen && Valid(m, src, dst) && m.flags == SYN && m.seqNum == 1000
    ensures var o := Receive(t, m, src, dst);
            && o.tcb == t.(rx := t.rx.(recvSeq := 1001), sendSeq := 2000 + m.srcPort as int, state := SynReceived)
            && o.response ==
               Some(Seal(Make(m.dstPort, m.srcPort, 2000 + m.srcPort as int, 1001, SYN_ACK, []), dst, src))
  {
    hide Seal, Valid;
  }

  lemma AnswersSynAck(t: Tcb, m: Segment, src: Ip, dst: Ip)
    requires t.state == SynSent && t.sendSeq == 1000 && Valid(m, src, dst)
    requires m.flags == SYN_ACK && m.ackNum == 1001 && m.seqNum < 0xFFFF_FFFF
    ensures var o := Receive(t, m, src, dst);
            && o.tcb == t.(rx := t.rx.(recvSeq := m.seqNum + 1), sendAck := 1001, sendSeq := 1001, state := Established)
            && o.response ==
               Some(Seal(Make(t.localPort, t.remotePort, 1001, m.seqNum + 1, ACK, []), t.localIp, t.remoteIp))
  {
    hide Seal, Valid;
  }

  lemma TakesAck(t: Tcb, m: Segment)
    requires t.state == SynReceived && m.payload == []
    requires m.flags == ACK && m.ackNum == Wrap32(t.sendSeq + 1) && m.seqNum == t.rx.recvSeq
    ensures OnSynReceived(t, m).tcb.state == Established
  {
    hide Offer;
  }

  lemma ReceivesAck(t: Tcb, m: Segment, src: Ip, dst: Ip)
    requires t.state == SynReceived && Valid(m, src, dst)
    ensures Receive(t, m, src, dst) == OnSynReceived(t, m)
  {
  }

  /** The handshake of every pair of endpoints is among the runs: four steps lead to ESTABLISHED on
      both sides, and neither address nor port matters. */
  lemma HandshakeIsARun(ipA: Ip, portA: u16, ipB: Ip, portB: u16)
    ensures var w0 := Start(ipA, portA, ipB, portB);
            var syn := Seal(Make(portA, portB, 1000, 0, SYN, []), ipA, ipB);
            var synAck := Seal(Make(portB, portA, 2000 + portA as int, 1001, SYN_ACK, []), ipB, ipA);
            var ack := Seal(Make(portA, portB, 1001, 2001 + portA as int, ACK, []), ipA, ipB);
            var w1 := Next(w0, Event(true, Open));
            var w2 := Next(w1, Event(false, Action.Arrive(syn)));
            var w3 := Next(w2, Event(true, Action.Arrive(synAck)));
            var w4 := Next(w3, Event(false, Action.Arrive(ack)));
            && Possible(w0, Event(true, Open)) && Possible(w1, Event(false, Action.Arrive(syn)))
            && Possible(w2, Event(true, Action.Arrive(synAck))) && Possible(w3, Event(false, Action.Arrive(ack)))
            && w4.a.tcb.state == Established && w4.b.tcb.state == Established
  {
    var w0 := Start(ipA, portA, ipB, portB);
    var syn := Make(portA, portB, 1000, 0, SYN, []);
    var synAck := Make(portB, portA, 2000 + portA as int, 1001, SYN_ACK, []);
    var ack := Make(portA, portB, 1001, 2001 + portA as int, ACK, []);
    SealKeeps(syn, ipA, ipB);
    SealKeeps(synAck, ipB, ipA);
    SealKeeps(ack, ipA, ipB);
    SealedIsValid(syn, ipA, ipB);
    SealedIsValid(synAck, ipB, ipA);
    SealedIsValid(ack, ipA, ipB);
    hide Seal, Valid, Receive, Empty, Connect;
    OpensWith(w0.a, w0.b);
    var w1 := Next(w0, Event(true, Open));
    AnswersSyn(w1.b.tcb, Seal(syn, ipA, ipB), ipA, ipB);
    var w2 := Next(w1, Event(false, Action.Arrive(Seal(syn, ipA, ipB))));
    AnswersSynAck(w2.a.tcb, Seal(synAck, ipB, ipA), ipB, ipA);
    var w3 := Next(w2, Event(true, Action.Arrive(Seal(synAck, ipB, ipA))));
    TakesAck(w3.b.tcb, Seal(ack, ipA, ipB));
    assert Receive(w3.b.tcb, Seal(ack, ipA, ipB), ipA, ipB) == OnSynReceived(w3.b.tcb, Seal(ack, ipA, ipB)) by {
      ReceivesAck(w3.b.tcb, Seal(ack, ipA, ipB), ipA, ipB);
    }
  }
}
