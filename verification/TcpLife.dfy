/** A whole life of a TCP connection as one of its runs: after the handshake, any chunks in either direction
    arrive, are read and are acknowledged, and both sides close, one after the other or at once. */
module TcpLife {
  import opened Base
  import opened TcpWire
  import opened TcpSpec
  import opened TcpReassembly
  import opened TcpRun
  import opened TcpAnswers
  import opened TcpTransfer

  // ---------------------------------------------------------------- scripts

  function Replay(w: World, es: seq<Event>): World {
    if |es| == 0 then w else Next(Replay(w, es[..|es| - 1]), es[|es| - 1])
  }

  ghost predicate FitsBoth(w: World) {
    Fits(B(w.a), w.a.sent) && Fits(B(w.b), w.b.sent)
  }

  /** Each event is possible when its turn comes, and the streams stay short enough. */
  ghost predicate Permitted(w: World, es: seq<Event>) {
    && FitsBoth(Replay(w, es))
    && (|es| > 0 ==>
          Possible(Replay(w, es[..|es| - 1]), es[|es| - 1]) && Permitted(w, es[..|es| - 1]))
  }

  lemma OneMore(w: World, es: seq<Event>, e: Event)
    requires Permitted(w, es) && Possible(Replay(w, es), e) && FitsBoth(Next(Replay(w, es), e))
    ensures Permitted(w, es + [e]) && Replay(w, es + [e]) == Next(Replay(w, es), e)
  {
    hide Possible, Next, FitsBoth;
    assert (es + [e])[..|es|] == es;
  }

  lemma NothingYet(w: World)
    requires FitsBoth(w)
    ensures Permitted(w, []) && Replay(w, []) == w
  {
  }

  lemma {:induction false} Concatenate(w: World, first: seq<Event>, then_: seq<Event>)
    requires Permitted(w, first) && Permitted(Replay(w, first), then_)
    ensures Permitted(w, first + then_) && Replay(w, first + then_) == Replay(Replay(w, first), then_)
  {
    hide Possible, Next, FitsBoth;
    if |then_| == 0 {
      assert first + then_ == first;
    } else {
      var rest, last := then_[..|then_| - 1], then_[|then_| - 1];
      Concatenate(w, first, rest);
      assert first + then_ == first + rest + [last];
      OneMore(w, first + rest, last);
    }
  }

  /** What a script leads to is a state of a run. */
  lemma {:induction false} ScriptIsRun(w: World, es: seq<Event>) returns (ws: seq<World>)
    requires Permitted(w, es)
    ensures IsRun(ws, es, w) && ws[|es|] == Replay(w, es)
  {
    hide Possible, Next, Fits;
    if |es| == 0 {
      ws := [w];
    } else {
      var before := es[..|es| - 1];
      var ws1 := ScriptIsRun(w, before);
      ws := ws1 + [Replay(w, es)];
      forall i | 0 <= i < |es|
        ensures Possible(ws[i], es[i]) && ws[i + 1] == Next(ws[i], es[i])
      {
        if i < |before| {
          assert before[i] == es[i] && ws[i] == ws1[i] && ws[i + 1] == ws1[i + 1];
        }
      }
    }
  }

  // ---------------------------------------------------------------- the other way round

  function Swap(w: World): World {
    World(w.b, w.a, w.ba, w.ab)
  }

  function Flip(es: seq<Event>): seq<Event> {
    seq(|es|, i requires 0 <= i < |es| => es[i].(byA := !es[i].byA))
  }

  /** The two endpoints are alike. */
  lemma {:induction false} Mirrored(w: World, es: seq<Event>)
    requires Permitted(w, es)
    ensures Permitted(Swap(w), Flip(es)) && Replay(Swap(w), Flip(es)) == Swap(Replay(w, es))
  {
    hide Perform, Enabled, Fits;
    if |es| > 0 {
      var n := |es| - 1;
      Mirrored(w, es[..n]);
      assert Flip(es) == Flip(es[..n]) + [es[n].(byA := !es[n].byA)];
      OneMore(Swap(w), Flip(es[..n]), es[n].(byA := !es[n].byA));
    } else {
      assert Flip(es) == [];
    }
  }

  // ---------------------------------------------------------------- one chunk

  /** x is established, y has read all that x wrote, and x knows. */
  ghost predicate Served(x: Party, y: Party) {
    && x.tcb.inUse && x.tcb.state == Established && x.tcb.sendBuf == []
    && x.sent == y.read == y.got && y.tcb.rx.data == []
  }

  ghost predicate Quiet(w: World) {
    WorldInv(w) && FitsBoth(w) && Served(w.a, w.b) && Served(w.b, w.a)
  }

  lemma Pushes(p: Party, q: Party, data: seq<byte>) returns (m: Segment)
    requires Local(p, q) && Served(p, q) && 1 <= |data| <= 1460 && Fits(B(p), p.sent + data)
    ensures var (p1, out) := Perform(p, q, Push(data));
            && out == {m} && m.payload == data && m.seqNum == B(p) + |p.sent| && !HasFin(m.flags)
            && p1 == p.(tcb := p1.tcb, sent := p.sent + data)
            && p1.tcb.inUse && p1.tcb.state == Established && p1.tcb.rx == p.tcb.rx
  {
    hide Local, SentBy, Fits, SendData, With;
    SendsExactly(p.tcb, data);
    PushShape(p, q, data);
    m := SendData(p.tcb, data).value.1;
    assert m.payload == data && m.seqNum == p.tcb.sendSeq && m.flags == 0x18 by { DataFields(m, p.tcb, data); }
  }

  lemma DataFields(m: Segment, t: Tcb, data: seq<byte>)
    requires SentBy(m, t, 0x18, data)
    ensures m.payload == data && m.seqNum == t.sendSeq && m.flags == 0x18
  {
    hide Valid;
  }

  /** The application reads all there is. */
  lemma ReadsAll(p: Party, q: Party)
    requires Local(p, q) && p.tcb.inUse && p.tcb.state == Established && |p.tcb.rx.data| <= 4096
    ensures var (p1, out) := Perform(p, q, Take(4096));
            && out == {} && p1 == p.(tcb := p1.tcb, read := p.got) && p1.tcb.rx.data == []
            && p1.tcb == p.tcb.(rx := p1.tcb.rx, hasData := false)
  {
    ReadyParts(p, q);
    ReadsSome(p.tcb, 4096);
    hide Local, RecvData;
    var (bytes, t) := RecvData(p.tcb, 4096);
    assert t.rx.data == [] && bytes == p.tcb.rx.data;
    assert p.read + bytes + [] == p.got;
    TakenShape(p, q, p.read + bytes, t);
  }

  lemma TakenShape(p: Party, q: Party, read: seq<byte>, t: Tcb)
    requires Local(p, q) && p.tcb.inUse && p.tcb.state == Established && read + t.rx.data == p.got
    requires t == p.tcb.(rx := p.tcb.rx.(data := t.rx.data), hasData := |t.rx.data| > 0)
    ensures With(p.(read := read), t) == p.(read := read, tcb := t)
  {
    LocalIsSettled(p, q);
  }

  lemma InvOfWorld(w: World)
    requires WorldInv(w)
    ensures Local(w.a, w.b) && Local(w.b, w.a)
    ensures forall m :: m in w.ab ==> Legit(w.a, w.b, m)
    ensures forall m :: m in w.ba ==> Legit(w.b, w.a, m)
  {
    hide Local, Legit;
  }

  /** Written by a, delivered, answered, and read by b: four events. */
  lemma ChunkCrosses(w: World, data: seq<byte>) returns (es: seq<Event>)
    requires Quiet(w) && 1 <= |data| <= 1460 && Fits(B(w.a), w.a.sent + data)
    ensures Permitted(w, es)
    ensures var r := Replay(w, es);
            Quiet(r) && r.a.sent == w.a.sent + data && r.b.sent == w.b.sent
            && r.a.iss == w.a.iss && r.b.iss == w.b.iss
  {
    hide WorldInv, Local, Legit, Perform, Grows, Valid, Fits, Permitted, Replay, Enabled, HasFin, With;
    InvOfWorld(w);
    NothingYet(w);
    var m := Pushes(w.a, w.b, data);
    var e1 := Event(true, Push(data));
    var w1 := Next(w, e1);
    assert Possible(w, e1) && FitsBoth(w1) by { PushIsPossible(w, data); }
    OneMore(w, [], e1);
    NextInv(w, e1);
    InvOfWorld(w1);

    var e2 := Event(false, Action.Arrive(m));
    var w2 := Next(w1, e2);
    assert m in w1.ab && Possible(w1, e2) by { ArrivalIsPossible(w1, m); }
    RestArrives(w1.a, w1.b, m);
    PerformKeepsIss(w1.b, w1.a, e2.action);
    var a := AnswerAcknowledges(w1.a, w1.b, m);
    OneMore(w, [] + [e1], e2);
    NextInv(w1, e2);

    var e3 := Event(true, Action.Arrive(a));
    var w3 := Next(w2, e3);
    assert a in w2.ba && Possible(w2, e3) by { AnswerIsPossible(w2, a); }
    NextInv(w2, e3);
    OneMore(w, [] + [e1] + [e2], e3);
    InvOfWorld(w3);

    var e4 := Event(false, Take(4096));
    var w4 := Next(w3, e4);
    assert Possible(w3, e4) by { TakeIsPossible(w3); }
    ReadsAll(w3.b, w3.a);
    NextInv(w3, e4);
    OneMore(w, [] + [e1] + [e2] + [e3], e4);
    es := [] + [e1] + [e2] + [e3] + [e4];
  }

  lemma PushIsPossible(w: World, data: seq<byte>)
    requires Fits(B(w.a), w.a.sent + data) && Fits(B(w.b), w.b.sent)
    requires var p1 := Perform(w.a, w.b, Push(data)).0; p1.sent == w.a.sent + data && p1.iss == w.a.iss
    ensures Possible(w, Event(true, Push(data))) && FitsBoth(Next(w, Event(true, Push(data))))
  {
    hide Perform, Fits;
  }

  lemma ArrivalIsPossible(w: World, m: Segment)
    requires m in w.ab
    ensures Possible(w, Event(false, Action.Arrive(m)))
  {
  }

  lemma AnswerIsPossible(w: World, m: Segment)
    requires m in w.ba
    ensures Possible(w, Event(true, Action.Arrive(m)))
  {
  }

  lemma TakeIsPossible(w: World)
    ensures Possible(w, Event(false, Take(4096)))
  {
  }

  // ---------------------------------------------------------------- many chunks

  function Concat(chunks: seq<seq<byte>>): seq<byte> {
    if |chunks| == 0 then [] else Concat(chunks[..|chunks| - 1]) + chunks[|chunks| - 1]
  }

  predicate Sendable(chunks: seq<seq<byte>>) {
    forall i :: 0 <= i < |chunks| ==> 1 <= |chunks[i]| <= 1460
  }

  lemma {:induction false} ChunksCross(w: World, chunks: seq<seq<byte>>) returns (es: seq<Event>)
    requires Quiet(w) && Sendable(chunks) && Fits(B(w.a), w.a.sent + Concat(chunks))
    ensures Permitted(w, es)
    ensures var r := Replay(w, es);
            Quiet(r) && r.a.sent == w.a.sent + Concat(chunks) && r.b.sent == w.b.sent
            && r.a.iss == w.a.iss && r.b.iss == w.b.iss
  {
    hide Permitted, Replay, Quiet;
    if |chunks| == 0 {
      assert w.a.sent + [] == w.a.sent;
      assert FitsBoth(w) by { QuietFits(w); }
      NothingYet(w);
      es := [];
    } else {
      var before, last := chunks[..|chunks| - 1], chunks[|chunks| - 1];
      assert w.a.sent + Concat(chunks) == w.a.sent + Concat(before) + last;
      var first := ChunksCross(w, before);
      var more := ChunkCrosses(Replay(w, first), last);
      Concatenate(w, first, more);
      es := first + more;
    }
  }

  lemma QuietFits(w: World)
    requires Quiet(w)
    ensures FitsBoth(w) && Quiet(Swap(w))
  {
    hide Local, Legit, Fits;
  }

  /** The same from b to a. */
  lemma ChunksCrossBack(w: World, chunks: seq<seq<byte>>) returns (es: seq<Event>)
    requires Quiet(w) && Sendable(chunks) && Fits(B(w.b), w.b.sent + Concat(chunks))
    ensures Permitted(w, es)
    ensures var r := Replay(w, es);
            Quiet(r) && r.b.sent == w.b.sent + Concat(chunks) && r.a.sent == w.a.sent
            && r.a.iss == w.a.iss && r.b.iss == w.b.iss
  {
    hide Permitted, Replay, Quiet, Fits;
    QuietFits(w);
    var there := ChunksCross(Swap(w), chunks);
    Mirrored(Swap(w), there);
    es := Flip(there);
    assert Swap(Swap(w)) == w;
    QuietFits(Replay(Swap(w), there));
  }

  // ---------------------------------------------------------------- the beginning

  lemma NothingSent(p: Party, q: Party, a: Action)
    requires !a.Push?
    ensures Perform(p, q, a).0.sent == p.sent && Perform(p, q, a).0.iss == p.iss
  {
    hide Receive, Connect, CloseSocket, RecvData;
  }

  lemma StepsOn(w: World, es: seq<Event>, e: Event)
    requires Permitted(w, es) && WorldInv(Replay(w, es)) && Possible(Replay(w, es), e) && !e.action.Push?
    ensures Permitted(w, es + [e]) && Replay(w, es + [e]) == Next(Replay(w, es), e) && WorldInv(Next(Replay(w, es), e))
    ensures var w0, w1 := Replay(w, es), Next(Replay(w, es), e);
            w1.a.sent == w0.a.sent && w1.b.sent == w0.b.sent && w1.a.iss == w0.a.iss && w1.b.iss == w0.b.iss
  {
    hide WorldInv, Perform, Fits, Permitted, Replay, Enabled;
    var w0 := Replay(w, es);
    assert FitsBoth(w0) by { PermittedFits(w, es); }
    if e.byA {
      NothingSent(w0.a, w0.b, e.action);
    } else {
      NothingSent(w0.b, w0.a, e.action);
    }
    NextInv(w0, e);
    OneMore(w, es, e);
  }

  lemma PermittedFits(w: World, es: seq<Event>)
    requires Permitted(w, es)
    ensures FitsBoth(Replay(w, es))
  {
  }

  lemma NewlyQuiet(p: Party, q: Party)
    requires Local(p, q) && Local(q, p) && p.sent == [] && q.sent == []
    requires p.tcb.inUse && p.tcb.state == Established && q.tcb.inUse && q.tcb.state == Established
    ensures Served(p, q)
  {
    ReadyParts(q, p);
    assert |q.read| + |q.tcb.rx.data| == |q.got|;
    GotIsSent(p, q);
    BufferIsSent(p, q);
    hide Local;
  }

  lemma BufferIsSent(p: Party, q: Party)
    requires Local(p, q) && p.tcb.inUse && p.tcb.state == Established
    ensures |p.tcb.sendBuf| <= |p.sent|
  {
    hide Life, Received;
  }

  /** The handshake leads to two quiet endpoints. */
  lemma Opens(ipA: Ip, portA: u16, ipB: Ip, portB: u16) returns (es: seq<Event>)
    ensures var w := TcpRun.Start(ipA, portA, ipB, portB);
            var r := Replay(w, es);
            && Permitted(w, es) && Quiet(r) && r.a.sent == [] && r.b.sent == []
            && r.a.iss == w.a.iss && r.b.iss == w.b.iss
  {
    hide Permitted, Replay, Next, Possible, WorldInv;
    var w0 := TcpRun.Start(ipA, portA, ipB, portB);
    StartInv(ipA, portA, ipB, portB);
    HandshakeIsARun(ipA, portA, ipB, portB);
    NothingYet(w0);
    var syn := Seal(Make(portA, portB, 1000, 0, SYN, []), ipA, ipB);
    var synAck := Seal(Make(portB, portA, 2000 + portA as int, 1001, SYN_ACK, []), ipB, ipA);
    var ack := Seal(Make(portA, portB, 1001, 2001 + portA as int, ACK, []), ipA, ipB);
    hide Seal;
    StepsOn(w0, [], Event(true, Open));
    StepsOn(w0, [] + [Event(true, Open)], Event(false, Action.Arrive(syn)));
    StepsOn(w0, [] + [Event(true, Open)] + [Event(false, Action.Arrive(syn))], Event(true, Action.Arrive(synAck)));
    es := [] + [Event(true, Open)] + [Event(false, Action.Arrive(syn))] + [Event(true, Action.Arrive(synAck))];
    StepsOn(w0, es, Event(false, Action.Arrive(ack)));
    es := es + [Event(false, Action.Arrive(ack))];
    var r := Replay(w0, es);
    InvOfWorld(r);
    hide Local, TcpRun.Start;
    assert r.a.tcb.inUse && r.b.tcb.inUse by { EstablishedInUse(r.a, r.b); EstablishedInUse(r.b, r.a); }
    NewlyQuiet(r.a, r.b);
    NewlyQuiet(r.b, r.a);
    PermittedFits(w0, es);
  }

  lemma EstablishedInUse(p: Party, q: Party)
    requires Local(p, q) && p.tcb.state == Established
    ensures p.tcb.inUse
  {
    hide SlotsHold, Fits, Received, Sending;
  }

  // ---------------------------------------------------------------- the end

  /** p has closed and its FIN is acknowledged; q has taken it. */
  ghost predicate HalfClosed(w: World, r: World) {
    && WorldInv(r) && r.a.tcb.inUse && r.a.tcb.state == FinWait2 && r.b.tcb.inUse && r.b.tcb.state == CloseWait
    && r.a.sent == w.a.sent && r.b.sent == w.b.sent && r.a.read == w.a.read && r.b.read == w.b.read
    && r.a.got == w.a.got && !r.a.finGot && r.b.finGot
  }

  /** a closes: its FIN is taken by b, and the answer takes a to FIN_WAIT_2. */
  lemma HalfCloses(w: World) returns (es: seq<Event>)
    requires Quiet(w)
    ensures Permitted(w, es) && HalfClosed(w, Replay(w, es))
  {
    hide WorldInv, Local, Legit, Perform, Grows, Valid, Fits, Permitted, Replay, With, SentBy;
    InvOfWorld(w);
    NothingYet(w);
    var fin := FinGoesOut(w.a, w.b);
    var w1 := Next(w, Event(true, Shut));
    assert Possible(w, Event(true, Shut));
    StepsOn(w, [], Event(true, Shut));
    InvOfWorld(w1);

    assert fin.flags == 0x11 && fin.payload == [] by { SentNumber(fin, w.a.tcb, 0x11); }
    assert fin in w1.ab && Possible(w1, Event(false, Action.Arrive(fin))) by { ArrivalIsPossible(w1, fin); }
    assert !w1.b.finGot && !w.a.finGot by { NotFinished(w1.b, w1.a); NotFinished(w.a, w.b); }
    var a := FinArrives(w1.a, w1.b, fin);
    var w2 := Next(w1, Event(false, Action.Arrive(fin)));
    StepsOn(w, [] + [Event(true, Shut)], Event(false, Action.Arrive(fin)));
    InvOfWorld(w2);

    assert a in w2.ba && Possible(w2, Event(true, Action.Arrive(a))) by { AnswerIsPossible(w2, a); }
    assert a.flags == 0x10 && a.payload == [] && a.ackNum == w2.a.tcb.sendSeq by { SentNumber(a, w2.b.tcb, 0x10); }
    FinIsAcked(w2.a, w2.b, a);
    es := [] + [Event(true, Shut)] + [Event(false, Action.Arrive(fin))];
    StepsOn(w, es, Event(true, Action.Arrive(a)));
    es := es + [Event(true, Action.Arrive(a))];
  }

  lemma NotFinished(p: Party, q: Party)
    requires Local(p, q) && p.tcb.inUse && p.tcb.state in {Established, FinWait1, FinWait2}
    ensures !p.finGot
  {
    hide SlotsHold, Fits, Received, Sending;
  }

  lemma FinAcked(t: Tcb, a: Segment, src: Ip, dst: Ip)
    requires t.state in {FinWait1, Closing, LastAck} && Valid(a, src, dst) && t.hasData == (|t.rx.data| > 0)
    requires a.flags == 0x10 && a.payload == [] && a.ackNum == t.sendSeq
    ensures var o := Receive(t, a, src, dst);
            && o.response.None?
            && o.tcb == if t.state == LastAck then ZEROED
                        else t.(sendAck := a.ackNum, state := if t.state == FinWait1 then FinWait2 else TimeWait)
  {
    hide Valid, Offer, Empty, PrepareAck, AcknowledgeData, OnListen, OnSynSent, OnSynReceived, OnEstablished,
      OnFinWait2;
    EmptyOffer(t.rx, a.seqNum, a.payload);
    assert AcksAll(t, a) && !HasFin(a.flags);
    hide AcksAll, HasFin, HasAck;
  }

  /** The acknowledgement of a FIN, and what it ends. */
  lemma FinIsAcked(p: Party, q: Party, a: Segment)
    requires Local(p, q) && Legit(q, p, a) && p.tcb.inUse && p.tcb.state in {FinWait1, Closing, LastAck}
    requires a.flags == 0x10 && a.payload == [] && a.ackNum == p.tcb.sendSeq
    ensures var (p1, answers) := Perform(p, q, Action.Arrive(a));
            && answers == {} && p1 == p.(tcb := p1.tcb)
            && (p.tcb.state == FinWait1 ==> p1.tcb == p.tcb.(sendAck := a.ackNum, state := FinWait2))
            && (p.tcb.state == Closing ==> p1.tcb == p.tcb.(sendAck := a.ackNum, state := TimeWait))
            && (p.tcb.state == LastAck ==> p1.tcb == ZEROED)
  {
    assert Valid(a, q.ip, p.ip) by { LegitIsValid(q, p, a); }
    assert p.tcb.hasData == (|p.tcb.rx.data| > 0) by { DataFlag(p, q); }
    LocalIsSettled(p, q);
    FinAcked(p.tcb, a, q.ip, p.ip);
    hide Local, Legit, Valid, Receive, Empty;
  }

  lemma DataFlag(p: Party, q: Party)
    requires Local(p, q) && p.tcb.inUse
    ensures p.tcb.hasData == (|p.tcb.rx.data| > 0)
  {
  }

  /** Then b closes: its FIN is taken by a, and the answer releases b. */
  lemma OtherCloses(w: World, half: World) returns (es: seq<Event>)
    requires HalfClosed(w, half) && FitsBoth(half) && Served(w.b, w.a) && w.b.sent == w.a.got
    ensures Permitted(half, es)
    ensures var r := Replay(half, es);
            && r.a.tcb.inUse && r.a.tcb.state == TimeWait && r.b.tcb == ZEROED
            && r.a.sent == w.a.sent && r.b.sent == w.b.sent && r.a.read == w.a.read && r.b.read == w.b.read
            && WorldInv(r) && r.a.finGot && r.b.finGot
  {
    hide WorldInv, Local, Legit, Perform, Grows, Valid, Fits, Permitted, Replay, With, SentBy, Served;
    InvOfWorld(half);
    NothingYet(half);
    var fin := FinGoesOut(half.b, half.a);
    var w1 := Next(half, Event(false, Shut));
    assert Possible(half, Event(false, Shut));
    StepsOn(half, [], Event(false, Shut));
    InvOfWorld(w1);

    assert fin.flags == 0x11 && fin.payload == [] by { SentNumber(fin, half.b.tcb, 0x11); }
    assert fin in w1.ba && Possible(w1, Event(true, Action.Arrive(fin))) by { AnswerIsPossible(w1, fin); }
    var a := FinArrives(w1.b, w1.a, fin);
    var w2 := Next(w1, Event(true, Action.Arrive(fin)));
    StepsOn(half, [] + [Event(false, Shut)], Event(true, Action.Arrive(fin)));
    InvOfWorld(w2);

    assert a in w2.ab && Possible(w2, Event(false, Action.Arrive(a))) by { ArrivalIsPossible(w2, a); }
    assert a.flags == 0x10 && a.payload == [] && a.ackNum == w2.b.tcb.sendSeq by { SentNumber(a, w2.a.tcb, 0x10); }
    FinIsAcked(w2.b, w2.a, a);
    es := [] + [Event(false, Shut)] + [Event(true, Action.Arrive(fin))];
    StepsOn(half, es, Event(false, Action.Arrive(a)));
    es := es + [Event(false, Action.Arrive(a))];
  }

  /** Both have closed, and the two FINs are on their way. */
  ghost predicate FinsCross(w: World, r: World, finA: Segment, finB: Segment) {
    && WorldInv(r) && InState(r, FinWait1) && finA in r.ab && finB in r.ba && SameStreams(w, r)
    && finA.flags == 0x11 && finA.payload == [] && finA.seqNum == B(r.a) + |r.a.sent|
    && finB.flags == 0x11 && finB.payload == [] && finB.seqNum == B(r.b) + |r.b.sent|
    && finA.ackNum != r.b.tcb.sendSeq && finB.ackNum != r.a.tcb.sendSeq
    && r.a.got == r.b.sent && r.b.got == r.a.sent && !r.a.finGot && !r.b.finGot
  }

  predicate InState(r: World, state: TcpState) {
    r.a.tcb.inUse && r.a.tcb.state == state && r.b.tcb.inUse && r.b.tcb.state == state
  }

  predicate SameStreams(w: World, r: World) {
    r.a.sent == w.a.sent && r.b.sent == w.b.sent && r.a.read == w.a.read && r.b.read == w.b.read
  }

  lemma BothShut(w: World) returns (es: seq<Event>, finA: Segment, finB: Segment)
    requires Quiet(w)
    ensures Permitted(w, es) && es == [Event(true, Shut), Event(false, Shut)]
    ensures FinsCross(w, Replay(w, es), finA, finB)
  {
    hide WorldInv, Local, Legit, Perform, Grows, Valid, Fits, Permitted, Replay, With, SentBy;
    InvOfWorld(w);
    NothingYet(w);
    finA := FinGoesOut(w.a, w.b);
    assert Possible(w, Event(true, Shut));
    StepsOn(w, [], Event(true, Shut));
    var w1 := Next(w, Event(true, Shut));
    InvOfWorld(w1);
    finB := FinGoesOut(w1.b, w1.a);
    assert Possible(w1, Event(false, Shut));
    StepsOn(w, [] + [Event(true, Shut)], Event(false, Shut));
    es := [] + [Event(true, Shut)] + [Event(false, Shut)];
    SentNumber(finA, w.a.tcb, 0x11);
    SentNumber(finB, w1.b.tcb, 0x11);
    NotFinished(w.a, w.b);
    NotFinished(w.b, w.a);
    RcvNumber(w.a, w.b);
    RcvNumber(w.b, w.a);
  }

  /** Each side takes the FIN of the other while its own is unacknowledged. */
  lemma FinsArrive(w: World, half: World, finA: Segment, finB: Segment)
    returns (es: seq<Event>, ackA: Segment, ackB: Segment)
    requires FinsCross(w, half, finA, finB) && FitsBoth(half)
    ensures Permitted(half, es) && |es| == 2
    ensures var r := Replay(half, es);
            && WorldInv(r) && InState(r, Closing) && SameStreams(w, r) && ackA in r.ab && ackB in r.ba
            && ackA.flags == 0x10 && ackA.payload == [] && ackA.ackNum == r.b.tcb.sendSeq
            && ackB.flags == 0x10 && ackB.payload == [] && ackB.ackNum == r.a.tcb.sendSeq
  {
    hide WorldInv, Local, Legit, Perform, Grows, Valid, Fits, Permitted, Replay, With, SentBy;
    InvOfWorld(half);
    NothingYet(half);
    assert Possible(half, Event(false, Action.Arrive(finA))) by { ArrivalIsPossible(half, finA); }
    ackB := FinArrives(half.a, half.b, finA);
    ClosedNumber(half.a, half.b);
    ClosedNumber(half.b, half.a);
    StepsOn(half, [], Event(false, Action.Arrive(finA)));
    var w1 := Next(half, Event(false, Action.Arrive(finA)));
    InvOfWorld(w1);
    assert Possible(w1, Event(true, Action.Arrive(finB))) by { AnswerIsPossible(w1, finB); }
    ackA := FinArrives(w1.b, w1.a, finB);
    StepsOn(half, [] + [Event(false, Action.Arrive(finA))], Event(true, Action.Arrive(finB)));
    es := [] + [Event(false, Action.Arrive(finA))] + [Event(true, Action.Arrive(finB))];
    var w2 := Next(w1, Event(true, Action.Arrive(finB)));
    SentNumber(ackB, w1.b.tcb, 0x10);
    SentNumber(ackA, w2.a.tcb, 0x10);
  }

  lemma ClosedNumber(p: Party, q: Party)
    requires Local(p, q) && p.tcb.inUse && p.tcb.state == FinWait1
    ensures p.tcb.sendSeq == B(p) + |p.sent| + 1
  {
    hide Received, Fits, Unacked;
  }

  /** Both close before either FIN arrives: both pass through CLOSING to TIME_WAIT. */
  lemma BothClose(w: World) returns (es: seq<Event>, n: nat)
    requires Quiet(w)
    ensures Permitted(w, es) && 2 < n < |es| && es[..2] == [Event(true, Shut), Event(false, Shut)]
    ensures InState(Replay(w, es[..n]), Closing)
    ensures var r := Replay(w, es); InState(r, TimeWait) && SameStreams(w, r) && WorldInv(r)
  {
    hide WorldInv, Local, Legit, Perform, Grows, Valid, Fits, Permitted, Replay, With, SentBy, FinsCross;
    var shut, finA, finB := BothShut(w);
    var w2 := Replay(w, shut);
    assert FitsBoth(w2) by { PermittedFits(w, shut); }
    var taken, ackA, ackB := FinsArrive(w, w2, finA, finB);
    var w4 := Replay(w2, taken);
    Concatenate(w, shut, taken);
    InvOfWorld(w4);
    var e4 := shut + taken;
    n := |e4|;

    assert Possible(w4, Event(true, Action.Arrive(ackB))) by { AnswerIsPossible(w4, ackB); }
    FinIsAcked(w4.a, w4.b, ackB);
    StepsOn(w, e4, Event(true, Action.Arrive(ackB)));
    var w5 := Next(w4, Event(true, Action.Arrive(ackB)));
    InvOfWorld(w5);
    assert Possible(w5, Event(false, Action.Arrive(ackA))) by { ArrivalIsPossible(w5, ackA); }
    FinIsAcked(w5.b, w5.a, ackA);
    var e5 := e4 + [Event(true, Action.Arrive(ackB))];
    StepsOn(w, e5, Event(false, Action.Arrive(ackA)));
    es := e5 + [Event(false, Action.Arrive(ackA))];
    assert es[..n] == e4;
  }

  // ---------------------------------------------------------------- a whole life

  /** Any two endpoints, any chunks both ways: among the runs is one that opens the connection, brings every
      byte of both streams to the application on the other side, and closes on both sides, the side that closed
      last released and the other in TIME_WAIT. */
  lemma EverythingArrives(ipA: Ip, portA: u16, ipB: Ip, portB: u16, there: seq<seq<byte>>, back: seq<seq<byte>>)
    returns (ws: seq<World>, es: seq<Event>)
    requires Sendable(there) && Sendable(back)
    requires |Concat(there)| + 70000 < 0x1_0000_0000 && |Concat(back)| + 70000 < 0x1_0000_0000
    ensures IsRun(ws, es, TcpRun.Start(ipA, portA, ipB, portB))
    ensures var r := ws[|ws| - 1];
            && r.a.sent == Concat(there) == r.b.read && r.b.sent == Concat(back) == r.a.read
            && r.a.tcb.state == TimeWait && r.b.tcb == ZEROED
  {
    hide Permitted, Replay, Quiet, Possible, Next, HalfClosed;
    var w0 := TcpRun.Start(ipA, portA, ipB, portB);
    var opening := Opens(ipA, portA, ipB, portB);
    var w1 := Replay(w0, opening);
    assert [] + Concat(there) == Concat(there) && [] + Concat(back) == Concat(back);
    var sending := ChunksCross(w1, there);
    var w2 := Replay(w1, sending);
    var answering := ChunksCrossBack(w2, back);
    var w3 := Replay(w2, answering);
    var closing := HalfCloses(w3);
    var w4 := Replay(w3, closing);
    assert FitsBoth(w4) by { PermittedFits(w3, closing); }
    assert Served(w3.a, w3.b) && Served(w3.b, w3.a) by { QuietServes(w3); }
    var ending := OtherCloses(w3, w4);
    Concatenate(w0, opening, sending);
    Concatenate(w0, opening + sending, answering);
    Concatenate(w0, opening + sending + answering, closing);
    Concatenate(w0, opening + sending + answering + closing, ending);
    es := opening + sending + answering + closing + ending;
    ws := ScriptIsRun(w0, es);
  }

  lemma QuietServes(w: World)
    requires Quiet(w)
    ensures Served(w.a, w.b) && Served(w.b, w.a)
  {
    hide Local, Legit, Fits;
  }
}
