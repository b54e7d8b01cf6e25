/** What tcp_buffer_payload does to segments cut from one byte stream, whatever their order:
    the in-order part is always the longest received prefix, and the slots hold the rest. */
module TcpReassembly {
  import opened Base
  import opened TcpSpec
  import TcpWire

  /** The stream and its FIN end below 2^32: sequence numbers are compared with `<`. */
  ghost predicate Fits(base: nat, stream: seq<byte>) {
    base + |stream| + 1 < 0x1_0000_0000
  }

  /** The slots hold only bytes of the stream, each in the place of its position. */
  ghost predicate SlotsHold(slots: seq<Option<byte>>, stream: seq<byte>, pos: nat) {
    && pos <= |stream| && |slots| == BUFFER_SIZE
    && (forall i :: 0 <= i < BUFFER_SIZE && slots[i].Some? ==> pos + i < |stream| && slots[i].value == stream[pos + i])
  }

  ghost predicate Consistent(rx: Reassembly, base: nat, stream: seq<byte>, pos: nat) {
    SlotsHold(rx.slots, stream, pos) && rx.recvSeq == base + pos
  }

  ghost predicate CutFrom(base: nat, stream: seq<byte>, seqNum: u32, payload: seq<byte>) {
    && base <= seqNum && seqNum - base + |payload| <= |stream|
    && payload == stream[seqNum - base..seqNum - base + |payload|]
  }

  /** Both sides of one call: what was filed and how far the front moved. */
  lemma MergedSlots(rx: Reassembly, base: nat, stream: seq<byte>, pos: nat, offset: nat, news: seq<byte>)
    requires Consistent(rx, base, stream, pos)
    requires offset + |news| <= BUFFER_SIZE && pos + offset + |news| <= |stream|
    requires news == stream[pos + offset..pos + offset + |news|]
    ensures Consistent(rx.(slots := Merge(rx.slots, offset, news)), base, stream, pos)
  {
  }

  lemma ShiftedSlots(rx: Reassembly, base: nat, stream: seq<byte>, pos: nat)
    requires Consistent(rx, base, stream, pos) && Fits(base, stream)
    ensures var n := Ready(rx.slots);
            && pos + n <= |stream| && Bytes(rx.slots[..n]) == stream[pos..pos + n]
            && Consistent(Reassembly(Wrap32(rx.recvSeq + n), [], Shift(rx.slots, n)), base, stream, pos + n)
  {
    var n := Ready(rx.slots);
    if n > 0 {
      assert rx.slots[n - 1].Some?;
    }
    var b := Bytes(rx.slots[..n]);
    forall i | 0 <= i < n
      ensures b[i] == stream[pos + i]
    {
      assert rx.slots[..n][i] == rx.slots[i];
    }
  }

  /** Where the bytes of a segment go: trimmed to what is new, at its distance from the front. */
  lemma Trimmed(rx: Reassembly, base: nat, stream: seq<byte>, pos: nat, seqNum: u32, payload: seq<byte>)
    requires Consistent(rx, base, stream, pos) && Fits(base, stream) && CutFrom(base, stream, seqNum, payload)
    ensures var start := seqNum - base; var stale := if start < pos then pos - start else 0;
            && (stale < |payload| ==>
                  && Offer(rx, seqNum, payload) == StoreAt(rx, start + stale - pos, payload[stale..])
                  && payload[stale..] == stream[start + stale..start + |payload|])
            && (stale >= |payload| ==> Offer(rx, seqNum, payload) == (Duplicate, rx))
  {
    hide StoreAt;
  }

  /** Filing bytes at their place and moving the front. */
  lemma StoreKeeps(rx: Reassembly, base: nat, stream: seq<byte>, pos: nat, offset: nat, news: seq<byte>)
    returns (next: nat)
    requires Consistent(rx, base, stream, pos) && Fits(base, stream) && pos + offset + |news| <= |stream|
    requires news == stream[pos + offset..pos + offset + |news|]
    ensures var (verdict, after) := StoreAt(rx, offset, news);
            && pos <= next <= |stream| && after.data == rx.data + stream[pos..next]
            && Consistent(after, base, stream, next)
            && verdict in {Stored, Refused} && (verdict == Refused ==> next == pos && after == rx)
            && (verdict == Stored ==>
                  offset + |news| <= BUFFER_SIZE && next == pos + Ready(Merge(rx.slots, offset, news))
                                      && after.slots == Shift(Merge(rx.slots, offset, news), next - pos))
  {
    hide Merge, Shift, Ready, Count, Bytes, SlotsHold;
    next := pos;
    assert rx.data + stream[pos..pos] == rx.data;
    if offset + |news| <= BUFFER_SIZE {
      MergedSlots(rx, base, stream, pos, offset, news);
      var merged := rx.(slots := Merge(rx.slots, offset, news));
      ShiftedSlots(merged, base, stream, pos);
      if StoreAt(rx, offset, news).0 == Stored {
        next := pos + Ready(merged.slots);
      }
    }
  }

  /** A call appends the next bytes of the stream to the readable ones and nothing else. */
  lemma OfferKeeps(rx: Reassembly, base: nat, stream: seq<byte>, pos: nat, seqNum: u32, payload: seq<byte>)
    returns (next: nat)
    requires Consistent(rx, base, stream, pos) && Fits(base, stream) && CutFrom(base, stream, seqNum, payload)
    ensures var after := Offer(rx, seqNum, payload).1;
            && pos <= next <= |stream| && after.data == rx.data + stream[pos..next]
            && Consistent(after, base, stream, next)
  {
    hide StoreAt, Offer;
    next := pos;
    Trimmed(rx, base, stream, pos, seqNum, payload);
    var start := seqNum - base;
    var stale := if start < pos then pos - start else 0;
    if stale < |payload| {
      next := StoreKeeps(rx, base, stream, pos, start + stale - pos, payload[stale..]);
    } else {
      assert rx.data + stream[pos..pos] == rx.data;
    }
  }

  /** Exactly which segments of a stream are refused: those reaching past the 4096-byte window, and
      those whose new bytes do not fit beside the unread and the waiting ones. */
  lemma RefusedIff(rx: Reassembly, base: nat, stream: seq<byte>, pos: nat, seqNum: u32, payload: seq<byte>)
    requires Consistent(rx, base, stream, pos) && Fits(base, stream) && CutFrom(base, stream, seqNum, payload)
    ensures var start := seqNum - base; var end := start + |payload|;
            Offer(rx, seqNum, payload).0 == Refused <==>
            && end > pos && |payload| > 0
            && (end > pos + BUFFER_SIZE ||
                var at := if start < pos then 0 else start - pos;
                |rx.data| + Count(Merge(rx.slots, at, stream[pos + at..end])) > BUFFER_SIZE)
  {
    hide Offer, Count, Merge, Ready, Shift, Bytes, Consistent;
    Trimmed(rx, base, stream, pos, seqNum, payload);
  }

  // ---------------------------------------------------------------- order independence

  /** The filled slots are exactly the accepted positions at or past the front. */
  ghost predicate Marks(slots: seq<Option<byte>>, pos: nat, accepted: set<nat>)
    requires |slots| == BUFFER_SIZE
  {
    forall p: nat :: p in accepted <==> p < pos || (p - pos < BUFFER_SIZE && slots[p - pos].Some?)
  }

  /** rx is what the set of accepted stream positions determines; pos is the first one missing. */
  ghost predicate Represents(rx: Reassembly, base: nat, stream: seq<byte>, pos: nat, accepted: set<nat>) {
    Consistent(rx, base, stream, pos) && Marks(rx.slots, pos, accepted) && pos !in accepted
  }

  ghost function Range(lo: nat, n: nat): (r: set<nat>)
    ensures forall p :: p in r <==> lo <= p < lo + n
  {
    if n == 0 then {} else Range(lo, n - 1) + {lo + n - 1}
  }

  datatype Input = Arrive(seqNum: u32, payload: seq<byte>) | Read(maxLen: nat)

  /** The application's view: what it has read, and the buffer behind it. */
  datatype Receiver = Receiver(read: seq<byte>, rx: Reassembly)

  function Start(base: u32): Receiver {
    Receiver([], Reassembly(base, [], Empty(BUFFER_SIZE)))
  }

  function Step(r: Receiver, input: Input): Receiver {
    match input
    case Arrive(seqNum, payload) => r.(rx := Offer(r.rx, seqNum, payload).1)
    case Read(maxLen) =>
      var n := if |r.rx.data| < maxLen then |r.rx.data| else maxLen;
      Receiver(r.read + r.rx.data[..n], r.rx.(data := r.rx.data[n..]))
  }

  function Run(r: Receiver, inputs: seq<Input>): Receiver {
    if |inputs| == 0 then r else Step(Run(r, inputs[..|inputs| - 1]), inputs[|inputs| - 1])
  }

  /** The stream positions of all segments the buffer said yes to. */
  ghost function Accepted(r: Receiver, inputs: seq<Input>, base: nat): set<nat>
    requires forall k :: 0 <= k < |inputs| && inputs[k].Arrive? ==> base <= inputs[k].seqNum
  {
    if |inputs| == 0 then {} else
    var last := inputs[|inputs| - 1];
    var before := inputs[..|inputs| - 1];
    Accepted(r, before, base) +
    if last.Arrive? && Offer(Run(r, before).rx, last.seqNum, last.payload).0 != Refused
    then Range(last.seqNum - base, |last.payload|) else {}
  }

  lemma StoreRepresents(rx: Reassembly, base: nat, stream: seq<byte>, pos: nat, accepted: set<nat>,
                        start: nat, len: nat, stale: nat, news: seq<byte>)
    returns (next: nat)
    requires Represents(rx, base, stream, pos, accepted) && Fits(base, stream) && start + len <= |stream|
    requires stale == (if start < pos then pos - start else 0) && stale < len
    requires news == stream[start + stale..start + len]
    ensures var (verdict, after) := StoreAt(rx, start + stale - pos, news);
            && pos <= next <= |stream| && after.data == rx.data + stream[pos..next]
            && Represents(after, base, stream, next,
                          if verdict == Refused then accepted else accepted + Range(start, len))
  {
    hide StoreAt, Merge, Shift, Marks, Ready, Count, Bytes;
    next := StoreKeeps(rx, base, stream, pos, start + stale - pos, news);
    var verdict := StoreAt(rx, start + stale - pos, news).0;
    if verdict == Stored {
      MergedPositions(rx, base, stream, pos, accepted, start, len, stale, news);
      ShiftedPositions(Merge(rx.slots, start + stale - pos, news), pos, accepted + Range(start, len));
    }
  }

  lemma OfferRepresents(rx: Reassembly, base: nat, stream: seq<byte>, pos: nat, accepted: set<nat>,
                        seqNum: u32, payload: seq<byte>)
    returns (next: nat)
    requires Represents(rx, base, stream, pos, accepted) && Fits(base, stream) && CutFrom(base, stream, seqNum, payload)
    ensures var (verdict, after) := Offer(rx, seqNum, payload);
            && pos <= next <= |stream| && after.data == rx.data + stream[pos..next]
            && Represents(after, base, stream, next,
                          if verdict == Refused then accepted else accepted + Range(seqNum - base, |payload|))
  {
    hide StoreAt, Offer;
    Trimmed(rx, base, stream, pos, seqNum, payload);
    var start := seqNum - base;
    var stale := if start < pos then pos - start else 0;
    if stale < |payload| {
      next := StoreRepresents(rx, base, stream, pos, accepted, start, |payload|, stale, payload[stale..]);
    } else {
      next := pos;
      assert accepted + Range(start, |payload|) == accepted;
      assert rx.data + stream[pos..pos] == rx.data;
    }
  }

  lemma MergedPositions(rx: Reassembly, base: nat, stream: seq<byte>, pos: nat, accepted: set<nat>,
                        start: nat, len: nat, stale: nat, news: seq<byte>)
    requires Represents(rx, base, stream, pos, accepted)
    requires stale == (if start < pos then pos - start else 0) && stale < len && |news| == len - stale
    requires start + len <= pos + BUFFER_SIZE
    ensures Marks(Merge(rx.slots, start + stale - pos, news), pos, accepted + Range(start, len))
  {
  }

  lemma ShiftedPositions(merged: seq<Option<byte>>, pos: nat, all: set<nat>)
    requires |merged| == BUFFER_SIZE && Marks(merged, pos, all)
    ensures var n := Ready(merged); Marks(Shift(merged, n), pos + n, all) && pos + n !in all
  {
    hide Ready, Shift;
    var n := Ready(merged);
    forall p: nat
      ensures p in all <==> p < pos + n || (p - pos - n < BUFFER_SIZE && Shift(merged, n)[p - pos - n].Some?)
    {
      assert p in all <==> p < pos || (p - pos < BUFFER_SIZE && merged[p - pos].Some?);
      if pos + n <= p < pos + n + BUFFER_SIZE {
        ShiftAt(merged, n, p - pos - n);
      }
    }
    assert pos + n in all <==> n < BUFFER_SIZE && merged[n].Some?;
  }

  lemma ShiftAt(slots: seq<Option<byte>>, n: nat, i: nat)
    requires n <= |slots| && i < |slots|
    ensures Shift(slots, n)[i] == if i + n < |slots| then slots[i + n] else None
  {
  }

  ghost predicate AllCut(inputs: seq<Input>, base: nat, stream: seq<byte>) {
    forall k :: 0 <= k < |inputs| && inputs[k].Arrive? ==> CutFrom(base, stream, inputs[k].seqNum, inputs[k].payload)
  }

  /** A receiver that starts empty is, after any inputs, what its accepted set determines, and the
      bytes read followed by the readable ones are the stream up to the first missing byte. */
  lemma {:induction false} RunRepresents(inputs: seq<Input>, base: u32, stream: seq<byte>) returns (pos: nat)
    requires Fits(base, stream) && AllCut(inputs, base, stream)
    ensures var start := Start(base);
            var r := Run(start, inputs);
            && Represents(r.rx, base, stream, pos, Accepted(start, inputs, base))
            && r.read + r.rx.data == stream[..pos]
  {
    var start := Start(base);
    hide Step, Represents, Offer;
    if |inputs| == 0 {
      pos := 0;
      StartRepresents(base, stream);
    } else {
      var before, last := inputs[..|inputs| - 1], inputs[|inputs| - 1];
      pos := RunRepresents(before, base, stream);
      pos := StepRepresents(Run(start, before), base, stream, pos, Accepted(start, before, base), last);
    }
  }

  lemma StartRepresents(base: u32, stream: seq<byte>)
    ensures Represents(Start(base).rx, base, stream, 0, {})
  {
  }

  lemma StepRepresents(r: Receiver, base: nat, stream: seq<byte>, pos: nat, accepted: set<nat>, input: Input)
    returns (next: nat)
    requires Represents(r.rx, base, stream, pos, accepted) && r.read + r.rx.data == stream[..pos]
    requires Fits(base, stream) && (input.Arrive? ==> CutFrom(base, stream, input.seqNum, input.payload))
    ensures var r' := Step(r, input);
            && Represents(r'.rx, base, stream, next,
                 accepted + if input.Arrive? && Offer(r.rx, input.seqNum, input.payload).0 != Refused
                            then Range(input.seqNum - base, |input.payload|) else {})
            && r'.read + r'.rx.data == stream[..next]
  {
    hide Offer;
    assert accepted + {} == accepted;
    match input {
      case Read(maxLen) =>
        next := pos;
      case Arrive(seqNum, payload) =>
        next := OfferRepresents(r.rx, base, stream, pos, accepted, seqNum, payload);
        assert stream[..next] == stream[..pos] + stream[pos..next];
    }
  }

  lemma SameSetSameState(a: Reassembly, b: Reassembly, base: nat, stream: seq<byte>, p: nat, q: nat, accepted: set<nat>)
    requires Represents(a, base, stream, p, accepted) && Represents(b, base, stream, q, accepted)
    ensures p == q && a.recvSeq == b.recvSeq && a.slots == b.slots
  {
    assert p in accepted <==> p < q || (p - q < BUFFER_SIZE && b.slots[p - q].Some?);
    assert q in accepted <==> q < p || (q - p < BUFFER_SIZE && a.slots[q - p].Some?);
    forall i | 0 <= i < BUFFER_SIZE
      ensures a.slots[i] == b.slots[i]
    {
      assert p + i in accepted <==> a.slots[i].Some?;
      assert q + i in accepted <==> b.slots[i].Some?;
    }
  }

  /** Reassembly is order-independent: two runs over segments of one stream, in any order, with any
      overlaps and any reads in between, that accepted the same bytes end with the same next
      sequence number, the same waiting bytes and the same bytes handed over or ready. */
  lemma OrderIndependent(xs: seq<Input>, ys: seq<Input>, base: u32, stream: seq<byte>)
    requires Fits(base, stream) && AllCut(xs, base, stream) && AllCut(ys, base, stream)
    requires var start := Start(base);
             Accepted(start, xs, base) == Accepted(start, ys, base)
    ensures var start := Start(base);
            var x, y := Run(start, xs), Run(start, ys);
            x.rx.recvSeq == y.rx.recvSeq && x.rx.slots == y.rx.slots && x.read + x.rx.data == y.read + y.rx.data
  {
    var start := Start(base);
    var p := RunRepresents(xs, base, stream);
    var q := RunRepresents(ys, base, stream);
    SameSetSameState(Run(start, xs).rx, Run(start, ys).rx, base, stream, p, q, Accepted(start, xs, base));
  }

  /** Exactly where plain comparison of sequence numbers goes wrong, for every state of the buffer: a
      payload that starts k bytes into the window is filed at its place if its number has not wrapped,
      and is otherwise dropped as a duplicate without a trace. */
  lemma FiledUnlessWrapped(rx: Reassembly, k: nat, payload: seq<byte>)
    requires k < BUFFER_SIZE && 0 < |payload| <= TcpWire.MAX_PAYLOAD
    ensures Offer(rx, Wrap32(rx.recvSeq + k), payload) ==
            if rx.recvSeq + k < 0x1_0000_0000 then StoreAt(rx, k, payload) else (Duplicate, rx)
  {
    hide StoreAt;
    assert payload[0..] == payload;
  }

  /** The smallest instance: the byte after sequence number 2^32 - 1. */
  lemma NewByteLostAtTheWrap()
    ensures var rx := Reassembly(0xFFFF_FFFF, [], Empty(BUFFER_SIZE));
            Offer(rx, Wrap32(rx.recvSeq + 1), [7]) == (Duplicate, rx)
  {
    FiledUnlessWrapped(Reassembly(0xFFFF_FFFF, [], Empty(BUFFER_SIZE)), 1, [7]);
  }
}
