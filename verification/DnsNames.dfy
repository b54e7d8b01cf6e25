/** Domain names on the wire: length-prefixed labels (layer7/dns_server.c, section 3.1 of RFC 1035).
    Names are the bytes of C strings. */
module DnsNames {
  import opened Base

  const MAX_NAME := 256
  const DOT: byte := 46
  /** Length bytes from here on are compression pointers. */
  const POINTER_MARK := 0xC0

  /** Where the first label ends: at the first dot or at the end. */
  function NextDot(p: seq<byte>): (k: nat)
    ensures k <= |p| && (k < |p| ==> p[k] == DOT) && forall i :: 0 <= i < k ==> p[i] != DOT
  {
    if |p| == 0 || p[0] == DOT then 0 else 1 + NextDot(p[1..])
  }

  /** The labels of a name, each behind its length; nothing follows a final dot. */
  function Labels(p: seq<byte>): (s: seq<byte>)
    ensures |p| <= |s| <= |p| + 1
    decreases |p|
  {
    if |p| == 0 then [] else
      var k := NextDot(p);
      [k % 0x100] + p[..k] + if k < |p| then Labels(p[k + 1..]) else []
  }

  /** dns_encode_name into a 256-byte buffer. */
  function EncodeName(name: seq<byte>): Option<seq<byte>> {
    if |Labels(name)| + 1 > MAX_NAME then None else Some(Labels(name) + [0])
  }

  /** The dot between two labels, if there is room for it. */
  function Dotted(name: seq<byte>): seq<byte> {
    if 0 < |name| < MAX_NAME - 1 then name + [DOT] else name
  }

  predicate IsPointer(s: seq<byte>, pos: nat) {
    pos < |s| && s[pos] >= POINTER_MARK
  }

  /** Which byte is taken for the low half of a pointer at pos. Before the first jump the position has
      already been moved behind the pointer, so it is the second byte behind it. */
  function LowByte(pos: nat, jumped: bool): nat {
    if jumped then pos + 1 else pos + 3
  }

  /** Where a pointer at pos leads to, if that is inside: an offset from where the name starts, not from
      where the message starts. */
  function Target(s: seq<byte>, pos: nat, jumped: bool): (r: Option<nat>)
    requires IsPointer(s, pos)
    ensures r.Some? ==> r.value < |s|
  {
    var low := LowByte(pos, jumped);
    if low >= |s| then None else
    var target := (s[pos] - POINTER_MARK) * 0x100 + s[low];
    if target >= |s| then None else Some(target)
  }

  /** One turn of the loop of dns_decode_name, with name read so far: where it goes on, if it does. */
  function Next(s: seq<byte>, pos: nat, name: seq<byte>, jumped: bool): (r: Option<(nat, seq<byte>)>)
    requires pos <= |s|
    ensures r.Some? ==> r.value.0 <= |s|
    ensures r.Some? ==> if IsPointer(s, pos) then r.value.1 == name else |name| < |r.value.1| < MAX_NAME
  {
    if pos == |s| then None
    else if IsPointer(s, pos) then
      var target := Target(s, pos, jumped);
      if target.None? then None else Some((target.value, name))
    else
      var len := s[pos] as int;
      if len == 0 || pos + 1 + len > |s| || |Dotted(name)| + len >= MAX_NAME then None
      else Some((pos + 1 + len, Dotted(name) + s[pos + 1..pos + 1 + len]))
  }

  /** What dns_decode_name finds at the start of some bytes; Cyclic if it never ends, Overread if it reads
      behind them. */
  datatype Decoded = Name(name: seq<byte>, consumed: nat) | Bad | Cyclic | Overread

  /** The result if the loop ends here. */
  function Ended(s: seq<byte>, pos: nat, name: seq<byte>, jumped: bool): Decoded
    requires pos <= |s|
  {
    if pos == |s| then Name(name, if jumped then 2 else pos)
    else if s[pos] == 0 then Name(name, if jumped then 2 else pos + 1)
    else if IsPointer(s, pos) && pos + 2 <= |s| && LowByte(pos, jumped) >= |s| then Overread
    else Bad
  }

  function All(n: nat): (r: set<nat>)
    ensures forall i: nat :: i in r <==> i < n
  {
    if n == 0 then {} else All(n - 1) + {n - 1}
  }

  /** The loop of dns_decode_name; left holds the positions from which no pointer has been followed since
      the first jump or the last label. */
  function Loop(s: seq<byte>, pos: nat, name: seq<byte>, jumped: bool, left: set<nat>): (d: Decoded)
    requires pos <= |s|
    ensures d.Name? ==> d.consumed <= |s| || d.consumed == 2
    ensures d.Name? && jumped ==> d.consumed == 2
    decreases MAX_NAME - |name|, if jumped then 0 else 1, |left|
  {
    var next := Next(s, pos, name, jumped);
    if next.None? then Ended(s, pos, name, jumped)
    else if !IsPointer(s, pos) then Loop(s, next.value.0, next.value.1, jumped, All(|s|))
    else if !jumped then Loop(s, next.value.0, name, true, All(|s|))
    else if pos !in left then Cyclic
    else Loop(s, next.value.0, name, true, left - {pos})
  }

  /** dns_decode_name. */
  function DecodeName(s: seq<byte>): Decoded {
    Loop(s, 0, [], false, All(|s|))
  }

  /** Non-empty labels of at most 191 bytes with single dots between them. */
  predicate Proper(p: seq<byte>)
    decreases |p|
  {
    var k := NextDot(p);
    1 <= k < POINTER_MARK && (k < |p| ==> k + 1 < |p| && Proper(p[k + 1..]))
  }

  predicate WellFormed(name: seq<byte>) {
    |name| == 0 || Proper(name)
  }

  function Joined(name: seq<byte>, p: seq<byte>): seq<byte> {
    if |name| == 0 then p else name + [DOT] + p
  }

  /** What follows the first label and its dot. */
  function Rest(p: seq<byte>): (r: seq<byte>)
    ensures |r| <= |p| && (|p| > 0 ==> |r| < |p|)
  {
    if NextDot(p) < |p| then p[NextDot(p) + 1..] else []
  }

  /** The name read so far and the first label of p. */
  function Extended(name: seq<byte>, p: seq<byte>): seq<byte> {
    Dotted(name) + p[..NextDot(p)]
  }

  lemma LabelsAre(p: seq<byte>)
    requires |p| > 0
    ensures Labels(p) == [NextDot(p) % 0x100] + p[..NextDot(p)] + Labels(Rest(p))
  {
  }

  lemma Peel(s: seq<byte>, pos: nat, first: byte, text: seq<byte>, later: seq<byte>)
    requires pos <= |s| && s[pos..] == [first] + text + later
    ensures pos < |s| && s[pos] == first && pos + 1 + |text| <= |s|
    ensures s[pos + 1..pos + 1 + |text|] == text && s[pos + 1 + |text|..] == later
  {
    var r := s[pos..];
    assert r[0] == first && r[1..1 + |text|] == text && r[1 + |text|..] == later;
  }

  /** What decoding does with the first label of an encoded name. */
  lemma DecodeFirst(s: seq<byte>, pos: nat, p: seq<byte>, tail: seq<byte>, name: seq<byte>, jumped: bool,
                    left: set<nat>)
    requires pos <= |s| && s[pos..] == Labels(p) + tail && |p| > 0 && |Labels(p)| < MAX_NAME
    ensures |Labels(p)| == 1 + NextDot(p) + |Labels(Rest(p))| && pos + 1 + NextDot(p) <= |s|
    ensures s[pos + 1 + NextDot(p)..] == Labels(Rest(p)) + tail
    ensures IsPointer(s, pos) <==> NextDot(p) >= POINTER_MARK
    ensures var k := NextDot(p); var d := Loop(s, pos, name, jumped, left);
            && (k == 0 ==> d == Name(name, if jumped then 2 else pos + 1))
            && (0 < k < POINTER_MARK && |Dotted(name)| + k < MAX_NAME ==>
                  d == Loop(s, pos + 1 + k, Extended(name, p), jumped, All(|s|)))
  {
    hide Labels, Rest, NextDot, Dotted, Loop;
    LabelsAre(p);
    var k := NextDot(p);
    var first: byte := k % 0x100;
    assert s[pos..] == [first] + p[..k] + (Labels(Rest(p)) + tail);
    Peel(s, pos, first, p[..k], Labels(Rest(p)) + tail);
    if k < POINTER_MARK {
      LabelTurn(s, pos, name, jumped, left);
    }
  }

  lemma JoinedParts(name: seq<byte>, a: seq<byte>, r: seq<byte>)
    requires |a| > 0 && |Joined(name, a + [DOT] + r)| < MAX_NAME
    ensures Joined(Dotted(name) + a, r) == Joined(name, a + [DOT] + r)
  {
    if |name| == 0 {
      assert Dotted(name) + a == a;
    } else {
      assert Dotted(name) == name + [DOT];
    }
  }

  lemma JoinedLast(name: seq<byte>, p: seq<byte>)
    requires |Joined(name, p)| < MAX_NAME
    ensures Dotted(name) + p == if |p| == 0 then Dotted(name) else Joined(name, p)
    ensures |p| > 0 ==> |Dotted(name)| + |p| == |Joined(name, p)|
  {
    if |name| == 0 {
      assert Dotted(name) + p == p;
    }
  }

  lemma SplitAt(p: seq<byte>, k: nat)
    requires k < |p| && p[k] == DOT
    ensures p == p[..k] + [DOT] + p[k + 1..]
  {
  }

  /** Reading one more label: the whole name to come stays the same, unless a dot is trailing. */
  lemma JoinedOn(p: seq<byte>, name: seq<byte>)
    requires |p| > 0 && |Joined(name, p)| < MAX_NAME && NextDot(p) > 0
    ensures |Extended(name, p)| > 0 && |Dotted(name)| + NextDot(p) < MAX_NAME
    ensures |Rest(p)| > 0 ==> NextDot(p) < |p| && Joined(Extended(name, p), Rest(p)) == Joined(name, p)
    ensures |Rest(p)| == 0 && NextDot(p) == |p| ==> Extended(name, p) == Joined(name, p)
    ensures NextDot(p) < |p| ==> |Extended(name, p)| < |Joined(name, p)|
  {
    var k := NextDot(p);
    hide NextDot, Joined, Dotted;
    JoinedLast(name, p);
    if k < |p| {
      SplitAt(p, k);
      JoinedParts(name, p[..k], p[k + 1..]);
    } else {
      assert p[..k] == p;
    }
  }

  lemma ProperUnfold(p: seq<byte>)
    ensures Proper(p) <==>
              1 <= NextDot(p) < POINTER_MARK && if |Rest(p)| > 0 then Proper(Rest(p)) else NextDot(p) == |p|
  {
    hide NextDot;
  }

  /** Reading the labels of a proper name, whatever follows them. */
  lemma {:induction false} ProperRead(s: seq<byte>, pos: nat, p: seq<byte>, tail: seq<byte>, name: seq<byte>,
                                      jumped: bool, left: set<nat>)
    requires pos <= |s| && s[pos..] == Labels(p) + tail
    requires Proper(p) && |Labels(p)| < MAX_NAME && |Joined(name, p)| < MAX_NAME
    ensures pos + |Labels(p)| <= |s| && s[pos + |Labels(p)|..] == tail
    ensures Loop(s, pos, name, jumped, left) == Loop(s, pos + |Labels(p)|, Joined(name, p), jumped, All(|s|))
    decreases |p|
  {
    hide Labels, Loop, NextDot, Joined, Dotted, Extended, Rest, Proper, IsPointer;
    ProperUnfold(p);
    DecodeFirst(s, pos, p, tail, name, jumped, left);
    JoinedOn(p, name);
    if |Rest(p)| > 0 {
      ProperRead(s, pos + 1 + NextDot(p), Rest(p), tail, Extended(name, p), jumped, All(|s|));
    } else {
      assert Rest(p) == [];
      NoLabels();
    }
  }

  lemma {:induction false} ImproperLost(s: seq<byte>, pos: nat, p: seq<byte>, tail: seq<byte>, name: seq<byte>,
                                        left: set<nat>)
    requires pos <= |s| && s[pos..] == Labels(p) + ([0] + tail)
    requires |p| > 0 && !Proper(p) && |Labels(p)| < MAX_NAME && |Joined(name, p)| < MAX_NAME
    ensures Loop(s, pos, name, false, left) != Name(Joined(name, p), pos + |Labels(p)| + 1)
    decreases |p|
  {
    hide Labels, Loop, NextDot, Joined, Dotted, Extended, Rest, Proper, IsPointer;
    ProperUnfold(p);
    DecodeFirst(s, pos, p, [0] + tail, name, false, left);
    if NextDot(p) >= POINTER_MARK {
      PointerConsumesTwo(s, pos, name, left);
    } else if NextDot(p) > 0 {
      JoinedOn(p, name);
      var next := pos + 1 + NextDot(p);
      if |Rest(p)| > 0 {
        ImproperLost(s, next, Rest(p), tail, Extended(name, p), All(|s|));
      } else {
        assert Rest(p) == [];
        NoLabels();
        EndsName(s, next, tail, Extended(name, p), false, All(|s|));
      }
    }
  }

  lemma PointerConsumesTwo(s: seq<byte>, pos: nat, name: seq<byte>, left: set<nat>)
    requires pos <= |s| && IsPointer(s, pos)
    ensures var d := Loop(s, pos, name, false, left); d.Name? ==> d.consumed == 2
  {
  }

  lemma EndsName(s: seq<byte>, pos: nat, tail: seq<byte>, name: seq<byte>, jumped: bool, left: set<nat>)
    requires pos <= |s| && s[pos..] == [0] + tail
    ensures Loop(s, pos, name, jumped, left) == Name(name, if jumped then 2 else pos + 1)
  {
    assert s[pos] == s[pos..][0];
  }

  lemma ProperWhole(s: seq<byte>, name: seq<byte>, tail: seq<byte>)
    requires s[0..] == Labels(name) + ([0] + tail) && |Labels(name)| < MAX_NAME && Proper(name)
    ensures Loop(s, 0, [], false, All(|s|)) == Name(name, |Labels(name)| + 1)
  {
    hide Loop, Proper, Labels, Joined, All, IsPointer, Next;
    NothingJoined(name);
    ProperRead(s, 0, name, [0] + tail, [], false, All(|s|));
    EndsName(s, |Labels(name)|, tail, name, false, All(|s|));
  }

  lemma ImproperWhole(s: seq<byte>, name: seq<byte>, tail: seq<byte>)
    requires s[0..] == Labels(name) + ([0] + tail) && |Labels(name)| < MAX_NAME && |name| > 0 && !Proper(name)
    ensures Loop(s, 0, [], false, All(|s|)) != Name(name, |Labels(name)| + 1)
  {
    hide Loop, Proper, Labels, Joined, All, IsPointer, Next;
    NothingJoined(name);
    ImproperLost(s, 0, name, tail, [], All(|s|));
  }

  /** Decoding an encoded name, whatever follows it, gives the name back and consumes exactly its
      encoding, if and only if no label is empty or longer than 191 bytes and no dot is trailing. */
  lemma NameRoundTrip(name: seq<byte>, tail: seq<byte>)
    requires EncodeName(name).Some?
    ensures var enc := EncodeName(name).value;
            DecodeName(enc + tail) == Name(name, |enc|) <==> WellFormed(name)
  {
    hide Labels, Loop, Proper, All;
    var s := EncodeName(name).value + tail;
    assert s[0..] == Labels(name) + ([0] + tail);
    if |name| == 0 {
      NoLabels();
      EndsName(s, 0, tail, [], false, All(|s|));
    } else if Proper(name) {
      ProperWhole(s, name, tail);
    } else {
      ImproperWhole(s, name, tail);
    }
  }

  /** Behind the labels of a proper name, or at once, a pointer: where decoding goes on. The second byte
      of the pointer plays no part; the second byte behind the pointer takes its place. */
  lemma FirstPointer(s: seq<byte>, p: seq<byte>, high: byte, tail: seq<byte>)
    requires WellFormed(p) && |Labels(p)| < MAX_NAME && high >= POINTER_MARK && s == Labels(p) + ([high] + tail)
    ensures DecodeName(s) ==
            if |tail| == 0 then Bad
            else if |tail| < 3 then Overread
            else
              var target := (high - POINTER_MARK) * 0x100 + tail[2];
              if target >= |s| then Bad else Loop(s, target, p, true, All(|s|))
  {
    hide Loop, Proper, Labels, Joined, All;
    var at := |Labels(p)|;
    assert s[0..] == s && s[at..] == [high] + tail;
    if |p| > 0 {
      NothingJoined(p);
      ProperRead(s, 0, p, [high] + tail, [], false, All(|s|));
    } else {
      assert p == [];
      NoLabels();
    }
    assert s[at] == high && (|tail| > 2 ==> s[at + 3] == tail[2]);
    PointerTurn(s, at, p, false, All(|s|));
  }

  /** Section 4.1.4 of RFC 1035 asks for the labels and then the name at the pointer's offset. What comes
      out is the labels and then the name q at the offset FirstPointer gives, measured as a pointer alone:
      so the name is right exactly if the same name stands at both offsets, and the length exactly if no
      label comes first. */
  lemma CompressedName(s: seq<byte>, p: seq<byte>, high: byte, low: byte, tail: seq<byte>,
                       q: seq<byte>, afterQ: seq<byte>, meant: seq<byte>)
    requires WellFormed(p) && |Labels(p)| < MAX_NAME && high >= POINTER_MARK && |tail| >= 2
    requires s == Labels(p) + ([high] + ([low] + tail))
    requires Proper(q) && |Labels(q)| < MAX_NAME && |Joined(p, q)| < MAX_NAME
    requires var target := (high - POINTER_MARK) * 0x100 + tail[1];
             target < |s| && s[target..] == Labels(q) + ([0] + afterQ)
    ensures DecodeName(s) == Name(Joined(p, q), 2)
    ensures DecodeName(s).name == Joined(p, meant) <==> q == meant
    ensures DecodeName(s).consumed == |Labels(p)| + 2 <==> p == []
  {
    var target := (high - POINTER_MARK) * 0x100 + tail[1];
    hide Loop, Proper, Labels, Joined, All;
    FirstPointer(s, p, high, [low] + tail);
    ProperRead(s, target, q, [0] + afterQ, p, true, All(|s|));
    EndsName(s, target + |Labels(q)|, afterQ, Joined(p, q), true, All(|s|));
    JoinedInjective(p, q, meant);
    if |p| > 0 {
      LabelsAre(p);
    } else {
      assert p == [];
      NoLabels();
    }
  }

  lemma JoinedInjective(p: seq<byte>, a: seq<byte>, b: seq<byte>)
    ensures Joined(p, a) == Joined(p, b) <==> a == b
  {
    if Joined(p, a) == Joined(p, b) && |p| > 0 {
      assert a == Joined(p, a)[|p| + 1..] && b == Joined(p, b)[|p| + 1..];
    }
  }

  /** A first pointer to a pointer to itself. */
  lemma PointsToItself()
    ensures DecodeName([0xC0, 0, 0, 4, 0xC0, 4]) == Cyclic
  {
    var s: seq<byte> := [0xC0, 0, 0, 4, 0xC0, 4];
    hide Loop;
    NoLabels();
    assert s == Labels([]) + ([0xC0] + s[1..]);
    FirstPointer(s, [], 0xC0, s[1..]);
    PointerTurn(s, 4, [], true, All(6));
    PointerTurn(s, 4, [], true, All(6) - {4});
  }

  /** A pointer to the name "a" that is not followed: the name comes out empty. */
  lemma PointerNotFollowed()
    ensures DecodeName([0xC0, 4, 0, 2, 1, 97, 0]) == Name([], 2)
  {
    var s: seq<byte> := [0xC0, 4, 0, 2, 1, 97, 0];
    hide Loop;
    NoLabels();
    assert s == Labels([]) + ([0xC0] + s[1..]);
    FirstPointer(s, [], 0xC0, s[1..]);
    EndsName(s, 2, s[3..], [], true, All(7));
  }

  lemma NothingJoined(p: seq<byte>)
    ensures Joined([], p) == p
  {
  }

  // ---------------------------------------------------------------- when decoding ends

  /** Is the loop still going after n turns from here? */
  predicate Running(s: seq<byte>, pos: nat, name: seq<byte>, jumped: bool, n: nat)
    requires pos <= |s|
    decreases n
  {
    var next := Next(s, pos, name, jumped);
    n == 0 || (next.Some? && Running(s, next.value.0, next.value.1, jumped || IsPointer(s, pos), n - 1))
  }

  /** Pointers followed after the first jump, each to the next one and the last to the position at. */
  ghost predicate Chain(s: seq<byte>, chain: seq<nat>, at: nat) {
    forall i :: 0 <= i < |chain| ==> Hop(s, chain[i], Follower(chain, i, at))
  }

  function Follower(chain: seq<nat>, i: nat, at: nat): nat {
    if i + 1 < |chain| then chain[i + 1] else at
  }

  predicate Hop(s: seq<byte>, pos: nat, target: nat) {
    IsPointer(s, pos) && Target(s, pos, true) == Some(target)
  }

  lemma {:induction false} RoundAndRound(s: seq<byte>, chain: seq<nat>, i: nat, name: seq<byte>, n: nat)
    requires i < |chain| && Chain(s, chain, chain[0])
    ensures IsPointer(s, chain[i]) && Running(s, chain[i], name, true, n)
    decreases n
  {
    hide Target;
    var next := Follower(chain, i, chain[0]);
    assert Hop(s, chain[i], next);
    if n > 0 {
      assert Next(s, chain[i], name, true) == Some((next, name));
      RoundAndRound(s, chain, if i + 1 < |chain| then i + 1 else 0, name, n - 1);
    }
  }

  lemma NoChain(s: seq<byte>, at: nat)
    ensures Chain(s, [], at)
  {
  }

  lemma Longer(s: seq<byte>, chain: seq<nat>, pos: nat, at: nat)
    requires Chain(s, chain, pos) && IsPointer(s, pos) && Target(s, pos, true) == Some(at)
    ensures Chain(s, chain + [pos], at)
  {
    hide Target;
    var longer := chain + [pos];
    forall i | 0 <= i < |longer|
      ensures Hop(s, longer[i], Follower(longer, i, at))
    {
      if i < |chain| {
        assert Hop(s, chain[i], Follower(chain, i, pos));
      }
    }
  }

  lemma ClosedRuns(s: seq<byte>, chain: seq<nat>, pos: nat, name: seq<byte>, n: nat)
    requires pos in chain && Chain(s, chain, pos)
    ensures pos <= |s| && Running(s, pos, name, true, n)
  {
    hide Target, Running;
    var i :| 0 <= i < |chain| && chain[i] == pos;
    var round := chain[i..];
    forall k | 0 <= k < |round|
      ensures Hop(s, round[k], Follower(round, k, pos))
    {
      assert Hop(s, chain[i + k], Follower(chain, i + k, pos));
    }
    RoundAndRound(s, round, 0, name, n);
  }

  lemma {:induction false} CyclicRuns(s: seq<byte>, pos: nat, name: seq<byte>, jumped: bool, left: set<nat>,
                                      chain: seq<nat>, n: nat)
    requires pos <= |s| && Loop(s, pos, name, jumped, left) == Cyclic
    requires Chain(s, chain, pos) && forall i: nat :: i < |s| && i !in left ==> i in chain
    ensures Running(s, pos, name, jumped, n)
    decreases n
  {
    hide Target, Chain, All;
    if n > 0 {
      var next := Next(s, pos, name, jumped);
      if !IsPointer(s, pos) || !jumped {
        NoChain(s, next.value.0);
        CyclicRuns(s, next.value.0, next.value.1, jumped || IsPointer(s, pos), All(|s|), [], n - 1);
      } else if pos in left {
        Longer(s, chain, pos, next.value.0);
        CyclicRuns(s, next.value.0, name, true, left - {pos}, chain + [pos], n - 1);
      } else {
        ClosedRuns(s, chain, pos, name, n);
      }
    }
  }

  lemma {:induction false} Stops(s: seq<byte>, pos: nat, name: seq<byte>, jumped: bool, left: set<nat>) returns (n: nat)
    requires pos <= |s| && Loop(s, pos, name, jumped, left) != Cyclic
    ensures !Running(s, pos, name, jumped, n)
    decreases MAX_NAME - |name|, if jumped then 0 else 1, |left|
  {
    var next := Next(s, pos, name, jumped);
    n := 0;
    if next.Some? {
      if IsPointer(s, pos) {
        n := Stops(s, next.value.0, name, true, if jumped then left - {pos} else All(|s|));
      } else {
        n := Stops(s, next.value.0, next.value.1, jumped, All(|s|));
      }
    }
    n := n + 1;
  }

  /** Decoding never ends exactly if the result is Cyclic: after the first jump it came back to a pointer
      it had followed, without reading a label in between. Names that grow on every round are stopped by
      the buffer. */
  lemma EndlessExactly(s: seq<byte>)
    ensures DecodeName(s).Cyclic? <==> forall n: nat :: Running(s, 0, [], false, n)
  {
    hide Loop, Running;
    if DecodeName(s).Cyclic? {
      forall n: nat
        ensures Running(s, 0, [], false, n)
      {
        NoChain(s, 0);
        CyclicRuns(s, 0, [], false, All(|s|), [], n);
      }
    } else {
      var n := Stops(s, 0, [], false, All(|s|));
    }
  }

  // ---------------------------------------------------------------- the loops

  /** strchr(p, '.') - p, or strlen(p). */
  method FindDot(name: seq<byte>, from: nat) returns (dot: nat)
    requires from <= |name|
    ensures dot == from + NextDot(name[from..])
  {
    dot := from;
    while dot < |name| && name[dot] != DOT
      invariant from <= dot <= |name| && from + NextDot(name[from..]) == dot + NextDot(name[dot..])
    {
      assert name[dot..][1..] == name[dot + 1..];
      dot := dot + 1;
    }
  }

  /** One label at out + written, if it fits. */
  method PutLabel(out: array<byte>, written: nat, text: seq<byte>) returns (ok: bool)
    requires out.Length == MAX_NAME && written <= MAX_NAME
    modifies out
    ensures ok == (written + 1 + |text| <= MAX_NAME)
    ensures ok ==> out[..written + 1 + |text|] == old(out[..written]) + ([|text| % 0x100] + text)
  {
    if written + 1 + |text| > MAX_NAME {
      return false;
    }
    ghost var before := out[..written];
    out[written] := |text| % 0x100;
    CopyIn(out, written + 1, text);
    assert out[..written] == before;
    assert out[written + 1..written + 1 + |text|] == text;
    assert out[..written + 1 + |text|] == out[..written] + [out[written]] + out[written + 1..written + 1 + |text|];
    ok := true;
  }

  /** The loop body of dns_encode_name: the label at p, and the position behind its dot. */
  method PutNext(out: array<byte>, written: nat, name: seq<byte>, p: nat) returns (ok: bool, end: nat, next: nat)
    requires out.Length == MAX_NAME && written <= MAX_NAME && p < |name|
    modifies out
    ensures ok ==> p < next <= |name| && end <= MAX_NAME
    ensures ok ==> out[..end] + Labels(name[next..]) == old(out[..written]) + Labels(name[p..])
    ensures !ok ==> written + |Labels(name[p..])| > MAX_NAME
  {
    hide Labels, Rest, NextDot;
    ghost var before := out[..written];
    var dot := FindDot(name, p);
    LabelsFrom(name, p, dot);
    ok := PutLabel(out, written, name[p..dot]);
    end := written + 1 + (dot - p);
    next := if dot < |name| then dot + 1 else |name|;
    if ok {
      ghost var first: byte := (dot - p) % 0x100;
      Shifted(before, [first] + name[p..dot], Labels(Rest(name[p..])));
    }
  }

  /** dns_encode_name. */
  method Encode(out: array<byte>, name: seq<byte>) returns (written: nat)
    requires out.Length == MAX_NAME
    modifies out
    ensures if EncodeName(name).None? then written == 0
            else written == |EncodeName(name).value| && out[..written] == EncodeName(name).value
  {
    hide Labels;
    written := 0;
    var p := 0;
    assert name[0..] == name && out[..0] + Labels(name) == Labels(name);
    while p < |name|
      invariant p <= |name| && written <= MAX_NAME && out[..written] + Labels(name[p..]) == Labels(name)
    {
      assert |Labels(name)| == written + |Labels(name[p..])|;
      var ok, end, next := PutNext(out, written, name, p);
      if !ok {
        return 0;
      }
      written, p := end, next;
    }
    assert name[p..] == [];
    assert Labels([]) == [] by { NoLabels(); }
    if written + 1 > MAX_NAME {
      return 0;
    }
    out[written] := 0;
    written := written + 1;
  }

  lemma NoLabels()
    ensures Labels([]) == []
  {
  }

  lemma Shifted(a: seq<byte>, b: seq<byte>, c: seq<byte>)
    ensures a + b + c == a + (b + c)
  {
  }

  lemma LabelsFrom(name: seq<byte>, p: nat, dot: nat)
    requires p < |name| && dot == p + NextDot(name[p..])
    ensures p <= dot <= |name|
    ensures Labels(name[p..]) == [(dot - p) % 0x100] + name[p..dot] + Labels(Rest(name[p..]))
    ensures Labels(Rest(name[p..])) == Labels(name[if dot < |name| then dot + 1 else |name|..])
  {
    hide Labels, NextDot;
    var rest := name[p..];
    LabelsAre(rest);
    assert rest[..dot - p] == name[p..dot];
    if dot < |name| {
      assert rest[dot - p + 1..] == name[dot + 1..];
    } else {
      assert name[|name|..] == [];
    }
  }

  /** dns_decode_name, on bytes that let it end (EndlessExactly) and hold all that it reads. */
  method Decode(raw: array<byte>, from: nat, end: nat) returns (d: Decoded)
    requires from <= end <= raw.Length
    requires DecodeName(raw[from..end]) !in {Cyclic, Overread}
    ensures d == DecodeName(raw[from..end])
  {
    hide Loop, All;
    ghost var s := raw[from..end];
    var pos: nat, jumped := 0, false;
    var name: seq<byte> := [];
    ghost var left := All(|s|);
    while pos < end - from
      invariant pos <= |s| && DecodeName(s) == Loop(s, pos, name, jumped, left)
      decreases MAX_NAME - |name|, if jumped then 0 else 1, |left|
    {
      var len := raw[from + pos] as int;
      assert s[pos] == len;
      if len >= POINTER_MARK {
        PointerTurn(s, pos, name, jumped, left);
        if pos + 2 > end - from {
          return Bad;
        }
        left := if jumped then left - {pos} else All(|s|);
        if !jumped {
          pos := pos + 2;
        }
        assert s[pos + 1] == raw[from + pos + 1];
        pos := (len - POINTER_MARK) * 0x100 + raw[from + pos + 1] as int;
        if pos >= end - from {
          return Bad;
        }
        jumped := true;
        continue;
      }
      LabelTurn(s, pos, name, jumped, left);
      pos := pos + 1;
      if len == 0 {
        return Name(name, if jumped then 2 else pos);
      }
      if 0 < |name| < MAX_NAME - 1 {
        name := name + [DOT];
      }
      if pos + len > end - from || |name| + len >= MAX_NAME {
        return Bad;
      }
      SliceOfSlice(raw[..], from, end, pos, len);
      assert raw[..][from..end] == s && raw[..][from + pos..from + pos + len] == raw[from + pos..from + pos + len];
      name := name + raw[from + pos..from + pos + len];
      pos := pos + len;
      left := All(|s|);
    }
    EndTurn(s, pos, name, jumped, left);
    d := Name(name, if jumped then 2 else pos);
  }

  lemma SliceOfSlice(s: seq<byte>, from: nat, end: nat, pos: nat, len: nat)
    requires from <= end <= |s| && pos + len <= end - from
    ensures s[from..end][pos..pos + len] == s[from + pos..from + pos + len]
  {
    var a, b := s[from..end][pos..pos + len], s[from + pos..from + pos + len];
    assert |a| == |b| && forall i :: 0 <= i < len ==> a[i] == b[i];
  }

  lemma PointerTurn(s: seq<byte>, pos: nat, name: seq<byte>, jumped: bool, left: set<nat>)
    requires IsPointer(s, pos)
    ensures Loop(s, pos, name, jumped, left) ==
            if pos + 2 > |s| then Bad
            else if LowByte(pos, jumped) >= |s| then Overread else
            var target := (s[pos] - POINTER_MARK) * 0x100 + s[LowByte(pos, jumped)];
            if target >= |s| then Bad
            else if !jumped then Loop(s, target, name, true, All(|s|))
            else if pos !in left then Cyclic
            else Loop(s, target, name, true, left - {pos})
  {
  }

  lemma LabelTurn(s: seq<byte>, pos: nat, name: seq<byte>, jumped: bool, left: set<nat>)
    requires pos < |s| && s[pos] < POINTER_MARK
    ensures Loop(s, pos, name, jumped, left) ==
            var len := s[pos] as int;
            if len == 0 then Name(name, if jumped then 2 else pos + 1)
            else if pos + 1 + len > |s| || |Dotted(name)| + len >= MAX_NAME then Bad
            else Loop(s, pos + 1 + len, Dotted(name) + s[pos + 1..pos + 1 + len], jumped, All(|s|))
  {
  }

  lemma EndTurn(s: seq<byte>, pos: nat, name: seq<byte>, jumped: bool, left: set<nat>)
    requires pos == |s|
    ensures Loop(s, pos, name, jumped, left) == Name(name, if jumped then 2 else pos)
  {
  }
}
