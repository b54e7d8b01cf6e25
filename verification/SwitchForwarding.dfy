/** Exactly what a switch sends for every frame, and what it has learned by then (layer2/switch.c). */
module SwitchForwarding {
  import opened Base
  import opened EthernetWire
  import opened VlanSwitch

  /** A cabled port that can carry a VLAN. On a trunk the id is cut to 16 bits and has to fit twelve. */
  predicate CanCarry(s: Switch, port: int, vlan: int) {
    && 1 <= port <= |s.ports| && port in s.linked && vlan >= 1
    && match s.ports[port - 1]
       case Access(v) => v == vlan
       case Trunk => 1 <= vlan % 0x1_0000 < 4096
  }

  /** The frame as it goes out on a port: tagged on trunks, untagged elsewhere. */
  function OnWire(c: PortConfig, vlan: int, f: Frame): seq<byte> {
    Encode(if c.Trunk? then f.(hasVlan := true, vlanId := vlan % 0x1_0000) else f.(hasVlan := false, vlanId := 0))
  }

  lemma SendOnExactly(s: Switch, port: int, vlan: int, f: Frame)
    requires |f.payload| <= MAX_PAYLOAD
    ensures SendOn(s, port, vlan, f) ==
            if CanCarry(s, port, vlan) then [Sent(port, OnWire(s.ports[port - 1], vlan, f))] else []
  {
    hide Encode;
  }

  /** Every port that can carry the VLAN, but the one the frame came in by, gets it once, lower ports first. */
  ghost predicate IsFlood(s: Switch, inPort: int, vlan: int, f: Frame, from: int, out: seq<Sent>) {
    && (forall i :: 0 <= i < |out| ==> IsCopy(s, inPort, vlan, f, out[i]) && from <= out[i].port)
    && (forall i, j :: 0 <= i < j < |out| ==> out[i].port < out[j].port)
    && (forall port :: from <= port && port != inPort && CanCarry(s, port, vlan) ==> Gets(out, port))
  }

  predicate IsCopy(s: Switch, inPort: int, vlan: int, f: Frame, x: Sent) {
    x.port != inPort && CanCarry(s, x.port, vlan) && x.raw == OnWire(s.ports[x.port - 1], vlan, f)
  }

  predicate Gets(out: seq<Sent>, port: int) {
    exists i :: 0 <= i < |out| && out[i].port == port
  }

  lemma {:induction false} FloodExactly(s: Switch, inPort: int, vlan: int, f: Frame, from: nat)
    requires 1 <= from <= |s.ports| + 1 && |f.payload| <= MAX_PAYLOAD
    ensures IsFlood(s, inPort, vlan, f, from, Flood(s, inPort, vlan, f, from))
    decreases |s.ports| - from
  {
    hide OnWire, SendOn;
    if from <= |s.ports| {
      var rest := Flood(s, inPort, vlan, f, from + 1);
      FloodExactly(s, inPort, vlan, f, from + 1);
      SendOnExactly(s, from, vlan, f);
      var first := if from == inPort then [] else SendOn(s, from, vlan, f);
      FloodStep(s, inPort, vlan, f, from, first, rest);
    }
  }

  lemma FloodStep(s: Switch, inPort: int, vlan: int, f: Frame, from: nat, first: seq<Sent>, rest: seq<Sent>)
    requires IsFlood(s, inPort, vlan, f, from + 1, rest)
    requires first == if from != inPort && CanCarry(s, from, vlan)
                      then [Sent(from, OnWire(s.ports[from - 1], vlan, f))] else []
    ensures IsFlood(s, inPort, vlan, f, from, first + rest)
  {
    hide OnWire, CanCarry, Gets, IsFlood;
    if from == inPort || !CanCarry(s, from, vlan) {
      assert first + rest == rest;
      NotHere(s, inPort, vlan, f, from, rest);
    } else {
      OneMore(s, inPort, vlan, f, from, first[0], rest);
    }
  }

  lemma NotHere(s: Switch, inPort: int, vlan: int, f: Frame, from: nat, rest: seq<Sent>)
    requires IsFlood(s, inPort, vlan, f, from + 1, rest) && (from == inPort || !CanCarry(s, from, vlan))
    ensures IsFlood(s, inPort, vlan, f, from, rest)
  {
    hide IsCopy, CanCarry, Gets;
  }

  lemma OneMore(s: Switch, inPort: int, vlan: int, f: Frame, from: nat, x: Sent, rest: seq<Sent>)
    requires IsFlood(s, inPort, vlan, f, from + 1, rest) && IsCopy(s, inPort, vlan, f, x) && x.port == from
    ensures IsFlood(s, inPort, vlan, f, from, [x] + rest)
  {
    hide IsCopy, CanCarry;
    var out := [x] + rest;
    forall i | 0 <= i < |out|
      ensures out[i] == if i == 0 then x else rest[i - 1]
    {
    }
    assert out[0].port == from;
    assert Gets(out, from);
    forall port | Gets(rest, port)
      ensures Gets(out, port)
    {
      var i :| 0 <= i < |rest| && rest[i].port == port;
      assert out[i + 1].port == port;
    }
    hide Gets;
  }

  /** What is sent for an admitted frame, by the table as it is after learning: to a known address one frame
      on the port it was seen at, unless it came from there; everything else is flooded. */
  lemma ForwardsExactly(s: Switch, inPort: int, raw: seq<byte>)
    requires Admitted(s, inPort, raw).Some?
    ensures var (s1, out) := Receive(s, inPort, raw);
            var v, f := Admitted(s, inPort, raw).value, Decode(raw).value;
            var seen := Find(s1.table, v, f.dst);
            && s1 == s.(table := Learn(s.table, v, f.src, inPort))
            && if f.dst != BROADCAST_MAC && seen.Some? then
                 out == if seen.value != inPort && CanCarry(s, seen.value, v)
                        then [Sent(seen.value, OnWire(s.ports[seen.value - 1], v, f))] else []
               else IsFlood(s, inPort, v, f, 1, out)
  {
    hide Encode, Flood, SendOn, Find, Learn, OnWire, IsFlood, CanCarry;
    var v, f := Admitted(s, inPort, raw).value, Decode(raw).value;
    var s1 := s.(table := Learn(s.table, v, f.src, inPort));
    SameCarriers(s, s1, v);
    FloodExactly(s1, inPort, v, f, 1);
    FloodIgnoresTables(s, s1, inPort, v, f, 1, Flood(s1, inPort, v, f, 1));
    var seen := Find(s1.table, v, f.dst);
    if seen.Some? {
      SendOnExactly(s1, seen.value, v, f);
    }
  }

  lemma SameCarriers(s: Switch, t: Switch, vlan: int)
    requires s.ports == t.ports && s.linked == t.linked
    ensures forall port :: CanCarry(s, port, vlan) == CanCarry(t, port, vlan)
  {
  }

  lemma FloodIgnoresTables(s: Switch, t: Switch, inPort: int, vlan: int, f: Frame, from: int, out: seq<Sent>)
    requires s.ports == t.ports && s.linked == t.linked && IsFlood(t, inPort, vlan, f, from, out)
    ensures IsFlood(s, inPort, vlan, f, from, out)
  {
    hide OnWire, CanCarry, Gets;
    SameCarriers(s, t, vlan);
    assert forall i :: 0 <= i < |out| ==> IsCopy(t, inPort, vlan, f, out[i]);
  }

  /** A frame that is not admitted is neither sent nor learned from; which ones are, by port. */
  lemma AdmittedExactly(s: Switch, inPort: int, raw: seq<byte>)
    ensures var v := Admitted(s, inPort, raw);
            && (v.None? ==> Receive(s, inPort, raw) == (s, []))
            && (v.Some? <==>
                  && 1 <= inPort <= |s.ports| && Decode(raw).Some?
                  && var f := Decode(raw).value;
                     match s.ports[inPort - 1]
                     case Access(vlan) => !f.hasVlan && vlan >= 1
                     case Trunk => f.hasVlan && f.vlanId >= 1)
            && (v.Some? ==> v.value == match s.ports[inPort - 1]
                                       case Access(vlan) => vlan
                                       case Trunk => Decode(raw).value.vlanId)
  {
    hide Decode;
  }

  /** Two frames: an address seen at a port is served by that port alone. */
  lemma SeenThenServed(s: Switch, q: int, raw1: seq<byte>, inPort: int, raw2: seq<byte>, v: int)
    requires Admitted(s, q, raw1) == Some(v) && Admitted(s, inPort, raw2) == Some(v) && inPort != q && CanCarry(s, q, v)
    requires Decode(raw2).value.dst == Decode(raw1).value.src != BROADCAST_MAC
    requires Decode(raw2).value.src != Decode(raw1).value.src
    requires Find(s.table, v, Decode(raw1).value.src).Some? || |s.table| < 256
    ensures Receive(Receive(s, q, raw1).0, inPort, raw2).1 ==
            [Sent(q, OnWire(s.ports[q - 1], v, Decode(raw2).value))]
  {
    hide Encode, Decode, Flood, SendOn, Find, Learn, OnWire, CanCarry, Ingress, Receive, IsFlood;
    var a, f2 := Decode(raw1).value.src, Decode(raw2).value;
    ForwardsExactly(s, q, raw1);
    var s1 := Receive(s, q, raw1).0;
    AdmittedPositive(s, q, raw1);
    AdmittedPositive(s, inPort, raw2);
    LearnUpdates(s.table, v, a, q, v, a);
    ForwardsExactly(s1, inPort, raw2);
    LearnUpdates(s1.table, v, f2.src, inPort, v, a);
    SameCarriers(s, s1, v);
  }

  lemma AdmittedPositive(s: Switch, port: int, raw: seq<byte>)
    requires Admitted(s, port, raw).Some?
    ensures Admitted(s, port, raw).value >= 1 && port >= 1
  {
    hide Decode;
  }

  // ---------------------------------------------------------------- forgetting

  /** No key is entered twice. */
  predicate Distinct(t: seq<MacEntry>) {
    forall i, j :: 0 <= i < j < |t| ==> t[i].vlan != t[j].vlan || t[i].mac != t[j].mac
  }

  lemma LearnKeepsDistinct(t: seq<MacEntry>, vlan: int, mac: Mac, port: int)
    requires Distinct(t)
    ensures Distinct(Learn(t, vlan, mac, port)) && |t| <= |Learn(t, vlan, mac, port)|
    ensures |t| <= 256 ==> |Learn(t, vlan, mac, port)| <= 256
  {
    hide FindIndex;
  }

  /** Removing an entry forgets one key. */
  lemma ForgetUpdates(t: seq<MacEntry>, vlan: int, mac: Mac, v: int, m: Mac)
    requires Distinct(t)
    ensures Distinct(Forget(t, vlan, mac))
    ensures Find(Forget(t, vlan, mac), v, m) == if (v, m) == (vlan, mac) then None else Find(t, v, m)
  {
    hide FindIndex;
    var r, k := Forget(t, vlan, mac), FindIndex(t, vlan, mac);
    forall i | 0 <= i < |r|
      ensures r[i] == t[if i < k then i else i + 1]
    {
    }
    FoundOnly(r, v, m);
    FoundOnly(t, v, m);
    var i := FindIndex(t, v, m);
    if i < |t| && i != k {
      assert r[if i < k then i else i - 1] == t[i];
    }
  }

  /** In a table without double keys an entry is found wherever it stands. */
  lemma FoundOnly(t: seq<MacEntry>, v: int, m: Mac)
    requires Distinct(t)
    ensures forall i :: 0 <= i < |t| && t[i].vlan == v && t[i].mac == m ==> FindIndex(t, v, m) == i
  {
    hide FindIndex;
  }
}
