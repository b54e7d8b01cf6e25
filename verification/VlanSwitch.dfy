/** A learning switch with access and trunk ports (layer2/switch.c). */
module VlanSwitch {
  import opened Base
  import opened EthernetWire

  const TABLE_MAX := 256

  /** An access port belongs to one VLAN, a trunk port carries all of them tagged. VLAN ids of access
      ports are C ints and not bounded by 4095. */
  datatype PortConfig = Access(vlan: int) | Trunk

  datatype MacEntry = MacEntry(vlan: int, mac: Mac, port: int)

  /** linked holds the ports that have a cable. */
  datatype Switch = Switch(ports: seq<PortConfig>, table: seq<MacEntry>, linked: set<int>)

  datatype Sent = Sent(port: int, raw: seq<byte>)

  predicate IsPort(s: Switch, port: int) {
    1 <= port <= |s.ports|
  }

  // ---------------------------------------------------------------- MAC table

  function FindIndex(t: seq<MacEntry>, vlan: int, mac: Mac): (k: nat)
    ensures k <= |t| && (k < |t| ==> t[k].vlan == vlan && t[k].mac == mac)
    ensures forall i :: 0 <= i < k ==> t[i].vlan != vlan || t[i].mac != mac
  {
    if |t| == 0 || (t[0].vlan == vlan && t[0].mac == mac) then 0 else 1 + FindIndex(t[1..], vlan, mac)
  }

  /** switch_mac_table_set. */
  function Learn(t: seq<MacEntry>, vlan: int, mac: Mac, port: int): seq<MacEntry> {
    var k := FindIndex(t, vlan, mac);
    if vlan < 1 || port < 1 then t
    else if k < |t| then t[k := MacEntry(vlan, mac, port)]
    else if |t| < TABLE_MAX then t + [MacEntry(vlan, mac, port)]
    else t
  }

  /** switch_mac_table_get. */
  function Find(t: seq<MacEntry>, vlan: int, mac: Mac): Option<int> {
    var k := FindIndex(t, vlan, mac);
    if k < |t| then Some(t[k].port) else None
  }

  /** switch_mac_table_remove. */
  function Forget(t: seq<MacEntry>, vlan: int, mac: Mac): seq<MacEntry> {
    var k := FindIndex(t, vlan, mac);
    if k < |t| then t[..k] + t[k + 1..] else t
  }

  lemma {:induction false} FindHead(t: seq<MacEntry>, vlan: int, mac: Mac)
    requires |t| > 0
    ensures Find(t, vlan, mac) ==
            if t[0].vlan == vlan && t[0].mac == mac then Some(t[0].port) else Find(t[1..], vlan, mac)
  {
  }

  /** The table is a map from VLAN and address to port: learning sets one key, if there is room. */
  lemma {:induction false} LearnUpdates(t: seq<MacEntry>, vlan: int, mac: Mac, port: int, v: int, m: Mac)
    ensures Find(Learn(t, vlan, mac, port), v, m) ==
            if vlan >= 1 && port >= 1 && (v, m) == (vlan, mac) && (Find(t, vlan, mac).Some? || |t| < TABLE_MAX)
            then Some(port) else Find(t, v, m)
  {
    var k := FindIndex(t, vlan, mac);
    if k < |t| {
      ReplaceAt(t, k, MacEntry(vlan, mac, port), v, m);
    } else if |t| < TABLE_MAX {
      AppendEntry(t, MacEntry(vlan, mac, port), v, m);
    }
  }

  lemma {:induction false} ReplaceAt(t: seq<MacEntry>, k: nat, e: MacEntry, v: int, m: Mac)
    requires k < |t| && k == FindIndex(t, e.vlan, e.mac)
    ensures Find(t[k := e], v, m) == if (v, m) == (e.vlan, e.mac) then Some(e.port) else Find(t, v, m)
  {
    FindHead(t, v, m);
    FindHead(t[k := e], v, m);
    if k > 0 {
      assert t[k := e][1..] == t[1..][k - 1 := e];
      ReplaceAt(t[1..], k - 1, e, v, m);
    } else {
      assert t[k := e][1..] == t[1..];
    }
  }

  lemma {:induction false} AppendEntry(t: seq<MacEntry>, e: MacEntry, v: int, m: Mac)
    requires FindIndex(t, e.vlan, e.mac) == |t|
    ensures Find(t + [e], v, m) == if (v, m) == (e.vlan, e.mac) then Some(e.port) else Find(t, v, m)
  {
    if |t| == 0 {
      assert t + [e] == [e] && [e][1..] == [];
    } else {
      FindHead(t, v, m);
      FindHead(t + [e], v, m);
      assert (t + [e])[1..] == t[1..] + [e];
      AppendEntry(t[1..], e, v, m);
    }
  }

  // ---------------------------------------------------------------- VLAN rules

  /** switch_determine_ingress_vlan: the VLAN a frame enters in, if it is admitted at all. */
  function Ingress(c: PortConfig, f: Frame): Option<int> {
    match c
    case Access(vlan) => if f.hasVlan || vlan < 1 then None else Some(vlan)
    case Trunk => if !f.hasVlan || f.vlanId < 1 then None else Some(f.vlanId)
  }

  /** switch_port_allows_vlan. */
  predicate Allows(c: PortConfig, vlan: int) {
    vlan >= 1 && (c.Trunk? || c.vlan == vlan)
  }

  /** The frame switch_send_frame_on_port puts on a port; the tag is the VLAN id as a uint16_t. */
  function Egress(c: PortConfig, vlan: int, f: Frame): Option<Frame> {
    if !Allows(c, vlan) then None
    else if c.Trunk? then SetVlan(f, vlan % 0x1_0000)
    else Some(ClearVlan(f))
  }

  function SendOn(s: Switch, port: int, vlan: int, f: Frame): seq<Sent> {
    if !IsPort(s, port) || port !in s.linked then [] else
    var out := Egress(s.ports[port - 1], vlan, f);
    if out.None? || |f.payload| > MAX_PAYLOAD then [] else [Sent(port, Encode(out.value))]
  }

  /** switch_flood_frame over ports from..: all but the one the frame came in by. */
  function Flood(s: Switch, inPort: int, vlan: int, f: Frame, from: nat): seq<Sent>
    requires 1 <= from <= |s.ports| + 1
    decreases |s.ports| - from
  {
    if from > |s.ports| then [] else
    (if from == inPort then [] else SendOn(s, from, vlan, f)) + Flood(s, inPort, vlan, f, from + 1)
  }

  /** The VLAN in which raw bytes are admitted at a port. */
  function Admitted(s: Switch, inPort: int, raw: seq<byte>): Option<int> {
    if !IsPort(s, inPort) || Decode(raw).None? then None else Ingress(s.ports[inPort - 1], Decode(raw).value)
  }

  /** switch_receive. */
  function Receive(s: Switch, inPort: int, raw: seq<byte>): (Switch, seq<Sent>) {
    var vlan := Admitted(s, inPort, raw);
    if vlan.None? then (s, []) else
    var f := Decode(raw).value;
    var s1 := s.(table := Learn(s.table, vlan.value, f.src, inPort));
    var port := Find(s1.table, vlan.value, f.dst);
    (s1, if f.dst == BROADCAST_MAC || port.None? then Flood(s1, inPort, vlan.value, f, 1)
         else if port.value == inPort then [] else SendOn(s1, port.value, vlan.value, f))
  }

  // ---------------------------------------------------------------- what leaves a switch

  /** x is f leaving s in VLAN vlan: by a port of that VLAN, unchanged but for the tag, untagged on
      access ports and tagged on trunks. */
  ghost predicate LeavesIn(s: Switch, vlan: int, f: Frame, x: Sent) {
    && IsPort(s, x.port) && x.port in s.linked && Allows(s.ports[x.port - 1], vlan) && |f.payload| <= MAX_PAYLOAD
    && var tag := vlan % 0x1_0000;
       if s.ports[x.port - 1].Trunk? then 1 <= tag < VLAN_IDS && x.raw == Encode(f.(hasVlan := true, vlanId := tag))
       else x.raw == Encode(f.(hasVlan := false, vlanId := 0))
  }

  lemma SendOnLeaves(s: Switch, port: int, vlan: int, f: Frame)
    ensures forall x :: x in SendOn(s, port, vlan, f) ==> x.port == port && LeavesIn(s, vlan, f, x)
  {
    hide Encode;
  }

  lemma {:induction false} FloodLeaves(s: Switch, inPort: int, vlan: int, f: Frame, from: nat)
    requires 1 <= from <= |s.ports| + 1
    ensures forall x :: x in Flood(s, inPort, vlan, f, from) ==> x.port != inPort && LeavesIn(s, vlan, f, x)
    decreases |s.ports| - from
  {
    hide LeavesIn, SendOn;
    if from <= |s.ports| {
      SendOnLeaves(s, from, vlan, f);
      FloodLeaves(s, inPort, vlan, f, from + 1);
    }
  }

  /** Whatever the MAC table holds, a frame admitted in a VLAN leaves only in that VLAN and never by
      the port it came in by; a frame that is not admitted leaves nowhere and teaches nothing. */
  lemma ReceiveLeaves(s: Switch, inPort: int, raw: seq<byte>)
    ensures var (s1, out) := Receive(s, inPort, raw); var vlan := Admitted(s, inPort, raw);
            && s1 == s.(table := s1.table) && (vlan.None? ==> s1 == s && out == [])
            && forall x :: x in out ==> x.port != inPort && vlan.Some? && LeavesIn(s, vlan.value, Decode(raw).value, x)
  {
    hide LeavesIn, Flood, SendOn, Find, Learn, Encode, Decode;
    var vlan := Admitted(s, inPort, raw);
    if vlan.Some? {
      var f := Decode(raw).value;
      var s1 := s.(table := Learn(s.table, vlan.value, f.src, inPort));
      FloodLeaves(s1, inPort, vlan.value, f, 1);
      var port := Find(s1.table, vlan.value, f.dst);
      if port.Some? {
        SendOnLeaves(s1, port.value, vlan.value, f);
      }
      forall x | LeavesIn(s1, vlan.value, f, x)
        ensures LeavesIn(s, vlan.value, f, x)
      {
        TableDoesNotMatter(s1, s, vlan.value, f, x);
      }
    }
  }

  lemma TableDoesNotMatter(s: Switch, t: Switch, vlan: int, f: Frame, x: Sent)
    requires LeavesIn(s, vlan, f, x) && s.ports == t.ports && s.linked == t.linked
    ensures LeavesIn(t, vlan, f, x)
  {
  }

  /** A flooded frame reaches every other port of its VLAN: nobody is left out. */
  lemma {:induction false} FloodReachesAll(s: Switch, inPort: int, vlan: int, f: Frame, from: nat, port: nat)
    requires 1 <= from <= port <= |s.ports| && port in s.linked && port != inPort && |f.payload| <= MAX_PAYLOAD
    requires Allows(s.ports[port - 1], vlan) && (s.ports[port - 1].Trunk? ==> vlan < VLAN_IDS)
    ensures exists x :: x in Flood(s, inPort, vlan, f, from) && x.port == port
    decreases port - from
  {
    hide Encode;
    var rest := Flood(s, inPort, vlan, f, from + 1);
    if from == port {
      var out := Egress(s.ports[port - 1], vlan, f).value;
      var x := Sent(port, Encode(out));
      assert SendOn(s, from, vlan, f) == [x] && Flood(s, inPort, vlan, f, from) == [x] + rest;
      assert ([x] + rest)[0] == x;
    } else {
      FloodReachesAll(s, inPort, vlan, f, from + 1, port);
      var x :| x in rest && x.port == port;
      assert x in Flood(s, inPort, vlan, f, from);
    }
  }

  /** A broadcast admitted in a VLAN goes out by every other cabled port of that VLAN, tagged on trunks and
      untagged elsewhere. */
  lemma BroadcastGoesOut(s: Switch, inPort: int, raw: seq<byte>, vlan: int, port: int)
    requires Admitted(s, inPort, raw) == Some(vlan) && Decode(raw).value.dst == BROADCAST_MAC
    requires IsPort(s, port) && port in s.linked && port != inPort && Allows(s.ports[port - 1], vlan)
    requires s.ports[port - 1].Trunk? ==> vlan < VLAN_IDS
    ensures var f := Decode(raw).value;
            Sent(port, Encode(if s.ports[port - 1].Trunk? then f.(hasVlan := true, vlanId := vlan) else ClearVlan(f)))
            in Receive(s, inPort, raw).1
  {
    hide Encode, Decode, Flood, Find, Learn, SendOn;
    var f := Decode(raw).value;
    var s1 := s.(table := Learn(s.table, vlan, f.src, inPort));
    assert vlan >= 1;
    FloodReachesAll(s1, inPort, vlan, f, 1, port);
    FloodLeaves(s1, inPort, vlan, f, 1);
  }

  /** switch_set_access_port accepts any positive VLAN id. A trunk tags a frame of access VLAN v with v,
      or refuses it, except when v is cut to a different id by the conversion to 16 bits. */
  lemma TrunkTagIsExact(vlan: int, f: Frame)
    requires vlan >= 1
    ensures (Egress(Trunk, vlan, f).None? || Egress(Trunk, vlan, f).value.vlanId == vlan) <==>
            vlan < 0x1_0000 || vlan % 0x1_0000 == 0 || vlan % 0x1_0000 >= VLAN_IDS
  {
  }

  // ---------------------------------------------------------------- the switch itself

  class SwitchNode {
    const configs: array<PortConfig>
    const entries: array<MacEntry>
    var size: nat
    var linked: set<int>
    var sent: seq<Sent>
    ghost var table: seq<MacEntry>

    ghost predicate Valid()
      reads this, configs, entries
    {
      && entries.Length == TABLE_MAX && size == |table| <= TABLE_MAX
      && forall i :: 0 <= i < size ==> entries[i] == table[i]
    }

    ghost function Value(): Switch
      reads this, configs
    {
      Switch(configs[..], table, linked)
    }

    constructor (numPorts: nat, cables: set<int>)
      ensures Valid() && fresh(configs) && fresh(entries) && sent == []
      ensures Value() == Switch(seq(numPorts, _ => Access(1)), [], cables)
    {
      configs := new PortConfig[numPorts](_ => Access(1));
      entries := new MacEntry[TABLE_MAX](_ => MacEntry(0, BROADCAST_MAC, 0));
      size, linked, sent, table := 0, cables, [], [];
    }

    /** switch_mac_table_find_index. */
    method FindEntry(vlan: int, mac: Mac) returns (k: nat)
      requires Valid()
      ensures k == FindIndex(table, vlan, mac)
    {
      k := 0;
      while k < size && !(entries[k].vlan == vlan && entries[k].mac == mac)
        invariant k <= size && forall i :: 0 <= i < k ==> table[i].vlan != vlan || table[i].mac != mac
      {
        k := k + 1;
      }
    }

    /** switch_mac_table_set. */
    method SetEntry(vlan: int, mac: Mac, port: int) returns (ok: bool)
      requires Valid()
      modifies `size, `table, entries
      ensures Valid() && table == Learn(old(table), vlan, mac, port)
      ensures ok <==> vlan >= 1 && port >= 1
                      && (FindIndex(old(table), vlan, mac) < |old(table)| || |old(table)| < TABLE_MAX)
    {
      hide FindIndex;
      if vlan < 1 || port < 1 {
        return false;
      }
      var k := FindEntry(vlan, mac);
      if k < size {
        entries[k] := MacEntry(vlan, mac, port);
        table := table[k := entries[k]];
        return true;
      }
      if size >= TABLE_MAX {
        return false;
      }
      entries[size] := MacEntry(vlan, mac, port);
      table := table + [entries[size]];
      size := size + 1;
      ok := true;
    }

    /** The loop of switch_mac_table_remove: close the gap one entry at a time. */
    method CloseGap(k: nat)
      requires Valid() && k < size
      modifies entries
      ensures forall j :: 0 <= j < k ==> entries[j] == table[j]
      ensures forall j :: k <= j < size - 1 ==> entries[j] == table[j + 1]
    {
      var i := k;
      while i + 1 < size
        invariant k <= i < size == |table| <= TABLE_MAX == entries.Length
        invariant forall j :: 0 <= j < k ==> entries[j] == table[j]
        invariant forall j :: k <= j < i ==> entries[j] == table[j + 1]
        invariant forall j :: i <= j < size ==> entries[j] == table[j]
      {
        entries[i] := entries[i + 1];
        i := i + 1;
      }
    }

    /** switch_mac_table_remove. */
    method RemoveEntry(vlan: int, mac: Mac) returns (ok: bool)
      requires Valid()
      modifies `size, `table, entries
      ensures Valid() && table == Forget(old(table), vlan, mac)
      ensures ok == (FindIndex(old(table), vlan, mac) < |old(table)|)
    {
      hide FindIndex;
      var k := FindEntry(vlan, mac);
      if k >= size {
        return false;
      }
      CloseGap(k);
      size := size - 1;
      table := table[..k] + table[k + 1..];
      ok := true;
    }

    /** switch_set_access_port. */
    method SetAccessPort(port: int, vlan: int) returns (ok: bool)
      requires Valid()
      modifies configs
      ensures Valid() && ok == (1 <= port <= configs.Length && vlan >= 1)
      ensures configs[..] == if ok then old(configs[..])[port - 1 := Access(vlan)] else old(configs[..])
    {
      ok := 1 <= port <= configs.Length && vlan >= 1;
      if ok {
        configs[port - 1] := Access(vlan);
      }
    }

    /** switch_set_trunk_port. */
    method SetTrunkPort(port: int) returns (ok: bool)
      requires Valid()
      modifies configs
      ensures Valid() && ok == (1 <= port <= configs.Length)
      ensures configs[..] == if ok then old(configs[..])[port - 1 := Trunk] else old(configs[..])
    {
      ok := 1 <= port <= configs.Length;
      if ok {
        configs[port - 1] := Trunk;
      }
    }

    /** switch_send_frame_on_port. */
    method SendFrameOnPort(port: int, vlan: int, f: Frame) returns (ok: bool)
      requires Valid()
      modifies `sent
      ensures Valid() && sent == old(sent) + SendOn(Value(), port, vlan, f) && ok == (sent != old(sent))
    {
      hide Encode;
      ok := false;
      if port < 1 || port > configs.Length || !Allows(configs[port - 1], vlan) {
        return;
      }
      var outbound := f;
      if configs[port - 1].Trunk? {
        var tagged := SetVlan(f, vlan % 0x1_0000);
        if tagged.None? {
          return;
        }
        outbound := tagged.value;
      } else {
        outbound := ClearVlan(f);
      }
      if |f.payload| > MAX_PAYLOAD || port !in linked {
        return;
      }
      sent := sent + [Sent(port, Encode(outbound))];
      ok := true;
    }

    /** switch_flood_frame. */
    method FloodFrame(inPort: int, vlan: int, f: Frame) returns (count: nat)
      requires Valid()
      modifies `sent
      ensures Valid() && sent == old(sent) + Flood(Value(), inPort, vlan, f, 1)
      ensures count == |sent| - |old(sent)|
    {
      hide SendOn;
      count := 0;
      var port := 1;
      while port <= configs.Length
        invariant 1 <= port <= configs.Length + 1 && Valid() && count == |sent| - |old(sent)|
        invariant sent + Flood(Value(), inPort, vlan, f, port) == old(sent) + Flood(Value(), inPort, vlan, f, 1)
      {
        if port != inPort {
          OneAtMost(Value(), port, vlan, f);
          var ok := SendFrameOnPort(port, vlan, f);
          if ok {
            count := count + 1;
          }
        }
        port := port + 1;
      }
    }

    /** switch_receive. */
    method ReceiveFrame(inPort: int, raw: seq<byte>)
      requires Valid()
      modifies `size, `table, `sent, entries
      ensures Valid() && Value() == Receive(old(Value()), inPort, raw).0
      ensures sent == old(sent) + Receive(old(Value()), inPort, raw).1
    {
      hide Decode, Flood, SendOn, FindIndex;
      assert sent + [] == sent;
      var frame := Decode(raw);
      if frame.None? || inPort < 1 || inPort > configs.Length {
        return;
      }
      var f := frame.value;
      var vlan := Ingress(configs[inPort - 1], f);
      if vlan.None? {
        return;
      }
      var _ := SetEntry(vlan.value, f.src, inPort);
      if f.dst == BROADCAST_MAC {
        var _ := FloodFrame(inPort, vlan.value, f);
        return;
      }
      var k := FindEntry(vlan.value, f.dst);
      if k >= size {
        var _ := FloodFrame(inPort, vlan.value, f);
        return;
      }
      if entries[k].port == inPort {
        return;
      }
      var _ := SendFrameOnPort(entries[k].port, vlan.value, f);
    }
  }

  lemma OneAtMost(s: Switch, port: int, vlan: int, f: Frame)
    ensures |SendOn(s, port, vlan, f)| <= 1
  {
    hide Encode;
  }
}
