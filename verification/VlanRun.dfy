/** Runs of a network of switches: frames enter at edge ports, travel between switches as raw bytes,
    and leave at edge ports, while MAC tables fill, age and ports are reconfigured. */
module VlanRun {
  import opened Base
  import opened EthernetWire
  import opened VlanSwitch

  datatype Place = Place(sw: nat, port: int)

  /** Cables between switches, in both directions; every other cabled port is an edge. */
  type Cables = map<Place, Place>

  /** History: where a frame entered, in which VLAN, and what it was. */
  datatype Origin = Origin(at: Place, vlan: int, frame: Frame)

  /** A frame on a cable; path holds the ports it left switches by, as history. */
  datatype Transit = Transit(to: Place, raw: seq<byte>, origin: Origin, path: seq<Place>)

  /** A frame that left at an edge port, with the configuration of the port at that time. */
  datatype Delivery = Delivery(at: Place, config: PortConfig, raw: seq<byte>, origin: Origin)

  datatype World = World(switches: seq<Switch>, flying: multiset<Transit>, delivered: multiset<Delivery>)

  predicate Exists(w: World, p: Place) {
    p.sw < |w.switches| && IsPort(w.switches[p.sw], p.port)
  }

  function ConfigAt(w: World, p: Place): PortConfig
    requires Exists(w, p)
  {
    w.switches[p.sw].ports[p.port - 1]
  }

  // ---------------------------------------------------------------- steps

  /** The frames a switch sends to other switches. */
  function Launch(cables: Cables, id: nat, out: seq<Sent>, o: Origin, path: seq<Place>): multiset<Transit> {
    if |out| == 0 then multiset{} else
      var here := Place(id, out[0].port);
      (if here in cables then multiset{Transit(cables[here], out[0].raw, o, path + [here])} else multiset{}) +
      Launch(cables, id, out[1..], o, path)
  }

  /** The frames a switch sends out of the network. */
  function Deliver(cables: Cables, s: Switch, id: nat, out: seq<Sent>, o: Origin): multiset<Delivery> {
    if |out| == 0 then multiset{} else
      var here := Place(id, out[0].port);
      (if here in cables || !IsPort(s, out[0].port) then multiset{}
       else multiset{Delivery(here, s.ports[out[0].port - 1], out[0].raw, o)}) +
      Deliver(cables, s, id, out[1..], o)
  }

  function Process(cables: Cables, w: World, at: Place, raw: seq<byte>, o: Origin, path: seq<Place>): World
    requires Exists(w, at)
  {
    var s := w.switches[at.sw];
    var (s1, out) := Receive(s, at.port, raw);
    World(w.switches[at.sw := s1], w.flying + Launch(cables, at.sw, out, o, path),
          w.delivered + Deliver(cables, s, at.sw, out, o))
  }

  /** Where a frame that enters here belongs, if it is admitted. */
  function OriginOf(w: World, at: Place, raw: seq<byte>): Option<Origin>
    requires Exists(w, at)
  {
    var vlan := Admitted(w.switches[at.sw], at.port, raw);
    if vlan.None? then None else Some(Origin(at, vlan.value, ClearVlan(Decode(raw).value)))
  }

  function Reconfigured(w: World, p: Place, c: PortConfig): World
    requires Exists(w, p)
  {
    var s := w.switches[p.sw];
    w.(switches := w.switches[p.sw := s.(ports := s.ports[p.port - 1 := c])])
  }

  datatype Event =
    | Enter(at: Place, raw: seq<byte>) | Arrive(t: Transit) | Forgotten(sw: nat, vlan: int, mac: Mac)
    | SetEdge(p: Place, c: PortConfig) | SetCable(p: Place, c: PortConfig)

  /** Access VLANs that no trunk port cuts to another VLAN: all of 1..4095 among them. */
  predicate GoodVlan(vlan: int) {
    vlan >= 1 && (vlan < 0x1_0000 || vlan % 0x1_0000 == 0 || vlan % 0x1_0000 >= VLAN_IDS)
  }

  predicate GoodConfig(c: PortConfig) {
    c.Access? ==> GoodVlan(c.vlan)
  }

  /** At a port with this configuration the bytes are admitted as the frame of o in its own VLAN, or not
      at all. */
  predicate Harmless(c: PortConfig, o: Origin, raw: seq<byte>) {
    var f := Decode(raw);
    f.None? || Ingress(c, f.value).None? || (Ingress(c, f.value) == Some(o.vlan) && ClearVlan(f.value) == o.frame)
  }

  /** Everything on the cable, in either direction, stays harmless if its ends change to c. */
  ghost predicate SafeChange(cables: Cables, w: World, p: Place, c: PortConfig)
    requires p in cables
  {
    forall t :: t in w.flying && (t.to == p || t.to == cables[p]) ==> Harmless(c, t.origin, t.raw)
  }

  /** Edge ports may change at any time; the two ends of a cable change together, when that is safe. */
  ghost predicate Enabled(cables: Cables, w: World, e: Event) {
    match e
    case Enter(at, raw) => Exists(w, at) && at !in cables
    case Arrive(t) => t in w.flying && Exists(w, t.to)
    case Forgotten(sw, vlan, mac) => sw < |w.switches|
    case SetEdge(p, c) => Exists(w, p) && p !in cables && GoodConfig(c)
    case SetCable(p, c) =>
      p in cables && Exists(w, p) && Exists(w, cables[p]) && GoodConfig(c) && SafeChange(cables, w, p, c)
  }

  ghost function Next(cables: Cables, w: World, e: Event): World
    requires Enabled(cables, w, e)
  {
    match e
    case Enter(at, raw) =>
      var o := OriginOf(w, at, raw);
      if o.None? then w else Process(cables, w, at, raw, o.value, [])
    case Arrive(t) => Process(cables, w.(flying := w.flying - multiset{t}), t.to, t.raw, t.origin, t.path)
    case Forgotten(sw, vlan, mac) =>
      var s := w.switches[sw];
      w.(switches := w.switches[sw := s.(table := VlanSwitch.Forget(s.table, vlan, mac))])
    case SetEdge(p, c) => Reconfigured(w, p, c)
    case SetCable(p, c) => Reconfigured(Reconfigured(w, p, c), cables[p], c)
  }

  // ---------------------------------------------------------------- paths

  /** Cable after cable, never straight back over the one just taken. */
  ghost predicate Walk(cables: Cables, path: seq<Place>) {
    && (forall i :: 0 <= i < |path| ==> path[i] in cables)
    && (forall i :: 0 < i < |path| ==> path[i].sw == cables[path[i - 1]].sw && path[i] != cables[path[i - 1]])
  }

  /** Such a walk from a switch that comes back to it. */
  ghost predicate ComesBack(cables: Cables, path: seq<Place>, sw: nat) {
    |path| > 0 && Walk(cables, path) && path[0].sw == sw == cables[path[|path| - 1]].sw
  }

  /** Is there a loop of the cabling that can be reached from this switch, or that it lies on? */
  ghost predicate ReachesLoop(cables: Cables, sw: nat) {
    exists path: seq<Place> :: ComesBack(cables, path, sw)
  }

  /** A frame of o that took this path is about to be processed at this port. */
  ghost predicate Came(cables: Cables, o: Origin, path: seq<Place>, at: Place) {
    if |path| == 0 then at == o.at
    else Walk(cables, path) && path[0].sw == o.at.sw && cables[path[|path| - 1]] == at
  }

  lemma GoesOn(cables: Cables, o: Origin, path: seq<Place>, at: Place, here: Place)
    requires Came(cables, o, path, at) && here.sw == at.sw && here != at && here in cables
    ensures Came(cables, o, path + [here], cables[here])
  {
    var longer := path + [here];
    assert forall i :: 0 <= i < |path| ==> longer[i] == path[i];
  }

  lemma BackAtTheStart(cables: Cables, o: Origin, path: seq<Place>, at: Place, here: Place)
    requires Came(cables, o, path, at) && here.sw == at.sw && here != at && here == o.at
    ensures ReachesLoop(cables, here.sw)
  {
    assert ComesBack(cables, path, here.sw);
  }

  // ---------------------------------------------------------------- isolation

  /** The frame of o as it must look on a port: tagged with its VLAN on a trunk, untagged elsewhere. */
  function Wire(c: PortConfig, o: Origin): seq<byte>
    requires c.Trunk? ==> 0 <= o.vlan < VLAN_IDS
  {
    Encode(if c.Trunk? then o.frame.(hasVlan := true, vlanId := o.vlan) else ClearVlan(o.frame))
  }

  predicate GoodOrigin(o: Origin) {
    GoodVlan(o.vlan) && |o.frame.payload| <= MAX_PAYLOAD && !o.frame.hasVlan && o.frame.vlanId == 0
  }

  /** These bytes, on a port with this configuration, are the frame of o in its own VLAN. */
  predicate Carries(c: PortConfig, o: Origin, raw: seq<byte>) {
    GoodOrigin(o) && (c.Trunk? ==> o.vlan < VLAN_IDS) && Allows(c, o.vlan) && raw == Wire(c, o)
  }

  /** The two ends of a cable are configured alike: trunk to trunk, or access to access in one VLAN. */
  ghost predicate CablesOk(cables: Cables, w: World) {
    forall p :: p in cables ==>
      && Exists(w, p) && Exists(w, cables[p]) && cables[p] in cables && cables[cables[p]] == p && cables[p] != p
      && ConfigAt(w, p) == ConfigAt(w, cables[p])
  }

  ghost predicate ConfigsOk(w: World) {
    forall p :: Exists(w, p) ==> GoodConfig(ConfigAt(w, p))
  }

  /** On the cable the frame is tagged or untagged as its sender's port was, whatever has changed since. */
  ghost predicate TransitOk(cables: Cables, w: World, t: Transit) {
    && t.to in cables && Exists(w, t.to) && (exists c :: Carries(c, t.origin, t.raw))
    && Harmless(ConfigAt(w, t.to), t.origin, t.raw) && |t.path| > 0 && Came(cables, t.origin, t.path, t.to)
  }

  ghost predicate FlyingOk(cables: Cables, w: World) {
    forall t :: t in w.flying ==> TransitOk(cables, w, t)
  }

  ghost predicate DeliveryOk(cables: Cables, d: Delivery) {
    Carries(d.config, d.origin, d.raw) && (d.at == d.origin.at ==> ReachesLoop(cables, d.at.sw))
  }

  ghost predicate Isolated(cables: Cables, w: World) {
    forall d :: d in w.delivered ==> DeliveryOk(cables, d)
  }

  ghost predicate Inv(cables: Cables, w: World) {
    CablesOk(cables, w) && ConfigsOk(w) && FlyingOk(cables, w) && Isolated(cables, w)
  }

  /** The next switch admits such bytes in the same VLAN, as the same frame, or not at all. */
  lemma CarriedIsHarmless(c: PortConfig, o: Origin, raw: seq<byte>)
    requires Carries(c, o, raw)
    ensures Harmless(c, o, raw)
  {
    hide Encode, Decode;
    var f := if c.Trunk? then o.frame.(hasVlan := true, vlanId := o.vlan) else ClearVlan(o.frame);
    RoundTrip(f);
    if !f.hasVlan && f.ethertype == TYPE_VLAN {
      UntaggedLooksTagged(f);
    }
  }

  /** Does an untagged frame carry a tag of its own that a trunk would admit? */
  predicate DoublyTagged(f: Frame) {
    f.ethertype == TYPE_VLAN && |f.payload| >= 4 && ReadU16(f.payload, 0) % VLAN_IDS != 0
  }

  /** Exactly which frames a port may be reconfigured under: tagged ones always; untagged ones for an
      access port that keeps the VLAN, or if their type makes every access port refuse them; and for a
      trunk unless they carry a tag of their own. */
  lemma HarmlessExactly(before: PortConfig, after: PortConfig, o: Origin, raw: seq<byte>)
    requires Carries(before, o, raw) && GoodConfig(after)
    ensures Harmless(after, o, raw) <==>
              || before.Trunk?
              || (after.Access? && (after.vlan == o.vlan || o.frame.ethertype == TYPE_VLAN))
              || (after.Trunk? && !DoublyTagged(o.frame))
  {
    hide Encode, Decode;
    if before.Trunk? {
      RoundTrip(o.frame.(hasVlan := true, vlanId := o.vlan));
    } else {
      var f := ClearVlan(o.frame);
      assert f == o.frame;
      RoundTrip(f);
      if f.ethertype == TYPE_VLAN {
        UntaggedAsTagged(f);
      }
    }
  }

  /** What a switch sends of an admitted frame is that frame, on ports of its VLAN. */
  lemma SentIsCarried(s: Switch, vlan: int, f: Frame, x: Sent, o: Origin)
    requires LeavesIn(s, vlan, f, x) && o.vlan == vlan && GoodVlan(vlan) && o.frame == ClearVlan(f)
    ensures IsPort(s, x.port) && Carries(s.ports[x.port - 1], o, x.raw)
  {
    hide Encode;
    var tag := vlan % 0x1_0000;
    assert vlan < 0x1_0000 ==> tag == vlan;
    assert o.frame.(hasVlan := true, vlanId := tag) == f.(hasVlan := true, vlanId := tag);
    assert ClearVlan(o.frame) == f.(hasVlan := false, vlanId := 0);
  }

  /** Everything a switch sends of a frame of o that came in at inPort. */
  ghost predicate AllCarried(s: Switch, inPort: int, out: seq<Sent>, o: Origin) {
    forall x :: x in out ==> x.port != inPort && IsPort(s, x.port) && Carries(s.ports[x.port - 1], o, x.raw)
  }

  lemma LaunchedOne(cables: Cables, w: World, at: Place, x: Sent, o: Origin, path: seq<Place>)
    requires CablesOk(cables, w) && Exists(w, at) && Came(cables, o, path, at)
    requires x.port != at.port && IsPort(w.switches[at.sw], x.port)
    requires Carries(w.switches[at.sw].ports[x.port - 1], o, x.raw) && Place(at.sw, x.port) in cables
    ensures var here := Place(at.sw, x.port); TransitOk(cables, w, Transit(cables[here], x.raw, o, path + [here]))
  {
    hide Carries, Harmless, Came;
    var here := Place(at.sw, x.port);
    assert ConfigAt(w, here) == ConfigAt(w, cables[here]);
    CarriedIsHarmless(ConfigAt(w, here), o, x.raw);
    GoesOn(cables, o, path, at, here);
  }

  lemma {:induction false} LaunchedOk(cables: Cables, w: World, at: Place, out: seq<Sent>, o: Origin, path: seq<Place>)
    requires CablesOk(cables, w) && Exists(w, at) && Came(cables, o, path, at)
    requires AllCarried(w.switches[at.sw], at.port, out, o)
    ensures forall t :: t in Launch(cables, at.sw, out, o, path) ==> TransitOk(cables, w, t)
  {
    hide Carries, TransitOk, CablesOk, Came;
    if |out| > 0 {
      LaunchedOk(cables, w, at, out[1..], o, path);
      assert out[0] in out;
      if Place(at.sw, out[0].port) in cables {
        LaunchedOne(cables, w, at, out[0], o, path);
      }
    }
  }

  lemma {:induction false} DeliveredOk(cables: Cables, s: Switch, at: Place, out: seq<Sent>, o: Origin,
                                       path: seq<Place>)
    requires AllCarried(s, at.port, out, o) && Came(cables, o, path, at)
    ensures forall d :: d in Deliver(cables, s, at.sw, out, o) ==> DeliveryOk(cables, d)
  {
    hide Carries, ReachesLoop, Came;
    if |out| > 0 {
      DeliveredOk(cables, s, at, out[1..], o, path);
      assert out[0] in out;
      if Place(at.sw, out[0].port) == o.at {
        BackAtTheStart(cables, o, path, at, o.at);
      }
    }
  }

  ghost predicate SameConfigs(w: World, w': World) {
    forall p :: Exists(w, p) == Exists(w', p) && (Exists(w, p) ==> ConfigAt(w', p) == ConfigAt(w, p))
  }

  lemma SameConfigsKeep(cables: Cables, w: World, w': World)
    requires CablesOk(cables, w) && ConfigsOk(w) && SameConfigs(w, w')
    ensures CablesOk(cables, w') && ConfigsOk(w')
    ensures forall t :: TransitOk(cables, w, t) ==> TransitOk(cables, w', t)
  {
    hide Carries, GoodConfig, Harmless, Came, Exists, ConfigAt;
  }

  lemma TablesDoNotMatter(cables: Cables, w: World, w': World)
    requires Inv(cables, w) && w'.flying == w.flying && w'.delivered == w.delivered
    requires |w'.switches| == |w.switches|
    requires forall i :: 0 <= i < |w.switches| ==> w'.switches[i].ports == w.switches[i].ports
    ensures Inv(cables, w')
  {
    hide CablesOk, ConfigsOk, TransitOk, DeliveryOk;
    assert SameConfigs(w, w');
    SameConfigsKeep(cables, w, w');
  }

  lemma SentAllCarried(s: Switch, port: int, raw: seq<byte>, o: Origin)
    requires Admitted(s, port, raw) == Some(o.vlan) && GoodVlan(o.vlan) && ClearVlan(Decode(raw).value) == o.frame
    ensures AllCarried(s, port, Receive(s, port, raw).1, o)
  {
    hide Carries, Receive, Ingress, LeavesIn, Decode, ClearVlan, GoodVlan;
    ReceiveLeaves(s, port, raw);
    forall x | x in Receive(s, port, raw).1
      ensures x.port != port && IsPort(s, x.port) && Carries(s.ports[x.port - 1], o, x.raw)
    {
      SentIsCarried(s, o.vlan, Decode(raw).value, x, o);
    }
  }

  lemma ProcessKeeps(cables: Cables, w: World, at: Place, raw: seq<byte>, o: Origin, path: seq<Place>)
    requires Inv(cables, w) && Exists(w, at) && Harmless(ConfigAt(w, at), o, raw) && GoodVlan(o.vlan)
    requires Came(cables, o, path, at)
    ensures Inv(cables, Process(cables, w, at, raw, o, path))
  {
    hide Carries, Receive, LeavesIn, Decode, Came, CablesOk, ConfigsOk, FlyingOk, Isolated;
    var s := w.switches[at.sw];
    var (s1, out) := Receive(s, at.port, raw);
    ReceiveLeaves(s, at.port, raw);
    if Admitted(s, at.port, raw).Some? {
      SentAllCarried(s, at.port, raw, o);
    }
    assert AllCarried(s, at.port, out, o);
    LaunchedOk(cables, w, at, out, o, path);
    DeliveredOk(cables, s, at, out, o, path);
    var ts, ds := Launch(cables, at.sw, out, o, path), Deliver(cables, s, at.sw, out, o);
    var w1 := w.(flying := w.flying + ts, delivered := w.delivered + ds);
    assert FlyingOk(cables, w.(flying := ts)) && Isolated(cables, w.(delivered := ds)) by {
      AllOk(cables, w, ts, ds);
    }
    Joined(cables, w, ts, ds);
    assert SameConfigs(w, w1);
    SameConfigsKeep(cables, w, w1);
    TablesDoNotMatter(cables, w.(flying := w.flying + ts, delivered := w.delivered + ds),
                      Process(cables, w, at, raw, o, path));
  }

  lemma AllOk(cables: Cables, w: World, ts: multiset<Transit>, ds: multiset<Delivery>)
    requires forall t :: t in ts ==> TransitOk(cables, w, t)
    requires forall d :: d in ds ==> DeliveryOk(cables, d)
    ensures FlyingOk(cables, w.(flying := ts)) && Isolated(cables, w.(delivered := ds))
  {
    hide Carries, Came, Harmless, DeliveryOk;
  }

  lemma Joined(cables: Cables, w: World, ts: multiset<Transit>, ds: multiset<Delivery>)
    requires FlyingOk(cables, w) && FlyingOk(cables, w.(flying := ts))
    requires Isolated(cables, w) && Isolated(cables, w.(delivered := ds))
    ensures FlyingOk(cables, w.(flying := w.flying + ts, delivered := w.delivered + ds))
    ensures Isolated(cables, w.(flying := w.flying + ts, delivered := w.delivered + ds))
  {
    hide Carries, Came, Harmless, DeliveryOk;
    assert forall t :: t in w.flying + ts ==> t in w.flying || t in ts;
  }

  lemma EnterKeeps(cables: Cables, w: World, at: Place, raw: seq<byte>)
    requires Inv(cables, w) && Exists(w, at) && OriginOf(w, at, raw).Some?
    ensures Inv(cables, Process(cables, w, at, raw, OriginOf(w, at, raw).value, []))
  {
    hide CablesOk, FlyingOk, Isolated, Decode, Process;
    assert GoodConfig(ConfigAt(w, at));
    var o := OriginOf(w, at, raw).value;
    assert GoodVlan(o.vlan);
    ProcessKeeps(cables, w, at, raw, o, []);
  }

  lemma ArriveKeeps(cables: Cables, w: World, t: Transit)
    requires Inv(cables, w) && t in w.flying && Exists(w, t.to)
    ensures Inv(cables, Process(cables, w.(flying := w.flying - multiset{t}), t.to, t.raw, t.origin, t.path))
  {
    hide Process, Decode, GoodConfig, Harmless, CablesOk, ConfigsOk, Isolated, Came, Wire;
    var w1 := w.(flying := w.flying - multiset{t});
    assert TransitOk(cables, w, t);
    assert GoodVlan(t.origin.vlan);
    Fewer(cables, w, t);
    ProcessKeeps(cables, w1, t.to, t.raw, t.origin, t.path);
  }

  lemma Fewer(cables: Cables, w: World, t: Transit)
    requires Inv(cables, w)
    ensures Inv(cables, w.(flying := w.flying - multiset{t}))
  {
    hide CablesOk, ConfigsOk, TransitOk, DeliveryOk;
    var w1 := w.(flying := w.flying - multiset{t});
    assert SameConfigs(w, w1);
    SameConfigsKeep(cables, w, w1);
  }

  lemma ReconfiguredConfigs(w: World, p: Place, c: PortConfig, x: Place)
    requires Exists(w, p)
    ensures var w1 := Reconfigured(w, p, c);
            Exists(w1, x) == Exists(w, x) && (Exists(w, x) ==> ConfigAt(w1, x) == if x == p then c else ConfigAt(w, x))
  {
  }

  lemma SetEdgeKeeps(cables: Cables, w: World, p: Place, c: PortConfig)
    requires Inv(cables, w) && Exists(w, p) && p !in cables && GoodConfig(c)
    ensures Inv(cables, Reconfigured(w, p, c))
  {
    hide Carries, Exists, ConfigAt, GoodConfig, Harmless, Came, DeliveryOk;
    var w1 := Reconfigured(w, p, c);
    forall x
      ensures Exists(w1, x) == Exists(w, x)
      ensures Exists(w, x) ==> ConfigAt(w1, x) == if x == p then c else ConfigAt(w, x)
    {
      ReconfiguredConfigs(w, p, c, x);
    }
    forall t | t in w1.flying
      ensures TransitOk(cables, w1, t)
    {
      assert TransitOk(cables, w, t);
    }
  }

  lemma SetCableKeeps(cables: Cables, w: World, p: Place, c: PortConfig)
    requires Inv(cables, w) && p in cables && Exists(w, p) && Exists(w, cables[p])
    requires GoodConfig(c) && SafeChange(cables, w, p, c)
    ensures Exists(Reconfigured(w, p, c), cables[p]) && Inv(cables, Reconfigured(Reconfigured(w, p, c), cables[p], c))
  {
    hide Carries, Exists, ConfigAt, GoodConfig, Harmless, Came, DeliveryOk;
    var w1 := Reconfigured(w, p, c);
    ReconfiguredConfigs(w, p, c, cables[p]);
    var w2 := Reconfigured(w1, cables[p], c);
    forall x
      ensures Exists(w2, x) == Exists(w, x) &&
              (Exists(w, x) ==> ConfigAt(w2, x) == if x == p || x == cables[p] then c else ConfigAt(w, x))
    {
      ReconfiguredConfigs(w, p, c, x);
      ReconfiguredConfigs(w1, cables[p], c, x);
    }
    forall t | t in w2.flying
      ensures TransitOk(cables, w2, t)
    {
      assert TransitOk(cables, w, t);
    }
  }

  lemma NextKeeps(cables: Cables, w: World, e: Event)
    requires Inv(cables, w) && Enabled(cables, w, e)
    ensures Inv(cables, Next(cables, w, e))
  {
    hide Inv, Process, Carries, Decode, SafeChange;
    match e {
      case Enter(at, raw) => if OriginOf(w, at, raw).Some? { EnterKeeps(cables, w, at, raw); }
      case Arrive(t) => ArriveKeeps(cables, w, t);
      case Forgotten(sw, vlan, mac) => TablesDoNotMatter(cables, w, Next(cables, w, e));
      case SetEdge(p, c) => SetEdgeKeeps(cables, w, p, c);
      case SetCable(p, c) => SetCableKeeps(cables, w, p, c);
    }
  }

  ghost predicate IsRun(cables: Cables, ws: seq<World>, es: seq<Event>) {
    && |ws| == |es| + 1 && ws[0].flying == multiset{} && ws[0].delivered == multiset{}
    && CablesOk(cables, ws[0]) && ConfigsOk(ws[0])
    && forall i :: 0 <= i < |es| ==> Enabled(cables, ws[i], es[i]) && ws[i + 1] == Next(cables, ws[i], es[i])
  }

  lemma {:induction false} RunInv(cables: Cables, ws: seq<World>, es: seq<Event>, i: nat)
    requires IsRun(cables, ws, es) && i < |ws|
    ensures Inv(cables, ws[i])
  {
    hide CablesOk, ConfigsOk, Enabled, Next;
    if i > 0 {
      RunInv(cables, ws, es, i - 1);
      assert ws[(i - 1) + 1] == Next(cables, ws[i - 1], es[i - 1]);
      hide Inv;
      NextKeeps(cables, ws[i - 1], es[i - 1]);
    }
  }

  /** Isolation, for access VLANs that fit sixteen bits or are refused by trunks (GoodVlan), which
      VlanSwitch.TrunkTagIsExact shows to be needed. In every run, whatever the MAC tables hold and
      however ports are reconfigured, a frame that entered in VLAN v leaves only as that frame, untagged
      on an access port of v or tagged v on a trunk, as the port was configured when it left; and
      unless a loop of the cabling can be reached from its switch, never by the port it entered the network
      by. */
  lemma EveryRunIsolates(cables: Cables, ws: seq<World>, es: seq<Event>, i: nat, d: Delivery)
    requires IsRun(cables, ws, es) && i < |ws| && d in ws[i].delivered
    ensures !d.origin.frame.hasVlan && (d.config.Trunk? ==> 1 <= d.origin.vlan < VLAN_IDS)
    ensures if d.config.Trunk? then d.raw == Encode(d.origin.frame.(hasVlan := true, vlanId := d.origin.vlan))
            else d.config == Access(d.origin.vlan) && d.raw == Encode(d.origin.frame)
    ensures d.config.Trunk? || d.origin.frame.ethertype != TYPE_VLAN ==>
              Decode(d.raw).Some? && Decode(d.raw).value.hasVlan == d.config.Trunk?
    ensures d.at == d.origin.at ==> ReachesLoop(cables, d.at.sw)
  {
    RunInv(cables, ws, es, i);
    hide Encode, Decode, CablesOk, ConfigsOk, FlyingOk, IsRun, ReachesLoop;
    assert DeliveryOk(cables, d);
    assert ClearVlan(d.origin.frame) == d.origin.frame;
    RoundTrip(if d.config.Trunk? then d.origin.frame.(hasVlan := true, vlanId := d.origin.vlan) else d.origin.frame);
  }

  // ---------------------------------------------------------------- why the guards are needed

  lemma {:induction false} LaunchHas(cables: Cables, id: nat, out: seq<Sent>, o: Origin, path: seq<Place>, x: Sent)
    requires x in out && Place(id, x.port) in cables
    ensures var here := Place(id, x.port);
            Transit(cables[here], x.raw, o, path + [here]) in Launch(cables, id, out, o, path)
  {
    if x != out[0] {
      LaunchHas(cables, id, out[1..], o, path, x);
    }
  }

  lemma {:induction false} DeliverHas(cables: Cables, s: Switch, id: nat, out: seq<Sent>, o: Origin, x: Sent)
    requires x in out && Place(id, x.port) !in cables && IsPort(s, x.port)
    ensures Delivery(Place(id, x.port), s.ports[x.port - 1], x.raw, o) in Deliver(cables, s, id, out, o)
  {
    if x != out[0] {
      DeliverHas(cables, s, id, out[1..], o, x);
    }
  }

  /** If a cable is changed under a frame the guard forbids, the frame leaks: arriving as a broadcast, it
      is delivered at every edge port of the VLAN it is then admitted in, which is not its own VLAN or
      not with its own content. */
  lemma UnsafeChangeLeaks(cables: Cables, w: World, p: Place, c: PortConfig, t: Transit, e: Place)
    requires Inv(cables, w) && p in cables && t in w.flying && (t.to == p || t.to == cables[p])
    requires !Harmless(c, t.origin, t.raw) && Decode(t.raw).value.dst == BROADCAST_MAC
    requires e.sw == t.to.sw && e.port != t.to.port && e !in cables && Exists(w, e)
    requires e.port in w.switches[e.sw].linked
    requires ConfigAt(w, e) == Access(Ingress(c, Decode(t.raw).value).value)
    ensures Exists(w, p) && Exists(Reconfigured(w, p, c), cables[p])
    ensures var changed := Reconfigured(Reconfigured(w, p, c), cables[p], c);
            && t in changed.flying && Exists(changed, t.to)
            && exists d :: d in Next(cables, changed, Event.Arrive(t)).delivered && d.at == e && d.origin == t.origin
                           && !Carries(d.config, d.origin, d.raw)
  {
    hide Encode, Decode, Receive, Launch, FlyingOk, ConfigsOk, Isolated, Wire;
    ReconfiguredConfigs(w, p, c, cables[p]);
    var w1 := Reconfigured(w, p, c);
    var changed := Reconfigured(w1, cables[p], c);
    assert && Exists(changed, t.to) && ConfigAt(changed, t.to) == c
           && Exists(changed, e) && ConfigAt(changed, e) == ConfigAt(w, e)
    by {
      ReconfiguredConfigs(w, p, c, t.to);
      ReconfiguredConfigs(w1, cables[p], c, t.to);
      ReconfiguredConfigs(w, p, c, e);
      ReconfiguredConfigs(w1, cables[p], c, e);
    }
    var s := changed.switches[e.sw];
    var f := Decode(t.raw).value;
    var v := Ingress(c, f).value;
    assert s.linked == w.switches[e.sw].linked;
    BroadcastGoesOut(s, t.to.port, t.raw, v, e.port);
    var x := Sent(e.port, Encode(ClearVlan(f)));
    DeliverHas(cables, s, e.sw, Receive(s, t.to.port, t.raw).1, t.origin, x);
    var d := Delivery(e, Access(v), x.raw, t.origin);
    assert d in Next(cables, changed, Event.Arrive(t)).delivered;
    WrongFrame(v, f, t.origin);
  }

  lemma WrongFrame(v: int, f: Frame, o: Origin)
    requires v != o.vlan || ClearVlan(f) != o.frame
    ensures !Carries(Access(v), o, Encode(ClearVlan(f)))
  {
    if v == o.vlan && GoodOrigin(o) && Encode(ClearVlan(f)) == Encode(ClearVlan(o.frame)) {
      UntaggedInjective(ClearVlan(f), ClearVlan(o.frame));
    }
    hide Encode;
  }

  // ---------------------------------------------------------------- why loops matter

  /** A cabled port that carries VLAN v. */
  predicate Open(w: World, p: Place, v: int) {
    Exists(w, p) && Carrying(ConfigAt(w, p), v) && p.port in w.switches[p.sw].linked
  }

  predicate Carrying(c: PortConfig, v: int) {
    Allows(c, v) && (c.Trunk? ==> v < VLAN_IDS)
  }

  /** The same switches with the same ports, whatever their MAC tables hold. */
  ghost predicate SameHardware(w: World, w': World) {
    && |w'.switches| == |w.switches|
    && forall i :: 0 <= i < |w.switches| ==>
         w'.switches[i].ports == w.switches[i].ports && w'.switches[i].linked == w.switches[i].linked
  }

  /** An untagged broadcast that access ports admit. */
  predicate Shout(f: Frame) {
    !f.hasVlan && f.vlanId == 0 && f.ethertype != TYPE_VLAN && f.dst == BROADCAST_MAC && |f.payload| <= MAX_PAYLOAD
  }

  /** The bytes of f on a port that carries v. */
  function Bytes(c: PortConfig, f: Frame, v: int): seq<byte>
    requires Carrying(c, v)
  {
    Encode(if c.Trunk? then f.(hasVlan := true, vlanId := v) else f)
  }

  lemma ShoutAdmitted(s: Switch, port: int, f: Frame, v: int)
    requires IsPort(s, port) && Carrying(s.ports[port - 1], v) && Shout(f)
    ensures var g := Decode(Bytes(s.ports[port - 1], f, v));
            && g.Some? && g.value.dst == BROADCAST_MAC && ClearVlan(g.value) == f && |g.value.payload| <= MAX_PAYLOAD
            && Admitted(s, port, Bytes(s.ports[port - 1], f, v)) == Some(v)
  {
    RoundTrip(if s.ports[port - 1].Trunk? then f.(hasVlan := true, vlanId := v) else f);
    hide Encode, Decode;
  }

  /** A broadcast goes on by every other open port of its VLAN. */
  lemma ShoutGoesOn(cables: Cables, w: World, at: Place, here: Place, f: Frame, o: Origin, path: seq<Place>, v: int)
    requires Exists(w, at) && Carrying(ConfigAt(w, at), v) && Open(w, here, v) && Shout(f)
    requires here.sw == at.sw && here != at
    ensures var w1 := Process(cables, w, at, Bytes(ConfigAt(w, at), f, v), o, path);
            var raw := Bytes(ConfigAt(w, here), f, v);
            && SameHardware(w, w1)
            && (here in cables ==> Transit(cables[here], raw, o, path + [here]) in w1.flying)
            && (here !in cables ==> Delivery(here, ConfigAt(w, here), raw, o) in w1.delivered)
  {
    hide Encode, Decode, Receive, Launch, Deliver, Ingress, Bytes;
    var s, came := w.switches[at.sw], Bytes(ConfigAt(w, at), f, v);
    ShoutAdmitted(s, at.port, f, v);
    ReceiveLeaves(s, at.port, came);
    BroadcastGoesOut(s, at.port, came, v, here.port);
    var out := Receive(s, at.port, came).1;
    var x := Sent(here.port, Bytes(ConfigAt(w, here), f, v));
    assert x in out by { BytesAre(ConfigAt(w, here), Decode(came).value, v); }
    if here in cables {
      LaunchHas(cables, at.sw, out, o, path, x);
    } else {
      DeliverHas(cables, s, at.sw, out, o, x);
    }
  }

  lemma BytesAre(c: PortConfig, g: Frame, v: int)
    requires Carrying(c, v)
    ensures Bytes(c, ClearVlan(g), v) ==
            Encode(if c.Trunk? then g.(hasVlan := true, vlanId := v) else ClearVlan(g))
  {
    hide Encode;
    assert c.Trunk? ==> ClearVlan(g).(hasVlan := true, vlanId := v) == g.(hasVlan := true, vlanId := v);
  }

  lemma ShoutEnters(cables: Cables, w: World, e: Place, here: Place, f: Frame, v: int)
    requires Open(w, e, v) && e !in cables && Open(w, here, v) && Shout(f)
    requires here.sw == e.sw && here != e && here in cables
    ensures var event := Enter(e, Bytes(ConfigAt(w, e), f, v));
            && Enabled(cables, w, event) && SameHardware(w, Next(cables, w, event))
            && Transit(cables[here], Bytes(ConfigAt(w, here), f, v), Origin(e, v, f), [here])
               in Next(cables, w, event).flying
  {
    hide Encode, Decode, Process, SameHardware, Ingress, Bytes;
    ShoutAdmitted(w.switches[e.sw], e.port, f, v);
    ShoutGoesOn(cables, w, e, here, f, Origin(e, v, f), [], v);
    assert [] + [here] == [here];
  }

  lemma ShoutArrives(cables: Cables, w: World, t: Transit, here: Place, f: Frame, v: int)
    requires t in w.flying && Exists(w, t.to) && Carrying(ConfigAt(w, t.to), v)
    requires t.raw == Bytes(ConfigAt(w, t.to), f, v)
    requires Open(w, here, v) && Shout(f) && here.sw == t.to.sw && here != t.to
    ensures var event := Event.Arrive(t);
            var w1, raw := Next(cables, w, event), Bytes(ConfigAt(w, here), f, v);
            && Enabled(cables, w, event) && SameHardware(w, w1)
            && (here in cables ==> Transit(cables[here], raw, t.origin, t.path + [here]) in w1.flying)
            && (here !in cables ==> Delivery(here, ConfigAt(w, here), raw, t.origin) in w1.delivered)
  {
    hide Encode, Process, Bytes;
    ShoutGoesOn(cables, w.(flying := w.flying - multiset{t}), t.to, here, f, t.origin, t.path, v);
  }

  lemma Extended(cables: Cables, ws: seq<World>, es: seq<Event>, e: Event)
    requires IsRun(cables, ws, es) && Enabled(cables, ws[|es|], e)
    ensures IsRun(cables, ws + [Next(cables, ws[|es|], e)], es + [e])
  {
    hide Enabled, Next, CablesOk, ConfigsOk;
    var w := Next(cables, ws[|es|], e);
    forall i | 0 <= i < |es| + 1
      ensures Enabled(cables, (ws + [w])[i], (es + [e])[i])
      ensures (ws + [w])[i + 1] == Next(cables, (ws + [w])[i], (es + [e])[i])
    {
      assert i < |es| ==> Enabled(cables, ws[i], es[i]) && ws[i + 1] == Next(cables, ws[i], es[i]);
    }
  }

  /** Every port on the way is open. */
  ghost predicate AllOpen(w: World, path: seq<Place>, v: int) {
    forall i :: 0 <= i < |path| ==> Open(w, path[i], v)
  }

  lemma StaysOpen(w: World, w': World, p: Place, v: int)
    requires SameHardware(w, w')
    ensures Exists(w', p) == Exists(w, p) && Open(w', p, v) == Open(w, p, v)
    ensures Exists(w, p) ==> ConfigAt(w', p) == ConfigAt(w, p)
  {
  }

  /** A broadcast follows any walk of open ports: one step to enter, one for every hop. */
  lemma {:induction false} ShoutTravels(cables: Cables, w0: World, e: Place, path: seq<Place>, k: nat, f: Frame, v: int)
    returns (ws: seq<World>, es: seq<Event>)
    requires CablesOk(cables, w0) && ConfigsOk(w0) && w0.flying == multiset{} && w0.delivered == multiset{}
    requires e !in cables && Open(w0, e, v) && AllOpen(w0, path, v) && Shout(f)
    requires 1 <= k <= |path| && Walk(cables, path) && path[0].sw == e.sw
    ensures IsRun(cables, ws, es) && |es| == k && ws[0] == w0 && SameHardware(w0, ws[k]) && Unchanging(es)
    ensures Transit(cables[path[k - 1]], Bytes(ConfigAt(w0, path[k - 1]), f, v), Origin(e, v, f), path[..k])
            in ws[k].flying
  {
    hide Enabled, Next, CablesOk, ConfigsOk, Bytes, Open, Exists, ConfigAt;
    OpenCarries(w0, e, v);
    OpenCarries(w0, path[k - 1], v);
    if k == 1 {
      ShoutEnters(cables, w0, e, path[0], f, v);
      assert path[..1] == [path[0]];
      var event := Enter(e, Bytes(ConfigAt(w0, e), f, v));
      assert IsRun(cables, [w0], []);
      Extended(cables, [w0], [], event);
      ws, es := [w0] + [Next(cables, w0, event)], [] + [event];
    } else {
      ws, es := ShoutTravels(cables, w0, e, path, k - 1, f, v);
      OpenCarries(w0, path[k - 2], v);
      var raw := Bytes(ConfigAt(w0, path[k - 2]), f, v);
      var t := Transit(cables[path[k - 2]], raw, Origin(e, v, f), path[..k - 1]);
      ShoutHops(cables, w0, ws[k - 1], t, path[k - 2], path[k - 1], f, v);
      assert path[..k] == path[..k - 1] + [path[k - 1]];
      Extended(cables, ws, es, Event.Arrive(t));
      ws, es := ws + [Next(cables, ws[k - 1], Event.Arrive(t))], es + [Event.Arrive(t)];
    }
  }

  /** One hop, in a world that has the ports of w0. */
  lemma ShoutHops(cables: Cables, w0: World, w: World, t: Transit, from: Place, here: Place, f: Frame, v: int)
    requires CablesOk(cables, w0) && SameHardware(w0, w) && Open(w0, from, v) && Open(w0, here, v) && Shout(f)
    requires from in cables && t.to == cables[from] && t in w.flying && t.raw == Bytes(ConfigAt(w0, from), f, v)
    requires here.sw == t.to.sw && here != t.to
    ensures var event := Event.Arrive(t);
            var w1, raw := Next(cables, w, event), Bytes(ConfigAt(w0, here), f, v);
            && Enabled(cables, w, event) && SameHardware(w0, w1)
            && (here in cables ==> Transit(cables[here], raw, t.origin, t.path + [here]) in w1.flying)
            && (here !in cables ==> Delivery(here, ConfigAt(w0, here), raw, t.origin) in w1.delivered)
  {
    hide Enabled, Next, Bytes, Shout, Exists, ConfigAt;
    StaysOpen(w0, w, here, v);
    StaysOpen(w0, w, t.to, v);
    ShoutArrives(cables, w, t, here, f, v);
  }

  /** Any walk back to a switch over ports that carry v brings a broadcast back to the port of the switch
      it entered by: a run of one step more than the walk has hops delivers it there. */
  lemma LoopReturns(cables: Cables, w0: World, e: Place, path: seq<Place>, f: Frame, v: int)
    returns (ws: seq<World>, es: seq<Event>)
    requires CablesOk(cables, w0) && ConfigsOk(w0) && w0.flying == multiset{} && w0.delivered == multiset{}
    requires e !in cables && Open(w0, e, v) && AllOpen(w0, path, v) && Shout(f)
    requires ComesBack(cables, path, e.sw)
    ensures IsRun(cables, ws, es) && |es| == |path| + 1 && ws[0] == w0 && Unchanging(es)
    ensures Delivery(e, ConfigAt(w0, e), Bytes(ConfigAt(w0, e), f, v), Origin(e, v, f)) in ws[|es|].delivered
  {
    hide Enabled, Next, ConfigsOk, Bytes, Open;
    var n := |path|;
    ws, es := ShoutTravels(cables, w0, e, path, n, f, v);
    OpenCarries(w0, path[n - 1], v);
    var raw := Bytes(ConfigAt(w0, path[n - 1]), f, v);
    var t := Transit(cables[path[n - 1]], raw, Origin(e, v, f), path[..n]);
    assert e != t.to;
    ShoutHops(cables, w0, ws[n], t, path[n - 1], e, f, v);
    Extended(cables, ws, es, Event.Arrive(t));
    ws, es := ws + [Next(cables, ws[n], Event.Arrive(t))], es + [Event.Arrive(t)];
  }

  /** No port is reconfigured. */
  predicate Unchanging(es: seq<Event>) {
    forall i :: 0 <= i < |es| ==> !es[i].SetEdge? && !es[i].SetCable?
  }

  /** Is there a walk back to this switch over ports that carry v? */
  ghost predicate ReachesOpenLoop(cables: Cables, w: World, v: int, sw: nat) {
    exists path: seq<Place> :: ComesBack(cables, path, sw) && AllOpen(w, path, v)
  }

  /** While nothing is reconfigured, frames take only ports that carry their VLAN. */
  ghost predicate StaysInside(cables: Cables, w0: World, w: World) {
    && SameHardware(w0, w)
    && (forall t :: t in w.flying ==> AllOpen(w0, t.path, t.origin.vlan))
    && (forall d :: d in w.delivered && d.at == d.origin.at ==>
          ReachesOpenLoop(cables, w0, d.origin.vlan, d.at.sw))
  }

  /** What a switch sends takes a port that carries its VLAN. */
  lemma LeavesByOpen(w: World, sw: nat, vlan: int, f: Frame, x: Sent)
    requires sw < |w.switches| && LeavesIn(w.switches[sw], vlan, f, x) && GoodVlan(vlan)
    ensures Open(w, Place(sw, x.port), vlan)
  {
    hide Encode;
  }

  ghost predicate AllByOpen(w: World, at: Place, out: seq<Sent>, vlan: int) {
    forall x :: x in out ==> x.port != at.port && Open(w, Place(at.sw, x.port), vlan)
  }

  lemma {:induction false} LaunchedInside(cables: Cables, w: World, at: Place, out: seq<Sent>, o: Origin,
                                          path: seq<Place>)
    requires AllByOpen(w, at, out, o.vlan) && AllOpen(w, path, o.vlan)
    ensures forall t :: t in Launch(cables, at.sw, out, o, path) ==> AllOpen(w, t.path, t.origin.vlan)
  {
    hide Open;
    if |out| > 0 {
      LaunchedInside(cables, w, at, out[1..], o, path);
      assert out[0] in out;
    }
  }

  lemma {:induction false} DeliveredInside(cables: Cables, w: World, s: Switch, at: Place, out: seq<Sent>, o: Origin,
                                           path: seq<Place>)
    requires AllByOpen(w, at, out, o.vlan) && AllOpen(w, path, o.vlan) && Came(cables, o, path, at)
    ensures forall d :: d in Deliver(cables, s, at.sw, out, o) && d.at == d.origin.at ==>
              ReachesOpenLoop(cables, w, d.origin.vlan, d.at.sw)
  {
    hide Open, AllOpen, ReachesOpenLoop;
    if |out| > 0 {
      DeliveredInside(cables, w, s, at, out[1..], o, path);
      assert out[0] in out;
      if Place(at.sw, out[0].port) == o.at {
        BackInside(cables, w, o, path, at);
      }
    }
  }

  lemma BackInside(cables: Cables, w: World, o: Origin, path: seq<Place>, at: Place)
    requires Came(cables, o, path, at) && AllOpen(w, path, o.vlan) && o.at.sw == at.sw && o.at != at
    ensures ReachesOpenLoop(cables, w, o.vlan, o.at.sw)
  {
    hide AllOpen;
    assert ComesBack(cables, path, o.at.sw);
  }

  lemma ProcessInside(cables: Cables, w0: World, w: World, at: Place, raw: seq<byte>, o: Origin, path: seq<Place>)
    requires StaysInside(cables, w0, w) && Exists(w, at) && Harmless(ConfigAt(w, at), o, raw) && GoodVlan(o.vlan)
    requires Came(cables, o, path, at) && AllOpen(w0, path, o.vlan)
    ensures StaysInside(cables, w0, Process(cables, w, at, raw, o, path))
  {
    hide Receive, Open, Came, AllOpen, ReachesOpenLoop, LeavesIn, Decode, Launch, Deliver, ClearVlan;
    var s := w.switches[at.sw];
    var out := Receive(s, at.port, raw).1;
    ReceiveLeaves(s, at.port, raw);
    forall x | x in out
      ensures x.port != at.port && Open(w0, Place(at.sw, x.port), o.vlan)
    {
      LeavesByOpen(w, at.sw, o.vlan, Decode(raw).value, x);
      StaysOpen(w0, w, Place(at.sw, x.port), o.vlan);
    }
    LaunchedInside(cables, w0, at, out, o, path);
    DeliveredInside(cables, w0, s, at, out, o, path);
  }

  lemma NextInside(cables: Cables, w0: World, w: World, e: Event)
    requires Inv(cables, w) && StaysInside(cables, w0, w) && Enabled(cables, w, e) && !e.SetEdge? && !e.SetCable?
    ensures StaysInside(cables, w0, Next(cables, w, e))
  {
    hide Process, Carries, Decode, SafeChange, AllOpen, ReachesOpenLoop, Came, CablesOk, Isolated, ClearVlan;
    match e {
      case Enter(at, raw) =>
        if OriginOf(w, at, raw).Some? {
          var o := OriginOf(w, at, raw).value;
          assert GoodConfig(ConfigAt(w, at));
          assert Came(cables, o, [], at) && AllOpen(w0, [], o.vlan) by { StartsHere(cables, w0, o, at); }
          ProcessInside(cables, w0, w, at, raw, o, []);
        }
      case Arrive(t) =>
        assert TransitOk(cables, w, t);
        assert GoodVlan(t.origin.vlan) by { TransitVlan(cables, w, t); }
        ProcessInside(cables, w0, w.(flying := w.flying - multiset{t}), t.to, t.raw, t.origin, t.path);
      case Forgotten(sw, vlan, mac) =>
    }
  }

  lemma StartsHere(cables: Cables, w: World, o: Origin, at: Place)
    requires o.at == at
    ensures Came(cables, o, [], at) && AllOpen(w, [], o.vlan)
  {
  }

  lemma TransitVlan(cables: Cables, w: World, t: Transit)
    requires TransitOk(cables, w, t)
    ensures GoodVlan(t.origin.vlan)
  {
    hide Wire, Harmless, Came;
  }

  lemma {:induction false} RunInside(cables: Cables, ws: seq<World>, es: seq<Event>, i: nat)
    requires IsRun(cables, ws, es) && Unchanging(es) && i < |ws|
    ensures StaysInside(cables, ws[0], ws[i])
  {
    hide CablesOk, ConfigsOk, Enabled, Next, Inv, AllOpen, ReachesOpenLoop;
    if i > 0 {
      RunInside(cables, ws, es, i - 1);
      RunInv(cables, ws, es, i - 1);
      assert ws[(i - 1) + 1] == Next(cables, ws[i - 1], es[i - 1]);
      NextInside(cables, ws[0], ws[i - 1], es[i - 1]);
    }
  }

  /** A run from w0 without reconfiguration that ends with a frame of v delivered at the port it entered
      by. */
  ghost predicate BringsBack(cables: Cables, w0: World, e: Place, v: int, ws: seq<World>, es: seq<Event>, d: Delivery) {
    && IsRun(cables, ws, es) && ws[0] == w0 && Unchanging(es)
    && d in ws[|es|].delivered && d.at == e && d.origin.at == e && d.origin.vlan == v
  }

  /** Exactly when the ingress rule holds for the whole network: in any configuration, as long as it is left
      alone, some run brings a frame of v back to the edge port it entered by if and only if a walk of ports
      that carry v, access and trunk, leads from that switch back to it. */
  lemma ReturnsExactly(cables: Cables, w0: World, e: Place, v: int)
    requires CablesOk(cables, w0) && ConfigsOk(w0) && w0.flying == multiset{} && w0.delivered == multiset{}
    requires e !in cables && Open(w0, e, v)
    ensures ReachesOpenLoop(cables, w0, v, e.sw) <==>
              exists ws: seq<World>, es: seq<Event>, d: Delivery :: BringsBack(cables, w0, e, v, ws, es, d)
  {
    hide CablesOk, ConfigsOk, Encode, Open, ComesBack;
    if path: seq<Place> :| ComesBack(cables, path, e.sw) && AllOpen(w0, path, v) {
      var f := Frame(BROADCAST_MAC, BROADCAST_MAC, false, 0, 0, []);
      assert Carrying(ConfigAt(w0, e), v) by { OpenCarries(w0, e, v); }
      var ws, es := LoopReturns(cables, w0, e, path, f, v);
      var d := Delivery(e, ConfigAt(w0, e), Bytes(ConfigAt(w0, e), f, v), Origin(e, v, f));
      assert BringsBack(cables, w0, e, v, ws, es, d);
    }
    if ws: seq<World>, es: seq<Event>, d: Delivery :| BringsBack(cables, w0, e, v, ws, es, d) {
      RunInside(cables, ws, es, |es|);
    }
  }

  lemma OpenCarries(w: World, p: Place, v: int)
    requires Open(w, p, v)
    ensures Exists(w, p) && Carrying(ConfigAt(w, p), v)
  {
  }

  /** The smallest loop: two switches with two cables between them, every port in VLAN 1, and an edge at
      the first. */
  const LOOP: Cables := map[
    Place(0, 2) := Place(1, 2), Place(1, 2) := Place(0, 2), Place(0, 3) := Place(1, 3), Place(1, 3) := Place(0, 3)]

  lemma SmallestLoop()
    ensures ReachesLoop(LOOP, 0)
  {
    assert ComesBack(LOOP, [Place(0, 2), Place(1, 3)], 0);
  }
}
