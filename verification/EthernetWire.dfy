/** Ethernet frames with an optional 802.1Q tag (layer2/ethernet.c). */
module EthernetWire {
  import opened Base

  const MAX_PAYLOAD := 1500
  const HEADER_SIZE := 14
  const TYPE_VLAN: u16 := 0x8100
  const VLAN_IDS := 0x1000

  datatype Frame = Frame(dst: Mac, src: Mac, hasVlan: bool, vlanId: u16, ethertype: u16, payload: seq<byte>)

  function MacBytes(m: Mac): (s: seq<byte>)
    ensures |s| == 6
  {
    [m.b0, m.b1, m.b2, m.b3, m.b4, m.b5]
  }

  function ReadMac(raw: seq<byte>, at: nat): Mac
    requires at + 6 <= |raw|
  {
    Mac(raw[at], raw[at + 1], raw[at + 2], raw[at + 3], raw[at + 4], raw[at + 5])
  }

  /** What stands between the addresses and the payload: only twelve bits of a VLAN id are written. */
  function Types(f: Frame): (s: seq<byte>)
    ensures |s| == if f.hasVlan then 6 else 2
  {
    (if f.hasVlan then U16Bytes(TYPE_VLAN) + U16Bytes(f.vlanId % VLAN_IDS) else []) + U16Bytes(f.ethertype)
  }

  /** ethernet_to_bytes. */
  function Encode(f: Frame): (raw: seq<byte>)
    ensures |raw| == 12 + |Types(f)| + |f.payload|
  {
    MacBytes(f.dst) + MacBytes(f.src) + Types(f) + f.payload
  }

  /** ethernet_from_bytes. */
  function Decode(raw: seq<byte>): (r: Option<Frame>)
    ensures r.Some? ==> |r.value.payload| <= MAX_PAYLOAD && r.value.vlanId < VLAN_IDS
  {
    if |raw| < HEADER_SIZE then None else
    var kind := ReadU16(raw, 12);
    if kind == TYPE_VLAN then
      if |raw| < 18 || |raw| - 18 > MAX_PAYLOAD then None
      else Some(Frame(ReadMac(raw, 0), ReadMac(raw, 6), true, ReadU16(raw, 14) % VLAN_IDS, ReadU16(raw, 16), raw[18..]))
    else if |raw| - HEADER_SIZE > MAX_PAYLOAD then None
    else Some(Frame(ReadMac(raw, 0), ReadMac(raw, 6), false, 0, kind, raw[HEADER_SIZE..]))
  }

  /** ethernet_set_vlan. */
  function SetVlan(f: Frame, vlanId: u16): Option<Frame> {
    if vlanId == 0 || vlanId >= VLAN_IDS then None else Some(f.(hasVlan := true, vlanId := vlanId))
  }

  function ClearVlan(f: Frame): Frame {
    f.(hasVlan := false, vlanId := 0)
  }

  lemma HeaderBytes(f: Frame)
    ensures var raw := Encode(f);
            && raw[0..6] == MacBytes(f.dst) && raw[6..12] == MacBytes(f.src)
            && raw[12..12 + |Types(f)|] == Types(f) && raw[12 + |Types(f)|..] == f.payload
  {
  }

  lemma AddressesBack(f: Frame)
    ensures ReadMac(Encode(f), 0) == f.dst && ReadMac(Encode(f), 6) == f.src
  {
    var raw := Encode(f);
    HeaderBytes(f);
    hide Encode;
    assert raw[0..6][0] == raw[0] && raw[0..6][1] == raw[1] && raw[0..6][2] == raw[2];
    assert raw[0..6][3] == raw[3] && raw[0..6][4] == raw[4] && raw[0..6][5] == raw[5];
    assert raw[6..12][0] == raw[6] && raw[6..12][1] == raw[7] && raw[6..12][2] == raw[8];
    assert raw[6..12][3] == raw[9] && raw[6..12][4] == raw[10] && raw[6..12][5] == raw[11];
  }

  lemma TypesBack(f: Frame)
    ensures var raw := Encode(f);
            && ReadU16(raw, 12) == (if f.hasVlan then TYPE_VLAN else f.ethertype)
            && (f.hasVlan ==> ReadU16(raw, 14) == f.vlanId % VLAN_IDS && ReadU16(raw, 16) == f.ethertype)
  {
    var raw, t := Encode(f), Types(f);
    HeaderBytes(f);
    hide Encode;
    var written := raw[12..12 + |t|];
    assert raw[12] == written[0] && raw[13] == written[1];
    if f.hasVlan {
      assert raw[14] == written[2] && raw[15] == written[3] && raw[16] == written[4] && raw[17] == written[5];
    }
  }

  /** A frame survives the wire exactly when its VLAN id fits twelve bits and, untagged, it does not
      carry the type that announces a tag. */
  lemma RoundTrip(f: Frame)
    requires |f.payload| <= MAX_PAYLOAD
    ensures Decode(Encode(f)) == Some(f) <==>
              if f.hasVlan then f.vlanId < VLAN_IDS else f.vlanId == 0 && f.ethertype != TYPE_VLAN
  {
    AddressesBack(f);
    TypesBack(f);
    HeaderBytes(f);
    hide Encode, Types, ReadU16, ReadMac;
  }

  /** An untagged frame of type 0x8100 is taken for a tagged one, or refused. */
  lemma UntaggedLooksTagged(f: Frame)
    requires !f.hasVlan && f.ethertype == TYPE_VLAN
    ensures var r := Decode(Encode(f)); r.None? || r.value.hasVlan
  {
    TypesBack(f);
    hide Encode, ReadU16, ReadMac;
  }

  /** Untagged frames with the same bytes are the same frame. */
  lemma UntaggedInjective(f: Frame, g: Frame)
    requires !f.hasVlan && !g.hasVlan && f.vlanId == 0 && g.vlanId == 0 && Encode(f) == Encode(g)
    ensures f == g
  {
    AddressesBack(f);
    AddressesBack(g);
    TypesBack(f);
    TypesBack(g);
    HeaderBytes(f);
    HeaderBytes(g);
    hide Encode, ReadU16, ReadMac;
  }

  /** What an untagged frame of type 0x8100 is taken for: a frame tagged by its first payload bytes. */
  lemma UntaggedAsTagged(f: Frame)
    requires !f.hasVlan && f.ethertype == TYPE_VLAN && |f.payload| <= MAX_PAYLOAD
    ensures var r := Decode(Encode(f));
            if |f.payload| < 4 then r.None?
            else r.Some? && r.value.hasVlan && r.value.vlanId == ReadU16(f.payload, 0) % VLAN_IDS
                 && ClearVlan(r.value) != ClearVlan(f)
  {
    TypesBack(f);
    HeaderBytes(f);
    var raw := Encode(f);
    assert raw[14..] == f.payload;
    if |f.payload| >= 4 {
      assert raw[14] == f.payload[0] && raw[15] == f.payload[1];
      assert |raw[18..]| == |f.payload| - 4;
    }
    hide Encode, ReadMac;
  }

  method ToBytes(f: Frame, out: array<byte>) returns (n: nat)
    modifies out
    ensures if |f.payload| > MAX_PAYLOAD || out.Length < |Encode(f)|
            then n == 0 && out[..] == old(out[..])
            else n == |Encode(f)| && out[..n] == Encode(f) && out[n..] == old(out[n..])
  {
    hide Types, U16Bytes, MacBytes;
    var headerSize := if f.hasVlan then 18 else HEADER_SIZE;
    if |f.payload| > MAX_PAYLOAD || out.Length < headerSize + |f.payload| {
      return 0;
    }
    var offset := 0;
    CopyIn(out, offset, MacBytes(f.dst));
    offset := offset + 6;
    CopyIn(out, offset, MacBytes(f.src));
    offset := offset + 6;
    WriteTypes(f, out);
    offset := headerSize;
    CopyIn(out, offset, f.payload);
    offset := offset + |f.payload|;
    n := offset;
    assert out[..n] == Encode(f);
  }

  method WriteTypes(f: Frame, out: array<byte>)
    requires 12 + |Types(f)| <= out.Length
    modifies out
    ensures forall k :: 0 <= k < |Types(f)| ==> out[12 + k] == Types(f)[k]
    ensures forall k :: 0 <= k < out.Length && !(12 <= k < 12 + |Types(f)|) ==> out[k] == old(out[k])
  {
    var offset := 12;
    if f.hasVlan {
      WriteU16(out, offset, TYPE_VLAN);
      offset := offset + 2;
      WriteU16(out, offset, f.vlanId % VLAN_IDS);
      offset := offset + 2;
    }
    WriteU16(out, offset, f.ethertype);
  }

  method FromBytes(raw: array<byte>, len: nat) returns (r: Option<Frame>)
    requires len <= raw.Length
    ensures r == Decode(raw[..len])
  {
    if len < HEADER_SIZE {
      return None;
    }
    var f := Frame(Mac(raw[0], raw[1], raw[2], raw[3], raw[4], raw[5]),
                   Mac(raw[6], raw[7], raw[8], raw[9], raw[10], raw[11]), false, 0, 0, []);
    var offset := 14;
    var kind := Be16(raw[12], raw[13]);
    if kind == TYPE_VLAN {
      if len < 18 {
        return None;
      }
      f := f.(hasVlan := true, vlanId := Be16(raw[14], raw[15]) % VLAN_IDS, ethertype := Be16(raw[16], raw[17]));
      offset := 18;
    } else {
      f := f.(ethertype := kind);
    }
    if len - offset > MAX_PAYLOAD {
      return None;
    }
    r := Some(f.(payload := raw[offset..len]));
    assert raw[..len][offset..] == raw[offset..len];
  }
}
