/** The wire formats byte by byte, against the tables of the standards: sections 3.1 of RFC 791 and RFC 793,
    RFC 792, RFC 768, and the tagged frames of IEEE 802.1Q. */
module WireLayouts {
  import opened Base
  import Checksum
  import Ipv4Wire
  import IcmpWire
  import TcpWire
  import UdpWire
  import EthernetWire

  /** The number that stands in these octets, the most significant one first. */
  function Number(s: seq<byte>): nat {
    if |s| == 0 then 0 else 0x100 * Number(s[..|s| - 1]) + s[|s| - 1]
  }

  lemma TwoOctets(raw: seq<byte>, at: nat)
    requires at + 2 <= |raw|
    ensures ReadU16(raw, at) == Number(raw[at..at + 2])
  {
    var s := raw[at..at + 2];
    assert s[..1][..0] == [] && s[..1][0] == raw[at] && s[1] == raw[at + 1];
    assert Number(s[..1]) == raw[at];
  }

  lemma FourOctets(raw: seq<byte>, at: nat)
    requires at + 4 <= |raw|
    ensures ReadU32(raw, at) == Number(raw[at..at + 4])
  {
    var s := raw[at..at + 4];
    TwoOctets(s, 0);
    assert s[0..2] == s[..3][..2] && s[..3] == raw[at..at + 3] && s[..3][2] == raw[at + 2] && s[3] == raw[at + 3];
    assert s[0] == raw[at] && s[1] == raw[at + 1];
    assert Number(s[..3]) == 0x100 * Number(s[..3][..2]) + s[..3][2];
  }

  function Octets(ip: Ip): seq<byte> {
    [ip.o0, ip.o1, ip.o2, ip.o3]
  }

  /** What a checksum of zero over a message and its pseudo-header means. */
  lemma SumWithPseudoHeader(src: Ip, dst: Ip, protocol: byte, raw: seq<byte>)
    requires |raw| < 0x1_0000 && Checksum.Of(Checksum.PseudoSum(src, dst, protocol, |raw|), raw) == 0
    ensures (Checksum.OctetSum(Octets(src) + Octets(dst) + [0, protocol] + U16Bytes(|raw|)) + Checksum.OctetSum(raw))
            % 65535 == 0
  {
    hide Checksum.Of, Checksum.PseudoSum, U16Bytes, Checksum.OctetSum;
    Checksum.PseudoSumByOctets(src, dst, protocol, |raw|);
    assert Checksum.PseudoHeader(src, dst, protocol, |raw|) ==
           Octets(src) + Octets(dst) + [0, protocol] + U16Bytes(|raw|);
    Checksum.ChecksumByOctets(Checksum.PseudoSum(src, dst, protocol, |raw|), raw);
  }

  // ---------------------------------------------------------------- IPv4

  /** Version 4, header length 5, no options; the pairs of header octets add up to a multiple of 65535. */
  lemma Ipv4Written(p: Ipv4Wire.Packet)
    requires |p.payload| <= 1480
    ensures var raw := Ipv4Wire.Encode(p);
            && |raw| == 20 + |p.payload| && raw[0] == 4 * 16 + 5 && raw[1] == 0 && Number(raw[2..4]) == |raw|
            && raw[4..8] == [0, 0, 0, 0] && raw[8] == p.ttl && raw[9] == p.protocol
            && raw[12..16] == Octets(p.src) && raw[16..20] == Octets(p.dst) && raw[20..] == p.payload
            && Checksum.OctetSum(raw[..20]) % 65535 == 0
  {
    hide Checksum.Of, Checksum.OctetSum, Checksum.PseudoSum;
    var raw := Ipv4Wire.Encode(p);
    TwoOctets(raw, 2);
    assert raw[..20] == Ipv4Wire.Header(p, Ipv4Wire.HeaderChecksum(p));
    Ipv4Wire.StoredHeaderValidates(p);
    Checksum.ChecksumByOctets(0, raw[..20]);
  }

  /** A packet is read exactly if its version is 4, its header length at least 5 words and inside, and its
      total length neither shorter than the header nor longer than what is there nor more than the limit. */
  lemma Ipv4Read(raw: seq<byte>)
    ensures var r := Ipv4Wire.Decode(raw);
            && (r.Some? <==> |raw| >= 20 && raw[0] / 16 == 4 && 5 <= raw[0] % 16 && raw[0] % 16 * 4 <= |raw|
                             && raw[0] % 16 * 4 <= Number(raw[2..4]) <= |raw|
                             && Number(raw[2..4]) - raw[0] % 16 * 4 <= 1480)
            && (r.Some? ==>
                  && r.value.version == 4 && r.value.ihl == raw[0] % 16 && r.value.totalLength == Number(raw[2..4])
                  && r.value.ttl == raw[8] && r.value.protocol == raw[9] && r.value.checksum == Number(raw[10..12])
                  && Octets(r.value.src) == raw[12..16] && Octets(r.value.dst) == raw[16..20]
                  && r.value.payload == raw[raw[0] % 16 * 4..r.value.totalLength])
  {
    if |raw| >= 20 {
      TwoOctets(raw, 2);
      TwoOctets(raw, 10);
    }
    hide Number;
  }

  // ---------------------------------------------------------------- ICMP

  lemma IcmpWritten(m: IcmpWire.Message)
    ensures var raw := IcmpWire.Encode(m);
            && |raw| == 8 + |m.payload| && raw[0] == m.kind && raw[1] == m.code
            && Number(raw[4..6]) == m.identifier && Number(raw[6..8]) == m.sequence && raw[8..] == m.payload
            && Checksum.OctetSum(raw) % 65535 == 0
  {
    hide Checksum.Of, Checksum.OctetSum;
    var raw := IcmpWire.Encode(m);
    TwoOctets(raw, 4);
    TwoOctets(raw, 6);
    IcmpWire.StoredIsValid(m);
    Checksum.ChecksumByOctets(0, raw);
  }

  lemma IcmpRead(raw: seq<byte>)
    ensures var r := IcmpWire.Decode(raw);
            && (r.Some? <==> 8 <= |raw| <= 8 + 1472)
            && (r.Some? ==>
                  && r.value.kind == raw[0] && r.value.code == raw[1] && r.value.checksum == Number(raw[2..4])
                  && r.value.identifier == Number(raw[4..6]) && r.value.sequence == Number(raw[6..8])
                  && r.value.payload == raw[8..])
  {
    if |raw| >= 8 {
      TwoOctets(raw, 2);
      TwoOctets(raw, 4);
      TwoOctets(raw, 6);
    }
    hide Number;
  }

  // ---------------------------------------------------------------- TCP

  lemma TcpNumbers(s: TcpWire.Segment)
    ensures var raw := TcpWire.Encode(s);
            && Number(raw[0..2]) == s.srcPort && Number(raw[2..4]) == s.dstPort
            && Number(raw[4..8]) == s.seqNum && Number(raw[8..12]) == s.ackNum
            && Number(raw[14..16]) == s.window && Number(raw[16..18]) == s.checksum
            && Number(raw[18..20]) == s.urgentPtr
  {
    var raw := TcpWire.Encode(s);
    TcpWire.HeaderBytes(s);
    hide TcpWire.Encode, Number;
    TwoOctets(raw, 0);
    TwoOctets(raw, 2);
    FourOctets(raw, 4);
    FourOctets(raw, 8);
    TwoOctets(raw, 14);
    TwoOctets(raw, 16);
    TwoOctets(raw, 18);
    ReadBack32(raw, 4, s.seqNum);
    ReadBack32(raw, 8, s.ackNum);
  }

  /** A sealed segment: its octets together with those of the pseudo-header, whose protocol is 6, add up to a
      multiple of 65535. */
  lemma TcpWritten(s: TcpWire.Segment, src: Ip, dst: Ip)
    requires |s.payload| <= 1460 && s.dataOffset == 5
    ensures var m := TcpWire.Seal(s, src, dst); var raw := TcpWire.Encode(m);
            && |raw| == 20 + |s.payload| && Number(raw[0..2]) == s.srcPort && Number(raw[2..4]) == s.dstPort
            && Number(raw[4..8]) == s.seqNum && Number(raw[8..12]) == s.ackNum
            && raw[12] == 5 * 16 && raw[13] == s.flags && Number(raw[14..16]) == s.window
            && Number(raw[18..20]) == s.urgentPtr && raw[20..] == s.payload
            && (Checksum.OctetSum(Octets(src) + Octets(dst) + [0, 6] + U16Bytes(|raw|)) + Checksum.OctetSum(raw))
               % 65535 == 0
  {
    hide TcpWire.Encode, TcpWire.Valid, Number, Checksum.Of, Checksum.PseudoSum, U16Bytes, Checksum.OctetSum,
      U32Bytes;
    var m := TcpWire.Seal(s, src, dst);
    var raw := TcpWire.Encode(m);
    TcpNumbers(m);
    TcpWire.HeaderBytes(m);
    TcpWire.SealedIsValid(s, src, dst);
    TcpSum(m, src, dst);
    SumWithPseudoHeader(src, dst, 6, raw);
  }

  lemma TcpSum(s: TcpWire.Segment, src: Ip, dst: Ip)
    requires TcpWire.Valid(s, src, dst)
    ensures Checksum.Of(Checksum.PseudoSum(src, dst, 6, |TcpWire.Encode(s)|), TcpWire.Encode(s)) == 0
  {
    hide TcpWire.Encode, Checksum.Of, Checksum.PseudoSum;
  }

  lemma TcpRead(raw: seq<byte>)
    ensures var r := TcpWire.Decode(raw);
            && (r.Some? <==> |raw| >= 20 && 5 <= raw[12] / 16 && raw[12] / 16 * 4 <= |raw|
                             && |raw| - raw[12] / 16 * 4 <= 1460)
            && (r.Some? ==>
                  var s := r.value;
                  && s.srcPort == Number(raw[0..2]) && s.dstPort == Number(raw[2..4])
                  && s.seqNum == Number(raw[4..8]) && s.ackNum == Number(raw[8..12]) && s.dataOffset == raw[12] / 16
                  && s.flags == raw[13] && s.window == Number(raw[14..16]) && s.checksum == Number(raw[16..18])
                  && s.urgentPtr == Number(raw[18..20]) && s.payload == raw[raw[12] / 16 * 4..])
  {
    if |raw| >= 20 {
      TwoOctets(raw, 0);
      TwoOctets(raw, 2);
      FourOctets(raw, 4);
      FourOctets(raw, 8);
      TwoOctets(raw, 14);
      TwoOctets(raw, 16);
      TwoOctets(raw, 18);
    }
    hide Number, ReadU16, ReadU32;
  }

  // ---------------------------------------------------------------- UDP

  /** A sealed datagram, with the pseudo-header of protocol 17. */
  lemma UdpWritten(d: UdpWire.Datagram, src: Ip, dst: Ip)
    requires |d.payload| <= 1472
    ensures var raw := UdpWire.Encode(UdpWire.Seal(d, src, dst));
            && |raw| == 8 + |d.payload| && Number(raw[0..2]) == d.srcPort && Number(raw[2..4]) == d.dstPort
            && Number(raw[4..6]) == d.length && raw[8..] == d.payload
            && (Checksum.OctetSum(Octets(src) + Octets(dst) + [0, 17] + U16Bytes(|raw|)) + Checksum.OctetSum(raw))
               % 65535 == 0
  {
    hide UdpWire.Encode, UdpWire.Valid, Number, Checksum.Of, Checksum.PseudoSum, U16Bytes, Checksum.OctetSum, ReadU16;
    var m := UdpWire.Seal(d, src, dst);
    var raw := UdpWire.Encode(m);
    UdpFields(m);
    TwoOctets(raw, 0);
    TwoOctets(raw, 2);
    TwoOctets(raw, 4);
    UdpWire.SealedIsValid(d, src, dst);
    UdpSum(m, src, dst);
    SumWithPseudoHeader(src, dst, 17, raw);
  }

  lemma UdpFields(d: UdpWire.Datagram)
    ensures var raw := UdpWire.Encode(d);
            && raw[8..] == d.payload && ReadU16(raw, 0) == d.srcPort && ReadU16(raw, 2) == d.dstPort
            && ReadU16(raw, 4) == d.length
  {
  }

  lemma UdpSum(d: UdpWire.Datagram, src: Ip, dst: Ip)
    requires UdpWire.Valid(d, src, dst)
    ensures Checksum.Of(Checksum.PseudoSum(src, dst, 17, |UdpWire.Encode(d)|), UdpWire.Encode(d)) == 0
  {
    hide UdpWire.Encode, Checksum.Of, Checksum.PseudoSum;
  }

  /** The length field decides where the payload ends. */
  lemma UdpRead(raw: seq<byte>)
    ensures var r := UdpWire.Decode(raw);
            && (r.Some? <==> |raw| >= 8 && 8 <= Number(raw[4..6]) <= |raw| && Number(raw[4..6]) <= 8 + 1472)
            && (r.Some? ==>
                  && r.value.srcPort == Number(raw[0..2]) && r.value.dstPort == Number(raw[2..4])
                  && r.value.length == Number(raw[4..6]) && r.value.checksum == Number(raw[6..8])
                  && r.value.payload == raw[8..r.value.length])
  {
    if |raw| >= 8 {
      TwoOctets(raw, 0);
      TwoOctets(raw, 2);
      TwoOctets(raw, 4);
      TwoOctets(raw, 6);
    }
    hide Number, ReadU16;
  }

  // ---------------------------------------------------------------- Ethernet

  function MacOctets(m: Mac): seq<byte> {
    [m.b0, m.b1, m.b2, m.b3, m.b4, m.b5]
  }

  /** Destination, source, the tag 0x8100 with twelve bits of VLAN id if there is one, type, payload. */
  lemma EthernetWritten(f: EthernetWire.Frame)
    ensures var raw := EthernetWire.Encode(f);
            && |raw| >= 14 && raw[0..6] == MacOctets(f.dst) && raw[6..12] == MacOctets(f.src)
            && (f.hasVlan ==>
                  && |raw| == 18 + |f.payload| && raw[12..14] == [0x81, 0x00] && Number(raw[14..16]) == f.vlanId % 4096
                  && Number(raw[16..18]) == f.ethertype && raw[18..] == f.payload)
            && (!f.hasVlan ==>
                  |raw| == 14 + |f.payload| && Number(raw[12..14]) == f.ethertype && raw[14..] == f.payload)
  {
    var raw := EthernetWire.Encode(f);
    EthernetWire.TypesBack(f);
    EthernetWire.HeaderBytes(f);
    TwoOctets(raw, 12);
    if f.hasVlan {
      TwoOctets(raw, 14);
      TwoOctets(raw, 16);
      var t := raw[12..12 + 6];
      assert raw[12] == t[0] && raw[13] == t[1];
    }
    hide EthernetWire.Encode, Number;
  }

  /** A frame is tagged exactly if 0x8100 stands where the type is expected. */
  lemma EthernetRead(raw: seq<byte>)
    ensures var r := EthernetWire.Decode(raw);
            && (r.Some? <==> |raw| >= 14 && if raw[12..14] == [0x81, 0x00] then 18 <= |raw| <= 1518 else |raw| <= 1514)
            && (r.Some? ==>
                  var f := r.value;
                  && MacOctets(f.dst) == raw[0..6] && MacOctets(f.src) == raw[6..12]
                  && f.hasVlan == (raw[12..14] == [0x81, 0x00])
                  && (f.hasVlan ==> f.vlanId == Number(raw[14..16]) % 4096 && f.ethertype == Number(raw[16..18])
                                    && f.payload == raw[18..])
                  && (!f.hasVlan ==> f.vlanId == 0 && f.ethertype == Number(raw[12..14]) && f.payload == raw[14..]))
  {
    if |raw| >= 14 {
      TwoOctets(raw, 12);
      assert raw[12..14] == [raw[12], raw[13]];
      assert ReadU16(raw, 12) == 0x8100 <==> raw[12] == 0x81 && raw[13] == 0x00;
      if |raw| >= 18 {
        TwoOctets(raw, 14);
        TwoOctets(raw, 16);
      }
    }
    hide Number;
  }
}
