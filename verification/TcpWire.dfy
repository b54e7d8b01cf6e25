/** TCP segments: fields, byte format and checksum (layer4/tcp.c). */
module TcpWire {
  import opened Base
  import Checksum

  const HEADER_SIZE := 20
  const MAX_PAYLOAD := 1460
  const WINDOW_SIZE: u16 := 65535
  const PROTOCOL_TCP: byte := 6

  const FIN: byte := 0x01
  const SYN: byte := 0x02
  const PSH: byte := 0x08
  const ACK: byte := 0x10
  const SYN_ACK: byte := SYN + ACK
  const PSH_ACK: byte := PSH + ACK
  const FIN_ACK: byte := FIN + ACK

  predicate HasFin(flags: byte) { flags % 2 == 1 }
  predicate HasSyn(flags: byte) { flags / 2 % 2 == 1 }
  predicate HasRst(flags: byte) { flags / 4 % 2 == 1 }
  predicate HasAck(flags: byte) { flags / 0x10 % 2 == 1 }

  datatype Segment = Segment(
    srcPort: u16, dstPort: u16, seqNum: u32, ackNum: u32, dataOffset: byte, flags: byte,
    window: u16, checksum: u16, urgentPtr: u16, payload: seq<byte>)

  /** tcp_init followed by the assignments every caller makes. */
  function Make(srcPort: u16, dstPort: u16, seqNum: u32, ackNum: u32, flags: byte, payload: seq<byte>): Segment {
    Segment(srcPort, dstPort, seqNum, ackNum, 5, flags, WINDOW_SIZE, 0, 0, payload)
  }

  /** tcp_to_bytes. */
  function Encode(s: Segment): (raw: seq<byte>)
    ensures |raw| == HEADER_SIZE + |s.payload|
  {
    U16Bytes(s.srcPort) + U16Bytes(s.dstPort) + U32Bytes(s.seqNum) + U32Bytes(s.ackNum) +
    [s.dataOffset * 0x10 % 0x100, s.flags] + U16Bytes(s.window) + U16Bytes(s.checksum) +
    U16Bytes(s.urgentPtr) + s.payload
  }

  /** tcp_from_bytes. */
  function Decode(raw: seq<byte>): Option<Segment> {
    if |raw| < HEADER_SIZE then None else
    var dataOffset := raw[12] / 0x10;
    var headerLen := dataOffset as int * 4;
    if headerLen < HEADER_SIZE || headerLen > |raw| || |raw| - headerLen > MAX_PAYLOAD then None else
    Some(Segment(ReadU16(raw, 0), ReadU16(raw, 2), ReadU32(raw, 4), ReadU32(raw, 8), dataOffset, raw[13],
                 ReadU16(raw, 14), ReadU16(raw, 16), ReadU16(raw, 18), raw[headerLen..]))
  }

  function ChecksumOf(s: Segment, src: Ip, dst: Ip): u16 {
    Checksum.Of(Checksum.PseudoSum(src, dst, PROTOCOL_TCP, |Encode(s)|), Encode(s))
  }

  /** tcp_validate_checksum: re-serialise with the received checksum and expect zero. */
  predicate Valid(s: Segment, src: Ip, dst: Ip) {
    |s.payload| <= MAX_PAYLOAD && ChecksumOf(s, src, dst) == 0
  }

  /** Fill in the checksum as every sender does, over the segment with a zero checksum field. */
  function Seal(s: Segment, src: Ip, dst: Ip): Segment {
    s.(checksum := ChecksumOf(s.(checksum := 0), src, dst))
  }

  /** Every header byte by position; the payload follows the 20th. */
  lemma HeaderBytes(s: Segment)
    ensures var raw := Encode(s);
            && raw[0] == s.srcPort / 0x100 && raw[1] == s.srcPort % 0x100
            && raw[2] == s.dstPort / 0x100 && raw[3] == s.dstPort % 0x100
            && (forall k :: 0 <= k < 4 ==> raw[4 + k] == U32Bytes(s.seqNum)[k])
            && (forall k :: 0 <= k < 4 ==> raw[8 + k] == U32Bytes(s.ackNum)[k])
            && raw[12] == s.dataOffset * 0x10 % 0x100 && raw[13] == s.flags
            && raw[14] == s.window / 0x100 && raw[15] == s.window % 0x100
            && raw[16] == s.checksum / 0x100 && raw[17] == s.checksum % 0x100
            && raw[18] == s.urgentPtr / 0x100 && raw[19] == s.urgentPtr % 0x100
            && raw[HEADER_SIZE..] == s.payload
  {
  }

  lemma SealedIsValid(s: Segment, src: Ip, dst: Ip)
    requires |s.payload| <= MAX_PAYLOAD
    ensures Valid(Seal(s, src, dst), src, dst)
  {
    var blank, sealed := s.(checksum := 0), Seal(s, src, dst);
    var pseudo := Checksum.PseudoSum(src, dst, PROTOCOL_TCP, |Encode(blank)|);
    assert Encode(sealed) == Checksum.Store(Encode(blank), 8, sealed.checksum);
    Checksum.StoredChecksumValidates(pseudo, Encode(blank), Encode(sealed), 8);
  }

  lemma ReadsBack(s: Segment)
    ensures var raw := Encode(s);
            && ReadU16(raw, 0) == s.srcPort && ReadU16(raw, 2) == s.dstPort
            && ReadU32(raw, 4) == s.seqNum && ReadU32(raw, 8) == s.ackNum
            && ReadU16(raw, 14) == s.window && ReadU16(raw, 16) == s.checksum && ReadU16(raw, 18) == s.urgentPtr
  {
    HeaderBytes(s);
    var raw := Encode(s);
    hide Encode, U32Bytes, ReadU16, ReadU32;
    ReadBack16(raw, 0, s.srcPort);
    ReadBack16(raw, 2, s.dstPort);
    ReadBack32(raw, 4, s.seqNum);
    ReadBack32(raw, 8, s.ackNum);
    ReadBack16(raw, 14, s.window);
    ReadBack16(raw, 16, s.checksum);
    ReadBack16(raw, 18, s.urgentPtr);
  }

  /** A segment survives the wire exactly when it has no option words: data offset 5. */
  lemma RoundTrip(s: Segment)
    requires |s.payload| <= MAX_PAYLOAD && s.dataOffset < 0x10
    ensures Decode(Encode(s)) == Some(s) <==> s.dataOffset == 5
  {
    HeaderBytes(s);
    ReadsBack(s);
    var raw := Encode(s);
    hide Encode, ReadU16, ReadU32;
    assert raw[12] / 0x10 == s.dataOffset;
    if s.dataOffset > 5 && s.dataOffset as int * 4 <= |raw| {
      assert |raw[s.dataOffset as int * 4..]| < |s.payload|;
    }
  }

  /** Sealing, sending, parsing and validating gives back the fields that were sealed. */
  lemma SendReceive(s: Segment, src: Ip, dst: Ip)
    requires |s.payload| <= MAX_PAYLOAD && s.dataOffset == 5
    ensures var q := Seal(s, src, dst);
            Decode(Encode(q)) == Some(q) && Valid(q, src, dst) && q == s.(checksum := q.checksum)
  {
    SealedIsValid(s, src, dst);
    RoundTrip(Seal(s, src, dst));
  }

  method WriteHeader(s: Segment, out: array<byte>)
    requires HEADER_SIZE <= out.Length
    modifies out
    ensures forall k :: 0 <= k < HEADER_SIZE ==> out[k] == Encode(s)[k]
    ensures forall k :: HEADER_SIZE <= k < out.Length ==> out[k] == old(out[k])
  {
    WriteU16(out, 0, s.srcPort);
    WriteU16(out, 2, s.dstPort);
    WriteU32(out, 4, s.seqNum);
    WriteU32(out, 8, s.ackNum);
    out[12] := s.dataOffset * 0x10 % 0x100;
    out[13] := s.flags;
    WriteU16(out, 14, s.window);
    WriteU16(out, 16, s.checksum);
    WriteU16(out, 18, s.urgentPtr);
  }

  method ToBytes(s: Segment, out: array<byte>) returns (n: nat)
    modifies out
    ensures if |s.payload| > MAX_PAYLOAD || out.Length < HEADER_SIZE + |s.payload|
            then n == 0 && out[..] == old(out[..])
            else n == |Encode(s)| && out[..n] == Encode(s) && out[n..] == old(out[..])[n..]
  {
    if |s.payload| > MAX_PAYLOAD || out.Length < HEADER_SIZE + |s.payload| {
      return 0;
    }
    WriteHeader(s, out);
    CopyIn(out, HEADER_SIZE, s.payload);
    n := HEADER_SIZE + |s.payload|;
    forall k | HEADER_SIZE <= k < n
      ensures out[k] == Encode(s)[k]
    {
      assert Encode(s)[k] == Encode(s)[HEADER_SIZE..][k - HEADER_SIZE];
      HeaderBytes(s);
    }
    assert out[..n] == Encode(s);
  }

  method ValidateChecksum(s: Segment, src: Ip, dst: Ip) returns (ok: bool)
    ensures ok == Valid(s, src, dst)
  {
    var raw := new byte[HEADER_SIZE + MAX_PAYLOAD];
    var len := ToBytes(s, raw);
    if len < HEADER_SIZE {
      return false;
    }
    HeaderBytes(s);
    WriteU16(raw, 16, s.checksum);
    assert raw[..len] == Encode(s);
    var sum := Checksum.ComputeWithPseudo(raw, len, src, dst, PROTOCOL_TCP);
    ok := sum == 0;
  }
}
