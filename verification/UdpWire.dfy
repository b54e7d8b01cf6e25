/** UDP datagrams: byte format and checksum (layer4/udp.c). */
module UdpWire {
  import opened Base
  import Checksum

  const HEADER_SIZE := 8
  const MAX_PAYLOAD := 1472
  const PROTOCOL_UDP: byte := 17

  datatype Datagram = Datagram(srcPort: u16, dstPort: u16, length: u16, checksum: u16, payload: seq<byte>)

  /** udp_create. */
  function Create(srcPort: u16, dstPort: u16, payload: seq<byte>): Option<Datagram> {
    if |payload| > MAX_PAYLOAD then None else
    Some(Datagram(srcPort, dstPort, (HEADER_SIZE + |payload|) % 0x1_0000, 0, payload))
  }

  /** udp_to_bytes. */
  function Encode(d: Datagram): (raw: seq<byte>)
    ensures |raw| == HEADER_SIZE + |d.payload|
  {
    U16Bytes(d.srcPort) + U16Bytes(d.dstPort) + U16Bytes(d.length) + U16Bytes(d.checksum) + d.payload
  }

  /** udp_from_bytes: the length field, not the buffer, decides where the payload ends. */
  function Decode(raw: seq<byte>): Option<Datagram> {
    if |raw| < HEADER_SIZE then None else
    var length := ReadU16(raw, 4);
    if length < HEADER_SIZE || length > |raw| || length - HEADER_SIZE > MAX_PAYLOAD then None else
    Some(Datagram(ReadU16(raw, 0), ReadU16(raw, 2), length, ReadU16(raw, 6), raw[HEADER_SIZE..length]))
  }

  function ChecksumOf(d: Datagram, src: Ip, dst: Ip): u16 {
    Checksum.Of(Checksum.PseudoSum(src, dst, PROTOCOL_UDP, |Encode(d)|), Encode(d))
  }

  predicate Valid(d: Datagram, src: Ip, dst: Ip) {
    |d.payload| <= MAX_PAYLOAD && ChecksumOf(d, src, dst) == 0
  }

  function Seal(d: Datagram, src: Ip, dst: Ip): Datagram {
    d.(checksum := ChecksumOf(d.(checksum := 0), src, dst))
  }

  lemma StoringTheChecksum(d: Datagram, c: u16)
    ensures var blank := Encode(d.(checksum := 0));
            Checksum.WordAt(blank, 3) == 0 && Encode(d.(checksum := c)) == Checksum.Store(blank, 3, c)
  {
    var a, b := Encode(d.(checksum := 0)), Encode(d.(checksum := c));
    assert a[6] == 0 && a[7] == 0 && b[6] == c / 0x100 && b[7] == c % 0x100;
    assert forall i :: 0 <= i < |a| && i != 6 && i != 7 ==> b[i] == a[i];
    hide Encode, U16Bytes;
    assert b == Checksum.Store(a, 3, c);
  }

  lemma SealedIsValid(d: Datagram, src: Ip, dst: Ip)
    requires |d.payload| <= MAX_PAYLOAD
    ensures Valid(Seal(d, src, dst), src, dst)
  {
    var blank := Encode(d.(checksum := 0));
    StoringTheChecksum(d, Seal(d, src, dst).checksum);
    var pseudo := Checksum.PseudoSum(src, dst, PROTOCOL_UDP, |blank|);
    Checksum.StoredChecksumValidates(pseudo, blank, Encode(Seal(d, src, dst)), 3);
  }

  /** Any datagram whose length field is honest comes back from the wire, padded or not. */
  lemma RoundTrip(d: Datagram, padding: seq<byte>)
    requires |d.payload| <= MAX_PAYLOAD && d.length == HEADER_SIZE + |d.payload|
    ensures Decode(Encode(d) + padding) == Some(d)
  {
    var raw := Encode(d) + padding;
    assert raw[0] == d.srcPort / 0x100 && raw[1] == d.srcPort % 0x100;
    assert raw[2] == d.dstPort / 0x100 && raw[3] == d.dstPort % 0x100;
    assert raw[4] == d.length / 0x100 && raw[5] == d.length % 0x100;
    assert raw[6] == d.checksum / 0x100 && raw[7] == d.checksum % 0x100;
    assert raw[HEADER_SIZE..d.length] == d.payload;
  }

  /** What udp_create builds, sealed, comes back from the wire and passes validation. */
  lemma SendReceive(srcPort: u16, dstPort: u16, payload: seq<byte>, src: Ip, dst: Ip, padding: seq<byte>)
    requires |payload| <= MAX_PAYLOAD
    ensures var q := Seal(Create(srcPort, dstPort, payload).value, src, dst);
            Decode(Encode(q) + padding) == Some(q) && Valid(q, src, dst) && q.payload == payload
  {
    var d := Create(srcPort, dstPort, payload).value;
    SealedIsValid(d, src, dst);
    RoundTrip(Seal(d, src, dst), padding);
  }

  method ToBytes(d: Datagram, out: array<byte>) returns (n: nat)
    modifies out
    ensures if |d.payload| > MAX_PAYLOAD || out.Length < HEADER_SIZE + |d.payload|
            then n == 0 && out[..] == old(out[..])
            else n == |Encode(d)| && out[..n] == Encode(d) && out[n..] == old(out[..])[n..]
  {
    if |d.payload| > MAX_PAYLOAD || out.Length < HEADER_SIZE + |d.payload| {
      return 0;
    }
    ghost var before := out[..];
    WriteU16(out, 0, d.srcPort);
    WriteU16(out, 2, d.dstPort);
    WriteU16(out, 4, d.length);
    WriteU16(out, 6, d.checksum);
    CopyIn(out, HEADER_SIZE, d.payload);
    n := HEADER_SIZE + |d.payload|;
    assert out[n..] == before[n..];
  }

  method ValidateChecksum(d: Datagram, src: Ip, dst: Ip) returns (ok: bool)
    ensures ok == Valid(d, src, dst)
  {
    var raw := new byte[HEADER_SIZE + MAX_PAYLOAD];
    var len := ToBytes(d, raw);
    if len < HEADER_SIZE {
      return false;
    }
    WriteU16(raw, 6, d.checksum);
    assert raw[..len] == Encode(d);
    var sum := Checksum.ComputeWithPseudo(raw, len, src, dst, PROTOCOL_UDP);
    ok := sum == 0;
  }
}
