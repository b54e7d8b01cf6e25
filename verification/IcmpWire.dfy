/** ICMP messages: byte format and checksum (layer3/icmp.c). */
module IcmpWire {
  import opened Base
  import Checksum

  const HEADER_SIZE := 8
  const MAX_PAYLOAD := 1472
  const DEST_UNREACHABLE: byte := 3
  const TIME_EXCEEDED: byte := 11

  datatype Message = Message(kind: byte, code: byte, checksum: u16, identifier: u16, sequence: u16, payload: seq<byte>)

  /** icmp_create. */
  function Create(kind: byte, code: byte, identifier: u16, sequence: u16, payload: seq<byte>): Option<Message> {
    if |payload| > MAX_PAYLOAD then None else Some(Message(kind, code, 0, identifier, sequence, payload))
  }

  function Layout(m: Message, checksum: u16): (raw: seq<byte>)
    ensures |raw| == HEADER_SIZE + |m.payload|
  {
    [m.kind, m.code] + U16Bytes(checksum) + U16Bytes(m.identifier) + U16Bytes(m.sequence) + m.payload
  }

  /** The checksum icmp_to_bytes computes over the message with a zero field. */
  function ChecksumOf(m: Message): u16 {
    Checksum.Of(0, Layout(m, 0))
  }

  /** icmp_to_bytes. */
  function Encode(m: Message): seq<byte> {
    Layout(m, ChecksumOf(m))
  }

  /** icmp_from_bytes. */
  function Decode(raw: seq<byte>): Option<Message> {
    if |raw| < HEADER_SIZE || |raw| - HEADER_SIZE > MAX_PAYLOAD then None else
    Some(Message(raw[0], raw[1], ReadU16(raw, 2), ReadU16(raw, 4), ReadU16(raw, 6), raw[HEADER_SIZE..]))
  }

  predicate Valid(m: Message) {
    |m.payload| <= MAX_PAYLOAD && Checksum.Of(0, Layout(m, m.checksum)) == 0
  }

  lemma StoredIsValid(m: Message)
    ensures Checksum.Of(0, Encode(m)) == 0
  {
    var blank := Layout(m, 0);
    assert Encode(m) == Checksum.Store(blank, 1, ChecksumOf(m));
    Checksum.StoredChecksumValidates(0, blank, Encode(m), 1);
  }

  lemma SendReceive(m: Message)
    requires |m.payload| <= MAX_PAYLOAD
    ensures var got := m.(checksum := ChecksumOf(m)); Decode(Encode(m)) == Some(got) && Valid(got)
  {
    var got := m.(checksum := ChecksumOf(m));
    assert Encode(m)[HEADER_SIZE..] == m.payload;
    assert Layout(got, got.checksum) == Encode(m);
    StoredIsValid(m);
  }

  method ToBytes(m: Message, out: array<byte>) returns (n: nat)
    modifies out
    ensures if |m.payload| > MAX_PAYLOAD || out.Length < HEADER_SIZE + |m.payload|
            then n == 0 && out[..] == old(out[..])
            else n == |Encode(m)| && out[..n] == Encode(m) && out[n..] == old(out[..])[n..]
  {
    if |m.payload| > MAX_PAYLOAD || out.Length < HEADER_SIZE + |m.payload| {
      return 0;
    }
    ghost var before := out[..];
    n := HEADER_SIZE + |m.payload|;
    out[0], out[1] := m.kind, m.code;
    WriteU16(out, 2, 0);
    WriteU16(out, 4, m.identifier);
    WriteU16(out, 6, m.sequence);
    CopyIn(out, HEADER_SIZE, m.payload);
    assert out[..n] == Layout(m, 0);
    var checksum := Checksum.Compute(out, n);
    WriteU16(out, 2, checksum);
    assert out[..n] == Layout(m, checksum);
    assert out[n..] == before[n..];
  }

  method ValidateChecksum(m: Message) returns (ok: bool)
    ensures ok == Valid(m)
  {
    var raw := new byte[HEADER_SIZE + MAX_PAYLOAD];
    var len := ToBytes(m, raw);
    if len < HEADER_SIZE {
      return false;
    }
    ghost var wrote := raw[..len];
    WriteU16(raw, 2, m.checksum);
    assert raw[..len] == Layout(m, m.checksum);
    var sum := Checksum.Compute(raw, len);
    ok := sum == 0;
  }
}
