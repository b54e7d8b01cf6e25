/** IPv4 packets: byte format and header checksum (layer3/ipv4.c). */
module Ipv4Wire {
  import opened Base
  import Checksum

  const HEADER_SIZE := 20
  const MAX_PAYLOAD := 1480
  const DEFAULT_TTL: byte := 64
  const PROTOCOL_ICMP: byte := 1

  datatype Packet = Packet(
    version: byte, ihl: byte, totalLength: u16, ttl: byte, protocol: byte, checksum: u16,
    src: Ip, dst: Ip, payload: seq<byte>)

  /** ipv4_create. */
  function Create(src: Ip, dst: Ip, ttl: byte, protocol: byte, payload: seq<byte>): Option<Packet> {
    if |payload| > MAX_PAYLOAD then None else
    Some(Packet(4, 5, (HEADER_SIZE + |payload|) % 0x1_0000, ttl, protocol, 0, src, dst, payload))
  }

  /** The 20 header bytes ipv4_to_bytes writes: only TTL, protocol, addresses and length vary. */
  function Header(p: Packet, checksum: u16): (h: seq<byte>)
    ensures |h| == HEADER_SIZE
  {
    [0x45, 0] + U16Bytes((HEADER_SIZE + |p.payload|) % 0x1_0000) + [0, 0, 0, 0, p.ttl, p.protocol] +
    U16Bytes(checksum) + IpBytes(p.src) + IpBytes(p.dst)
  }

  function HeaderChecksum(p: Packet): u16 {
    Checksum.Of(0, Header(p, 0))
  }

  /** ipv4_to_bytes: the checksum is computed over the header with a zero field, then stored. */
  function Encode(p: Packet): seq<byte> {
    Header(p, HeaderChecksum(p)) + p.payload
  }

  /** ipv4_from_bytes. */
  function Decode(raw: seq<byte>): Option<Packet> {
    if |raw| < HEADER_SIZE then None else
    var version, ihl := raw[0] / 0x10, raw[0] % 0x10;
    var headerLen := ihl as int * 4;
    if version != 4 || ihl < 5 || headerLen > |raw| then None else
    var totalLength := ReadU16(raw, 2);
    if totalLength < headerLen || totalLength > |raw| || totalLength - headerLen > MAX_PAYLOAD then None else
    Some(Packet(version, ihl, totalLength, raw[8], raw[9], ReadU16(raw, 10), ReadIp(raw, 12), ReadIp(raw, 16),
                raw[headerLen..totalLength]))
  }

  /** ipv4_validate_checksum: re-serialise the parsed fields with the received checksum. */
  predicate Valid(p: Packet) {
    |p.payload| <= MAX_PAYLOAD && Checksum.Of(0, Header(p, p.checksum)) == 0
  }

  lemma StoredHeaderValidates(p: Packet)
    ensures Checksum.Of(0, Header(p, HeaderChecksum(p))) == 0
  {
    var a, b := Header(p, 0), Header(p, HeaderChecksum(p));
    assert b == Checksum.Store(a, 5, HeaderChecksum(p));
    Checksum.StoredChecksumValidates(0, a, b, 5);
  }

  lemma RoundTrip(p: Packet, checksum: u16, padding: seq<byte>)
    requires |p.payload| <= MAX_PAYLOAD
    ensures Decode(Header(p, checksum) + p.payload + padding) ==
            Some(Packet(4, 5, HEADER_SIZE + |p.payload|, p.ttl, p.protocol, checksum, p.src, p.dst, p.payload))
  {
    var h := Header(p, checksum);
    var raw := h + p.payload + padding;
    assert raw[0] == 0x45 && raw[8] == p.ttl && raw[9] == p.protocol;
    assert raw[2] == h[2] && raw[3] == h[3] && ReadU16(h, 2) == HEADER_SIZE + |p.payload|;
    assert raw[10] == checksum / 0x100 && raw[11] == checksum % 0x100;
    assert raw[12] == p.src.o0 && raw[13] == p.src.o1 && raw[14] == p.src.o2 && raw[15] == p.src.o3;
    assert raw[16] == p.dst.o0 && raw[17] == p.dst.o1 && raw[18] == p.dst.o2 && raw[19] == p.dst.o3;
    assert raw[HEADER_SIZE..HEADER_SIZE + |p.payload|] == p.payload;
  }

  /** Every packet within the payload limit survives the wire, even when the link pads the frame:
      the same addresses, TTL, protocol and payload come back and the checksum is accepted. */
  lemma SendReceive(p: Packet, padding: seq<byte>)
    requires |p.payload| <= MAX_PAYLOAD
    ensures var got := Packet(4, 5, HEADER_SIZE + |p.payload|, p.ttl, p.protocol, HeaderChecksum(p),
                              p.src, p.dst, p.payload);
            Decode(Encode(p) + padding) == Some(got) && Valid(got)
  {
    var got := Packet(4, 5, HEADER_SIZE + |p.payload|, p.ttl, p.protocol, HeaderChecksum(p), p.src, p.dst, p.payload);
    RoundTrip(p, HeaderChecksum(p), padding);
    assert Header(got, got.checksum) == Header(p, HeaderChecksum(p));
    StoredHeaderValidates(p);
  }

  // ---------------------------------------------------------------- errors in the header

  predicate Accepted(raw: seq<byte>) {
    Decode(raw).Some? && Valid(Decode(raw).value)
  }

  /** The two words are the two representations of zero. */
  predicate Zeros(a: u16, b: u16) {
    (a == 0 && b == 0xFFFF) || (a == 0xFFFF && b == 0)
  }

  lemma WordsOf(p: Packet, padding: seq<byte>, k: nat)
    requires k < 10
    ensures var h := Header(p, HeaderChecksum(p)); var raw := Encode(p) + padding;
            Checksum.WordAt(raw, k) == Checksum.WordAt(h, k) && raw[..HEADER_SIZE] == h
  {
    hide HeaderChecksum, Header;
    var h, raw := Header(p, HeaderChecksum(p)), Encode(p) + padding;
    assert raw == h + (p.payload + padding);
    assert raw[2 * k] == h[2 * k] && raw[2 * k + 1] == h[2 * k + 1];
  }

  /** A header that differs in one word from one with the right checksum. */
  lemma OneHeaderWord(p: Packet, q: seq<byte>, j: nat)
    requires j < 10 && Checksum.DifferOnlyInWord(Header(p, HeaderChecksum(p)), q, j) && q[0] == 0x45
    ensures var h := Header(p, HeaderChecksum(p));
            Checksum.Of(0, q) == 0 <==>
              Checksum.WordAt(q, j) == Checksum.WordAt(h, j) || Zeros(Checksum.WordAt(h, j), Checksum.WordAt(q, j))
  {
    hide Header, HeaderChecksum, Checksum.Of;
    StoredHeaderValidates(p);
    Checksum.OneWordErrorDetected(0, Header(p, HeaderChecksum(p)), q, j);
    Positive(q, 10);
  }

  lemma {:induction false} Positive(q: seq<byte>, k: nat)
    requires |q| == HEADER_SIZE && q[0] == 0x45 && 1 <= k <= 10
    ensures Checksum.Total(q, k) > 0
  {
    if k > 1 {
      Positive(q, k - 1);
    } else {
      assert Checksum.WordAt(q, 0) > 0 && Checksum.Total(q, 0) == 0;
    }
  }

  lemma HeaderBytes(p: Packet, checksum: u16)
    requires |p.payload| <= MAX_PAYLOAD
    ensures var h := Header(p, checksum);
            && h[0] == 0x45 && h[1] == 0 && h[4] == 0 && h[5] == 0 && h[6] == 0 && h[7] == 0
            && Checksum.WordAt(h, 1) == HEADER_SIZE + |p.payload| && h[8] == p.ttl && h[9] == p.protocol
            && h[10] == checksum / 0x100 && h[11] == checksum % 0x100
            && h[12] == p.src.o0 && h[13] == p.src.o1 && h[14] == p.src.o2 && h[15] == p.src.o3
            && h[16] == p.dst.o0 && h[17] == p.dst.o1 && h[18] == p.dst.o2 && h[19] == p.dst.o3
  {
    var h, len := Header(p, checksum), HEADER_SIZE + |p.payload|;
    assert h[2] == len / 0x100 && h[3] == len % 0x100;
  }

  /** The header the receiver checks: what it has parsed, serialised again. */
  lemma Reserialised(raw: seq<byte>)
    requires Decode(raw).Some?
    ensures var p := Decode(raw).value; var h := Header(p, p.checksum); var ihl := raw[0] % 0x10;
            && h[0] == 0x45 && h[1] == 0
            && Checksum.WordAt(h, 1) == ReadU16(raw, 2) + HEADER_SIZE - 4 * ihl as int
            && h[4] == 0 && h[5] == 0 && h[6] == 0 && h[7] == 0
            && |p.payload| <= MAX_PAYLOAD && forall i :: 8 <= i < HEADER_SIZE ==> h[i] == raw[i]
  {
    hide Header;
    HeaderBytes(Decode(raw).value, Decode(raw).value.checksum);
  }

  /** Exactly which changes of one word of a transmitted header are accepted: of the type of service,
      identification, flags and fragment offset all, because they are not read; of the length none; and
      of the other words the exchange of the two zeros. */
  lemma HeaderErrorsDetected(p: Packet, padding: seq<byte>, bad: seq<byte>, j: nat)
    requires |p.payload| <= MAX_PAYLOAD && j < 10
    requires var good := Encode(p) + padding;
             Checksum.DifferOnlyInWord(good, bad, j) && Checksum.WordAt(bad, j) != Checksum.WordAt(good, j)
    ensures var good := Encode(p) + padding;
            Accepted(bad) <==>
              || j == 2 || j == 3
              || (j == 0 && bad[0] == 0x45)
              || (j >= 4 && Zeros(Checksum.WordAt(good, j), Checksum.WordAt(bad, j)))
  {
    hide Checksum.Of, HeaderChecksum, Decode, Header;
    WordsOf(p, padding, j);
    HeaderBytes(p, HeaderChecksum(p));
    WordsDiffer(p, padding, bad, j);
    StillDecoded(p, padding, bad);
    if Decode(bad).Some? {
      Reserialised(bad);
      AgainDiffers(p, padding, bad, j);
      var again := Header(Decode(bad).value, Decode(bad).value.checksum);
      OneHeaderWord(p, again, if j < 2 then 1 else j);
    }
  }

  /** The bytes of the changed packet. */
  lemma WordsDiffer(p: Packet, padding: seq<byte>, bad: seq<byte>, j: nat)
    requires j < 10
    requires var good := Encode(p) + padding; |bad| == |good| && Checksum.DifferOnlyInWord(good, bad, j)
    ensures var h := Header(p, HeaderChecksum(p));
            forall i :: 0 <= i < HEADER_SIZE && i != 2 * j && i != 2 * j + 1 ==> bad[i] == h[i]
  {
    hide HeaderChecksum, Header;
    var h, good := Header(p, HeaderChecksum(p)), Encode(p) + padding;
    assert forall i :: 0 <= i < HEADER_SIZE ==> good[i] == h[i];
  }

  /** With the first byte and the length untouched, it is still parsed. */
  lemma StillDecoded(p: Packet, padding: seq<byte>, bad: seq<byte>)
    requires |p.payload| <= MAX_PAYLOAD && |bad| == HEADER_SIZE + |p.payload| + |padding|
    ensures bad[0] == 0x45 && Be16(bad[2], bad[3]) == HEADER_SIZE + |p.payload| ==> Decode(bad).Some?
  {
  }

  /** The header checked differs from the one sent at most in the word changed or, if that was read for the
      header's length, in the length. */
  lemma AgainDiffers(p: Packet, padding: seq<byte>, bad: seq<byte>, j: nat)
    requires |p.payload| <= MAX_PAYLOAD && j < 10 && Decode(bad).Some?
    requires var h := Header(p, HeaderChecksum(p));
             forall i :: 0 <= i < HEADER_SIZE && i != 2 * j && i != 2 * j + 1 ==> bad[i] == h[i]
    ensures var h := Header(p, HeaderChecksum(p));
            var again := Header(Decode(bad).value, Decode(bad).value.checksum);
            && again[0] == 0x45 && Checksum.DifferOnlyInWord(h, again, if j < 2 then 1 else j)
            && (j == 0 ==>
                  Checksum.WordAt(again, 1) == Checksum.WordAt(h, 1) + HEADER_SIZE - 4 * (bad[0] % 0x10) as int)
            && (j == 1 ==> Checksum.WordAt(again, 1) == Checksum.WordAt(bad, 1))
            && (j == 2 || j == 3 ==> again == h)
            && (j >= 4 ==> Checksum.WordAt(again, j) == Checksum.WordAt(bad, j))
            && (j == 0 ==> bad[0] / 0x10 == 4 && bad[0] % 0x10 >= 5)
  {
    DecodedHead(bad);
    HeaderBytes(p, HeaderChecksum(p));
    Reserialised(bad);
    hide HeaderChecksum, Header, Decode;
    var h := Header(p, HeaderChecksum(p));
    var again := Header(Decode(bad).value, Decode(bad).value.checksum);
    assert j != 0 ==> bad[0] == 0x45;
    SameWord(h, again);
  }

  lemma DecodedHead(raw: seq<byte>)
    requires Decode(raw).Some?
    ensures raw[0] / 0x10 == 4 && raw[0] % 0x10 >= 5
  {
  }

  lemma SameWord(a: seq<byte>, b: seq<byte>)
    requires |a| == |b| == HEADER_SIZE
    ensures Checksum.WordAt(a, 1) == Checksum.WordAt(b, 1) ==> a[2] == b[2] && a[3] == b[3]
    ensures (forall i :: 0 <= i < HEADER_SIZE ==> a[i] == b[i]) ==> a == b
  {
  }

  /** The fields, with a zero checksum. */
  method WriteFields(p: Packet, out: array<byte>)
    requires HEADER_SIZE <= out.Length && |p.payload| <= MAX_PAYLOAD
    modifies out
    ensures out[..HEADER_SIZE] == Header(p, 0)
    ensures out[HEADER_SIZE..] == old(out[HEADER_SIZE..])
  {
    out[0], out[1] := 0x45, 0;
    WriteU16(out, 2, HEADER_SIZE + |p.payload|);
    WriteU16(out, 4, 0);
    WriteU16(out, 6, 0);
    out[8], out[9] := p.ttl, p.protocol;
    WriteU16(out, 10, 0);
    CopyIn(out, 12, IpBytes(p.src));
    CopyIn(out, 16, IpBytes(p.dst));
  }

  method WriteHeader(p: Packet, out: array<byte>)
    requires HEADER_SIZE <= out.Length && |p.payload| <= MAX_PAYLOAD
    modifies out
    ensures out[..HEADER_SIZE] == Header(p, HeaderChecksum(p))
    ensures out[HEADER_SIZE..] == old(out[HEADER_SIZE..])
  {
    hide Checksum.Of;
    WriteFields(p, out);
    var checksum := Checksum.Compute(out, HEADER_SIZE);
    WriteU16(out, 10, checksum);
  }

  method ToBytes(p: Packet, out: array<byte>) returns (n: nat)
    modifies out
    ensures if |p.payload| > MAX_PAYLOAD || out.Length < HEADER_SIZE + |p.payload|
            then n == 0 && out[..] == old(out[..])
            else n == |Encode(p)| && out[..n] == Encode(p) && out[n..] == old(out[..])[n..]
  {
    if |p.payload| > MAX_PAYLOAD || out.Length < (HEADER_SIZE + |p.payload|) % 0x1_0000 {
      return 0;
    }
    ghost var before := out[..];
    WriteHeader(p, out);
    ghost var header := out[..HEADER_SIZE];
    ghost var rest := out[HEADER_SIZE..];
    CopyIn(out, HEADER_SIZE, p.payload);
    n := HEADER_SIZE + |p.payload|;
    assert out[..HEADER_SIZE] == header;
    assert out[n..] == rest[|p.payload|..] == before[n..];
  }

  method ValidateChecksum(p: Packet) returns (ok: bool)
    ensures ok == Valid(p)
  {
    hide Checksum.Of;
    var raw := new byte[HEADER_SIZE + MAX_PAYLOAD];
    var len := ToBytes(p, raw);
    if len < HEADER_SIZE {
      return false;
    }
    assert raw[..HEADER_SIZE] == Encode(p)[..HEADER_SIZE] == Header(p, HeaderChecksum(p));
    WriteU16(raw, 10, p.checksum);
    assert raw[..HEADER_SIZE] == Header(p, p.checksum);
    var sum := Checksum.Compute(raw, HEADER_SIZE);
    ok := sum == 0;
  }
}
