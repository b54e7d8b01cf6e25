/** Machine integers, byte order and the small types shared by every layer. */
module Base {

  type byte = x: int | 0 <= x < 0x100
  type u16 = x: int | 0 <= x < 0x1_0000
  type u32 = x: int | 0 <= x < 0x1_0000_0000

  datatype Option<+T> = None | Some(value: T)

  /** The four octets of an address; the prefix length is not part of address equality. */
  datatype Ip = Ip(o0: byte, o1: byte, o2: byte, o3: byte)

  const ZERO_IP := Ip(0, 0, 0, 0)
  const BROADCAST_IP := Ip(255, 255, 255, 255)

  datatype Mac = Mac(b0: byte, b1: byte, b2: byte, b3: byte, b4: byte, b5: byte)

  const BROADCAST_MAC := Mac(255, 255, 255, 255, 255, 255)

  /** Unsigned 32-bit arithmetic: every sum or difference of sequence numbers is reduced. */
  function Wrap32(x: int): u32 {
    x % 0x1_0000_0000
  }

  function Be16(hi: byte, lo: byte): u16 {
    hi as int * 0x100 + lo
  }

  function Pow2(n: nat): (p: nat)
    ensures p > 0
  {
    if n == 0 then 1 else 2 * Pow2(n - 1)
  }

  function IpValue(ip: Ip): nat {
    ip.o0 as int * 0x100_0000 + ip.o1 as int * 0x1_0000 + ip.o2 as int * 0x100 + ip.o3
  }

  /** Equality under the mask of a prefix: the bits left of the host part agree. */
  predicate SameNetwork(a: Ip, b: Ip, prefix: byte) {
    var host := Pow2(if prefix >= 32 then 0 else 32 - prefix as int);
    IpValue(a) / host == IpValue(b) / host
  }

  function U16Bytes(v: u16): (s: seq<byte>)
    ensures |s| == 2
  {
    [v / 0x100, v % 0x100]
  }

  function U32Bytes(v: u32): (s: seq<byte>)
    ensures |s| == 4
  {
    U16Bytes(v / 0x1_0000) + U16Bytes(v % 0x1_0000)
  }

  function IpBytes(ip: Ip): (s: seq<byte>)
    ensures |s| == 4
  {
    [ip.o0, ip.o1, ip.o2, ip.o3]
  }

  function ReadU16(raw: seq<byte>, at: nat): u16
    requires at + 2 <= |raw|
  {
    Be16(raw[at], raw[at + 1])
  }

  function ReadU32(raw: seq<byte>, at: nat): u32
    requires at + 4 <= |raw|
  {
    Be16(raw[at], raw[at + 1]) as int * 0x1_0000 + Be16(raw[at + 2], raw[at + 3])
  }

  function ReadIp(raw: seq<byte>, at: nat): Ip
    requires at + 4 <= |raw|
  {
    Ip(raw[at], raw[at + 1], raw[at + 2], raw[at + 3])
  }

  lemma ReadBack16(raw: seq<byte>, at: nat, v: u16)
    requires at + 2 <= |raw| && raw[at] == v / 0x100 && raw[at + 1] == v % 0x100
    ensures ReadU16(raw, at) == v
  {
  }

  lemma ReadBack32(raw: seq<byte>, at: nat, v: u32)
    requires at + 4 <= |raw|
    requires forall k :: 0 <= k < 4 ==> raw[at + k] == U32Bytes(v)[k]
    ensures ReadU32(raw, at) == v
  {
    var b := U32Bytes(v);
    assert raw[at] == raw[at + 0] == b[0] && raw[at + 1] == b[1] && raw[at + 2] == b[2] && raw[at + 3] == b[3];
  }

  method WriteU16(out: array<byte>, at: nat, v: u16)
    requires at + 2 <= out.Length
    modifies out
    ensures out[at] == v / 0x100 && out[at + 1] == v % 0x100
    ensures forall k :: 0 <= k < out.Length && k != at && k != at + 1 ==> out[k] == old(out[k])
  {
    out[at] := v / 0x100;
    out[at + 1] := v % 0x100;
  }

  method WriteU32(out: array<byte>, at: nat, v: u32)
    requires at + 4 <= out.Length
    modifies out
    ensures forall k :: at <= k < at + 4 ==> out[k] == U32Bytes(v)[k - at]
    ensures forall k :: 0 <= k < out.Length && !(at <= k < at + 4) ==> out[k] == old(out[k])
  {
    WriteU16(out, at, v / 0x1_0000);
    WriteU16(out, at + 2, v % 0x1_0000);
  }

  /** memcpy of a whole sequence to out + at. */
  method CopyIn(out: array<byte>, at: nat, data: seq<byte>)
    requires at + |data| <= out.Length
    modifies out
    ensures forall k :: at <= k < at + |data| ==> out[k] == data[k - at]
    ensures forall k :: 0 <= k < out.Length && !(at <= k < at + |data|) ==> out[k] == old(out[k])
  {
    forall k | 0 <= k < |data| {
      out[at + k] := data[k];
    }
  }
}
