/** The Internet checksum of RFC 1071 as the IPv4, ICMP, TCP and UDP modules compute it:
    a running sum of big-endian 16-bit words whose carries are folded back after every addition. */
module Checksum {
  import opened Base

  /** Ones'-complement normal form: the value in 0..65535 congruent to the sum modulo 65535,
      where zero stands only for an all-zero sum. */
  function Norm(sum: nat): (r: u16)
    ensures r == 0 <==> sum == 0
  {
    if sum == 0 then 0 else (sum - 1) % 0xFFFF + 1
  }

  function WordCount(raw: seq<byte>): nat {
    (|raw| + 1) / 2
  }

  /** Word k of the data; an odd last byte is padded with a zero byte. */
  function WordAt(raw: seq<byte>, k: nat): u16
    requires k < WordCount(raw)
  {
    Be16(raw[2 * k], if 2 * k + 1 < |raw| then raw[2 * k + 1] else 0)
  }

  /** Plain integer sum of the first k words. */
  function Total(raw: seq<byte>, k: nat): nat
    requires k <= WordCount(raw)
  {
    if k == 0 then 0 else Total(raw, k - 1) + WordAt(raw, k - 1)
  }

  /** The checksum by definition: complement of the normal form of the whole sum. */
  function Of(pseudo: nat, raw: seq<byte>): u16 {
    0xFFFF - Norm(pseudo + Total(raw, WordCount(raw)))
  }

  /** Addresses, protocol and length of the TCP and UDP pseudo-header. */
  function PseudoSum(src: Ip, dst: Ip, protocol: byte, len: nat): nat {
    Be16(src.o0, src.o1) + Be16(src.o2, src.o3) + Be16(dst.o0, dst.o1) + Be16(dst.o2, dst.o3) +
    protocol + len % 0x1_0000
  }

  // ---------------------------------------------------------------- by definition

  /** Section 1 of RFC 1071: adjacent octets are paired, the first of a pair being the high one, and an odd
      octet at the end is paired with a zero behind it. */
  function OctetSum(raw: seq<byte>): nat {
    if |raw| == 0 then 0
    else if |raw| == 1 then raw[0] * 0x100
    else raw[0] * 0x100 + raw[1] + OctetSum(raw[2..])
  }

  lemma {:induction false} TotalBehind(raw: seq<byte>, k: nat)
    requires |raw| >= 2 && k <= WordCount(raw[2..])
    ensures Total(raw, k + 1) == raw[0] * 0x100 + raw[1] + Total(raw[2..], k)
  {
    if k == 0 {
      assert Total(raw, 1) == Total(raw, 0) + WordAt(raw, 0);
    } else {
      TotalBehind(raw, k - 1);
      var later := raw[2..];
      assert WordAt(raw, k) == WordAt(later, k - 1);
    }
  }

  lemma {:induction false} TotalIsOctetSum(raw: seq<byte>)
    ensures Total(raw, WordCount(raw)) == OctetSum(raw)
  {
    if |raw| >= 2 {
      TotalIsOctetSum(raw[2..]);
      TotalBehind(raw, WordCount(raw[2..]));
    } else if |raw| == 1 {
      assert Total(raw, 1) == Total(raw, 0) + WordAt(raw, 0);
    }
  }

  /** The checksum is the ones' complement of the ones'-complement sum of the octet pairs: the number below
      65536 that, added to the sum, gives a multiple of 65535, and not 65535 itself unless all is zero. */
  lemma ChecksumByOctets(pseudo: nat, raw: seq<byte>)
    ensures var sum := pseudo + OctetSum(raw);
            (sum + Of(pseudo, raw)) % 0xFFFF == 0 && (Of(pseudo, raw) == 0xFFFF <==> sum == 0)
  {
    TotalIsOctetSum(raw);
    var sum := pseudo + OctetSum(raw);
    if sum > 0 {
      var q := (sum - 1) / 0xFFFF;
      assert sum + 0xFFFF - Norm(sum) == 0xFFFF * (q + 1);
    }
  }

  lemma {:induction false} OctetSumOfPadded(raw: seq<byte>)
    requires |raw| % 2 == 1
    ensures OctetSum(raw + [0]) == OctetSum(raw)
  {
    if |raw| > 1 {
      assert (raw + [0])[2..] == raw[2..] + [0];
      OctetSumOfPadded(raw[2..]);
    }
  }

  /** A message of odd length has the checksum of the message with a zero octet behind it. */
  lemma OddIsPadded(pseudo: nat, raw: seq<byte>)
    requires |raw| % 2 == 1
    ensures Of(pseudo, raw) == Of(pseudo, raw + [0])
  {
    TotalIsOctetSum(raw);
    TotalIsOctetSum(raw + [0]);
    OctetSumOfPadded(raw);
  }

  /** Two octets more, the high one first. */
  lemma {:induction false} TwoMoreOctets(raw: seq<byte>, hi: byte, lo: byte)
    requires |raw| % 2 == 0
    ensures OctetSum(raw + [hi, lo]) == OctetSum(raw) + 0x100 * hi + lo
  {
    if |raw| > 0 {
      assert (raw + [hi, lo])[2..] == raw[2..] + [hi, lo];
      TwoMoreOctets(raw[2..], hi, lo);
    } else {
      assert raw + [hi, lo] == [hi, lo] && [hi, lo][2..] == [];
    }
  }

  /** The pseudo-header of section 3.1 of RFC 793, as octets. */
  function PseudoHeader(src: Ip, dst: Ip, protocol: byte, len: nat): seq<byte> {
    [src.o0, src.o1, src.o2, src.o3, dst.o0, dst.o1, dst.o2, dst.o3, 0, protocol] + U16Bytes(len % 0x1_0000)
  }

  lemma PseudoSumByOctets(src: Ip, dst: Ip, protocol: byte, len: nat)
    ensures PseudoSum(src, dst, protocol, len) == OctetSum(PseudoHeader(src, dst, protocol, len))
  {
    var n := len % 0x1_0000;
    var high: byte, low: byte := n / 0x100, n % 0x100;
    var h: seq<byte> := [];
    TwoMoreOctets(h, src.o0, src.o1);
    h := h + [src.o0, src.o1];
    TwoMoreOctets(h, src.o2, src.o3);
    h := h + [src.o2, src.o3];
    TwoMoreOctets(h, dst.o0, dst.o1);
    h := h + [dst.o0, dst.o1];
    TwoMoreOctets(h, dst.o2, dst.o3);
    h := h + [dst.o2, dst.o3];
    TwoMoreOctets(h, 0, protocol);
    h := h + [0, protocol];
    TwoMoreOctets(h, high, low);
    h := h + [high, low];
    assert h == PseudoHeader(src, dst, protocol, len);
  }

  /** Three octets of the code's own. */
  lemma ThreeOctets()
    ensures Of(0, [0x12, 0x34, 0x56]) == 0x97CB
  {
    var raw: seq<byte> := [0x12, 0x34, 0x56];
    TotalIsOctetSum(raw);
    assert raw[2..] == [0x56];
  }

  // ---------------------------------------------------------------- folding

  lemma NormCongruent(a: nat, b: nat, k: nat)
    requires a == b + k * 0xFFFF && b > 0
    ensures Norm(a) == Norm(b)
  {
    assert (b - 1 + k * 0xFFFF) % 0xFFFF == (b - 1) % 0xFFFF;
  }

  /** Folding the carry of one partial sum does not change the normal form of any longer sum. */
  lemma NormStep(partial: nat, more: nat)
    ensures Norm(Norm(partial) + more) == Norm(partial + more)
  {
    if partial > 0 {
      NormCongruent(partial + more, Norm(partial) + more, (partial - 1) / 0xFFFF);
    }
  }

  /** `while (sum >> 16) sum = (sum & 0xFFFF) + (sum >> 16);` */
  method FoldCarries(start: nat) returns (sum: u16)
    ensures sum == Norm(start)
  {
    var s := start;
    while s >= 0x1_0000
      invariant Norm(s) == Norm(start)
      decreases s
    {
      var folded := s % 0x1_0000 + s / 0x1_0000;
      NormCongruent(s, folded, s / 0x1_0000);
      s := folded;
    }
    sum := s;
  }

  /** One `sum += word` followed by the folding loop; plain is the unfolded sum so far. */
  method AddWord(sum: u16, word: u16, ghost plain: nat) returns (r: u16)
    requires sum == Norm(plain)
    ensures r == Norm(plain + word)
  {
    NormStep(plain, word);
    r := FoldCarries(sum + word);
  }

  /** The summing loop over a buffer, continuing a sum already folded. */
  method AddWords(raw: array<byte>, len: nat, start: u16) returns (sum: u16)
    requires len <= raw.Length
    ensures sum == Norm(start + Total(raw[..len], WordCount(raw[..len])))
  {
    ghost var data := raw[..len];
    sum := start;
    var i := 0;
    while i < len
      invariant 0 <= i <= len + 1 && i % 2 == 0
      invariant i / 2 <= WordCount(data) && (i >= len ==> i / 2 == WordCount(data))
      invariant sum == Norm(start + Total(data, i / 2))
    {
      var word := Be16(raw[i], 0);
      if i + 1 < len {
        word := Be16(raw[i], raw[i + 1]);
      }
      assert word == WordAt(data, i / 2);
      sum := AddWord(sum, word, start + Total(data, i / 2));
      i := i + 2;
    }
  }

  /** ipv4_compute_checksum and icmp_compute_checksum. */
  method Compute(raw: array<byte>, len: nat) returns (c: u16)
    requires len <= raw.Length
    ensures c == if len == 0 then 0 else Of(0, raw[..len])
  {
    if len == 0 {
      return 0;
    }
    var sum := AddWords(raw, len, 0);
    c := 0xFFFF - sum;
  }

  /** tcp_compute_checksum and udp_compute_checksum: the same sum after the pseudo-header. */
  method ComputeWithPseudo(raw: array<byte>, len: nat, src: Ip, dst: Ip, protocol: byte) returns (c: u16)
    requires len <= raw.Length
    ensures c == Of(PseudoSum(src, dst, protocol, len), raw[..len])
  {
    var sum := AddWord(0, Be16(src.o0, src.o1), 0);
    ghost var plain: nat := Be16(src.o0, src.o1);
    sum := AddWord(sum, Be16(src.o2, src.o3), plain);
    plain := plain + Be16(src.o2, src.o3);
    sum := AddWord(sum, Be16(dst.o0, dst.o1), plain);
    plain := plain + Be16(dst.o0, dst.o1);
    sum := AddWord(sum, Be16(dst.o2, dst.o3), plain);
    plain := plain + Be16(dst.o2, dst.o3);
    sum := AddWord(sum, protocol, plain);
    plain := plain + protocol;
    sum := AddWord(sum, len % 0x1_0000, plain);
    plain := plain + len % 0x1_0000;
    NormStep(plain, Total(raw[..len], WordCount(raw[..len])));
    sum := AddWords(raw, len, sum);
    c := 0xFFFF - sum;
  }

  /** Two buffers that agree except in word j differ in their sums by exactly that word. */
  ghost predicate DifferOnlyInWord(a: seq<byte>, b: seq<byte>, j: nat) {
    && |a| == |b|
    && j < WordCount(a)
    && forall i :: 0 <= i < |a| && i != 2 * j && i != 2 * j + 1 ==> a[i] == b[i]
  }

  lemma {:induction false} OneWordChange(a: seq<byte>, b: seq<byte>, j: nat, k: nat)
    requires DifferOnlyInWord(a, b, j) && k <= WordCount(a)
    ensures Total(a, k) - Total(b, k) == if j < k then WordAt(a, j) - WordAt(b, j) else 0
  {
    if k > 0 {
      OneWordChange(a, b, j, k - 1);
    }
  }

  /** Overwrite word j, as write_u16_be does at offset 2 * j. */
  function Store(raw: seq<byte>, j: nat, v: u16): (r: seq<byte>)
    requires 2 * j + 2 <= |raw|
    ensures DifferOnlyInWord(raw, r, j) && WordAt(r, j) == v
  {
    raw[2 * j := v / 0x100][2 * j + 1 := v % 0x100]
  }

  /** Storing the checksum in the word that was zero while it was computed makes the
      recomputed checksum zero: what every validate function of the repository tests. */
  lemma StoredChecksumValidates(pseudo: nat, blank: seq<byte>, stored: seq<byte>, j: nat)
    requires DifferOnlyInWord(blank, stored, j)
    requires WordAt(blank, j) == 0 && WordAt(stored, j) == Of(pseudo, blank)
    ensures Of(pseudo, stored) == 0
  {
    hide Norm, Total, WordAt, WordCount, DifferOnlyInWord;
    ChangeOfSum(blank, stored, j);
    ComplementCloses(pseudo + Total(blank, WordCount(blank)));
  }

  /** The effect of a one-word change on the whole sum. */
  lemma ChangeOfSum(a: seq<byte>, b: seq<byte>, j: nat)
    requires DifferOnlyInWord(a, b, j)
    ensures WordCount(a) == WordCount(b)
    ensures Total(b, WordCount(b)) == Total(a, WordCount(a)) + WordAt(b, j) - WordAt(a, j)
  {
    OneWordChange(a, b, j, WordCount(a));
  }

  lemma ComplementCloses(sum: nat)
    ensures Norm(sum + 0xFFFF - Norm(sum)) == 0xFFFF
  {
    if sum > 0 {
      NormCongruent(sum + 0xFFFF - Norm(sum), 0xFFFF, (sum - 1) / 0xFFFF);
    }
  }

  /** Exactly which single-word changes of a valid message stay unnoticed: none, or an exchange of
      the two representations of zero in a message that still has another non-zero word. */
  lemma OneWordErrorDetected(pseudo: nat, good: seq<byte>, bad: seq<byte>, j: nat)
    requires DifferOnlyInWord(good, bad, j) && Of(pseudo, good) == 0
    ensures Of(pseudo, bad) == 0 <==>
              || WordAt(bad, j) == WordAt(good, j)
              || (WordAt(good, j) == 0 && WordAt(bad, j) == 0xFFFF)
              || (WordAt(good, j) == 0xFFFF && WordAt(bad, j) == 0 && pseudo + Total(bad, WordCount(bad)) > 0)
  {
    ChangeOfSum(good, bad, j);
    MultiplesNearby(pseudo + Total(good, WordCount(good)), pseudo + Total(bad, WordCount(bad)));
  }

  /** The checksum is zero exactly on non-zero multiples of 65535. */
  lemma NormFull(sum: nat)
    ensures Norm(sum) == 0xFFFF <==> sum > 0 && sum % 0xFFFF == 0
  {
    if sum > 0 {
      var q, r := (sum - 1) / 0xFFFF, (sum - 1) % 0xFFFF;
      assert sum == q * 0xFFFF + (r + 1);
    }
  }

  lemma MultiplesNearby(s: nat, t: nat)
    requires Norm(s) == 0xFFFF && -0xFFFF <= t - s <= 0xFFFF
    ensures Norm(t) == 0xFFFF <==> t > 0 && t - s in {-0xFFFF, 0, 0xFFFF}
  {
    NormFull(s);
    NormFull(t);
    var p, q := s / 0xFFFF, t / 0xFFFF;
    assert s == p * 0xFFFF;
    assert t == q * 0xFFFF + t % 0xFFFF;
  }
}
