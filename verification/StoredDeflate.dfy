/** The zlib stream of stored blocks that holds the image data (gui/app.c), and a reader for it after
    section 3.2.4 of RFC 1951 and section 2.2 of RFC 1950. */
module StoredDeflate {
  import opened Base

  const MAX_BLOCK := 65535
  const MODULUS := 65521

  // ---------------------------------------------------------------- Adler-32

  /** Sum of the first k bytes. */
  function Sum(data: seq<byte>, k: nat): nat
    requires k <= |data|
  {
    if k == 0 then 0 else Sum(data, k - 1) + data[k - 1]
  }

  /** Sum of 1 + Sum over all non-empty prefixes of the first k bytes. */
  function SumOfSums(data: seq<byte>, k: nat): nat
    requires k <= |data|
  {
    if k == 0 then 0 else SumOfSums(data, k - 1) + 1 + Sum(data, k)
  }

  /** Adler-32 by definition: both sums modulo 65521. */
  function Adler(data: seq<byte>): u32 {
    SumOfSums(data, |data|) % MODULUS * 0x1_0000 + (1 + Sum(data, |data|)) % MODULUS
  }

  lemma ReduceEarly(x: nat, y: nat)
    ensures (x % MODULUS + y) % MODULUS == (x + y) % MODULUS
  {
    var q := x / MODULUS;
    assert x == q * MODULUS + x % MODULUS;
    assert (x % MODULUS + y + q * MODULUS) % MODULUS == (x % MODULUS + y) % MODULUS;
  }

  /** adler32_calc: the sums are reduced after every byte. */
  method ComputeAdler(data: array<byte>, len: nat) returns (r: u32)
    requires len <= data.Length
    ensures r == Adler(data[..len])
  {
    ghost var s := data[..len];
    var a, b := 1, 0;
    for i := 0 to len
      invariant a == (1 + Sum(s, i)) % MODULUS && b == SumOfSums(s, i) % MODULUS
    {
      ReduceEarly(1 + Sum(s, i), data[i]);
      a := (a + data[i]) % MODULUS;
      SumsReduce(SumOfSums(s, i), 1 + Sum(s, i + 1));
      b := (b + a) % MODULUS;
    }
    r := b * 0x1_0000 + a;
  }

  lemma SumsReduce(x: nat, y: nat)
    ensures (x % MODULUS + y % MODULUS) % MODULUS == (x + y) % MODULUS
  {
    ReduceEarly(x, y % MODULUS);
    ReduceEarly(y, x);
  }

  // ---------------------------------------------------------------- writer

  function Head(n: nat, final: bool): (h: seq<byte>)
    requires n <= MAX_BLOCK
    ensures |h| == 5
  {
    [if final then 1 else 0, n % 0x100, n / 0x100, 0xFF - n % 0x100, 0xFF - n / 0x100]
  }

  function FirstLength(raw: seq<byte>): nat {
    if |raw| > MAX_BLOCK then MAX_BLOCK else |raw|
  }

  /** One stored block after the other; a block is final if nothing remains behind it. */
  function Blocks(raw: seq<byte>): seq<byte>
    decreases |raw|
  {
    if |raw| == 0 then [] else
      var n := FirstLength(raw);
      Head(n, |raw| <= MAX_BLOCK) + raw[..n] + Blocks(raw[n..])
  }

  function Zlib(raw: seq<byte>): seq<byte> {
    [0x78, 0x01] + Blocks(raw) + U32Bytes(Adler(raw))
  }

  function BlockCount(size: nat): nat {
    (size + MAX_BLOCK - 1) / MAX_BLOCK
  }

  /** The size the code computes in advance. */
  lemma {:induction false} SizeOfBlocks(raw: seq<byte>)
    ensures |Blocks(raw)| == |raw| + 5 * BlockCount(|raw|)
    decreases |raw|
  {
    if |raw| > 0 {
      SizeOfBlocks(raw[FirstLength(raw)..]);
    }
  }

  // ---------------------------------------------------------------- reader

  /** Stored blocks up to the final one: their data, and what follows it. */
  function ReadBlocks(z: seq<byte>): Option<(seq<byte>, seq<byte>)>
    decreases |z|
  {
    if |z| < 5 || z[0] % 8 > 1 then None else
    var n := z[1] as int + 0x100 * z[2] as int;
    if z[3] as int + 0x100 * z[4] as int != 0xFFFF - n || |z| < 5 + n then None
    else if z[0] % 2 == 1 then Some((z[5..5 + n], z[5 + n..]))
    else
      var more := ReadBlocks(z[5 + n..]);
      if more.None? then None else Some((z[5..5 + n] + more.value.0, more.value.1))
  }

  /** A zlib stream without preset dictionary whose blocks are all stored. */
  function ReadZlib(z: seq<byte>): Option<seq<byte>> {
    if |z| < 2 || z[0] % 0x10 != 8 || (z[0] as int * 0x100 + z[1]) % 31 != 0 || z[1] / 0x20 % 2 == 1 then None else
    var r := ReadBlocks(z[2..]);
    if r.None? || |r.value.1| != 4 || ReadU32(r.value.1, 0) != Adler(r.value.0) then None else Some(r.value.0)
  }

  lemma HeadReads(n: nat, final: bool, data: seq<byte>, rest: seq<byte>)
    requires n <= MAX_BLOCK && |data| == n
    ensures ReadBlocks(Head(n, final) + data + rest) ==
            if final then Some((data, rest))
            else var more := ReadBlocks(rest);
                 if more.None? then None else Some((data + more.value.0, more.value.1))
  {
    var h := Head(n, final);
    var z := h + data + rest;
    assert z[0] == h[0] && z[1] == h[1] && z[2] == h[2] && z[3] == h[3] && z[4] == h[4];
    assert n == n % 0x100 + 0x100 * (n / 0x100);
    assert z[5..5 + n] == data && z[5 + n..] == rest;
    hide Head;
  }

  /** Reading the blocks gives the data back and stops exactly behind them. */
  lemma {:induction false} BlocksRoundTrip(raw: seq<byte>, tail: seq<byte>)
    requires |raw| > 0
    ensures ReadBlocks(Blocks(raw) + tail) == Some((raw, tail))
    decreases |raw|
  {
    var n := FirstLength(raw);
    var rest := Blocks(raw[n..]);
    var head := Head(n, |raw| <= MAX_BLOCK);
    assert Blocks(raw) == head + raw[..n] + rest;
    assert raw == raw[..n] + raw[n..];
    hide Blocks, ReadBlocks, Head;
    Regroup(head, raw[..n], rest, tail);
    HeadReads(n, |raw| <= MAX_BLOCK, raw[..n], rest + tail);
    if |raw| > MAX_BLOCK {
      BlocksRoundTrip(raw[n..], tail);
    } else {
      assert raw[n..] == [] && raw[..n] == raw;
      assert rest == [] by { NoBlocks(); }
      assert rest + tail == tail;
    }
  }

  lemma NoBlocks()
    ensures Blocks([]) == []
  {
  }

  lemma Regroup(a: seq<byte>, b: seq<byte>, c: seq<byte>, d: seq<byte>)
    ensures a + b + c + d == a + b + (c + d)
  {
  }

  /** The stream can be read back, checksum included, exactly when there is data: for an empty image
      no block is written, so none is final. */
  lemma RoundTrip(raw: seq<byte>)
    ensures ReadZlib(Zlib(raw)) == if |raw| > 0 then Some(raw) else None
  {
    hide Adler, Blocks, ReadBlocks, U32Bytes, ReadU32;
    var trailer := U32Bytes(Adler(raw));
    assert Zlib(raw)[2..] == Blocks(raw) + trailer;
    ReadBack32(trailer, 0, Adler(raw));
    if |raw| > 0 {
      BlocksRoundTrip(raw, trailer);
    } else {
      NoBlocks();
      assert Blocks(raw) + trailer == trailer;
      assert ReadBlocks(trailer) == None by { TooShort(trailer); }
    }
  }

  lemma TooShort(z: seq<byte>)
    requires |z| < 5
    ensures ReadBlocks(z) == None
  {
  }

  // ---------------------------------------------------------------- the standards

  function Total(data: seq<byte>): nat {
    if |data| == 0 then 0 else data[0] + Total(data[1..])
  }

  /** Every byte counted as often as there are prefixes that hold it. */
  function Weighted(data: seq<byte>): nat {
    if |data| == 0 then 0 else |data| * data[0] + Weighted(data[1..])
  }

  lemma {:induction false} SumsFromFront(data: seq<byte>, k: nat)
    requires 0 < k <= |data|
    ensures Sum(data, k) == data[0] + Sum(data[1..], k - 1)
    ensures SumOfSums(data, k) == 1 + k * data[0] + SumOfSums(data[1..], k - 1)
  {
    if k > 1 {
      SumsFromFront(data, k - 1);
      assert data[k - 1] == data[1..][k - 2];
      Once(k, data[0]);
    } else {
      assert Sum(data, 0) == 0 && Sum(data[1..], 0) == 0;
      Once(1, data[0]);
    }
  }

  lemma Once(k: nat, x: nat)
    requires k > 0
    ensures k * x == (k - 1) * x + x
  {
  }

  lemma {:induction false} SumsInFull(data: seq<byte>)
    ensures Sum(data, |data|) == Total(data) && SumOfSums(data, |data|) == |data| + Weighted(data)
  {
    if |data| > 0 {
      SumsFromFront(data, |data|);
      SumsInFull(data[1..]);
    }
  }

  /** Section 8.2 of RFC 1950: one more than the sum of the bytes, and the sum of all these sums on the way,
      each modulo 65521, the second in the upper half. */
  lemma AdlerInFull(data: seq<byte>)
    ensures Adler(data) % 0x1_0000 == (1 + Total(data)) % 65521
    ensures Adler(data) / 0x1_0000 == (|data| + Weighted(data)) % 65521
  {
    SumsInFull(data);
  }

  /** Section 3.2.4 of RFC 1951 in section 2.2 of RFC 1950: deflate with a 32K window at the lowest level; a
      final stored block, its length and the complement of that, low byte first; the checksum, high byte first. */
  lemma ShortStream(raw: seq<byte>)
    requires 0 < |raw| <= 65535
    ensures var z, n := Zlib(raw), |raw|;
            && |z| == 7 + n + 4
            && z[..7 + n] == [0x78, 0x01, 0x01, n % 256, n / 256, 255 - n % 256, 255 - n / 256] + raw
            && z[7 + n] as int * 0x100_0000 + z[8 + n] as int * 0x1_0000 + z[9 + n] as int * 0x100 + z[10 + n] ==
               Adler(raw)
  {
    FirstBlock(raw);
    NoBlocks();
    assert raw[..|raw|] == raw && raw[|raw|..] == [];
    var a := Adler(raw);
    FourBytes(a);
    hide Adler, Blocks, U32Bytes, Sum, SumOfSums;
    var start := [0x78, 0x01, 0x01, |raw| % 256, |raw| / 256, 255 - |raw| % 256, 255 - |raw| / 256] + raw;
    assert Zlib(raw) == start + U32Bytes(a);
  }

  lemma FourBytes(a: u32)
    ensures var b := U32Bytes(a);
            b[0] as int * 0x100_0000 + b[1] as int * 0x1_0000 + b[2] as int * 0x100 + b[3] == a
  {
    var hi, lo := a / 0x1_0000, a % 0x1_0000;
    assert hi == hi / 0x100 * 0x100 + hi % 0x100 && lo == lo / 0x100 * 0x100 + lo % 0x100;
  }

  /** A longer image starts with a full block that is not final. */
  lemma LongStream(raw: seq<byte>)
    requires |raw| > 65535
    ensures Blocks(raw) == [0x00, 0xFF, 0xFF, 0x00, 0x00] + raw[..65535] + Blocks(raw[65535..])
  {
    FirstBlock(raw);
    FullHead();
    hide Blocks, Head;
  }

  lemma FullHead()
    ensures Head(65535, false) == [0x00, 0xFF, 0xFF, 0x00, 0x00]
  {
  }

  // ---------------------------------------------------------------- the loop

  method WriteHead(z: array<byte>, at: nat, n: nat, final: bool)
    requires at + 5 <= z.Length && n <= MAX_BLOCK
    modifies z
    ensures z[..at + 5] == old(z[..at]) + Head(n, final)
  {
    ghost var before := z[..at];
    z[at] := if final then 1 else 0;
    z[at + 1] := n % 0x100;
    z[at + 2] := n / 0x100 % 0x100;
    z[at + 3] := 0xFF - n % 0x100;
    z[at + 4] := 0xFF - n / 0x100 % 0x100;
    assert z[..at] == before && z[at..at + 5] == Head(n, final);
    assert z[..at + 5] == z[..at] + z[at..at + 5];
  }

  method WriteData(z: array<byte>, at: nat, data: seq<byte>)
    requires at + |data| <= z.Length
    modifies z
    ensures z[..at + |data|] == old(z[..at]) + data
  {
    ghost var before := z[..at];
    CopyIn(z, at, data);
    assert z[..at] == before && z[at..at + |data|] == data;
    assert z[..at + |data|] == z[..at] + z[at..at + |data|];
  }

  /** The block loop of png_save_rgb: it fills the buffer of the size computed in advance exactly. */
  method WriteZlib(raw: array<byte>, adler: u32) returns (z: array<byte>)
    requires adler == Adler(raw[..])
    ensures fresh(z) && z[..] == Zlib(raw[..])
    ensures z.Length == 2 + raw.Length + 5 * BlockCount(raw.Length) + 4
  {
    hide Blocks, Adler, Head, U32Bytes;
    ghost var data := raw[..];
    SizeOfBlocks(data);
    z := new byte[2 + raw.Length + 5 * BlockCount(raw.Length) + 4];
    z[0], z[1] := 0x78, 0x01;
    var zpos: nat, offset: nat, remaining: nat := 2, 0, raw.Length;
    ghost var start := [0x78, 0x01] + Blocks(data);
    assert data[0..] == data && z[..2] == [0x78, 0x01];
    while remaining > 0
      invariant offset + remaining == raw.Length == |data| && zpos <= z.Length - 4 && fresh(z) && raw[..] == data
      invariant z[..zpos] + Blocks(data[offset..]) == start && |start| == z.Length - 4
    {
      ghost var written, rest := z[..zpos], data[offset..];
      var n := if remaining > MAX_BLOCK then MAX_BLOCK else remaining;
      FirstBlock(rest);
      assert |written| + |Blocks(rest)| == z.Length - 4;
      WriteHead(z, zpos, n, remaining <= MAX_BLOCK);
      zpos := zpos + 5;
      assert raw[offset..offset + n] == rest[..n];
      WriteData(z, zpos, raw[offset..offset + n]);
      zpos := zpos + n;
      offset := offset + n;
      remaining := remaining - n;
      assert rest[n..] == data[offset..];
      Moved(written, Head(n, |rest| <= MAX_BLOCK), rest[..n], Blocks(rest[n..]));
    }
    assert data[offset..] == [];
    assert Blocks([]) == [] by { NoBlocks(); }
    assert z[..zpos] == start;
    assert zpos == |start|;
    WriteTrailer(z, zpos, adler);
  }

  lemma FirstBlock(raw: seq<byte>)
    requires |raw| > 0
    ensures var n := FirstLength(raw);
            Blocks(raw) == Head(n, |raw| <= MAX_BLOCK) + raw[..n] + Blocks(raw[n..])
  {
  }

  lemma Moved(a: seq<byte>, b: seq<byte>, c: seq<byte>, d: seq<byte>)
    ensures a + b + c + d == a + (b + c + d)
  {
  }

  method WriteTrailer(z: array<byte>, at: nat, v: u32)
    requires at + 4 == z.Length
    modifies z
    ensures z[..] == old(z[..at]) + U32Bytes(v)
  {
    ghost var before := z[..at];
    WriteU32(z, at, v);
    assert z[..at] == before && z[at..] == U32Bytes(v);
    assert z[..] == z[..at] + z[at..];
  }
}
