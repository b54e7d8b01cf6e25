/** The CRC-32 of PNG chunks, table-driven as in gui/app.c, against its bit-at-a-time definition. */
module Crc32 {

  const POLYNOMIAL: bv32 := 0xEDB88320
  const ONES: bv32 := 0xFFFFFFFF

  function Xor(x: bv32, y: bv32): bv32 { x ^ y }

  predicate Odd(x: bv32) { x & 1 == 1 }

  function Half(x: bv32): bv32 { x >> 1 }

  function Wide(b: bv8): bv32 { b as bv32 }

  /** One step of the register: the inner loop body of the table construction. */
  function Shift(c: bv32): bv32 {
    if Odd(c) then Xor(POLYNOMIAL, Half(c)) else Half(c)
  }

  function Shifts(c: bv32, k: nat): bv32 {
    if k == 0 then c else Shift(Shifts(c, k - 1))
  }

  function Halves(x: bv32, k: nat): bv32 {
    if k == 0 then x else Half(Halves(x, k - 1))
  }

  // ---------------------------------------------------------------- definition

  /** Bit k of a byte, least significant first. */
  function Bit(b: bv8, k: nat): bv32 {
    Halves(Wide(b), k) & 1
  }

  /** The register after the first k bits of a byte: each is added at the low end before a step. */
  function FeedBits(c: bv32, b: bv8, k: nat): bv32 {
    if k == 0 then c else Shift(Xor(FeedBits(c, b, k - 1), Bit(b, k - 1)))
  }

  /** The register after a message, bit by bit. */
  function Register(c: bv32, data: seq<bv8>): bv32 {
    if |data| == 0 then c else FeedBits(Register(c, data[..|data| - 1]), data[|data| - 1], 8)
  }

  /** The CRC of a message, continued from the CRC of what came before it. */
  function Crc(crc: bv32, data: seq<bv8>): bv32 {
    Xor(Register(Xor(crc, ONES), data), ONES)
  }

  lemma XorAssociates(x: bv32, y: bv32, z: bv32)
    ensures Xor(Xor(x, y), z) == Xor(x, Xor(y, z))
  {
  }

  lemma XorCommutes(x: bv32, y: bv32)
    ensures Xor(x, y) == Xor(y, x)
  {
  }

  lemma XorCancels(x: bv32, y: bv32)
    ensures Xor(Xor(x, y), y) == x
  {
  }

  lemma XorZero(x: bv32)
    ensures Xor(x, 0) == x
  {
  }

  lemma XorLaws(x: bv32, y: bv32, z: bv32)
    ensures Xor(Xor(x, y), z) == Xor(x, Xor(y, z)) && Xor(x, y) == Xor(y, x)
    ensures Xor(Xor(x, y), y) == x && Xor(x, 0) == x
    ensures Xor(Xor(x, y), Xor(x, z)) == Xor(y, z) && Xor(y, Xor(x, z)) == Xor(x, Xor(y, z))
  {
    hide Xor;
    XorAssociates(x, y, z);
    XorCommutes(x, y);
    XorCancels(x, y);
    XorCancels(y, x);
    XorZero(x);
    XorAssociates(y, x, z);
    XorAssociates(Xor(y, x), x, z);
  }

  lemma {:induction false} RegisterConcat(c: bv32, a: seq<bv8>, b: seq<bv8>)
    ensures Register(Register(c, a), b) == Register(c, a + b)
  {
    hide FeedBits;
    if |b| == 0 {
      assert a + b == a;
    } else {
      var last := |b| - 1;
      RegisterConcat(c, a, b[..last]);
      assert (a + b)[..|a + b| - 1] == a + b[..last];
    }
  }

  /** Continuing a CRC gives the CRC of the concatenation. */
  lemma CrcConcat(crc: bv32, a: seq<bv8>, b: seq<bv8>)
    ensures Crc(Crc(crc, a), b) == Crc(crc, a + b)
  {
    hide Xor, Register;
    RegisterConcat(Xor(crc, ONES), a, b);
    XorLaws(Register(Xor(crc, ONES), a), ONES, 0);
  }

  // ---------------------------------------------------------------- the table

  lemma BitLaws(x: bv32, y: bv32)
    ensures Odd(Xor(x, y)) == (Odd(x) != Odd(y)) && Half(Xor(x, y)) == Xor(Half(x), Half(y))
  {
  }

  lemma ShiftLinear(x: bv32, y: bv32)
    ensures Shift(Xor(x, y)) == Xor(Shift(x), Shift(y))
  {
    hide Xor, Odd, Half;
    BitLaws(x, y);
    XorLaws(POLYNOMIAL, Half(x), Half(y));
    XorLaws(Half(x), POLYNOMIAL, Half(y));
  }

  lemma {:induction false} ShiftsLinear(x: bv32, y: bv32, k: nat)
    ensures Shifts(Xor(x, y), k) == Xor(Shifts(x, k), Shifts(y, k))
  {
    hide Xor, Shift;
    if k > 0 {
      ShiftsLinear(x, y, k - 1);
      ShiftLinear(Shifts(x, k - 1), Shifts(y, k - 1));
    }
  }

  /** A number splits into its low bit and an even rest. */
  lemma LowBit(x: bv32)
    ensures x == Xor(x & 1, x & 0xFFFFFFFE) && !Odd(x & 0xFFFFFFFE) && Half(x & 0xFFFFFFFE) == Half(x)
  {
  }

  /** Adding the bits one by one is the same as adding the whole byte first. */
  lemma {:induction false} FeedAtOnce(c: bv32, b: bv8, k: nat)
    ensures Xor(FeedBits(c, b, k), Halves(Wide(b), k)) == Shifts(Xor(c, Wide(b)), k)
  {
    if k > 0 {
      FeedAtOnce(c, b, k - 1);
      hide Xor, Odd, Half, Wide;
      var f, h := FeedBits(c, b, k - 1), Halves(Wide(b), k - 1);
      LowBit(h);
      XorLaws(f, h & 1, h & 0xFFFFFFFE);
      ShiftLinear(Xor(f, h & 1), h & 0xFFFFFFFE);
    }
  }

  lemma HalvesUnroll(x: bv32)
    ensures Halves(x, 1) == Half(x) && Halves(x, 2) == Half(Halves(x, 1)) && Halves(x, 3) == Half(Halves(x, 2))
    ensures Halves(x, 4) == Half(Halves(x, 3)) && Halves(x, 5) == Half(Halves(x, 4))
    ensures Halves(x, 6) == Half(Halves(x, 5))
    ensures Halves(x, 7) == Half(Halves(x, 6)) && Halves(x, 8) == Half(Halves(x, 7))
  {
    hide Half;
  }

  lemma EightHalves(x: bv32)
    ensures Half(Half(Half(Half(Half(Half(Half(Half(x)))))))) == x >> 8
  {
  }

  lemma HalvesOfByte(x: bv32)
    ensures Halves(x, 8) == x >> 8
  {
    hide Half;
    HalvesUnroll(x);
    EightHalves(x);
  }

  /** With eight zero bits at the low end, eight steps only shift. */
  lemma {:induction false} ShiftsOfHigh(x: bv32, k: nat)
    requires forall i :: 0 <= i < k ==> !Odd(Halves(x, i))
    ensures Shifts(x, k) == Halves(x, k)
  {
    hide Xor, Odd, Half;
    if k > 0 {
      ShiftsOfHigh(x, k - 1);
    }
  }

  function High(x: bv32): bv32 { x & 0xFFFFFF00 }

  function Low(x: bv32): bv32 { x & 0xFF }

  lemma HighIsEven(x: bv32)
    ensures var h := High(x);
            && !Odd(h) && !Odd(Half(h)) && !Odd(Half(Half(h))) && !Odd(Half(Half(Half(h))))
            && !Odd(Half(Half(Half(Half(h))))) && !Odd(Half(Half(Half(Half(Half(h))))))
            && !Odd(Half(Half(Half(Half(Half(Half(h))))))) && !Odd(Half(Half(Half(Half(Half(Half(Half(h))))))))
  {
  }

  lemma SplitByte(x: bv32)
    ensures x == Xor(Low(x), High(x)) && High(x) >> 8 == x >> 8
  {
  }

  /** Eight steps act on the low byte alone; the rest is shifted down. */
  lemma ByteAtOnce(x: bv32)
    ensures Shifts(x, 8) == Xor(Shifts(Low(x), 8), x >> 8)
  {
    var h := High(x);
    SplitByte(x);
    HighIsEven(x);
    hide Xor, Odd, Half, High, Low, Shifts;
    HalvesUnroll(h);
    forall i | 0 <= i < 8
      ensures !Odd(Halves(h, i))
    {
    }
    HalvesOfByte(h);
    ShiftsOfHigh(h, 8);
    ShiftsLinear(Low(x), h, 8);
  }

  lemma NothingHigh(c: bv32, b: bv8)
    ensures Wide(b) >> 8 == 0 && Xor(c, Wide(b)) >> 8 == c >> 8
  {
  }

  /** The table step for one byte. */
  lemma TableStep(c: bv32, b: bv8)
    ensures FeedBits(c, b, 8) == Xor(Shifts(Low(Xor(c, Wide(b))), 8), c >> 8)
  {
    hide Xor, Wide, Low, FeedBits, Shifts, Halves;
    NothingHigh(c, b);
    FeedAtOnce(c, b, 8);
    HalvesOfByte(Wide(b));
    XorLaws(FeedBits(c, b, 8), 0, 0);
    ByteAtOnce(Xor(c, Wide(b)));
  }

  // ---------------------------------------------------------------- the code

  lemma RegisterStep(c: bv32, data: seq<bv8>, i: nat)
    requires i < |data|
    ensures Register(c, data[..i + 1]) == FeedBits(Register(c, data[..i]), data[i], 8)
  {
    hide FeedBits;
    assert data[..i + 1][..i] == data[..i];
  }

  /** The big-endian bytes of png_write_u32be. */
  function U32Be(v: bv32): (s: seq<bv8>)
    ensures |s| == 4
  {
    [(v >> 24) as bv8, ((v >> 16) & 0xFF) as bv8, ((v >> 8) & 0xFF) as bv8, (v & 0xFF) as bv8]
  }

  /** A chunk as section 5.3 of the PNG specification lays it out: length, type, data, and the CRC of
      type and data together. */
  function Chunk(kind: seq<bv8>, data: seq<bv8>): seq<bv8>
    requires |data| < 0x1_0000_0000
  {
    U32Be(|data| as bv32) + kind + data + U32Be(Crc(0, kind + data))
  }

  // ---------------------------------------------------------------- the standards

  /** Section 3.2.9 of IEEE 802.3: the terms of the generator below x^32; the register holds the term of x^e
      at bit 31 - e. */
  lemma Generator(e: nat)
    requires e < 32
    ensures (POLYNOMIAL >> (31 - e)) & 1 == if e in {0, 1, 2, 4, 5, 7, 8, 10, 11, 12, 16, 22, 23, 26} then 1 else 0
  {
  }

  /** A whole byte at once, step by step. */
  lemma Fed(c: bv32, data: seq<bv8>, b: bv8, r: bv32)
    requires Shift(Shift(Shift(Shift(Shift(Shift(Shift(Shift(Xor(Register(c, data), Wide(b)))))))))) == r
    ensures Register(c, data + [b]) == r
  {
    hide Shift, Xor, Wide, FeedBits, Halves, Register;
    var before := Register(c, data);
    var x := Xor(before, Wide(b));
    NothingHigh(before, b);
    FeedAtOnce(before, b, 8);
    HalvesOfByte(Wide(b));
    XorLaws(FeedBits(before, b, 8), 0, 0);
    assert Shifts(x, 0) == x && Shifts(x, 1) == Shift(Shifts(x, 0)) && Shifts(x, 2) == Shift(Shifts(x, 1));
    assert Shifts(x, 3) == Shift(Shifts(x, 2)) && Shifts(x, 4) == Shift(Shifts(x, 3));
    assert Shifts(x, 5) == Shift(Shifts(x, 4)) && Shifts(x, 6) == Shift(Shifts(x, 5));
    assert Shifts(x, 7) == Shift(Shifts(x, 6)) && Shifts(x, 8) == Shift(Shifts(x, 7));
    RegisterStep(c, data + [b], |data|);
    assert (data + [b])[..|data|] == data && (data + [b])[..|data| + 1] == data + [b];
  }

  lemma FirstHalfOfEnd()
    ensures Register(ONES, [0x49, 0x45]) == 0x992BAC53
  {
    assert Register(ONES, []) == ONES by { EmptyMessage(ONES); }
    hide Register;
    Fed(ONES, [], 0x49, 0x22FDE946);
    Fed(ONES, [0x49], 0x45, 0x992BAC53);
    assert [] + [0x49 as bv8] == [0x49] && [0x49] + [0x45 as bv8] == [0x49, 0x45];
  }

  lemma SecondHalfOfEnd()
    ensures Register(ONES, [0x49, 0x45, 0x4E, 0x44]) == 0x51BD9F7D
  {
    hide Register;
    FirstHalfOfEnd();
    assert [0x49, 0x45] + [0x4E as bv8] == [0x49, 0x45, 0x4E];
    assert [0x49, 0x45, 0x4E] + [0x44 as bv8] == [0x49, 0x45, 0x4E, 0x44];
    Fed(ONES, [0x49, 0x45], 0x4E, 0x639F4775);
    Fed(ONES, [0x49, 0x45, 0x4E], 0x44, 0x51BD9F7D);
  }

  /** The chunk that ends every PNG file, its CRC included. */
  lemma EndChunk()
    ensures Chunk([0x49, 0x45, 0x4E, 0x44], []) ==
            [0, 0, 0, 0, 0x49, 0x45, 0x4E, 0x44, 0xAE, 0x42, 0x60, 0x82]
  {
    hide Register;
    SecondHalfOfEnd();
    assert [0x49, 0x45, 0x4E, 0x44] + [] == [0x49 as bv8, 0x45, 0x4E, 0x44];
    assert Crc(0, [0x49, 0x45, 0x4E, 0x44]) == 0xAE426082;
    hide Crc;
  }

  class Encoder {
    const table: array<bv32>
    var out: seq<bv8>

    ghost predicate Valid()
      reads this, table
    {
      table.Length == 256 && forall b: bv8 :: table[b as int] == Shifts(Wide(b), 8)
    }

    /** crc32_init_table. */
    constructor ()
      ensures Valid() && fresh(table) && out == []
    {
      table := new bv32[256];
      out := [];
      new;
      var n: bv9 := 0;
      while n < 256
        invariant n <= 256 && out == [] && forall b: bv8 :: b as bv9 < n ==> table[b as int] == Shifts(Wide(b), 8)
        decreases 256 - n
      {
        var e := TableEntry(n as bv8);
        StoreEntry(table, n as bv8, e, n);
        n := n + 1;
      }
    }

    /** The inner loop of crc32_init_table. */
    static method TableEntry(b: bv8) returns (c: bv32)
      ensures c == Shifts(Wide(b), 8)
    {
      hide Xor, Odd, Half, Wide;
      c := Wide(b);
      for k := 0 to 8
        invariant c == Shifts(Wide(b), k)
      {
        c := if Odd(c) then Xor(POLYNOMIAL, Half(c)) else Half(c);
      }
    }

    static method StoreEntry(table: array<bv32>, b: bv8, e: bv32, n: bv9)
      requires table.Length == 256 && n < 256 && b as bv9 == n && e == Shifts(Wide(b), 8)
      requires forall x: bv8 :: x as bv9 < n ==> table[x as int] == Shifts(Wide(x), 8)
      modifies table
      ensures forall x: bv8 :: x as bv9 < n + 1 ==> table[x as int] == Shifts(Wide(x), 8)
    {
      hide Shifts, Wide;
      table[b as int] := e;
      forall x: bv8 | x as bv9 < n + 1
        ensures table[x as int] == Shifts(Wide(x), 8)
      {
        BelowNext(x, b, n);
      }
    }

    static lemma BelowNext(x: bv8, b: bv8, n: bv9)
      requires n < 256 && b as bv9 == n && x as bv9 < n + 1
      ensures x == b || (x as bv9 < n && x as int != b as int)
    {
    }

    /** crc32_update. */
    method Update(crc: bv32, data: seq<bv8>) returns (r: bv32)
      requires Valid()
      ensures r == Crc(crc, data)
    {
      hide Xor, Shifts, Wide, Low, FeedBits, Register;
      var c := Xor(crc, ONES);
      ghost var start := c;
      assert data[..0] == [];
      assert Register(start, []) == start by { EmptyMessage(start); }
      for i := 0 to |data|
        invariant c == Register(start, data[..i])
      {
        RegisterStep(start, data, i);
        TableStep(c, data[i]);
        LowIsByte(Xor(c, Wide(data[i])));
        var index := LowByte(Xor(c, Wide(data[i])));
        c := Xor(table[index as int], c >> 8);
      }
      assert data[..|data|] == data;
      r := Xor(c, ONES);
    }

    /** png_write_chunk. */
    method WriteChunk(kind: seq<bv8>, data: seq<bv8>)
      requires Valid() && |data| < 0x1_0000_0000
      modifies `out
      ensures Valid() && out == old(out) + Chunk(kind, data)
    {
      hide Crc, U32Be, Chunk, Shifts, Wide;
      ghost var before := out;
      out := out + U32Be(|data| as bv32) + kind;
      var crc := Update(0, kind);
      if |data| > 0 {
        out := out + data;
        crc := Update(crc, data);
        CrcConcat(0, kind, data);
      } else {
        assert kind + data == kind;
      }
      out := out + U32Be(crc);
      assert out == before + U32Be(|data| as bv32) + kind + data + U32Be(Crc(0, kind + data));
      Appended(before, U32Be(|data| as bv32), kind, data, U32Be(Crc(0, kind + data)));
      ChunkParts(kind, data);
    }
  }

  lemma Appended(a: seq<bv8>, b: seq<bv8>, c: seq<bv8>, d: seq<bv8>, e: seq<bv8>)
    ensures a + b + c + d + e == a + (b + c + d + e)
  {
  }

  lemma ChunkParts(kind: seq<bv8>, data: seq<bv8>)
    requires |data| < 0x1_0000_0000
    ensures Chunk(kind, data) == U32Be(|data| as bv32) + kind + data + U32Be(Crc(0, kind + data))
  {
  }

  lemma EmptyMessage(c: bv32)
    ensures Register(c, []) == c
  {
  }

  function LowByte(x: bv32): bv8 {
    (x & 0xFF) as bv8
  }

  lemma LowIsByte(x: bv32)
    ensures Wide(LowByte(x)) == Low(x)
  {
  }
}
