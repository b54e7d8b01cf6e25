/** What a prefix covers, bit by bit (ip_prefix_to_mask and the comparisons under it in layer3/ipv4.c). */
module AddressBits {
  import opened Base

  function Octet(ip: Ip, k: nat): byte
    requires k < 4
  {
    if k == 0 then ip.o0 else if k == 1 then ip.o1 else if k == 2 then ip.o2 else ip.o3
  }

  /** Bit i of an address, counted from the most significant bit of the first octet. */
  function Bit(ip: Ip, i: nat): (b: nat)
    requires i < 32
    ensures b < 2
  {
    Octet(ip, i / 8) / Pow2(7 - i % 8) % 2
  }

  /** Do the first n bits of two addresses agree? */
  predicate Agree(a: Ip, b: Ip, n: nat)
    requires n <= 32
  {
    forall i :: 0 <= i < n ==> Bit(a, i) == Bit(b, i)
  }

  /** The first n bits as a number. */
  function Leading(ip: Ip, n: nat): nat
    requires n <= 32
  {
    if n == 0 then 0 else 2 * Leading(ip, n - 1) + Bit(ip, n - 1)
  }

  lemma {:induction false} LeadingAgree(a: Ip, b: Ip, n: nat)
    requires n <= 32
    ensures Leading(a, n) == Leading(b, n) <==> Agree(a, b, n)
  {
    hide Bit;
    if n > 0 {
      LeadingAgree(a, b, n - 1);
      assert Bit(a, n - 1) < 2 && Bit(b, n - 1) < 2;
    }
  }

  lemma Multiples(d: int, k: int)
    requires d >= 0
    ensures k >= 1 ==> d * k >= d
    ensures k <= -1 ==> d * k <= -d
  {
    if k >= 1 {
      assert d * k == d + d * (k - 1);
    }
  }

  lemma Quotient(x: nat, d: nat, q: nat, r: nat)
    requires x == d * q + r && r < d
    ensures x / d == q
  {
    var e := x / d;
    assert x == d * e + x % d;
    assert d * (e - q) == d * e - d * q;
    Multiples(d, e - q);
  }

  lemma Split(a: nat, b: nat, q: nat, r: nat, rest: nat)
    requires r < b && rest < a
    ensures a * (b * q + r) + rest == (a * b) * q + (a * r + rest)
    ensures a * r + rest < a * b
  {
    Associate(a, b, q, r);
    assert a * b == a * (r + 1) + a * (b - (r + 1));
  }

  lemma Associate(a: nat, b: nat, q: nat, r: nat)
    ensures a * (b * q + r) == (a * b) * q + a * r
  {
  }

  lemma DivideOnce(x: nat, a: nat, b: nat, q: nat, r: nat, rest: nat)
    requires x == a * (b * q + r) + rest && r < b && rest < a
    ensures a * b > 0 && x / (a * b) == q
  {
    Split(a, b, q, r, rest);
    Quotient(x, a * b, q, a * r + rest);
  }

  lemma DivideTwice(x: nat, a: nat, b: nat)
    requires a > 0 && b > 0
    ensures a * b > 0 && x / (a * b) == x / a / b
  {
    var y := x / a;
    assert x == a * y + x % a && y == b * (y / b) + y % b;
    DivideOnce(x, a, b, y / b, y % b, x % a);
  }

  lemma {:induction false} PowersAdd(m: nat, n: nat)
    ensures Pow2(m + n) == Pow2(m) * Pow2(n)
  {
    if m > 0 {
      PowersAdd(m - 1, n);
    }
  }

  lemma SmallPowers()
    ensures Pow2(0) == 1 && Pow2(1) == 2 && Pow2(2) == 4 && Pow2(3) == 8 && Pow2(4) == 16 && Pow2(5) == 32
    ensures Pow2(6) == 64 && Pow2(7) == 128 && Pow2(8) == 0x100
  {
    assert Pow2(3) == 8 && Pow2(6) == 64;
  }

  lemma BytePowers()
    ensures Pow2(8) == 0x100 && Pow2(16) == 0x1_0000 && Pow2(24) == 0x100_0000
  {
    SmallPowers();
    PowersAdd(8, 8);
    PowersAdd(8, 16);
  }

  lemma AddMultiple(p: nat, c: nat, o: nat)
    requires p > 0
    ensures (p * c + o) / p == c + o / p
  {
    Quotient(p * c + o, p, c + o / p, o % p);
  }

  lemma Regroup(x: nat, p: nat, half: nat)
    requires p * (2 * half) == 0x100
    ensures 0x100 * x == p * (2 * (half * x))
  {
    assert p * (2 * half) * x == p * (2 * half * x);
  }

  lemma BitBelow(y: nat, z: nat, o: byte, p: nat)
    requires p > 0 && z == p * (2 * y)
    ensures (z + o) / p % 2 == o / p % 2
  {
    AddMultiple(p, 2 * y, o);
    var q := o / p;
    assert (2 * y + q) % 2 == q % 2;
  }

  /** The bits of the low octet of a number. */
  lemma LowOctet(x: nat, o: byte, m: nat)
    requires m < 8
    ensures (0x100 * x + o) / Pow2(m) % 2 == o / Pow2(m) % 2
  {
    var p, half := Pow2(m), Pow2(7 - m);
    PowersAdd(m, 8 - m);
    assert Pow2(8 - m) == 2 * half;
    BytePowers();
    hide Pow2;
    Regroup(x, p, half);
    BitBelow(half * x, 0x100 * x, o, p);
  }

  /** An address without its last octets ends in octet k. */
  lemma Shortened(ip: Ip, k: nat) returns (x: nat)
    requires k < 4
    ensures IpValue(ip) / Pow2(8 * (3 - k)) == 0x100 * x + Octet(ip, k)
  {
    BytePowers();
    assert Pow2(0) == 1;
    hide Pow2;
    x := if k == 0 then 0 else if k == 1 then ip.o0 else if k == 2 then ip.o0 as int * 0x100 + ip.o1
         else ip.o0 as int * 0x1_0000 + ip.o1 as int * 0x100 + ip.o2;
  }

  lemma BitOfValue(ip: Ip, i: nat)
    requires i < 32
    ensures Bit(ip, i) == IpValue(ip) / Pow2(31 - i) % 2
  {
    hide Pow2, IpValue, Octet;
    var k, m := i / 8, 7 - i % 8;
    var x := Shortened(ip, k);
    assert 31 - i == 8 * (3 - k) + m;
    PowersAdd(8 * (3 - k), m);
    DivideTwice(IpValue(ip), Pow2(8 * (3 - k)), Pow2(m));
    LowOctet(x, Octet(ip, k), m);
  }

  lemma {:induction false} LeadingIsQuotient(ip: Ip, n: nat)
    requires n <= 32
    ensures Leading(ip, n) == IpValue(ip) / Pow2(32 - n)
  {
    if n == 0 {
      BytePowers();
      PowersAdd(8, 24);
    } else {
      LeadingIsQuotient(ip, n - 1);
      BitOfValue(ip, n - 1);
      var v, d := IpValue(ip), Pow2(32 - n);
      assert Pow2(33 - n) == 2 * d;
      DivideTwice(v, d, 2);
    }
  }

  /** Two addresses are in one network exactly if their first prefix bits, at most all 32, agree. */
  lemma SameNetworkByBits(a: Ip, b: Ip, prefix: byte)
    ensures SameNetwork(a, b, prefix) <==> Agree(a, b, if prefix >= 32 then 32 else prefix)
  {
    hide Pow2, IpValue, Agree, Leading;
    var n := if prefix >= 32 then 32 else prefix;
    LeadingIsQuotient(a, n);
    LeadingIsQuotient(b, n);
    LeadingAgree(a, b, n);
  }

  lemma LastDigit(a: nat, x: byte, b: nat, y: byte)
    requires 0x100 * a + x == 0x100 * b + y
    ensures a == b && x == y
  {
  }

  lemma ValueIsAddress(a: Ip, b: Ip)
    requires IpValue(a) == IpValue(b)
    ensures a == b
  {
    var a1, b1 := a.o0 as nat, b.o0 as nat;
    var a2, b2 := 0x100 * a1 + a.o1, 0x100 * b1 + b.o1;
    var a3, b3 := 0x100 * a2 + a.o2, 0x100 * b2 + b.o2;
    LastDigit(a3, a.o3, b3, b.o3);
    LastDigit(a2, a.o2, b2, b.o2);
    LastDigit(a1, a.o1, b1, b.o1);
  }

  /** All 32 bits make the address, and no bits cover every address. */
  lemma WholeAddress(a: Ip, b: Ip)
    ensures Agree(a, b, 32) <==> a == b
    ensures Agree(a, b, 0)
  {
    hide Bit, IpValue;
    SameNetworkByBits(a, b, 32);
    assert Pow2(0) == 1;
    if IpValue(a) == IpValue(b) {
      ValueIsAddress(a, b);
    }
  }
}
