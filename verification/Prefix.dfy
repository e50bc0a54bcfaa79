/** Single bits of numbers, and how the operators act on them. */
module BitTests {
  import opened Bits
  import opened Blocks
  import opened Words

  /** Bit k of a, counted from the low end. */
  function Test(a: nat, k: nat): bool {
    if k == 0 then a % 2 == 1 else Test(a / 2, k - 1)
  }

  lemma {:induction false} TestZero(k: nat)
    ensures !Test(0, k)
  {
    if k > 0 {
      TestZero(k - 1);
    }
  }

  lemma {:induction false} TestOr(a: nat, b: nat, k: nat)
    ensures Test(Or(a, b), k) <==> Test(a, k) || Test(b, k)
    decreases k
  {
    TestZero(k);
    if k > 0 && a != 0 && b != 0 {
      TestOr(a / 2, b / 2, k - 1);
    }
  }

  /** 2^n - 1 has the n low bits set. */
  lemma {:induction false} TestOnes(n: nat, k: nat)
    ensures Test(Pow2(n) - 1, k) <==> k < n
  {
    if n == 0 {
      TestZero(k);
    } else if k > 0 {
      TestOnes(n - 1, k - 1);
      assert (Pow2(n) - 1) / 2 == Pow2(n - 1) - 1;
    }
  }

  /** The complement of an n-bit word. */
  lemma {:induction false} TestNot(a: nat, n: nat, k: nat)
    requires a < Pow2(n)
    ensures Test(Pow2(n) - 1 - a, k) <==> k < n && !Test(a, k)
  {
    if n == 0 {
      TestZero(k);
    } else if k > 0 {
      TestNot(a / 2, n - 1, k - 1);
      assert (Pow2(n) - 1 - a) / 2 == Pow2(n - 1) - 1 - a / 2;
    }
  }

  lemma {:induction false} TestLow(low: nat, high: nat, n: nat, k: nat)
    requires k < n
    ensures Test(low + high * Pow2(n), k) <==> Test(low, k)
  {
    HalfOf(low, high, n);
    if k > 0 {
      TestLow(low / 2, high, n - 1, k - 1);
    }
  }

  lemma TestDiv256(a: nat, k: nat)
    ensures Test(a / 256, k) <==> Test(a, k + 8)
  {
    assert Test(a, k + 8) == Test(a / 2, k + 7) == Test(a / 2 / 2, k + 6) == Test(a / 2 / 2 / 2, k + 5);
    assert Test(a / 2 / 2 / 2, k + 5) == Test(a / 2 / 2 / 2 / 2, k + 4) == Test(a / 2 / 2 / 2 / 2 / 2, k + 3);
    assert Test(a / 2 / 2 / 2 / 2 / 2, k + 3) == Test(a / 2 / 2 / 2 / 2 / 2 / 2, k + 2);
    assert Test(a / 2 / 2 / 2 / 2 / 2 / 2, k + 2) == Test(a / 2 / 2 / 2 / 2 / 2 / 2 / 2, k + 1);
    assert a / 256 == a / 2 / 2 / 2 / 2 / 2 / 2 / 2 / 2;
  }

  /** Byte i of a word holds its bits 8i to 8i + 7. */
  lemma {:induction false} TestByte(v: nat, n: nat, i: nat, j: nat)
    requires i < n && j < 8
    ensures Test(LittleEndian(v, n)[i], j) <==> Test(v, 8 * i + j)
  {
    if i == 0 {
      assert Pow2(8) == 256 by { Pow2Plus8(0); }
      TestLow(v % 256, v / 256, 8, j);
    } else {
      TestByte(v / 256, n - 1, i - 1, j);
      TestDiv256(v, 8 * (i - 1) + j);
    }
  }

  lemma {:induction false} ReverseAt(bs: seq<byte>, i: nat)
    requires i < |bs|
    ensures Reverse(bs)[i] == bs[|bs| - 1 - i]
  {
    if i < |bs| - 1 {
      ReverseAt(bs[1..], i);
    }
  }

  /** The number of set bits. */
  function Ones(v: nat): nat {
    if v == 0 then 0 else v % 2 + Ones(v / 2)
  }

  /** v & (v - 1) clears the lowest set bit. */
  lemma {:induction false} ClearLowest(v: nat)
    requires v > 0
    ensures And(v, v - 1) < v && Ones(And(v, v - 1)) == Ones(v) - 1
  {
    if v % 2 == 1 {
      AndSelf(v / 2);
      assert (v - 1) / 2 == v / 2;
    } else {
      ClearLowest(v / 2);
      assert (v - 1) / 2 == v / 2 - 1;
    }
  }

  lemma {:induction false} AndSelf(v: nat)
    ensures And(v, v) == v
  {
    if v > 0 {
      AndSelf(v / 2);
    }
  }

  lemma {:induction false} OnesOfOnes(n: nat)
    ensures Ones(Pow2(n) - 1) == n
  {
    if n > 0 {
      OnesOfOnes(n - 1);
      assert (Pow2(n) - 1) / 2 == Pow2(n - 1) - 1 && (Pow2(n) - 1) % 2 == 1;
    }
  }

  lemma {:induction false} OnesNot(a: nat, n: nat)
    requires a < Pow2(n)
    ensures Ones(Pow2(n) - 1 - a) == n - Ones(a)
  {
    if n > 0 {
      OnesNot(a / 2, n - 1);
      assert (Pow2(n) - 1 - a) / 2 == Pow2(n - 1) - 1 - a / 2;
    }
  }

  function OnesOf(bs: seq<byte>): nat {
    if bs == [] then 0 else Ones(bs[0]) + OnesOf(bs[1..])
  }

  lemma {:induction false} OnesConcat(a: seq<byte>, b: seq<byte>)
    ensures OnesOf(a + b) == OnesOf(a) + OnesOf(b)
  {
    if a == [] {
      assert a + b == b;
    } else {
      OnesConcat(a[1..], b);
      assert (a + b)[1..] == a[1..] + b;
    }
  }

  lemma {:induction false} OnesReverse(bs: seq<byte>)
    ensures OnesOf(Reverse(bs)) == OnesOf(bs)
  {
    if bs != [] {
      OnesReverse(bs[1..]);
      OnesConcat(Reverse(bs[1..]), [bs[0]]);
      assert OnesOf([bs[0]]) == Ones(bs[0]) + OnesOf([]);
    }
  }

  lemma {:induction false} OnesSplit(low: nat, high: nat, n: nat)
    requires low < Pow2(n)
    ensures Ones(low + high * Pow2(n)) == Ones(low) + Ones(high)
  {
    if n > 0 {
      HalfOf(low, high, n);
      OnesSplit(low / 2, high, n - 1);
    }
  }

  /** The set bits of a word are those of its bytes. */
  lemma {:induction false} OnesBytes(v: nat, n: nat)
    requires v < Pow2(8 * n)
    ensures OnesOf(LittleEndian(v, n)) == Ones(v)
  {
    if n > 0 {
      Pow2Plus8(8 * (n - 1));
      OnesBytes(v / 256, n - 1);
      assert Pow2(8) == 256 by { Pow2Plus8(0); }
      OnesSplit(v % 256, v / 256, 8);
      assert LittleEndian(v, n)[1..] == LittleEndian(v / 256, n - 1);
    }
  }
}

/** Prefix masks of IPv4 and IPv6 addresses (section 3.1 of RFC 4632), bit by bit in network order. */
module Prefix {
  import opened Common
  import opened Bits
  import opened BitTests
  import opened Blocks
  import opened Words

  /** Bit i of an address in network order, from the front. */
  predicate NetBit(bs: seq<byte>, i: nat)
    requires i < 8 * |bs|
  {
    Test(bs[i / 8], 7 - i % 8)
  }

  /** `CreateMask<T>` for a T of the given size: 1 << n is computed in 32-bit integers, where n = 31 wraps and wider
      shifts are left open (`wide`), and the result is narrowed to T. */
  function CreateMask(size: nat, bits: nat, wide: nat -> nat): nat
    requires bits <= 8 * size
  {
    var n := 8 * size - bits;
    ((if n < 32 then Pow2(n) else wide(n)) as int - 1) % Pow2(8 * size)
  }

  lemma MaskMeaning(size: nat, bits: nat, wide: nat -> nat)
    requires bits <= 8 * size < bits + 32
    ensures CreateMask(size, bits, wide) == Pow2(8 * size - bits) - 1
  {
    Pow2Mono(8 * size - bits, 8 * size);
    Small(Pow2(8 * size - bits) - 1, Pow2(8 * size));
  }

  lemma Small(x: int, m: int)
    requires 0 <= x < m
    ensures x % m == x
  {
  }

  /** The loop of `CountBytes`: it counts the set bits. */
  method CountBytes(v: nat) returns (result: nat)
    ensures result == Ones(v)
  {
    result := 0;
    var value := v;
    while value != 0
      invariant result + Ones(value) == Ones(v)
      decreases value
    {
      ClearLowest(value);
      value := And(value, value - 1);
      result := result + 1;
    }
  }

  // ---------------------------------------------------------------- IPv4

  /** ~x on 32-bit words. */
  function Not32(x: nat): nat {
    if x < Pow2(32) then Pow2(32) - 1 - x else 0
  }

  /** `IPv4Address::SubnetAddress`, the word as stored on a little-endian machine. */
  function Subnet4(prefix: nat, wide: nat -> nat): nat
    requires prefix <= 32
  {
    Not32(ByteSwap(CreateMask(4, prefix, wide), 4))
  }

  /** `IPv4Address::BroadcastAddress`: refused past 32. */
  function Broadcast4(addr: nat, prefix: nat, wide: nat -> nat): (r: Option<nat>)
    ensures r.None? <==> prefix > 32
  {
    if prefix > 32 then None else Some(Or(addr, ByteSwap(CreateMask(4, prefix, wide), 4)))
  }

  /** Bit i of a stored word, in network order. */
  lemma StoredBit(v: nat, i: nat)
    requires i < 32
    ensures NetBit(LittleEndian(v, 4), i) <==> Test(v, 8 * (i / 8) + 7 - i % 8)
  {
    TestByte(v, 4, i / 8, 7 - i % 8);
  }

  /** Bit i of a swapped word is its bit 31 - i. */
  lemma SwappedBit(v: nat, i: nat)
    requires i < 32
    ensures NetBit(LittleEndian(ByteSwap(v, 4), 4), i) <==> Test(v, 31 - i)
  {
    SwapReverses(v, 4);
    ReverseAt(LittleEndian(v, 4), i / 8);
    TestByte(v, 4, 3 - i / 8, 7 - i % 8);
  }

  lemma HostBit(prefix: nat, i: nat, wide: nat -> nat)
    requires 1 <= prefix <= 32 && i < 32
    ensures Test(ByteSwap(CreateMask(4, prefix, wide), 4), 8 * (i / 8) + 7 - i % 8) <==> i >= prefix
  {
    MaskMeaning(4, prefix, wide);
    var m := CreateMask(4, prefix, wide);
    StoredBit(ByteSwap(m, 4), i);
    SwappedBit(m, i);
    TestOnes(32 - prefix, 31 - i);
  }

  lemma NotBit(x: nat, i: nat)
    requires x < Pow2(32) && i < 32
    ensures NetBit(LittleEndian(Not32(x), 4), i) <==> !Test(x, 8 * (i / 8) + 7 - i % 8)
  {
    StoredBit(Not32(x), i);
    TestNot(x, 32, 8 * (i / 8) + 7 - i % 8);
  }

  /** The subnet mask is that many leading ones. */
  lemma Subnet4Bits(prefix: nat, i: nat, wide: nat -> nat)
    requires 1 <= prefix <= 32 && i < 32
    ensures NetBit(LittleEndian(Subnet4(prefix, wide), 4), i) <==> i < prefix
  {
    SwapReverses(CreateMask(4, prefix, wide), 4);
    HostBit(prefix, i, wide);
    NotBit(ByteSwap(CreateMask(4, prefix, wide), 4), i);
  }

  lemma OnesSwap(v: nat)
    requires v < Pow2(32)
    ensures ByteSwap(v, 4) < Pow2(32) && Ones(ByteSwap(v, 4)) == Ones(v)
  {
    SwapReverses(v, 4);
    OnesBytes(ByteSwap(v, 4), 4);
    OnesReverse(LittleEndian(v, 4));
    OnesBytes(v, 4);
  }

  lemma OnesNot32(x: nat)
    requires x < Pow2(32)
    ensures Ones(Not32(x)) == 32 - Ones(x)
  {
    OnesNot(x, 32);
  }

  lemma MaskOnes(prefix: nat, wide: nat -> nat)
    requires 1 <= prefix <= 32
    ensures CreateMask(4, prefix, wide) < Pow2(32) && Ones(CreateMask(4, prefix, wide)) == 32 - prefix
  {
    MaskMeaning(4, prefix, wide);
    OnesOfOnes(32 - prefix);
    Pow2Mono(32 - prefix, 32);
  }

  /** Counting the set bits of the stored mask gives the prefix length back. */
  lemma Subnet4Length(prefix: nat, wide: nat -> nat)
    requires 1 <= prefix <= 32
    ensures Ones(Subnet4(prefix, wide)) == prefix
  {
    var m := CreateMask(4, prefix, wide);
    MaskOnes(prefix, wide);
    OnesSwap(m);
    OnesNot32(ByteSwap(m, 4));
  }

  /** The broadcast address agrees with the address on the prefix and has only ones after it. */
  lemma Broadcast4Bits(addr: nat, prefix: nat, i: nat, wide: nat -> nat)
    requires 1 <= prefix <= 32 && i < 32
    ensures var b := Broadcast4(addr, prefix, wide);
            b.Some? && (NetBit(LittleEndian(b.value, 4), i) <==> i >= prefix || NetBit(LittleEndian(addr, 4), i))
  {
    var m := ByteSwap(CreateMask(4, prefix, wide), 4);
    HostBit(prefix, i, wide);
    StoredBit(addr, i);
    StoredBit(Or(addr, m), i);
    TestOr(addr, m, 8 * (i / 8) + 7 - i % 8);
  }

  // ---------------------------------------------------------------- IPv6

  function Fill(b: byte, n: nat): (bs: seq<byte>)
    ensures |bs| == n && forall i :: 0 <= i < n ==> bs[i] == b
  {
    if n == 0 then [] else [b] + Fill(b, n - 1)
  }

  /** The host part of the byte the prefix ends in. */
  function HostMask(prefix: nat): byte {
    var r := prefix % 8;
    Pow2Mono(8 - r, 8);
    Pow2Plus8(0);
    Pow2(8 - r) - 1
  }

  /** The mask with that many leading ones. */
  function SubnetBytes(prefix: nat): (bs: seq<byte>)
    requires prefix < 128
    ensures |bs| == 16
  {
    Fill(255, prefix / 8) + [255 - HostMask(prefix)] + Fill(0, 15 - prefix / 8)
  }

  lemma OrByte(a: byte, b: byte)
    ensures Or(a, b) < 256
  {
    Pow2Plus8(0);
    OrBound(a, b, 8);
  }

  function BroadcastBytes(addr: seq<byte>, prefix: nat): (bs: seq<byte>)
    requires |addr| == 16 && prefix < 128
    ensures |bs| == 16
  {
    OrByte(addr[prefix / 8], HostMask(prefix));
    addr[..prefix / 8] + [Or(addr[prefix / 8], HostMask(prefix))] + Fill(255, 15 - prefix / 8)
  }

  lemma ByteMask(prefix: nat, wide: nat -> nat)
    ensures CreateMask(1, prefix % 8, wide) == HostMask(prefix)
  {
    MaskMeaning(1, prefix % 8, wide);
  }

  /** `IPv6Address::SubnetAddress`. */
  method SubnetAddress(prefix: nat, wide: nat -> nat) returns (address: array<byte>)
    requires prefix < 128
    ensures address[..] == SubnetBytes(prefix)
  {
    address := new byte[16](_ => 0);
    ByteMask(prefix, wide);
    address[prefix / 8] := 255 - CreateMask(1, prefix % 8, wide);
    var i := 0;
    while i < prefix / 8
      invariant 0 <= i <= prefix / 8
      invariant forall j :: 0 <= j < 16 ==>
                  address[j] == if j < i then 255 else if j == prefix / 8 then 255 - HostMask(prefix) else 0
    {
      address[i] := 0xff;
      i := i + 1;
    }
  }

  /** `IPv6Address::BroadcastAddress`. */
  method BroadcastAddress(addr: seq<byte>, prefix: nat, wide: nat -> nat) returns (address: array<byte>)
    requires |addr| == 16 && prefix < 128
    ensures address[..] == BroadcastBytes(addr, prefix)
  {
    address := new byte[16](i requires 0 <= i < 16 => addr[i]);
    ByteMask(prefix, wide);
    OrByte(addr[prefix / 8], HostMask(prefix));
    address[prefix / 8] := Or(address[prefix / 8], CreateMask(1, prefix % 8, wide));
    var i := prefix / 8 + 1;
    while i < 16
      invariant prefix / 8 < i <= 16
      invariant forall j :: 0 <= j < 16 ==>
                  address[j] == if j < prefix / 8 then addr[j]
                                else if j == prefix / 8 then Or(addr[j], HostMask(prefix))
                                else if j < i then 255 else addr[j]
    {
      address[i] := 0xff;
      i := i + 1;
    }
  }

  /** Bits of the byte the prefix ends in. */
  lemma HostMaskBits(prefix: nat, j: nat)
    requires j < 8
    ensures Test(HostMask(prefix), 7 - j) <==> j >= prefix % 8
    ensures Test(255 - HostMask(prefix), 7 - j) <==> j < prefix % 8
    ensures Test(255, 7 - j)
  {
    TestOnes(8 - prefix % 8, 7 - j);
    Pow2Plus8(0);
    TestNot(HostMask(prefix), 8, 7 - j);
    TestOnes(8, 7 - j);
  }

  /** The subnet mask is that many leading ones. */
  lemma Subnet6Bits(prefix: nat, i: nat)
    requires prefix < 128 && i < 128
    ensures NetBit(SubnetBytes(prefix), i) <==> i < prefix
  {
    HostMaskBits(prefix, i % 8);
    TestZero(7 - i % 8);
  }

  /** The broadcast address agrees with the address on the prefix and has only ones after it. */
  lemma Broadcast6Bits(addr: seq<byte>, prefix: nat, i: nat)
    requires |addr| == 16 && prefix < 128 && i < 128
    ensures NetBit(BroadcastBytes(addr, prefix), i) <==> i >= prefix || NetBit(addr, i)
  {
    HostMaskBits(prefix, i % 8);
    TestOr(addr[i / 8], HostMask(prefix), 7 - i % 8);
  }

  lemma Ones255()
    ensures Ones(255) == 8
  {
    OnesOfOnes(8);
    Pow2Plus8(0);
  }

  lemma {:induction false} OnesFull(n: nat)
    ensures OnesOf(Fill(255, n)) == 8 * n && OnesOf(Fill(0, n)) == 0
  {
    if n > 0 {
      OnesFull(n - 1);
      Ones255();
      assert Fill(255, n)[1..] == Fill(255, n - 1) && Fill(0, n)[1..] == Fill(0, n - 1);
    }
  }

  lemma OnesOne(x: byte)
    ensures OnesOf([x]) == Ones(x)
  {
    assert [x][1..] == [];
  }

  lemma OnesPartial(r: nat)
    requires r < 8
    ensures 1 <= Pow2(8 - r) <= 256 && Ones(256 - Pow2(8 - r)) == r
  {
    Pow2Mono(8 - r, 8);
    Pow2Plus8(0);
    OnesNot(Pow2(8 - r) - 1, 8);
    OnesOfOnes(8 - r);
  }

  lemma OnesLast(prefix: nat)
    ensures OnesOf([255 - HostMask(prefix)]) == prefix % 8
  {
    OnesPartial(prefix % 8);
    OnesOne(255 - HostMask(prefix));
  }

  lemma OnesThree(a: seq<byte>, b: seq<byte>, c: seq<byte>)
    ensures OnesOf(a + b + c) == OnesOf(a) + OnesOf(b) + OnesOf(c)
  {
    OnesConcat(a + b, c);
    OnesConcat(a, b);
  }

  /** Counting the set bits of all bytes gives the prefix length back. */
  lemma Subnet6Length(prefix: nat)
    requires prefix < 128
    ensures OnesOf(SubnetBytes(prefix)) == prefix
  {
    OnesLast(prefix);
    OnesFull(prefix / 8);
    OnesFull(15 - prefix / 8);
    OnesThree(Fill(255, prefix / 8), [255 - HostMask(prefix)], Fill(0, 15 - prefix / 8));
  }

  lemma OnesNext(bs: seq<byte>, i: nat)
    requires i < |bs|
    ensures OnesOf(bs[i..]) == Ones(bs[i]) + OnesOf(bs[i + 1..])
  {
    assert bs[i..][1..] == bs[i + 1..];
  }

  /** The prefix length of an interface: the set bits of the sixteen bytes of its mask. */
  method PrefixLength(netmask: seq<byte>) returns (prefixLen: nat)
    requires |netmask| == 16
    ensures prefixLen == OnesOf(netmask)
  {
    prefixLen := 0;
    var i := 0;
    while i < 16
      invariant 0 <= i <= 16 && prefixLen + OnesOf(netmask[i..]) == OnesOf(netmask)
    {
      var n := CountBytes(netmask[i]);
      OnesNext(netmask, i);
      prefixLen := prefixLen + n;
      i := i + 1;
    }
  }
}
