/** Variable-length integers and zigzag: what the loops compute, and the exact range in which they round-trip. */
module Varint {
  import opened Common
  import opened Arith
  import opened Bits
  import opened Blocks

  // ---------------------------------------------------------------- varint

  /** Groups of seven bits, low group first, all but the last marked. */
  function Groups(v: nat): seq<byte> {
    if v < 128 then [v] else [v % 128 + 128] + Groups(v / 128)
  }

  const TWO32: nat := 0x1_0000_0000

  /** `((uint32_t)x) << i`: for i of 32 or more the language leaves the result open; `wide` stands for it. */
  function Shl(x: nat, i: nat, wide: (nat, nat) -> nat): nat {
    (if i < 32 then x * Pow2(i) else wide(x, i)) % TWO32
  }

  /** The loop of `ReadUint32` (width 32) and `ReadUint64` (width 64) on the bytes still to be read: the
      value and the remaining bytes, or None where reading runs out of bytes. */
  function ReadGroups(bs: seq<byte>, i: nat, width: nat, acc: nat, wide: (nat, nat) -> nat): Option<(nat, seq<byte>)>
    decreases |bs|
  {
    if i >= width then Some((acc, bs))
    else if bs == [] then None
    else if bs[0] < 128 then Some((Or(acc, Shl(bs[0], i, wide)), bs[1..]))
    else ReadGroups(bs[1..], i + 7, width, Or(acc, Shl(And(bs[0], 0x7F), i, wide)), wide)
  }

  lemma And7F(b: nat)
    ensures And(b, 0x7F) == b % 128
  {
    Pow2Of7();
    AndLow(b, b % 128, b / 128, 7, 128);
  }

  lemma Pow2Of7()
    ensures Pow2(7) == 128
  {
    Pow2Plus7(0);
  }

  lemma Pow2Plus7(i: nat)
    ensures Pow2(i + 7) == 128 * Pow2(i)
  {
    assert Pow2(i + 7) == 2 * Pow2(i + 6) && Pow2(i + 6) == 2 * Pow2(i + 5) && Pow2(i + 5) == 2 * Pow2(i + 4);
    assert Pow2(i + 4) == 2 * Pow2(i + 3) && Pow2(i + 3) == 2 * Pow2(i + 2) && Pow2(i + 2) == 2 * Pow2(i + 1);
  }

  lemma Pow2Of32()
    ensures Pow2(32) == TWO32
  {
    Pow2Sum(16, 16);
    Pow2Sum(8, 8);
  }

  lemma ShlSmall(x: nat, i: nat, wide: (nat, nat) -> nat)
    requires i < 32 && x * Pow2(i) < TWO32
    ensures Shl(x, i, wide) == x * Pow2(i)
  {
  }

  /** One group: or-ing the shifted group into the accumulator adds it. */
  lemma GroupStep(acc: nat, x: nat, i: nat, wide: (nat, nat) -> nat)
    requires acc < Pow2(i) && x < 128 && i < 32 && x * Pow2(i) < TWO32
    ensures Or(acc, Shl(x, i, wide)) == acc + x * Pow2(i)
    ensures acc + x * Pow2(i) < Pow2(i + 7)
  {
    ShlSmall(x, i, wide);
    OrDisjoint(acc, x, i);
    Pow2Plus7(i);
    MulMono(Pow2(i), x, 127);
  }

  lemma SplitGroup(v: nat, p: nat)
    ensures v * p == (v % 128) * p + (v / 128) * (128 * p)
    ensures (v % 128) * p <= v * p && (v / 128) * (128 * p) <= v * p
  {
    assert v == v % 128 + 128 * (v / 128);
    assert v * p == (v % 128) * p + (128 * (v / 128)) * p;
    assert (128 * (v / 128)) * p == (v / 128) * (128 * p);
  }

  lemma ReadMarked(bs: seq<byte>, i: nat, width: nat, acc: nat, next: nat, wide: (nat, nat) -> nat)
    requires i < width && bs != [] && bs[0] >= 128 && next == Or(acc, Shl(And(bs[0], 0x7F), i, wide))
    ensures ReadGroups(bs, i, width, acc, wide) == ReadGroups(bs[1..], i + 7, width, next, wide)
  {
  }

  /** What is left after one marked group, shifted. */
  lemma RestOfGroups(v: nat, i: nat)
    requires v >= 128 && v * Pow2(i) < TWO32
    ensures (v % 128) * Pow2(i) < TWO32 && (v / 128) * Pow2(i + 7) < TWO32 && i + 7 < 32
    ensures (v % 128) * Pow2(i) + (v / 128) * Pow2(i + 7) == v * Pow2(i)
  {
    SplitGroup(v, Pow2(i));
    RoomForMore(v / 128, i);
    Pow2Plus7(i);
  }

  lemma MarkedByte(v: nat)
    ensures And(v % 128 + 128, 0x7F) == v % 128
  {
    Pow2Of7();
    AndLow(v % 128 + 128, v % 128, 1, 7, 128);
  }

  /** The arithmetic of one marked group. */
  lemma MarkedGroup(v: nat, i: nat, acc: nat, wide: (nat, nat) -> nat)
    requires v >= 128 && i < 32 && acc < Pow2(i) && v * Pow2(i) < TWO32
    ensures var next := acc + (v % 128) * Pow2(i);
            && Or(acc, Shl(And(v % 128 + 128, 0x7F), i, wide)) == next < Pow2(i + 7)
            && next + (v / 128) * Pow2(i + 7) == acc + v * Pow2(i)
    ensures i + 7 < 32 && (v / 128) * Pow2(i + 7) < TWO32
  {
    RestOfGroups(v, i);
    MarkedByte(v);
    GroupStep(acc, v % 128, i, wide);
  }

  /** The first byte of an encoding, and what follows it. */
  lemma GroupsSplit(v: nat, tail: seq<byte>)
    ensures var bs := Groups(v) + tail;
            && bs[0] == (if v < 128 then v else v % 128 + 128)
            && bs[1..] == if v < 128 then tail else Groups(v / 128) + tail
  {
    if v < 128 {
      HeadAndRest(v, [], tail);
    } else {
      HeadAndRest(v % 128 + 128, Groups(v / 128), tail);
    }
  }

  lemma HeadAndRest(x: byte, rest: seq<byte>, tail: seq<byte>)
    ensures ([x] + rest + tail)[0] == x && ([x] + rest + tail)[1..] == rest + tail
    ensures rest == [] ==> [x] + rest == [x] && rest + tail == tail
  {
  }

  /** Reading a varint from bit i on adds it, shifted, to what was read. */
  lemma {:induction false} ReadsBack(v: nat, i: nat, width: nat, acc: nat, tail: seq<byte>, wide: (nat, nat) -> nat)
    requires i < 32 <= width && acc < Pow2(i) && v * Pow2(i) < TWO32
    ensures ReadGroups(Groups(v) + tail, i, width, acc, wide) == Some((acc + v * Pow2(i), tail))
    decreases v
  {
    GroupsSplit(v, tail);
    if v < 128 {
      GroupStep(acc, v, i, wide);
    } else {
      var bs := Groups(v) + tail;
      var next := acc + (v % 128) * Pow2(i);
      MarkedGroup(v, i, acc, wide);
      ReadsBack(v / 128, i + 7, width, next, tail, wide);
      ReadMarked(bs, i, width, acc, next, wide);
    }
  }

  lemma RoomForMore(rest: nat, i: nat)
    requires rest >= 1 && rest * (128 * Pow2(i)) < TWO32
    ensures i + 7 < 32
  {
    MulMono(128 * Pow2(i), 1, rest);
    Pow2Plus7(i);
    if i + 7 >= 32 {
      Pow2Of32();
      Pow2Mono(32, i + 7);
    }
  }

  /** What either loop returns fits 32 bits, because every group is narrowed before it is or-ed in. */
  lemma {:induction false} ReadsNarrow(bs: seq<byte>, i: nat, width: nat, acc: nat, wide: (nat, nat) -> nat)
    requires acc < TWO32
    ensures var r := ReadGroups(bs, i, width, acc, wide); r.Some? ==> r.value.0 < TWO32
    decreases |bs|
  {
    if i < width && bs != [] {
      Pow2Of32();
      if bs[0] < 128 {
        OrBound(acc, Shl(bs[0], i, wide), 32);
      } else {
        OrBound(acc, Shl(And(bs[0], 0x7F), i, wide), 32);
        ReadsNarrow(bs[1..], i + 7, width, Or(acc, Shl(And(bs[0], 0x7F), i, wide)), wide);
      }
    }
  }

  // ---------------------------------------------------------------- any bytes, not only encodings

  /** How many groups a loop reads at most from bit i on. */
  function GroupsLeft(i: nat, width: nat): nat {
    if i >= width then 0 else (width - i + 6) / 7
  }

  /** The first k bytes are marked, and the next one, if any, is not. */
  predicate Marked(bs: seq<byte>, k: nat) {
    k <= |bs| && (forall j :: 0 <= j < k ==> bs[j] >= 128) && (k < |bs| ==> bs[k] < 128)
  }

  /** How many bytes a loop wants: up to an unmarked one, or as many as the width has room for. */
  function Wanted(i: nat, width: nat, k: nat): nat {
    if GroupsLeft(i, width) <= k then GroupsLeft(i, width) else k + 1
  }

  lemma WantedNext(i: nat, width: nat, k: nat)
    requires i < width && k > 0
    ensures Wanted(i, width, k) == 1 + Wanted(i + 7, width, k - 1)
  {
  }

  /** On any bytes: a loop runs out of bytes exactly when there are fewer than it wants, and otherwise leaves those
      after them. */
  lemma {:induction false} ReadsUntil(bs: seq<byte>, i: nat, width: nat, acc: nat, wide: (nat, nat) -> nat, k: nat)
    requires Marked(bs, k)
    ensures var r, c := ReadGroups(bs, i, width, acc, wide), Wanted(i, width, k);
            if c <= |bs| then r.Some? && r.value.1 == bs[c..] else r.None?
    decreases |bs|
  {
    if i < width && k > 0 {
      var next := Or(acc, Shl(And(bs[0], 0x7F), i, wide));
      ReadsUntil(bs[1..], i + 7, width, next, wide, k - 1);
      ReadMarked(bs, i, width, acc, next, wide);
      WantedNext(i, width, k);
    }
  }

  /** The number that groups stand for, low group first, marked or not. */
  function GroupSum(bs: seq<byte>): nat {
    if bs == [] then 0 else bs[0] % 128 + 128 * GroupSum(bs[1..])
  }

  /** What is left of a group scaled by p, where p * q is the modulus. */
  lemma WrapScaled(x: nat, p: nat, q: nat, m: nat) returns (y: nat)
    requires p > 0 && q > 0 && p * q == m
    ensures (x * p) % m == y * p && (y + 1) * p <= m
  {
    var z := x / q;
    y := x % q;
    ScaledSplit(x, p, q, z, y);
    MulMono(p, y + 1, q);
    QuotientRemainder(x * p, m, z, y * p);
  }

  lemma ShlWraps(x: nat, i: nat) returns (y: nat)
    requires i < 32
    ensures (x * Pow2(i)) % TWO32 == y * Pow2(i) && (y + 1) * Pow2(i) <= TWO32
  {
    Pow2Sum(i, 32 - i);
    Pow2Of32();
    y := WrapScaled(x, Pow2(i), Pow2(32 - i), TWO32);
  }

  lemma ScaledSplit(x: nat, p: nat, q: nat, z: nat, y: nat)
    requires q > 0 && z == x / q && y == x % q
    ensures x * p == (p * q) * z + y * p
  {
    assert x == q * z + y;
    assert (q * z + y) * p == (q * z) * p + y * p;
    assert (q * z) * p == (p * q) * z;
  }

  lemma AddWraps(a: nat, b: nat, low: nat)
    requires a % TWO32 == low && low + b < TWO32
    ensures (a + b) % TWO32 == low + b
  {
  }

  lemma FitsBelow(acc: nat, y: nat, p: nat)
    requires acc < p && (y + 1) * p <= TWO32
    ensures y * p + acc < TWO32
  {
    assert (y + 1) * p == y * p + p;
  }

  lemma ShlIsWrapped(x: nat, i: nat, wide: (nat, nat) -> nat, low: nat)
    requires i < 32 && (x * Pow2(i)) % TWO32 == low
    ensures Shl(x, i, wide) == low
  {
  }

  /** Or-ing a shifted group in adds it, up to wrap-around. */
  lemma GroupWraps(acc: nat, x: nat, i: nat, wide: (nat, nat) -> nat)
    requires i < 32 && acc < Pow2(i)
    ensures Or(acc, Shl(x, i, wide)) == (acc + x * Pow2(i)) % TWO32
  {
    var y := ShlWraps(x, i);
    var a, low := x * Pow2(i), y * Pow2(i);
    ShlIsWrapped(x, i, wide, low);
    OrDisjoint(acc, y, i);
    FitsBelow(acc, y, Pow2(i));
    AddWraps(a, acc, low);
  }

  lemma WrapsTwice(a: nat, b: nat)
    ensures (a % TWO32 + b) % TWO32 == (a + b) % TWO32
  {
  }

  lemma WrapLess(a: nat, p: nat)
    requires a < p
    ensures a % TWO32 < p && a % TWO32 < TWO32
  {
  }

  lemma SumNext(acc: nat, x: nat, rest: nat, p: nat)
    ensures acc + x * p + rest * (128 * p) == acc + (x + 128 * rest) * p
  {
    assert rest * (128 * p) == (128 * rest) * p;
    assert (x + 128 * rest) * p == x * p + (128 * rest) * p;
  }

  lemma ScaledLess(acc: nat, x: nat, p: nat)
    requires acc < p && x < 128
    ensures acc + x * p < 128 * p
  {
    MulMono(p, x, 127);
  }

  lemma NextGroup(acc: nat, x: nat, i: nat, wide: (nat, nat) -> nat)
    requires acc < Pow2(i) && i < 32 && x < 128
    ensures var next := Or(acc, Shl(x, i, wide));
            next == (acc + x * Pow2(i)) % TWO32 && next < Pow2(i + 7) && next < TWO32
  {
    GroupWraps(acc, x, i, wide);
    Pow2Plus7(i);
    WrappedLess(acc, x, Pow2(i), Pow2(i + 7));
  }

  lemma WrappedLess(acc: nat, x: nat, p: nat, q: nat)
    requires acc < p && x < 128 && q == 128 * p
    ensures (acc + x * p) % TWO32 < q && (acc + x * p) % TWO32 < TWO32
  {
    ScaledLess(acc, x, p);
    WrapLess(acc + x * p, q);
  }

  lemma ReadsSumMore(b: byte, i: nat, acc: nat, next: nat, wide: (nat, nat) -> nat)
    requires acc < Pow2(i) && i < 32 && next == Or(acc, Shl(And(b, 0x7F), i, wide))
    ensures next == (acc + (b % 128) * Pow2(i)) % TWO32 && next < Pow2(i + 7) && next < TWO32
  {
    And7F(b);
    NextGroup(acc, b % 128, i, wide);
  }

  /** The loop reads c bytes and adds, up to wrap-around, the number they stand for to what it had. */
  predicate ReadsTo(bs: seq<byte>, i: nat, width: nat, acc: nat, wide: (nat, nat) -> nat, c: nat)
    requires c <= |bs|
  {
    ReadGroups(bs, i, width, acc, wide) == Some(((acc + GroupSum(bs[..c]) * Pow2(i)) % TWO32, bs[c..]))
  }

  lemma ReadsSumNone(bs: seq<byte>, i: nat, width: nat, acc: nat, wide: (nat, nat) -> nat)
    requires i >= width && acc < TWO32
    ensures ReadsTo(bs, i, width, acc, wide, 0)
  {
    assert GroupSum(bs[..0]) == 0 && bs[0..] == bs;
  }

  lemma ReadsSumLast(bs: seq<byte>, i: nat, width: nat, acc: nat, wide: (nat, nat) -> nat)
    requires bs != [] && bs[0] < 128 && i < width && i < 32 && acc < Pow2(i)
    ensures ReadsTo(bs, i, width, acc, wide, 1)
  {
    GroupWraps(acc, bs[0], i, wide);
    assert bs[..1] == [bs[0]];
    assert GroupSum([bs[0]]) == bs[0];
  }

  lemma ReadsSumGroup(bs: seq<byte>, i: nat, width: nat, acc: nat, next: nat, wide: (nat, nat) -> nat, c: nat)
    requires 0 < c <= |bs| && i < width && bs[0] >= 128 && next == Or(acc, Shl(And(bs[0], 0x7F), i, wide))
    requires next == (acc + (bs[0] % 128) * Pow2(i)) % TWO32
    requires ReadsTo(bs[1..], i + 7, width, next, wide, c - 1)
    ensures ReadsTo(bs, i, width, acc, wide, c)
  {
    ReadMarked(bs, i, width, acc, next, wide);
    SumStep(bs, i, acc, next, c);
    assert bs[1..][c - 1..] == bs[c..];
  }

  lemma MarkedRest(bs: seq<byte>, k: nat)
    requires Marked(bs, k) && k > 0
    ensures bs[0] >= 128 && Marked(bs[1..], k - 1)
  {
  }

  lemma WantedZero(i: nat, width: nat, k: nat)
    ensures i >= width ==> Wanted(i, width, k) == 0
    ensures i < width ==> Wanted(i, width, k) >= 1
    ensures i < width && k == 0 ==> Wanted(i, width, k) == 1
  {
  }

  /** On any bytes, as long as no group is shifted by 32 or more, the result is the number that the bytes read stand
      for, up to wrap-around: superfluous groups and bits past the 32nd do not matter. */
  lemma {:induction false} ReadsSum(
      bs: seq<byte>, i: nat, width: nat, acc: nat, wide: (nat, nat) -> nat, k: nat, c: nat)
    requires Marked(bs, k) && acc < Pow2(i) && acc < TWO32
    requires c == Wanted(i, width, k) <= |bs| && i + 7 * c < 39
    ensures ReadsTo(bs, i, width, acc, wide, c)
    decreases |bs|
  {
    WantedZero(i, width, k);
    if i >= width {
      ReadsSumNone(bs, i, width, acc, wide);
    } else if k == 0 {
      ReadsSumLast(bs, i, width, acc, wide);
    } else {
      var next := Or(acc, Shl(And(bs[0], 0x7F), i, wide));
      WantedNext(i, width, k);
      ReadsSumMore(bs[0], i, acc, next, wide);
      MarkedRest(bs, k);
      ReadsSum(bs[1..], i + 7, width, next, wide, k - 1, c - 1);
      ReadsSumGroup(bs, i, width, acc, next, wide, c);
    }
  }

  lemma SumStep(bs: seq<byte>, i: nat, acc: nat, next: nat, c: nat)
    requires 0 < c <= |bs| && next == (acc + (bs[0] % 128) * Pow2(i)) % TWO32
    ensures (next + GroupSum(bs[1..][..c - 1]) * Pow2(i + 7)) % TWO32 == (acc + GroupSum(bs[..c]) * Pow2(i)) % TWO32
  {
    var rest := GroupSum(bs[1..][..c - 1]);
    assert bs[..c][1..] == bs[1..][..c - 1];
    Pow2Plus7(i);
    WrapsTwice(acc + (bs[0] % 128) * Pow2(i), rest * Pow2(i + 7));
    SumNext(acc, bs[0] % 128, rest, Pow2(i));
  }

  /** 32-bit varints round-trip for every value, leaving the bytes after them. */
  lemma Varint32RoundTrip(v: nat, tail: seq<byte>, wide: (nat, nat) -> nat)
    requires v < TWO32
    ensures ReadGroups(Groups(v) + tail, 0, 32, 0, wide) == Some((v, tail))
  {
    ReadsBack(v, 0, 32, 0, tail, wide);
  }

  /** 64-bit varints round-trip exactly for the values below 2^32, whatever an over-wide shift yields. */
  lemma Varint64RoundTrip(v: nat, tail: seq<byte>, wide: (nat, nat) -> nat)
    ensures v < TWO32 ==> ReadGroups(Groups(v) + tail, 0, 64, 0, wide) == Some((v, tail))
    ensures v >= TWO32 ==> forall rest :: ReadGroups(Groups(v) + tail, 0, 64, 0, wide) != Some((v, rest))
  {
    if v < TWO32 {
      ReadsBack(v, 0, 64, 0, tail, wide);
    } else {
      ReadsNarrow(Groups(v) + tail, 0, 64, 0, wide);
    }
  }

  /** The encoding uses as few groups as the value needs. */
  lemma {:induction false} VarintLength(v: nat)
    ensures var n := |Groups(v)|; n >= 1 && v < Pow2(7 * n) && (n > 1 ==> Pow2(7 * (n - 1)) <= v)
    decreases v
  {
    Pow2Plus7(0);
    if v >= 128 {
      VarintLength(v / 128);
      var m := |Groups(v / 128)|;
      Pow2Plus7(7 * m);
      if m > 1 {
        Pow2Plus7(7 * (m - 1));
      }
    }
  }

  /** At most 5 bytes below 2^32 and 10 below 2^64: the fixed arrays of the writers are never overrun. */
  lemma VarintFits(v: nat, bits: nat, n: nat)
    requires v < Pow2(bits) && n >= 1 && bits <= 7 * n
    ensures |Groups(v)| <= n
  {
    VarintLength(v);
    var m := |Groups(v)|;
    if m > n {
      Pow2Mono(bits, 7 * (m - 1));
    }
  }

  /** No encoding is a prefix of another. */
  lemma {:induction false} VarintPrefixFree(a: nat, b: nat, s: seq<byte>, t: seq<byte>)
    requires Groups(a) + s == Groups(b) + t
    ensures a == b && s == t
    decreases a
  {
    GroupsSplit(a, s);
    GroupsSplit(b, t);
    if a >= 128 && b >= 128 {
      VarintPrefixFree(a / 128, b / 128, s, t);
      SameGroups(a, b);
    }
  }

  lemma SameGroups(a: nat, b: nat)
    requires a / 128 == b / 128 && a % 128 == b % 128
    ensures a == b
  {
  }
}

/** The arithmetic zigzag encoder and the shift-xor decoder, in w-bit wrap-around arithmetic. */
module Zigzag {
  import opened Bits

  /** The w-bit signed range. */
  predicate IsSigned(v: int, w: nat)
    requires w > 0
  {
    && 0 <= v + Pow2(w - 1)
    && v < Pow2(w - 1)
  }

  /** The value that wrap-around leaves of x. */
  function Wrap(x: int, m: int): nat
    requires m > 0
  {
    x % m
  }

  /** Negation of an unsigned word of the given modulus. */
  function Negate(x: nat, m: nat): nat
    requires x <= m
  {
    if x == 0 then 0 else m - x
  }

  /** The two's complement reading of a word of the given modulus. */
  function AsSigned(u: int, m: int): int {
    if 2 * u >= m then u - m else u
  }

  /** `EncodeZigzag32/64`: negatives are negated, doubled and reduced by one, the others doubled. */
  function EncodeMod(v: int, m: int): nat
    requires m > 0
  {
    if v < 0 then Wrap(Wrap(0 - v, m) * 2 - 1, m) else Wrap(v * 2, m)
  }

  function Encode(v: int, w: nat): (u: nat)
    ensures u < Pow2(w)
  {
    EncodeMod(v, Pow2(w))
  }

  lemma And1(u: nat)
    ensures And(u, 1) == u % 2
  {
    assert Pow2(1) == 2;
    AndLow(u, u % 2, u / 2, 1, 2);
  }

  /** `DecodeZigzag32/64`: (u >> 1) ^ -(u & 1). */
  function Decode(u: nat, w: nat): int
    requires u < Pow2(w)
  {
    And1(u);
    AsSigned(Xor(u / 2, Negate(And(u, 1), Pow2(w))), Pow2(w))
  }

  lemma Wraps(x: int, m: int)
    requires 0 <= x < m
    ensures Wrap(x, m) == x
  {
  }

  lemma EncodeNegative(v: int, m: int)
    requires v < 0 && 0 - 2 * v <= m
    ensures EncodeMod(v, m) == 0 - 2 * v - 1
  {
    Wraps(0 - v, m);
    var x := 0 - 2 * v - 1;
    assert Wrap(0 - v, m) * 2 - 1 == x;
    Wraps(x, m);
  }

  lemma EncodePositive(v: int, m: int)
    requires 0 <= 2 * v < m
    ensures EncodeMod(v, m) == 2 * v
  {
    Wraps(2 * v, m);
  }

  /** Non-negative numbers become the even codes and negative ones the odd codes, the minimum included. */
  lemma EncodeMeaning(v: int, w: nat)
    requires w > 0 && IsSigned(v, w)
    ensures Encode(v, w) == if v < 0 then 0 - 2 * v - 1 else 2 * v
    ensures Encode(v, w) < Pow2(w)
  {
    if v < 0 {
      EncodeNegative(v, Pow2(w));
    } else {
      EncodePositive(v, Pow2(w));
    }
  }

  lemma DecodeEven(u: nat, w: nat)
    requires u % 2 == 0 && u < Pow2(w)
    ensures Decode(u, w) == AsSigned(u / 2, Pow2(w))
  {
    And1(u);
  }

  lemma DecodeOdd(u: nat, w: nat)
    requires u % 2 == 1 && u < Pow2(w)
    ensures Decode(u, w) == AsSigned(Pow2(w) - 1 - u / 2, Pow2(w))
  {
    And1(u);
    XorOnes(u / 2, w);
  }

  /** Even codes are halved; odd codes are halved and complemented. */
  lemma DecodeMeaning(u: nat, w: nat)
    requires w > 0 && u < Pow2(w)
    ensures Decode(u, w) == if u % 2 == 0 then u / 2 else 0 - u / 2 - 1
    ensures IsSigned(Decode(u, w), w)
  {
    if u % 2 == 0 {
      DecodeEven(u, w);
    } else {
      DecodeOdd(u, w);
    }
  }

  /** Encoder and decoder are inverse to each other on all w-bit values, in both directions. */
  lemma DecodeEncode(v: int, w: nat)
    requires w > 0 && IsSigned(v, w)
    ensures Decode(Encode(v, w), w) == v
  {
    EncodeMeaning(v, w);
    DecodeMeaning(Encode(v, w), w);
  }

  lemma EncodeDecode(u: nat, w: nat)
    requires w > 0 && u < Pow2(w)
    ensures IsSigned(Decode(u, w), w) && Encode(Decode(u, w), w) == u
  {
    DecodeMeaning(u, w);
    EncodeMeaning(Decode(u, w), w);
  }
}
