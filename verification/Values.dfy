/** Fixed-width words in memory, and byte swapping. */
module Words {
  import opened Arith
  import opened Bits
  import opened Blocks

  /** The n low bytes of v, low byte first. */
  function LittleEndian(v: nat, n: nat): (bs: seq<byte>)
    ensures |bs| == n
  {
    if n == 0 then [] else [v % 256] + LittleEndian(v / 256, n - 1)
  }

  function FromLittleEndian(bs: seq<byte>): nat {
    if bs == [] then 0 else bs[0] + 256 * FromLittleEndian(bs[1..])
  }

  function Reverse(bs: seq<byte>): (r: seq<byte>)
    ensures |r| == |bs|
  {
    if bs == [] then [] else Reverse(bs[1..]) + [bs[0]]
  }

  /** `bswap`: the word whose bytes are those of v in the opposite order. */
  function ByteSwap(v: nat, n: nat): nat {
    FromLittleEndian(Reverse(LittleEndian(v, n)))
  }

  lemma Pow2Plus8(i: nat)
    ensures Pow2(i + 8) == 256 * Pow2(i)
  {
    assert Pow2(i + 8) == 2 * Pow2(i + 7) && Pow2(i + 7) == 2 * Pow2(i + 6) && Pow2(i + 6) == 2 * Pow2(i + 5);
    assert Pow2(i + 5) == 2 * Pow2(i + 4) && Pow2(i + 4) == 2 * Pow2(i + 3) && Pow2(i + 3) == 2 * Pow2(i + 2);
    assert Pow2(i + 2) == 2 * Pow2(i + 1);
  }

  /** The bytes of a word determine it. */
  lemma {:induction false} WordRoundTrip(v: nat, n: nat)
    requires v < Pow2(8 * n)
    ensures FromLittleEndian(LittleEndian(v, n)) == v
  {
    if n > 0 {
      Pow2Plus8(8 * (n - 1));
      WordRoundTrip(v / 256, n - 1);
    }
  }

  /** Every n bytes are the bytes of an n-byte word. */
  lemma {:induction false} BytesRoundTrip(bs: seq<byte>)
    ensures FromLittleEndian(bs) < Pow2(8 * |bs|)
    ensures LittleEndian(FromLittleEndian(bs), |bs|) == bs
  {
    if bs != [] {
      var v := FromLittleEndian(bs[1..]);
      BytesRoundTrip(bs[1..]);
      Pow2Plus8(8 * (|bs| - 1));
      LowByte(bs[0], v);
      LittleEndianStep(bs[0], v, |bs|);
      assert bs == [bs[0]] + bs[1..];
    }
  }

  lemma LowByte(x: byte, v: nat)
    ensures (x + 256 * v) % 256 == x && (x + 256 * v) / 256 == v
  {
  }

  lemma LittleEndianStep(x: byte, v: nat, n: nat)
    requires n > 0
    ensures LittleEndian(x + 256 * v, n) == [x] + LittleEndian(v, n - 1)
  {
    LowByte(x, v);
  }

  lemma {:induction false} ReverseLast(bs: seq<byte>, x: byte)
    ensures Reverse(bs + [x]) == [x] + Reverse(bs)
  {
    if bs != [] {
      ReverseLast(bs[1..], x);
      assert (bs + [x])[1..] == bs[1..] + [x];
    }
  }

  lemma {:induction false} ReverseTwice(bs: seq<byte>)
    ensures Reverse(Reverse(bs)) == bs
  {
    if bs != [] {
      ReverseTwice(bs[1..]);
      ReverseLast(Reverse(bs[1..]), bs[0]);
    }
  }

  /** Swapping reverses the bytes in memory, and swapping twice gives the word back. */
  lemma SwapReverses(v: nat, n: nat)
    ensures ByteSwap(v, n) < Pow2(8 * n)
    ensures LittleEndian(ByteSwap(v, n), n) == Reverse(LittleEndian(v, n))
    ensures v < Pow2(8 * n) ==> ByteSwap(ByteSwap(v, n), n) == v
  {
    BytesRoundTrip(Reverse(LittleEndian(v, n)));
    ReverseTwice(LittleEndian(v, n));
    if v < Pow2(8 * n) {
      WordRoundTrip(v, n);
    }
  }

  /** The memory of a word on a machine of the given byte order, and back. */
  function Store(v: nat, n: nat, hostLittle: bool): (bs: seq<byte>)
    ensures |bs| == n
  {
    if hostLittle then LittleEndian(v, n) else Reverse(LittleEndian(v, n))
  }

  function Load(bs: seq<byte>, hostLittle: bool): nat {
    FromLittleEndian(if hostLittle then bs else Reverse(bs))
  }

  /** `WriteFuint16/32/64`: swapped when the wanted order is not the machine's; a single byte is never swapped. */
  function PutWord(v: nat, n: nat, little: bool, hostLittle: bool): (bs: seq<byte>)
    ensures |bs| == n
  {
    Store(if n > 1 && little != hostLittle then ByteSwap(v, n) else v, n, hostLittle)
  }

  /** `ReadFuint16/32/64`. */
  function GetWord(bs: seq<byte>, little: bool, hostLittle: bool): nat {
    var v := Load(bs, hostLittle);
    if |bs| > 1 && little != hostLittle then ByteSwap(v, |bs|) else v
  }

  /** What is written depends on the wanted order alone, not on the machine. */
  lemma PutWordIsPortable(v: nat, n: nat, little: bool, hostLittle: bool)
    ensures PutWord(v, n, little, hostLittle) == if little then LittleEndian(v, n) else Reverse(LittleEndian(v, n))
  {
    SwapReverses(v, n);
    ReverseTwice(LittleEndian(v, n));
    if n == 1 {
      assert Reverse([v % 256]) == [v % 256];
      assert LittleEndian(v, n) == [v % 256];
    } else if n == 0 {
      assert LittleEndian(v, n) == [] && Reverse([]) == [];
    }
  }

  /** The same for what is read. */
  lemma GetWordIsPortable(bs: seq<byte>, little: bool, hostLittle: bool)
    ensures GetWord(bs, little, hostLittle) == FromLittleEndian(if little then bs else Reverse(bs))
  {
    var x := if hostLittle then bs else Reverse(bs);
    BytesRoundTrip(x);
    ReverseTwice(bs);
    if |bs| == 1 {
      assert bs == [bs[0]] && Reverse(bs) == [bs[0]];
    } else if |bs| == 0 {
      assert Reverse(bs) == bs;
    }
  }

  /** A word written in one order by one machine is read in that order by any other. */
  lemma PutThenGet(v: nat, n: nat, little: bool, writer: bool, reader: bool)
    requires v < Pow2(8 * n)
    ensures GetWord(PutWord(v, n, little, writer), little, reader) == v
  {
    PutWordIsPortable(v, n, little, writer);
    GetWordIsPortable(PutWord(v, n, little, writer), little, reader);
    ReverseTwice(LittleEndian(v, n));
    WordRoundTrip(v, n);
  }
}

/** Typed values as bytes: each kind of `Write…` and `Read…`, and whole lists of them. */
module Values {
  import opened Bits
  import opened Blocks
  import opened Common
  import opened Words
  import opened Varint
  import Zigzag

  type pos = n: nat | n > 0 witness 1

  /** The kinds of value: words of 1, 2, 4 or 8 bytes, varints (zigzag when signed), and strings behind a
      fixed-width or varint length. */
  datatype Kind = Fixed(bytes: pos, signed: bool) | Var(long: bool, signed: bool) | Str(prefix: pos) | StrVint

  datatype Value = Num(n: int) | Text(s: seq<byte>)

  /** What the code leaves to the machine: its byte order, and shifts wider than the shifted word. */
  datatype Machine = Machine(hostLittle: bool, wide: (nat, nat) -> nat)

  function Width(long: bool): pos {
    if long then 64 else 32
  }

  predicate InWord(n: int, w: pos, signed: bool) {
    if signed then Zigzag.IsSigned(n, w) else 0 <= n < Pow2(w)
  }

  /** The values the C++ argument types admit. */
  predicate Admits(k: Kind, v: Value) {
    match k
    case Fixed(b, signed) => v.Num? && InWord(v.n, 8 * b, signed)
    case Var(long, signed) => v.Num? && InWord(v.n, Width(long), signed)
    case Str(_) => v.Text? && |v.s| < Pow2(64)
    case StrVint => v.Text? && |v.s| < Pow2(64)
  }

  /** The word of a signed number. */
  function Word(n: int, w: pos, signed: bool): nat
    requires InWord(n, w, signed)
  {
    if n < 0 then n + Pow2(w) else n
  }

  function Unword(u: nat, w: pos, signed: bool): int {
    if signed then Zigzag.AsSigned(u, Pow2(w)) else u
  }

  function Code(n: int, w: pos, signed: bool): nat
    requires InWord(n, w, signed)
  {
    if signed then Zigzag.Encode(n, w) else n
  }

  /** A word is the number itself, or its two's complement. */
  lemma WordMeaning(n: int, w: pos, signed: bool)
    requires InWord(n, w, signed)
    ensures 0 <= n ==> Word(n, w, signed) == n
    ensures n < 0 ==> signed && Word(n, w, signed) == n + Pow2(w)
  {
  }

  /** What the `Write…` of the kind appends. */
  function Encode(k: Kind, v: Value, little: bool, host: bool): seq<byte>
    requires Admits(k, v)
  {
    match k
    case Fixed(b, signed) => PutWord(Word(v.n, 8 * b, signed), b, little, host)
    case Var(long, signed) => Groups(Code(v.n, Width(long), signed))
    case Str(p) => PutWord(|v.s| % Pow2(8 * p), p, little, host) + v.s
    case StrVint => Groups(|v.s|) + v.s
  }

  /** A value and the bytes after it, the exception for running out of bytes, or the dereference of the null
      cursor. */
  datatype Got<T> = Got(value: T, rest: seq<byte>) | OutOfRange | NullCursor

  /** `Read` of n bytes; `full` says that the memory ends with the readable bytes. */
  function Take(bs: seq<byte>, n: nat, full: bool): Got<seq<byte>> {
    if n > |bs| then OutOfRange
    else if n == 0 && bs == [] && full then NullCursor
    else Got(bs[..n], bs[n..])
  }

  function TakeText(bs: seq<byte>, n: nat, full: bool): Got<Value> {
    match Take(bs, n, full)
    case Got(s, rest) => Got(Text(s), rest)
    case OutOfRange => OutOfRange
    case NullCursor => NullCursor
  }

  lemma Pow2Of64()
    ensures TWO32 <= Pow2(64)
  {
    Pow2Of32();
    Pow2Mono(32, 64);
  }

  /** The varint loop of either width; what it yields has 32 bits. */
  function TakeVarint(bs: seq<byte>, long: bool, wide: (nat, nat) -> nat): (r: Got<nat>)
    ensures r.Got? ==> r.value < TWO32 && r.value < Pow2(Width(long))
    ensures r != NullCursor
  {
    ReadsNarrow(bs, 0, Width(long), 0, wide);
    Pow2Of32();
    Pow2Of64();
    match ReadGroups(bs, 0, Width(long), 0, wide)
    case None => OutOfRange
    case Some((u, rest)) => Got(u, rest)
  }

  /** What the `Read…` of the kind returns, on the readable bytes. */
  function Decode(k: Kind, bs: seq<byte>, little: bool, m: Machine, full: bool): Got<Value> {
    match k
    case Fixed(b, signed) =>
      if |bs| < b then OutOfRange
      else Got(Num(Unword(GetWord(bs[..b], little, m.hostLittle), 8 * b, signed)), bs[b..])
    case Var(long, signed) =>
      (match TakeVarint(bs, long, m.wide)
       case Got(u, rest) => Got(Num(if signed then Zigzag.Decode(u, Width(long)) else u), rest)
       case OutOfRange => OutOfRange
       case NullCursor => NullCursor)
    case Str(p) =>
      if |bs| < p then OutOfRange
      else TakeText(bs[p..], GetWord(bs[..p], little, m.hostLittle), full)
    case StrVint =>
      (match TakeVarint(bs, true, m.wide)
       case Got(u, rest) => TakeText(rest, u, full)
       case OutOfRange => OutOfRange
       case NullCursor => NullCursor)
  }

  /** The values that survive: any word or 32-bit varint; 64-bit varints that fit 32 bits; strings whose length
      fits the prefix, or 32 bits for a varint prefix. */
  predicate Faithful(k: Kind, v: Value)
    requires Admits(k, v)
  {
    match k
    case Fixed(_, _) => true
    case Var(long, signed) => long ==> InWord(v.n, 32, signed)
    case Str(p) => |v.s| < Pow2(8 * p)
    case StrVint => |v.s| < TWO32
  }

  /** n as a word of b bytes in the wanted order, low byte first or last. */
  function Ordered(n: nat, b: nat, little: bool): seq<byte> {
    if little then LittleEndian(n, b) else Reverse(LittleEndian(n, b))
  }

  /** The format of fixed-width numbers: two's complement in the wanted byte order. */
  lemma FixedFormat(b: pos, signed: bool, n: int, little: bool, host: bool)
    requires if signed then 0 <= n + Pow2(8 * b - 1) && n < Pow2(8 * b - 1) else 0 <= n < Pow2(8 * b)
    ensures Admits(Fixed(b, signed), Num(n))
    ensures Encode(Fixed(b, signed), Num(n), little, host) == Ordered(if n < 0 then n + Pow2(8 * b) else n, b, little)
  {
    WordMeaning(n, 8 * b, signed);
    PutWordIsPortable(Word(n, 8 * b, signed), b, little, host);
  }

  /** The format of varints: unsigned numbers as they are, signed ones interleaved. */
  lemma VarFormat(long: bool, signed: bool, n: int, little: bool, host: bool)
    requires var w := if long then 64 else 32;
             if signed then 0 <= n + Pow2(w - 1) && n < Pow2(w - 1) else 0 <= n < Pow2(w)
    ensures Admits(Var(long, signed), Num(n))
    ensures Encode(Var(long, signed), Num(n), little, host)
            == Groups(if !signed then n else if n < 0 then 0 - 2 * n - 1 else 2 * n)
  {
    if signed {
      Zigzag.EncodeMeaning(n, Width(long));
    }
  }

  /** The format of strings: the length, cut to the prefix, and then the bytes. */
  lemma StrFormat(p: pos, s: seq<byte>, little: bool, host: bool)
    requires |s| < Pow2(64)
    ensures Admits(Str(p), Text(s)) && Admits(StrVint, Text(s))
    ensures Encode(Str(p), Text(s), little, host) == Ordered(|s| % Pow2(8 * p), p, little) + s
    ensures Encode(StrVint, Text(s), little, host) == Groups(|s|) + s
  {
    PutWordIsPortable(|s| % Pow2(8 * p), p, little, host);
  }

  predicate Empty(v: Value) {
    v == Text([])
  }

  lemma WordBack(n: int, w: pos, signed: bool)
    requires InWord(n, w, signed)
    ensures Word(n, w, signed) < Pow2(w) && Unword(Word(n, w, signed), w, signed) == n
  {
  }

  lemma FixedBack(k: Kind, v: Value, tail: seq<byte>, little: bool, writer: bool, m: Machine, full: bool)
    requires k.Fixed? && Admits(k, v)
    ensures Decode(k, Encode(k, v, little, writer) + tail, little, m, full) == Got(v, tail)
  {
    var u := Word(v.n, 8 * k.bytes, k.signed);
    WordBack(v.n, 8 * k.bytes, k.signed);
    PutThenGet(u, k.bytes, little, writer, m.hostLittle);
    var bs := PutWord(u, k.bytes, little, writer);
    assert (bs + tail)[..k.bytes] == bs && (bs + tail)[k.bytes..] == tail;
  }

  /** A varint comes back, or something smaller than 2^32 does. */
  lemma TakeVarintBack(u: nat, tail: seq<byte>, long: bool, wide: (nat, nat) -> nat)
    requires u < Pow2(Width(long))
    ensures u < TWO32 ==> TakeVarint(Groups(u) + tail, long, wide) == Got(u, tail)
  {
    Pow2Of32();
    if long {
      Varint64RoundTrip(u, tail, wide);
    } else {
      Varint32RoundTrip(u, tail, wide);
    }
  }

  /** A zigzag code fits 32 bits exactly when the number does. */
  lemma CodeFits(n: int, long: bool, signed: bool)
    requires InWord(n, Width(long), signed)
    ensures Code(n, Width(long), signed) < Pow2(Width(long))
    ensures Code(n, Width(long), signed) < TWO32 <==> InWord(n, 32, signed)
  {
    Pow2Of32();
    if signed {
      Zigzag.EncodeMeaning(n, Width(long));
    }
  }

  lemma VarBack(k: Kind, v: Value, tail: seq<byte>, little: bool, writer: bool, m: Machine, full: bool)
    requires k.Var? && Admits(k, v) && Faithful(k, v)
    ensures Decode(k, Encode(k, v, little, writer) + tail, little, m, full) == Got(v, tail)
  {
    var w := Width(k.long);
    var u := Code(v.n, w, k.signed);
    CodeFits(v.n, k.long, k.signed);
    TakeVarintBack(u, tail, k.long, m.wide);
    if k.signed {
      Zigzag.DecodeEncode(v.n, w);
    }
  }

  /** A wrong code decodes to a wrong number. */
  lemma VarLost(k: Kind, v: Value, bs: seq<byte>, rest: seq<byte>, little: bool, m: Machine, full: bool)
    requires k.Var? && Admits(k, v) && !Faithful(k, v)
    ensures Decode(k, bs, little, m, full) != Got(v, rest)
  {
    var w := Width(k.long);
    CodeFits(v.n, k.long, k.signed);
    var r := TakeVarint(bs, k.long, m.wide);
    if r.Got? && k.signed {
      Zigzag.EncodeDecode(r.value, w);
    }
  }

  lemma TakeTextBack(s: seq<byte>, tail: seq<byte>, full: bool)
    ensures TakeText(s + tail, |s|, full) == if s == [] && tail == [] && full then NullCursor else Got(Text(s), tail)
  {
    assert (s + tail)[..|s|] == s && (s + tail)[|s|..] == tail;
  }

  lemma StrLength(p: pos, s: seq<byte>, tail: seq<byte>, little: bool, writer: bool, m: Machine, full: bool)
    requires |s| < Pow2(64)
    ensures var n := |s| % Pow2(8 * p);
            Decode(Str(p), Encode(Str(p), Text(s), little, writer) + tail, little, m, full)
            == TakeText(s + tail, n, full)
  {
    var n := |s| % Pow2(8 * p);
    PutThenGet(n, p, little, writer, m.hostLittle);
    var bs := PutWord(n, p, little, writer);
    assert bs + s + tail == bs + (s + tail);
    assert (bs + (s + tail))[..p] == bs && (bs + (s + tail))[p..] == s + tail;
  }

  lemma StrBack(p: pos, s: seq<byte>, tail: seq<byte>, little: bool, writer: bool, m: Machine, full: bool)
    requires |s| < Pow2(64) && |s| < Pow2(8 * p)
    ensures Decode(Str(p), Encode(Str(p), Text(s), little, writer) + tail, little, m, full)
            == if s == [] && tail == [] && full then NullCursor else Got(Text(s), tail)
  {
    StrLength(p, s, tail, little, writer, m, full);
    Zigzag.Wraps(|s|, Pow2(8 * p));
    TakeTextBack(s, tail, full);
  }

  lemma StrLost(
      p: pos, s: seq<byte>, tail: seq<byte>, rest: seq<byte>, little: bool, writer: bool, m: Machine, full: bool)
    requires Pow2(8 * p) <= |s| < Pow2(64)
    ensures Decode(Str(p), Encode(Str(p), Text(s), little, writer) + tail, little, m, full) != Got(Text(s), rest)
  {
    StrLength(p, s, tail, little, writer, m, full);
  }

  lemma StrVintBack(s: seq<byte>, tail: seq<byte>, little: bool, writer: bool, m: Machine, full: bool)
    requires |s| < TWO32 && |s| < Pow2(64)
    ensures Decode(StrVint, Encode(StrVint, Text(s), little, writer) + tail, little, m, full)
            == if s == [] && tail == [] && full then NullCursor else Got(Text(s), tail)
  {
    TakeVarintBack(|s|, s + tail, true, m.wide);
    assert Groups(|s|) + s + tail == Groups(|s|) + (s + tail);
    TakeTextBack(s, tail, full);
  }

  lemma ValueKept(k: Kind, v: Value, tail: seq<byte>, little: bool, writer: bool, m: Machine, full: bool)
    requires Admits(k, v) && Faithful(k, v)
    ensures Decode(k, Encode(k, v, little, writer) + tail, little, m, full)
            == if Empty(v) && tail == [] && full then NullCursor else Got(v, tail)
  {
    match k
    case Fixed(_, _) => FixedBack(k, v, tail, little, writer, m, full);
    case Var(_, _) => VarBack(k, v, tail, little, writer, m, full);
    case Str(p) => StrBack(p, v.s, tail, little, writer, m, full);
    case StrVint => StrVintBack(v.s, tail, little, writer, m, full);
  }

  lemma StrVintLost(s: seq<byte>, bs: seq<byte>, rest: seq<byte>, little: bool, m: Machine, full: bool)
    requires |s| >= TWO32
    ensures Decode(StrVint, bs, little, m, full) != Got(Text(s), rest)
  {
  }

  lemma ValueLost(
      k: Kind, v: Value, tail: seq<byte>, rest: seq<byte>, little: bool, writer: bool, m: Machine, full: bool)
    requires Admits(k, v) && !Faithful(k, v)
    ensures Decode(k, Encode(k, v, little, writer) + tail, little, m, full) != Got(v, rest)
  {
    match k
    case Var(_, _) => VarLost(k, v, Encode(k, v, little, writer) + tail, rest, little, m, full);
    case Str(p) => StrLost(p, v.s, tail, rest, little, writer, m, full);
    case StrVint => StrVintLost(v.s, Encode(k, v, little, writer) + tail, rest, little, m, full);
  }

  /** A value read back where it was written is the same value, with the same bytes after it, exactly when it is
      faithful; only an empty string as the very last thing in a full memory is read through the null cursor. */
  lemma ValueRoundTrip(k: Kind, v: Value, tail: seq<byte>, little: bool, writer: bool, m: Machine, full: bool)
    requires Admits(k, v)
    ensures var r := Decode(k, Encode(k, v, little, writer) + tail, little, m, full);
            if !Faithful(k, v) then forall rest :: r != Got(v, rest)
            else if Empty(v) && tail == [] && full then r == NullCursor
            else r == Got(v, tail)
  {
    if Faithful(k, v) {
      ValueKept(k, v, tail, little, writer, m, full);
    } else {
      forall rest ensures Decode(k, Encode(k, v, little, writer) + tail, little, m, full) != Got(v, rest) {
        ValueLost(k, v, tail, rest, little, writer, m, full);
      }
    }
  }

  /** The same as one equivalence. */
  lemma ValueReadsBack(k: Kind, v: Value, tail: seq<byte>, little: bool, writer: bool, m: Machine, full: bool)
    requires Admits(k, v)
    ensures var d := Decode(k, Encode(k, v, little, writer) + tail, little, m, full);
            && (d.Got? && d.value == v <==> Faithful(k, v) && !(Empty(v) && tail == [] && full))
            && (d.Got? && d.value == v ==> d.rest == tail)
  {
    ValueRoundTrip(k, v, tail, little, writer, m, full);
    var d := Decode(k, Encode(k, v, little, writer) + tail, little, m, full);
    if d.Got? && d.value == v {
      assert d == Got(v, d.rest);
    }
  }

  predicate AdmitsAll(ks: seq<Kind>, vs: seq<Value>) {
    |ks| == |vs| && forall i :: 0 <= i < |ks| ==> Admits(ks[i], vs[i])
  }

  function EncodeAll(ks: seq<Kind>, vs: seq<Value>, little: bool, host: bool): seq<byte>
    requires AdmitsAll(ks, vs)
  {
    if ks == [] then [] else Encode(ks[0], vs[0], little, host) + EncodeAll(ks[1..], vs[1..], little, host)
  }

  function DecodeAll(ks: seq<Kind>, bs: seq<byte>, little: bool, m: Machine, full: bool): Got<seq<Value>> {
    if ks == [] then Got([], bs)
    else
      match Decode(ks[0], bs, little, m, full)
      case OutOfRange => OutOfRange
      case NullCursor => NullCursor
      case Got(v, rest) =>
        match DecodeAll(ks[1..], rest, little, m, full)
        case OutOfRange => OutOfRange
        case NullCursor => NullCursor
        case Got(vs, end) => Got([v] + vs, end)
  }

  lemma EncodeAllSplits(ks: seq<Kind>, vs: seq<Value>, tail: seq<byte>, little: bool, host: bool)
    requires AdmitsAll(ks, vs) && ks != []
    ensures EncodeAll(ks, vs, little, host) + tail
            == Encode(ks[0], vs[0], little, host) + (EncodeAll(ks[1..], vs[1..], little, host) + tail)
  {
  }

  lemma {:induction false} EncodeAllNonEmpty(ks: seq<Kind>, vs: seq<Value>, little: bool, host: bool)
    requires AdmitsAll(ks, vs)
    ensures EncodeAll(ks, vs, little, host) == [] <==> ks == []
  {
  }

  /** Reading a non-empty list: its first value, then the others. */
  lemma DecodeAllSplits(
      ks: seq<Kind>, bs: seq<byte>, vs: seq<Value>, end: seq<byte>, little: bool, m: Machine, full: bool)
    requires ks != [] && |vs| == |ks|
    ensures var d := Decode(ks[0], bs, little, m, full);
            DecodeAll(ks, bs, little, m, full) == Got(vs, end)
            <==> d.Got? && d.value == vs[0] && DecodeAll(ks[1..], d.rest, little, m, full) == Got(vs[1..], end)
  {
    assert vs == [vs[0]] + vs[1..];
  }

  predicate AllFaithful(ks: seq<Kind>, vs: seq<Value>)
    requires AdmitsAll(ks, vs)
  {
    forall i :: 0 <= i < |ks| ==> Faithful(ks[i], vs[i])
  }

  lemma AllFaithfulSplits(ks: seq<Kind>, vs: seq<Value>)
    requires AdmitsAll(ks, vs) && ks != []
    ensures AdmitsAll(ks[1..], vs[1..])
    ensures AllFaithful(ks, vs) <==> Faithful(ks[0], vs[0]) && AllFaithful(ks[1..], vs[1..])
  {
    assert forall i :: 0 <= i < |ks| - 1 ==> ks[1..][i] == ks[i + 1] && vs[1..][i] == vs[i + 1];
    if Faithful(ks[0], vs[0]) && AllFaithful(ks[1..], vs[1..]) {
      forall i | 0 <= i < |ks| ensures Faithful(ks[i], vs[i]) {
        if i > 0 {
          assert Faithful(ks[1..][i - 1], vs[1..][i - 1]);
        }
      }
    }
  }

  /** Every value is faithful, and the list does not end in an empty string at the end of a full memory. */
  predicate Survives(ks: seq<Kind>, vs: seq<Value>, tail: seq<byte>, full: bool)
    requires AdmitsAll(ks, vs)
  {
    AllFaithful(ks, vs) && !(ks != [] && Empty(vs[|vs| - 1]) && tail == [] && full)
  }

  lemma SurvivesSplits(ks: seq<Kind>, vs: seq<Value>, tail: seq<byte>, full: bool)
    requires AdmitsAll(ks, vs) && ks != []
    ensures AdmitsAll(ks[1..], vs[1..])
    ensures Survives(ks, vs, tail, full)
            <==> && Faithful(ks[0], vs[0]) && !(|ks| == 1 && Empty(vs[0]) && tail == [] && full)
                 && Survives(ks[1..], vs[1..], tail, full)
  {
    AllFaithfulSplits(ks, vs);
  }

  /** The first value of a list is read back, leaving the encoding of the others, exactly when it is faithful and
      not an empty string at the end of a full memory. */
  lemma HeadRoundTrip(
      ks: seq<Kind>, vs: seq<Value>, tail: seq<byte>, little: bool, writer: bool, m: Machine, full: bool)
    requires AdmitsAll(ks, vs) && ks != []
    ensures var d := Decode(ks[0], EncodeAll(ks, vs, little, writer) + tail, little, m, full);
            && (d.Got? && d.value == vs[0]
                <==> Faithful(ks[0], vs[0]) && !(|ks| == 1 && Empty(vs[0]) && tail == [] && full))
            && (d.Got? && d.value == vs[0] ==> d.rest == EncodeAll(ks[1..], vs[1..], little, writer) + tail)
  {
    var rest := EncodeAll(ks[1..], vs[1..], little, writer);
    EncodeAllNonEmpty(ks[1..], vs[1..], little, writer);
    EncodeAllSplits(ks, vs, tail, little, writer);
    ValueReadsBack(ks[0], vs[0], rest + tail, little, writer, m, full);
  }

  /** A list is read back exactly when its first value and the list of the others are. */
  lemma ListSplits(
      ks: seq<Kind>, vs: seq<Value>, tail: seq<byte>, little: bool, writer: bool, m: Machine, full: bool)
    requires AdmitsAll(ks, vs) && ks != []
    ensures DecodeAll(ks, EncodeAll(ks, vs, little, writer) + tail, little, m, full) == Got(vs, tail)
            <==> && Faithful(ks[0], vs[0]) && !(|ks| == 1 && Empty(vs[0]) && tail == [] && full)
                 && DecodeAll(ks[1..], EncodeAll(ks[1..], vs[1..], little, writer) + tail, little, m, full)
                    == Got(vs[1..], tail)
  {
    HeadRoundTrip(ks, vs, tail, little, writer, m, full);
    DecodeAllSplits(ks, EncodeAll(ks, vs, little, writer) + tail, vs, tail, little, m, full);
  }

  /** Any list of values written in sequence and read with the same kinds gives the same list and the bytes after
      it, exactly when every value is faithful and the list does not end in an empty string at the end of a full
      memory; whatever the two machines are. */
  lemma {:induction false} ListRoundTrip(
      ks: seq<Kind>, vs: seq<Value>, tail: seq<byte>, little: bool, writer: bool, m: Machine, full: bool)
    requires AdmitsAll(ks, vs)
    ensures DecodeAll(ks, EncodeAll(ks, vs, little, writer) + tail, little, m, full) == Got(vs, tail)
            <==> Survives(ks, vs, tail, full)
  {
    if ks != [] {
      SurvivesSplits(ks, vs, tail, full);
      ListSplits(ks, vs, tail, little, writer, m, full);
      ListRoundTrip(ks[1..], vs[1..], tail, little, writer, m, full);
    }
  }
}
