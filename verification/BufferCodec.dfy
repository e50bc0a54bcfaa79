/** The typed `Write…` and `Read…` methods on the linked buffer, against their meaning on flat bytes. */
module BufferCodec {
  import opened Arith
  import opened Bits
  import opened Blocks
  import opened ByteArray
  import opened Words
  import opened Varint
  import opened Values
  import opened Common
  import Zigzag

  /** The bytes between position and size. */
  ghost function Readable(ba: ByteArray): seq<byte>
    requires ba.Valid()
    reads ba, ba.repr
  {
    ba.CursorIsBlock();
    ba.Mem()[ba.position..ba.size]
  }

  /** What a buffer was like before a write. */
  datatype Snapshot = Snapshot(mem: seq<byte>, position: nat, size: nat, capacity: nat)

  ghost function Now(ba: ByteArray): Snapshot
    reads ba
  {
    Snapshot(ba.Mem(), ba.position, ba.size, ba.capacity)
  }

  /** A capacity grown from cap only as far as whole blocks of b were needed to reach p. */
  predicate Snug(cap: nat, cap': nat, p: nat, b: nat) {
    cap <= cap' && (cap' == cap || cap' < p + b)
  }

  /** The buffer after `buf` was written into what it held before. */
  ghost predicate Holds(ba: ByteArray, was: Snapshot, buf: seq<byte>)
    reads ba, ba.repr
  {
    && ba.Valid() && ba.position == was.position + |buf| && ba.size == Larger(was.size, ba.position)
    && Written(was.mem, was.position, buf, ba.Mem())
    && Snug(was.capacity, ba.capacity, ba.position, ba.baseSize)
  }

  lemma GrownSnug(cap: nat, p: nat, n: nat, b: nat)
    requires b > 0 && p <= cap
    ensures Snug(cap, Grown(cap, p, n, b), p + n, b)
  {
    if n > cap - p {
      var x := n - (cap - p) + b - 1;
      assert x == b * (x / b) + x % b;
    }
  }

  /** `Write`. */
  method WriteBytes(ba: ByteArray, buf: seq<byte>)
    requires ba.Valid()
    modifies ba`position, ba`capacity, ba`size, ba`cur, ba`nodes, ba`blocks, ba`at, ba`repr, ba.repr
    ensures Holds(ba, old(Now(ba)), buf) && fresh(ba.repr - old(ba.repr))
  {
    GrownSnug(ba.capacity, ba.position, |buf|, ba.baseSize);
    ba.Write(buf);
  }

  lemma MarkedGroupByte(v: nat)
    ensures Or(And(v, 0x7F), 0x80) == v % 128 + 128
  {
    And7F(v);
    OrDisjoint(v % 128, 1, 7);
    Pow2Plus7(0);
  }

  /** The loop of `WriteUint32/64`: groups are collected in a fixed array, which they never overrun. */
  method CollectGroups(v: nat, room: nat) returns (tmp: array<byte>, i: nat)
    requires |Groups(v)| <= room
    ensures fresh(tmp) && i <= tmp.Length == room && tmp[..i] == Groups(v)
  {
    tmp := new byte[room];
    i := 0;
    var value := v;
    while value >= 0x80
      invariant i + |Groups(value)| == |Groups(v)| && tmp[..i] + Groups(value) == Groups(v)
      decreases value
    {
      MarkedGroupByte(value);
      ghost var before := tmp[..i];
      tmp[i] := Or(And(value, 0x7F), 0x80);
      assert tmp[..i + 1] == before + [value % 128 + 128];
      value := value / 128;
      i := i + 1;
    }
    tmp[i] := value;
    i := i + 1;
  }

  /** `WriteUint32/64`: 5 or 10 bytes are room enough, and the groups are written at once. */
  method WriteGroups(ba: ByteArray, v: nat, long: bool)
    requires ba.Valid() && v < Pow2(Width(long))
    modifies ba`position, ba`capacity, ba`size, ba`cur, ba`nodes, ba`blocks, ba`at, ba`repr, ba.repr
    ensures Holds(ba, old(Now(ba)), Groups(v)) && fresh(ba.repr - old(ba.repr))
  {
    VarintFits(v, Width(long), if long then 10 else 5);
    var tmp, i := CollectGroups(v, if long then 10 else 5);
    WriteBytes(ba, tmp[..i]);
  }

  /** `WriteFint…/WriteFuint…` */
  method WriteWord(ba: ByteArray, v: nat, n: nat, host: bool)
    requires ba.Valid()
    modifies ba`position, ba`capacity, ba`size, ba`cur, ba`nodes, ba`blocks, ba`at, ba`repr, ba.repr
    ensures fresh(ba.repr - old(ba.repr))
    ensures Holds(ba, old(Now(ba)), PutWord(v, n, ba.littleEndian, host))
  {
    var value := v;
    if n > 1 && ba.littleEndian != host {
      value := ByteSwap(value, n);
    }
    WriteBytes(ba, Store(value, n, host));
  }

  /** A string after its length. */
  method WriteText(ba: ByteArray, s: seq<byte>, ghost was: Snapshot, ghost head: seq<byte>)
    requires Holds(ba, was, head)
    modifies ba`position, ba`capacity, ba`size, ba`cur, ba`nodes, ba`blocks, ba`at, ba`repr, ba.repr
    ensures Holds(ba, was, head + s) && fresh(ba.repr - old(ba.repr))
  {
    ghost var mem := ba.Mem();
    WriteBytes(ba, s);
    WrittenStep(was.mem, was.position, head, mem, s, ba.Mem());
  }

  /** `WriteStringF16/F32/F64`: the length is narrowed to the prefix. */
  method WriteStr(ba: ByteArray, s: seq<byte>, n: pos, host: bool)
    requires ba.Valid()
    modifies ba`position, ba`capacity, ba`size, ba`cur, ba`nodes, ba`blocks, ba`at, ba`repr, ba.repr
    ensures fresh(ba.repr - old(ba.repr))
    ensures Holds(ba, old(Now(ba)),
                  PutWord(|s| % Pow2(8 * n), n, ba.littleEndian, host) + s)
  {
    ghost var was := Now(ba);
    var len := |s| % Pow2(8 * n);
    WriteWord(ba, len, n, host);
    WriteText(ba, s, was, PutWord(len, n, ba.littleEndian, host));
  }

  /** `WriteStringVint`. */
  method WriteStrVint(ba: ByteArray, s: seq<byte>)
    requires ba.Valid() && |s| < Pow2(64)
    modifies ba`position, ba`capacity, ba`size, ba`cur, ba`nodes, ba`blocks, ba`at, ba`repr, ba.repr
    ensures fresh(ba.repr - old(ba.repr))
    ensures Holds(ba, old(Now(ba)), Groups(|s|) + s)
  {
    ghost var was := Now(ba);
    WriteGroups(ba, |s|, true);
    WriteText(ba, s, was, Groups(|s|));
  }

  /** The numbers among the kinds of value. */
  method WriteNumber(ba: ByteArray, k: Kind, v: Value, host: bool)
    requires ba.Valid() && Admits(k, v) && (k.Fixed? || k.Var?)
    modifies ba`position, ba`capacity, ba`size, ba`cur, ba`nodes, ba`blocks, ba`at, ba`repr, ba.repr
    ensures Holds(ba, old(Now(ba)), Encode(k, v, ba.littleEndian, host)) && fresh(ba.repr - old(ba.repr))
  {
    match k {
      case Fixed(b, signed) =>
        WriteWord(ba, Word(v.n, 8 * b, signed), b, host);
      case Var(long, signed) =>
        CodeFits(v.n, long, signed);
        WriteGroups(ba, Code(v.n, Width(long), signed), long);
    }
  }

  /** The strings among the kinds of value. */
  method WriteString(ba: ByteArray, k: Kind, v: Value, host: bool)
    requires ba.Valid() && Admits(k, v) && (k.Str? || k.StrVint?)
    modifies ba`position, ba`capacity, ba`size, ba`cur, ba`nodes, ba`blocks, ba`at, ba`repr, ba.repr
    ensures Holds(ba, old(Now(ba)), Encode(k, v, ba.littleEndian, host)) && fresh(ba.repr - old(ba.repr))
  {
    match k {
      case Str(n) =>
        WriteStr(ba, v.s, n, host);
      case StrVint =>
        WriteStrVint(ba, v.s);
    }
  }

  /** The `Write…` of a kind appends the value's encoding. */
  method WriteValue(ba: ByteArray, k: Kind, v: Value, host: bool)
    requires ba.Valid() && Admits(k, v)
    modifies ba`position, ba`capacity, ba`size, ba`cur, ba`nodes, ba`blocks, ba`at, ba`repr, ba.repr
    ensures Holds(ba, old(Now(ba)), Encode(k, v, ba.littleEndian, host)) && fresh(ba.repr - old(ba.repr))
  {
    if k.Fixed? || k.Var? {
      WriteNumber(ba, k, v, host);
    } else {
      WriteString(ba, k, v, host);
    }
  }

  /** What a read returns or raises. */
  datatype Outcome<T> = Ok(value: T) | Throws | Crashes

  /** The outcome and the readable bytes left agree with the reading of flat bytes. */
  ghost predicate Agrees<T>(r: Outcome<T>, g: Got<T>, ba: ByteArray)
    reads ba, ba.repr
  {
    && ba.Valid()
    && match g
       case Got(v, rest) => r == Ok(v) && Readable(ba) == rest
       case OutOfRange => r == Throws
       case NullCursor => r == Crashes
  }

  lemma TakeSlice(mem: seq<byte>, p: nat, size: nat, n: nat, full: bool)
    requires p <= size <= |mem|
    ensures n > size - p ==> Take(mem[p..size], n, full) == Got.OutOfRange
    ensures n == 0 && p == size && full ==> Take(mem[p..size], n, full) == Got.NullCursor
    ensures n <= size - p && !(n == 0 && p == size && full) ==>
              Take(mem[p..size], n, full) == Got(mem[p..p + n], mem[p + n..size])
  {
    if n <= size - p {
      assert mem[p..size][..n] == mem[p..p + n] && mem[p..size][n..] == mem[p + n..size];
    }
  }

  /** `Read`, on the readable bytes. */
  method ReadBytes(ba: ByteArray, n: nat) returns (r: Outcome<seq<byte>>)
    requires ba.Valid()
    modifies ba`position, ba`cur, ba`at
    ensures Agrees(r, Take(old(Readable(ba)), n, ba.size == ba.capacity), ba)
  {
    ba.CursorIsBlock();
    TakeSlice(ba.Mem(), ba.position, ba.size, n, ba.size == ba.capacity);
    var d := ba.Read(n);
    match d {
      case Bytes(data) => r := Ok(data);
      case OutOfRange => r := Throws;
      case NullCursor => r := Crashes;
    }
  }

  /** `ReadFint…/ReadFuint…` */
  method ReadWord(ba: ByteArray, n: pos, host: bool) returns (r: Outcome<nat>)
    requires ba.Valid()
    modifies ba`position, ba`cur, ba`at
    ensures var bs := old(Readable(ba));
            Agrees(r, if |bs| < n then Got.OutOfRange else Got(GetWord(bs[..n], ba.littleEndian, host), bs[n..]), ba)
  {
    var d := ReadBytes(ba, n);
    match d {
      case Ok(bs) =>
        var v := Load(bs, host);
        r := Ok(if n > 1 && ba.littleEndian != host then ByteSwap(v, n) else v);
      case Throws => r := Throws;
      case Crashes => r := Crashes;
    }
  }

  /** The loop of `ReadUint32/64`. */
  method ReadGroupsLoop(ba: ByteArray, long: bool, wide: (nat, nat) -> nat) returns (r: Outcome<nat>)
    requires ba.Valid()
    modifies ba`position, ba`cur, ba`at
    ensures Agrees(r, TakeVarint(old(Readable(ba)), long, wide), ba)
  {
    var result, i, more, failed := 0, 0, true, false;
    ghost var all := ReadGroups(Readable(ba), 0, Width(long), 0, wide);
    while i < Width(long) && more && !failed
      invariant ba.Valid() && i >= 0 && result >= 0
      invariant failed ==> all.None?
      invariant !failed && more ==> all == ReadGroups(Readable(ba), i, Width(long), result, wide)
      invariant !failed && !more ==> all == Some((result, Readable(ba)))
      decreases Width(long) - i
    {
      var b := ReadBytes(ba, 1);
      if b.Ok? {
        if b.value[0] < 0x80 {
          result := Or(result, Shl(b.value[0], i, wide));
          more := false;
        } else {
          result := Or(result, Shl(And(b.value[0], 0x7F), i, wide));
        }
      } else {
        failed := true;
      }
      i := i + 7;
    }
    r := if failed then Throws else Ok(result);
  }

  method ReadText(ba: ByteArray, n: nat) returns (r: Outcome<Value>)
    requires ba.Valid()
    modifies ba`position, ba`cur, ba`at
    ensures Agrees(r, TakeText(old(Readable(ba)), n, ba.size == ba.capacity), ba)
  {
    var d := ReadBytes(ba, n);
    r := match d case Ok(s) => Ok(Text(s)) case Throws => Throws case Crashes => Crashes;
  }

  /** The `Read…` of a kind decodes the readable bytes. */
  method ReadValue(ba: ByteArray, k: Kind, m: Machine) returns (r: Outcome<Value>)
    requires ba.Valid()
    modifies ba`position, ba`cur, ba`at
    ensures Agrees(r, Decode(k, old(Readable(ba)), ba.littleEndian, m, ba.size == ba.capacity), ba)
  {
    match k {
      case Fixed(b, signed) =>
        var d := ReadWord(ba, b, m.hostLittle);
        r := match d case Ok(u) => Ok(Num(Unword(u, 8 * b, signed))) case Throws => Throws case Crashes => Crashes;
      case Var(long, signed) =>
        var d := ReadGroupsLoop(ba, long, m.wide);
        match d {
          case Ok(u) => r := Ok(Num(if signed then Zigzag.Decode(u, Width(long)) else u));
          case Throws => r := Throws;
          case Crashes => r := Crashes;
        }
      case Str(n) =>
        var d := ReadWord(ba, n, m.hostLittle);
        match d {
          case Ok(len) => r := ReadText(ba, len);
          case Throws => r := Throws;
          case Crashes => r := Crashes;
        }
      case StrVint =>
        var d := ReadGroupsLoop(ba, true, m.wide);
        match d {
          case Ok(len) => r := ReadText(ba, len);
          case Throws => r := Throws;
          case Crashes => r := Crashes;
        }
    }
  }

  /** The same, with the encoding given. */
  method WriteBytesOf(ba: ByteArray, k: Kind, v: Value, host: bool, ghost one: seq<byte>)
    requires ba.Valid() && Admits(k, v) && one == Encode(k, v, ba.littleEndian, host)
    modifies ba`position, ba`capacity, ba`size, ba`cur, ba`nodes, ba`blocks, ba`at, ba`repr, ba.repr
    ensures Holds(ba, old(Now(ba)), one) && fresh(ba.repr - old(ba.repr))
  {
    WriteValue(ba, k, v, host);
  }

  /** One more value after those already written. */
  method WriteNext(ba: ByteArray, k: Kind, v: Value, host: bool,
                   ghost was: Snapshot, ghost head: seq<byte>, ghost one: seq<byte>)
    requires Holds(ba, was, head) && Admits(k, v) && one == Encode(k, v, ba.littleEndian, host)
    modifies ba`position, ba`capacity, ba`size, ba`cur, ba`nodes, ba`blocks, ba`at, ba`repr, ba.repr
    ensures Holds(ba, was, head + one) && fresh(ba.repr - old(ba.repr))
  {
    ghost var mem := ba.Mem();
    WriteBytesOf(ba, k, v, host, one);
    WrittenStep(was.mem, was.position, head, mem, one, ba.Mem());
  }

  lemma EncodeAllStep(head: seq<byte>, ks: seq<Kind>, vs: seq<Value>, little: bool, host: bool)
    requires AdmitsAll(ks, vs) && ks != []
    ensures head + EncodeAll(ks, vs, little, host)
            == head + Encode(ks[0], vs[0], little, host) + EncodeAll(ks[1..], vs[1..], little, host)
  {
  }

  /** A list of values, written one after another. */
  method WriteAll(ba: ByteArray, ks: seq<Kind>, vs: seq<Value>, host: bool,
                  ghost was: Snapshot, ghost head: seq<byte>, ghost bytes: seq<byte>)
    requires Holds(ba, was, head) && AdmitsAll(ks, vs) && bytes == head + EncodeAll(ks, vs, ba.littleEndian, host)
    modifies ba`position, ba`capacity, ba`size, ba`cur, ba`nodes, ba`blocks, ba`at, ba`repr, ba.repr
    ensures Holds(ba, was, bytes) && fresh(ba.repr - old(ba.repr))
    decreases |ks|
  {
    if ks == [] {
      assert bytes == head;
    } else {
      ghost var one := Encode(ks[0], vs[0], ba.littleEndian, host);
      EncodeAllStep(head, ks, vs, ba.littleEndian, host);
      WriteNext(ba, ks[0], vs[0], host, was, head, one);
      WriteAll(ba, ks[1..], vs[1..], host, was, head + one, bytes);
    }
  }

  /** A list of values, read one after another up to the first failure. */
  method ReadAll(ba: ByteArray, ks: seq<Kind>, m: Machine) returns (r: Outcome<seq<Value>>)
    requires ba.Valid()
    modifies ba`position, ba`cur, ba`at
    ensures Agrees(r, DecodeAll(ks, old(Readable(ba)), ba.littleEndian, m, ba.size == ba.capacity), ba)
    decreases |ks|
  {
    if ks == [] {
      return Ok([]);
    }
    var head := ReadValue(ba, ks[0], m);
    match head {
      case Throws => r := Throws;
      case Crashes => r := Crashes;
      case Ok(v) =>
        var rest := ReadAll(ba, ks[1..], m);
        r := match rest case Ok(vs) => Ok([v] + vs) case Throws => Throws case Crashes => Crashes;
    }
  }

  lemma WrittenReads(mem: seq<byte>, p: nat, size: nat, buf: seq<byte>, mem': seq<byte>)
    requires Written(mem, p, buf, mem') && p <= size <= |mem|
    ensures var size' := Larger(size, p + |buf|);
            size' <= |mem'| && mem'[p..size'] == buf + mem[p..size][Least(|buf|, size - p)..]
  {
  }

  /** Where the position is after reading is what is left to read. */
  lemma PositionIsRest(mem: seq<byte>, p: nat, n: nat, q: nat, size: nat, tail: seq<byte>)
    requires p + n + |tail| == size <= |mem| && q <= size && mem[p + n..size] == tail
    ensures mem[q..size] == tail <==> q == p + n
  {
    assert |mem[q..size]| == size - q;
  }

  method ReadBack(ba: ByteArray, ks: seq<Kind>, ghost vs: seq<Value>, ghost writer: bool, m: Machine,
                  ghost buf: seq<byte>, ghost tail: seq<byte>, ghost full: bool)
    returns (r: Outcome<seq<Value>>)
    requires ba.Valid() && AdmitsAll(ks, vs) && buf == EncodeAll(ks, vs, ba.littleEndian, writer)
    requires Readable(ba) == buf + tail && (full <==> tail == [] && ba.size == ba.capacity)
    modifies ba`position, ba`cur, ba`at
    ensures ba.Valid()
    ensures (r == Ok(vs) && ba.position == old(ba.position) + |buf|)
            <==> AllFaithful(ks, vs) && !(ks != [] && Empty(vs[|vs| - 1]) && full)
  {
    ghost var p := ba.position;
    ba.CursorIsBlock();
    assert ba.Mem()[p + |buf|..ba.size] == Readable(ba)[|buf|..] == tail;
    ListRoundTrip(ks, vs, tail, ba.littleEndian, writer, m, ba.size == ba.capacity);
    r := ReadAll(ba, ks, m);
    PositionIsRest(ba.Mem(), p, |buf|, ba.position, ba.size, tail);
  }

  /** A block boundary at or past the capacity. */
  predicate Boundary(p: nat, capacity: nat, b: nat) {
    b > 0 && p >= capacity && p % b == 0
  }

  /** A snug capacity is reached exactly at a block boundary past the old capacity. */
  lemma SnugEnd(cap: nat, cap': nat, p: nat, b: nat, blocks: nat)
    requires b > 0 && cap' == b * blocks && p <= cap' && Snug(cap, cap', p, b)
    ensures p == cap' <==> Boundary(p, cap, b)
  {
    if p == cap' {
      QuotientRemainder(p, b, blocks, 0);
    } else if p >= cap && p % b == 0 {
      assert p == b * (p / b);
      if blocks <= p / b {
        MulMono(b, blocks, p / b);
      } else {
        MulMono(b, p / b + 1, blocks);
      }
    }
  }

  lemma FullAtEnd(ba: ByteArray, buf: seq<byte>, tail: seq<byte>, cap: nat)
    requires ba.Valid() && Readable(ba) == buf + tail && Snug(cap, ba.capacity, ba.position + |buf|, ba.baseSize)
    ensures var end := ba.position + |buf|;
            tail == [] && ba.size == ba.capacity <==> Boundary(end, cap, ba.baseSize)
  {
    ba.CursorIsBlock();
    assert |Readable(ba)| == ba.size - ba.position;
    SnugEnd(cap, ba.capacity, ba.position + |buf|, ba.baseSize, |ba.nodes|);
  }

  /** Write a list, and return to where it starts. */
  method WriteAndReturn(ba: ByteArray, ks: seq<Kind>, vs: seq<Value>, writer: bool,
                        ghost buf: seq<byte>, ghost tail: seq<byte>)
    requires ba.Valid() && AdmitsAll(ks, vs) && buf == EncodeAll(ks, vs, ba.littleEndian, writer)
    requires tail == Readable(ba)[Least(|buf|, |Readable(ba)|)..]
    modifies ba`position, ba`capacity, ba`size, ba`cur, ba`nodes, ba`blocks, ba`at, ba`repr, ba.repr
    ensures ba.Valid() && ba.position == old(ba.position) && Readable(ba) == buf + tail
    ensures Snug(old(ba.capacity), ba.capacity, ba.position + |buf|, ba.baseSize)
  {
    ba.CursorIsBlock();
    var start := ba.position;
    ghost var was := Now(ba);
    WriteAll(ba, ks, vs, writer, was, [], buf);
    WrittenReads(was.mem, start, was.size, buf, ba.Mem());
    var _ := ba.SetPosition(start);
  }

  /** The same, and whether that has used up the capacity. */
  method WriteFilling(ba: ByteArray, ks: seq<Kind>, vs: seq<Value>, writer: bool,
                      ghost buf: seq<byte>, ghost tail: seq<byte>)
    returns (ghost full: bool)
    requires ba.Valid() && AdmitsAll(ks, vs) && buf == EncodeAll(ks, vs, ba.littleEndian, writer)
    requires tail == Readable(ba)[Least(|buf|, |Readable(ba)|)..]
    modifies ba`position, ba`capacity, ba`size, ba`cur, ba`nodes, ba`blocks, ba`at, ba`repr, ba.repr
    ensures ba.Valid() && ba.position == old(ba.position) && Readable(ba) == buf + tail
    ensures full <==> tail == [] && ba.size == ba.capacity
    ensures full <==> Boundary(old(ba.position) + |buf|, old(ba.capacity), ba.baseSize)
  {
    WriteAndReturn(ba, ks, vs, writer, buf, tail);
    FullAtEnd(ba, buf, tail, old(ba.capacity));
    full := tail == [] && ba.size == ba.capacity;
  }

  /** The list theorem on the linked buffer: values written at any position of any buffer and then read from that
      position with the same kinds are the same values, and the position ends where it was after writing, exactly
      when all are faithful and the last is not an empty string that ends at a block boundary past everything the
      buffer had room for before. */
  method WriteThenRead(ba: ByteArray, ks: seq<Kind>, vs: seq<Value>, writer: bool, m: Machine, ghost buf: seq<byte>)
    returns (r: Outcome<seq<Value>>, ghost full: bool)
    requires ba.Valid() && AdmitsAll(ks, vs) && buf == EncodeAll(ks, vs, ba.littleEndian, writer)
    modifies ba`position, ba`capacity, ba`size, ba`cur, ba`nodes, ba`blocks, ba`at, ba`repr, ba.repr
    ensures ba.Valid()
    ensures full <==> Boundary(old(ba.position) + |buf|, old(ba.capacity), ba.baseSize)
    ensures (r == Ok(vs) && ba.position == old(ba.position) + |buf|)
            <==> AllFaithful(ks, vs) && !(ks != [] && Empty(vs[|vs| - 1]) && full)
  {
    ghost var tail := Readable(ba)[Least(|buf|, |Readable(ba)|)..];
    full := WriteFilling(ba, ks, vs, writer, buf, tail);
    r := ReadBack(ba, ks, vs, writer, m, buf, tail, full);
  }
}
