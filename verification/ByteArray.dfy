/** A flat memory cut into equal blocks: position p lies in block p / b at offset p % b. */
module Blocks {
  import opened Arith

  type byte = x: int | 0 <= x < 256

  function Flat(bs: seq<seq<byte>>): seq<byte> {
    if bs == [] then [] else bs[0] + Flat(bs[1..])
  }

  /** All blocks have b bytes. */
  predicate Equal(bs: seq<seq<byte>>, b: nat) {
    forall i :: 0 <= i < |bs| ==> |bs[i]| == b
  }

  /** The flat memory with the bytes from p on replaced by buf. */
  function Splice(mem: seq<byte>, p: nat, buf: seq<byte>): seq<byte>
    requires p + |buf| <= |mem|
  {
    mem[..p] + buf + mem[p + |buf|..]
  }

  lemma {:induction false} FlatLength(bs: seq<seq<byte>>, b: nat)
    requires Equal(bs, b)
    ensures |Flat(bs)| == b * |bs|
  {
    if bs != [] {
      FlatLength(bs[1..], b);
    }
  }

  lemma {:induction false} FlatConcat(xs: seq<seq<byte>>, ys: seq<seq<byte>>)
    ensures Flat(xs + ys) == Flat(xs) + Flat(ys)
  {
    if xs == [] {
      assert xs + ys == ys;
    } else {
      FlatConcat(xs[1..], ys);
      assert (xs + ys)[1..] == xs[1..] + ys;
    }
  }

  lemma FlatPrefix(xs: seq<seq<byte>>, ys: seq<seq<byte>>)
    requires xs <= ys
    ensures Flat(xs) <= Flat(ys)
  {
    FlatConcat(xs, ys[|xs|..]);
    assert ys == xs + ys[|xs|..];
  }

  /** Block i sits between the blocks before and after it. */
  lemma FlatAround(bs: seq<seq<byte>>, i: nat)
    requires i < |bs|
    ensures Flat(bs) == Flat(bs[..i]) + bs[i] + Flat(bs[i + 1..])
  {
    FlatConcat(bs[..i], bs[i..]);
    assert bs == bs[..i] + bs[i..];
    assert bs[i..][1..] == bs[i + 1..];
  }

  /** Bytes of one block are the flat bytes at its positions. */
  lemma FlatSlice(bs: seq<seq<byte>>, b: nat, i: nat, o: nat, n: nat)
    requires Equal(bs, b) && i < |bs| && o + n <= b
    ensures b * i + o + n <= |Flat(bs)| && Flat(bs)[b * i + o..b * i + o + n] == bs[i][o..o + n]
  {
    FlatAround(bs, i);
    FlatLength(bs[..i], b);
  }

  lemma SpliceStep(mem: seq<byte>, p: nat, a: seq<byte>, b: seq<byte>)
    requires p + |a| + |b| <= |mem|
    ensures Splice(Splice(mem, p, a), p + |a|, b) == Splice(mem, p, a + b)
  {
  }

  lemma SpliceMiddle(pre: seq<byte>, block: seq<byte>, post: seq<byte>, o: nat, buf: seq<byte>)
    requires o + |buf| <= |block|
    ensures pre + Splice(block, o, buf) + post == Splice(pre + block + post, |pre| + o, buf)
  {
    var flat := pre + block + post;
    assert flat[..|pre| + o] == pre + block[..o];
    assert flat[|pre| + o + |buf|..] == block[o + |buf|..] + post;
  }

  /** Overwriting inside one block overwrites the flat memory at its positions. */
  lemma FlatUpdate(bs: seq<seq<byte>>, b: nat, i: nat, o: nat, buf: seq<byte>)
    requires Equal(bs, b) && i < |bs| && o + |buf| <= b
    ensures b * i + o + |buf| <= |Flat(bs)|
    ensures Flat(bs[i := Splice(bs[i], o, buf)]) == Splice(Flat(bs), b * i + o, buf)
  {
    var bs' := bs[i := Splice(bs[i], o, buf)];
    FlatAround(bs, i);
    FlatAround(bs', i);
    FlatLength(bs[..i], b);
    assert bs'[..i] == bs[..i] && bs'[i + 1..] == bs[i + 1..];
    SpliceMiddle(Flat(bs[..i]), bs[i], Flat(bs[i + 1..]), o, buf);
  }

  /** With more than a block to go there is a next block. */
  lemma NextExists(b: int, i: int, count: int, rest: int)
    requires b > 0 && b * i + rest <= b * count && rest >= b
    ensures i < count && (rest > b ==> i + 1 < count) && b * (i + 1) == b * i + b
  {
    if i + 1 > count {
      MulMono(b, count, i);
    } else if i + 1 == count {
    }
  }
}

/**
  The byte buffer as a linked list of equal blocks with a cached cursor node, updated in
  place, and its agreement with one flat memory `Mem()`: the readable bytes are
  `Mem()[position..size]`, and the cursor is always the block of the position, null exactly
  at the end of the capacity.
*/
module ByteArray {
  import opened Arith
  import opened Blocks

  class Node {
    const ptr: array<byte>
    const size: nat
    var next: Node?

    constructor (size: nat)
      ensures this.size == size && ptr.Length == size && fresh(ptr) && next == null
    {
      this.ptr := new byte[size];
      this.size := size;
      this.next := null;
    }
  }

  /** The capacity after AddCapacity(n): whole blocks are added until n bytes fit at the position. */
  function Grown(capacity: nat, position: nat, n: nat, base: nat): nat
    requires base > 0 && position <= capacity
  {
    if n == 0 || capacity - position >= n then capacity
    else capacity + base * ((n - (capacity - position) + base - 1) / base)
  }

  function Larger(a: nat, b: nat): nat {
    if b > a then b else a
  }

  function Least(a: nat, b: nat): nat {
    if a < b then a else b
  }

  /** mem' is mem, possibly longer, with buf at p. */
  ghost predicate Written(mem: seq<byte>, p: nat, buf: seq<byte>, mem': seq<byte>) {
    && p <= |mem| <= |mem'| && p + |buf| <= |mem'|
    && mem'[..p] == mem[..p]
    && mem'[p..p + |buf|] == buf
    && forall k :: p + |buf| <= k < |mem| ==> mem'[k] == mem[k]
  }

  lemma SplicedIsWritten(mem: seq<byte>, grown: seq<byte>, p: nat, data: seq<byte>)
    requires mem <= grown && p <= |mem| && p + |data| <= |grown|
    ensures Written(mem, p, data, Splice(grown, p, data))
  {
  }

  /** One write after another is the write of both. */
  lemma WrittenStep(mem: seq<byte>, p: nat, a: seq<byte>, mem1: seq<byte>, b: seq<byte>, mem2: seq<byte>)
    requires Written(mem, p, a, mem1) && Written(mem1, p + |a|, b, mem2)
    ensures Written(mem, p, a + b, mem2)
  {
    assert mem2[..p] == mem2[..p + |a|][..p];
    assert mem2[p..p + |a|] == mem2[..p + |a|][p..];
    assert mem2[p..p + |a + b|] == mem2[p..p + |a|] + mem2[p + |a|..p + |a| + |b|];
  }

  /** What `Read` comes to: bytes, the exception, or the null dereference. */
  datatype ReadOutcome = Bytes(data: seq<byte>) | OutOfRange | NullCursor

  /** What `WriteToFile` comes to: the bytes it emitted, or a null dereference or negative length. */
  datatype FileOutcome = Emitted(data: seq<byte>) | Broken

  /** One iovec: len bytes of a block from an offset on. */
  datatype Iovec = Iovec(node: Node, off: nat, len: nat)

  /** The segments of the n positions from offset o of block i on, block by block. */
  ghost function Segments(nodes: seq<Node>, b: nat, i: nat, o: nat, n: nat): seq<Iovec>
    requires b > 0 && o < b && i <= |nodes|
    decreases |nodes| - i
  {
    if n == 0 || i == |nodes| then []
    else if n <= b - o then [Iovec(nodes[i], o, n)]
    else [Iovec(nodes[i], o, b - o)] + Segments(nodes, b, i + 1, 0, n - (b - o))
  }

  /** The bytes a list of segments refers to. */
  ghost function Content(iovs: seq<Iovec>): seq<byte>
    reads set v | v in iovs :: v.node.ptr
  {
    if iovs == [] || iovs[0].off + iovs[0].len > iovs[0].node.ptr.Length then []
    else iovs[0].node.ptr[iovs[0].off..iovs[0].off + iovs[0].len] + Content(iovs[1..])
  }

  class ByteArray {
    const baseSize: nat
    var position: nat
    var capacity: nat
    var size: nat
    var littleEndian: bool
    var root: Node
    var cur: Node?
    ghost var nodes: seq<Node>          // the blocks from root_ on
    ghost var blocks: seq<seq<byte>>    // what they hold
    ghost var at: nat                   // which block the position is in
    ghost var repr: set<object>         // the blocks and their memory

    ghost predicate Valid()
      reads this, repr
    {
      Linked() && Placed() && position <= size <= capacity
    }

    /** The blocks are distinct, of the base size, and linked in order. */
    ghost predicate Linked()
      reads this, repr
    {
      && this !in repr && (forall i :: 0 <= i < |nodes| ==> nodes[i] in repr && nodes[i].ptr in repr)
      && baseSize > 0 && |blocks| == |nodes| > 0 && root == nodes[0] && capacity == baseSize * |nodes|
      && Equal(blocks, baseSize)
      && (forall i :: 0 <= i < |nodes| ==>
            nodes[i].size == nodes[i].ptr.Length == baseSize && nodes[i].ptr[..] == blocks[i])
      && (forall i {:trigger nodes[i].next} :: 0 <= i < |nodes| ==>
            nodes[i].next == if i + 1 < |nodes| then nodes[i + 1] else null)
      && (forall i, j :: 0 <= i < j < |nodes| ==> nodes[i] != nodes[j] && nodes[i].ptr != nodes[j].ptr)
    }

    /** The cursor is the block the position is in. */
    ghost predicate Placed()
      reads this
    {
      && at <= |nodes| && baseSize * at <= position < baseSize * at + baseSize
      && (at == |nodes| ==> position == capacity)
      && cur == if at < |nodes| then nodes[at] else null
    }

    /** All blocks as one memory. */
    ghost function Mem(): seq<byte>
      reads this
    {
      Flat(blocks)
    }

    constructor (baseSize: nat)
      requires baseSize > 0
      ensures Valid() && this.baseSize == baseSize == capacity && position == size == 0 && littleEndian
      ensures fresh(repr)
    {
      this.baseSize, position, capacity, size, littleEndian := baseSize, 0, baseSize, 0, true;
      var n := new Node(baseSize);
      root, cur := n, n;
      nodes, blocks, at, repr := [n], [n.ptr[..]], 0, {n, n.ptr};
    }

    /** The cursor is null exactly at the end of the capacity, and otherwise block position / base size. */
    lemma CursorIsBlock()
      requires Valid()
      ensures |Mem()| == capacity
      ensures cur == null <==> position == capacity
      ensures position < capacity ==> position / baseSize < |nodes| && cur == nodes[position / baseSize]
    {
      FlatLength(blocks, baseSize);
      QuotientRemainder(position, baseSize, at, position - baseSize * at);
      if at < |nodes| {
        MulMono(baseSize, at, |nodes| - 1);
      }
    }

    /** memcpy into block i. */
    method CopyIn(node: Node, ghost i: nat, npos: nat, chunk: seq<byte>)
      requires Linked() && i < |nodes| && node == nodes[i] && npos + |chunk| <= baseSize
      modifies this`blocks, node.ptr
      ensures Linked() && blocks == old(blocks)[i := Splice(old(blocks)[i], npos, chunk)]
    {
      forall j | 0 <= j < |chunk| {
        node.ptr[npos + j] := chunk[j];
      }
      blocks := blocks[i := node.ptr[..]];
      assert node.ptr[..] == Splice(old(blocks)[i], npos, chunk);
    }

    /** Advance by n within the cursor block; the cursor moves on when the block is used up. */
    method Advance(npos: nat, n: nat)
      requires Linked() && at < |nodes| && cur == nodes[at] && position == baseSize * at + npos
      requires 0 < n && npos + n <= baseSize
      modifies this`position, this`cur, this`at
      ensures Linked() && Placed() && position == old(position) + n
      ensures npos + n == baseSize ==> position == baseSize * at
    {
      position := position + n;
      if cur.size == npos + n {
        cur := cur.next;
        at := at + 1;
      }
    }

    /** memcpy into the cursor block, then advance. */
    method PutChunk(npos: nat, chunk: seq<byte>)
      requires Linked() && at < |nodes| && cur == nodes[at] && position == baseSize * at + npos
      requires 0 < |chunk| && npos + |chunk| <= baseSize
      modifies this`blocks, this`position, this`cur, this`at, cur.ptr
      ensures Linked() && Placed() && position == old(position) + |chunk|
      ensures npos + |chunk| == baseSize ==> position == baseSize * at
      ensures position <= |old(Mem())| && Mem() == Splice(old(Mem()), old(position), chunk)
    {
      FlatUpdate(blocks, baseSize, at, npos, chunk);
      CopyIn(cur, at, npos, chunk);
      Advance(npos, |chunk|);
    }

    /** Link one new block after the last one. */
    method AppendBlock(tail: Node) returns (node: Node)
      requires Linked() && tail == nodes[|nodes| - 1]
      modifies this`capacity, this`nodes, this`blocks, this`repr, tail`next
      ensures Linked() && nodes == old(nodes) + [node] && repr == old(repr) + {node, node.ptr}
      ensures fresh(node) && fresh(node.ptr) && old(blocks) <= blocks
    {
      node := new Node(baseSize);
      tail.next := node;
      capacity := capacity + baseSize;
      nodes := nodes + [node];
      blocks := blocks + [node.ptr[..]];
      repr := repr + {node, node.ptr};
    }

    /** The last block. */
    method Tail() returns (tail: Node)
      requires Linked()
      ensures tail == nodes[|nodes| - 1]
    {
      tail := root;
      ghost var k := 0;
      while tail.next != null
        invariant k < |nodes| && tail == nodes[k]
        decreases |nodes| - k
      {
        tail := tail.next;
        k := k + 1;
      }
    }

    /** Link count new blocks; `first` is the first of them. */
    method AppendBlocks(count: nat) returns (first: Node?)
      requires Linked()
      modifies this`capacity, this`nodes, this`blocks, this`repr, repr
      ensures Linked() && |nodes| == |old(nodes)| + count && old(nodes) <= nodes && old(blocks) <= blocks
      ensures capacity == old(capacity) + baseSize * count
      ensures old(repr) <= repr && fresh(repr - old(repr))
      ensures first == if count > 0 then nodes[|old(nodes)|] else null
    {
      var tail := Tail();
      first := null;
      var i := 0;
      while i < count
        invariant 0 <= i <= count && Linked() && |nodes| == |old(nodes)| + i && tail == nodes[|nodes| - 1]
        invariant old(nodes) <= nodes && old(blocks) <= blocks
        invariant old(repr) <= repr && fresh(repr - old(repr))
        invariant first == if i > 0 then nodes[|old(nodes)|] else null
      {
        tail := AppendBlock(tail);
        if first == null {
          first := tail;
        }
        i := i + 1;
      }
    }

    /** `AddCapacity`: room for n more bytes at the position; nothing else changes. */
    method AddCapacity(n: nat)
      requires Valid()
      modifies this`capacity, this`nodes, this`blocks, this`cur, this`repr, repr
      ensures Valid() && old(nodes) <= nodes && old(blocks) <= blocks
      ensures old(repr) <= repr && fresh(repr - old(repr))
      ensures capacity == Grown(old(capacity), position, n, baseSize) && position + n <= capacity
    {
      if n == 0 || capacity - position >= n {
        return;
      }
      CursorIsBlock();
      var room := capacity - position;
      var count := (n - room + baseSize - 1) / baseSize;
      RoundsUp(n - room, baseSize, count);
      assert at < |nodes| <==> room > 0;
      var first := AppendBlocks(count);
      if room == 0 {
        cur := first;
      }
    }

    /** One pass of the copy loop: fill the cursor block from npos on, as far as the bytes reach. */
    method CopyNext(buf: seq<byte>, bpos: nat, npos: nat, ghost was: seq<byte>, ghost start: nat) returns (next: nat)
      requires Linked() && Placed() && bpos < |buf| && position == start + bpos == baseSize * at + npos
      requires start + |buf| <= capacity == |was| && Mem() == Splice(was, start, buf[..bpos])
      modifies this`position, this`cur, this`blocks, this`at, repr
      ensures Linked() && Placed() && bpos < next <= |buf| && position == start + next
      ensures next < |buf| ==> position == baseSize * at
      ensures Mem() == Splice(was, start, buf[..next])
    {
      CursorInside();
      var ncap := cur.size - npos;
      var left := |buf| - bpos;
      var n := if ncap >= left then left else ncap;
      next := bpos + n;
      SpliceStep(was, start, buf[..bpos], buf[bpos..next]);
      assert buf[..bpos] + buf[bpos..next] == buf[..next];
      PutChunk(npos, buf[bpos..next]);
    }

    /** The copy loop of `Write`, once there is room. */
    method CopyAll(buf: seq<byte>)
      requires Valid() && 0 < |buf| && position + |buf| <= capacity
      modifies this`position, this`cur, this`blocks, this`at, repr
      ensures Linked() && Placed() && position == old(position) + |buf| <= |old(Mem())|
      ensures Mem() == Splice(old(Mem()), old(position), buf)
    {
      CursorIsBlock();
      QuotientRemainder(position, baseSize, at, position - baseSize * at);
      ghost var start, was := position, Mem();
      var npos := position % baseSize;
      var bpos := 0;
      while bpos < |buf|
        invariant 0 <= bpos <= |buf| && position == start + bpos && Linked() && Placed()
        invariant Mem() == Splice(was, start, buf[..bpos])
        invariant npos >= 0 && (bpos < |buf| ==> position == baseSize * at + npos)
      {
        bpos := CopyNext(buf, bpos, npos, was, start);
        npos := 0;
      }
      assert buf[..bpos] == buf;
    }

    /** Before the end of the capacity the cursor is a block. */
    lemma CursorInside()
      requires Linked() && Placed() && position < capacity
      ensures at < |nodes| && cur == nodes[at]
    {
    }

    /** Make room, then copy. */
    method Put(buf: seq<byte>)
      requires Valid() && 0 < |buf|
      modifies this`position, this`capacity, this`cur, this`nodes, this`blocks, this`at, this`repr, repr
      ensures Linked() && Placed() && old(repr) <= repr && fresh(repr - old(repr))
      ensures position == old(position) + |buf| <= capacity
      ensures capacity == Grown(old(capacity), old(position), |buf|, baseSize) >= old(capacity)
      ensures Written(old(Mem()), old(position), buf, Mem())
    {
      CursorIsBlock();
      ghost var before, p := blocks, position;
      AddCapacity(|buf|);
      FlatPrefix(before, blocks);
      ghost var grown := Mem();
      CursorIsBlock();
      CopyAll(buf);
      SplicedIsWritten(Flat(before), grown, p, buf);
    }

    /** `Write`: the bytes overwrite the memory at the position, which moves past them; the capacity grows by
        whole blocks if needed and the size if the position passed it. */
    method Write(buf: seq<byte>)
      requires Valid()
      modifies this`position, this`capacity, this`size, this`cur, this`nodes, this`blocks, this`at, this`repr, repr
      ensures Valid() && old(repr) <= repr && fresh(repr - old(repr))
      ensures position == old(position) + |buf| && size == Larger(old(size), position)
      ensures capacity == Grown(old(capacity), old(position), |buf|, baseSize)
      ensures Written(old(Mem()), old(position), buf, Mem())
    {
      if |buf| == 0 {
        CursorIsBlock();
        return;
      }
      Put(buf);
      if position > size {
        size := position;
      }
    }

    /** memcpy out of the cursor block. */
    method CopyOut(npos: nat, n: nat) returns (out: seq<byte>)
      requires Linked() && at < |nodes| && cur == nodes[at] && position == baseSize * at + npos && npos + n <= baseSize
      ensures position + n <= |Mem()| && out == Mem()[position..position + n]
    {
      out := cur.ptr[npos..npos + n];
      FlatSlice(blocks, baseSize, at, npos, n);
    }

    /** One pass of the read loop: the rest of the cursor block, as far as wanted. */
    method TakeNext(npos: nat, left: nat) returns (chunk: seq<byte>)
      requires Linked() && Placed() && 0 < left && position == baseSize * at + npos
      requires position + left <= capacity == |Mem()|
      modifies this`position, this`cur, this`at
      ensures Linked() && Placed() && 0 < |chunk| <= left && position == old(position) + |chunk|
      ensures chunk == Mem()[old(position)..position]
      ensures |chunk| < left ==> position == baseSize * at
    {
      CursorInside();
      var ncap := cur.size - npos;
      var n := if ncap >= left then left else ncap;
      chunk := CopyOut(npos, n);
      Advance(npos, n);
    }

    /** `Read`: hands out the next n readable bytes and moves past them; refuses more than are readable. Its
        first use of the cursor makes it fail on an empty read exactly at the end of the capacity. */
    method Read(n: nat) returns (r: ReadOutcome)
      requires Valid()
      modifies this`position, this`cur, this`at
      ensures Valid()
      ensures r == OutOfRange <==> n > size - old(position)
      ensures r == NullCursor <==> n == 0 && old(position) == capacity
      ensures r.Bytes? ==> position == old(position) + n <= |Mem()| && r.data == Mem()[old(position)..position]
      ensures !r.Bytes? ==> position == old(position)
    {
      CursorIsBlock();
      if n > size - position {
        return OutOfRange;
      }
      if cur == null {
        return NullCursor;
      }
      QuotientRemainder(position, baseSize, at, position - baseSize * at);
      ghost var start := position;
      var out: seq<byte> := [];
      var npos := position % baseSize;
      while |out| < n
        invariant |out| <= n && position == start + |out| && Linked() && Placed()
        invariant start + n <= capacity == |Mem()| && out == Mem()[start..position]
        invariant npos >= 0 && (|out| < n ==> position == baseSize * at + npos)
      {
        var chunk := TakeNext(npos, n - |out|);
        out := out + chunk;
        npos := 0;
      }
      r := Bytes(out);
    }

    /** The walk of `SetPosition` from the root. */
    method Seek(v: nat)
      requires Linked() && v == position <= capacity
      modifies this`cur, this`at
      ensures Placed()
    {
      cur, at := root, 0;
      var w := v;
      while w > cur.size
        invariant at < |nodes| && cur == nodes[at] && v == baseSize * at + w && w >= 0
        decreases w
      {
        NextExists(baseSize, at, |nodes|, w);
        w := w - cur.size;
        cur := cur.next;
        at := at + 1;
      }
      if w == cur.size {
        NextExists(baseSize, at, |nodes|, w);
        cur := cur.next;
        at := at + 1;
      }
    }

    /** `SetPosition`: refuses positions past the capacity; a position past the size extends the size over
        whatever the memory holds. */
    method SetPosition(v: nat) returns (ok: bool)
      requires Valid()
      modifies this`position, this`size, this`cur, this`at
      ensures Valid() && (ok <==> v <= capacity)
      ensures position == (if ok then v else old(position)) && size == if ok then Larger(old(size), v) else old(size)
    {
      if v > capacity {
        return false;
      }
      position := v;
      if position > size {
        size := position;
      }
      Seek(v);
      ok := true;
    }

    /** Drop all blocks but the first. */
    method KeepFirst()
      requires Linked()
      modifies this`capacity, this`nodes, this`blocks, root`next
      ensures Linked() && |nodes| == 1 && capacity == baseSize && blocks == old(blocks)[..1]
    {
      capacity := baseSize;
      root.next := null;
      nodes, blocks := nodes[..1], blocks[..1];
    }

    /** `Clear`: back to the first block, empty. */
    method Clear()
      requires Valid()
      modifies this, root`next
      ensures Valid() && position == size == 0 && capacity == baseSize
      ensures repr == old(repr) && littleEndian == old(littleEndian)
      ensures Mem() == old(Mem())[..baseSize]
    {
      FlatAround(blocks, 0);
      position, size, cur, at := 0, 0, root, 0;
      KeepFirst();
      assert Flat(blocks) == blocks[0] + Flat([]);
    }

    /** The segments of the next n positions. */
    ghost function NextSegments(n: nat): seq<Iovec>
      requires Linked() && Placed()
      reads this, repr
    {
      Segments(nodes, baseSize, at, position - baseSize * at, n)
    }

    /** The gather loop the three buffer functions share: from a block and an offset, until len bytes are
        covered. It falls off the last block exactly when they do not fit the capacity. */
    method Gather(start: Node, ghost i: nat, npos: nat, len: nat) returns (ok: bool, iovs: seq<Iovec>)
      requires Linked() && i < |nodes| && start == nodes[i] && npos < baseSize
      ensures ok <==> len == 0 || baseSize * i + npos + len <= capacity
      ensures ok ==> iovs == Segments(nodes, baseSize, i, npos, len)
    {
      ok, iovs := true, [];
      var left: nat, off: nat, ncap: nat := len, npos, baseSize - npos;
      var node: Node := start;
      ghost var k: nat := i;
      while left > 0 && ok
        invariant left <= len && k <= |nodes| && off < baseSize && ncap == baseSize - off
        invariant left > 0 && ok ==> k < |nodes| && node == nodes[k]
        invariant left > 0 ==> baseSize * k + off + left == baseSize * i + npos + len
        invariant left == 0 && len > 0 ==> ok && baseSize * i + npos + len <= capacity
        invariant !ok ==> left > 0 && baseSize * k + off + left > capacity
        invariant ok ==> Segments(nodes, baseSize, i, npos, len) == iovs + Segments(nodes, baseSize, k, off, left)
        decreases left, ok
      {
        GatherTurn(k, off, left);
        if ncap >= left {
          iovs := iovs + [Iovec(node, off, left)];
          left := 0;
        } else if node.next == null {
          ok := false;
        } else {
          iovs := iovs + [Iovec(node, off, ncap)];
          left := left - ncap;
          node := node.next;
          k := k + 1;
          ncap := node.size;
          off := 0;
        }
      }
    }

    /** Where the bytes still wanted end, seen from block k. */
    lemma GatherTurn(k: nat, off: nat, left: nat)
      requires Linked() && k < |nodes| && off < baseSize
      ensures off + left <= baseSize ==> baseSize * k + off + left <= capacity
      ensures off + left > baseSize && k + 1 == |nodes| ==> baseSize * k + off + left > capacity
      ensures baseSize * (k + 1) == baseSize * k + baseSize
    {
      MulMono(baseSize, k + 1, |nodes|);
    }

    /** `GetReadBuffers` from the cursor: at most the readable bytes. */
    method GetReadBuffers(len: nat) returns (iovs: seq<Iovec>, total: nat)
      requires Valid()
      ensures total == Least(len, size - position) && iovs == NextSegments(total)
    {
      total := if len > size - position then size - position else len;
      if total == 0 {
        return [], 0;
      }
      CursorIsBlock();
      CursorInside();
      QuotientRemainder(position, baseSize, at, position - baseSize * at);
      var _, found := Gather(cur, at, position % baseSize, total);
      iovs := found;
    }

    /** `GetReadBuffers` at a given position, walking from the root. It asks for as many bytes as are readable at
        the buffer's own position, and runs off the last block exactly when there are some and they do not fit
        behind the given one. */
    method GetReadBuffersAt(len: nat, from: nat) returns (ok: bool, iovs: seq<Iovec>, total: nat)
      requires Valid()
      ensures total == Least(len, size - position) && (ok <==> total == 0 || from + total <= capacity)
      ensures ok && total == 0 ==> iovs == []
      ensures ok && total > 0 ==>
                from / baseSize < |nodes| && iovs == Segments(nodes, baseSize, from / baseSize, from % baseSize, total)
    {
      total := if len > size - position then size - position else len;
      if total == 0 {
        return true, [], total;
      }
      BlockOf(from);
      var node := Walk(from / baseSize);
      if node == null {
        return false, [], total;
      }
      ok, iovs := Gather(node, from / baseSize, from % baseSize, total);
    }

    /** Follow count links from the root; null when there are not so many. */
    method Walk(count: nat) returns (node: Node?)
      requires Linked()
      ensures node == if count < |nodes| then nodes[count] else null
    {
      node := root;
      var left := count;
      while left > 0 && node != null
        invariant 0 <= left <= count && count - left <= |nodes|
        invariant node == if count - left < |nodes| then nodes[count - left] else null
      {
        node := node.next;
        left := left - 1;
      }
    }

    lemma BlockOf(p: nat)
      requires Linked()
      ensures p == baseSize * (p / baseSize) + p % baseSize && (p < capacity <==> p / baseSize < |nodes|)
    {
      assert p == baseSize * (p / baseSize) + p % baseSize;
      if p / baseSize < |nodes| {
        MulMono(baseSize, p / baseSize + 1, |nodes|);
      } else {
        MulMono(baseSize, |nodes|, p / baseSize);
      }
    }

    /** Walking from the root to the buffer's own position finds the same segments as the cursor. */
    lemma CursorAgreesWithWalk(n: nat)
      requires Valid()
      ensures position / baseSize <= |nodes|
      ensures Segments(nodes, baseSize, position / baseSize, position % baseSize, n) == NextSegments(n)
    {
      QuotientRemainder(position, baseSize, at, position - baseSize * at);
    }

    /** The segments are not empty, lie inside consecutive blocks, one in each, and so do not overlap. */
    lemma {:induction false} SegmentsInside(i: nat, o: nat, n: nat)
      requires Linked() && i <= |nodes| && o < baseSize
      ensures var segs := Segments(nodes, baseSize, i, o, n);
              && i + |segs| <= |nodes|
              && (forall a :: 0 <= a < |segs| ==> segs[a].node == nodes[i + a] && IsInside(segs[a]))
              && (forall a, b :: 0 <= a < b < |segs| ==> segs[a].node != segs[b].node)
      decreases |nodes| - i
    {
      if n > baseSize - o && i < |nodes| {
        SegmentsInside(i + 1, 0, n - (baseSize - o));
      }
    }

    predicate IsInside(v: Iovec) {
      0 < v.len && v.off + v.len <= baseSize
    }

    /** What the first of several segments refers to, and the rest. */
    lemma ContentSplit(i: nat, o: nat, n: nat)
      requires Linked() && i < |nodes| && o < baseSize && n > baseSize - o
      ensures Content(Segments(nodes, baseSize, i, o, n))
              == blocks[i][o..baseSize] + Content(Segments(nodes, baseSize, i + 1, 0, n - (baseSize - o)))
    {
      var segs := Segments(nodes, baseSize, i, o, n);
      assert segs[0] == Iovec(nodes[i], o, baseSize - o);
      assert segs[1..] == Segments(nodes, baseSize, i + 1, 0, n - (baseSize - o));
      assert nodes[i].ptr[o..baseSize] == blocks[i][o..baseSize];
    }

    lemma ContentLast(i: nat, o: nat, n: nat)
      requires Linked() && i < |nodes| && o < baseSize && 0 < n <= baseSize - o
      ensures Content(Segments(nodes, baseSize, i, o, n)) == blocks[i][o..o + n]
    {
      var segs := Segments(nodes, baseSize, i, o, n);
      assert segs[0] == Iovec(nodes[i], o, n) && segs[1..] == [];
      assert nodes[i].ptr[o..o + n] == blocks[i][o..o + n];
      assert Content(segs[1..]) == [];
    }

    lemma BlockSlice(i: nat, o: nat, n: nat, p: nat)
      requires Linked() && i < |nodes| && o + n <= baseSize && p == baseSize * i + o && p + n <= |Mem()|
      ensures Mem()[p..p + n] == blocks[i][o..o + n]
    {
      FlatSlice(blocks, baseSize, i, o, n);
    }

    lemma HoldLast(i: nat, o: nat, n: nat, p: nat)
      requires Linked() && i < |nodes| && o < baseSize && 0 < n <= baseSize - o
      requires p == baseSize * i + o && p + n <= |Mem()|
      ensures Content(Segments(nodes, baseSize, i, o, n)) == Mem()[p..p + n]
    {
      BlockSlice(i, o, n, p);
      ContentLast(i, o, n);
    }

    lemma HoldSplit(i: nat, o: nat, n: nat, p: nat, m: nat)
      requires Linked() && i < |nodes| && o < baseSize && m == baseSize - o < n
      requires p == baseSize * i + o && p + n <= |Mem()|
      requires Content(Segments(nodes, baseSize, i + 1, 0, n - m)) == Mem()[p + m..p + n]
      ensures Content(Segments(nodes, baseSize, i, o, n)) == Mem()[p..p + n]
    {
      BlockSlice(i, o, m, p);
      ContentSplit(i, o, n);
      Joined(Mem(), p, m, n);
    }

    /** The segments hold exactly the flat bytes they stand for. */
    lemma {:induction false} SegmentsHold(i: nat, o: nat, n: nat, p: nat)
      requires Linked() && i <= |nodes| && o < baseSize && p == baseSize * i + o && p + n <= capacity == |Mem()|
      ensures Content(Segments(nodes, baseSize, i, o, n)) == Mem()[p..p + n]
      decreases |nodes| - i
    {
      if n > 0 {
        SegmentStart(i, o, n);
        if n <= baseSize - o {
          HoldLast(i, o, n, p);
        } else {
          var m := baseSize - o;
          NextExists(baseSize, i, |nodes|, o + n);
          SegmentsHold(i + 1, 0, n - m, p + m);
          HoldSplit(i, o, n, p, m);
        }
      }
    }

    lemma Joined(mem: seq<byte>, p: nat, m: nat, n: nat)
      requires m <= n && p + n <= |mem|
      ensures mem[p..p + m] + mem[p + m..p + n] == mem[p..p + n]
    {
    }

    /** The segments handed to the kernel stand for the next n flat bytes. */
    lemma NextSegmentsHold(n: nat)
      requires Valid() && position + n <= capacity
      ensures |Mem()| == capacity && Content(NextSegments(n)) == Mem()[position..position + n]
      ensures forall v :: v in NextSegments(n) ==> v.off + v.len <= v.node.ptr.Length
    {
      CursorIsBlock();
      SegmentsInside(at, position - baseSize * at, n);
      SegmentsHold(at, position - baseSize * at, n, position);
    }

    lemma SegmentStart(i: nat, o: nat, n: nat)
      requires Linked() && i <= |nodes| && n > 0 && baseSize * i + o + n <= capacity
      ensures i < |nodes|
    {
    }

    /** `GetWriteBuffers`: makes room, then the segments of the next len positions. */
    method GetWriteBuffers(len: nat) returns (iovs: seq<Iovec>)
      requires Valid()
      modifies this`capacity, this`nodes, this`blocks, this`cur, this`repr, repr
      ensures Valid() && old(blocks) <= blocks && old(repr) <= repr && fresh(repr - old(repr))
      ensures capacity == Grown(old(capacity), position, len, baseSize) && position + len <= capacity
      ensures iovs == NextSegments(len) && old(Mem()) <= Mem() && position <= |old(Mem())| && |Mem()| == capacity
    {
      CursorIsBlock();
      ghost var before := blocks;
      if len == 0 {
        return [];
      }
      AddCapacity(len);
      FlatPrefix(before, blocks);
      CursorIsBlock();
      CursorInside();
      QuotientRemainder(position, baseSize, at, position - baseSize * at);
      var _, found := Gather(cur, at, position % baseSize, len);
      iovs := found;
    }

    /** The loop of WriteToFile will go well from here: the rest of this block, then whole blocks. */
    ghost predicate GoesWell(k: nat, pos: int, readSize: int)
      reads this
    {
      && k < |nodes| && readSize > 0 && baseSize * k <= pos < baseSize * k + baseSize && pos + readSize <= capacity
      && (pos == baseSize * k || readSize >= baseSize)
    }

    ghost predicate EmittedSoFar(out: seq<byte>, pos: int, readSize: int)
      reads this
    {
      0 <= readSize && position <= pos == size - readSize <= |Mem()| && out == Mem()[position..pos]
    }

    /** The loop of WriteToFile is off the track: less than a block from inside a block (o < base size bytes in,
        n bytes to go), or what one bad turn makes of that. */
    ghost predicate GoesWrong(pos: int, readSize: int, o: nat, n: nat) {
      && baseSize > 0 && 0 < o < baseSize && 0 < n < baseSize && pos >= 0
      && ((readSize == n && pos % baseSize == o) || (readSize == o < n == pos % baseSize))
    }

    lemma StaysWrong(pos: int, readSize: int, o: nat, n: nat, len: int)
      requires GoesWrong(pos, readSize, o, n) && len == readSize - pos % baseSize >= 0
      ensures GoesWrong(pos + len, readSize - len, o, n) && pos % baseSize + len < baseSize
    {
      if len > 0 {
        QuotientRemainder(pos + len, baseSize, pos / baseSize, n);
      }
    }

    /** Where the loop of WriteToFile stands, at block k: on the track, or off it. */
    ghost predicate AtBlock(node: Node?, k: nat, pos: int, readSize: int, out: seq<byte>, sound: bool, o: nat, n: nat)
      reads this
    {
      && k <= |nodes| && (node == if k < |nodes| then nodes[k] else null)
      && if sound then EmittedSoFar(out, pos, readSize) && (readSize == 0 || GoesWell(k, pos, readSize))
         else readSize > 0 && GoesWrong(pos, readSize, o, n)
    }

    /** One turn of that loop; it breaks on a null block or a negative length. */
    method EmitNext(node: Node?, ghost k: nat, pos: nat, readSize: nat, ghost out: seq<byte>,
                    ghost sound: bool, ghost o: nat, ghost n: nat)
      returns (ok: bool, chunk: seq<byte>, node': Node?)
      requires Linked() && readSize > 0 && AtBlock(node, k, pos, readSize, out, sound, o, n)
      ensures ok ==> && k < |nodes| && |chunk| <= readSize
                     && AtBlock(node', k + 1, pos + |chunk|, readSize - |chunk|, out + chunk, sound, o, n)
      ensures sound ==> ok
    {
      var diff := pos % baseSize;
      var len := (if readSize > baseSize then baseSize else readSize) - diff;
      if sound {
        SoundChunk(k, pos, readSize, len, out);
      } else if len >= 0 {
        StaysWrong(pos, readSize, o, n, len);
      }
      if node == null || len < 0 {
        return false, [], null;
      }
      chunk := node.ptr[diff..diff + len];
      ok, node' := true, node.next;
    }

    /** `WriteToFile`, after the file is open: emits exactly the readable bytes if the position is at a block
        boundary or at least a block is readable (or nothing is), and breaks otherwise. */
    method WriteToFile() returns (r: FileOutcome)
      requires Valid()
      ensures r.Emitted? <==> position == size || position % baseSize == 0 || size - position >= baseSize
      ensures r.Emitted? ==> |Mem()| == capacity && r.data == Mem()[position..size]
    {
      var out: seq<byte> := [];
      var readSize: nat, pos: nat, node: Node? := size - position, position, cur;
      ghost var k := at;
      ghost var o, n := position % baseSize, size - position;
      ghost var sound := n == 0 || o == 0 || n >= baseSize;
      var ok := true;
      FileStart();
      while readSize > 0 && ok
        invariant ok ==> k <= |nodes| && AtBlock(node, k, pos, readSize, out, sound, o, n)
        invariant !ok ==> !sound && readSize > 0
        decreases |nodes| - k, ok
      {
        var chunk;
        ok, chunk, node := EmitNext(node, k, pos, readSize, out, sound, o, n);
        if ok {
          out := out + chunk;
          pos := pos + |chunk|;
          readSize := readSize - |chunk|;
          k := k + 1;
        }
      }
      r := if ok then Emitted(out) else Broken;
    }

    lemma FileStart()
      requires Valid()
      ensures |Mem()| == capacity
      ensures var o, n := position % baseSize, size - position;
              if n == 0 then true
              else if o == 0 || n >= baseSize then GoesWell(at, position, n)
              else GoesWrong(position, n, o, n)
    {
      CursorIsBlock();
      QuotientRemainder(position, baseSize, at, position - baseSize * at);
    }

    /** One turn of the loop of WriteToFile that goes well: it takes the rest of the block, and the next turn
        starts at a boundary. */
    lemma SoundChunk(k: nat, pos: nat, readSize: nat, len: int, out: seq<byte>)
      requires Linked() && GoesWell(k, pos, readSize) && EmittedSoFar(out, pos, readSize)
      requires len == (if readSize > baseSize then baseSize else readSize) - pos % baseSize
      ensures 0 <= len <= readSize && pos % baseSize + len <= baseSize
      ensures EmittedSoFar(out + nodes[k].ptr[pos % baseSize..pos % baseSize + len], pos + len, readSize - len)
      ensures len < readSize ==> GoesWell(k + 1, pos + len, readSize - len)
    {
      FlatLength(blocks, baseSize);
      QuotientRemainder(pos, baseSize, k, pos - baseSize * k);
      FlatSlice(blocks, baseSize, k, pos % baseSize, len);
      Joined(Mem(), position, pos - position, pos + len - position);
      if len < readSize {
        NextExists(baseSize, k, |nodes|, pos % baseSize + readSize);
      }
    }

    /** One memcpy into a block, in terms of the flat memory. */
    method PutAt(node: Node, ghost i: nat, off: nat, chunk: seq<byte>, ghost p: nat)
      requires Linked() && i < |nodes| && node == nodes[i] && off + |chunk| <= baseSize && p == baseSize * i + off
      modifies this`blocks, node.ptr
      ensures Linked() && p + |chunk| <= |old(Mem())| && Mem() == Splice(old(Mem()), p, chunk)
    {
      FlatUpdate(blocks, baseSize, i, off, chunk);
      CopyIn(node, i, off, chunk);
    }

    /** The first segment, and the ones after it. */
    lemma FirstSegment(k: nat, off: nat, n: nat)
      requires Linked() && k <= |nodes| && off < baseSize && n > 0 && baseSize * k + off + n <= capacity
      ensures var segs := Segments(nodes, baseSize, k, off, n);
              && k < |nodes| && |segs| > 0 && segs[0] == Iovec(nodes[k], off, Least(n, baseSize - off))
              && (n > baseSize - off ==> segs[1..] == Segments(nodes, baseSize, k + 1, 0, n - (baseSize - off)))
      ensures baseSize * (k + 1) == baseSize * k + baseSize
    {
      SegmentStart(k, off, n);
      if n > baseSize - off {
        NextExists(baseSize, k, |nodes|, off + n);
      }
    }

    lemma SpliceParts(mem: seq<byte>, p: nat, data: seq<byte>, m: nat)
      requires m <= |data| && p + |data| <= |mem|
      ensures Splice(Splice(mem, p, data[..m]), p + m, data[m..]) == Splice(mem, p, data)
    {
      SpliceStep(mem, p, data[..m], data[m..]);
      assert data[..m] + data[m..] == data;
    }

    /** readv into the segments of the n positions from p on: the data lands there, nothing else changes. */
    method ScatterFrom(iovs: seq<Iovec>, ghost k: nat, ghost off: nat, ghost n: nat, data: seq<byte>, ghost p: nat)
      requires Linked() && k <= |nodes| && off < baseSize && p == baseSize * k + off && p + n <= capacity
      requires iovs == Segments(nodes, baseSize, k, off, n) && |data| <= n
      modifies this`blocks, repr
      ensures Linked() && p + |data| <= |old(Mem())| && Mem() == Splice(old(Mem()), p, data)
      decreases |data|
    {
      FlatLength(blocks, baseSize);
      if |data| == 0 {
        return;
      }
      FirstSegment(k, off, n);
      var v := iovs[0];
      var m := if v.len < |data| then v.len else |data|;
      SpliceParts(Mem(), p, data, m);
      PutAt(v.node, k, v.off, data[..m], p);
      if m < |data| {
        ScatterFrom(iovs[1..], k + 1, 0, n - m, data[m..], p + m);
      } else {
        assert data[..m] == data;
      }
    }

    /** readv into the segments of the next n positions. */
    method Scatter(iovs: seq<Iovec>, ghost n: nat, data: seq<byte>)
      requires Valid() && position + n <= capacity && iovs == NextSegments(n) && |data| <= n
      modifies this`blocks, repr
      ensures Valid() && position + |data| <= |old(Mem())| && Mem() == Splice(old(Mem()), position, data)
    {
      ScatterFrom(iovs, at, position - baseSize * at, n, data, position);
    }
  }
}
