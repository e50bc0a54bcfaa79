/**
  Sending and receiving byte buffers over a stream socket: gather or scatter, then advance.
  The kernel moves any number of bytes it likes per call; the fixed-size loops repeat until
  everything is moved.
*/
module Stream {
  import opened Common
  import opened Blocks
  import opened ByteArray

  /** One direction of a connection: the bytes sent and not yet received. */
  class Wire {
    var bytes: seq<byte>

    constructor ()
      ensures bytes == []
    {
      bytes := [];
    }

    /** writev: the kernel takes the first bytes of the segments, as many as it is willing to. */
    method Send(iovs: seq<Iovec>, ghost ba: ByteArray, n: nat, willing: nat) returns (rt: nat)
      requires ba.Valid() && n <= ba.size - ba.position && iovs == ba.NextSegments(n)
      modifies this
      ensures rt == (if willing < n then willing else n)
      ensures ba.position + rt <= |ba.Mem()| && bytes == old(bytes) + ba.Mem()[ba.position..ba.position + rt]
    {
      ba.NextSegmentsHold(n);
      var data := Collect(iovs);
      rt := if willing < |data| then willing else |data|;
      Shorter(ba.Mem(), ba.position, n, rt);
      bytes := bytes + data[..rt];
    }

    /** readv: the kernel delivers the next bytes in flight into the segments, as many as it is willing to. */
    method Recv(iovs: seq<Iovec>, ba: ByteArray, n: nat, willing: nat) returns (rt: nat)
      requires ba.Valid() && this !in ba.repr && ba.position + n <= ba.capacity && iovs == ba.NextSegments(n)
      modifies this, ba`blocks, ba.repr
      ensures ba.Valid() && rt <= |old(bytes)| && rt == Least(willing, Least(n, |old(bytes)|))
      ensures bytes == old(bytes)[rt..] && ba.position + rt <= |old(ba.Mem())|
      ensures ba.Mem() == Splice(old(ba.Mem()), ba.position, old(bytes)[..rt])
    {
      rt := Least(willing, Least(n, |bytes|));
      ba.Scatter(iovs, n, bytes[..rt]);
      bytes := bytes[rt..];
    }
  }

  lemma Shorter(mem: seq<byte>, p: nat, n: nat, m: nat)
    requires m <= n && p + n <= |mem|
    ensures mem[p..p + n][..m] == mem[p..p + m]
  {
  }

  lemma ContentNext(iovs: seq<Iovec>, i: nat, part: seq<byte>)
    requires i < |iovs| && iovs[i].off + iovs[i].len <= iovs[i].node.ptr.Length
    requires part == iovs[i].node.ptr[iovs[i].off..iovs[i].off + iovs[i].len]
    ensures Content(iovs[i..]) == part + Content(iovs[i + 1..])
  {
    assert iovs[i..][0] == iovs[i] && iovs[i..][1..] == iovs[i + 1..];
  }

  lemma Regroup(a: seq<byte>, b: seq<byte>, c: seq<byte>)
    ensures a + (b + c) == a + b + c
  {
  }

  /** Read the segments in order. */
  method Collect(iovs: seq<Iovec>) returns (data: seq<byte>)
    requires forall v :: v in iovs ==> v.off + v.len <= v.node.ptr.Length
    ensures data == Content(iovs)
  {
    data := [];
    var i := 0;
    while i < |iovs|
      invariant 0 <= i <= |iovs| && data + Content(iovs[i..]) == Content(iovs)
    {
      var v := iovs[i];
      assert v in iovs;
      var part := v.node.ptr[v.off..v.off + v.len];
      ContentNext(iovs, i, part);
      Regroup(data, part, Content(iovs[i + 1..]));
      data := data + part;
      i := i + 1;
    }
  }

  /** `SocketStream::write`: a negative `willing` is a failing call. */
  method WriteSome(ba: ByteArray, wire: Wire, length: nat, willing: int) returns (rt: int)
    requires ba.Valid() && wire !in ba.repr
    modifies ba`position, ba`size, ba`cur, ba`at, wire
    ensures ba.Valid() && ba.size == old(ba.size)
    ensures rt == if willing < 0 then -1 else Least(willing, Least(length, ba.size - old(ba.position)))
    ensures ba.position == old(ba.position) + if rt > 0 then rt else 0
    ensures ba.position <= |ba.Mem()| && wire.bytes == old(wire.bytes) + ba.Mem()[old(ba.position)..ba.position]
  {
    ba.CursorIsBlock();
    if willing < 0 {
      return -1;
    }
    var iovs, total := ba.GetReadBuffers(length);
    rt := wire.Send(iovs, ba, total, willing);
    if rt > 0 {
      var _ := ba.SetPosition(ba.position + rt);
    }
  }

  /** `SocketStream::read` when the kernel call succeeds. */
  method ReadChunk(ba: ByteArray, wire: Wire, length: nat, willing: nat) returns (rt: nat)
    requires ba.Valid() && wire !in ba.repr
    modifies ba`position, ba`capacity, ba`size, ba`cur, ba`nodes, ba`blocks, ba`at, ba`repr, ba.repr, wire
    ensures ba.Valid() && wire !in ba.repr && fresh(ba.repr - old(ba.repr))
    ensures rt == Least(willing, Least(length, |old(wire.bytes)|)) && wire.bytes == old(wire.bytes)[rt..]
    ensures ba.position == old(ba.position) + rt && ba.size == Larger(old(ba.size), ba.position)
    ensures Written(old(ba.Mem()), old(ba.position), old(wire.bytes)[..rt], ba.Mem())
  {
    var iovs := ba.GetWriteBuffers(length);
    ghost var grown := ba.Mem();
    rt := wire.Recv(iovs, ba, length, willing);
    SplicedIsWritten(old(ba.Mem()), grown, ba.position, old(wire.bytes)[..rt]);
    if rt > 0 {
      var _ := ba.SetPosition(ba.position + rt);
    }
  }

  /** `SocketStream::read`: the buffer may have grown even when the call fails. */
  method ReadSome(ba: ByteArray, wire: Wire, length: nat, willing: int) returns (rt: int)
    requires ba.Valid() && wire !in ba.repr
    modifies ba`position, ba`capacity, ba`size, ba`cur, ba`nodes, ba`blocks, ba`at, ba`repr, ba.repr, wire
    ensures ba.Valid() && wire !in ba.repr && fresh(ba.repr - old(ba.repr))
    ensures rt == if willing < 0 then -1 else Least(willing, Least(length, |old(wire.bytes)|))
    ensures var got := if rt > 0 then rt else 0;
            && ba.position == old(ba.position) + got && ba.size == Larger(old(ba.size), ba.position)
            && wire.bytes == old(wire.bytes)[got..]
            && Written(old(ba.Mem()), old(ba.position), old(wire.bytes)[..got], ba.Mem())
  {
    if willing < 0 {
      var _ := ba.GetWriteBuffers(length);
      rt := -1;
    } else {
      rt := ReadChunk(ba, wire, length, willing);
    }
  }

  // ---------------------------------------------------------------- the fixed-size loops

  /** How a fixed-size transfer ends: everything moved, a call returned 0, or the script of kernel answers ran
      out while it was still waiting. */
  datatype Outcome = Done | Ended | Waiting

  /** Failing calls among the kernel's answers. */
  function Errors(script: seq<int>): nat {
    if script == [] then 0
    else Errors(script[..|script| - 1]) + if script[|script| - 1] < 0 then 1 else 0
  }

  lemma {:induction false} NoErrors(script: seq<int>)
    requires forall k :: 0 <= k < |script| ==> script[k] >= 0
    ensures Errors(script) == 0
  {
    if script != [] {
      NoErrors(script[..|script| - 1]);
    }
  }

  lemma ErrorsStep(script: seq<int>, k: nat)
    requires k < |script|
    ensures Errors(script[..k + 1]) == Errors(script[..k]) + if script[k] < 0 then 1 else 0
    ensures Errors(script[..k + 1]) <= Errors(script)
  {
    assert script[..k + 1][..k] == script[..k];
    ErrorsPrefix(script, k + 1);
  }

  lemma {:induction false} ErrorsPrefix(script: seq<int>, k: nat)
    requires k <= |script|
    ensures Errors(script[..k]) <= Errors(script)
    decreases |script|
  {
    if k == |script| {
      assert script[..k] == script;
    } else {
      ErrorsPrefix(script[..|script| - 1], k);
      assert script[..|script| - 1][..k] == script[..k];
    }
  }

  /** The loop keeps its count in an unsigned 64-bit word: a failing call's -1 adds one to what is left. */
  function Less64(left: nat, rt: int): nat {
    (left - rt % TWO64) % TWO64
  }

  lemma Less64Meaning(left: nat, rt: int)
    requires left < TWO64 && -1 <= rt <= left && (rt == -1 ==> left + 1 < TWO64)
    ensures Less64(left, rt) == left - rt
  {
    if rt == -1 {
      assert rt % TWO64 == TWO64 - 1;
      assert (left - (TWO64 - 1)) % TWO64 == left + 1;
    }
  }

  /** The wire holds what was in flight before and everything sent since `start`. */
  ghost predicate Sending(ba: ByteArray, wire: Wire, before: seq<byte>, start: nat)
    reads ba, ba.repr, wire
  {
    && ba.Valid() && wire !in ba.repr && start <= ba.position <= |ba.Mem()|
    && wire.bytes == before + ba.Mem()[start..ba.position]
  }

  /** One turn of the send loop. */
  method SendTurn(ba: ByteArray, wire: Wire, left: nat, maxLen: nat, willing: int,
                  ghost before: seq<byte>, ghost start: nat)
    returns (rt: int)
    requires Sending(ba, wire, before, start) && left > 0 && maxLen > 0
    modifies ba`position, ba`size, ba`cur, ba`at, wire
    ensures Sending(ba, wire, before, start) && ba.size == old(ba.size)
    ensures -1 <= rt <= left && (rt < 0 <==> willing < 0) && (rt == 0 ==> willing == 0 || ba.position == ba.size)
    ensures ba.position == old(ba.position) + if rt > 0 then rt else 0
  {
    rt := WriteSome(ba, wire, Least(left, maxLen), willing);
    Extended(ba.Mem(), start, old(ba.position), ba.position);
    Regroup(before, ba.Mem()[start..old(ba.position)], ba.Mem()[old(ba.position)..ba.position]);
  }

  lemma Extended(mem: seq<byte>, p: nat, q: nat, r: nat)
    requires p <= q <= r <= |mem|
    ensures mem[p..q] + mem[q..r] == mem[p..r]
  {
  }

  /** `WriteFixSize`: whatever the kernel's appetite, a finished transfer has put on the wire, in order, exactly
      the next length bytes of the buffer and one more for every failing call on the way; and every call but a
      failing or final one has moved something. */
  method WriteFixSize(ba: ByteArray, wire: Wire, length: nat, maxLen: nat, script: seq<int>)
    returns (r: Outcome, used: nat)
    requires ba.Valid() && wire !in ba.repr && maxLen > 0 && length + Errors(script) < TWO64
    modifies ba`position, ba`size, ba`cur, ba`at, wire
    ensures Sending(ba, wire, old(wire.bytes), old(ba.position)) && used <= |script| && ba.size == old(ba.size)
    ensures Balance(r, ba.position - old(ba.position), length, script, used)
    ensures r == Ended ==> used > 0 && (script[used - 1] == 0 || ba.position == ba.size)
  {
    used := 0;
    ErrorsPrefix(script, 0);
    var left, ended := length, false;
    ghost var start, size, before := ba.position, ba.size, wire.bytes;
    ba.CursorIsBlock();
    while left > 0 && !ended && used < |script|
      invariant Sending(ba, wire, before, start) && ba.size == size
      invariant used <= |script| && Tally(left, ba.position - start, length, script, used, ended)
      invariant ended ==> left > 0 && used > 0 && (script[used - 1] == 0 || ba.position == ba.size)
      decreases |script| - used
    {
      ghost var moved := ba.position - start;
      var rt := SendTurn(ba, wire, left, maxLen, script[used], before, start);
      TallyStep(left, moved, length, script, used, rt, ba.position - start);
      used := used + 1;
      if rt == 0 {
        ended := true;
      } else {
        left := Less64(left, rt);
      }
    }
    r := if left == 0 then Done else if ended then Ended else Waiting;
  }

  /** The books of a loop that has moved `moved` bytes in `used` calls and has `left` to go. */
  predicate Tally(left: nat, moved: int, length: nat, script: seq<int>, used: nat, ended: bool)
    requires used <= |script|
  {
    && moved + left == length + Errors(script[..used])
    && moved >= used - Errors(script[..used]) - if ended then 1 else 0
  }

  /** What a loop has moved when it stops: all of it and one more byte per failing call, or less; and at least one
      byte in every call that neither failed nor ended it. */
  predicate Balance(r: Outcome, moved: int, length: nat, script: seq<int>, used: nat)
    requires used <= |script|
  {
    var due := length + Errors(script[..used]);
    && (if r == Done then moved == due else moved < due)
    && moved >= used - Errors(script[..used]) - (if r == Ended then 1 else 0)
    && (r == Waiting ==> used == |script|)
  }

  lemma TallyStep(left: nat, moved: int, length: nat, script: seq<int>, used: nat, rt: int, moved': int)
    requires used < |script| && length + Errors(script) < TWO64 && Tally(left, moved, length, script, used, false)
    requires -1 <= rt <= left && (rt < 0 <==> script[used] < 0) && moved' == moved + (if rt > 0 then rt else 0)
    requires moved >= 0
    ensures rt == 0 ==> Tally(left, moved', length, script, used + 1, true)
    ensures rt != 0 ==> Tally(Less64(left, rt), moved', length, script, used + 1, false)
  {
    ErrorsStep(script, used);
    Less64Meaning(left, rt);
  }

  /** The first n bytes sent have arrived at p. */
  ghost predicate Received(mem: seq<byte>, p: nat, sent: seq<byte>, n: nat, mem': seq<byte>) {
    n <= |sent| && Written(mem, p, sent[..n], mem')
  }

  lemma ReceivedStep(mem: seq<byte>, p: nat, sent: seq<byte>, n: nat, mem1: seq<byte>, got: nat, mem2: seq<byte>)
    requires Received(mem, p, sent, n, mem1) && n + got <= |sent| && Written(mem1, p + n, sent[n..][..got], mem2)
    ensures Received(mem, p, sent, n + got, mem2)
  {
    WrittenStep(mem, p, sent[..n], mem1, sent[n..][..got], mem2);
    assert sent[..n] + sent[n..][..got] == sent[..n + got];
  }

  /** The first n bytes of what was in flight have been stored at `start`; the others are still in flight. */
  ghost predicate Receiving(ba: ByteArray, wire: Wire, mem: seq<byte>, sent: seq<byte>, start: nat, n: nat)
    reads ba, ba.repr, wire
  {
    && ba.Valid() && wire !in ba.repr && ba.position == start + n
    && Received(mem, start, sent, n, ba.Mem()) && wire.bytes == sent[n..]
  }

  /** One turn of the receive loop. */
  method ReceiveTurn(ba: ByteArray, wire: Wire, left: nat, maxLen: nat, willing: int,
                     ghost mem: seq<byte>, ghost sent: seq<byte>, ghost start: nat, ghost n: nat)
    returns (rt: int, ghost n': nat)
    requires Receiving(ba, wire, mem, sent, start, n) && left > 0 && maxLen > 0
    modifies ba`position, ba`capacity, ba`size, ba`cur, ba`nodes, ba`blocks, ba`at, ba`repr, ba.repr, wire
    ensures n' == n + (if rt > 0 then rt else 0) && Receiving(ba, wire, mem, sent, start, n')
    ensures fresh(ba.repr - old(ba.repr))
    ensures -1 <= rt <= left && (rt < 0 <==> willing < 0) && (rt == 0 ==> willing == 0 || wire.bytes == [])
  {
    ghost var mem1 := ba.Mem();
    rt := ReadSome(ba, wire, Least(left, maxLen), willing);
    ghost var got := if rt > 0 then rt else 0;
    ReceivedStep(mem, start, sent, n, mem1, got, ba.Mem());
    assert sent[n..][got..] == sent[n + got..];
    n' := n + got;
  }

  /** `ReadFixSize`: a finished transfer has stored at the buffer's position, in order, exactly the next length
      bytes in flight and one more for every failing call on the way; and every call but a failing or final one
      has moved something. */
  method ReadFixSize(ba: ByteArray, wire: Wire, length: nat, maxLen: nat, script: seq<int>)
    returns (r: Outcome, used: nat)
    requires ba.Valid() && wire !in ba.repr && maxLen > 0 && length + Errors(script) < TWO64
    modifies ba`position, ba`capacity, ba`size, ba`cur, ba`nodes, ba`blocks, ba`at, ba`repr, ba.repr, wire
    ensures used <= |script| && ba.position >= old(ba.position)
    ensures Receiving(ba, wire, old(ba.Mem()), old(wire.bytes), old(ba.position), ba.position - old(ba.position))
    ensures Balance(r, ba.position - old(ba.position), length, script, used)
    ensures r == Ended ==> used > 0 && (script[used - 1] == 0 || wire.bytes == [])
  {
    used := 0;
    ErrorsPrefix(script, 0);
    var left, ended := length, false;
    ghost var start, sent, mem, n := ba.position, wire.bytes, ba.Mem(), 0;
    ba.CursorIsBlock();
    while left > 0 && !ended && used < |script|
      invariant n >= 0 && Receiving(ba, wire, mem, sent, start, n) && fresh(ba.repr - old(ba.repr))
      invariant used <= |script| && Tally(left, n, length, script, used, ended)
      invariant ended ==> left > 0 && used > 0 && (script[used - 1] == 0 || wire.bytes == [])
      decreases |script| - used
    {
      ghost var moved := n;
      var rt;
      rt, n := ReceiveTurn(ba, wire, left, maxLen, script[used], mem, sent, start, n);
      TallyStep(left, moved, length, script, used, rt, n);
      used := used + 1;
      if rt == 0 {
        ended := true;
      } else {
        left := Less64(left, rt);
      }
    }
    r := if left == 0 then Done else if ended then Ended else Waiting;
  }

  /** The first n answers of a kernel that moves at least one byte per call. */
  function Answers(kernel: nat -> int, n: nat): (script: seq<int>)
    ensures |script| == n && forall k :: 0 <= k < n ==> script[k] == kernel(k)
  {
    seq(n, k requires 0 <= k < n => kernel(k))
  }

  /** Whatever positive amounts the kernel takes per call, `WriteFixSize` finishes and has moved exactly n bytes. */
  method SendExactly(ba: ByteArray, wire: Wire, n: nat, maxLen: nat, kernel: nat -> int)
    requires ba.Valid() && wire !in ba.repr && maxLen > 0 && n < TWO64
    requires n <= ba.size - ba.position && forall k :: kernel(k) > 0
    modifies ba`position, ba`size, ba`cur, ba`at, wire
    ensures ba.Valid() && ba.position == old(ba.position) + n <= |ba.Mem()|
    ensures wire.bytes == old(wire.bytes) + ba.Mem()[old(ba.position)..ba.position]
  {
    var script := Answers(kernel, n);
    NoErrors(script);
    var r, used := WriteFixSize(ba, wire, n, maxLen, script);
    NoErrors(script[..used]);
  }

  /** Whatever positive amounts the kernel delivers per call, with enough in flight `ReadFixSize` finishes and has
      stored exactly n bytes. */
  method ReceiveExactly(ba: ByteArray, wire: Wire, n: nat, maxLen: nat, kernel: nat -> int)
    requires ba.Valid() && wire !in ba.repr && maxLen > 0 && n < TWO64
    requires n <= |wire.bytes| && forall k :: kernel(k) > 0
    modifies ba`position, ba`capacity, ba`size, ba`cur, ba`nodes, ba`blocks, ba`at, ba`repr, ba.repr, wire
    ensures ba.Valid() && ba.position == old(ba.position) + n <= |ba.Mem()| && wire.bytes == old(wire.bytes)[n..]
    ensures ba.Mem()[old(ba.position)..ba.position] == old(wire.bytes)[..n]
  {
    var script := Answers(kernel, n);
    NoErrors(script);
    var r, used := ReadFixSize(ba, wire, n, maxLen, script);
    NoErrors(script[..used]);
  }

  /** Fragmentation independence: n readable bytes sent with `WriteFixSize` and received with `ReadFixSize` into a
      buffer of any other base size arrive unchanged and in order, for every pattern of positive short transfers. */
  method SendAndReceive(src: ByteArray, dst: ByteArray, wire: Wire, n: nat, maxLen: nat,
                        sends: nat -> int, recvs: nat -> int)
    requires src.Valid() && dst.Valid() && src != dst && src !in dst.repr && dst !in src.repr
    requires wire !in src.repr && wire !in dst.repr && wire.bytes == [] && maxLen > 0
    requires n <= src.size - src.position && n < TWO64
    requires (forall k :: sends(k) > 0) && (forall k :: recvs(k) > 0)
    modifies src`position, src`size, src`cur, src`at, wire
    modifies dst`position, dst`capacity, dst`size, dst`cur, dst`nodes, dst`blocks, dst`at, dst`repr, dst.repr
    ensures src.position == old(src.position) + n <= |old(src.Mem())| && wire.bytes == []
    ensures dst.Valid() && dst.position == old(dst.position) + n <= |dst.Mem()|
    ensures dst.Mem()[old(dst.position)..dst.position] == old(src.Mem())[old(src.position)..src.position]
  {
    SendExactly(src, wire, n, maxLen, sends);
    ReceiveExactly(dst, wire, n, maxLen, recvs);
  }
}
