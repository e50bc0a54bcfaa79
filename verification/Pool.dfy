/** Which pooled connections a caller gets, discards and puts back. */
module PoolRules {
  /** How many connections at the front are discarded before one is usable. */
  function Discarded<T>(conns: seq<T>, bad: T -> bool): (k: nat)
    ensures k <= |conns| && (forall i :: 0 <= i < k ==> bad(conns[i])) && (k < |conns| ==> !bad(conns[k]))
  {
    if conns == [] || !bad(conns[0]) then 0 else 1 + Discarded(conns[1..], bad)
  }

  /** The age test as written: it rejects a connection that is still younger than the limit. */
  predicate TooYoung(createTime: nat, maxAlive: nat, now: nat) {
    createTime + maxAlive > now
  }

  /** The test on return: closed, young (or exactly at the limit), or used often enough. */
  predicate Retires(connected: bool, createTime: nat, maxAlive: nat, now: nat, request: nat, maxRequest: nat) {
    !connected || createTime + maxAlive >= now || request >= maxRequest
  }

  /** The age test is the wrong way round: a pooled connection within its lifetime is discarded or left in the list,
      never taken. */
  lemma YoungIsNeverTaken<T>(conns: seq<T>, connected: T -> bool, created: T -> nat, maxAlive: nat, now: nat, i: nat)
    requires i < |conns| && now < created(conns[i]) + maxAlive
    ensures Discarded(conns, c => !connected(c) || TooYoung(created(c), maxAlive, now)) != i
  {
  }

  /** How often one connection can be lent: a fresh one is always lent once. */
  function MostLeases(maxRequest: nat): nat {
    if maxRequest == 0 then 1 else maxRequest
  }
}

/** The pool as one caller at a time sees it. */
module HttpConnectionPool {
  import opened PoolRules

  class Connection {
    const createTime: nat := 0   // never set by the pool
    var request: nat
    ghost var leases: nat

    constructor ()
      ensures request == leases == 0
    {
      request, leases := 0, 0;
    }
  }

  class Pool {
    const maxAlive: nat
    const maxRequest: nat
    var conns: seq<Connection>
    var total: int
    ghost var leased: set<Connection>
    ghost var freed: set<Connection>

    constructor (maxAlive: nat, maxRequest: nat)
      ensures Valid() && conns == [] && leased == freed == {}
      ensures this.maxAlive == maxAlive && this.maxRequest == maxRequest
    {
      this.maxAlive, this.maxRequest := maxAlive, maxRequest;
      conns, total, leased, freed := [], 0, {}, {};
    }

    /** A connection that may be lent. */
    ghost predicate Ready(c: Connection)
      reads c
    {
      c.leases == c.request && (c.request == 0 || c.request < maxRequest)
    }

    ghost predicate OnLoan(c: Connection)
      reads c
    {
      c.leases == c.request + 1 && (c.request == 0 || c.request < maxRequest)
    }

    /** Every connection is pooled, lent or freed, and only one of these; the total counts the first two. */
    ghost predicate Valid()
      reads this, conns, leased
    {
      Books(0)
    }

    /** The same while `extra` connections are in the hands of a call. */
    ghost predicate Books(extra: nat)
      reads this, conns, leased
    {
      && total == |conns| + |leased| + extra
      && (forall i, j :: 0 <= i < j < |conns| ==> conns[i] != conns[j])
      && (forall i :: 0 <= i < |conns| ==> conns[i] !in leased && conns[i] !in freed && Ready(conns[i]))
      && (forall c :: c in leased ==> c !in freed && OnLoan(c))
    }

    /** No connection is lent more often than allowed. */
    lemma LeasesBounded(c: Connection)
      requires Valid() && (c in conns || c in leased)
      ensures c.leases <= 1 || c.leases <= maxRequest
    {
    }

    /** The loop of `GetConnection`: pops until a usable connection appears. */
    method PopUsable(now: nat, connected: Connection -> bool) returns (ptr: Connection?, invalid: seq<Connection>)
      modifies this`conns
      ensures var bad := (c: Connection) => !connected(c) || TooYoung(c.createTime, maxAlive, now);
              var k := Discarded(old(conns), bad);
              && invalid == old(conns)[..k]
              && ptr == (if k < |old(conns)| then old(conns)[k] else null)
              && conns == if k < |old(conns)| then old(conns)[k + 1..] else []
    {
      ghost var bad := (c: Connection) => !connected(c) || TooYoung(c.createTime, maxAlive, now);
      ghost var all, k := conns, 0;
      ptr, invalid := null, [];
      while conns != [] && ptr == null
        invariant 0 <= k <= |all| && invalid == all[..k]
        invariant ptr == null ==> conns == all[k..] && Discarded(all, bad) == k + Discarded(conns, bad)
        invariant ptr != null ==> k == Discarded(all, bad) < |all| && ptr == all[k] && conns == all[k + 1..]
        decreases |conns|
      {
        var conn := conns[0];
        assert conn == all[k] && conns[1..] == all[k + 1..] && all[..k] + [conn] == all[..k + 1];
        conns := conns[1..];
        if !connected(conn) {
          invalid := invalid + [conn];
          k := k + 1;
        } else if conn.createTime + maxAlive > now {
          invalid := invalid + [conn];
          k := k + 1;
        } else {
          ptr := conn;
        }
      }
    }

    /** Deleting the discarded connections: total drops by their number. */
    method Discard(invalid: seq<Connection>)
      modifies this`total, this`freed
      ensures total == old(total) - |invalid| && freed == old(freed) + (set c | c in invalid)
    {
      freed := freed + (set c | c in invalid);
      total := total - |invalid|;
    }

    /** A connection that belongs to nobody yet. */
    ghost predicate Spare(c: Connection)
      reads this, c
    {
      c !in conns && c !in leased && c !in freed && Ready(c)
    }

    /** Handing a connection out. */
    ghost method Lend(c: Connection)
      requires Books(1) && Spare(c)
      modifies this`leased, c`leases
      ensures Valid() && leased == old(leased) + {c} && c.leases == old(c.leases) + 1
    {
      c.leases := c.leases + 1;
      leased := leased + {c};
    }

    /** The first half of `GetConnection`: the unusable front is freed, and the first usable one taken out. */
    method Fetch(now: nat, connected: Connection -> bool) returns (ptr: Connection?)
      requires Valid()
      modifies this`conns, this`total, this`freed
      ensures Books(if ptr == null then 0 else 1) && (ptr != null ==> Spare(ptr))
      ensures var bad := (c: Connection) => !connected(c) || TooYoung(c.createTime, maxAlive, now);
              var k := Discarded(old(conns), bad);
              && freed == old(freed) + (set c | c in old(conns)[..k])
              && ptr == (if k < |old(conns)| then old(conns)[k] else null)
              && conns == if k < |old(conns)| then old(conns)[k + 1..] else []
      ensures ptr != null ==> connected(ptr) && ptr.createTime + maxAlive <= now
      ensures forall c :: c in old(conns) && connected(c) && c.createTime + maxAlive <= now ==>
                ptr != null && c !in freed
    {
      var invalid;
      ptr, invalid := PopUsable(now, connected);
      Discard(invalid);
    }

    /** A new connection, counted. */
    method OpenNew() returns (ptr: Connection)
      requires Valid()
      modifies this`total
      ensures fresh(ptr) && Books(1) && Spare(ptr)
    {
      ptr := new Connection();
      total := total + 1;
    }

    /** `GetConnection`: unusable connections at the front are freed, exactly those; the first usable one is lent,
        or a new one when none is left and one can be opened. A pooled connection is lent only when its lifetime is
        over, as the age test has it. */
    method GetConnection(now: nat, connected: Connection -> bool, opens: bool) returns (ptr: Connection?)
      requires Valid()
      modifies this, conns
      ensures Valid()
      ensures var bad := (c: Connection) => !connected(c) || TooYoung(c.createTime, maxAlive, now);
              var k := Discarded(old(conns), bad);
              && freed == old(freed) + (set c | c in old(conns)[..k])
              && (if k < |old(conns)| then ptr == old(conns)[k] && conns == old(conns)[k + 1..]
                  else conns == [] && (ptr != null <==> opens) && (ptr != null ==> fresh(ptr)))
              && leased == old(leased) + (if ptr == null then {} else {ptr})
      ensures ptr != null ==> ptr.leases <= 1 || ptr.leases <= maxRequest
      ensures ptr != null && ptr in old(conns) ==> connected(ptr) && ptr.createTime + maxAlive <= now
      ensures forall c :: c in old(conns) && connected(c) && c.createTime + maxAlive <= now ==>
                ptr in old(conns) && c !in freed
    {
      ptr := Fetch(now, connected);
      if ptr == null && opens {
        ptr := OpenNew();
      }
      if ptr != null {
        Lend(ptr);
        LeasesBounded(ptr);
      }
    }

    /** `ReleasePtr`: a returned connection is freed or goes to the back of the list. */
    method ReleasePtr(ptr: Connection, now: nat, connected: bool)
      requires Valid() && ptr in leased
      modifies this, ptr
      ensures Valid() && leased == old(leased) - {ptr}
      ensures ptr.request == old(ptr.request) + 1 && ptr.leases == old(ptr.leases)
      ensures if Retires(connected, ptr.createTime, maxAlive, now, ptr.request, maxRequest)
              then conns == old(conns) && freed == old(freed) + {ptr}
              else conns == old(conns) + [ptr] && freed == old(freed)
      ensures ptr in conns <==> connected && ptr.createTime + maxAlive < now && ptr.request < maxRequest
      ensures ptr in freed <==> ptr !in conns
    {
      ptr.request := ptr.request + 1;
      leased := leased - {ptr};
      if !connected || ptr.createTime + maxAlive >= now || ptr.request >= maxRequest {
        freed := freed + {ptr};
        total := total - 1;
        return;
      }
      conns := conns + [ptr];
    }
  }
}

/**
  The pool under concurrent callers. The locked sections and the updates of the atomic total
  are separate steps of a thread, so that the total lags behind the list; a run is any
  interleaving. Connections are numbered as they are opened, and deletions are counted.
*/
module PoolRuns {
  import opened Common
  import opened PoolRules

  type Id = int

  datatype Conn = Conn(request: nat, leases: nat, frees: nat)

  /** Where a thread is: outside; deleting what it popped (n in all); opening a connection; about to count, hand
      out, judge, push or uncount one. */
  datatype Pc =
    | Out
    | Clearing(found: Option<Id>, todo: seq<Id>, n: nat)
    | Opening
    | Opened(id: Id)
    | Handing(id: Id)
    | Returned(id: Id)
    | Keeping(id: Id)
    | Removed

  datatype State = State(conns: seq<Id>, leased: seq<Id>, total: int, threads: seq<Pc>, table: seq<Conn>)

  datatype Step =
    | Get(t: nat, bad: Id -> bool)
    | Delete(t: nat)
    | Subtract(t: nat)
    | Fail(t: nat)
    | Open(t: nat)
    | Increment(t: nat)
    | Hand(t: nat)
    | Release(t: nat, i: nat)
    | Judge(t: nat, dead: bool)
    | Keep(t: nat)
    | Decrement(t: nat)

  predicate Known(s: State, id: Id) {
    0 <= id < |s.table|
  }

  /** A deletion does not ask whether the connection was deleted before. */
  function Deleted(table: seq<Conn>, id: Id): seq<Conn>
    requires 0 <= id < |table|
  {
    table[id := table[id].(frees := table[id].frees + 1)]
  }

  predicate Enabled(s: State, e: Step) {
    && e.t < |s.threads|
    && var pc := s.threads[e.t];
       match e
       case Get(_, _) => pc.Out?
       case Delete(_) => pc.Clearing? && pc.todo != [] && Known(s, pc.todo[0])
       case Subtract(_) => pc.Clearing? && pc.todo == []
       case Fail(_) => pc.Opening?
       case Open(_) => pc.Opening?
       case Increment(_) => pc.Opened?
       case Hand(_) => pc.Handing? && Known(s, pc.id)
       case Release(_, i) => pc.Out? && i < |s.leased| && Known(s, s.leased[i])
       case Judge(_, _) => pc.Returned? && Known(s, pc.id)
       case Keep(_) => pc.Keeping?
       case Decrement(_) => pc.Removed?
  }

  function Apply(s: State, e: Step, maxRequest: nat): State
    requires Enabled(s, e)
  {
    var pc := s.threads[e.t];
    match e
    case Get(t, bad) =>
      var k := Discarded(s.conns, bad);
      if k < |s.conns|
      then s.(conns := s.conns[k + 1..], threads := s.threads[t := Clearing(Some(s.conns[k]), s.conns[..k], k)])
      else s.(conns := [], threads := s.threads[t := Clearing(None, s.conns, k)])
    case Delete(t) =>
      s.(table := Deleted(s.table, pc.todo[0]), threads := s.threads[t := pc.(todo := pc.todo[1..])])
    case Subtract(t) =>
      s.(total := s.total - pc.n,
         threads := s.threads[t := if pc.found.Some? then Handing(pc.found.value) else Opening])
    case Fail(t) => s.(threads := s.threads[t := Out])
    case Open(t) => s.(table := s.table + [Conn(0, 0, 0)], threads := s.threads[t := Opened(|s.table|)])
    case Increment(t) => s.(total := s.total + 1, threads := s.threads[t := Handing(pc.id)])
    case Hand(t) =>
      var c := s.table[pc.id];
      s.(leased := s.leased + [pc.id], threads := s.threads[t := Out],
         table := s.table[pc.id := c.(leases := c.leases + 1)])
    case Release(t, i) =>
      var id := s.leased[i];
      var c := s.table[id];
      s.(leased := s.leased[..i] + s.leased[i + 1..], threads := s.threads[t := Returned(id)],
         table := s.table[id := c.(request := c.request + 1)])
    case Judge(t, dead) =>
      if dead || s.table[pc.id].request >= maxRequest
      then s.(table := Deleted(s.table, pc.id), threads := s.threads[t := Removed])
      else s.(threads := s.threads[t := Keeping(pc.id)])
    case Keep(t) => s.(conns := s.conns + [pc.id], threads := s.threads[t := Out])
    case Decrement(t) => s.(total := s.total - 1, threads := s.threads[t := Out])
  }

  /** An empty pool and threads outside it. */
  predicate Init(s: State) {
    && s.conns == [] && s.leased == [] && s.total == 0 && s.table == []
    && forall t :: 0 <= t < |s.threads| ==> s.threads[t] == Out
  }

  predicate IsRun(run: seq<State>, steps: seq<Step>, maxRequest: nat) {
    && |run| == |steps| + 1 && Init(run[0])
    && forall i :: 0 <= i < |steps| ==> Enabled(run[i], steps[i]) && run[i + 1] == Apply(run[i], steps[i], maxRequest)
  }

  // ---------------------------------------------------------------- what every step keeps

  /** How often a thread holds a connection. */
  function HeldBy(pc: Pc, id: Id): nat {
    match pc
    case Clearing(found, todo, _) => multiset(todo)[id] + if found == Some(id) then 1 else 0
    case Opened(x) => if x == id then 1 else 0
    case Handing(x) => if x == id then 1 else 0
    case Returned(x) => if x == id then 1 else 0
    case Keeping(x) => if x == id then 1 else 0
    case _ => 0
  }

  /** The connections the total still counts, or does not count yet, on behalf of a thread. */
  function Weight(pc: Pc): int {
    match pc
    case Clearing(found, _, n) => n + (if found.Some? then 1 else 0)
    case Handing(_) => 1
    case Returned(_) => 1
    case Keeping(_) => 1
    case Removed => 1
    case _ => 0
  }

  function Held(threads: seq<Pc>, id: Id): nat {
    if threads == [] then 0 else HeldBy(threads[0], id) + Held(threads[1..], id)
  }

  function Weights(threads: seq<Pc>): int {
    if threads == [] then 0 else Weight(threads[0]) + Weights(threads[1..])
  }

  lemma {:induction false} HeldUpdate(threads: seq<Pc>, t: nat, pc: Pc, id: Id)
    requires t < |threads|
    ensures HeldBy(threads[t], id) <= Held(threads, id)
    ensures Held(threads[t := pc], id) == Held(threads, id) - HeldBy(threads[t], id) + HeldBy(pc, id)
  {
    if t == 0 {
      assert threads[t := pc][1..] == threads[1..];
    } else {
      HeldUpdate(threads[1..], t - 1, pc, id);
      assert threads[t := pc][1..] == threads[1..][t - 1 := pc];
    }
  }

  lemma {:induction false} WeightUpdate(threads: seq<Pc>, t: nat, pc: Pc)
    requires t < |threads|
    ensures Weights(threads[t := pc]) == Weights(threads) - Weight(threads[t]) + Weight(pc)
  {
    if t == 0 {
      assert threads[t := pc][1..] == threads[1..];
    } else {
      WeightUpdate(threads[1..], t - 1, pc);
      assert threads[t := pc][1..] == threads[1..][t - 1 := pc];
    }
  }

  /** Two threads together hold no more than all do. */
  lemma HeldByTwo(threads: seq<Pc>, t: nat, u: nat, id: Id)
    requires t < |threads| && u < |threads| && t != u
    ensures HeldBy(threads[t], id) + HeldBy(threads[u], id) <= Held(threads, id)
  {
    HeldUpdate(threads, t, Out, id);
    HeldUpdate(threads[t := Out], u, Out, id);
  }

  /** How many owners a connection has: list entries, leases and threads. */
  function Owners(s: State, id: Id): nat {
    multiset(s.conns)[id] + multiset(s.leased)[id] + Held(s.threads, id)
  }

  /** One while a connection exists; each deletion takes one away. */
  function Share(s: State, id: Id): int {
    if Known(s, id) then 1 - s.table[id].frees else 0
  }

  /** Every opened connection has exactly one owner until it is deleted, which happens at most once. */
  ghost predicate OneOwner(s: State) {
    forall id: Id :: Owners(s, id) == Share(s, id)
  }

  predicate TotalInv(s: State) {
    s.total == |s.conns| + |s.leased| + Weights(s.threads)
  }

  predicate Ready(c: Conn, maxRequest: nat) {
    c.leases == c.request && (c.request == 0 || c.request < maxRequest)
  }

  predicate OnLoan(c: Conn, maxRequest: nat) {
    c.leases == c.request + 1 && (c.request == 0 || c.request < maxRequest)
  }

  /** Pooled connections and those a thread holds. */
  ghost predicate UseInv(s: State, maxRequest: nat) {
    && (forall id :: Known(s, id) ==> s.table[id].leases <= MostLeases(maxRequest))
    && (forall id :: id in s.conns ==> Known(s, id) && Ready(s.table[id], maxRequest))
    && (forall id :: id in s.leased ==> Known(s, id) && OnLoan(s.table[id], maxRequest))
    && (forall t :: 0 <= t < |s.threads| ==> PcOk(s, s.threads[t], maxRequest))
  }

  ghost predicate PcOk(s: State, pc: Pc, maxRequest: nat) {
    forall id :: HeldBy(pc, id) > 0 ==>
      Known(s, id) && if pc.Returned? then s.table[id].leases == s.table[id].request else Ready(s.table[id], maxRequest)
  }

  lemma CutAt(ids: seq<Id>, k: nat)
    requires k < |ids|
    ensures multiset(ids) == multiset(ids[..k]) + multiset{ids[k]} + multiset(ids[k + 1..])
    ensures multiset(ids[..k] + ids[k + 1..]) == multiset(ids[..k]) + multiset(ids[k + 1..])
  {
    assert ids == ids[..k] + [ids[k]] + ids[k + 1..];
  }

  lemma GetOwners(s: State, e: Step, maxRequest: nat, id: Id)
    requires e.Get? && Enabled(s, e)
    ensures Owners(Apply(s, e, maxRequest), id) == Owners(s, id)
  {
    var k := Discarded(s.conns, e.bad);
    HeldUpdate(s.threads, e.t, Apply(s, e, maxRequest).threads[e.t], id);
    if k < |s.conns| {
      CutAt(s.conns, k);
    }
  }

  lemma DeleteOwners(s: State, e: Step, maxRequest: nat, id: Id)
    requires e.Delete? && Enabled(s, e)
    ensures Owners(Apply(s, e, maxRequest), id) == Owners(s, id) - if id == s.threads[e.t].todo[0] then 1 else 0
  {
    HeldUpdate(s.threads, e.t, Apply(s, e, maxRequest).threads[e.t], id);
    CutAt(s.threads[e.t].todo, 0);
  }

  lemma ReleaseOwners(s: State, e: Step, maxRequest: nat, id: Id)
    requires e.Release? && Enabled(s, e)
    ensures Owners(Apply(s, e, maxRequest), id) == Owners(s, id)
  {
    HeldUpdate(s.threads, e.t, Apply(s, e, maxRequest).threads[e.t], id);
    CutAt(s.leased, e.i);
  }

  lemma OpenOwners(s: State, e: Step, maxRequest: nat, id: Id)
    requires e.Open? && Enabled(s, e)
    ensures Owners(Apply(s, e, maxRequest), id) == Owners(s, id) + if id == |s.table| then 1 else 0
  {
    HeldUpdate(s.threads, e.t, Apply(s, e, maxRequest).threads[e.t], id);
  }

  lemma JudgeOwners(s: State, e: Step, maxRequest: nat, id: Id)
    requires e.Judge? && Enabled(s, e)
    ensures var s' := Apply(s, e, maxRequest);
            Owners(s', id) == Owners(s, id) - if s'.threads[e.t] == Removed && id == s.threads[e.t].id then 1 else 0
  {
    HeldUpdate(s.threads, e.t, Apply(s, e, maxRequest).threads[e.t], id);
  }

  lemma ListOwners(s: State, e: Step, maxRequest: nat, id: Id)
    requires (e.Hand? || e.Keep?) && Enabled(s, e)
    ensures Owners(Apply(s, e, maxRequest), id) == Owners(s, id)
  {
    HeldUpdate(s.threads, e.t, Apply(s, e, maxRequest).threads[e.t], id);
  }

  lemma OtherOwners(s: State, e: Step, maxRequest: nat, id: Id)
    requires (e.Subtract? || e.Fail? || e.Increment? || e.Decrement?) && Enabled(s, e)
    ensures Owners(Apply(s, e, maxRequest), id) == Owners(s, id)
  {
    HeldUpdate(s.threads, e.t, Apply(s, e, maxRequest).threads[e.t], id);
  }

  /** A returned connection goes on to the list exactly when it is alive and used less often than allowed, and is
      deleted otherwise. */
  lemma JudgeMeaning(s: State, t: nat, dead: bool, maxRequest: nat)
    requires Enabled(s, Judge(t, dead))
    ensures var s', id := Apply(s, Judge(t, dead), maxRequest), s.threads[t].id;
            if dead || s.table[id].request >= maxRequest
            then s'.threads[t] == Removed && s'.table[id].frees == s.table[id].frees + 1
            else s'.threads[t] == Keeping(id) && s'.table == s.table
  {
  }

  /** Every step moves a connection from one owner to another, opens one, or deletes one. */
  lemma OwnerStep(s: State, e: Step, maxRequest: nat, id: Id)
    requires Enabled(s, e) && OneOwner(s)
    ensures Owners(Apply(s, e, maxRequest), id) == Share(Apply(s, e, maxRequest), id)
  {
    assert Owners(s, id) == Share(s, id);
    match e
    case Get(_, _) => GetOwners(s, e, maxRequest, id);
    case Delete(_) => DeleteOwners(s, e, maxRequest, id);
    case Release(_, _) => ReleaseOwners(s, e, maxRequest, id);
    case Open(_) => OpenOwners(s, e, maxRequest, id);
    case Judge(_, _) => JudgeOwners(s, e, maxRequest, id);
    case Hand(_) => ListOwners(s, e, maxRequest, id);
    case Keep(_) => ListOwners(s, e, maxRequest, id);
    case _ => OtherOwners(s, e, maxRequest, id);
  }

  lemma TotalStep(s: State, e: Step, maxRequest: nat)
    requires Enabled(s, e) && TotalInv(s)
    ensures TotalInv(Apply(s, e, maxRequest))
  {
    WeightUpdate(s.threads, e.t, Apply(s, e, maxRequest).threads[e.t]);
  }

  /** What a thread holds is nowhere else. */
  lemma OnlyOwner(s: State, t: nat, id: Id)
    requires OneOwner(s) && t < |s.threads| && HeldBy(s.threads[t], id) > 0
    ensures Known(s, id) && id !in s.conns && id !in s.leased
    ensures forall u :: 0 <= u < |s.threads| && u != t ==> HeldBy(s.threads[u], id) == 0
  {
    assert Owners(s, id) == Share(s, id);
    HeldUpdate(s.threads, t, Out, id);
    forall u | 0 <= u < |s.threads| && u != t ensures HeldBy(s.threads[u], id) == 0 {
      HeldByTwo(s.threads, t, u, id);
    }
  }

  /** What is lent is nowhere else. */
  lemma OnlyLent(s: State, i: nat)
    requires OneOwner(s) && i < |s.leased|
    ensures var id := s.leased[i];
            && id !in s.conns && id !in s.leased[..i] + s.leased[i + 1..]
            && forall u :: 0 <= u < |s.threads| ==> HeldBy(s.threads[u], id) == 0
  {
    var id := s.leased[i];
    assert Owners(s, id) == Share(s, id);
    CutAt(s.leased, i);
    forall u | 0 <= u < |s.threads| ensures HeldBy(s.threads[u], id) == 0 {
      HeldUpdate(s.threads, u, Out, id);
    }
  }

  /** The use counts of what the threads of s' hold are those in s, and thread t's part is in order. */
  lemma UseFrame(s: State, s': State, t: nat, maxRequest: nat)
    requires UseInv(s, maxRequest) && t < |s.threads| == |s'.threads| && |s.table| <= |s'.table|
    requires s'.threads == s.threads[t := s'.threads[t]]
    requires forall x :: Known(s, x) ==>
               s'.table[x].leases == s.table[x].leases && s'.table[x].request == s.table[x].request
    requires PcOk(s', s'.threads[t], maxRequest)
    ensures forall u :: 0 <= u < |s'.threads| ==> PcOk(s', s'.threads[u], maxRequest)
  {
    forall u | 0 <= u < |s'.threads| ensures PcOk(s', s'.threads[u], maxRequest) {
      if u != t {
        assert PcOk(s, s.threads[u], maxRequest);
      }
    }
  }

  lemma DeleteUse(s: State, e: Step, maxRequest: nat)
    requires Enabled(s, e) && UseInv(s, maxRequest) && e.Delete?
    ensures UseInv(Apply(s, e, maxRequest), maxRequest)
  {
    var s' := Apply(s, e, maxRequest);
    assert PcOk(s, s.threads[e.t], maxRequest);
    CutAt(s.threads[e.t].todo, 0);
    forall id ensures HeldBy(s'.threads[e.t], id) <= HeldBy(s.threads[e.t], id) {
    }
    assert PcOk(s', s'.threads[e.t], maxRequest);
    UseFrame(s, s', e.t, maxRequest);
  }

  lemma JudgeUse(s: State, e: Step, maxRequest: nat)
    requires Enabled(s, e) && UseInv(s, maxRequest) && e.Judge?
    ensures UseInv(Apply(s, e, maxRequest), maxRequest)
  {
    assert PcOk(s, s.threads[e.t], maxRequest) && HeldBy(s.threads[e.t], s.threads[e.t].id) > 0;
    assert PcOk(Apply(s, e, maxRequest), Apply(s, e, maxRequest).threads[e.t], maxRequest);
    UseFrame(s, Apply(s, e, maxRequest), e.t, maxRequest);
  }

  lemma OpenUse(s: State, e: Step, maxRequest: nat)
    requires Enabled(s, e) && UseInv(s, maxRequest) && e.Open?
    ensures UseInv(Apply(s, e, maxRequest), maxRequest)
  {
    assert PcOk(Apply(s, e, maxRequest), Apply(s, e, maxRequest).threads[e.t], maxRequest);
    UseFrame(s, Apply(s, e, maxRequest), e.t, maxRequest);
  }

  lemma SubtractUse(s: State, e: Step, maxRequest: nat)
    requires Enabled(s, e) && UseInv(s, maxRequest) && e.Subtract?
    ensures UseInv(Apply(s, e, maxRequest), maxRequest)
  {
    var s' := Apply(s, e, maxRequest);
    assert PcOk(s, s.threads[e.t], maxRequest);
    forall id ensures HeldBy(s'.threads[e.t], id) <= HeldBy(s.threads[e.t], id) {
    }
    assert PcOk(s', s'.threads[e.t], maxRequest);
    UseFrame(s, s', e.t, maxRequest);
  }

  lemma IncrementUse(s: State, e: Step, maxRequest: nat)
    requires Enabled(s, e) && UseInv(s, maxRequest) && e.Increment?
    ensures UseInv(Apply(s, e, maxRequest), maxRequest)
  {
    var s' := Apply(s, e, maxRequest);
    assert PcOk(s, s.threads[e.t], maxRequest);
    forall id ensures HeldBy(s'.threads[e.t], id) == HeldBy(s.threads[e.t], id) {
    }
    assert PcOk(s', s'.threads[e.t], maxRequest);
    UseFrame(s, s', e.t, maxRequest);
  }

  lemma LeaveUse(s: State, e: Step, maxRequest: nat)
    requires Enabled(s, e) && UseInv(s, maxRequest) && (e.Fail? || e.Decrement?)
    ensures UseInv(Apply(s, e, maxRequest), maxRequest)
  {
    var s' := Apply(s, e, maxRequest);
    assert PcOk(s', s'.threads[e.t], maxRequest);
    UseFrame(s, s', e.t, maxRequest);
  }

  lemma SweptReady(s: State, pc: Pc, k: nat, maxRequest: nat)
    requires UseInv(s, maxRequest) && k <= |s.conns|
    requires pc == Clearing(if k < |s.conns| then Some(s.conns[k]) else None, s.conns[..k], k)
    ensures PcOk(s, pc, maxRequest)
  {
    forall id | HeldBy(pc, id) > 0 ensures id in s.conns {
      if multiset(s.conns[..k])[id] > 0 {
        assert id in s.conns[..k];
      }
    }
  }

  lemma GetUse(s: State, e: Step, maxRequest: nat)
    requires Enabled(s, e) && UseInv(s, maxRequest) && e.Get?
    ensures UseInv(Apply(s, e, maxRequest), maxRequest)
  {
    var s' := Apply(s, e, maxRequest);
    var k := Discarded(s.conns, e.bad);
    assert s.conns[..|s.conns|] == s.conns;
    SweptReady(s, s'.threads[e.t], k, maxRequest);
    assert PcOk(s', s'.threads[e.t], maxRequest);
    UseFrame(s, s', e.t, maxRequest);
    assert forall id :: id in s'.conns ==> id in s.conns;
  }

  lemma KeepUse(s: State, e: Step, maxRequest: nat)
    requires Enabled(s, e) && UseInv(s, maxRequest) && e.Keep?
    ensures UseInv(Apply(s, e, maxRequest), maxRequest)
  {
    var s' := Apply(s, e, maxRequest);
    assert PcOk(s, s.threads[e.t], maxRequest) && HeldBy(s.threads[e.t], s.threads[e.t].id) > 0;
    forall u | 0 <= u < |s.threads| ensures PcOk(s', s'.threads[u], maxRequest) {
      assert PcOk(s, s.threads[u], maxRequest);
    }
  }

  lemma HandUse(s: State, e: Step, maxRequest: nat)
    requires Enabled(s, e) && UseInv(s, maxRequest) && OneOwner(s) && e.Hand?
    ensures UseInv(Apply(s, e, maxRequest), maxRequest)
  {
    var s' := Apply(s, e, maxRequest);
    OnlyOwner(s, e.t, s.threads[e.t].id);
    assert PcOk(s, s.threads[e.t], maxRequest);
    forall u | 0 <= u < |s.threads| ensures PcOk(s', s'.threads[u], maxRequest) {
      assert PcOk(s, s.threads[u], maxRequest);
    }
  }

  lemma ReleaseUse(s: State, e: Step, maxRequest: nat)
    requires Enabled(s, e) && UseInv(s, maxRequest) && OneOwner(s) && e.Release?
    ensures UseInv(Apply(s, e, maxRequest), maxRequest)
  {
    var s' := Apply(s, e, maxRequest);
    OnlyLent(s, e.i);
    assert forall id :: id in s'.leased ==> id in s.leased && id != s.leased[e.i];
    forall u | 0 <= u < |s.threads| ensures PcOk(s', s'.threads[u], maxRequest) {
      assert PcOk(s, s.threads[u], maxRequest);
    }
  }

  ghost predicate Inv(s: State, maxRequest: nat) {
    OneOwner(s) && TotalInv(s) && UseInv(s, maxRequest)
  }

  lemma InvStep(s: State, e: Step, maxRequest: nat)
    requires Enabled(s, e) && Inv(s, maxRequest)
    ensures Inv(Apply(s, e, maxRequest), maxRequest)
  {
    forall id: Id ensures Owners(Apply(s, e, maxRequest), id) == Share(Apply(s, e, maxRequest), id) {
      OwnerStep(s, e, maxRequest, id);
    }
    TotalStep(s, e, maxRequest);
    match e
    case Get(_, _) => GetUse(s, e, maxRequest);
    case Hand(_) => HandUse(s, e, maxRequest);
    case Release(_, _) => ReleaseUse(s, e, maxRequest);
    case Keep(_) => KeepUse(s, e, maxRequest);
    case Delete(_) => DeleteUse(s, e, maxRequest);
    case Judge(_, _) => JudgeUse(s, e, maxRequest);
    case Open(_) => OpenUse(s, e, maxRequest);
    case Subtract(_) => SubtractUse(s, e, maxRequest);
    case Increment(_) => IncrementUse(s, e, maxRequest);
    case _ => LeaveUse(s, e, maxRequest);
  }

  lemma {:induction false} NothingHeld(threads: seq<Pc>, id: Id)
    requires forall t :: 0 <= t < |threads| ==> threads[t] == Out
    ensures Held(threads, id) == 0 && Weights(threads) == 0
  {
    if threads != [] {
      NothingHeld(threads[1..], id);
    }
  }

  lemma {:induction false} InvRun(run: seq<State>, steps: seq<Step>, maxRequest: nat, n: nat)
    requires IsRun(run, steps, maxRequest) && n < |run|
    ensures Inv(run[n], maxRequest)
  {
    if n == 0 {
      NothingHeld(run[0].threads, 0);
      forall id: Id ensures Owners(run[0], id) == Share(run[0], id) {
        NothingHeld(run[0].threads, id);
      }
    } else {
      InvRun(run, steps, maxRequest, n - 1);
      InvStep(run[n - 1], steps[n - 1], maxRequest);
    }
  }

  /** Nothing is pooled twice, lent twice, or both. */
  predicate Apart(s: State) {
    && (forall i, j :: 0 <= i < j < |s.conns| ==> s.conns[i] != s.conns[j])
    && (forall i, j :: 0 <= i < j < |s.leased| ==> s.leased[i] != s.leased[j])
    && (forall i, j :: 0 <= i < |s.conns| && 0 <= j < |s.leased| ==> s.conns[i] != s.leased[j])
  }

  lemma Occurs(ids: seq<Id>, i: nat, j: nat)
    requires i < j < |ids| && ids[i] == ids[j]
    ensures multiset(ids)[ids[i]] >= 2
  {
    CutAt(ids, j);
    assert ids[..j][i] == ids[i];
    assert ids[i] in ids[..j];
  }

  lemma ApartInv(s: State)
    requires OneOwner(s)
    ensures Apart(s)
  {
    forall i, j | 0 <= i < j < |s.conns| ensures s.conns[i] != s.conns[j] {
      if s.conns[i] == s.conns[j] {
        assert Owners(s, s.conns[i]) == Share(s, s.conns[i]);
        Occurs(s.conns, i, j);
      }
    }
    forall i, j | 0 <= i < j < |s.leased| ensures s.leased[i] != s.leased[j] {
      if s.leased[i] == s.leased[j] {
        assert Owners(s, s.leased[i]) == Share(s, s.leased[i]);
        Occurs(s.leased, i, j);
      }
    }
    forall i, j | 0 <= i < |s.conns| && 0 <= j < |s.leased| ensures s.conns[i] != s.leased[j] {
      assert Owners(s, s.conns[i]) == Share(s, s.conns[i]);
      assert s.conns[i] in multiset(s.conns) && s.leased[j] in multiset(s.leased);
    }
  }

  /** In every interleaving: the total is what is pooled, lent or still to be settled by a thread inside a call, and
      exactly pooled plus lent when none is; no connection is pooled or lent twice or both, deleted twice, deleted
      while pooled or lent, or lent more often than allowed. */
  lemma PoolConservation(run: seq<State>, steps: seq<Step>, maxRequest: nat, n: nat, id: Id)
    requires IsRun(run, steps, maxRequest) && n < |run|
    ensures var s := run[n];
            && s.total == |s.conns| + |s.leased| + Weights(s.threads)
            && ((forall t :: 0 <= t < |s.threads| ==> s.threads[t] == Out) ==> s.total == |s.conns| + |s.leased|)
            && Apart(s)
            && (Known(s, id) ==> s.table[id].frees <= 1)
            && (Known(s, id) ==> s.table[id].leases <= 1 || s.table[id].leases <= maxRequest)
            && (id in s.conns || id in s.leased ==> Known(s, id) && s.table[id].frees == 0)
  {
    var s := run[n];
    InvRun(run, steps, maxRequest, n);
    ApartInv(s);
    assert Owners(s, id) == Share(s, id);
    if forall t :: 0 <= t < |s.threads| ==> s.threads[t] == Out {
      NothingHeld(s.threads, id);
    }
  }

  // ---------------------------------------------------------------- there and back

  /** The steps a thread can take, by where it is. */
  ghost predicate CanGoOn(s: State, t: nat)
    requires t < |s.threads|
  {
    match s.threads[t]
    case Out => && (forall bad :: Enabled(s, Get(t, bad)))
                && (forall i :: 0 <= i < |s.leased| ==> Enabled(s, Release(t, i)))
    case Clearing(_, todo, _) => if todo == [] then Enabled(s, Subtract(t)) else Enabled(s, Delete(t))
    case Opening => Enabled(s, Open(t)) && Enabled(s, Fail(t))
    case Opened(_) => Enabled(s, Increment(t))
    case Handing(_) => Enabled(s, Hand(t))
    case Returned(_) => forall dead :: Enabled(s, Judge(t, dead))
    case Keeping(_) => Enabled(s, Keep(t))
    case Removed => Enabled(s, Decrement(t))
  }

  /** In every state of every run each call has a next step, and every lent connection can be returned. */
  lemma NoCallIsStuck(run: seq<State>, steps: seq<Step>, maxRequest: nat, n: nat, t: nat)
    requires IsRun(run, steps, maxRequest) && n < |run| && t < |run[n].threads|
    ensures CanGoOn(run[n], t)
  {
    InvRun(run, steps, maxRequest, n);
    GoesOn(run[n], t, maxRequest);
  }

  lemma GoesOn(s: State, t: nat, maxRequest: nat)
    requires UseInv(s, maxRequest) && t < |s.threads|
    ensures CanGoOn(s, t)
  {
    var pc := s.threads[t];
    assert PcOk(s, pc, maxRequest);
    match pc
    case Clearing(_, todo, _) =>
      if todo != [] {
        assert todo[0] in multiset(todo) && HeldBy(pc, todo[0]) > 0;
      }
    case Handing(id) => assert HeldBy(pc, id) > 0;
    case Returned(id) => assert HeldBy(pc, id) > 0;
    case _ =>
  }

  /** With nothing pooled, a call can open a connection, count it and lend it. */
  lemma OpenRoundTrip(s: State, t: nat, bad: Id -> bool, m: nat)
    requires t < |s.threads| && s.threads[t] == Out && s.conns == []
    ensures Enabled(s, Get(t, bad)) && Enabled(Apply(s, Get(t, bad), m), Subtract(t))
    ensures var s2 := Apply(Apply(s, Get(t, bad), m), Subtract(t), m); s2 == s.(threads := s.threads[t := Opening])
  {
  }

  lemma OpenLends(s: State, t: nat, m: nat)
    requires t < |s.threads| && s.threads[t] == Opening
    ensures Enabled(s, Open(t)) && Enabled(Apply(s, Open(t), m), Increment(t))
    ensures var s2 := Apply(Apply(s, Open(t), m), Increment(t), m);
            && Enabled(s2, Hand(t))
            && var s3 := Apply(s2, Hand(t), m);
               && s3.leased == s.leased + [|s.table|] && s3.total == s.total + 1 && s3.conns == s.conns
               && s3.threads == s.threads[t := Out] && s3.table == s.table + [Conn(0, 1, 0)]
  {
    var s2 := Apply(Apply(s, Open(t), m), Increment(t), m);
    assert s2.threads[t] == Handing(|s.table|);
    assert Apply(s2, Hand(t), m).threads == s.threads[t := Out];
  }

  /** A returned connection ends up at the back of the list and the total stays, or it is deleted and the total drops
      by one. */
  lemma ReleaseRoundTrip(s: State, t: nat, i: nat, dead: bool, m: nat)
    requires Enabled(s, Release(t, i))
    ensures var id, s1 := s.leased[i], Apply(s, Release(t, i), m);
            && s1.threads[t] == Returned(id) && s1.leased == s.leased[..i] + s.leased[i + 1..]
            && s1.table == s.table[id := s.table[id].(request := s.table[id].request + 1)]
            && s1.conns == s.conns && s1.total == s.total && Enabled(s1, Judge(t, dead))
  {
  }

  lemma JudgedSettles(s: State, t: nat, dead: bool, m: nat)
    requires Enabled(s, Judge(t, dead))
    ensures var id, s1 := s.threads[t].id, Apply(s, Judge(t, dead), m);
            if dead || s.table[id].request >= m
            then Enabled(s1, Decrement(t)) && Apply(s1, Decrement(t), m).conns == s.conns
                 && Apply(s1, Decrement(t), m).total == s.total - 1
            else Enabled(s1, Keep(t)) && Apply(s1, Keep(t), m).conns == s.conns + [id]
                 && Apply(s1, Keep(t), m).total == s.total
  {
  }
}
