/**
  The single wake-up token. A token for fiber f is anything that will lead to f being
  resumed: an event slot holding it, its sleep timer, the expired callback of that timer
  (collected, queued or executing) or a queue entry. The invariant proved here over every
  run is that a fiber bound to be woken has exactly one token, every other fiber has none,
  and a fiber that a thread has taken from the queue is Ready and runs nowhere.
*/
module ProtocolTokens {
  import opened Common
  import opened Protocol

  datatype Place =
    | AtSlot(fd: nat, ev: Event)
    | AtTimer(id: TimerId)
    | AtBatch(t: ThreadId, i: nat)
    | AtQueue(task: TaskId)
    | AtThread(t: ThreadId)

  function CallbackFiber(cb: Callback): Option<FiberId> {
    if cb.Wake? then Some(cb.fiber) else None
  }

  function WorkFiber(w: Work): Option<FiberId> {
    match w
    case Resumable(f) => Some(f)
    case Call(cb) => CallbackFiber(cb)
  }

  function PcFiber(tasks: seq<Task>, pc: Pc): Option<FiberId> {
    match pc
    case Taken(id) => if id < |tasks| then WorkFiber(tasks[id].work) else None
    case Exec(_, _, todo) => if todo.Some? then CallbackFiber(todo.value) else None
    case _ => None
  }

  /** The fiber whose token lies at place p, if any. */
  function At(s: State, p: Place): Option<FiberId> {
    match p
    case AtSlot(fd, ev) => if (fd, ev) in s.slots then WorkFiber(s.slots[(fd, ev)]) else None
    case AtTimer(id) => if id in s.timers then CallbackFiber(s.timers[id].cb) else None
    case AtBatch(t, i) =>
      if t in s.threads && s.threads[t].pc.Batch? && i < |s.threads[t].pc.cbs|
      then CallbackFiber(s.threads[t].pc.cbs[i]) else None
    case AtQueue(id) => if id in s.queue && id < |s.tasks| then WorkFiber(s.tasks[id].work) else None
    case AtThread(t) => if t in s.threads then PcFiber(s.tasks, s.threads[t].pc) else None
  }

  predicate Committed(s: State, f: FiberId) {
    f in s.fibers && s.fibers[f].park == Park.Committed
  }

  predicate Runs(s: State, t: ThreadId, f: FiberId) {
    t in s.threads && s.threads[t].pc.Exec? && s.threads[t].pc.fiber == f
  }

  // ---------------------------------------------------------------- the invariant

  /** Task ids are unique in the queue and in range; a sleep timer never recurs; an event slot
      holds a fiber or a callback of the program. */
  ghost predicate Shape(s: State) {
    && Distinct(s.queue)
    && (forall id :: id in s.queue ==> id < |s.tasks|)
    && (forall t :: t in s.threads ==> HeldInRange(s, s.threads[t].pc))
    && (forall id :: id in s.timers && s.timers[id].cb.Wake? ==> !s.timers[id].recurring)
    && (forall key :: key in s.slots ==> s.slots[key].Resumable? || s.slots[key].cb.User?)
  }

  predicate HeldInRange(s: State, pc: Pc) {
    pc.Taken? ==> pc.task < |s.tasks|
  }

  /** At most one token per fiber, and tokens exactly for the committed fibers. */
  ghost predicate TokenInv(s: State) {
    && (forall p, q :: At(s, p).Some? && At(s, p) == At(s, q) ==> p == q)
    && (forall p :: At(s, p).Some? ==> Committed(s, At(s, p).value))
    && (forall f :: Committed(s, f) ==> exists p :: At(s, p) == Some(f))
  }

  /** Fiber states agree with the threads that execute them. */
  ghost predicate FiberInv(s: State) {
    && (forall f :: f in s.fibers ==> FiberShape(s.fibers[f]))
    && (forall t, f :: Runs(s, t, f) ==> f in s.fibers && s.fibers[f].state == Running)
    && (forall t, f :: Runs(s, t, f) && s.threads[t].pc.todo.Some? ==> s.fibers[f].park == Free)
    && (forall t, u, f :: Runs(s, t, f) && Runs(s, u, f) ==> t == u)
    && (forall f :: f in s.fibers && s.fibers[f].state == Running ==> exists t :: Runs(s, t, f))
    && (forall t :: t in s.threads ==> TakenReady(s, s.threads[t].pc))
  }

  predicate FiberShape(f: Fiber) {
    && (f.state == Ready ==> f.park != Free)
    && (f.state == Term ==> f.park == Free)
  }

  predicate TakenReady(s: State, pc: Pc) {
    pc.Taken? && pc.task < |s.tasks| && s.tasks[pc.task].work.Resumable?
    ==> s.tasks[pc.task].work.fiber in s.fibers && s.fibers[s.tasks[pc.task].work.fiber].state == Ready
  }

  ghost predicate Inv(s: State) {
    Shape(s) && TokenInv(s) && FiberInv(s)
  }

  // ---------------------------------------------------------------- how a step moves tokens

  ghost predicate SameCommitted(s: State, s': State) {
    forall f :: Committed(s', f) <==> Committed(s, f)
  }

  ghost predicate OnlyCommits(s: State, s': State, f: FiberId) {
    !Committed(s, f) && forall g :: Committed(s', g) <==> g == f || Committed(s, g)
  }

  ghost predicate OnlyFrees(s: State, s': State, f: FiberId) {
    forall g :: Committed(s', g) <==> g != f && Committed(s, g)
  }

  /** Tokens of s' at p are the tokens of s at src(p), and none is left out. */
  lemma Relocated(s: State, s': State, src: Place -> Place, dst: Place -> Place)
    requires TokenInv(s) && SameCommitted(s, s')
    requires forall p :: At(s', p).Some? ==> At(s, src(p)) == At(s', p) && dst(src(p)) == p
    requires forall p :: At(s, p).Some? ==> At(s', dst(p)) == At(s, p)
    ensures TokenInv(s')
  {
    forall p, q | At(s', p).Some? && At(s', p) == At(s', q) ensures p == q {
      assert src(p) == src(q);
    }
    forall f | Committed(s', f) ensures exists p :: At(s', p) == Some(f) {
      var p :| At(s, p) == Some(f);
      assert At(s', dst(p)) == Some(f);
    }
  }

  /** No token moves. */
  ghost predicate Stays(s: State, s': State) {
    forall p :: At(s', p) == At(s, p)
  }

  /** What lies at `from` moves to the free place `to`, and nothing else moves. */
  ghost predicate Moves(s: State, s': State, from: Place, to: Place) {
    && from != to && At(s, to) == None && At(s', from) == None && At(s', to) == At(s, from)
    && forall p :: p != from && p != to ==> At(s', p) == At(s, p)
  }

  /** A token of f appears at the free place `to`, and nothing moves. */
  ghost predicate Gains(s: State, s': State, to: Place, f: FiberId) {
    At(s, to) == None && At(s', to) == Some(f) && forall p :: p != to ==> At(s', p) == At(s, p)
  }

  /** What lies at `from` disappears, and nothing moves. */
  ghost predicate Loses(s: State, s': State, from: Place) {
    At(s', from) == None && forall p :: p != from ==> At(s', p) == At(s, p)
  }

  lemma Kept(s: State, s': State)
    requires TokenInv(s) && SameCommitted(s, s') && Stays(s, s')
    ensures TokenInv(s')
  {
    Relocated(s, s', p => p, p => p);
  }

  lemma Moved(s: State, s': State, from: Place, to: Place)
    requires TokenInv(s) && SameCommitted(s, s') && Moves(s, s', from, to)
    ensures TokenInv(s')
  {
    Relocated(s, s', p => if p == to then from else p, p => if p == from then to else p);
  }

  lemma Added(s: State, s': State, to: Place, f: FiberId)
    requires TokenInv(s) && OnlyCommits(s, s', f) && Gains(s, s', to, f)
    ensures TokenInv(s')
  {
    forall g | Committed(s', g) ensures exists p :: At(s', p) == Some(g) {
      if g == f {
        assert At(s', to) == Some(g);
      } else {
        var p :| At(s, p) == Some(g);
        assert At(s', p) == Some(g);
      }
    }
  }

  lemma Removed(s: State, s': State, from: Place, f: FiberId)
    requires TokenInv(s) && OnlyFrees(s, s', f) && At(s, from) == Some(f) && Loses(s, s', from)
    ensures TokenInv(s')
  {
    forall g | Committed(s', g) ensures exists p :: At(s', p) == Some(g) {
      var p :| At(s, p) == Some(g);
      assert At(s', p) == Some(g);
    }
  }

  // ---------------------------------------------------------------- each step keeps the tokens

  /** A submitted fiber gets its one token in the queue. */
  lemma SubmitMoves(s: State, st: Step)
    requires Inv(s) && Enabled(s, st) && st.SubmitFiber?
    ensures Gains(s, Apply(s, st), AtQueue(|s.tasks|), st.f)
  {
    forall p | p != AtQueue(|s.tasks|) ensures At(Apply(s, st), p) == At(s, p) {
      SubmitPlace(s, st, p);
    }
  }

  lemma SubmitPlace(s: State, st: Step, p: Place)
    requires Shape(s) && Enabled(s, st) && st.SubmitFiber? && p != AtQueue(|s.tasks|)
    ensures At(Apply(s, st), p) == At(s, p)
  {
    if p.AtThread? && p.t in s.threads {
      assert HeldInRange(s, s.threads[p.t].pc);
    }
  }

  lemma PublicStays(s: State, st: Step)
    requires Inv(s) && Enabled(s, st) && (st.SubmitCall? || st.AddEventCall? || st.AddTimer? || st.CancelTimer?)
    ensures Stays(s, Apply(s, st))
  {
  }

  lemma TokensPublic(s: State, st: Step)
    requires Inv(s) && Enabled(s, st)
    requires st.SubmitFiber? || st.SubmitCall? || st.AddEventCall? || st.AddTimer? || st.CancelTimer?
    ensures TokenInv(Apply(s, st))
  {
    if st.SubmitFiber? {
      SubmitMoves(s, st);
      Added(s, Apply(s, st), AtQueue(|s.tasks|), st.f);
    } else {
      PublicStays(s, st);
      Kept(s, Apply(s, st));
    }
  }

  /** `TriggerEvent` moves what the slot holds to the end of the queue. */
  lemma FireMoves(s: State, t: ThreadId, key: (nat, Event))
    requires Shape(s) && t in s.threads && key in s.slots
    ensures Moves(s, Fire(s, t, key), AtSlot(key.0, key.1), AtQueue(|s.tasks|))
  {
    var s1 := Fire(s, t, key);
    assert forall p :: p != AtSlot(key.0, key.1) && p != AtQueue(|s.tasks|) ==> At(s1, p) == At(s, p);
  }

  lemma TokensFire(s: State, s1: State, t: ThreadId, key: (nat, Event))
    requires Shape(s) && TokenInv(s) && t in s.threads && key in s.slots
    requires s1 == Fire(s, t, key)
    ensures TokenInv(s1)
  {
    FireMoves(s, t, key);
    Moved(s, s1, AtSlot(key.0, key.1), AtQueue(|s.tasks|));
  }

  /** Registering itself gives the running fiber its one token, in the slot. */
  lemma WaitMoves(s: State, st: Step)
    requires Inv(s) && Enabled(s, st) && st.WaitEvent?
    ensures Gains(s, Apply(s, st), AtSlot(st.fd, st.ev), s.threads[st.t].pc.fiber)
  {
  }

  lemma TokensWait(s: State, st: Step)
    requires Inv(s) && Enabled(s, st) && st.WaitEvent?
    ensures TokenInv(Apply(s, st))
  {
    WaitMoves(s, st);
    Added(s, Apply(s, st), AtSlot(st.fd, st.ev), s.threads[st.t].pc.fiber);
  }

  /** Arming the sleep timer gives the running fiber its one token, in the timer. */
  lemma SleepMoves(s: State, st: Step)
    requires Inv(s) && Enabled(s, st) && st.Sleep?
    ensures Gains(s, Apply(s, st), AtTimer(st.id), s.threads[st.t].pc.fiber)
  {
  }

  lemma TokensSleep(s: State, st: Step)
    requires Inv(s) && Enabled(s, st) && st.Sleep?
    ensures TokenInv(Apply(s, st))
  {
    SleepMoves(s, st);
    Added(s, Apply(s, st), AtTimer(st.id), s.threads[st.t].pc.fiber);
  }

  /** Leaving the fiber moves no token. */
  lemma LeaveStays(s: State, st: Step)
    requires Inv(s) && Enabled(s, st) && (st.Yield? || st.Finish?)
    ensures Stays(s, Apply(s, st))
  {
    forall p ensures At(Apply(s, st), p) == At(s, p) {
      LeavePlace(s, st, p);
    }
  }

  lemma LeavePlace(s: State, st: Step, p: Place)
    requires Enabled(s, st) && (st.Yield? || st.Finish?)
    ensures At(Apply(s, st), p) == At(s, p)
  {
  }

  lemma LeaveCommitted(s: State, st: Step)
    requires Enabled(s, st) && (st.Yield? || st.Finish?)
    ensures SameCommitted(s, Apply(s, st))
  {
  }

  lemma TokensLeave(s: State, st: Step)
    requires Inv(s) && Enabled(s, st) && (st.Yield? || st.Finish?)
    ensures TokenInv(Apply(s, st))
  {
    LeaveStays(s, st);
    LeaveCommitted(s, st);
    Kept(s, Apply(s, st));
  }

  /** Deleting an event removes what its slot holds. */
  lemma DelMoves(s: State, st: Step)
    requires Inv(s) && Enabled(s, st) && st.DelEvent?
    ensures Loses(s, Apply(s, st), AtSlot(st.fd, st.ev))
  {
    forall p ensures At(Apply(s, st), p) == if p == AtSlot(st.fd, st.ev) then None else At(s, p) {
      DelPlace(s, st, p);
    }
  }

  lemma DelPlace(s: State, st: Step, p: Place)
    requires Enabled(s, st) && st.DelEvent?
    ensures At(Apply(s, st), p) == if p == AtSlot(st.fd, st.ev) then None else At(s, p)
  {
  }

  lemma TokensDel(s: State, st: Step)
    requires Inv(s) && Enabled(s, st) && st.DelEvent?
    ensures TokenInv(Apply(s, st))
  {
    var s' := Apply(s, st);
    var p := AtSlot(st.fd, st.ev);
    DelMoves(s, st);
    if At(s, p).Some? {
      Removed(s, s', p, At(s, p).value);
    } else {
      Kept(s, s');
    }
  }

  /** Steps that neither hold nor move a token. */
  lemma TokensPlain(s: State, st: Step)
    requires Inv(s) && Enabled(s, st)
    requires st.Settle? || st.Stop? || st.Return? || st.EnterIdle? || st.Exit? || st.IdleStop? || st.IdleYield?
    ensures TokenInv(Apply(s, st))
  {
    forall p ensures At(Apply(s, st), p) == At(s, p) {
      PlainPlace(s, st, p);
    }
    PlainCommitted(s, st);
    Kept(s, Apply(s, st));
  }

  lemma PlainPlace(s: State, st: Step, p: Place)
    requires Enabled(s, st)
    requires st.Settle? || st.Stop? || st.Return? || st.EnterIdle? || st.Exit? || st.IdleStop? || st.IdleYield?
    ensures At(Apply(s, st), p) == At(s, p)
  {
  }

  lemma PlainCommitted(s: State, st: Step)
    requires Enabled(s, st)
    requires st.Settle? || st.Stop? || st.Return? || st.EnterIdle? || st.Exit? || st.IdleStop? || st.IdleYield?
    ensures SameCommitted(s, Apply(s, st))
  {
  }

  /** Cancelling or triggering an event moves what its slot holds to the end of the queue. */
  lemma TriggerMoves(s: State, st: Step)
    requires Inv(s) && Enabled(s, st) && (st.CancelEvent? || st.Trigger?)
    ensures Moves(s, Apply(s, st), AtSlot(st.fd, st.ev), AtQueue(|s.tasks|))
  {
    FireMoves(s, st.t, (st.fd, st.ev));
    assert Stays(Fire(s, st.t, (st.fd, st.ev)), Apply(s, st));
  }

  lemma TokensTrigger(s: State, st: Step)
    requires Inv(s) && Enabled(s, st) && (st.CancelEvent? || st.Trigger?)
    ensures TokenInv(Apply(s, st))
  {
    TriggerMoves(s, st);
    Moved(s, Apply(s, st), AtSlot(st.fd, st.ev), AtQueue(|s.tasks|));
  }

  /** The callback of a sleep timer moves the sleeper's token from its own execution to the queue. */
  lemma RunWakeMoves(s: State, st: Step)
    requires Inv(s) && Enabled(s, st) && st.RunWake?
    ensures Moves(s, Apply(s, st), AtThread(st.t), AtQueue(|s.tasks|))
  {
    forall p | p != AtThread(st.t) && p != AtQueue(|s.tasks|) ensures At(Apply(s, st), p) == At(s, p) {
      RunWakePlace(s, st, p);
    }
  }

  lemma RunWakePlace(s: State, st: Step, p: Place)
    requires Shape(s) && Enabled(s, st) && st.RunWake? && p != AtThread(st.t) && p != AtQueue(|s.tasks|)
    ensures At(Apply(s, st), p) == At(s, p)
  {
    if p.AtThread? && p.t in s.threads {
      assert HeldInRange(s, s.threads[p.t].pc);
    }
  }

  lemma TokensRunWake(s: State, st: Step)
    requires Inv(s) && Enabled(s, st) && st.RunWake?
    ensures TokenInv(Apply(s, st))
  {
    RunWakeMoves(s, st);
    Moved(s, Apply(s, st), AtThread(st.t), AtQueue(|s.tasks|));
  }

  /** The timeout callback moves what the slot still holds to the queue; otherwise no token moves. */
  lemma RunCancelMoves(s: State, st: Step)
    requires Inv(s) && Enabled(s, st) && st.RunCancel?
    ensures var todo := s.threads[st.t].pc.todo.value;
            if st.live && (todo.fd, todo.ev) in s.slots
            then Moves(s, Apply(s, st), AtSlot(todo.fd, todo.ev), AtQueue(|s.tasks|)) else Stays(s, Apply(s, st))
  {
    var todo := s.threads[st.t].pc.todo.value;
    var s1 := SetPc(s, st.t, s.threads[st.t].pc.(todo := None));
    assert Stays(s, s1);
    if st.live && (todo.fd, todo.ev) in s.slots {
      ShapeOfPc(s, st.t, s.threads[st.t].pc.(todo := None));
      FireMoves(s1, st.t, (todo.fd, todo.ev));
    }
  }

  lemma ShapeOfPc(s: State, t: ThreadId, pc: Pc)
    requires Shape(s) && t in s.threads && !pc.Taken?
    ensures Shape(SetPc(s, t, pc))
  {
    var s1 := SetPc(s, t, pc);
    forall u | u in s1.threads ensures HeldInRange(s1, s1.threads[u].pc) {
      assert HeldInRange(s, s.threads[u].pc);
    }
  }

  lemma TokensRunCancel(s: State, st: Step)
    requires Inv(s) && Enabled(s, st) && st.RunCancel?
    ensures TokenInv(Apply(s, st))
  {
    var todo := s.threads[st.t].pc.todo.value;
    RunCancelMoves(s, st);
    if st.live && (todo.fd, todo.ev) in s.slots {
      Moved(s, Apply(s, st), AtSlot(todo.fd, todo.ev), AtQueue(|s.tasks|));
    } else {
      Kept(s, Apply(s, st));
    }
  }

  lemma TakenIds(q: seq<TaskId>, i: nat)
    requires i < |q| && Distinct(q)
    ensures Distinct(q[..i] + q[i + 1..])
    ensures forall id :: id in q[..i] + q[i + 1..] <==> id in q && id != q[i]
  {
    var r := q[..i] + q[i + 1..];
    forall id | id in q && id != q[i] ensures id in r {
      var k :| 0 <= k < |q| && q[k] == id;
      assert r[if k < i then k else k - 1] == id;
    }
  }

  /** Taking a task moves its token from the queue to the thread. */
  lemma TakeMoves(s: State, st: Step)
    requires Inv(s) && Enabled(s, st) && st.Take?
    ensures Moves(s, Apply(s, st), AtQueue(s.queue[st.i]), AtThread(st.t))
  {
    var s' := Apply(s, st);
    var id := s.queue[st.i];
    TakenIds(s.queue, st.i);
    assert forall p :: p != AtQueue(id) && p != AtThread(st.t) ==> At(s', p) == At(s, p);
  }

  lemma TokensTake(s: State, st: Step)
    requires Inv(s) && Enabled(s, st) && st.Take?
    ensures TokenInv(Apply(s, st))
  {
    TakeMoves(s, st);
    Moved(s, Apply(s, st), AtQueue(s.queue[st.i]), AtThread(st.t));
  }

  /** Resuming a queued fiber uses up its token; starting a callback keeps the one the callback stands for. */
  lemma ResumeMoves(s: State, st: Step)
    requires Inv(s) && Enabled(s, st) && st.Resume?
    ensures if s.tasks[s.threads[st.t].pc.task].work.Resumable?
            then At(s, AtThread(st.t)) == Some(st.f) && Loses(s, Apply(s, st), AtThread(st.t))
            else Stays(s, Apply(s, st))
  {
  }

  lemma TokensResume(s: State, st: Step)
    requires Inv(s) && Enabled(s, st) && st.Resume?
    ensures TokenInv(Apply(s, st))
  {
    ResumeMoves(s, st);
    if s.tasks[s.threads[st.t].pc.task].work.Resumable? {
      Removed(s, Apply(s, st), AtThread(st.t), st.f);
    } else {
      Kept(s, Apply(s, st));
    }
  }

  function IndexIn(ids: seq<TimerId>, id: TimerId): (k: nat)
    requires id in ids
    ensures k < |ids| && ids[k] == id
  {
    if ids[0] == id then 0 else 1 + IndexIn(ids[1..], id)
  }

  /** The places after timers have expired, in terms of the places before. */
  lemma ExpirePlaces(s: State, st: Step, p: Place)
    requires Inv(s) && Enabled(s, st) && st.Expire?
    ensures var s' := Apply(s, st);
            if p.AtBatch? && p.t == st.t then At(s', p) == if p.i < |st.ids| then At(s, AtTimer(st.ids[p.i])) else None
            else if p.AtTimer? && p.id in st.ids then At(s', p) == None
            else At(s', p) == At(s, p)
  {
  }

  lemma TokensExpire(s: State, st: Step)
    requires Inv(s) && Enabled(s, st) && st.Expire?
    ensures TokenInv(Apply(s, st))
  {
    var s', t, ids := Apply(s, st), st.t, st.ids;
    var src := (p: Place) => if p.AtBatch? && p.t == t && p.i < |ids| then AtTimer(ids[p.i]) else p;
    var dst := (p: Place) => if p.AtTimer? && p.id in ids then AtBatch(t, IndexIn(ids, p.id)) else p;
    forall p | At(s', p).Some? ensures At(s, src(p)) == At(s', p) && dst(src(p)) == p {
      ExpirePlaces(s, st, p);
      if p.AtBatch? && p.t == t {
        assert ids[IndexIn(ids, ids[p.i])] == ids[p.i];
      }
    }
    forall p | At(s, p).Some? ensures At(s', dst(p)) == At(s, p) {
      ExpirePlaces(s, st, dst(p));
    }
    Relocated(s, s', src, dst);
  }

  lemma PushedId(q: seq<TaskId>, n: nat)
    requires Distinct(q) && forall id :: id in q ==> id < n
    ensures Distinct(q + [n])
  {
    assert forall i :: 0 <= i < |q| ==> q[i] in q;
  }

  lemma PushedIds(s: State, cbs: seq<Callback>)
    requires Shape(s)
    ensures Distinct(PushAll(s, cbs).queue)
    ensures forall id :: id in PushAll(s, cbs).queue <==> id in s.queue || |s.tasks| <= id < |s.tasks| + |cbs|
  {
    var n, q := |s.tasks|, PushAll(s, cbs).queue;
    assert forall i :: 0 <= i < |s.queue| ==> s.queue[i] in s.queue;
    forall id: nat | n <= id < n + |cbs| ensures id in q {
      assert q[|s.queue| + id - n] == id;
    }
  }

  /** The places after a batch is scheduled, in terms of the places before. */
  lemma BatchPlaces(s: State, s': State, t: ThreadId, p: Place)
    requires Shape(s) && t in s.threads && s.threads[t].pc.Batch?
    requires s' == SetPc(PushAll(s, s.threads[t].pc.cbs), t, Handling)
    ensures p.AtQueue? && p.task >= |s.tasks| ==> At(s', p) == At(s, AtBatch(t, p.task - |s.tasks|))
    ensures !(p.AtQueue? && p.task >= |s.tasks|) && !(p.AtBatch? && p.t == t) ==> At(s', p) == At(s, p)
    ensures p.AtBatch? && p.t == t ==> At(s', p) == None
  {
    PushedIds(s, s.threads[t].pc.cbs);
  }

  lemma TokensScheduleBatch(s: State, st: Step)
    requires Inv(s) && Enabled(s, st) && st.ScheduleBatch?
    ensures TokenInv(Apply(s, st))
  {
    var s', t, n := Apply(s, st), st.t, |s.tasks|;
    var src := (p: Place) => if p.AtQueue? && p.task >= n then AtBatch(t, p.task - n) else p;
    var dst := (p: Place) => if p.AtBatch? && p.t == t then AtQueue(n + p.i) else p;
    forall p | At(s, p).Some? ensures At(s', dst(p)) == At(s, p) {
      BatchPlaces(s, s', t, dst(p));
    }
    forall p | At(s', p).Some? ensures At(s, src(p)) == At(s', p) && dst(src(p)) == p {
      BatchPlaces(s, s', t, p);
    }
    Relocated(s, s', src, dst);
  }

  lemma TokensCode(s: State, st: Step)
    requires Inv(s) && Enabled(s, st) && InCode(st)
    ensures TokenInv(Apply(s, st))
  {
    match st
    case DelEvent(_, _, _) => TokensDel(s, st);
    case WaitEvent(_, _, _) => TokensWait(s, st);
    case Sleep(_, _) => TokensSleep(s, st);
    case CancelEvent(_, _, _) => TokensTrigger(s, st);
    case Settle(_) => TokensPlain(s, st);
    case Stop => TokensPlain(s, st);
    case _ => TokensPublic(s, st);
  }

  lemma TokensLoop(s: State, st: Step)
    requires Inv(s) && Enabled(s, st) && !InCode(st)
    ensures TokenInv(Apply(s, st))
  {
    match st
    case Yield(_) => TokensLeave(s, st);
    case Finish(_) => TokensLeave(s, st);
    case RunWake(_) => TokensRunWake(s, st);
    case RunCancel(_, _) => TokensRunCancel(s, st);
    case Take(_, _) => TokensTake(s, st);
    case Resume(_, _) => TokensResume(s, st);
    case Expire(_, _) => TokensExpire(s, st);
    case ScheduleBatch(_) => TokensScheduleBatch(s, st);
    case Trigger(_, _, _) => TokensTrigger(s, st);
    case _ => TokensPlain(s, st);
  }

  lemma TokensStep(s: State, st: Step)
    requires Inv(s) && Enabled(s, st)
    ensures TokenInv(Apply(s, st))
  {
    if InCode(st) {
      TokensCode(s, st);
    } else {
      TokensLoop(s, st);
    }
  }

  // ---------------------------------------------------------------- the other two parts

  lemma ShapePushed(s: State, s': State, w: Work, pin: Option<ThreadId>)
    requires Shape(s) && s'.queue == Push(s, w, pin).queue && s'.tasks == Push(s, w, pin).tasks
    requires s'.timers == s.timers && s'.slots.Items <= s.slots.Items
    requires forall t :: t in s'.threads ==>
               t in s.threads && (s'.threads[t].pc.Taken? ==> s'.threads[t].pc == s.threads[t].pc)
    ensures Shape(s')
  {
    PushedId(s.queue, |s.tasks|);
    forall key | key in s'.slots ensures s'.slots[key].Resumable? || s'.slots[key].cb.User? {
      assert (key, s'.slots[key]) in s'.slots.Items;
    }
    forall t | t in s'.threads ensures HeldInRange(s', s'.threads[t].pc) {
      assert HeldInRange(s, s.threads[t].pc);
    }
  }

  lemma ShapeFired(s: State, t: ThreadId, key: (nat, Event))
    requires Shape(s) && t in s.threads && key in s.slots
    ensures Shape(Fire(s, t, key))
  {
    ShapePushed(s, Fire(s, t, key), s.slots[key], None);
  }

  lemma ShapePush(s: State, st: Step)
    requires Inv(s) && Enabled(s, st)
    requires st.SubmitFiber? || st.SubmitCall? || st.RunWake?
    ensures Shape(Apply(s, st))
  {
    match st
    case SubmitFiber(_, f, pin) => ShapePushed(s, Apply(s, st), Resumable(f), pin);
    case SubmitCall(_, tag, pin) => ShapePushed(s, Apply(s, st), Call(User(tag)), pin);
    case RunWake(t) => ShapePushed(s, Apply(s, st), Resumable(s.threads[t].pc.todo.value.fiber), None);
  }

  lemma ShapeStep(s: State, st: Step)
    requires Inv(s) && Enabled(s, st)
    ensures Shape(Apply(s, st))
  {
    if st.SubmitFiber? || st.SubmitCall? || st.RunWake? {
      ShapePush(s, st);
    } else if st.CancelEvent? || st.Trigger? {
      ShapeFired(s, st.t, (st.fd, st.ev));
    } else if st.RunCancel? {
      ShapeRunCancel(s, st);
    } else if st.Take? {
      ShapeTake(s, st);
    } else if st.ScheduleBatch? {
      ShapeBatch(s, st);
    } else if st.Expire? {
      ShapeKept(s, Apply(s, st));
    } else {
      ShapeOther(s, st);
    }
  }

  lemma ShapeTake(s: State, st: Step)
    requires Inv(s) && Enabled(s, st) && st.Take?
    ensures Shape(Apply(s, st))
  {
    TakenIds(s.queue, st.i);
    var s' := Apply(s, st);
    assert s.queue[st.i] in s.queue;
    assert forall id :: id in s'.queue ==> id in s.queue;
  }

  lemma ShapeRunCancel(s: State, st: Step)
    requires Inv(s) && Enabled(s, st) && st.RunCancel?
    ensures Shape(Apply(s, st))
  {
    var todo := s.threads[st.t].pc.todo.value;
    var s1 := SetPc(s, st.t, s.threads[st.t].pc.(todo := None));
    ShapeKept(s, s1);
    if (todo.fd, todo.ev) in s.slots {
      ShapeFired(s1, st.t, (todo.fd, todo.ev));
    }
  }

  lemma ShapeBatch(s: State, st: Step)
    requires Inv(s) && Enabled(s, st) && st.ScheduleBatch?
    ensures Shape(Apply(s, st))
  {
    PushedIds(s, s.threads[st.t].pc.cbs);
    var s' := Apply(s, st);
    forall u | u in s'.threads ensures HeldInRange(s', s'.threads[u].pc) {
      assert HeldInRange(s, s.threads[u].pc);
    }
  }

  lemma ShapeOther(s: State, st: Step)
    requires Inv(s) && Enabled(s, st) && !st.Expire?
    requires Apply(s, st).queue == s.queue && Apply(s, st).tasks == s.tasks
    ensures Shape(Apply(s, st))
  {
    if InCode(st) {
      ShapeCode(s, st);
    } else {
      ShapeKept(s, Apply(s, st));
    }
  }

  lemma ShapeCode(s: State, st: Step)
    requires Inv(s) && Enabled(s, st) && InCode(st)
    requires Apply(s, st).queue == s.queue && Apply(s, st).tasks == s.tasks
    ensures Shape(Apply(s, st))
  {
    ShapeKept(s, Apply(s, st));
  }

  lemma ShapeKept(s: State, s': State)
    requires Shape(s) && s'.queue == s.queue && s'.tasks == s.tasks
    requires forall t :: t in s'.threads ==>
               t in s.threads && (s'.threads[t].pc.Taken? ==> s'.threads[t].pc == s.threads[t].pc)
    requires forall id :: id in s'.timers ==> !s'.timers[id].cb.Wake? || !s'.timers[id].recurring
    requires forall key :: key in s'.slots ==> s'.slots[key].Resumable? || s'.slots[key].cb.User?
    ensures Shape(s')
  {
    forall t | t in s'.threads ensures HeldInRange(s', s'.threads[t].pc) {
      assert HeldInRange(s, s.threads[t].pc);
    }
  }

  /** Steps after which the same fibers are in the same states on the same threads. */
  lemma FibersKept(s: State, s': State)
    requires Shape(s) && FiberInv(s) && s'.fibers == s.fibers && s.tasks <= s'.tasks
    requires forall t, f :: Runs(s', t, f) <==> Runs(s, t, f)
    requires forall t :: t in s'.threads ==> t in s.threads
    requires forall t :: t in s'.threads && s'.threads[t].pc.Exec? && s'.threads[t].pc.todo.Some? ==>
               s'.threads[t].pc == s.threads[t].pc
    requires forall t :: t in s'.threads && s'.threads[t].pc.Taken? ==>
        s'.threads[t].pc == s.threads[t].pc || TakenReady(s', s'.threads[t].pc)
    ensures FiberInv(s')
  {
    forall f | f in s'.fibers && s'.fibers[f].state == Running ensures exists t :: Runs(s', t, f) {
      var t :| Runs(s, t, f);
      assert Runs(s', t, f);
    }
    forall t | t in s'.threads ensures TakenReady(s', s'.threads[t].pc) {
      if s'.threads[t].pc == s.threads[t].pc {
        assert TakenReady(s, s.threads[t].pc) && HeldInRange(s, s.threads[t].pc);
      }
    }
  }

  lemma FibersOther(s: State, st: Step)
    requires Inv(s) && Enabled(s, st)
    requires !st.SubmitFiber? && !st.DelEvent? && !st.WaitEvent? && !st.Sleep? && !st.Yield? && !st.Finish?
    requires !st.Take? && !st.Resume?
    ensures FiberInv(Apply(s, st))
  {
    if InCode(st) {
      FibersCode(s, st);
    } else if st.RunWake? || st.RunCancel? || st.Return? {
      FibersRun(s, st);
    } else {
      FibersIdle(s, st);
    }
  }

  lemma FibersRun(s: State, st: Step)
    requires Inv(s) && Enabled(s, st) && (st.RunWake? || st.RunCancel? || st.Return?)
    ensures FiberInv(Apply(s, st))
  {
    FibersKept(s, Apply(s, st));
  }

  predicate InIdleLoop(st: Step) {
    st.EnterIdle? || st.Exit? || st.IdleStop? || st.Expire? || st.ScheduleBatch? || st.Trigger? || st.IdleYield?
  }

  predicate OffTask(pc: Pc) {
    !pc.Exec? && !pc.Taken?
  }

  predicate SameOrOff(s: State, s': State, t: ThreadId) {
    && (t in s'.threads <==> t in s.threads)
    && (t in s.threads ==>
          s'.threads[t].pc == s.threads[t].pc || (OffTask(s'.threads[t].pc) && OffTask(s.threads[t].pc)))
  }

  /** The idle loop changes only threads that have no task. */
  lemma IdlePc(s: State, st: Step, t: ThreadId)
    requires Enabled(s, st) && InIdleLoop(st)
    ensures SameOrOff(s, Apply(s, st), t)
  {
  }

  lemma IdleRest(s: State, st: Step)
    requires Enabled(s, st) && InIdleLoop(st)
    ensures Apply(s, st).fibers == s.fibers && s.tasks <= Apply(s, st).tasks
  {
  }

  lemma FibersIdle(s: State, st: Step)
    requires Inv(s) && Enabled(s, st) && InIdleLoop(st)
    ensures FiberInv(Apply(s, st))
  {
    IdleRest(s, st);
    forall t ensures SameOrOff(s, Apply(s, st), t) {
      IdlePc(s, st, t);
    }
    FibersOff(s, Apply(s, st));
  }

  lemma FibersOff(s: State, s': State)
    requires Shape(s) && FiberInv(s) && s'.fibers == s.fibers && s.tasks <= s'.tasks
    requires forall t :: SameOrOff(s, s', t)
    ensures FiberInv(s')
  {
    forall t, f ensures Runs(s', t, f) <==> Runs(s, t, f) {
      assert SameOrOff(s, s', t);
    }
    forall t | t in s'.threads && !OffTask(s'.threads[t].pc)
      ensures t in s.threads && s'.threads[t].pc == s.threads[t].pc
    {
      assert SameOrOff(s, s', t);
    }
    forall t | t in s'.threads ensures t in s.threads {
      assert SameOrOff(s, s', t);
    }
    FibersKept(s, s');
  }

  lemma FibersCode(s: State, st: Step)
    requires Inv(s) && Enabled(s, st) && InCode(st)
    requires !st.SubmitFiber? && !st.DelEvent? && !st.WaitEvent? && !st.Sleep?
    ensures FiberInv(Apply(s, st))
  {
    FibersKept(s, Apply(s, st));
  }

  lemma FibersTake(s: State, st: Step)
    requires Inv(s) && Enabled(s, st) && st.Take?
    ensures FiberInv(Apply(s, st))
  {
    var w := s.tasks[s.queue[st.i]].work;
    if w.Resumable? {
      assert At(s, AtQueue(s.queue[st.i])) == Some(w.fiber);
    }
    FibersKept(s, Apply(s, st));
  }

  lemma FibersSubmit(s: State, st: Step)
    requires Inv(s) && Enabled(s, st) && st.SubmitFiber?
    ensures FiberInv(Apply(s, st))
  {
    var s1 := SetFiber(s, st.f, Ready, Park.Committed);
    assert forall t, f :: Runs(s1, t, f) <==> Runs(s, t, f);
    FibersKept(s1, Apply(s, st));
  }

  lemma FibersDel(s: State, st: Step)
    requires Inv(s) && Enabled(s, st) && st.DelEvent?
    ensures FiberInv(Apply(s, st))
  {
    var s' := Apply(s, st);
    var w := s.slots[(st.fd, st.ev)];
    if w.Resumable? {
      assert At(s, AtSlot(st.fd, st.ev)) == Some(w.fiber);
    }
    assert forall t, f :: Runs(s', t, f) <==> Runs(s, t, f);
  }

  lemma FibersPark(s: State, st: Step)
    requires Inv(s) && Enabled(s, st) && (st.WaitEvent? || st.Sleep?)
    ensures FiberInv(Apply(s, st))
  {
    var s', g := Apply(s, st), s.threads[st.t].pc.fiber;
    assert Runs(s, st.t, g);
    assert forall t, f :: Runs(s', t, f) <==> Runs(s, t, f);
  }

  lemma FibersLeave(s: State, st: Step)
    requires Inv(s) && Enabled(s, st) && (st.Yield? || st.Finish?)
    ensures FiberInv(Apply(s, st))
  {
    var s', g := Apply(s, st), s.threads[st.t].pc.fiber;
    assert Runs(s, st.t, g);
    assert forall t, f :: Runs(s', t, f) <==> Runs(s, t, f) && t != st.t;
  }

  lemma FibersResume(s: State, st: Step)
    requires Inv(s) && Enabled(s, st) && st.Resume?
    ensures FiberInv(Apply(s, st))
  {
    var s' := Apply(s, st);
    assert forall t, f :: Runs(s', t, f) <==> Runs(s, t, f) || (t == st.t && f == st.f);
    forall u | u in s'.threads ensures TakenReady(s', s'.threads[u].pc) {
      assert TakenReady(s, s.threads[u].pc);
      assert u != st.t && At(s, AtThread(u)).Some? ==> At(s, AtThread(u)) != At(s, AtThread(st.t));
    }
    forall f | f in s'.fibers && s'.fibers[f].state == Running ensures exists t :: Runs(s', t, f) {
      if f == st.f {
        assert Runs(s', st.t, f);
      } else {
        var t :| Runs(s, t, f);
        assert Runs(s', t, f);
      }
    }
  }

  lemma FibersStep(s: State, st: Step)
    requires Inv(s) && Enabled(s, st)
    ensures FiberInv(Apply(s, st))
  {
    if st.SubmitFiber? {
      FibersSubmit(s, st);
    } else if st.DelEvent? {
      FibersDel(s, st);
    } else if st.WaitEvent? || st.Sleep? {
      FibersPark(s, st);
    } else if st.Yield? || st.Finish? {
      FibersLeave(s, st);
    } else if st.Take? {
      FibersTake(s, st);
    } else if st.Resume? {
      FibersResume(s, st);
    } else {
      FibersOther(s, st);
    }
  }

  // ---------------------------------------------------------------- over every run

  lemma InvInit(s: State)
    requires Init(s)
    ensures Inv(s)
  {
    assert forall p :: At(s, p) == None;
  }

  lemma {:induction false} InvRun(r: Run, i: nat)
    requires IsRun(r) && i < |r.states|
    ensures Inv(r.states[i])
  {
    if i == 0 {
      InvInit(r.states[0]);
    } else {
      InvRun(r, i - 1);
      var s, st := r.states[i - 1], r.steps[i - 1];
      assert StepAt(r, i - 1);
      ShapeStep(s, st);
      TokensStep(s, st);
      FibersStep(s, st);
    }
  }

  /** Place p is the only place holding a token of fiber f. */
  ghost predicate OnlyToken(s: State, f: FiberId, p: Place) {
    At(s, p) == Some(f) && forall q :: At(s, q) == Some(f) ==> q == p
  }

  ghost predicate NoToken(s: State, f: FiberId) {
    forall p :: At(s, p) != Some(f)
  }

  /** In every state of every run: a fiber that is parked, fresh or about to yield, and whose
      wake-up was not deleted, has exactly one token; a fiber that runs free, has ended, or
      lost its wake-up has none. */
  lemma SingleWakeUpToken(r: Run, i: nat, f: FiberId)
    requires IsRun(r) && i < |r.states|
    ensures var s := r.states[i];
            if f in s.fibers && s.fibers[f].park == Park.Committed
            then exists p :: OnlyToken(s, f, p) else NoToken(s, f)
    ensures var s := r.states[i];
            f in s.fibers ==>
              && (s.fibers[f].state == Ready ==> s.fibers[f].park != Free)
              && (s.fibers[f].state == Term ==> s.fibers[f].park == Free)
  {
    InvRun(r, i);
    var s := r.states[i];
    if Committed(s, f) {
      var p :| At(s, p) == Some(f);
      assert OnlyToken(s, f, p);
    }
  }

  /** In every run, whenever a thread is about to resume a queued fiber, that fiber is Ready
      (so neither assertion of Fiber::Resume can fail) and no thread executes it; two threads
      never execute the same fiber, and a Running fiber is executed by some thread. */
  lemma ResumeIsExclusive(r: Run, i: nat)
    requires IsRun(r) && i < |r.states|
    ensures var s := r.states[i];
            forall t, f :: t in s.threads && s.threads[t].pc.Taken? && s.threads[t].pc.task < |s.tasks|
              && s.tasks[s.threads[t].pc.task].work == Resumable(f)
              ==> f in s.fibers && s.fibers[f].state == Ready && (forall u :: !Runs(s, u, f))
    ensures var s := r.states[i];
            forall t, u, f :: Runs(s, t, f) && Runs(s, u, f) ==> t == u
    ensures var s := r.states[i];
            forall f :: f in s.fibers ==> (s.fibers[f].state == Running <==> exists t :: Runs(s, t, f))
  {
    InvRun(r, i);
    var s := r.states[i];
    forall t, f | t in s.threads && s.threads[t].pc.Taken? && s.threads[t].pc.task < |s.tasks|
        && s.tasks[s.threads[t].pc.task].work == Resumable(f)
      ensures f in s.fibers && s.fibers[f].state == Ready && (forall u :: !Runs(s, u, f))
    {
      assert TakenReady(s, s.threads[t].pc);
    }
  }
}
