/**
  What the steps of the protocol mean, in the terms of the code: which queue entry may be
  taken, what a taken task turns into, how a fiber lives and ends, what becomes of timers,
  what the history flags record, and that no worker is ever stuck. The guards and updates
  of the step system are pinned here from both sides.
*/
module ProtocolSteps {
  import opened Common
  import opened Protocol
  import opened ProtocolTokens
  import opened ProtocolCounts

  // ---------------------------------------------------------------- taking

  /** In every run an entry may be taken by a thread at the top of its loop exactly when it is not pinned to another
      thread and, if it is a fiber, no thread executes that fiber. Callbacks are never held back. */
  lemma TakeMeaning(r: Run, i: nat, t: ThreadId, k: nat)
    requires IsRun(r) && i < |r.states| && IsPc(r.states[i], t, Select) && k < |r.states[i].queue|
    ensures var s := r.states[i];
            && s.queue[k] < |s.tasks|
            && var task := s.tasks[s.queue[k]];
               Enabled(s, Take(t, k)) <==>
               && (task.pin == None || task.pin == Some(t))
               && (task.work.Resumable? ==> forall u :: !Runs(s, u, task.work.fiber))
  {
    InvRun(r, i);
    var s := r.states[i];
    assert s.queue[k] in s.queue;
    TakeGuard(s, t, k);
  }

  lemma TakeGuard(s: State, t: ThreadId, k: nat)
    requires Inv(s) && IsPc(s, t, Select) && k < |s.queue| && s.queue[k] < |s.tasks|
    ensures var task := s.tasks[s.queue[k]];
            Enabled(s, Take(t, k)) <==>
            && (task.pin == None || task.pin == Some(t))
            && (task.work.Resumable? ==> forall u :: !Runs(s, u, task.work.fiber))
  {
    var task := s.tasks[s.queue[k]];
    if task.work.Resumable? {
      assert At(s, AtQueue(s.queue[k])) == Some(task.work.fiber);
      assert s.queue[k] in s.queue;
    }
  }

  // ---------------------------------------------------------------- what a taken task turns into

  /** Thread t has taken the task and is free to go on. */
  predicate HasTaken(s: State, t: ThreadId, w: Work) {
    && t in s.threads && !s.threads[t].debt && s.threads[t].pc.Taken? && s.threads[t].pc.task < |s.tasks|
    && s.tasks[s.threads[t].pc.task].work == w
  }

  /** A taken fiber can be resumed, and nothing else can be resumed for it. */
  lemma FiberResumes(s: State, t: ThreadId, g: FiberId, f: FiberId)
    requires Inv(s) && HasTaken(s, t, Resumable(g))
    ensures Enabled(s, Resume(t, f)) <==> f == g
    ensures Runs(Apply(s, Resume(t, g)), t, g) && CanPark(Apply(s, Resume(t, g)), t)
  {
  }

  /** A taken callback can be started in any new fiber; a program's callback then runs freely. */
  lemma CallStarts(s: State, t: ThreadId, cb: Callback, f: FiberId)
    requires Inv(s) && HasTaken(s, t, Call(cb))
    ensures Enabled(s, Resume(t, f)) <==> f !in s.fibers
    ensures f !in s.fibers ==>
              var s1 := Apply(s, Resume(t, f));
              && Runs(s1, t, f) && s1.slots == s.slots && s1.queue == s.queue && s1.tasks == s.tasks
              && (if cb.User? then CanPark(s1, t) else HasTodo(s1, t) && s1.threads[t].pc.todo.value == cb)
  {
  }

  /** The callback of a sleep timer, once started, queues the sleeper. */
  lemma WakeFires(s: State, t: ThreadId, g: FiberId, f: FiberId)
    requires Inv(s) && HasTaken(s, t, Call(Wake(g))) && f !in s.fibers
    ensures var s1 := Apply(s, Resume(t, f));
            && Enabled(s1, RunWake(t))
            && At(Apply(s1, RunWake(t)), AtQueue(|s.tasks|)) == Some(g)
  {
    CallStarts(s, t, Wake(g), f);
  }

  /** The timeout of doIO and connect, once started and still wanted, queues the fiber that waits. */
  lemma TimeoutFires(s: State, t: ThreadId, fd: nat, ev: Event, g: FiberId, f: FiberId)
    requires Inv(s) && HasTaken(s, t, Call(CancelWait(fd, ev))) && f !in s.fibers
    requires (fd, ev) in s.slots && s.slots[(fd, ev)] == Resumable(g)
    ensures var s1 := Apply(s, Resume(t, f));
            && Enabled(s1, RunCancel(t, true))
            && At(Apply(s1, RunCancel(t, true)), AtQueue(|s.tasks|)) == Some(g)
            && (fd, ev) !in Apply(s1, RunCancel(t, true)).slots
  {
    CallStarts(s, t, CancelWait(fd, ev), f);
  }

  // ---------------------------------------------------------------- the life of a fiber

  /** The state of a fiber changes only when it is resumed, when the thread that executes it yields, and when its
      function ends. */
  lemma FiberLifeCycle(s: State, st: Step, f: FiberId)
    requires Inv(s) && Enabled(s, st) && f in s.fibers
    ensures f in Apply(s, st).fibers
    ensures Apply(s, st).fibers[f].state ==
            if st.Resume? && st.f == f then Running
            else if st.Yield? && Runs(s, st.t, f) then Ready
            else if st.Finish? && Runs(s, st.t, f) then Term
            else s.fibers[f].state
  {
    if InCode(st) {
      LifeInCode(s, st, f);
    }
  }

  lemma LifeInCode(s: State, st: Step, f: FiberId)
    requires Inv(s) && Enabled(s, st) && InCode(st) && f in s.fibers
    ensures f in Apply(s, st).fibers && Apply(s, st).fibers[f].state == s.fibers[f].state
  {
    if st.WaitEvent? || st.Sleep? {
      assert Runs(s, st.t, s.threads[st.t].pc.fiber);
    }
  }

  /** A fiber comes into being when it is submitted, Ready, or when a callback is started in it, Running. */
  lemma FiberBirth(s: State, st: Step, f: FiberId)
    requires Inv(s) && Enabled(s, st) && f !in s.fibers
    ensures f in Apply(s, st).fibers <==> (st.SubmitFiber? && st.f == f) || (st.Resume? && st.f == f)
    ensures f in Apply(s, st).fibers ==> Apply(s, st).fibers[f].state == if st.SubmitFiber? then Ready else Running
  {
    if InCode(st) {
      BirthInCode(s, st, f);
    }
  }

  lemma BirthInCode(s: State, st: Step, f: FiberId)
    requires Inv(s) && Enabled(s, st) && InCode(st) && f !in s.fibers
    ensures f in Apply(s, st).fibers <==> st.SubmitFiber? && st.f == f
    ensures f in Apply(s, st).fibers ==> Apply(s, st).fibers[f].state == Ready
  {
  }

  /** No step resumes a fiber that has ended. */
  lemma EndedStays(s: State, st: Step, f: FiberId)
    requires Inv(s) && Enabled(s, st) && f in s.fibers && s.fibers[f].state == Term
    ensures f in Apply(s, st).fibers && Apply(s, st).fibers[f].state == Term
  {
    if st.Resume? {
      assert TakenReady(s, s.threads[st.t].pc);
    }
    FiberLifeCycle(s, st, f);
  }

  /** A fiber that has ended stays ended for the rest of the run. */
  lemma {:induction false} TermIsFinal(r: Run, i: nat, j: nat, f: FiberId)
    requires IsRun(r) && i <= j < |r.states| && f in r.states[i].fibers && r.states[i].fibers[f].state == Term
    ensures f in r.states[j].fibers && r.states[j].fibers[f].state == Term
  {
    if i < j {
      TermIsFinal(r, i, j - 1, f);
      EndedFollows(r, j, f);
    }
  }

  lemma EndedFollows(r: Run, j: nat, f: FiberId)
    requires IsRun(r) && 0 < j < |r.states|
    requires f in r.states[j - 1].fibers && r.states[j - 1].fibers[f].state == Term
    ensures f in r.states[j].fibers && r.states[j].fibers[f].state == Term
  {
    InvRun(r, j - 1);
    assert StepAt(r, j - 1);
    EndedStays(r.states[j - 1], r.steps[j - 1], f);
  }

  /** A fiber loses its wake-up exactly when the slot that holds it is deleted, or when it yields without having
      arranged for one. */
  lemma LostMeaning(s: State, st: Step, f: FiberId)
    requires Inv(s) && Enabled(s, st) && f in s.fibers && s.fibers[f].park != Lost
    ensures f in Apply(s, st).fibers
    ensures Apply(s, st).fibers[f].park == Lost <==>
            || (st.DelEvent? && s.slots[(st.fd, st.ev)] == Resumable(f))
            || (st.Yield? && Runs(s, st.t, f) && s.fibers[f].park == Free)
  {
    if InCode(st) {
      LostInCode(s, st, f);
    }
  }

  lemma LostInCode(s: State, st: Step, f: FiberId)
    requires Inv(s) && Enabled(s, st) && InCode(st) && f in s.fibers && s.fibers[f].park != Lost
    ensures f in Apply(s, st).fibers
    ensures Apply(s, st).fibers[f].park == Lost <==> st.DelEvent? && s.slots[(st.fd, st.ev)] == Resumable(f)
  {
    if st.DelEvent? {
      LostByDel(s, st, f);
    }
  }

  lemma LostByDel(s: State, st: Step, f: FiberId)
    requires Enabled(s, st) && st.DelEvent? && f in s.fibers && s.fibers[f].park != Lost
    ensures f in Apply(s, st).fibers
    ensures Apply(s, st).fibers[f].park == Lost <==> s.slots[(st.fd, st.ev)] == Resumable(f)
  {
  }

  // ---------------------------------------------------------------- timers and tasks

  /** Which timers there are after a step: a new one, all but a cancelled one, all but the expired ones that do not
      recur; and an entry never changes. */
  lemma TimersMeaning(s: State, st: Step, id: TimerId)
    requires Enabled(s, st)
    ensures id in Apply(s, st).timers <==>
            || ((st.AddTimer? || st.Sleep?) && st.id == id)
            || (&& id in s.timers
                && !(st.CancelTimer? && st.id == id)
                && !(st.Expire? && id in st.ids && !s.timers[id].recurring))
    ensures id in s.timers && id in Apply(s, st).timers ==> Apply(s, st).timers[id] == s.timers[id]
    ensures st.AddTimer? ==> Apply(s, st).timers[st.id] == st.entry
    ensures st.Sleep? ==> Apply(s, st).timers[st.id] == TimerEntry(Wake(s.threads[st.t].pc.fiber), false)
  {
    if InCode(st) {
      TimersInCode(s, st, id);
    }
  }

  lemma TimersInCode(s: State, st: Step, id: TimerId)
    requires Enabled(s, st) && InCode(st)
    ensures id in Apply(s, st).timers <==>
            ((st.AddTimer? || st.Sleep?) && st.id == id) || (id in s.timers && !(st.CancelTimer? && st.id == id))
    ensures id in s.timers && id in Apply(s, st).timers ==> Apply(s, st).timers[id] == s.timers[id]
    ensures st.AddTimer? ==> Apply(s, st).timers[st.id] == st.entry
    ensures st.Sleep? ==> Apply(s, st).timers[st.id] == TimerEntry(Wake(s.threads[st.t].pc.fiber), false)
  {
  }

  /** Expired callbacks are collected in the order of the expired timers. */
  lemma ExpireCollects(s: State, t: ThreadId, ids: seq<TimerId>)
    requires Enabled(s, Expire(t, ids))
    ensures var pc := Apply(s, Expire(t, ids)).threads[t].pc;
            pc.Batch? && |pc.cbs| == |ids| && forall i :: 0 <= i < |ids| ==> pc.cbs[i] == s.timers[ids[i]].cb
  {
  }

  /** A submitted task is stored with its work and its pin, at the end of the queue. */
  lemma SubmitStores(s: State, st: Step)
    requires Enabled(s, st) && (st.SubmitFiber? || st.SubmitCall?)
    ensures var work := if st.SubmitFiber? then Resumable(st.f) else Call(User(st.tag));
            && Apply(s, st).tasks == s.tasks + [Task(work, st.pin)]
            && Apply(s, st).queue == s.queue + [|s.tasks|]
  {
  }

  /** A scheduled batch is stored in order, pinned to no thread, at the end of the queue. */
  lemma BatchStores(s: State, t: ThreadId, i: nat)
    requires Enabled(s, ScheduleBatch(t)) && i < |s.threads[t].pc.cbs|
    ensures var s', n := Apply(s, ScheduleBatch(t)), |s.tasks|;
            && |s'.tasks| == n + |s.threads[t].pc.cbs| && |s'.queue| == |s.queue| + |s.threads[t].pc.cbs|
            && s'.tasks[n + i] == Task(Call(s.threads[t].pc.cbs[i]), None) && s'.queue[|s.queue| + i] == n + i
  {
  }

  /** A task keeps its work and its pin for the rest of the run. */
  lemma {:induction false} TasksPersist(r: Run, i: nat, j: nat, id: TaskId)
    requires IsRun(r) && i <= j < |r.states| && id < |r.states[i].tasks|
    ensures id < |r.states[j].tasks| && r.states[j].tasks[id] == r.states[i].tasks[id]
  {
    if i < j {
      TasksPersist(r, i, j - 1, id);
      TaskFollows(r, j, id);
    }
  }

  lemma TaskFollows(r: Run, j: nat, id: TaskId)
    requires IsRun(r) && 0 < j < |r.states| && id < |r.states[j - 1].tasks|
    ensures id < |r.states[j].tasks| && r.states[j].tasks[id] == r.states[j - 1].tasks[id]
  {
    TasksFollow(r, j);
  }

  lemma TasksFollow(r: Run, j: nat)
    requires IsRun(r) && 0 < j < |r.states|
    ensures r.states[j - 1].tasks <= r.states[j].tasks
  {
    InvRun(r, j - 1);
    assert StepAt(r, j - 1);
    if !r.steps[j - 1].Take? {
      QueueStep(r.states[j - 1], r.steps[j - 1]);
    }
  }

  // ---------------------------------------------------------------- history flags and the stop test

  /** A public call from outside after Stop. */
  predicate IsLateCall(s: State, st: Step) {
    && (st.SubmitFiber? || st.SubmitCall? || st.AddEventCall? || st.AddTimer? || st.CancelTimer? || st.CancelEvent?
        || st.DelEvent?)
    && s.stopping && st.t in s.threads && s.threads[st.t].pc.Outside?
  }

  lemma FlagsStep(s: State, st: Step)
    requires Enabled(s, st)
    ensures Apply(s, st).late <==> s.late || IsLateCall(s, st)
    ensures Apply(s, st).stopping <==> s.stopping || st.Stop?
  {
    if InCode(st) {
      FlagsInCode(s, st);
    }
  }

  lemma FlagsInCode(s: State, st: Step)
    requires Enabled(s, st) && InCode(st)
    ensures Apply(s, st).late <==> s.late || IsLateCall(s, st)
    ensures Apply(s, st).stopping <==> s.stopping || st.Stop?
  {
  }

  /** Some step before i was a late call. */
  ghost predicate HadLateCall(r: Run, i: nat)
    requires IsRun(r) && i < |r.states|
  {
    exists j :: 0 <= j < i && IsLateCall(r.states[j], r.steps[j])
  }

  ghost predicate HadStop(r: Run, i: nat)
    requires IsRun(r) && i < |r.states|
  {
    exists j :: 0 <= j < i && r.steps[j].Stop?
  }

  /** The two flags are exactly the history they stand for. */
  lemma {:induction false} FlagsMeaning(r: Run, i: nat)
    requires IsRun(r) && i < |r.states|
    ensures r.states[i].late <==> HadLateCall(r, i)
    ensures r.states[i].stopping <==> HadStop(r, i)
  {
    if i > 0 {
      FlagsMeaning(r, i - 1);
      FlagsFollow(r, i);
    }
  }

  lemma FlagsFollow(r: Run, i: nat)
    requires IsRun(r) && 0 < i < |r.states|
    ensures r.states[i].late <==> r.states[i - 1].late || IsLateCall(r.states[i - 1], r.steps[i - 1])
    ensures r.states[i].stopping <==> r.states[i - 1].stopping || r.steps[i - 1].Stop?
    ensures HadLateCall(r, i) <==> HadLateCall(r, i - 1) || IsLateCall(r.states[i - 1], r.steps[i - 1])
    ensures HadStop(r, i) <==> HadStop(r, i - 1) || r.steps[i - 1].Stop?
  {
    assert StepAt(r, i - 1);
    FlagsStep(r.states[i - 1], r.steps[i - 1]);
  }

  /** In every run the stop test holds exactly when Stop was called, there is no timer, no registered event and no
      queued task, no trigger is half done, and no thread holds a task. */
  lemma StopTestMeaning(r: Run, i: nat)
    requires IsRun(r) && i < |r.states|
    ensures var s := r.states[i];
            Stopping(s) <==>
            && HadStop(r, i) && s.timers == map[] && s.slots == map[] && s.queue == []
            && forall t :: t in s.threads ==> HeldTask(s.threads[t].pc) == None && !s.threads[t].debt
  {
    FlagsMeaning(r, i);
    CountsRun(r, i);
    StopTestCounts(r.states[i]);
  }

  lemma StopTestCounts(s: State)
    requires CounterInv(s)
    ensures s.pending == 0 && s.active == 0 <==>
            s.slots == map[] && forall t :: t in s.threads ==> HeldTask(s.threads[t].pc) == None && !s.threads[t].debt
  {
    if s.pending == 0 && s.active == 0 {
      assert Holders(s) == {} && Debtors(s) == {};
      forall t | t in s.threads ensures HeldTask(s.threads[t].pc) == None && !s.threads[t].debt {
        assert t !in Holders(s) && t !in Debtors(s);
      }
    }
    if s.slots == map[] && forall t :: t in s.threads ==> HeldTask(s.threads[t].pc) == None && !s.threads[t].debt {
      assert Holders(s) == {} && Debtors(s) == {};
    }
  }

  // ---------------------------------------------------------------- no worker is stuck

  /** A started callback that is not the program's own is the callback of a sleep or of a timeout. */
  predicate TodoOk(th: Thread) {
    th.pc.Exec? && th.pc.todo.Some? ==> !th.pc.todo.value.User?
  }

  lemma TodoStep(s: State, st: Step, t: ThreadId)
    requires Enabled(s, st) && t in s.threads && TodoOk(s.threads[t])
    ensures t in Apply(s, st).threads && TodoOk(Apply(s, st).threads[t])
  {
    if InCode(st) {
      TodoInCode(s, st, t);
    }
  }

  lemma TodoInCode(s: State, st: Step, t: ThreadId)
    requires Enabled(s, st) && InCode(st) && t in s.threads
    ensures t in Apply(s, st).threads && Apply(s, st).threads[t].pc == s.threads[t].pc
  {
  }

  lemma {:induction false} TodoRun(r: Run, i: nat, t: ThreadId)
    requires IsRun(r) && i < |r.states| && t in r.states[0].threads
    ensures t in r.states[i].threads && TodoOk(r.states[i].threads[t])
  {
    if i == 0 {
      assert IsFresh(r.states[0].threads[t]);
    } else {
      TodoRun(r, i - 1, t);
      TodoFollows(r, i, t);
    }
  }

  lemma TodoFollows(r: Run, i: nat, t: ThreadId)
    requires IsRun(r) && 0 < i < |r.states| && t in r.states[i - 1].threads && TodoOk(r.states[i - 1].threads[t])
    ensures t in r.states[i].threads && TodoOk(r.states[i].threads[t])
  {
    assert StepAt(r, i - 1);
    TodoStep(r.states[i - 1], r.steps[i - 1], t);
  }

  /** The steps of a thread that holds a task. */
  ghost predicate TaskGoesOn(s: State, t: ThreadId, pc: Pc) {
    match pc
    case Taken(id) =>
      && id < |s.tasks|
      && (match s.tasks[id].work
          case Resumable(f) => Enabled(s, Resume(t, f))
          case Call(_) => forall f :: f !in s.fibers ==> Enabled(s, Resume(t, f)))
    case Exec(_, f, None) =>
      Enabled(s, Yield(t)) && (f in s.fibers && s.fibers[f].park == Free ==> Enabled(s, Finish(t)))
    case Exec(_, _, Some(cb)) => if cb.Wake? then Enabled(s, RunWake(t)) else forall b :: Enabled(s, RunCancel(t, b))
    case Returned(_) => Enabled(s, Return(t))
    case _ => true
  }

  /** The steps of a thread in the loop of Run or in its idle fiber. */
  ghost predicate LoopGoesOn(s: State, t: ThreadId, th: Thread) {
    match th.pc
    case Select => if th.idleDone then Enabled(s, Exit(t)) else Enabled(s, EnterIdle(t))
    case Idle => Enabled(s, Expire(t, [])) && (Stopping(s) ==> Enabled(s, IdleStop(t)))
    case Batch(_) => Enabled(s, ScheduleBatch(t))
    case Handling =>
      Enabled(s, IdleYield(t)) && forall fd, ev :: (fd, ev) in s.slots ==> Enabled(s, Trigger(t, fd, ev))
    case _ => true
  }

  /** The steps a worker thread can take, by where it is. */
  ghost predicate CanGoOn(s: State, t: ThreadId)
    requires t in s.threads
  {
    if s.threads[t].debt then Enabled(s, Settle(t))
    else TaskGoesOn(s, t, s.threads[t].pc) && LoopGoesOn(s, t, s.threads[t])
  }

  /** In every state of every run each worker that has not left its loop has a next step: the protocol has no
      deadlock. */
  lemma NoWorkerIsStuck(r: Run, i: nat, t: ThreadId)
    requires IsRun(r) && i < |r.states| && t in r.states[0].threads
    ensures t in r.states[i].threads && CanGoOn(r.states[i], t)
  {
    InvRun(r, i);
    TodoRun(r, i, t);
    GoesOn(r.states[i], t);
  }

  lemma TaskGoes(s: State, t: ThreadId)
    requires Inv(s) && t in s.threads && TodoOk(s.threads[t]) && !s.threads[t].debt
    ensures TaskGoesOn(s, t, s.threads[t].pc)
  {
    var pc := s.threads[t].pc;
    assert HeldInRange(s, pc);
    if pc.Exec? {
      assert Runs(s, t, pc.fiber);
    }
  }

  lemma LoopGoes(s: State, t: ThreadId)
    requires t in s.threads && !s.threads[t].debt
    ensures LoopGoesOn(s, t, s.threads[t])
  {
  }

  lemma GoesOn(s: State, t: ThreadId)
    requires Inv(s) && t in s.threads && TodoOk(s.threads[t])
    ensures CanGoOn(s, t)
  {
    if !s.threads[t].debt {
      TaskGoes(s, t);
      LoopGoes(s, t);
    }
  }

  // ---------------------------------------------------------------- there and back

  /** Code that runs freely in a fiber, or outside, may use every public operation; which ones are possible depends
      only on what they are about. */
  lemma MayAct(s: State, t: ThreadId, f: FiberId, tag: nat, pin: Option<ThreadId>, id: TimerId, entry: TimerEntry,
               fd: nat, ev: Event)
    requires t in s.threads && !s.threads[t].debt
    requires var pc := s.threads[t].pc;
             pc.Outside? || (pc.Exec? && pc.todo == None && pc.fiber in s.fibers && s.fibers[pc.fiber].park == Free)
    ensures Enabled(s, SubmitCall(t, tag, pin))
    ensures Enabled(s, SubmitFiber(t, f, pin)) <==> f !in s.fibers
    ensures Enabled(s, AddEventCall(t, fd, ev, tag)) <==> (fd, ev) !in s.slots
    ensures Enabled(s, CancelEvent(t, fd, ev)) && Enabled(s, DelEvent(t, fd, ev)) <==> (fd, ev) in s.slots
    ensures Enabled(s, AddTimer(t, id, entry)) <==> id !in s.timers && !entry.cb.Wake?
    ensures Enabled(s, CancelTimer(t, id)) <==> id in s.timers && !s.timers[id].cb.Wake?
    ensures s.threads[t].pc.Exec? ==> (Enabled(s, WaitEvent(t, fd, ev)) <==> (fd, ev) !in s.slots)
    ensures s.threads[t].pc.Exec? ==> (Enabled(s, Sleep(t, id)) <==> id !in s.timers)
  {
  }

  /** Two states that differ at most in where threads are. */
  predicate SameBut(s: State, s': State) {
    && s'.fibers == s.fibers && s'.tasks == s.tasks && s'.queue == s.queue && s'.finished == s.finished
    && s'.slots == s.slots && s'.timers == s.timers && s'.pending == s.pending && s'.active == s.active
    && s'.stopping == s.stopping && s'.late == s.late
  }

  /** A thread that enters its idle fiber and finds nothing comes back to the top of its loop, having changed
      nothing. */
  lemma IdleRoundTrip(s: State, t: ThreadId)
    requires IsPc(s, t, Select) && !s.threads[t].idleDone
    ensures Enabled(s, EnterIdle(t))
    ensures var s1 := Apply(s, EnterIdle(t)); IsPc(s1, t, Idle) && SameBut(s, s1)
  {
  }

  lemma IdleGoesBack(s: State, t: ThreadId)
    requires IsPc(s, t, Idle)
    ensures Enabled(s, Expire(t, [])) && Enabled(Apply(s, Expire(t, [])), ScheduleBatch(t))
    ensures var s2 := Apply(Apply(s, Expire(t, [])), ScheduleBatch(t)); IsPc(s2, t, Handling) && SameBut(s, s2)
  {
    var s1 := Apply(s, Expire(t, []));
    assert s1.timers == s.timers;
    assert s1.threads[t].pc == Batch([]);
    assert CallTasks([]) == [] && Ids(|s.tasks|, 0) == [];
  }

  lemma HandlingGoesBack(s: State, t: ThreadId)
    requires IsPc(s, t, Handling)
    ensures Enabled(s, IdleYield(t)) && IsPc(Apply(s, IdleYield(t)), t, Select) && SameBut(s, Apply(s, IdleYield(t)))
  {
  }

  /** Once the stop test holds for an idle thread it can leave its loop for good. */
  lemma IdleLeaves(s: State, t: ThreadId)
    requires IsPc(s, t, Idle) && Stopping(s)
    ensures Enabled(s, IdleStop(t)) && Enabled(Apply(s, IdleStop(t)), Exit(t))
    ensures var s2 := Apply(Apply(s, IdleStop(t)), Exit(t)); IsPc(s2, t, Exited) && SameBut(s, s2)
  {
  }

  /** A fiber that runs freely can end; its thread then comes back to the top of its loop with exactly the task of
      the fiber finished and counted off. */
  lemma FinishRoundTrip(s: State, t: ThreadId)
    requires CanPark(s, t)
    ensures Enabled(s, Finish(t)) && Enabled(Apply(s, Finish(t)), Return(t))
    ensures var pc, s2 := s.threads[t].pc, Apply(Apply(s, Finish(t)), Return(t));
            && IsPc(s2, t, Select) && s2.fibers == s.fibers[pc.fiber := Fiber(Term, Free)]
            && s2.finished == s.finished + {pc.task} && s2.active == s.active - 1
            && s2.tasks == s.tasks && s2.queue == s.queue && s2.slots == s.slots && s2.timers == s.timers
  {
  }

  /** A fiber that has arranged for its wake-up can yield; its thread comes back in the same way, and the fiber is
      Ready with its wake-up as it was. */
  lemma YieldRoundTrip(s: State, t: ThreadId)
    requires InFiber(s, t) && s.fibers[s.threads[t].pc.fiber].park == Park.Committed
    ensures Enabled(s, Yield(t)) && Enabled(Apply(s, Yield(t)), Return(t))
    ensures var pc, s2 := s.threads[t].pc, Apply(Apply(s, Yield(t)), Return(t));
            && IsPc(s2, t, Select) && s2.fibers == s.fibers[pc.fiber := Fiber(Ready, Park.Committed)]
            && s2.finished == s.finished + {pc.task} && s2.active == s.active - 1
            && s2.tasks == s.tasks && s2.queue == s.queue && s2.slots == s.slots && s2.timers == s.timers
  {
  }
}
