/**
  What `IOManager::Stopping` guarantees, and what a finished shutdown guarantees.

  `Stopping` alone does not mean that no fiber is asleep: between collecting expired
  callbacks and scheduling them, an idle thread holds wake-ups that are in no timer and in
  no queue. That window is the only exception. Once every worker has left its loop there is
  no exception: nothing is queued, registered or armed, and every fiber has ended unless
  its wake-up was thrown away.
*/
module ProtocolShutdown {
  import opened Common
  import opened Protocol
  import opened ProtocolTokens
  import opened ProtocolCounts

  ghost predicate Asleep(s: State, f: FiberId) {
    f in s.fibers && s.fibers[f].state == Ready && s.fibers[f].park == Park.Committed
  }

  /** An idle thread has collected f's wake-up and not scheduled it yet. */
  ghost predicate InBatch(s: State, f: FiberId) {
    exists t, i :: At(s, AtBatch(t, i)) == Some(f)
  }

  /** When Stopping holds no thread has a task, no event is registered and no trigger is half done. */
  lemma StoppingMeansQuiet(s: State, t: ThreadId)
    requires CounterInv(s) && Stopping(s)
    ensures s.slots == map[]
    ensures t in s.threads ==> HeldTask(s.threads[t].pc) == None && !s.threads[t].debt
  {
    assert Holders(s) == {} && Debtors(s) == {};
    assert t in s.threads ==> t !in Holders(s) && t !in Debtors(s);
  }

  lemma StoppingTokens(s: State, p: Place)
    requires CounterInv(s) && Stopping(s) && At(s, p).Some?
    ensures p.AtBatch?
  {
    match p
    case AtThread(t) => StoppingMeansQuiet(s, t);
    case _ => StoppingMeansQuiet(s, 0);
  }

  /** In every run, when Stopping holds: nothing is queued, armed, registered or executing; and a
      fiber is still waiting for its wake-up exactly when an idle thread has that wake-up in a
      collected, unscheduled batch. */
  lemma QuiescenceUpToBatches(r: Run, i: nat, f: FiberId)
    requires IsRun(r) && i < |r.states| && Stopping(r.states[i])
    ensures var s := r.states[i];
            && s.queue == [] && s.timers == map[] && s.slots == map[]
            && (forall t :: t in s.threads ==> HeldTask(s.threads[t].pc) == None)
            && (forall g :: g in s.fibers ==> s.fibers[g].state != Running)
    ensures Asleep(r.states[i], f) <==> InBatch(r.states[i], f)
  {
    InvRun(r, i);
    CountsRun(r, i);
    var s := r.states[i];
    StoppingMeansQuiet(s, 0);
    forall t | t in s.threads ensures HeldTask(s.threads[t].pc) == None {
      StoppingMeansQuiet(s, t);
    }
    if Asleep(s, f) {
      assert ProtocolTokens.Committed(s, f);
      var p :| At(s, p) == Some(f);
      StoppingTokens(s, p);
    }
  }

  // ---------------------------------------------------------------- finished shutdown

  predicate IsWorker(th: Thread) {
    !th.pc.Outside?
  }

  predicate InIdle(pc: Pc) {
    pc.Idle? || pc.Batch? || pc.Handling?
  }

  ghost predicate LiveWorker(s: State, t: ThreadId) {
    t in s.threads && IsWorker(s.threads[t]) && !s.threads[t].idleDone
  }

  ghost predicate IdleInv(s: State) {
    && (forall t :: t in s.threads ==> IdleShape(s.threads[t]))
    && (s.late || (exists t :: LiveWorker(s, t)) || Stopping(s))
  }

  predicate IdleShape(th: Thread) {
    && (InIdle(th.pc) ==> !th.idleDone)
    && (th.pc == Exited ==> th.idleDone)
  }

  lemma ShapeKeptAt(s: State, st: Step, t: ThreadId)
    requires Enabled(s, st) && t in s.threads && IdleShape(s.threads[t])
    ensures t in Apply(s, st).threads && IdleShape(Apply(s, st).threads[t])
    ensures IsWorker(Apply(s, st).threads[t]) <==> IsWorker(s.threads[t])
    ensures !st.IdleStop? ==> Apply(s, st).threads[t].idleDone == s.threads[t].idleDone
  {
    if InCode(st) {
      ShapeKeptInCode(s, st, t);
    }
  }

  lemma ShapeKeptInCode(s: State, st: Step, t: ThreadId)
    requires Enabled(s, st) && t in s.threads && InCode(st)
    ensures t in Apply(s, st).threads && Apply(s, st).threads[t].pc == s.threads[t].pc
    ensures Apply(s, st).threads[t].idleDone == s.threads[t].idleDone
  {
  }

  /** Once the scheduler is quiet and every idle fiber has terminated, no worker can move anything. */
  lemma QuietStays(s: State, st: Step)
    requires CounterInv(s) && IdleInv(s) && Stopping(s) && Enabled(s, st)
    requires forall t :: !LiveWorker(s, t)
    ensures Apply(s, st).late || Stopping(Apply(s, st))
  {
    if st.Stop? {
    } else {
      StoppingMeansQuiet(s, st.t);
      assert IdleShape(s.threads[st.t]) && !LiveWorker(s, st.t);
    }
  }

  lemma IdleStep(s: State, st: Step)
    requires CounterInv(s) && IdleInv(s) && Enabled(s, st)
    ensures IdleInv(Apply(s, st))
  {
    var s' := Apply(s, st);
    forall t | t in s'.threads ensures IdleShape(s'.threads[t]) {
      assert t in s.threads;
      ShapeKeptAt(s, st, t);
    }
    if st.IdleStop? {
      assert Stopping(s');
    } else if exists t :: LiveWorker(s, t) {
      var t :| LiveWorker(s, t);
      ShapeKeptAt(s, st, t);
      assert LiveWorker(s', t);
    } else if !s.late {
      QuietStays(s, st);
    }
  }

  lemma IdleFollows(r: Run, i: nat)
    requires IsRun(r) && 0 < i < |r.states| && CounterInv(r.states[i - 1]) && IdleInv(r.states[i - 1])
    ensures IdleInv(r.states[i])
  {
    assert StepAt(r, i - 1);
    IdleStep(r.states[i - 1], r.steps[i - 1]);
  }

  lemma IdleInit(s: State)
    requires Init(s)
    ensures IdleInv(s)
  {
    forall t | t in s.threads ensures IdleShape(s.threads[t]) {
      assert IsFresh(s.threads[t]);
    }
    var t :| t in s.threads && s.threads[t].pc == Select;
    assert IsFresh(s.threads[t]);
    assert LiveWorker(s, t);
  }

  lemma {:induction false} IdleRun(r: Run, i: nat)
    requires IsRun(r) && i < |r.states|
    ensures IdleInv(r.states[i])
  {
    if i == 0 {
      IdleInit(r.states[0]);
    } else {
      IdleRun(r, i - 1);
      CountsRun(r, i - 1);
      IdleFollows(r, i);
    }
  }

  /** Clean shutdown: in any run in which outside threads stay silent after Stop, once every
      worker has exited its loop there is no queued task, timer or registered event, every task
      ever submitted is finished, and every fiber has ended or has had its wake-up deleted. */
  lemma CleanShutdown(r: Run, i: nat)
    requires IsRun(r) && i < |r.states| && !r.states[i].late
    requires forall t :: t in r.states[i].threads && IsWorker(r.states[i].threads[t]) ==>
               r.states[i].threads[t].pc == Exited
    ensures var s := r.states[i];
            && s.queue == [] && s.timers == map[] && s.slots == map[] && s.pending == 0 && s.active == 0
            && (forall id: TaskId :: id < |s.tasks| ==> id in s.finished)
            && (forall f :: f in s.fibers ==> s.fibers[f].state == Term || s.fibers[f].park == Lost)
  {
    InvRun(r, i);
    CountsRun(r, i);
    IdleRun(r, i);
    var s := r.states[i];
    forall t ensures !LiveWorker(s, t) {
      assert t in s.threads ==> IdleShape(s.threads[t]);
    }
    StoppingMeansQuiet(s, 0);
    forall id: TaskId | id < |s.tasks| ensures id in s.finished {
      assert InOnePlace(s, id);
      forall t ensures !Holds(s, t, id) {
        StoppingMeansQuiet(s, t);
      }
    }
    forall f | f in s.fibers ensures s.fibers[f].state == Term || s.fibers[f].park == Lost {
      FiberAfterShutdown(r, i, f);
    }
  }

  lemma FiberAfterShutdown(r: Run, i: nat, f: FiberId)
    requires IsRun(r) && i < |r.states| && Stopping(r.states[i]) && f in r.states[i].fibers
    requires forall t :: t in r.states[i].threads && IsWorker(r.states[i].threads[t]) ==>
               r.states[i].threads[t].pc == Exited
    ensures r.states[i].fibers[f].state == Term || r.states[i].fibers[f].park == Lost
  {
    QuiescenceUpToBatches(r, i, f);
    InvRun(r, i);
    var s := r.states[i];
    assert forall t :: t in s.threads ==> !s.threads[t].pc.Batch?;
    assert !InBatch(s, f);
    assert FiberShape(s.fibers[f]);
  }

  // ---------------------------------------------------------------- the window is real

  /** Two workers (0 and 1) and an outside thread (2). */
  function Demo(fibers: map<FiberId, Fiber>, tasks: seq<Task>, queue: seq<TaskId>, finished: set<TaskId>,
                timers: map<TimerId, TimerEntry>, pc0: Pc, pc1: Pc, active: int, stopping: bool): State {
    State(fibers, tasks, queue, finished, map[], 0, timers,
          map[0 := Thread(pc0, false, false), 1 := Thread(pc1, false, false), 2 := Thread(Outside, false, false)],
          active, stopping, false)
  }

  const JOB := Task(Resumable(7), None)
  const BOUND := Fiber(Ready, Park.Committed)
  const ARMED: map<TimerId, TimerEntry> := map[0 := TimerEntry(Wake(7), false)]

  function D0(): State { Demo(map[], [], [], {}, map[], Select, Select, 0, false) }
  function D1(): State { Demo(map[7 := BOUND], [JOB], [0], {}, map[], Select, Select, 0, false) }
  function D2(): State { Demo(map[7 := BOUND], [JOB], [], {}, map[], Taken(0), Select, 1, false) }
  function D3(): State {
    Demo(map[7 := Fiber(Running, Free)], [JOB], [], {}, map[], Exec(0, 7, None), Select, 1, false)
  }
  function D4(): State {
    Demo(map[7 := Fiber(Running, Park.Committed)], [JOB], [], {}, ARMED, Exec(0, 7, None), Select, 1, false)
  }
  function D5(): State { Demo(map[7 := BOUND], [JOB], [], {}, ARMED, Returned(0), Select, 1, false) }
  function D6(): State { Demo(map[7 := BOUND], [JOB], [], {0}, ARMED, Select, Select, 0, false) }
  function D7(): State { D6().(stopping := true) }
  function D8(): State { Demo(map[7 := BOUND], [JOB], [], {0}, ARMED, Idle, Select, 0, true) }
  function D9(): State { Demo(map[7 := BOUND], [JOB], [], {0}, ARMED, Idle, Idle, 0, true) }
  function D10(): State { Demo(map[7 := BOUND], [JOB], [], {0}, map[], Batch([Wake(7)]), Idle, 0, true) }

  lemma DemoSubmit() ensures Init(D0()) && Follows(D0(), SubmitFiber(2, 7, None), D1()) {
    assert 0 in D0().threads;
  }

  lemma DemoTake() ensures Follows(D1(), Take(0, 0), D2()) {
    assert Apply(D1(), Take(0, 0)).threads == D2().threads;
  }

  lemma DemoResume() ensures Follows(D2(), Resume(0, 7), D3()) {
    assert Apply(D2(), Resume(0, 7)).threads == D3().threads;
    assert Apply(D2(), Resume(0, 7)).fibers == D3().fibers;
  }

  lemma DemoSleep() ensures Follows(D3(), Sleep(0, 0), D4()) {
    assert Apply(D3(), Sleep(0, 0)).fibers == D4().fibers;
  }

  lemma DemoYield() ensures Follows(D4(), Yield(0), D5()) {
    assert Apply(D4(), Yield(0)).threads == D5().threads;
    assert Apply(D4(), Yield(0)).fibers == D5().fibers;
  }

  lemma DemoReturn() ensures Follows(D5(), Return(0), D6()) && Follows(D6(), Stop, D7()) {
    assert Apply(D5(), Return(0)).threads == D6().threads;
  }

  lemma DemoIdle() ensures Follows(D7(), EnterIdle(0), D8()) && Follows(D8(), EnterIdle(1), D9()) {
    assert Apply(D7(), EnterIdle(0)).threads == D8().threads;
    assert Apply(D8(), EnterIdle(1)).threads == D9().threads;
  }

  lemma DemoExpire() ensures Follows(D9(), Expire(0, [0]), D10()) {
    assert Expired(ARMED, [0]) == [Wake(7)];
    assert Apply(D9(), Expire(0, [0])).threads == D10().threads;
    assert Apply(D9(), Expire(0, [0])).timers == D10().timers;
  }

  lemma DemoEnd() ensures Stopping(D10()) && Asleep(D10(), 7) && Enabled(D10(), IdleStop(1)) {
  }

  /** A run can be extended by any enabled step. */
  lemma Extend(r: Run, st: Step, s: State) returns (r': Run)
    requires IsRun(r) && Follows(r.states[|r.steps|], st, s)
    ensures IsRun(r') && r'.states[|r'.steps|] == s
  {
    r' := Run(r.states + [s], r.steps + [st]);
    forall i | 0 <= i < |r'.steps| ensures StepAt(r', i) {
      if i < |r.steps| {
        assert StepAt(r, i);
      }
    }
  }

  lemma DemoRunning() returns (r: Run)
    ensures IsRun(r) && r.states[|r.steps|] == D3()
  {
    DemoSubmit(); DemoTake(); DemoResume();
    r := Run([D0()], []);
    r := Extend(r, SubmitFiber(2, 7, None), D1());
    r := Extend(r, Take(0, 0), D2());
    r := Extend(r, Resume(0, 7), D3());
  }

  lemma DemoAsleep() returns (r: Run)
    ensures IsRun(r) && r.states[|r.steps|] == D6()
  {
    DemoSleep(); DemoYield(); DemoReturn();
    r := DemoRunning();
    r := Extend(r, Sleep(0, 0), D4());
    r := Extend(r, Yield(0), D5());
    r := Extend(r, Return(0), D6());
  }

  /** Stopping can hold, and the idle fiber of a second worker can terminate on it, while a fiber
      sleeps whose wake-up is still going to be scheduled: one fiber sleeps, its timer expires on
      thread 0 after Stop, and thread 1 looks before thread 0 has scheduled the callback. */
  lemma StoppingWithSleeper() returns (r: Run)
    ensures IsRun(r)
    ensures var s := r.states[|r.steps|]; Stopping(s) && Asleep(s, 7) && Enabled(s, IdleStop(1))
  {
    DemoReturn(); DemoIdle(); DemoExpire(); DemoEnd();
    r := DemoAsleep();
    r := Extend(r, Stop, D7());
    r := Extend(r, EnterIdle(0), D8());
    r := Extend(r, EnterIdle(1), D9());
    r := Extend(r, Expire(0, [0]), D10());
  }

  // ---------------------------------------------------------------- the skip of Running fibers is needed

  const WAITING := Fiber(Running, Park.Committed)

  function W4(): State { D3().(fibers := map[7 := WAITING], slots := map[(3, Read) := Resumable(7)], pending := 1) }
  function W5(): State {
    D3().(fibers := map[7 := WAITING], pending := 1, tasks := [JOB, JOB], queue := [1],
          threads := D3().threads[2 := Thread(Outside, true, false)])
  }

  lemma DemoWait() ensures Follows(D3(), WaitEvent(0, 3, Read), W4()) {
    assert Apply(D3(), WaitEvent(0, 3, Read)).fibers == W4().fibers;
  }

  lemma DemoCancel() ensures Follows(W4(), CancelEvent(2, 3, Read), W5()) {
    var s := Apply(W4(), CancelEvent(2, 3, Read));
    assert s.threads == W5().threads;
    assert s.slots == W5().slots;
  }

  lemma DemoQueued() ensures Runs(W5(), 0, 7) && IsPc(W5(), 1, Select) && !EligibleAt(W5(), 1, 0) {
  }

  /** A fiber that registered itself can be queued, free for any thread, before it has yielded: thread 0 still
      executes it. Only the test for Running fibers keeps thread 1 from taking and resuming it. */
  lemma QueuedWhileRunning() returns (r: Run)
    ensures IsRun(r)
    ensures var s := r.states[|r.steps|];
            && Runs(s, 0, 7) && IsPc(s, 1, Select)
            && s.queue == [1] && |s.tasks| == 2 && s.tasks[1] == Task(Resumable(7), None) && !EligibleAt(s, 1, 0)
  {
    DemoWait(); DemoCancel(); DemoQueued();
    r := DemoRunning();
    r := Extend(r, WaitEvent(0, 3, Read), W4());
    r := Extend(r, CancelEvent(2, 3, Read), W5());
  }
}
