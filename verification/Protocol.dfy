/** Values that several modules share. */
module Common {
  datatype Option<+T> = None | Some(value: T)

  const TWO64: nat := 0x1_0000_0000_0000_0000
}

/**
  The fiber scheduling protocol of the runtime as a labelled step system.

  Worker threads run `Scheduler::Run`: take a task, resume its fiber, and fall back to
  the idle fiber (`IOManager::Idle`) when nothing is eligible. Fibers park themselves in
  an event slot or a sleep timer and are queued again by triggers, cancellations and
  timer callbacks. Every label of `Step` is one atomic action of one thread; a run is any
  interleaving of labels. Threads outside the scheduler (`Outside`) may call the public
  operations too.

  The scan of `Run` looks at one queue entry after another while other threads go on, so a
  step takes any entry that is eligible at that moment, and a thread may find nothing at any
  time; which entry one scan takes is a property of `Scheduler.TakeTask`.
*/
module Protocol {
  import opened Common

  type FiberId = int
  type ThreadId = int
  type TaskId = nat
  type TimerId = int

  datatype Event = Read | Write

  /** What a `std::function` in a task, an event slot or a timer does when it is called. */
  datatype Callback =
    | Wake(fiber: FiberId)             // the timer of sleep/usleep/nanosleep
    | CancelWait(fd: nat, ev: Event)   // the timeout of doIO and connectWithTimeout
    | User(tag: nat)                   // code of the program

  datatype Work = Resumable(fiber: FiberId) | Call(cb: Callback)

  /** A scheduler task; `pin` is None for thread -1. */
  datatype Task = Task(work: Work, pin: Option<ThreadId>)

  datatype FiberState = Ready | Running | Term

  /** Where a fiber stands with respect to parking: executing freely (or ended), bound to a
      wake-up token (fresh, about to yield, or yielded), or bound to nothing although it
      yields or has yielded. */
  datatype Park = Free | Committed | Lost

  datatype Fiber = Fiber(state: FiberState, park: Park)

  datatype TimerEntry = TimerEntry(cb: Callback, recurring: bool)

  datatype Pc =
    | Outside                                                    // not a scheduler thread
    | Select                                                     // top of the loop of Run
    | Taken(task: TaskId)                                        // erased from the list, not resumed yet
    | Exec(task: TaskId, fiber: FiberId, todo: Option<Callback>) // inside the resumed fiber
    | Returned(task: TaskId)                                     // swapped back, counter not decremented yet
    | Idle                                                       // idle fiber, at the top of its loop
    | Batch(cbs: seq<Callback>)                                  // expired callbacks collected, not scheduled yet
    | Handling                                                   // idle fiber, going through reported events
    | Exited

  /** `debt`: the thread has triggered an event and not yet decremented the pending counter.
      `idleDone`: the thread's idle fiber has terminated. */
  datatype Thread = Thread(pc: Pc, debt: bool, idleDone: bool)

  datatype State = State(
    fibers: map<FiberId, Fiber>,
    tasks: seq<Task>,                    // every task ever pushed; the index is its id
    queue: seq<TaskId>,                  // tasks_, as ids
    finished: set<TaskId>,               // history: tasks whose execution is over
    slots: map<(nat, Event), Work>,      // registered events
    pending: int,                        // pending_event_cnt_
    timers: map<TimerId, TimerEntry>,
    threads: map<ThreadId, Thread>,
    active: int,                         // active_thread_count_
    stopping: bool,
    late: bool)                          // history: an outside call was made after Stop

  datatype Step =
    // public operations, called by a running fiber or from outside
    | SubmitFiber(t: ThreadId, f: FiberId, pin: Option<ThreadId>)
    | SubmitCall(t: ThreadId, tag: nat, pin: Option<ThreadId>)
    | AddEventCall(t: ThreadId, fd: nat, ev: Event, tag: nat)
    | AddTimer(t: ThreadId, id: TimerId, entry: TimerEntry)
    | CancelTimer(t: ThreadId, id: TimerId)
    | CancelEvent(t: ThreadId, fd: nat, ev: Event)
    | DelEvent(t: ThreadId, fd: nat, ev: Event)
    | Settle(t: ThreadId)
    | Stop
    // a running fiber parks, yields or ends
    | WaitEvent(t: ThreadId, fd: nat, ev: Event)
    | Sleep(t: ThreadId, id: TimerId)
    | Yield(t: ThreadId)
    | Finish(t: ThreadId)
    | RunWake(t: ThreadId)
    | RunCancel(t: ThreadId, live: bool)
    // the loop of Scheduler::Run
    | Take(t: ThreadId, i: nat)
    | Resume(t: ThreadId, f: FiberId)
    | Return(t: ThreadId)
    | EnterIdle(t: ThreadId)
    | Exit(t: ThreadId)
    // the loop of IOManager::Idle
    | IdleStop(t: ThreadId)
    | Expire(t: ThreadId, ids: seq<TimerId>)
    | ScheduleBatch(t: ThreadId)
    | Trigger(t: ThreadId, fd: nat, ev: Event)
    | IdleYield(t: ThreadId)

  /** Steps of code that runs in a fiber or outside the scheduler; the others are the scheduler's own. */
  predicate InCode(st: Step) {
    match st
    case SubmitFiber(_, _, _) => true
    case SubmitCall(_, _, _) => true
    case AddEventCall(_, _, _, _) => true
    case AddTimer(_, _, _) => true
    case CancelTimer(_, _) => true
    case CancelEvent(_, _, _) => true
    case DelEvent(_, _, _) => true
    case Settle(_) => true
    case Stop => true
    case WaitEvent(_, _, _) => true
    case Sleep(_, _) => true
    case _ => false
  }

  // ---------------------------------------------------------------- state updates

  /** `ScheduleNoLock` of one non-empty task. */
  function Push(s: State, w: Work, pin: Option<ThreadId>): State {
    s.(tasks := s.tasks + [Task(w, pin)], queue := s.queue + [|s.tasks|])
  }

  function CallTasks(cbs: seq<Callback>): seq<Task> {
    seq(|cbs|, i requires 0 <= i < |cbs| => Task(Call(cbs[i]), None))
  }

  function Ids(from: nat, n: nat): seq<TaskId> {
    seq(n, i requires 0 <= i < n => from + i)
  }

  /** The range form of `Schedule`. */
  function PushAll(s: State, cbs: seq<Callback>): State {
    s.(tasks := s.tasks + CallTasks(cbs), queue := s.queue + Ids(|s.tasks|, |cbs|))
  }

  function SetPc(s: State, t: ThreadId, pc: Pc): State
    requires t in s.threads
  {
    s.(threads := s.threads[t := s.threads[t].(pc := pc)])
  }

  function SetFiber(s: State, f: FiberId, st: FiberState, park: Park): State {
    s.(fibers := s.fibers[f := Fiber(st, park)])
  }

  /** `TriggerEvent`: clear the slot and queue what it held; the counter follows in `Settle`. */
  function Fire(s: State, t: ThreadId, key: (nat, Event)): State
    requires t in s.threads && key in s.slots
  {
    Push(s, s.slots[key], None).(slots := s.slots - {key},
                                 threads := s.threads[t := s.threads[t].(debt := true)])
  }

  /** The fiber that loses its wake-up when a slot is dropped without a trigger. */
  function Drop(s: State, w: Work): State {
    if w.Resumable? && w.fiber in s.fibers
    then SetFiber(s, w.fiber, s.fibers[w.fiber].state, Lost)
    else s
  }

  function NoteLate(s: State, t: ThreadId): State
    requires t in s.threads
  {
    s.(late := s.late || (s.stopping && s.threads[t].pc.Outside?))
  }

  // ---------------------------------------------------------------- guards

  /** `tasks_` entry `id` may be taken by thread t (scheduler.cpp, the two skips of the scan). */
  predicate Eligible(fibers: map<FiberId, Fiber>, task: Task, t: ThreadId) {
    && (task.pin == None || task.pin == Some(t))
    && !(task.work.Resumable? && task.work.fiber in fibers && fibers[task.work.fiber].state == Running)
  }

  predicate EligibleAt(s: State, t: ThreadId, i: nat)
    requires i < |s.queue|
  {
    s.queue[i] < |s.tasks| && Eligible(s.fibers, s.tasks[s.queue[i]], t)
  }

  predicate IsPc(s: State, t: ThreadId, pc: Pc) {
    t in s.threads && !s.threads[t].debt && s.threads[t].pc == pc
  }

  predicate InFiber(s: State, t: ThreadId) {
    t in s.threads && !s.threads[t].debt && s.threads[t].pc.Exec? && s.threads[t].pc.todo == None
    && s.threads[t].pc.fiber in s.fibers
  }

  predicate CanPark(s: State, t: ThreadId) {
    InFiber(s, t) && s.fibers[s.threads[t].pc.fiber].park == Free
  }

  /** The thread may call a public operation: outside the scheduler, or in a fiber that has
      not committed itself to yielding. */
  predicate CanAct(s: State, t: ThreadId) {
    (t in s.threads && !s.threads[t].debt && s.threads[t].pc.Outside?) || CanPark(s, t)
  }

  predicate HasTodo(s: State, t: ThreadId) {
    t in s.threads && !s.threads[t].debt && s.threads[t].pc.Exec? && s.threads[t].pc.todo.Some?
  }

  /** `IOManager::Stopping`, evaluated as one step. */
  predicate Stopping(s: State) {
    s.timers == map[] && s.pending == 0 && s.stopping && s.queue == [] && s.active == 0
  }

  /** Run resumes a queued fiber itself, and a new fiber for a callback. */
  predicate Resumes(s: State, w: Work, f: FiberId) {
    if w.Resumable? then f == w.fiber else f !in s.fibers
  }

  predicate Distinct<T(==)>(xs: seq<T>) {
    forall i, j :: 0 <= i < j < |xs| ==> xs[i] != xs[j]
  }

  ghost predicate Enabled(s: State, st: Step) {
    match st
    case SubmitFiber(t, f, pin) => CanAct(s, t) && f !in s.fibers
    case SubmitCall(t, tag, pin) => CanAct(s, t)
    case AddEventCall(t, fd, ev, tag) => CanAct(s, t) && (fd, ev) !in s.slots
    case AddTimer(t, id, entry) => CanAct(s, t) && id !in s.timers && !entry.cb.Wake?
    case CancelTimer(t, id) => CanAct(s, t) && id in s.timers && !s.timers[id].cb.Wake?
    case CancelEvent(t, fd, ev) => CanAct(s, t) && (fd, ev) in s.slots
    case DelEvent(t, fd, ev) => CanAct(s, t) && (fd, ev) in s.slots
    case Settle(t) => t in s.threads && s.threads[t].debt
    case Stop => true
    case WaitEvent(t, fd, ev) => CanPark(s, t) && (fd, ev) !in s.slots
    case Sleep(t, id) => CanPark(s, t) && id !in s.timers
    case Yield(t) => InFiber(s, t)
    case Finish(t) => CanPark(s, t)
    case RunWake(t) => HasTodo(s, t) && s.threads[t].pc.todo.value.Wake?
    case RunCancel(t, live) => HasTodo(s, t) && s.threads[t].pc.todo.value.CancelWait?
    case Take(t, i) => IsPc(s, t, Select) && i < |s.queue| && EligibleAt(s, t, i)
    case Resume(t, f) => t in s.threads && !s.threads[t].debt && s.threads[t].pc.Taken?
      && s.threads[t].pc.task < |s.tasks| && Resumes(s, s.tasks[s.threads[t].pc.task].work, f)
    case Return(t) => t in s.threads && !s.threads[t].debt && s.threads[t].pc.Returned?
    case EnterIdle(t) => IsPc(s, t, Select) && !s.threads[t].idleDone
    case Exit(t) => IsPc(s, t, Select) && s.threads[t].idleDone
    case IdleStop(t) => IsPc(s, t, Idle) && Stopping(s)
    case Expire(t, ids) => IsPc(s, t, Idle) && Distinct(ids) && forall i :: 0 <= i < |ids| ==> ids[i] in s.timers
    case ScheduleBatch(t) => t in s.threads && !s.threads[t].debt && s.threads[t].pc.Batch?
    case Trigger(t, fd, ev) => IsPc(s, t, Handling) && (fd, ev) in s.slots
    case IdleYield(t) => IsPc(s, t, Handling)
  }

  function Expired(timers: map<TimerId, TimerEntry>, ids: seq<TimerId>): seq<Callback>
    requires forall i :: 0 <= i < |ids| ==> ids[i] in timers
  {
    seq(|ids|, i requires 0 <= i < |ids| => timers[ids[i]].cb)
  }

  function Remaining(timers: map<TimerId, TimerEntry>, ids: seq<TimerId>): map<TimerId, TimerEntry> {
    map id | id in timers && (id !in ids || timers[id].recurring) :: timers[id]
  }

  ghost function Apply(s: State, st: Step): State
    requires Enabled(s, st)
  {
    match st
    case SubmitFiber(t, f, pin) => NoteLate(Push(SetFiber(s, f, Ready, Committed), Resumable(f), pin), t)
    case SubmitCall(t, tag, pin) => NoteLate(Push(s, Call(User(tag)), pin), t)
    case AddEventCall(t, fd, ev, tag) =>
      NoteLate(s.(slots := s.slots[(fd, ev) := Call(User(tag))], pending := s.pending + 1), t)
    case AddTimer(t, id, entry) => NoteLate(s.(timers := s.timers[id := entry]), t)
    case CancelTimer(t, id) => NoteLate(s.(timers := s.timers - {id}), t)
    case CancelEvent(t, fd, ev) => NoteLate(Fire(s, t, (fd, ev)), t)
    case DelEvent(t, fd, ev) =>
      NoteLate(Drop(s.(slots := s.slots - {(fd, ev)}, pending := s.pending - 1), s.slots[(fd, ev)]), t)
    case Settle(t) => s.(pending := s.pending - 1, threads := s.threads[t := s.threads[t].(debt := false)])
    case Stop => s.(stopping := true)
    case WaitEvent(t, fd, ev) =>
      var f := s.threads[t].pc.fiber;
      SetFiber(s, f, Running, Committed).(slots := s.slots[(fd, ev) := Resumable(f)], pending := s.pending + 1)
    case Sleep(t, id) =>
      var f := s.threads[t].pc.fiber;
      SetFiber(s, f, Running, Committed).(timers := s.timers[id := TimerEntry(Wake(f), false)])
    case Yield(t) =>
      var f := s.threads[t].pc.fiber;
      var park := s.fibers[f].park;
      SetPc(SetFiber(s, f, Ready, if park == Free then Lost else park), t, Returned(s.threads[t].pc.task))
    case Finish(t) =>
      SetPc(SetFiber(s, s.threads[t].pc.fiber, Term, Free), t, Returned(s.threads[t].pc.task))
    case RunWake(t) =>
      var pc := s.threads[t].pc;
      SetPc(Push(s, Resumable(pc.todo.value.fiber), None), t, pc.(todo := None))
    case RunCancel(t, live) =>
      var pc := s.threads[t].pc;
      var s1 := SetPc(s, t, pc.(todo := None));
      if live && (pc.todo.value.fd, pc.todo.value.ev) in s.slots
      then Fire(s1, t, (pc.todo.value.fd, pc.todo.value.ev)) else s1
    case Take(t, i) =>
      SetPc(s.(queue := s.queue[..i] + s.queue[i + 1..], active := s.active + 1), t, Taken(s.queue[i]))
    case Resume(t, f) =>
      var id := s.threads[t].pc.task;
      var todo := match s.tasks[id].work
        case Resumable(_) => None
        case Call(cb) => if cb.User? then None else Some(cb);
      SetPc(SetFiber(s, f, Running, Free), t, Exec(id, f, todo))
    case Return(t) =>
      SetPc(s.(active := s.active - 1, finished := s.finished + {s.threads[t].pc.task}), t, Select)
    case EnterIdle(t) => SetPc(s, t, Idle)
    case Exit(t) => SetPc(s, t, Exited)
    case IdleStop(t) => s.(threads := s.threads[t := Thread(Select, false, true)])
    case Expire(t, ids) =>
      SetPc(s.(timers := Remaining(s.timers, ids)), t, Batch(Expired(s.timers, ids)))
    case ScheduleBatch(t) => SetPc(PushAll(s, s.threads[t].pc.cbs), t, Handling)
    case Trigger(t, fd, ev) => Fire(s, t, (fd, ev))
    case IdleYield(t) => SetPc(s, t, Select)
  }

  // ---------------------------------------------------------------- runs

  predicate IsFresh(th: Thread) {
    (th.pc == Select || th.pc == Outside) && !th.debt && !th.idleDone
  }

  ghost predicate Init(s: State) {
    && s.fibers == map[] && s.tasks == [] && s.queue == [] && s.finished == {}
    && s.slots == map[] && s.pending == 0 && s.timers == map[] && s.active == 0
    && !s.stopping && !s.late
    && (forall t :: t in s.threads ==> IsFresh(s.threads[t]))
    && exists t :: t in s.threads && s.threads[t].pc == Select
  }

  /** One run: the states it goes through and the labels between them, in any interleaving. */
  datatype Run = Run(states: seq<State>, steps: seq<Step>)

  ghost predicate IsRun(r: Run) {
    && |r.states| == |r.steps| + 1
    && Init(r.states[0])
    && forall i :: 0 <= i < |r.steps| ==> StepAt(r, i)
  }

  /** Label i leads from state i to state i + 1. */
  ghost predicate StepAt(r: Run, i: nat)
    requires i < |r.steps| < |r.states|
  {
    Follows(r.states[i], r.steps[i], r.states[i + 1])
  }

  ghost predicate Follows(s: State, st: Step, s': State) {
    Enabled(s, st) && s' == Apply(s, st)
  }
}
