/**
  Conservation over every run: each task ever submitted is queued, held by exactly one
  thread, or finished; the two atomic counters equal what they count; a pinned task is
  held only by its thread.
*/
module ProtocolCounts {
  import opened Common
  import opened Protocol
  import opened ProtocolTokens

  function HeldTask(pc: Pc): Option<TaskId> {
    match pc
    case Taken(id) => Some(id)
    case Exec(id, _, _) => Some(id)
    case Returned(id) => Some(id)
    case _ => None
  }

  predicate Holds(s: State, t: ThreadId, id: TaskId) {
    t in s.threads && HeldTask(s.threads[t].pc) == Some(id)
  }

  function Holders(s: State): set<ThreadId> {
    set t | t in s.threads && HeldTask(s.threads[t].pc).Some?
  }

  function Debtors(s: State): set<ThreadId> {
    set t | t in s.threads && s.threads[t].debt
  }

  ghost predicate Held(s: State, id: TaskId) {
    exists t :: Holds(s, t, id)
  }

  ghost predicate InOnePlace(s: State, id: TaskId) {
    (id in s.queue || Held(s, id) || id in s.finished)
    && !(id in s.queue && Held(s, id)) && !(id in s.queue && id in s.finished) && !(Held(s, id) && id in s.finished)
  }

  ghost predicate TaskInv(s: State) {
    && (forall id: TaskId :: id < |s.tasks| ==> InOnePlace(s, id))
    && (forall t, id: TaskId :: Holds(s, t, id) ==> id < |s.tasks|)
    && (forall id :: id in s.finished ==> id < |s.tasks|)
    && (forall t, u, id: TaskId :: Holds(s, t, id) && Holds(s, u, id) ==> t == u)
    && (forall t, id: TaskId :: Holds(s, t, id) && id < |s.tasks| && s.tasks[id].pin.Some? ==>
          s.tasks[id].pin.value == t)
  }

  ghost predicate CounterInv(s: State) {
    s.active == |Holders(s)| && s.pending == |s.slots| + |Debtors(s)|
  }

  // ---------------------------------------------------------------- tasks

  lemma TasksKept(s: State, s': State, from: nat)
    requires Shape(s) && TaskInv(s) && from == |s.tasks|
    requires s.tasks <= s'.tasks && s'.finished == s.finished
    requires forall id :: id in s'.queue <==> id in s.queue || from <= id < |s'.tasks|
    requires forall t, id: TaskId :: Holds(s', t, id) <==> Holds(s, t, id)
    ensures TaskInv(s')
  {
    forall id: TaskId | id < |s'.tasks| ensures InOnePlace(s', id) {
      assert id < from ==> InOnePlace(s, id);
      assert Held(s', id) <==> Held(s, id);
    }
  }

  /** Taking a task takes it off the queue and puts it into the hands of the thread; no other task moves. */
  lemma TakeHandsOver(s: State, st: Step)
    requires Inv(s) && Enabled(s, st) && st.Take?
    ensures var s', x := Apply(s, st), s.queue[st.i];
            && (forall id :: id in s'.queue <==> id in s.queue && id != x) && s'.finished == s.finished
            && (forall t, id: TaskId :: Holds(s', t, id) <==> Holds(s, t, id) || (t == st.t && id == x))
  {
    TakenIds(s.queue, st.i);
  }

  lemma TasksTake(s: State, st: Step)
    requires Inv(s) && TaskInv(s) && Enabled(s, st) && st.Take?
    ensures TaskInv(Apply(s, st))
  {
    var s', x := Apply(s, st), s.queue[st.i];
    TakeHandsOver(s, st);
    assert x in s.queue && InOnePlace(s, x);
    forall id: TaskId | id < |s'.tasks| ensures InOnePlace(s', id) {
      assert InOnePlace(s, id);
      if id == x {
        assert Holds(s', st.t, id);
      } else {
        assert Held(s', id) <==> Held(s, id);
      }
    }
  }

  /** Coming back from a fiber moves its task from the hands of the thread to the finished ones. */
  lemma ReturnFinishes(s: State, st: Step)
    requires Enabled(s, st) && st.Return?
    ensures var s', x := Apply(s, st), s.threads[st.t].pc.task;
            && s'.queue == s.queue && s'.finished == s.finished + {x} && Holds(s, st.t, x)
            && (forall t, id: TaskId :: Holds(s', t, id) <==> Holds(s, t, id) && t != st.t)
  {
  }

  lemma TasksReturn(s: State, st: Step)
    requires TaskInv(s) && Enabled(s, st) && st.Return?
    ensures TaskInv(Apply(s, st))
  {
    var s', x := Apply(s, st), s.threads[st.t].pc.task;
    ReturnFinishes(s, st);
    assert InOnePlace(s, x);
    forall id: TaskId | id < |s'.tasks| ensures InOnePlace(s', id) {
      assert InOnePlace(s, id);
      if id != x && Held(s, id) {
        var t :| Holds(s, t, id);
        assert Holds(s', t, id);
      }
    }
  }

  lemma QueueStep(s: State, st: Step)
    requires Inv(s) && Enabled(s, st) && !st.Take?
    ensures var s' := Apply(s, st);
            forall id :: id in s'.queue <==> id in s.queue || |s.tasks| <= id < |s'.tasks|
    ensures s.tasks <= Apply(s, st).tasks
  {
    if st.ScheduleBatch? {
      PushedIds(s, s.threads[st.t].pc.cbs);
    } else if InCode(st) {
      QueueCode(s, st);
    }
  }

  lemma QueueCode(s: State, st: Step)
    requires Inv(s) && Enabled(s, st) && InCode(st)
    ensures var s' := Apply(s, st);
            forall id :: id in s'.queue <==> id in s.queue || |s.tasks| <= id < |s'.tasks|
    ensures s.tasks <= Apply(s, st).tasks
  {
  }

  lemma TasksStep(s: State, st: Step)
    requires Inv(s) && TaskInv(s) && Enabled(s, st)
    ensures TaskInv(Apply(s, st))
  {
    if st.Take? {
      TasksTake(s, st);
    } else if st.Return? {
      TasksReturn(s, st);
    } else {
      QueueStep(s, st);
      HoldsKept(s, st);
      HistoryKept(s, st);
      TasksKept(s, Apply(s, st), |s.tasks|);
    }
  }

  lemma HeldKept(s: State, st: Step, t: ThreadId)
    requires Enabled(s, st) && !st.Take? && !st.Return?
    ensures t in Apply(s, st).threads <==> t in s.threads
    ensures t in s.threads ==> HeldTask(Apply(s, st).threads[t].pc) == HeldTask(s.threads[t].pc)
  {
    if InCode(st) {
      HeldKeptCode(s, st, t);
    }
  }

  lemma HeldKeptCode(s: State, st: Step, t: ThreadId)
    requires Enabled(s, st) && InCode(st)
    ensures t in Apply(s, st).threads <==> t in s.threads
    ensures t in s.threads ==> HeldTask(Apply(s, st).threads[t].pc) == HeldTask(s.threads[t].pc)
  {
  }

  lemma HistoryKept(s: State, st: Step)
    requires Enabled(s, st) && !st.Take? && !st.Return?
    ensures Apply(s, st).finished == s.finished && Apply(s, st).active == s.active
  {
    if InCode(st) {
      HistoryKeptCode(s, st);
    }
  }

  lemma HistoryKeptCode(s: State, st: Step)
    requires Enabled(s, st) && InCode(st)
    ensures Apply(s, st).finished == s.finished && Apply(s, st).active == s.active
  {
  }

  lemma HoldsKept(s: State, st: Step)
    requires Enabled(s, st) && !st.Take? && !st.Return?
    ensures forall t, id: TaskId :: Holds(Apply(s, st), t, id) <==> Holds(s, t, id)
    ensures Holders(Apply(s, st)) == Holders(s)
  {
    forall t ensures t in Apply(s, st).threads <==> t in s.threads
             ensures t in s.threads ==> HeldTask(Apply(s, st).threads[t].pc) == HeldTask(s.threads[t].pc)
    {
      HeldKept(s, st, t);
    }
  }

  // ---------------------------------------------------------------- counters

  lemma ActiveStep(s: State, st: Step)
    requires Enabled(s, st) && s.active == |Holders(s)|
    ensures Apply(s, st).active == |Holders(Apply(s, st))|
  {
    var s' := Apply(s, st);
    if st.Take? {
      assert Holders(s') == Holders(s) + {st.t};
    } else if st.Return? {
      assert Holders(s') == Holders(s) - {st.t};
    } else {
      HoldsKept(s, st);
      HistoryKept(s, st);
    }
  }

  lemma PendingFired(s: State, t: ThreadId, key: (nat, Event))
    requires t in s.threads && !s.threads[t].debt && key in s.slots
    ensures var s' := Fire(s, t, key); |s'.slots| + |Debtors(s')| == |s.slots| + |Debtors(s)|
  {
    var s' := Fire(s, t, key);
    assert Debtors(s') == Debtors(s) + {t};
    Dropped(s.slots, key);
  }

  lemma Dropped<K, V>(m: map<K, V>, key: K)
    requires key in m
    ensures |m - {key}| == |m| - 1
  {
    assert (m - {key}).Keys == m.Keys - {key};
    assert |m.Keys| == |m| && |(m - {key}).Keys| == |m - {key}|;
  }

  lemma Inserted<K, V>(m: map<K, V>, key: K, v: V)
    requires key !in m
    ensures |m[key := v]| == |m| + 1
  {
    assert m[key := v].Keys == m.Keys + {key};
    assert |m.Keys| == |m| && |m[key := v].Keys| == |m[key := v]|;
  }

  lemma PendingAdd(s: State, st: Step)
    requires Enabled(s, st) && s.pending == |s.slots| + |Debtors(s)| && (st.AddEventCall? || st.WaitEvent?)
    ensures var s' := Apply(s, st); s'.pending == |s'.slots| + |Debtors(s')|
  {
    assert Debtors(Apply(s, st)) == Debtors(s);
    match st
    case AddEventCall(_, fd, ev, tag) => Inserted(s.slots, (fd, ev), Call(User(tag)));
    case WaitEvent(t, fd, ev) => Inserted(s.slots, (fd, ev), Resumable(s.threads[t].pc.fiber));
  }

  lemma PendingDel(s: State, st: Step)
    requires Enabled(s, st) && s.pending == |s.slots| + |Debtors(s)| && st.DelEvent?
    ensures var s' := Apply(s, st); s'.pending == |s'.slots| + |Debtors(s')|
  {
    assert Debtors(Apply(s, st)) == Debtors(s);
    Dropped(s.slots, (st.fd, st.ev));
  }

  lemma PendingSettle(s: State, st: Step)
    requires Enabled(s, st) && s.pending == |s.slots| + |Debtors(s)| && st.Settle?
    ensures var s' := Apply(s, st); s'.pending == |s'.slots| + |Debtors(s')|
  {
    assert Debtors(Apply(s, st)) == Debtors(s) - {st.t};
  }

  lemma PendingTrigger(s: State, st: Step)
    requires Enabled(s, st) && s.pending == |s.slots| + |Debtors(s)| && (st.CancelEvent? || st.Trigger?)
    ensures var s' := Apply(s, st); s'.pending == |s'.slots| + |Debtors(s')|
  {
    PendingFired(s, st.t, (st.fd, st.ev));
    assert Debtors(Apply(s, st)) == Debtors(Fire(s, st.t, (st.fd, st.ev)));
  }

  lemma PendingKept(s: State, st: Step)
    requires Enabled(s, st) && s.pending == |s.slots| + |Debtors(s)| && !TouchesEvents(st)
    ensures var s' := Apply(s, st); s'.pending == |s'.slots| + |Debtors(s')|
  {
    EventsKept(s, st);
    forall t ensures t in Debtors(Apply(s, st)) <==> t in Debtors(s) {
      DebtKept(s, st, t);
    }
    assert Debtors(Apply(s, st)) == Debtors(s);
  }

  predicate TouchesEvents(st: Step) {
    st.AddEventCall? || st.WaitEvent? || st.DelEvent? || st.CancelEvent? || st.Trigger? || st.RunCancel? || st.Settle?
  }

  lemma DebtKept(s: State, st: Step, t: ThreadId)
    requires Enabled(s, st) && !TouchesEvents(st)
    ensures t in Apply(s, st).threads <==> t in s.threads
    ensures t in s.threads ==> Apply(s, st).threads[t].debt == s.threads[t].debt
  {
    if InCode(st) {
      DebtKeptCode(s, st, t);
    }
  }

  lemma DebtKeptCode(s: State, st: Step, t: ThreadId)
    requires Enabled(s, st) && !TouchesEvents(st) && InCode(st)
    ensures t in Apply(s, st).threads <==> t in s.threads
    ensures t in s.threads ==> Apply(s, st).threads[t].debt == s.threads[t].debt
  {
  }

  lemma EventsKept(s: State, st: Step)
    requires Enabled(s, st) && !TouchesEvents(st)
    ensures Apply(s, st).slots == s.slots && Apply(s, st).pending == s.pending
  {
    if InCode(st) {
      EventsKeptCode(s, st);
    }
  }

  lemma EventsKeptCode(s: State, st: Step)
    requires Enabled(s, st) && !TouchesEvents(st) && InCode(st)
    ensures Apply(s, st).slots == s.slots && Apply(s, st).pending == s.pending
  {
  }

  lemma PendingCode(s: State, st: Step)
    requires Enabled(s, st) && s.pending == |s.slots| + |Debtors(s)| && InCode(st)
    ensures var s' := Apply(s, st); s'.pending == |s'.slots| + |Debtors(s')|
  {
    match st
    case AddEventCall(_, _, _, _) => PendingAdd(s, st);
    case WaitEvent(_, _, _) => PendingAdd(s, st);
    case DelEvent(_, _, _) => PendingDel(s, st);
    case Settle(_) => PendingSettle(s, st);
    case CancelEvent(_, _, _) => PendingTrigger(s, st);
    case _ => PendingKept(s, st);
  }

  lemma PendingLoop(s: State, st: Step)
    requires Enabled(s, st) && s.pending == |s.slots| + |Debtors(s)| && !InCode(st)
    ensures var s' := Apply(s, st); s'.pending == |s'.slots| + |Debtors(s')|
  {
    match st
    case Trigger(_, _, _) => PendingTrigger(s, st);
    case RunCancel(_, _) => PendingRunCancel(s, st);
    case _ => PendingKept(s, st);
  }

  lemma PendingStep(s: State, st: Step)
    requires Enabled(s, st) && s.pending == |s.slots| + |Debtors(s)|
    ensures var s' := Apply(s, st); s'.pending == |s'.slots| + |Debtors(s')|
  {
    if InCode(st) {
      PendingCode(s, st);
    } else {
      PendingLoop(s, st);
    }
  }

  lemma PendingRunCancel(s: State, st: Step)
    requires Enabled(s, st) && st.RunCancel? && s.pending == |s.slots| + |Debtors(s)|
    ensures var s' := Apply(s, st); s'.pending == |s'.slots| + |Debtors(s')|
  {
    var todo := s.threads[st.t].pc.todo.value;
    var s1 := SetPc(s, st.t, s.threads[st.t].pc.(todo := None));
    assert Debtors(s1) == Debtors(s);
    if st.live && (todo.fd, todo.ev) in s.slots {
      PendingFired(s1, st.t, (todo.fd, todo.ev));
    }
  }

  // ---------------------------------------------------------------- over every run

  lemma CountsInit(s: State)
    requires Init(s)
    ensures TaskInv(s) && CounterInv(s)
  {
    forall t ensures t !in Holders(s) && t !in Debtors(s) {
      assert t in s.threads ==> IsFresh(s.threads[t]);
    }
    assert Holders(s) == {} && Debtors(s) == {};
    assert forall t, id: TaskId :: Holds(s, t, id) ==> t in Holders(s);
  }

  lemma CountsFollow(r: Run, i: nat)
    requires IsRun(r) && 0 < i < |r.states|
    requires Inv(r.states[i - 1]) && TaskInv(r.states[i - 1]) && CounterInv(r.states[i - 1])
    ensures TaskInv(r.states[i]) && CounterInv(r.states[i])
  {
    var s, st := r.states[i - 1], r.steps[i - 1];
    assert StepAt(r, i - 1);
    TasksStep(s, st);
    ActiveStep(s, st);
    PendingStep(s, st);
  }

  lemma {:induction false} CountsRun(r: Run, i: nat)
    requires IsRun(r) && i < |r.states|
    ensures TaskInv(r.states[i]) && CounterInv(r.states[i])
  {
    if i == 0 {
      CountsInit(r.states[0]);
    } else {
      CountsRun(r, i - 1);
      InvRun(r, i - 1);
      CountsFollow(r, i);
    }
  }

  /** The three sets a submitted task can be in are disjoint and cover all submitted tasks; the
      active counter counts the threads holding a task, no task is held twice, and a pinned
      task is held by its own thread. */
  lemma TasksAreConserved(r: Run, i: nat)
    requires IsRun(r) && i < |r.states|
    ensures var s := r.states[i];
            && (forall id: TaskId :: id < |s.tasks| <==> id in s.queue || Held(s, id) || id in s.finished)
            && (forall id: TaskId :: id < |s.tasks| ==> InOnePlace(s, id))
            && Distinct(s.queue)
            && (forall t, u, id: TaskId :: Holds(s, t, id) && Holds(s, u, id) ==> t == u)
            && s.active == |Holders(s)|
    ensures var s := r.states[i];
            forall t, id: TaskId :: Holds(s, t, id) && id < |s.tasks| && s.tasks[id].pin.Some? ==>
              s.tasks[id].pin.value == t
  {
    CountsRun(r, i);
    InvRun(r, i);
    var s := r.states[i];
    forall id: TaskId ensures id < |s.tasks| <==> id in s.queue || Held(s, id) || id in s.finished {
      assert id < |s.tasks| ==> InOnePlace(s, id);
    }
  }

  /** The pending counter equals the registered events plus the triggers whose decrement is
      still to come; so it equals the registered events whenever no thread is between the two. */
  lemma PendingCountsEvents(r: Run, i: nat)
    requires IsRun(r) && i < |r.states|
    ensures r.states[i].pending == |r.states[i].slots| + |Debtors(r.states[i])|
    ensures (forall t :: t in r.states[i].threads ==> !r.states[i].threads[t].debt) ==>
              r.states[i].pending == |r.states[i].slots|
  {
    CountsRun(r, i);
    if forall t :: t in r.states[i].threads ==> !r.states[i].threads[t].debt {
      assert Debtors(r.states[i]) == {};
    }
  }
}
