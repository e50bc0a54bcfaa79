/**
  The list of tasks of the scheduler as the code keeps it, updated in place: `Schedule` in both
  forms and the scan of `Run` that takes a task. The lemmas at the end tie the list to the
  queue of the step system.
*/
module Scheduler {
  import opened Common
  import opened Protocol

  /** What is handed to `Schedule`: nothing when the caller's fiber or function is empty. */
  datatype Entry = Entry(work: Option<Work>, pin: Option<ThreadId>)

  function TasksOf(entries: seq<Entry>): seq<Task> {
    if entries == [] then []
    else TasksOf(entries[..|entries| - 1]) + Stored(entries[|entries| - 1])
  }

  function Stored(e: Entry): seq<Task> {
    if e.work.Some? then [Task(e.work.value, e.pin)] else []
  }

  /** The task is for another thread than t. */
  predicate PinnedElsewhere(task: Task, t: ThreadId) {
    task.pin.Some? && task.pin.value != t
  }

  /** The task is a fiber that is seen Running. */
  predicate IsRunning(task: Task, fibers: map<FiberId, Fiber>) {
    task.work.Resumable? && task.work.fiber in fibers && fibers[task.work.fiber].state == Running
  }

  class Scheduler {
    var list: seq<Task>
    var active: nat
    var stopping: bool

    constructor ()
      ensures list == [] && active == 0 && !stopping
    {
      list, active, stopping := [], 0, false;
    }

    /** `ScheduleNoLock`: empty work is dropped; the result asks for a tickle. */
    method Schedule(e: Entry) returns (needTickle: bool)
      modifies this`list
      ensures list == old(list) + Stored(e)
      ensures e.work.Some? ==> list == old(list) + [Task(e.work.value, e.pin)]
      ensures e.work.None? ==> list == old(list)
      ensures needTickle <==> old(list) == []
    {
      needTickle := list == [];
      if e.work.Some? {
        list := list + [Task(e.work.value, e.pin)];
      }
    }

    /** The range form: one pass under the lock, in order. */
    method ScheduleAll(entries: seq<Entry>) returns (needTickle: bool)
      modifies this`list
      ensures list == old(list) + TasksOf(entries)
      ensures needTickle <==> entries != [] && old(list) == []
    {
      needTickle := false;
      var i := 0;
      while i < |entries|
        invariant 0 <= i <= |entries|
        invariant list == old(list) + TasksOf(entries[..i])
        invariant needTickle <==> i > 0 && old(list) == []
      {
        assert entries[..i + 1][..i] == entries[..i];
        var tickle := Schedule(entries[i]);
        needTickle := tickle || needTickle;
        i := i + 1;
      }
      assert entries[..i] == entries;
    }

    /** The scan of `Run` by thread t: take the earliest task that, when the scan comes to it, is not
        pinned elsewhere and whose fiber is not Running. `seen(k)` is what the scan sees of the fibers
        when it looks at entry k; other threads may change them from one entry to the next. */
    method TakeTask(t: ThreadId, seen: nat -> map<FiberId, Fiber>) returns (task: Option<Task>, ghost at: nat)
      modifies this`list, this`active
      ensures task.Some? ==>
                && at < |old(list)| && old(list)[at] == task.value
                && !PinnedElsewhere(task.value, t) && !IsRunning(task.value, seen(at))
                && list == old(list)[..at] + old(list)[at + 1..] && active == old(active) + 1
      ensures task.None? ==> at == |list| && list == old(list) && active == old(active)
      ensures forall k :: 0 <= k < at ==> PinnedElsewhere(old(list)[k], t) || IsRunning(old(list)[k], seen(k))
    {
      task, at := None, 0;
      var i := 0;
      while i < |list|
        invariant 0 <= i <= |list| && task == None
        invariant forall k :: 0 <= k < i ==> PinnedElsewhere(list[k], t) || IsRunning(list[k], seen(k))
        invariant list == old(list) && active == old(active)
      {
        var it, fibers := list[i], seen(i);
        if it.pin != None && it.pin != Some(t) {
          i := i + 1;
        } else if it.work.Resumable? && it.work.fiber in fibers && fibers[it.work.fiber].state == Running {
          i := i + 1;
        } else {
          task, at := Some(it), i;
          list := list[..i] + list[i + 1..];
          active := active + 1;
          return;
        }
      }
      at := i;
    }

    /** `Scheduler::Stopping`. */
    predicate Stopping()
      reads this
    {
      stopping && list == [] && active == 0
    }
  }

  // ---------------------------------------------------------------- against the step system

  predicate QueueInRange(s: State) {
    forall i :: 0 <= i < |s.queue| ==> s.queue[i] < |s.tasks|
  }

  /** The list a state of the step system stands for. */
  function ListOf(s: State): seq<Task>
    requires QueueInRange(s)
  {
    seq(|s.queue|, i requires 0 <= i < |s.queue| => s.tasks[s.queue[i]])
  }

  /** Entry `at` of the list may be taken, in the state in which the scan comes to it, exactly when the step
      Take allows it, and taking it leaves the list the step leaves. */
  lemma TakeRefinesStep(s: State, t: ThreadId, at: nat)
    requires QueueInRange(s) && IsPc(s, t, Select) && at < |s.queue|
    ensures !PinnedElsewhere(ListOf(s)[at], t) && !IsRunning(ListOf(s)[at], s.fibers) <==> Enabled(s, Take(t, at))
    ensures Enabled(s, Take(t, at)) ==>
              var s' := Apply(s, Take(t, at));
              && QueueInRange(s') && ListOf(s') == ListOf(s)[..at] + ListOf(s)[at + 1..]
              && s'.active == s.active + 1
  {
    if Enabled(s, Take(t, at)) {
      var s' := Apply(s, Take(t, at));
      var left := ListOf(s)[..at] + ListOf(s)[at + 1..];
      forall i | 0 <= i < |s'.queue| ensures s'.queue[i] < |s'.tasks| && s'.tasks[s'.queue[i]] == left[i] {
        assert s'.queue[i] == s.queue[if i < at then i else i + 1];
      }
    }
  }

  /** Scheduling appends to the list what the protocol's Push and PushAll queue. */
  lemma PushRefinesList(s: State, w: Work, pin: Option<ThreadId>)
    requires QueueInRange(s)
    ensures var s' := Push(s, w, pin);
            QueueInRange(s')
            && ListOf(s') == ListOf(s) + Stored(Entry(Some(w), pin))
  {
  }

  function Entries(cbs: seq<Callback>): seq<Entry> {
    seq(|cbs|, i requires 0 <= i < |cbs| => Entry(Some(Call(cbs[i])), None))
  }

  lemma {:induction false} EntriesStored(cbs: seq<Callback>)
    ensures TasksOf(Entries(cbs)) == CallTasks(cbs)
  {
    if cbs != [] {
      var n := |cbs| - 1;
      EntriesStored(cbs[..n]);
      assert Entries(cbs)[..n] == Entries(cbs[..n]);
    }
  }

  lemma PushAllRefinesList(s: State, cbs: seq<Callback>)
    requires QueueInRange(s)
    ensures var s' := PushAll(s, cbs);
            QueueInRange(s')
            && ListOf(s') == ListOf(s) + TasksOf(Entries(cbs))
  {
    EntriesStored(cbs);
  }
}
