/**
  The event loop of `IOManager::Idle` on values: what one report does to the table and to the
  list of tasks, and what a whole batch amounts to.
*/
module EventLoop {
  import opened Common
  import opened Protocol
  import opened Scheduler
  import opened EventTable

  /** The tasks that triggering the events evs queues, Read first. */
  function Queued(v: FdView, evs: set<Event>): seq<Task> {
    (if Read in evs then Stored(Entry(v.read, None)) else [])
    + (if Write in evs then Stored(Entry(v.write, None)) else [])
  }

  /** Every set event queues exactly one task. */
  lemma QueuedLength(v: FdView, evs: set<Event>)
    requires v.Sound() && evs <= v.events
    ensures |Queued(v, evs)| == |evs|
  {
    var first, second := if Read in evs then {Read} else {}, if Write in evs then {Write} else {};
    forall e | e in evs ensures e in first + second {
      match e case Read => case Write =>
    }
    assert evs == first + second;
  }

  /** What is queued, and in which order: the reader's work before the writer's. */
  lemma QueuedOrder(v: FdView, evs: set<Event>)
    requires v.Sound() && evs <= v.events
    ensures Queued(v, evs) ==
            if Read in evs && Write in evs then [Task(v.read.value, None), Task(v.write.value, None)]
            else if Read in evs then [Task(v.read.value, None)]
            else if Write in evs then [Task(v.write.value, None)]
            else []
  {
  }

  datatype Report = Report(fd: nat, events: set<Event>, errorOrHangup: bool)

  /** The bits Idle acts on: what was reported, and on an error or hang-up also whatever is registered. */
  function RealEvents(rep: Report, registered: set<Event>): set<Event> {
    rep.events + (if rep.errorOrHangup then registered else {})
  }

  /** Table and list of tasks. */
  datatype Loop = Loop(table: Table, list: seq<Task>)

  /** Some reported bit is registered, another is not, and the kernel does as told. */
  predicate PartlyStale(t: Table, rep: Report, fault: bool)
    requires rep.fd < |t.fds|
  {
    var reg := t.fds[rep.fd].events;
    var acts := RealEvents(rep, reg);
    acts * reg != {} && !fault && !(acts <= reg)
  }

  /** In plain terms: the report is about some registered event, and names one that is not registered; an error or
      hang-up alone is never stale. */
  lemma StaleMeaning(t: Table, rep: Report, fault: bool)
    requires rep.fd < |t.fds|
    ensures PartlyStale(t, rep, fault) <==>
            var reg := t.fds[rep.fd].events;
            && !fault
            && (exists e :: e in reg && (e in rep.events || rep.errorOrHangup))
            && (exists e :: e in rep.events && e !in reg)
  {
    var reg := t.fds[rep.fd].events;
    var acts := RealEvents(rep, reg);
    assert acts * reg != {} <==> exists e :: e in reg && (e in rep.events || rep.errorOrHangup) by {
      if acts * reg != {} {
        var e :| e in acts * reg;
        assert e in reg && (e in rep.events || rep.errorOrHangup);
      }
      if e :| e in reg && (e in rep.events || rep.errorOrHangup) {
        assert e in acts * reg;
      }
    }
  }

  /** One turn: nothing, the reported events triggered and forgotten, or (None) the failed assertion. */
  function AfterReport(l: Loop, rep: Report, fault: bool): (r: Option<Loop>)
    requires rep.fd < |l.table.fds|
    ensures r.Some? ==> |r.value.table.fds| == |l.table.fds|
  {
    var v := l.table.fds[rep.fd];
    var acts := RealEvents(rep, v.events);
    if PartlyStale(l.table, rep, fault) then None
    else if acts * v.events == {} || fault then Some(l)
    else Some(Loop(Retire(l.table, rep.fd, acts), l.list + Queued(v, acts)))
  }

  /** The loop takes l to m by one turn. */
  predicate Turn(l: Loop, rep: Report, fault: bool, m: Loop) {
    rep.fd < |l.table.fds| && AfterReport(l, rep, fault) == Some(m)
  }

  /** The table and list before the first turn and after each of the following ones; every turn finds the table in
      order. */
  ghost predicate IsBatch(trace: seq<Loop>, reports: seq<Report>, faults: seq<bool>) {
    && 0 < |trace| <= |reports| + 1 && |faults| == |reports|
    && forall i :: 0 <= i < |trace| - 1 ==> TurnAt(trace, reports, faults, i)
  }

  ghost predicate TurnAt(trace: seq<Loop>, reports: seq<Report>, faults: seq<bool>, i: nat)
    requires i + 1 < |trace| <= |reports| + 1 && |faults| == |reports|
  {
    TableOk(trace[i].table) && Turn(trace[i], reports[i], faults[i], trace[i + 1])
  }

  /** The report after the last turn is partly stale, so that its turn fails. */
  ghost predicate FailsAfter(trace: seq<Loop>, reports: seq<Report>, faults: seq<bool>) {
    && 0 < |trace| <= |reports| == |faults|
    && var k := |trace| - 1;
       reports[k].fd < |trace[k].table.fds| && PartlyStale(trace[k].table, reports[k], faults[k])
  }

  lemma BatchGrows(trace: seq<Loop>, reports: seq<Report>, faults: seq<bool>, m: Loop)
    requires IsBatch(trace, reports, faults) && |trace| <= |reports|
    requires var k := |trace| - 1; TableOk(trace[k].table) && Turn(trace[k], reports[k], faults[k], m)
    ensures IsBatch(trace + [m], reports, faults)
  {
    var longer := trace + [m];
    forall i | 0 <= i < |longer| - 1 ensures TurnAt(longer, reports, faults, i) {
      if i < |trace| - 1 {
        assert TurnAt(trace, reports, faults, i);
      }
    }
  }

  // ---------------------------------------------------------------- which slots are left

  /** The report is about this event: it names the bit, or says error or hang-up. */
  predicate Names(rep: Report, key: (nat, Event)) {
    rep.fd == key.0 && (key.1 in rep.events || rep.errorOrHangup)
  }

  /** One of the first k reports, not refused by the kernel, is about this event. */
  predicate Reported(reports: seq<Report>, faults: seq<bool>, k: int, key: (nat, Event))
    requires k <= |reports| == |faults|
  {
    exists j :: 0 <= j < k && Names(reports[j], key) && !faults[j]
  }

  /** Slot `key` of m is what it was in l, unless it is gone. */
  ghost predicate Kept(m: Table, l: Table, key: (nat, Event), gone: bool) {
    && (key in Filled(m.fds) <==> key in Filled(l.fds) && !gone)
    && (key in Filled(m.fds) ==> Filled(m.fds)[key] == Filled(l.fds)[key])
  }

  lemma RetiredSlot(t: Table, fd: nat, acts: set<Event>, key: (nat, Event))
    requires TableOk(t) && fd < |t.fds|
    ensures Kept(Retire(t, fd, acts), t, key, key.0 == fd && key.1 in acts)
  {
    RetireKeepsTable(t, fd, acts);
  }

  lemma BitOfSlot(t: Table, key: (nat, Event))
    requires TableOk(t)
    ensures key in Filled(t.fds) <==> key.0 < |t.fds| && key.1 in t.fds[key.0].events
  {
    if key.0 < |t.fds| {
      SoundSlot(t.fds[key.0], key.1);
    }
  }

  /** One turn empties exactly the slots its report is about. */
  lemma TurnSlot(l: Loop, rep: Report, fault: bool, m: Loop, key: (nat, Event))
    requires TableOk(l.table) && Turn(l, rep, fault, m)
    ensures TableOk(m.table) && Kept(m.table, l.table, key, Names(rep, key) && !fault)
  {
    var acts := RealEvents(rep, l.table.fds[rep.fd].events);
    RetireKeepsTable(l.table, rep.fd, acts);
    BitOfSlot(l.table, key);
    RetiredSlot(l.table, rep.fd, acts, key);
  }

  lemma ReportedMore(reports: seq<Report>, faults: seq<bool>, k: nat, key: (nat, Event))
    requires 0 < k <= |reports| == |faults|
    ensures Reported(reports, faults, k, key)
            <==> Reported(reports, faults, k - 1, key) || (Names(reports[k - 1], key) && !faults[k - 1])
  {
  }

  /** A batch of turns empties exactly the slots that some report not refused by the kernel is about, and leaves
      every other slot as it was. */
  lemma {:induction false} BatchSlots(
      trace: seq<Loop>, reports: seq<Report>, faults: seq<bool>, k: nat, key: (nat, Event))
    requires IsBatch(trace, reports, faults) && k < |trace|
    ensures Kept(trace[k].table, trace[0].table, key, Reported(reports, faults, k, key))
  {
    if k > 0 {
      BatchSlots(trace, reports, faults, k - 1, key);
      BatchSlotsMore(trace, reports, faults, k, key);
    }
  }

  lemma BatchSlotsMore(trace: seq<Loop>, reports: seq<Report>, faults: seq<bool>, k: nat, key: (nat, Event))
    requires IsBatch(trace, reports, faults) && 0 < k < |trace|
    requires Kept(trace[k - 1].table, trace[0].table, key, Reported(reports, faults, k - 1, key))
    ensures Kept(trace[k].table, trace[0].table, key, Reported(reports, faults, k, key))
  {
    assert TurnAt(trace, reports, faults, k - 1);
    TurnSlot(trace[k - 1], reports[k - 1], faults[k - 1], trace[k], key);
    ReportedMore(reports, faults, k, key);
  }

  // ---------------------------------------------------------------- what is queued

  /** How often a task waits in the two slots of a descriptor. */
  function Held(v: FdView, task: Task): nat {
    if task.pin.Some? then 0
    else (if v.read == Some(task.work) then 1 else 0) + if v.write == Some(task.work) then 1 else 0
  }

  /** How often a task waits in all slots. */
  function Waiting(fds: seq<FdView>, task: Task): nat {
    if fds == [] then 0 else Held(fds[0], task) + Waiting(fds[1..], task)
  }

  lemma {:induction false} WaitingUpdate(fds: seq<FdView>, i: nat, v: FdView, task: Task)
    requires i < |fds|
    ensures Waiting(fds[i := v], task) == Waiting(fds, task) - Held(fds[i], task) + Held(v, task)
  {
    if i == 0 {
      assert fds[i := v][1..] == fds[1..];
    } else {
      WaitingUpdate(fds[1..], i - 1, v, task);
      assert fds[i := v][1..] == fds[1..][i - 1 := v];
    }
  }

  /** Triggering some events of a descriptor queues what waited for them and leaves the others waiting. */
  lemma QueuedSplits(v: FdView, acts: set<Event>, task: Task)
    requires v.Sound() && acts <= v.events
    ensures multiset(Queued(v, acts))[task] + Held(v.Clear(acts), task) == Held(v, task)
  {
  }

  /** How often a task is queued or waits to be. */
  function Count(l: Loop, task: Task): nat {
    multiset(l.list)[task] + Waiting(l.table.fds, task)
  }

  lemma TurnConserves(l: Loop, rep: Report, fault: bool, m: Loop, task: Task)
    requires TableOk(l.table) && Turn(l, rep, fault, m)
    ensures Count(m, task) == Count(l, task) && l.list <= m.list
  {
    var v := l.table.fds[rep.fd];
    var acts := RealEvents(rep, v.events);
    if acts * v.events != {} && !fault {
      WaitingUpdate(l.table.fds, rep.fd, v.Clear(acts), task);
      QueuedSplits(v, acts, task);
    }
  }

  /** Over a whole batch every task is in the list or waiting in a slot as often as before, and the list only grows
      at its end: what leaves the table is queued exactly once, and nothing else is. */
  lemma {:induction false} BatchConserves(
      trace: seq<Loop>, reports: seq<Report>, faults: seq<bool>, k: nat, task: Task)
    requires IsBatch(trace, reports, faults) && k < |trace|
    ensures Count(trace[k], task) == Count(trace[0], task) && trace[0].list <= trace[k].list
  {
    if k > 0 {
      BatchConserves(trace, reports, faults, k - 1, task);
      BatchConservesMore(trace, reports, faults, k, task);
    }
  }

  lemma BatchConservesMore(trace: seq<Loop>, reports: seq<Report>, faults: seq<bool>, k: nat, task: Task)
    requires IsBatch(trace, reports, faults) && 0 < k < |trace|
    ensures Count(trace[k], task) == Count(trace[k - 1], task) && trace[k - 1].list <= trace[k].list
  {
    assert TurnAt(trace, reports, faults, k - 1);
    TurnConserves(trace[k - 1], reports[k - 1], faults[k - 1], trace[k], task);
  }
}

/** The operations of the event table, against the steps of the protocol. */
module EventSteps {
  import opened Common
  import opened Protocol
  import opened Scheduler
  import opened EventTable
  import opened EventLoop

  /** The table holds the registered events of the state, and counts as it does. */
  ghost predicate SameEvents(s: State, t: Table) {
    TableOk(t) && Filled(t.fds) == s.slots && t.pending == s.pending
  }

  /** What the steps that register or delete do to slots and counter. */
  lemma WaitEffect(s: State, th: ThreadId, fd: nat, ev: Event)
    requires CanPark(s, th)
    ensures (fd, ev) !in s.slots <==> Enabled(s, WaitEvent(th, fd, ev))
    ensures (fd, ev) !in s.slots ==>
              var s' := Apply(s, WaitEvent(th, fd, ev));
              s'.slots == s.slots[(fd, ev) := Resumable(s.threads[th].pc.fiber)] && s'.pending == s.pending + 1
  {
  }

  lemma AddEffect(s: State, th: ThreadId, fd: nat, ev: Event, tag: nat)
    requires CanAct(s, th)
    ensures (fd, ev) !in s.slots <==> Enabled(s, AddEventCall(th, fd, ev, tag))
    ensures (fd, ev) !in s.slots ==>
              var s' := Apply(s, AddEventCall(th, fd, ev, tag));
              s'.slots == s.slots[(fd, ev) := Call(User(tag))] && s'.pending == s.pending + 1
  {
  }

  lemma DelEffect(s: State, th: ThreadId, fd: nat, ev: Event)
    requires CanAct(s, th)
    ensures (fd, ev) in s.slots <==> Enabled(s, DelEvent(th, fd, ev))
    ensures (fd, ev) in s.slots ==>
              var s' := Apply(s, DelEvent(th, fd, ev)); s'.slots == s.slots - {(fd, ev)} && s'.pending == s.pending - 1
  {
  }

  lemma SameAfterPut(s: State, t: Table, fd: nat, ev: Event, w: Work, s': State)
    requires SameEvents(s, t) && fd < |t.fds| && ev !in t.fds[fd].events
    requires s'.slots == s.slots[(fd, ev) := w] && s'.pending == s.pending + 1
    ensures SameEvents(s', Put(t, fd, ev, w))
  {
    PutKeepsTable(t, fd, ev, w);
  }

  lemma SameAfterRetire(s: State, t: Table, fd: nat, ev: Event, s': State)
    requires SameEvents(s, t) && fd < |t.fds| && ev in t.fds[fd].events
    requires s'.slots == s.slots - {(fd, ev)} && s'.pending == s.pending - 1
    ensures SameEvents(s', Retire(t, fd, {ev}))
  {
    RetireOne(t, fd, ev);
  }

  /** `AddEvent` for the running fiber is the step WaitEvent. */
  lemma WaitIsStep(s: State, t: Table, th: ThreadId, fd: nat, ev: Event)
    requires SameEvents(s, t) && fd < |t.fds| && CanPark(s, th)
    ensures ev !in t.fds[fd].events <==> Enabled(s, WaitEvent(th, fd, ev))
    ensures ev !in t.fds[fd].events ==>
              SameEvents(Apply(s, WaitEvent(th, fd, ev)), Put(t, fd, ev, Resumable(s.threads[th].pc.fiber)))
  {
    BitOfSlot(t, (fd, ev));
    WaitEffect(s, th, fd, ev);
    if ev !in t.fds[fd].events {
      SameAfterPut(s, t, fd, ev, Resumable(s.threads[th].pc.fiber), Apply(s, WaitEvent(th, fd, ev)));
    }
  }

  /** `AddEvent` with a callback is the step AddEventCall. */
  lemma AddIsStep(s: State, t: Table, th: ThreadId, fd: nat, ev: Event, tag: nat)
    requires SameEvents(s, t) && fd < |t.fds| && CanAct(s, th)
    ensures ev !in t.fds[fd].events <==> Enabled(s, AddEventCall(th, fd, ev, tag))
    ensures ev !in t.fds[fd].events ==>
              SameEvents(Apply(s, AddEventCall(th, fd, ev, tag)), Put(t, fd, ev, Call(User(tag))))
  {
    BitOfSlot(t, (fd, ev));
    AddEffect(s, th, fd, ev, tag);
    if ev !in t.fds[fd].events {
      SameAfterPut(s, t, fd, ev, Call(User(tag)), Apply(s, AddEventCall(th, fd, ev, tag)));
    }
  }

  lemma OneKey(fd: nat, ev: Event)
    ensures Keys(fd, {ev}) == {(fd, ev)}
  {
  }

  lemma OneBit(evs: set<Event>, ev: Event)
    requires ev in evs
    ensures |evs * {ev}| == 1
  {
    assert evs * {ev} == {ev};
  }

  lemma RetireOne(t: Table, fd: nat, ev: Event)
    requires TableOk(t) && fd < |t.fds| && ev in t.fds[fd].events
    ensures TableOk(Retire(t, fd, {ev})) && Retire(t, fd, {ev}).pending == t.pending - 1
    ensures Filled(Retire(t, fd, {ev}).fds) == Filled(t.fds) - {(fd, ev)}
  {
    RetireKeepsTable(t, fd, {ev});
    OneBit(t.fds[fd].events, ev);
    OneKey(fd, ev);
  }

  /** `DelEvent` is the step DelEvent. */
  lemma DelIsStep(s: State, t: Table, th: ThreadId, fd: nat, ev: Event)
    requires SameEvents(s, t) && fd < |t.fds| && CanAct(s, th)
    ensures ev in t.fds[fd].events <==> Enabled(s, DelEvent(th, fd, ev))
    ensures ev in t.fds[fd].events ==> SameEvents(Apply(s, DelEvent(th, fd, ev)), Retire(t, fd, {ev}))
  {
    BitOfSlot(t, (fd, ev));
    DelEffect(s, th, fd, ev);
    if ev in t.fds[fd].events {
      SameAfterRetire(s, t, fd, ev, Apply(s, DelEvent(th, fd, ev)));
    }
  }

  /** What a slot holds is what triggering it queues. */
  lemma QueuedOne(t: Table, fd: nat, ev: Event)
    requires TableOk(t) && fd < |t.fds| && ev in t.fds[fd].events
    ensures (fd, ev) in Filled(t.fds) && Queued(t.fds[fd], {ev}) == [Task(Filled(t.fds)[(fd, ev)], None)]
  {
    BitOfSlot(t, (fd, ev));
    match ev case Read => case Write =>
  }

  /** Triggering a slot on behalf of thread th and then decrementing the counter. */
  lemma FiredAndSettled(s: State, t: Table, th: ThreadId, fd: nat, ev: Event)
    requires SameEvents(s, t) && QueueInRange(s) && fd < |t.fds| && ev in t.fds[fd].events && th in s.threads
    ensures (fd, ev) in s.slots
    ensures var s1 := Fire(s, th, (fd, ev));
            && s1.slots == Filled(Retire(t, fd, {ev}).fds) && s1.pending == Retire(t, fd, {ev}).pending + 1
            && QueueInRange(s1) && ListOf(s1) == ListOf(s) + Queued(t.fds[fd], {ev})
  {
    RetireOne(t, fd, ev);
    QueuedOne(t, fd, ev);
    PushRefinesList(s, s.slots[(fd, ev)], None);
  }

  /** `CancelEvent` is the step CancelEvent followed by Settle: the same slots and counter, and the same tasks
      queued. */
  lemma CancelIsSteps(s: State, t: Table, th: ThreadId, fd: nat, ev: Event)
    requires SameEvents(s, t) && QueueInRange(s) && fd < |t.fds| && ev in t.fds[fd].events && CanAct(s, th)
    ensures Enabled(s, CancelEvent(th, fd, ev)) && Enabled(Apply(s, CancelEvent(th, fd, ev)), Settle(th))
    ensures var s2 := Apply(Apply(s, CancelEvent(th, fd, ev)), Settle(th));
            SameEvents(s2, Retire(t, fd, {ev})) && QueueInRange(s2) && ListOf(s2) == ListOf(s) + Queued(t.fds[fd], {ev})
  {
    FiredAndSettled(s, t, th, fd, ev);
    RetireOne(t, fd, ev);
  }

  /** One triggered bit of the event loop of Idle is the step Trigger followed by Settle. */
  lemma TriggerIsSteps(s: State, t: Table, th: ThreadId, fd: nat, ev: Event)
    requires SameEvents(s, t) && QueueInRange(s) && fd < |t.fds| && ev in t.fds[fd].events && IsPc(s, th, Handling)
    ensures Enabled(s, Trigger(th, fd, ev)) && Enabled(Apply(s, Trigger(th, fd, ev)), Settle(th))
    ensures var s2 := Apply(Apply(s, Trigger(th, fd, ev)), Settle(th));
            SameEvents(s2, Retire(t, fd, {ev})) && QueueInRange(s2) && ListOf(s2) == ListOf(s) + Queued(t.fds[fd], {ev})
  {
    FiredAndSettled(s, t, th, fd, ev);
    RetireOne(t, fd, ev);
  }
}
