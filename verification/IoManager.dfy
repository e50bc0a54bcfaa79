/**
  The event table of the I/O manager: per file descriptor its event bits and two slots, the
  kernel's interest list, and the pending counter. `EventTable` states what each operation
  does to the table and that it keeps three agreements: a slot is filled exactly when its
  bit is set, the kernel watches exactly the set bits, and the counter is the number of set
  bits over all descriptors. `IoManager` performs the operations in place.
*/
module EventTable {
  import opened Common
  import opened Protocol

  datatype FdView = FdView(events: set<Event>, read: Option<Work>, write: Option<Work>) {
    function Slot(ev: Event): Option<Work> {
      if ev == Read then read else write
    }

    /** A slot is filled exactly when its bit is set. */
    predicate Sound() {
      (Read in events <==> read.Some?) && (Write in events <==> write.Some?)
    }

    function Set(ev: Event, w: Work): FdView {
      if ev == Read then FdView(events + {ev}, Some(w), write) else FdView(events + {ev}, read, Some(w))
    }

    function Clear(gone: set<Event>): FdView {
      FdView(events - gone, if Read in gone then None else read, if Write in gone then None else write)
    }
  }

  const EMPTY_FD := FdView({}, None, None)

  datatype Table = Table(fds: seq<FdView>, interest: map<nat, set<Event>>, pending: int)

  /** All filled slots. */
  ghost function Filled(fds: seq<FdView>): map<(nat, Event), Work> {
    map i: nat, e: Event | i < |fds| && fds[i].Slot(e).Some? :: (i, e) := fds[i].Slot(e).value
  }

  /** All set bits. */
  ghost function SetBits(fds: seq<FdView>): set<(nat, Event)> {
    set i: nat, e: Event | i < |fds| && e in fds[i].events :: (i, e)
  }

  ghost predicate TableOk(t: Table) {
    Agrees(t.fds, t.interest) && t.pending == |Filled(t.fds)|
  }

  /** Slots match bits, and the kernel watches exactly the descriptors with set bits, for those bits. */
  ghost predicate Agrees(fds: seq<FdView>, interest: map<nat, set<Event>>) {
    && (forall i :: 0 <= i < |fds| ==> fds[i].Sound() && Watched(interest, i) == fds[i].events)
    && (forall fd :: fd in interest ==> fd < |fds| && interest[fd] != {})
  }

  function Watched(interest: map<nat, set<Event>>, fd: nat): set<Event> {
    if fd in interest then interest[fd] else {}
  }

  /** The kernel's list after its entry for fd became evs. */
  function Watch(interest: map<nat, set<Event>>, fd: nat, evs: set<Event>): map<nat, set<Event>> {
    if evs == {} then interest - {fd} else interest[fd := evs]
  }

  /** An event was added. */
  function Put(t: Table, fd: nat, ev: Event, w: Work): Table
    requires fd < |t.fds|
  {
    var v := t.fds[fd].Set(ev, w);
    Table(t.fds[fd := v], Watch(t.interest, fd, v.events), t.pending + 1)
  }

  /** The events gone of fd were removed. */
  function Retire(t: Table, fd: nat, gone: set<Event>): Table
    requires fd < |t.fds|
  {
    var v := t.fds[fd].Clear(gone);
    Table(t.fds[fd := v], Watch(t.interest, fd, v.events), t.pending - |t.fds[fd].events * gone|)
  }

  lemma SoundSlot(v: FdView, e: Event)
    requires v.Sound()
    ensures e in v.events <==> v.Slot(e).Some?
  {
    match e case Read => case Write =>
  }

  /** The pending counter counts set bits. */
  lemma PendingCountsBits(t: Table)
    requires TableOk(t)
    ensures t.pending == |SetBits(t.fds)|
    ensures SetBits(t.fds) == Filled(t.fds).Keys
  {
    forall key: (nat, Event) ensures key in SetBits(t.fds) <==> key in Filled(t.fds).Keys {
      if key.0 < |t.fds| {
        SoundSlot(t.fds[key.0], key.1);
      }
    }
    assert SetBits(t.fds) == Filled(t.fds).Keys;
    assert |Filled(t.fds).Keys| == |Filled(t.fds)|;
  }

  /** Which kernel operation is legal is read off the bits. */
  lemma KernelKnows(t: Table, fd: nat)
    requires TableOk(t) && fd < |t.fds|
    ensures fd in t.interest <==> t.fds[fd].events != {}
  {
    assert Watched(t.interest, fd) == t.fds[fd].events;
  }

  /** Slots of the other descriptors are not affected. */
  lemma FilledElsewhere(fds: seq<FdView>, fd: nat, v: FdView, key: (nat, Event))
    requires fd < |fds|
    ensures key.0 != fd ==> (key in Filled(fds[fd := v]) <==> key in Filled(fds))
    ensures key.0 != fd && key in Filled(fds) ==> Filled(fds[fd := v])[key] == Filled(fds)[key]
    ensures key.0 == fd ==> (key in Filled(fds[fd := v]) <==> v.Slot(key.1).Some?)
    ensures key.0 == fd && v.Slot(key.1).Some? ==> Filled(fds[fd := v])[key] == v.Slot(key.1).value
  {
  }

  lemma PutFills(fds: seq<FdView>, fd: nat, ev: Event, w: Work)
    requires fd < |fds|
    ensures Filled(fds[fd := fds[fd].Set(ev, w)]) == Filled(fds)[(fd, ev) := w]
  {
    var b := Filled(fds[fd := fds[fd].Set(ev, w)]);
    var c := Filled(fds)[(fd, ev) := w];
    forall key: (nat, Event) ensures key in b <==> key in c ensures key in b ==> b[key] == c[key] {
      FilledElsewhere(fds, fd, fds[fd].Set(ev, w), key);
    }
    assert b == c;
  }

  ghost function Keys(fd: nat, evs: set<Event>): set<(nat, Event)> {
    set e | e in evs :: (fd, e)
  }

  lemma RetireEmpties(fds: seq<FdView>, fd: nat, gone: set<Event>)
    requires fd < |fds|
    ensures Filled(fds[fd := fds[fd].Clear(gone)]) == Filled(fds) - Keys(fd, gone)
  {
    var b := Filled(fds[fd := fds[fd].Clear(gone)]);
    var c := Filled(fds) - Keys(fd, gone);
    forall key: (nat, Event) ensures key in b <==> key in c ensures key in b ==> b[key] == c[key] {
      FilledElsewhere(fds, fd, fds[fd].Clear(gone), key);
    }
    assert b == c;
  }

  lemma UpdateAgrees(fds: seq<FdView>, interest: map<nat, set<Event>>, fd: nat, v: FdView)
    requires Agrees(fds, interest) && fd < |fds| && v.Sound()
    ensures Agrees(fds[fd := v], Watch(interest, fd, v.events))
  {
    forall i | 0 <= i < |fds| ensures Watched(Watch(interest, fd, v.events), i) == fds[fd := v][i].events {
      assert Watched(interest, i) == fds[i].events;
    }
  }

  /** Adding an unset event keeps the table in order and fills exactly one slot. */
  lemma PutKeepsTable(t: Table, fd: nat, ev: Event, w: Work)
    requires TableOk(t) && fd < |t.fds| && ev !in t.fds[fd].events
    ensures TableOk(Put(t, fd, ev, w))
    ensures (fd, ev) !in Filled(t.fds) && Filled(Put(t, fd, ev, w).fds) == Filled(t.fds)[(fd, ev) := w]
  {
    SoundSlot(t.fds[fd], ev);
    UpdateAgrees(t.fds, t.interest, fd, t.fds[fd].Set(ev, w));
    PutFills(t.fds, fd, ev, w);
    var a, b := Filled(t.fds), Filled(t.fds)[(fd, ev) := w];
    assert b.Keys == a.Keys + {(fd, ev)} && |b.Keys| == |b| && |a.Keys| == |a|;
  }

  lemma FilledGrown(fds: seq<FdView>, grown: seq<FdView>, key: (nat, Event))
    requires fds <= grown && forall i :: |fds| <= i < |grown| ==> grown[i] == EMPTY_FD
    ensures key in Filled(grown) <==> key in Filled(fds)
    ensures key in Filled(fds) ==> Filled(grown)[key] == Filled(fds)[key]
  {
  }

  /** Adding contexts without events changes nothing. */
  lemma GrowKeepsTable(t: Table, fds: seq<FdView>)
    requires TableOk(t) && t.fds <= fds && forall i :: |t.fds| <= i < |fds| ==> fds[i] == EMPTY_FD
    ensures TableOk(t.(fds := fds)) && Filled(fds) == Filled(t.fds)
  {
    var a, b := Filled(t.fds), Filled(fds);
    forall key: (nat, Event) ensures key in b <==> key in a ensures key in a ==> b[key] == a[key] {
      FilledGrown(t.fds, fds, key);
    }
    assert a == b;
  }

  /** Removing events keeps the table in order and empties exactly their slots. */
  lemma RetireKeepsTable(t: Table, fd: nat, gone: set<Event>)
    requires TableOk(t) && fd < |t.fds|
    ensures TableOk(Retire(t, fd, gone))
    ensures Filled(Retire(t, fd, gone).fds) == Filled(t.fds) - Keys(fd, gone)
  {
    UpdateAgrees(t.fds, t.interest, fd, t.fds[fd].Clear(gone));
    RetireEmpties(t.fds, fd, gone);
    RetireCount(t, fd, gone);
  }

  lemma RetireCount(t: Table, fd: nat, gone: set<Event>)
    requires TableOk(t) && fd < |t.fds|
    ensures |Filled(t.fds) - Keys(fd, gone)| == |Filled(t.fds)| - |t.fds[fd].events * gone|
  {
    var a, hit := Filled(t.fds), Keys(fd, t.fds[fd].events * gone);
    forall key | key in hit ensures key in a {
      SoundSlot(t.fds[fd], key.1);
    }
    forall key | key in a && key in Keys(fd, gone) ensures key in hit {
      SoundSlot(t.fds[fd], key.1);
    }
    var b := a - Keys(fd, gone);
    assert b.Keys == a.Keys - hit && |b.Keys| == |b| && |a.Keys| == |a|;
    KeysSize(fd, t.fds[fd].events * gone);
  }

  lemma KeysSize(fd: nat, evs: set<Event>)
    ensures |Keys(fd, evs)| == |evs|
  {
    if evs != {} {
      var e :| e in evs;
      KeysSize(fd, evs - {e});
      assert Keys(fd, evs) == Keys(fd, evs - {e}) + {(fd, e)};
    }
  }
}

module IoManager {
  import opened Common
  import opened Protocol
  import opened Scheduler
  import opened EventTable
  import opened EventLoop

  datatype CtlOp = CtlAdd | CtlMod | CtlDel

  /** The kernel's side of one epoll descriptor. */
  class Epoll {
    var interest: map<nat, set<Event>>

    constructor ()
      ensures interest == map[]
    {
      interest := map[];
    }

    /** epoll_ctl: adding a watched descriptor, or changing or removing an unwatched one, is refused; a
        legal operation may still fail for reasons of the kernel (`fault`). */
    method Ctl(op: CtlOp, fd: nat, events: set<Event>, fault: bool) returns (ok: bool)
      modifies this
      ensures ok <==> (op == CtlAdd <==> fd !in old(interest)) && !fault
      ensures interest == if !ok then old(interest)
                          else if op == CtlDel then old(interest) - {fd} else old(interest)[fd := events]
    {
      ok := (op == CtlAdd <==> fd !in interest) && !fault;
      if ok {
        interest := if op == CtlDel then interest - {fd} else interest[fd := events];
      }
    }
  }

  class FdContext {
    var events: set<Event>
    var read: Option<Work>
    var write: Option<Work>

    constructor ()
      ensures View() == EMPTY_FD
    {
      events, read, write := {}, None, None;
    }

    function View(): FdView
      reads this
    {
      FdView(events, read, write)
    }

    method AddSlot(ev: Event, w: Work)
      modifies this
      ensures View() == old(View()).Set(ev, w)
    {
      events := events + {ev};
      if ev == Read {
        read := Some(w);
      } else {
        write := Some(w);
      }
    }

    /** `ReSetContext` of one slot together with its bit. */
    method ResetContext(ev: Event)
      modifies this
      ensures View() == old(View()).Clear({ev})
    {
      events := events - {ev};
      if ev == Read {
        read := None;
      } else {
        write := None;
      }
    }

    /** `TriggerEvent`: clear the bit, schedule what the slot holds, empty the slot. The caller has
        checked the bit, as the assertion demands. */
    method TriggerEvent(ev: Event, sched: Scheduler)
      requires View().Sound() && ev in events
      modifies this, sched`list
      ensures View() == old(View()).Clear({ev})
      ensures sched.list == old(sched.list) + Queued(old(View()), {ev})
    {
      var w := if ev == Read then read else write;
      var _ := sched.Schedule(Entry(w, None));
      ResetContext(ev);
    }
  }

  datatype AddOutcome = Added | Refused | Duplicate

  /** What handling one reported event comes to; `Aborted` is the failed assertion of TriggerEvent. */
  datatype HandleOutcome = Handled | Skipped | Aborted

  class IOManager {
    const sched: Scheduler
    const epoll: Epoll
    var fds: seq<FdContext>
    var pending: int

    ghost var view: seq<FdView>   // what the contexts hold

    ghost predicate Valid()
      reads this, fds, epoll
    {
      |fds| >= 32 && Viewed() && TableOk(Abs())
    }

    ghost predicate Viewed()
      reads this, fds
    {
      && |view| == |fds|
      && (forall i :: 0 <= i < |fds| ==> view[i] == fds[i].View())
      && (forall i, j :: 0 <= i < j < |fds| ==> fds[i] != fds[j])
    }

    ghost function Abs(): Table
      reads this, epoll
    {
      Table(view, epoll.interest, pending)
    }

    constructor (sched: Scheduler)
      ensures Valid() && pending == 0 && Filled(view) == map[]
      ensures this.sched == sched && fresh(epoll) && forall i :: 0 <= i < |fds| ==> fresh(fds[i])
    {
      this.sched := sched;
      epoll := new Epoll();
      fds, pending, view := [], 0, [];
      new;
      Resize(32);
    }

    /** `ContextResize`: empty contexts are added; existing ones are kept. */
    method Resize(size: nat)
      requires Viewed() && |fds| <= size
      modifies this`fds, this`view
      ensures Viewed() && |fds| == size && old(fds) <= fds && old(view) <= view
      ensures forall i :: |old(fds)| <= i < size ==> fresh(fds[i]) && view[i] == EMPTY_FD
    {
      while |fds| < size
        invariant |fds| <= size && old(fds) <= fds && old(view) <= view && Viewed()
        invariant forall i :: |old(fds)| <= i < |fds| ==> fresh(fds[i]) && view[i] == EMPTY_FD
      {
        var ctx := new FdContext();
        fds := fds + [ctx];
        view := view + [EMPTY_FD];
      }
    }

    /** Count and store one event, after the kernel has accepted it. */
    method Fill(fd: nat, ev: Event, w: Work)
      requires Viewed() && fd < |fds|
      modifies this`pending, this`view, fds[fd]
      ensures Viewed() && view == old(view)[fd := old(view)[fd].Set(ev, w)] && pending == old(pending) + 1
    {
      pending := pending + 1;
      fds[fd].AddSlot(ev, w);
      view := view[fd := fds[fd].View()];
    }

    /** Uncount and drop one event. */
    method Drop(fd: nat, ev: Event)
      requires Viewed() && fd < |fds|
      modifies this`pending, this`view, fds[fd]
      ensures Viewed() && view == old(view)[fd := old(view)[fd].Clear({ev})] && pending == old(pending) - 1
    {
      pending := pending - 1;
      fds[fd].ResetContext(ev);
      view := view[fd := fds[fd].View()];
    }

    /** Trigger one set event, then uncount it. */
    method Fire(fd: nat, ev: Event)
      requires Viewed() && fd < |fds| && view[fd].Sound() && ev in view[fd].events
      modifies this`pending, this`view, fds[fd], sched`list
      ensures Viewed() && view == old(view)[fd := old(view)[fd].Clear({ev})] && pending == old(pending) - 1
      ensures sched.list == old(sched.list) + Queued(old(view)[fd], {ev})
    {
      fds[fd].TriggerEvent(ev, sched);
      pending := pending - 1;
      view := view[fd := fds[fd].View()];
    }

    /** Store an event the kernel has accepted: the table was in order before the kernel was asked. */
    method Attach(fd: nat, ev: Event, w: Work, ghost was: Table)
      requires Viewed() && fd < |fds| && |fds| >= 32 && TableOk(was) && was.fds == view && was.pending == pending
      requires ev !in view[fd].events && epoll.interest == Watch(was.interest, fd, view[fd].events + {ev})
      modifies this`pending, this`view, fds[fd]
      ensures Valid() && Abs() == Put(was, fd, ev, w)
    {
      Fill(fd, ev, w);
      assert Abs() == Put(was, fd, ev, w);
      PutKeepsTable(was, fd, ev, w);
    }

    /** The locked part of `AddEvent`. */
    method Register(fd: nat, ev: Event, w: Work, fault: bool) returns (r: AddOutcome)
      requires Valid() && fd < |fds|
      modifies this`pending, this`view, fds[fd], epoll
      ensures Valid()
      ensures r == Duplicate <==> ev in old(view)[fd].events
      ensures r == Refused <==> ev !in old(view)[fd].events && fault
      ensures Abs() == if r == Added then Put(old(Abs()), fd, ev, w) else old(Abs())
    {
      var ctx := fds[fd];
      ghost var was := Abs();
      if ev in ctx.events {
        return Duplicate;
      }
      KernelKnows(was, fd);
      var op := if ctx.events != {} then CtlMod else CtlAdd;
      var ok := epoll.Ctl(op, fd, ctx.events + {ev}, fault);
      if !ok {
        return Refused;
      }
      Attach(fd, ev, w, was);
      r := Added;
    }

    /** The lookup in `AddEvent`: a descriptor past the end makes the table grow. */
    method Reach(fd: nat)
      requires Valid()
      modifies this`fds, this`view
      ensures Valid() && fd < |fds| && Filled(view) == Filled(old(view))
      ensures |fds| == if |old(fds)| <= fd then fd * 3 / 2 else |old(fds)|
      ensures old(fds) <= fds && forall i :: |old(fds)| <= i < |fds| ==> fresh(fds[i])
    {
      if |fds| <= fd {
        ghost var was := Abs();
        Resize(fd * 3 / 2);
        GrowKeepsTable(was, view);
      }
    }

    /** `AddEvent` with the callback, or for the running fiber when there is none. With no kernel fault
        it fails only on an event that is already there. */
    method AddEvent(fd: nat, ev: Event, cb: Option<Callback>, running: FiberId, fault: bool) returns (r: AddOutcome)
      requires Valid()
      modifies this, fds, epoll
      ensures Valid() && old(fds) <= fds && (forall i :: |old(fds)| <= i < |fds| ==> fresh(fds[i]))
      ensures |fds| == if |old(fds)| <= fd then fd * 3 / 2 else |old(fds)|
      ensures r == Duplicate <==> (fd, ev) in Filled(old(view))
      ensures r == Refused <==> (fd, ev) !in Filled(old(view)) && fault
      ensures var w := if cb.Some? then Call(cb.value) else Resumable(running);
              Filled(view) == if r == Added then Filled(old(view))[(fd, ev) := w] else Filled(old(view))
    {
      Reach(fd);
      var w := if cb.Some? then Call(cb.value) else Resumable(running);
      SoundSlot(view[fd], ev);
      if ev !in view[fd].events {
        PutKeepsTable(Abs(), fd, ev, w);
      }
      r := Register(fd, ev, w, fault);
    }

    /** `DelEvent`: drop the slot without triggering it. */
    method DelEvent(fd: nat, ev: Event, fault: bool) returns (ok: bool)
      requires Valid()
      modifies this`pending, this`view, fds, epoll
      ensures Valid()
      ensures ok <==> fd < |fds| && ev in old(view)[fd].events && !fault
      ensures Abs() == if ok then Retire(old(Abs()), fd, {ev}) else old(Abs())
    {
      if |fds| <= fd || ev !in fds[fd].events {
        return false;
      }
      ghost var was := Abs();
      KernelKnows(was, fd);
      var left := fds[fd].events - {ev};
      ok := epoll.Ctl(if left != {} then CtlMod else CtlDel, fd, left, fault);
      if ok {
        Drop(fd, ev);
        assert was.fds[fd].events * {ev} == {ev};
        assert Abs() == Retire(was, fd, {ev});
        RetireKeepsTable(was, fd, {ev});
      }
    }

    /** Trigger a set of set events, Read first. */
    method FireAll(fd: nat, acts: set<Event>)
      requires Viewed() && fd < |fds| && view[fd].Sound() && acts <= view[fd].events
      modifies this`pending, this`view, fds[fd], sched`list
      ensures Viewed() && view == old(view)[fd := old(view)[fd].Clear(acts)] && pending == old(pending) - |acts|
      ensures sched.list == old(sched.list) + Queued(old(view)[fd], acts)
    {
      ghost var v := view[fd];
      if Read in acts {
        Fire(fd, Read);
      }
      ghost var first, second := if Read in acts then {Read} else {}, if Write in acts then {Write} else {};
      assert view[fd] == v.Clear(first);
      if Write in acts {
        Fire(fd, Write);
      }
      forall e | e in acts ensures e in first + second {
        match e case Read => case Write =>
      }
      assert acts == first + second;
      assert view[fd] == v.Clear(acts);
    }

    /** Take some set events back from the kernel and trigger them; what `CancelEvent`, `CancelAll` and the
        event loop of Idle have in common. */
    method Withdraw(fd: nat, acts: set<Event>, fault: bool) returns (ok: bool)
      requires Valid() && fd < |fds| && acts <= view[fd].events && view[fd].events != {}
      modifies this`pending, this`view, fds[fd], epoll, sched`list
      ensures Valid() && (ok <==> !fault)
      ensures Abs() == if ok then Retire(old(Abs()), fd, acts) else old(Abs())
      ensures sched.list == old(sched.list) + if ok then Queued(old(view)[fd], acts) else []
      ensures |sched.list| + pending == |old(sched.list)| + old(pending)
    {
      ghost var was := Abs();
      KernelKnows(was, fd);
      QueuedLength(view[fd], acts);
      var left := fds[fd].events - acts;
      ok := epoll.Ctl(if left != {} then CtlMod else CtlDel, fd, left, fault);
      if ok {
        FireAll(fd, acts);
        assert was.fds[fd].events * acts == acts;
        assert Abs() == Retire(was, fd, acts);
        RetireKeepsTable(was, fd, acts);
      }
    }

    /** `CancelEvent`: trigger the slot once, then forget it. */
    method CancelEvent(fd: nat, ev: Event, fault: bool) returns (ok: bool)
      requires Valid()
      modifies this`pending, this`view, fds, epoll, sched`list
      ensures Valid()
      ensures ok <==> fd < |fds| && ev in old(view)[fd].events && !fault
      ensures Abs() == if ok then Retire(old(Abs()), fd, {ev}) else old(Abs())
      ensures sched.list == old(sched.list) + if ok then Queued(old(view)[fd], {ev}) else []
    {
      if |fds| <= fd || ev !in fds[fd].events {
        return false;
      }
      ok := Withdraw(fd, {ev}, fault);
    }

    /** `CancelAll`: one kernel removal, then every set bit of the descriptor is triggered. */
    method CancelAll(fd: nat, fault: bool) returns (ok: bool)
      requires Valid()
      modifies this`pending, this`view, fds, epoll, sched`list
      ensures Valid()
      ensures ok <==> fd < |fds| && old(view)[fd].events != {} && !fault
      ensures Abs() == if ok then Retire(old(Abs()), fd, old(view)[fd].events) else old(Abs())
      ensures sched.list == old(sched.list) + if ok then Queued(old(view)[fd], old(view)[fd].events) else []
    {
      if |fds| <= fd || fds[fd].events == {} {
        return false;
      }
      ok := Withdraw(fd, fds[fd].events, fault);
    }

    /** One turn of the event loop of Idle. The assertion of TriggerEvent fails exactly when the report is
        partly stale: some reported bit is registered and another is not. Otherwise every reported bit is
        triggered and forgotten. */
    method HandleEvent(rep: Report, fault: bool) returns (r: HandleOutcome)
      requires Valid() && rep.fd < |fds|
      modifies this`pending, this`view, fds, epoll, sched`list
      ensures r != Aborted ==> Valid()
      ensures var reg := old(view)[rep.fd].events; var acts := RealEvents(rep, reg);
              && (r == Skipped <==> acts * reg == {} || fault)
              && (r == Aborted <==> acts * reg != {} && !fault && !(acts <= reg))
              && (r == Skipped ==> Abs() == old(Abs()) && sched.list == old(sched.list))
              && (r == Handled ==> && Abs() == Retire(old(Abs()), rep.fd, acts)
                                   && sched.list == old(sched.list) + Queued(old(view)[rep.fd], acts))
    {
      var fd := rep.fd;
      var acts := rep.events + (if rep.errorOrHangup then fds[fd].events else {});
      if acts * fds[fd].events == {} {
        return Skipped;
      }
      if acts <= fds[fd].events {
        var ok := Withdraw(fd, acts, fault);
        return if ok then Handled else Skipped;
      }
      KernelKnows(Abs(), fd);
      var left := fds[fd].events - acts;
      var ok := epoll.Ctl(if left != {} then CtlMod else CtlDel, fd, left, fault);
      r := if ok then Aborted else Skipped;
    }

    /** The table and the list of tasks. */
    ghost function Now(): Loop
      reads this, epoll, sched
    {
      Loop(Abs(), sched.list)
    }

    /** The outcome of one turn, against the turn on values. */
    method TakeTurn(rep: Report, fault: bool) returns (aborted: bool)
      requires Valid() && rep.fd < |fds|
      modifies this`pending, this`view, fds, epoll, sched`list
      ensures aborted <==> PartlyStale(old(Abs()), rep, fault)
      ensures !aborted ==> Valid() && Turn(old(Now()), rep, fault, Now())
    {
      var r := HandleEvent(rep, fault);
      aborted := r == Aborted;
    }

    /** Where the loop stands: all turns so far went well, or the last one failed. */
    ghost predicate Stands(trace: seq<Loop>, reports: seq<Report>, faults: seq<bool>, k: nat, aborted: bool)
      reads this, fds, epoll, sched
    {
      && IsBatch(trace, reports, faults) && k <= |reports|
      && if aborted then |trace| == k && FailsAfter(trace, reports, faults)
         else Valid() && |trace| == k + 1 && trace[k] == Now()
    }

    /** One turn of the loop. */
    method NextTurn(reports: seq<Report>, faults: seq<bool>, k: nat, ghost trace: seq<Loop>)
      returns (aborted: bool, ghost trace': seq<Loop>)
      requires Stands(trace, reports, faults, k, false) && k < |reports| && reports[k].fd < |fds|
      modifies this`pending, this`view, fds, epoll, sched`list
      ensures Stands(trace', reports, faults, k + 1, aborted) && trace'[0] == trace[0]
    {
      aborted := TakeTurn(reports[k], faults[k]);
      trace' := trace;
      if !aborted {
        BatchGrows(trace, reports, faults, Now());
        trace' := trace + [Now()];
      }
    }

    /** The event loop of Idle over one batch of reports. It aborts exactly when some report is partly stale at its
        own turn; otherwise every report has had its turn. The lemmas of `EventLoop` say what a batch of turns
        amounts to. */
    method HandleEvents(reports: seq<Report>, faults: seq<bool>) returns (aborted: bool, ghost trace: seq<Loop>)
      requires Valid() && |faults| == |reports| && forall k :: 0 <= k < |reports| ==> reports[k].fd < |fds|
      modifies this`pending, this`view, fds, epoll, sched`list
      ensures IsBatch(trace, reports, faults) && trace[0] == old(Now())
      ensures !aborted ==> Valid() && |trace| == |reports| + 1 && trace[|reports|] == Now()
      ensures aborted ==> FailsAfter(trace, reports, faults)
    {
      var k := 0;
      aborted, trace := false, [Now()];
      while k < |reports| && !aborted
        invariant 0 <= k <= |reports| && fds == old(fds) && Stands(trace, reports, faults, k, aborted)
        invariant trace[0] == old(Now())
      {
        aborted, trace := NextTurn(reports, faults, k, trace);
        k := k + 1;
      }
    }
  }
}
