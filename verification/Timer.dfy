/**
  The order of the timer set and what it means for expiry. `std::set` keeps the timers by
  deadline and, for equal deadlines, by address; every lookup goes through this order.
*/
module TimerOrder {
  import opened Common

  /** What the comparator looks at. */
  datatype Key = Key(next: nat, addr: nat)

  /** `Timer::Comparator` on non-null timers. */
  predicate Less(a: Key, b: Key) {
    if a.next < b.next then true
    else if a.next > b.next then false
    else a.addr < b.addr
  }

  predicate Sorted(ks: seq<Key>) {
    forall i, j :: 0 <= i < j < |ks| ==> Less(ks[i], ks[j])
  }

  /** i is where `lower_bound` lands for key k. */
  predicate IsLowerBound(ks: seq<Key>, k: Key, i: nat) {
    && i <= |ks|
    && (forall j :: 0 <= j < i ==> Less(ks[j], k))
    && (i < |ks| ==> !Less(ks[i], k))
  }

  function Inserted(ks: seq<Key>, i: nat, k: Key): seq<Key>
    requires i <= |ks|
  {
    ks[..i] + [k] + ks[i..]
  }

  function Erased(ks: seq<Key>, i: nat): seq<Key>
    requires i < |ks|
  {
    ks[..i] + ks[i + 1..]
  }

  /** A key that is in the set is found where the search lands; one that is not has a free place there. */
  lemma SearchFinds(ks: seq<Key>, k: Key, i: nat)
    requires Sorted(ks) && IsLowerBound(ks, k, i)
    ensures k in ks <==> i < |ks| && ks[i] == k
    ensures k !in ks && (forall j :: 0 <= j < |ks| ==> ks[j].addr != k.addr) ==> Sorted(Inserted(ks, i, k))
  {
    if k in ks {
      var j :| 0 <= j < |ks| && ks[j] == k;
      assert j >= i;
    }
    if k !in ks && (forall j :: 0 <= j < |ks| ==> ks[j].addr != k.addr) {
      assert forall j :: i <= j < |ks| ==> Less(k, ks[j]);
    }
  }

  lemma ErasedSorted(ks: seq<Key>, i: nat)
    requires Sorted(ks) && i < |ks|
    ensures Sorted(Erased(ks, i)) && ks[i] !in Erased(ks, i)
    ensures forall k :: k in Erased(ks, i) <==> k in ks && k != ks[i]
  {
    forall k | k in ks && k != ks[i] ensures k in Erased(ks, i) {
      var j :| 0 <= j < |ks| && ks[j] == k;
      assert Erased(ks, i)[if j < i then j else j - 1] == k;
    }
  }

  /** n is the end of the expired prefix. */
  predicate IsDue(ks: seq<Key>, now: nat, n: nat) {
    && n <= |ks|
    && (forall j :: 0 <= j < n ==> ks[j].next <= now)
    && (forall j :: n <= j < |ks| ==> ks[j].next > now)
  }

  /** Wherever the probe's address sorts among equal deadlines, skipping the deadlines equal to now from
      the probe's lower bound ends exactly after the timers whose deadline has come. */
  lemma ProbeAddressIsIrrelevant(ks: seq<Key>, now: nat, probe: nat, i: nat, n: nat)
    requires Sorted(ks) && IsLowerBound(ks, Key(now, probe), i)
    requires i <= n <= |ks| && (forall j :: i <= j < n ==> ks[j].next == now) && (n < |ks| ==> ks[n].next != now)
    ensures IsDue(ks, now, n)
  {
    forall j | n <= j < |ks| ensures ks[j].next > now {
      assert !Less(ks[i], Key(now, probe));
      if n < j {
        assert Less(ks[n], ks[j]);
      }
      if i < n {
        assert Less(ks[i], ks[n]);
      }
    }
  }

  /** New keys at or after now never undercut a front that was due. */
  lemma FrontKept(ks: seq<Key>, ks': seq<Key>, now: nat, n: nat)
    requires Sorted(ks) && IsDue(ks, now, n) && (n == 0 ==> ks' == ks)
    requires forall k :: k in ks' ==> k in ks || k.next >= now
    ensures |ks'| > 0 ==> |ks| > 0 && ks[0].next <= ks'[0].next
  {
    if |ks'| > 0 && ks'[0] in ks {
      var j :| 0 <= j < |ks| && ks[j] == ks'[0];
      assert j > 0 ==> Less(ks[0], ks[j]);
    } else if |ks'| > 0 {
      assert ks'[0] in ks';
    }
  }

  function Add64(a: nat, b: nat): nat {
    (a + b) % TWO64
  }

  lemma NoWrap(a: nat, b: nat)
    requires a + b < TWO64
    ensures Add64(a, b) == a + b
  {
  }

  function Sub64(a: nat, b: nat): (r: nat) {
    (a - b) % TWO64
  }

  /** The deadline `Reset` computes: the new period from now or from the old start. */
  function ResetDeadline(next: nat, period: nat, ms: nat, fromNow: bool, now: nat): nat {
    Add64(if fromNow then now else Sub64(next, period), ms)
  }

  /** A reset from now ends one new period from now; any other reset keeps the start of the timer. */
  lemma ResetDeadlineMeaning(next: nat, period: nat, ms: nat, fromNow: bool, now: nat)
    ensures fromNow && now + ms < TWO64 ==> ResetDeadline(next, period, ms, fromNow, now) == now + ms
    ensures !fromNow && period <= next && next - period + ms < TWO64 ==>
              ResetDeadline(next, period, ms, fromNow, now) == next - period + ms
  {
    if !fromNow && period <= next && next - period + ms < TWO64 {
      assert Sub64(next, period) == next - period;
    }
  }

  lemma ResetDeadlineStarted(next: nat, period: nat, ms: nat, fromNow: bool, now: nat)
    requires period <= next <= now + period && now + ms < TWO64
    ensures ms <= ResetDeadline(next, period, ms, fromNow, now) <= now + ms
  {
    ResetDeadlineMeaning(next, period, ms, fromNow, now);
  }

  function Later(a: nat, b: nat): nat {
    if b > a then b else a
  }

  const HOUR: nat := 60 * 60 * 1000

  /** `DetectClockRollover`: the comparison is made in 64-bit unsigned arithmetic. */
  predicate RolledOver(now: nat, previous: nat) {
    now < previous && now < Sub64(previous, HOUR)
  }

  /** A rollover is a step back of more than an hour; while the clock is still below one hour, where the
      subtraction wraps around, any step back counts. */
  lemma RolloverMeaning(now: nat, previous: nat)
    requires previous < TWO64
    ensures RolledOver(now, previous) <==> if previous >= HOUR then now + HOUR < previous else now < previous
  {
  }
}

/**
  `TimerManager` and the timers it hands out, updated in place. A timer is in the set exactly
  while its callback is set, keys change only while the timer is outside the set, and with a
  clock that does not run backwards a deadline earlier than the one the event loop last
  planned for is always announced, once.
*/
module TimerManager {
  import opened Common
  import opened TimerOrder

  class Timer {
    const addr: nat
    const recurring: bool
    ghost const hollow: bool        // created with an empty callback
    var ms: nat
    var next: nat
    var callback: Option<nat>

    constructor (ms: nat, callback: Option<nat>, recurring: bool, next: nat, addr: nat)
      ensures this.ms == ms && this.callback == callback && this.recurring == recurring
      ensures this.next == next && this.addr == addr && hollow == callback.None?
    {
      this.addr, this.recurring, this.hollow := addr, recurring, callback.None?;
      this.ms, this.next, this.callback := ms, next, callback;
    }

    function Place(): Key
      reads this
    {
      Key(next, addr)
    }
  }

  class TimerManager {
    var timers: seq<Timer>          // the ordered set, in order
    var tickled: bool
    var previous: nat
    ghost var keys: seq<Key>        // the keys of the set, in order
    ghost var all: set<Timer>       // every timer created here
    ghost var seen: Option<nat>     // the earliest deadline GetNextTimeout last saw; None if there was none
    ghost var notified: nat         // OnTimerInsertedAtFront calls since then
    ghost var clock: nat            // the latest clock reading

    ghost predicate Valid()
      reads this, all
    {
      && InOrder()
      && (forall t, u :: t in all && u in all && t != u ==> t.addr != u.addr)
      && (forall t :: t in all ==> Consistent(t))
    }

    /** The set is in order by the current keys of its timers. */
    ghost predicate InOrder()
      reads this, all
    {
      && |keys| == |timers| && Sorted(keys)
      && (forall i :: 0 <= i < |timers| ==> timers[i] in all && keys[i] == timers[i].Place())
    }

    /** In the set exactly while the callback is set; a timer created without one stays until it expires. */
    ghost predicate Consistent(t: Timer)
      reads this, t
    {
      if t.hollow then t.callback == None else t.callback.Some? <==> t in timers
    }

    /** A deadline earlier than the one last planned for is announced, and nothing is announced twice. */
    ghost predicate Announced()
      reads this
    {
      && notified == (if tickled then 1 else 0)
      && (|keys| > 0 && !tickled ==> seen.Some? && seen.value <= keys[0].next)
    }

    /** Every timer in the set was started by the present clock, and its deadline did not wrap around. */
    ghost predicate Started()
      reads this, all
    {
      forall t :: t in all && t in timers ==> t.ms <= t.next <= clock + t.ms
    }

    ghost function Members(): set<Timer>
      reads this
    {
      set t | t in timers
    }

    constructor (now: nat)
      ensures Valid() && Announced() && Started() && timers == [] && all == {} && !tickled && previous == now
    {
      timers, tickled, previous, keys, all := [], false, now, [], {};
      seen, notified, clock := None, 0, now;
    }

    /** `lower_bound`, by the comparator. */
    method LowerBound(k: Key) returns (i: nat)
      requires InOrder()
      ensures IsLowerBound(keys, k, i)
    {
      i := 0;
      while i < |timers| && Less(timers[i].Place(), k)
        invariant 0 <= i <= |timers|
        invariant forall j :: 0 <= j < i ==> Less(keys[j], k)
      {
        i := i + 1;
      }
    }

    /** `find`, by the comparator: it never misses a timer that is in the set. */
    method Find(t: Timer) returns (i: int)
      requires Valid() && t in all
      ensures -1 <= i < |timers| && (i >= 0 <==> t in timers)
      ensures i >= 0 ==> timers[i] == t
    {
      i := LowerBound(t.Place());
      SearchFinds(keys, t.Place(), i);
      if i == |timers| || Less(t.Place(), timers[i].Place()) {
        i := -1;
      }
    }

    /** `erase` of one position. */
    method Erase(i: nat)
      requires InOrder() && i < |timers|
      modifies this`timers, this`keys
      ensures InOrder() && timers == old(timers)[..i] + old(timers)[i + 1..] && keys == Erased(old(keys), i)
      ensures old(timers[i]) !in timers
      ensures forall t :: t in timers <==> t in old(timers) && t != old(timers[i])
    {
      ErasedSorted(keys, i);
      ghost var gone, was := timers[i], timers;
      timers := timers[..i] + timers[i + 1..];
      keys := Erased(keys, i);
      forall t | t in was && t != gone ensures t in timers {
        var j :| 0 <= j < |was| && was[j] == t;
        assert timers[if j < i then j else j - 1] == t;
      }
      forall j | 0 <= j < |timers| ensures timers[j] != gone {
        assert keys[j] in keys;
      }
    }

    /** `insert` of a timer that is outside the set; the result is its position. */
    method Insert(t: Timer) returns (i: nat)
      requires InOrder() && t in all && t !in timers
      requires forall u :: u in all && u != t ==> u.addr != t.addr
      modifies this`timers, this`keys
      ensures InOrder() && i <= |old(timers)| && i < |timers| && timers[i] == t
      ensures timers == old(timers)[..i] + [t] + old(timers)[i..] && keys == Inserted(old(keys), i, t.Place())
      ensures forall u :: u in timers <==> u == t || u in old(timers)
    {
      i := LowerBound(t.Place());
      SearchFinds(keys, t.Place(), i);
      forall j | 0 <= j < |keys| ensures keys[j].addr != t.addr {
        assert timers[j] in timers;
      }
      assert t.Place() !in keys;
      timers := timers[..i] + [t] + timers[i..];
      keys := Inserted(keys, i, t.Place());
    }

    /** `Timer::Cancel`. */
    method Cancel(t: Timer) returns (r: bool)
      requires Valid() && t in all
      modifies this`timers, this`keys, t`callback
      ensures Valid() && r == old(t.callback).Some? && t.callback == None
      ensures Members() == if r then old(Members()) - {t} else old(Members())
      ensures old(Announced()) ==> Announced()
      ensures old(Started()) ==> Started()
    {
      r := t.callback.Some?;
      if r {
        t.callback := None;
        var i := LowerBound(t.Place());
        SearchFinds(keys, t.Place(), i);
        Erase(i);
      }
    }

    /** The locked `AddTimer`: insert, and announce a new front unless one is already announced. */
    method InsertAndAnnounce(t: Timer)
      requires InOrder() && t in all && t !in timers
      requires forall u :: u in all && u != t ==> u.addr != t.addr
      modifies this`timers, this`keys, this`tickled, this`notified
      ensures InOrder() && timers != [] && forall u :: u in timers <==> u == t || u in old(timers)
      ensures tickled <==> old(tickled) || timers[0] == t
      ensures notified == old(notified) + if timers[0] == t && !old(tickled) then 1 else 0
      ensures old(Announced()) ==> Announced()
    {
      var i := Insert(t);
      var atFront := i == 0 && !tickled;
      if atFront {
        tickled := true;
        notified := notified + 1;
      }
    }

    /** `AddTimer`: the clock is read before the lock is taken. */
    method AddTimer(ms: nat, callback: Option<nat>, recurring: bool, now: nat, addr: nat) returns (t: Timer)
      requires Valid() && forall u :: u in all ==> u.addr != addr
      modifies this
      ensures Valid() && fresh(t) && all == old(all) + {t} && Members() == old(Members()) + {t}
      ensures timers != [] && (tickled <==> old(tickled) || timers[0] == t)
      ensures t.ms == ms && t.callback == callback && t.recurring == recurring && t.next == Add64(now, ms)
      ensures old(Announced()) ==> Announced()
      ensures old(Started()) && now + ms < TWO64 ==> Started()
      ensures clock == Later(old(clock), now)
    {
      t := new Timer(ms, callback, recurring, Add64(now, ms), addr);
      all := all + {t};
      clock := Later(clock, now);
      InsertAndAnnounce(t);
    }

    /** A timer that is outside the set and that nobody refers to any more is freed; its address may be used
        again. */
    ghost method Forget(t: Timer)
      requires Valid() && t in all && t !in timers
      modifies this`all
      ensures Valid() && all == old(all) - {t}
      ensures old(Announced()) ==> Announced()
      ensures old(Started()) ==> Started()
    {
      all := all - {t};
    }

    /** Take a timer out, give it a new deadline, and put it back. */
    method Rekey(t: Timer, i: nat, next: nat)
      requires Valid() && i < |timers| && timers[i] == t
      modifies this`timers, this`keys, t`next
      ensures Valid() && (forall u :: u in timers <==> u in old(timers)) && t.next == next && |keys| == |old(keys)|
      ensures next >= old(t.next) ==> keys[0].next >= old(keys)[0].next
    {
      Erase(i);
      assert |keys| > 0 ==> keys[0].next >= old(keys)[0].next;
      t.next := next;
      var _ := Insert(t);
    }

    /** Start a timer of the set afresh; with a clock that does not run back its deadline never gets earlier. */
    method Restart(t: Timer, i: nat, now: nat)
      requires Valid() && i < |timers| && timers[i] == t
      modifies this`timers, this`keys, t`next
      ensures Valid() && (forall u :: u in timers <==> u in old(timers)) && t.next == Add64(now, t.ms)
      ensures |keys| == |old(keys)|
      ensures now + t.ms < TWO64 && old(t.next) <= now + t.ms ==>
                t.next == now + t.ms && keys[0].next >= old(keys)[0].next
    {
      if now + t.ms < TWO64 {
        NoWrap(now, t.ms);
      }
      Rekey(t, i, Add64(now, t.ms));
    }

    /** `Timer::Refresh`. */
    method Refresh(t: Timer, now: nat) returns (r: bool)
      requires Valid() && t in all
      modifies this`timers, this`keys, this`clock, t`next
      ensures Valid() && r == t.callback.Some? && (forall u :: u in timers <==> u in old(timers))
      ensures t.next == if r then Add64(now, t.ms) else old(t.next)
      ensures old(Announced() && Started()) && old(clock) <= now && now + t.ms < TWO64 ==> Announced() && Started()
    {
      r := false;
      if t.callback.Some? {
        var i := Find(t);
        if i >= 0 {
          Restart(t, i, now);
          clock := Later(clock, now);
          r := true;
        }
      }
    }

    /** The locked part of `Reset`: like Rekey with a new period, and announced. */
    method Rearm(t: Timer, i: nat, ms: nat, next: nat)
      requires Valid() && i < |timers| && timers[i] == t
      modifies this`timers, this`keys, this`tickled, this`notified, t`next, t`ms
      ensures Valid() && (forall u :: u in timers <==> u in old(timers)) && t.next == next && t.ms == ms
      ensures old(Announced()) ==> Announced()
    {
      Erase(i);
      assert |keys| > 0 ==> keys[0].next >= old(keys)[0].next;
      assert old(Announced()) ==> Announced();
      t.ms := ms;
      t.next := next;
      InsertAndAnnounce(t);
    }

    /** The locked part of `Reset`. */
    method ResetLocked(t: Timer, ms: nat, fromNow: bool, now: nat) returns (r: bool)
      requires Valid() && t in all
      modifies this`timers, this`keys, this`tickled, this`notified, t`next, t`ms
      ensures Valid() && (forall u :: u in timers <==> u in old(timers)) && r == t.callback.Some?
      ensures t.next == if r then ResetDeadline(old(t.next), old(t.ms), ms, fromNow, now) else old(t.next)
      ensures t.ms == if r then ms else old(t.ms)
      ensures old(Announced()) ==> Announced()
    {
      r := t.callback.Some?;
      if r {
        var i := Find(t);
        Rearm(t, i, ms, ResetDeadline(t.next, t.ms, ms, fromNow, now));
      }
    }

    /** `Timer::Reset`: the first test is made outside the lock. */
    method Reset(t: Timer, ms: nat, fromNow: bool, now: nat) returns (r: bool)
      requires Valid() && t in all
      modifies this`timers, this`keys, this`tickled, this`notified, this`clock, t`next, t`ms
      ensures Valid() && (forall u :: u in timers <==> u in old(timers))
      ensures var same := ms == old(t.ms) && !fromNow;
              && (r <==> same || t.callback.Some?)
              && t.ms == (if r then ms else old(t.ms))
              && t.next == if r && !same then ResetDeadline(old(t.next), old(t.ms), ms, fromNow, now) else old(t.next)
      ensures r && fromNow && now + ms < TWO64 ==> t.next == now + ms
      ensures r && !fromNow && old(t.ms <= t.next) && old(t.next - t.ms) + ms < TWO64 ==>
                t.next - t.ms == old(t.next - t.ms)
      ensures old(Announced()) ==> Announced()
      ensures old(Started()) && old(clock) <= now && now + ms < TWO64 ==> Started()
    {
      ResetDeadlineMeaning(t.next, t.ms, ms, fromNow, now);
      r := true;
      if ms != t.ms || fromNow {
        clock := Later(clock, now);
        if Started() && clock == now && now + ms < TWO64 && t in timers {
          ResetDeadlineStarted(t.next, t.ms, ms, fromNow, now);
        }
        r := ResetLocked(t, ms, fromNow, now);
      }
    }

    /** `GetNextTimeout`: None is the all-ones value. The caller is now planning for the earliest deadline. */
    method GetNextTimeout(now: nat) returns (timeout: Option<nat>)
      requires Valid()
      modifies this`tickled, this`seen, this`notified, this`clock
      ensures Valid() && Announced() && (old(Started()) ==> Started())
      ensures timeout.None? <==> timers == []
      ensures timeout.Some? ==>
                seen == Some(keys[0].next) && timeout.value == if now >= keys[0].next then 0 else keys[0].next - now
    {
      tickled := false;
      notified := 0;
      seen := if |keys| > 0 then Some(keys[0].next) else None;
      clock := Later(clock, now);
      if timers == [] {
        return None;
      }
      timeout := Some(if now >= timers[0].next then 0 else timers[0].next - now);
    }

    /** Where the expired prefix ends: past every timer after a clock rollover, else past the probe's lower
        bound and the deadlines equal to now. */
    method ExpiredEnd(now: nat, probe: nat, rolled: bool) returns (n: nat)
      requires InOrder()
      ensures n <= |timers| && if rolled then n == |timers| else IsDue(keys, now, n)
    {
      if rolled {
        return |timers|;
      }
      var i := LowerBound(Key(now, probe));
      n := i;
      while n < |timers| && timers[n].next == now
        invariant i <= n <= |timers|
        invariant forall j :: i <= j < n ==> keys[j].next == now
      {
        n := n + 1;
      }
      ProbeAddressIsIrrelevant(keys, now, probe, i, n);
    }

    /** `erase` of the first n timers. */
    method EraseFirst(n: nat)
      requires InOrder() && n <= |timers|
      modifies this`timers, this`keys
      ensures InOrder() && timers == old(timers)[n..] && keys == old(keys)[n..]
      ensures forall i, j :: 0 <= i < n <= j < |old(timers)| ==> old(timers)[i] != old(timers)[j]
    {
      assert forall i, j :: 0 <= i < n <= j < |timers| ==> Less(keys[i], keys[j]) && timers[i] != timers[j];
      timers := timers[n..];
      keys := keys[n..];
    }

    /** Re-arm a recurring expired timer, retire any other. */
    method RetireOrRearm(t: Timer, now: nat)
      requires InOrder() && t in all && t !in timers
      requires forall u :: u in all && u != t ==> u.addr != t.addr
      modifies this`timers, this`keys, t`next, t`callback
      ensures InOrder() && forall u :: u in timers <==> u in old(timers) || (u == t && t.recurring)
      ensures t.next == (if t.recurring then Add64(now, t.ms) else old(t.next))
      ensures t.callback == if t.recurring then old(t.callback) else None
      ensures forall k :: k in keys ==> k in old(keys) || k.next == Add64(now, t.ms)
    {
      if t.recurring {
        t.next := Add64(now, t.ms);
        var _ := Insert(t);
      } else {
        t.callback := None;
      }
    }

    ghost predicate AddressesDiffer()
      reads this
    {
      forall t, u :: t in all && u in all && t != u ==> t.addr != u.addr
    }

    /** Every timer handed over was re-armed once at now plus its period, or retired. */
    twostate predicate Settled(t: Timer, now: nat)
      reads t
    {
      && t.ms == old(t.ms)
      && t.next == (if t.recurring then Add64(now, t.ms) else old(t.next))
      && t.callback == if t.recurring then old(t.callback) else None
    }

    /** The loop over the expired timers. */
    method Settle(expired: seq<Timer>, now: nat) returns (cbs: seq<Option<nat>>)
      requires InOrder() && AddressesDiffer()
      requires forall i :: 0 <= i < |expired| ==> expired[i] in all && expired[i] !in timers
      requires forall i, j :: 0 <= i < j < |expired| ==> expired[i] != expired[j]
      modifies this`timers, this`keys, expired`next, expired`callback
      ensures InOrder() && |cbs| == |expired|
      ensures forall i :: 0 <= i < |expired| ==> cbs[i] == old(expired[i].callback) && Settled(expired[i], now)
      ensures forall u :: u in timers <==> u in old(timers) || (u in expired && u.recurring)
      ensures (forall i :: 0 <= i < |expired| ==> now + expired[i].ms < TWO64) ==>
                forall k :: k in keys ==> k in old(keys) || k.next >= now
    {
      cbs := [];
      var i := 0;
      while i < |expired|
        invariant 0 <= i <= |expired| && |cbs| == i && InOrder()
        invariant forall j :: 0 <= j < i ==> cbs[j] == old(expired[j].callback) && Settled(expired[j], now)
        invariant forall j :: i <= j < |expired| ==> unchanged(expired[j])
        invariant forall u :: u in timers <==> u in old(timers) || (u in expired[..i] && u.recurring)
        invariant (forall j :: 0 <= j < |expired| ==> now + expired[j].ms < TWO64) ==>
                    forall k :: k in keys ==> k in old(keys) || k.next >= now
      {
        var t := expired[i];
        assert t !in expired[..i];
        cbs := cbs + [t.callback];
        RetireOrRearm(t, now);
        assert expired[..i + 1] == expired[..i] + [t];
        i := i + 1;
      }
      assert expired[..i] == expired;
    }

    /** Take the first n timers out of the set and settle them. */
    method TakeFirst(n: nat, now: nat) returns (cbs: seq<Option<nat>>)
      requires InOrder() && AddressesDiffer() && n <= |timers|
      modifies this`timers, this`keys, timers[..n]`next, timers[..n]`callback
      ensures InOrder() && |cbs| == n
      ensures forall i :: 0 <= i < n ==> cbs[i] == old(timers[i].callback) && Settled(old(timers)[i], now)
      ensures forall u :: u in timers <==> u in old(timers)[n..] || (u in old(timers)[..n] && u.recurring)
      ensures forall u :: u in old(timers)[..n] ==> u !in old(timers)[n..]
      ensures (forall i :: 0 <= i < n ==> now + old(timers)[i].ms < TWO64) ==>
                forall k :: k in keys ==> k in old(keys) || k.next >= now
    {
      var expired := timers[..n];
      assert forall i, j :: 0 <= i < j < n ==> Less(keys[i], keys[j]) && expired[i] != expired[j];
      EraseFirst(n);
      cbs := Settle(expired, now);
    }

    /** The second half of `ListExpiredCallbacks`. */
    method TakeExpired(now: nat, probe: nat, rolled: bool) returns (cbs: seq<Option<nat>>, n: nat)
      requires Valid()
      modifies this`timers, this`keys, all
      ensures Valid() && |cbs| == n <= |old(timers)|
      ensures if rolled then n == |old(timers)| else IsDue(old(keys), now, n)
      ensures forall i :: 0 <= i < n ==> cbs[i] == old(timers[i].callback) && Settled(old(timers)[i], now)
      ensures forall u :: u in all && u !in old(timers)[..n] ==> unchanged(u)
      ensures forall u :: u in timers <==> u in old(timers)[n..] || (u in old(timers)[..n] && u.recurring)
      ensures (forall i :: 0 <= i < n ==> now + old(timers)[i].ms < TWO64) ==>
                forall k :: k in keys ==> k in old(keys) || k.next >= now
    {
      n := ExpiredEnd(now, probe, rolled);
      ghost var expired, rest := timers[..n], timers[n..];
      assert timers == expired + rest;
      cbs := TakeFirst(n, now);
      forall t | t in all ensures Consistent(t) {
        assert old(Consistent(t));
        assert t in old(timers) <==> t in expired || t in rest;
        if t in expired {
          var i :| 0 <= i < n && expired[i] == t;
          assert Settled(old(timers)[i], now);
        }
      }
    }

    /** What one pass collects, and what it leaves of the set. */
    twostate predicate Collected(now: nat, new cbs: seq<Option<nat>>, n: nat)
      requires old(InOrder()) && all == old(all)
      reads this`timers, this`previous, this`all, all
    {
      && |cbs| == n <= |old(timers)|
      && previous == (if old(timers) == [] then old(previous) else now)
      && (if old(timers) != [] && RolledOver(now, old(previous)) then n == |old(timers)| else IsDue(old(keys), now, n))
      && (forall i :: 0 <= i < n ==> cbs[i] == old(timers[i].callback) && Settled(old(timers)[i], now))
      && (forall u :: u in all && u !in old(timers)[..n] ==> unchanged(u))
      && (forall u :: u in all ==> (u in timers <==> u in old(timers)[n..] || (u in old(timers)[..n] && u.recurring)))
    }

    /** `ListExpiredCallbacks`, as far as the set is concerned. */
    method CollectExpired(now: nat, probe: nat) returns (cbs: seq<Option<nat>>, n: nat)
      requires Valid()
      modifies this`timers, this`keys, this`previous, all
      ensures Valid() && Collected(now, cbs, n)
      ensures n == 0 ==> keys == old(keys)
      ensures (forall i :: 0 <= i < n ==> now + old(timers)[i].ms < TWO64) ==>
                forall k :: k in keys ==> k in old(keys) || k.next >= now
    {
      if timers == [] {
        return [], 0;
      }
      var rolled := RolledOver(now, previous);
      previous := now;
      if !rolled && timers[0].next > now {
        assert forall j :: 0 < j < |keys| ==> Less(keys[0], keys[j]);
        return [], 0;
      }
      cbs, n := TakeExpired(now, probe, rolled);
      assert n > 0;
    }

    /** The same; re-armed timers count from now, so the deadlines stay within the clock. */
    method CollectStarted(now: nat, probe: nat) returns (cbs: seq<Option<nat>>, n: nat)
      requires Valid()
      modifies this`timers, this`keys, this`previous, this`clock, all
      ensures Valid() && Collected(now, cbs, n) && clock == Later(old(clock), now)
      ensures n == 0 ==> keys == old(keys)
      ensures (forall t :: t in all ==> now + t.ms < TWO64) ==>
                && (forall k :: k in keys ==> k in old(keys) || k.next >= now)
                && (old(Started()) ==> Started())
    {
      cbs, n := CollectExpired(now, probe);
      clock := Later(clock, now);
      if old(Started()) && forall t :: t in all ==> now + t.ms < TWO64 {
        forall t | t in all && t in timers ensures t.ms <= t.next <= clock + t.ms {
          NoWrap(now, t.ms);
          if t in old(timers)[..n] {
            var i :| 0 <= i < n && old(timers)[i] == t;
            assert Settled(old(timers)[i], now);
          } else {
            assert t in old(timers) && unchanged(t);
          }
        }
      }
    }

    /** `ListExpiredCallbacks`: exactly the timers whose deadline has come (all of them after a clock rollover)
        leave the set, in deadline order and whatever the address of the probe; the recurring ones are back in it
        once, at now plus their period, and the others are retired. Without a rollover no deadline earlier than the
        planned one appears, so the announcement stays in force. */
    method ListExpiredCallbacks(now: nat, probe: nat) returns (cbs: seq<Option<nat>>, n: nat)
      requires Valid()
      modifies this`timers, this`keys, this`previous, this`clock, all
      ensures Valid() && Collected(now, cbs, n) && clock == Later(old(clock), now)
      ensures (forall t :: t in all ==> now + t.ms < TWO64) ==>
                && (old(Started()) ==> Started())
                && (old(Announced()) && !RolledOver(now, old(previous)) ==> Announced())
    {
      cbs, n := CollectStarted(now, probe);
      if !RolledOver(now, old(previous)) && forall t :: t in all ==> now + t.ms < TWO64 {
        FrontKept(old(keys), keys, now, n);
      }
    }
  }
}
