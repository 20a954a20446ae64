/** The tasks of CacheTasks.dfy together with the wait queues they sleep on (WaitQueue.dfy):
    nobody in the buffer cache misses a wake-up.

    Queue b is b_wait of buffer b; the queue after the last of those is buffer_wait. */
module CacheSleep {
  import opened Basics
  import opened Cache
  import opened CacheTasks
  import opened CacheRuns
  import W = WaitQueue

  datatype Whole = Whole(c: State, w: W.State)

  function BufferWait(s: Whole): nat { |s.c.cache.bufs| }

  /** The buffer whose lock the task looks at where it stands. */
  function LockOf(t: Task): Option<nat> {
    match t.at
    case PinWait(b, _, _, _) => Some(b)
    case VictimWait(v, _, _) => Some(v)
    case DirtWait(v, _, _) => Some(v)
    case ReleaseWait(i) => if i < |t.held| then Some(t.held[i].b) else None
    case LockWait(i) => if i < |t.held| then Some(t.held[i].b) else None
    case ReadWait(i) => if i < |t.held| then Some(t.held[i].b) else None
    case _ => None
  }

  // ---- steps ----

  datatype Happening =
    | Moves(t: nat, e: Event)   // task t, not asleep, makes a step of CacheTasks.dfy
    | Sleeps(t: nat)            // it finds the lock set, and sleeps on b_wait
    | Returns(t: nat)           // it returns from sleep_on, woken or not
    | Changes(b: nat, lock: UInt8, dirt: UInt8, uptodate: UInt8, wakes: bool)   // the device

  /** sleep_on panics for task 0.  To clear a lock is unlock_buffer, which wakes b_wait. */
  predicate Possible(s: Whole, h: Happening) {
    match h
    case Moves(t, e) =>
      && !e.Device? && !W.IsParked(s.w, t) && Enabled(s.c, t, e) && Next(s.c, t, e).Runs?
      && (e.Go? && FallsAsleep(s, t) ==> t != 0)
    case Sleeps(t) =>
      && 0 < t < |s.c.tasks| && !W.IsParked(s.w, t) && LockOf(s.c.tasks[t]).Some?
      && LockOf(s.c.tasks[t]).value < |s.c.cache.bufs| && s.c.cache.bufs[LockOf(s.c.tasks[t]).value].lock != 0
    case Returns(t) => W.CanStep(s.w, W.Return(t))
    case Changes(b, lock, _, _, wakes) =>
      b < |s.c.cache.bufs| && (wakes ==> lock == 0) && (lock == 0 && s.c.cache.bufs[b].lock != 0 ==> wakes)
  }

  /** getblk sleeps on buffer_wait when it has found no buffer to take. */
  predicate FallsAsleep(s: Whole, t: nat)
    requires t < |s.c.tasks| && Enabled(s.c, t, Go) && Advance(s.c, t).Runs?
  {
    s.c.tasks[t].at.Lookup? && Advance(s.c, t).s.tasks[t].at.FreeWait?
  }

  /** What the step does to the wait queues. */
  function OnQueues(s: Whole, h: Happening): Option<W.Event>
    requires Possible(s, h)
  {
    match h
    case Moves(t, e) =>
      if e.Go? && FallsAsleep(s, t) then Some(W.SleepOn(t, BufferWait(s)))
      else if e.Go? && s.c.tasks[t].at.ReleaseWait? then Some(W.WakeUp(BufferWait(s)))
      else None
    case Sleeps(t) => Some(W.SleepOn(t, LockOf(s.c.tasks[t]).value))
    case Returns(t) => Some(W.Return(t))
    case Changes(b, _, _, _, wakes) => if wakes then Some(W.WakeUp(b)) else None
  }

  function OnCache(s: Whole, h: Happening): State
    requires Possible(s, h)
  {
    match h
    case Moves(t, e) => Next(s.c, t, e).s
    case Changes(b, lock, dirt, uptodate, _) => Next(s.c, 0, Device(b, lock, dirt, uptodate)).s
    case _ => s.c
  }

  /** The two machines have the same tasks and buffers. */
  ghost predicate Fits(s: Whole) {
    |s.w.running| == |s.w.parked| == |s.w.slept| == |s.c.tasks| && |s.w.heads| == |s.c.cache.bufs| + 1
  }

  lemma QueueCanStep(s: Whole, h: Happening)
    requires Fits(s) && W.Inv(s.w) && Possible(s, h)
    ensures OnQueues(s, h).Some? ==> W.CanStep(s.w, OnQueues(s, h).value)
  {
    hide Next, W.NotLost;
  }

  function StepTo(s: Whole, h: Happening): Whole
    requires Possible(s, h) && (OnQueues(s, h).Some? ==> W.CanStep(s.w, OnQueues(s, h).value))
  {
    Whole(OnCache(s, h), if OnQueues(s, h).Some? then W.Step(s.w, OnQueues(s, h).value) else s.w)
  }

  // ---- the invariant ----

  /** A sleeping task stands where one sleeps on its queue. */
  ghost predicate Placed(s: Whole) {
    forall t: nat :: t < |s.c.tasks| && W.IsParked(s.w, t) ==>
      if s.w.parked[t].value.queue == BufferWait(s) then s.c.tasks[t].at.FreeWait?
      else LockOf(s.c.tasks[t]) == Some(s.w.parked[t].value.queue)
  }

  predicate SomeFree(c: Cache) { exists b :: 0 <= b < |c.bufs| && c.bufs[b].count == 0 }

  /** What the task asleep on the queue waits for is there. */
  predicate CanHave(c: Cache, queue: nat) {
    if queue < |c.bufs| then c.bufs[queue].lock == 0 else SomeFree(c)
  }

  ghost predicate OnItsWay(w: W.State, u: nat) { exists p :: W.OnItsWay(w, p, u) }

  /** A sleeping task for which what it waits for is there is about to be woken. */
  ghost predicate NoneMissed(s: Whole) {
    forall u: nat :: W.IsParked(s.w, u) && CanHave(s.c.cache, s.w.parked[u].value.queue) ==> OnItsWay(s.w, u)
  }

  ghost predicate WholeInv(s: Whole) {
    Fits(s) && Inv(s.c) && W.Inv(s.w) && Placed(s) && NoneMissed(s)
  }

  // ---- what a step makes available ----

  /** A count falls to 0 only in brelse, as long as eight bits can count the pins. */
  lemma OnlyBrelseFrees(s: State, t: nat, e: Event, b: nat)
    requires Inv(s) && Bounded(s) && Enabled(s, t, e) && Next(s, t, e).Runs? && Bounded(Next(s, t, e).s)
    requires b < |s.cache.bufs| == |Next(s, t, e).s.cache.bufs|
    requires s.cache.bufs[b].count != 0 && Next(s, t, e).s.cache.bufs[b].count == 0
    ensures e.Go? && s.tasks[t].at.ReleaseWait?
  {
    hide CacheOk, Victim;
    StepWraps(s, t, e);
    PinsBelow(s, b);
    PinsBelow(Next(s, t, e).s, b);
    if e.Go? {
      assert PinsOk(s.cache, s.tasks[t]);
      PinsUpdate(s.tasks, t, Next(s, t, e).s.tasks[t], b);
    }
  }

  /** A lock is cleared only by the device. */
  lemma OnlyDeviceUnlocks(s: State, t: nat, e: Event, b: nat)
    requires Enabled(s, t, e) && Next(s, t, e).Runs? && b < |s.cache.bufs|
    ensures b < |Next(s, t, e).s.cache.bufs|
    ensures s.cache.bufs[b].lock != 0 && Next(s, t, e).s.cache.bufs[b].lock == 0 ==>
      e.Device? && e.b == b && e.lock == 0
  {
    hide Victim;
  }

  /** A task falls asleep on buffer_wait only when no buffer is free. */
  lemma NoneFree(s: State, t: nat)
    requires Inv(s) && t < |s.tasks| && CanGo(s, t) && s.tasks[t].at.Lookup? && Advance(s, t).s.tasks[t].at.FreeWait?
    ensures Advance(s, t).s.cache == s.cache && !SomeFree(s.cache)
  {
    hide CountsOk, TaskShape, AllPinsOk, Victim;
    var k := VictimIsFirstLeast(s.cache);
    forall b | 0 <= b < |s.cache.bufs| ensures s.cache.bufs[b].count != 0 { RingHasAll(s.cache.ring, b); }
  }

  // ---- the steps keep it ----

  lemma CacheKeeps(s: Whole, h: Happening)
    requires Inv(s.c) && Bounded(s.c) && Possible(s, h)
    ensures Inv(OnCache(s, h)) && |OnCache(s, h).tasks| == |s.c.tasks|
    ensures |OnCache(s, h).cache.bufs| == |s.c.cache.bufs|
  {
    hide Inv, Bounded, Enabled;
    match h
    case Moves(t, e) => StepKeeps(s.c, t, e); SameSizes(s.c, t, e);
    case Changes(b, lock, dirt, uptodate, _) =>
      assert Enabled(s.c, 0, Device(b, lock, dirt, uptodate)) by { DeviceEnabled(s.c, b, lock, dirt, uptodate); }
      StepKeeps(s.c, 0, Device(b, lock, dirt, uptodate));
      SameSizes(s.c, 0, Device(b, lock, dirt, uptodate));
    case _ =>
  }

  lemma DeviceEnabled(s: State, b: nat, lock: UInt8, dirt: UInt8, uptodate: UInt8)
    requires b < |s.cache.bufs|
    ensures Enabled(s, 0, Device(b, lock, dirt, uptodate)) && Next(s, 0, Device(b, lock, dirt, uptodate)).Runs?
  {
  }

  lemma SameSizes(s: State, t: nat, e: Event)
    requires Enabled(s, t, e) && Next(s, t, e).Runs?
    ensures |Next(s, t, e).s.cache.bufs| == |s.cache.bufs| && |Next(s, t, e).s.tasks| == |s.tasks|
    ensures forall u :: 0 <= u < |s.tasks| && (e.Device? || u != t) ==> Next(s, t, e).s.tasks[u] == s.tasks[u]
  {
    hide Find, Victim;
  }

  lemma PlacedKeeps(s: Whole, h: Happening)
    requires Fits(s) && Placed(s) && Possible(s, h) && (OnQueues(s, h).Some? ==> W.CanStep(s.w, OnQueues(s, h).value))
    ensures Fits(StepTo(s, h)) && Placed(StepTo(s, h))
  {
    hide Next, LockOf;
    match h
    case Moves(t, e) => SameSizes(s.c, t, e); if e.Go? { Sleeper(s, t); }
    case Changes(b, lock, dirt, uptodate, _) =>
      DeviceEnabled(s.c, b, lock, dirt, uptodate);
      SameSizes(s.c, 0, Device(b, lock, dirt, uptodate));
    case _ =>
  }

  lemma Sleeper(s: Whole, t: nat)
    requires Possible(s, Moves(t, Go))
    ensures t < |s.c.tasks| && Enabled(s.c, t, Go) && Advance(s.c, t).Runs? && Next(s.c, t, Go) == Advance(s.c, t)
    ensures FallsAsleep(s, t) ==> s.c.tasks[t].at.Lookup? && Advance(s.c, t).s.tasks[t].at.FreeWait?
  {
    hide Advance;
  }

  /** Who was on the way stays so, and who sleeps on a queue that is woken gets on the way. */
  lemma WayKeeps(w: W.State, e: W.Event, u: nat)
    requires W.Inv(w) && W.CanStep(w, e) && W.IsParked(w, u) && W.IsParked(W.Step(w, e), u)
    requires OnItsWay(w, u) || (e.WakeUp? && w.parked[u].value.queue == e.q)
    ensures OnItsWay(W.Step(w, e), u)
  {
    if OnItsWay(w, u) {
      var p :| W.OnItsWay(w, p, u);
      var n := W.StepCarries(w, e, p, u);
    } else {
      var p := W.WakeUpReachesAll(w, e.q, u);
    }
  }

  /** What the task waits for was there before, or the step wakes the queue. */
  lemma MadeAvailable(s: Whole, h: Happening, q: nat)
    requires WholeInv(s) && Bounded(s.c) && Possible(s, h) && Bounded(OnCache(s, h)) && q <= BufferWait(s)
    requires CanHave(OnCache(s, h).cache, q) && !CanHave(s.c.cache, q)
    ensures OnQueues(s, h) == Some(W.WakeUp(q))
  {
    hide Inv, Bounded, W.Inv, Placed, NoneMissed, Enabled, Next, CacheOk;
    CacheKeeps(s, h);
    match h
    case Moves(t, e) =>
      if q < BufferWait(s) {
        OnlyDeviceUnlocks(s.c, t, e, q);
      } else {
        var b :| 0 <= b < |s.c.cache.bufs| && OnCache(s, h).cache.bufs[b].count == 0;
        assert s.c.cache.bufs[b].count != 0;
        OnlyBrelseFrees(s.c, t, e, b);
        Sleeper(s, t);
      }
    case Changes(b, lock, dirt, uptodate, _) =>
      DeviceChanges(s.c, b, lock, dirt, uptodate);
    case _ =>
  }

  lemma DeviceChanges(s: State, b: nat, lock: UInt8, dirt: UInt8, uptodate: UInt8)
    requires b < |s.cache.bufs|
    ensures Enabled(s, 0, Device(b, lock, dirt, uptodate))
    ensures var s' := Next(s, 0, Device(b, lock, dirt, uptodate)).s;
      && |s'.cache.bufs| == |s.cache.bufs| && (SomeFree(s'.cache) ==> SomeFree(s.cache))
      && forall x :: 0 <= x < |s.cache.bufs| ==>
           s'.cache.bufs[x].lock == if x == b then lock else s.cache.bufs[x].lock
  {
    var s' := Next(s, 0, Device(b, lock, dirt, uptodate)).s;
    assert forall x :: 0 <= x < |s.cache.bufs| ==> s'.cache.bufs[x].count == s.cache.bufs[x].count;
  }

  /** A task that falls asleep waits for something that is not there. */
  lemma AsleepForReason(s: Whole, h: Happening, t: nat, q: nat)
    requires WholeInv(s) && Possible(s, h) && OnQueues(s, h) == Some(W.SleepOn(t, q))
    ensures !CanHave(OnCache(s, h).cache, q) && q <= BufferWait(s)
  {
    hide W.Inv, Placed, NoneMissed, CacheOk, Inv;
    if h.Moves? { NoneFree(s.c, h.t); }
  }

  lemma NoneMissedKeeps(s: Whole, h: Happening)
    requires WholeInv(s) && Bounded(s.c) && Possible(s, h) && Bounded(OnCache(s, h))
    requires OnQueues(s, h).Some? ==> W.CanStep(s.w, OnQueues(s, h).value)
    ensures NoneMissed(StepTo(s, h))
  {
    hide Inv, Bounded, Placed, OnCache, OnQueues, CanHave, OnItsWay, Possible;
    var s' := StepTo(s, h);
    CacheKeeps(s, h);
    forall u: nat | W.IsParked(s'.w, u) && CanHave(s'.c.cache, s'.w.parked[u].value.queue) ensures OnItsWay(s'.w, u) {
      var q := s'.w.parked[u].value.queue;
      if OnQueues(s, h).Some? && OnQueues(s, h).value == W.SleepOn(u, q) {
        AsleepForReason(s, h, u, q);
        assert false;
      } else {
        SameParked(s, h, u);
        if !CanHave(s.c.cache, q) { MadeAvailable(s, h, q); }
        if OnQueues(s, h).Some? { WayKeeps(s.w, OnQueues(s, h).value, u); }
      }
    }
  }

  /** A task that did not just fall asleep sleeps as before. */
  lemma SameParked(s: Whole, h: Happening, u: nat)
    requires Fits(s) && W.Inv(s.w) && Possible(s, h)
    requires OnQueues(s, h).Some? ==> W.CanStep(s.w, OnQueues(s, h).value)
    requires W.IsParked(StepTo(s, h).w, u)
    requires OnQueues(s, h) != Some(W.SleepOn(u, StepTo(s, h).w.parked[u].value.queue))
    ensures W.IsParked(s.w, u) && StepTo(s, h).w.parked[u] == s.w.parked[u]
    ensures s.w.parked[u].value.queue <= BufferWait(s)
  {
    hide OnCache, OnQueues, Possible;
  }

  /** Every step keeps the whole invariant. */
  lemma WholeStepKeeps(s: Whole, h: Happening)
    requires WholeInv(s) && Bounded(s.c) && Possible(s, h) && Bounded(OnCache(s, h))
    ensures OnQueues(s, h).Some? ==> W.CanStep(s.w, OnQueues(s, h).value)
    ensures WholeInv(StepTo(s, h))
  {
    hide Inv, Bounded, W.Inv, Placed, NoneMissed, OnCache, OnQueues, Possible, W.CanStep;
    QueueCanStep(s, h);
    CacheKeeps(s, h);
    PlacedKeeps(s, h);
    NoneMissedKeeps(s, h);
    if OnQueues(s, h).Some? { W.StepKeeps(s.w, OnQueues(s, h).value); }
  }

  // ---- runs ----

  ghost predicate IsWholeRun(ss: seq<Whole>, hs: seq<Happening>) {
    && |ss| == |hs| + 1
    && (forall i :: 0 <= i < |ss| ==> Bounded(ss[i].c))
    && forall i :: 0 <= i < |hs| ==>
         && Possible(ss[i], hs[i])
         && (OnQueues(ss[i], hs[i]).Some? ==> W.CanStep(ss[i].w, OnQueues(ss[i], hs[i]).value))
         && ss[i + 1] == StepTo(ss[i], hs[i])
  }

  /** After buffer_init, with nobody asleep. */
  ghost predicate Start(s: Whole) {
    && Initial(s.c) && Fits(s) && W.Shape(s.w) && forall t :: 0 <= t < |s.w.slept| ==> s.w.slept[t].None?
  }

  lemma {:induction false} WholeRunKeeps(ss: seq<Whole>, hs: seq<Happening>, i: nat)
    requires IsWholeRun(ss, hs) && Start(ss[0]) && i < |ss|
    ensures WholeInv(ss[i])
    decreases i
  {
    hide WholeInv, Bounded, Possible, StepTo, OnCache, OnQueues, W.CanStep;
    if i == 0 {
      StartInv(ss[0]);
    } else {
      WholeRunKeeps(ss, hs, i - 1);
      assert ss[i - 1 + 1] == StepTo(ss[i - 1], hs[i - 1]);
      assert OnCache(ss[i - 1], hs[i - 1]) == ss[i].c by { StepToCache(ss[i - 1], hs[i - 1]); }
      WholeStepKeeps(ss[i - 1], hs[i - 1]);
    }
  }

  lemma StepToCache(s: Whole, h: Happening)
    requires Possible(s, h) && (OnQueues(s, h).Some? ==> W.CanStep(s.w, OnQueues(s, h).value))
    ensures StepTo(s, h).c == OnCache(s, h)
  {
  }

  lemma StartInv(s: Whole)
    requires Start(s)
    ensures WholeInv(s)
  {
    hide Inv;
    InitialInv(s.c);
  }

  /** No wake-up is missed, in any interleaving: a task asleep in getblk while some buffer is
      unpinned, or asleep on the lock of a buffer that is not locked, hangs over the tmp of
      sleeping tasks on one that has been set RUNNING. */
  lemma NoWakeUpIsMissed(ss: seq<Whole>, hs: seq<Happening>, i: nat, u: nat)
    requires IsWholeRun(ss, hs) && Start(ss[0]) && i < |ss| && u < |ss[i].c.tasks| && W.IsParked(ss[i].w, u)
    ensures ss[i].c.tasks[u].at.FreeWait? && SomeFree(ss[i].c.cache) ==> OnItsWay(ss[i].w, u)
    ensures LockOf(ss[i].c.tasks[u]).Some? && Unlocked(ss[i].c, LockOf(ss[i].c.tasks[u]).value) ==> OnItsWay(ss[i].w, u)
  {
    hide Inv, W.Inv, Bounded, OnItsWay;
    WholeRunKeeps(ss, hs, i);
  }

  /** A task that falls asleep, on buffer_wait or on a lock, is not RUNNING until a wake_up finds it
      at the head of its queue, or a task that remembers it returns. */
  lemma {:induction false} AsleepUntilWoken(ss: seq<Whole>, hs: seq<Happening>, i: nat, j: nat, t: nat, q: nat)
    requires IsWholeRun(ss, hs) && Start(ss[0]) && i < j <= |hs| && OnQueues(ss[i], hs[i]) == Some(W.SleepOn(t, q))
    requires forall x :: i < x < j ==> !SetsRunning(ss[x], hs[x], t)
    ensures t < |ss[j].w.running| && !W.IsRunning(ss[j].w, t)
    decreases j
  {
    hide Possible, OnQueues, OnCache, Start, Bounded, W.Step;
    var s, h := ss[j - 1], hs[j - 1];
    assert ss[j - 1 + 1] == StepTo(s, h);
    if j > i + 1 { AsleepUntilWoken(ss, hs, i, j - 1, t, q); }
    if OnQueues(s, h).Some? {
      var e := OnQueues(s, h).value;
      assert t < |s.w.running| by { if j == i + 1 { SleeperInRange(s.w, t, q); } }
      W.StepRuns(s.w, e, t);
      RunningStays(s.w, e);
      if e.SetState? { NoSetState(s, h); }
    }
  }

  /** The step wakes t. */
  predicate SetsRunning(s: Whole, h: Happening, t: nat) {
    && Possible(s, h) && OnQueues(s, h).Some? && W.CanStep(s.w, OnQueues(s, h).value)
    && W.Wakes(s.w, OnQueues(s, h).value, t)
  }

  lemma SleeperInRange(w: W.State, t: nat, q: nat)
    requires W.CanStep(w, W.SleepOn(t, q))
    ensures t < |w.running|
  {
  }

  lemma RunningStays(w: W.State, e: W.Event)
    requires W.CanStep(w, e)
    ensures |W.Step(w, e).running| == |w.running|
  {
  }

  lemma NoSetState(s: Whole, h: Happening)
    requires Possible(s, h) && OnQueues(s, h).Some?
    ensures !OnQueues(s, h).value.SetState?
  {
  }

  /** brelse wakes all of them: after its wake_up every task asleep in getblk is on its way. */
  lemma BrelseWakesAll(ss: seq<Whole>, hs: seq<Happening>, i: nat, u: nat)
    requires IsWholeRun(ss, hs) && Start(ss[0]) && i < |hs| && hs[i].Moves? && hs[i].e.Go?
    requires ss[i].c.tasks[hs[i].t].at.ReleaseWait?
    requires u < |ss[i + 1].c.tasks| && W.IsParked(ss[i + 1].w, u) && ss[i + 1].c.tasks[u].at.FreeWait?
    ensures OnItsWay(ss[i + 1].w, u)
  {
    hide Inv, W.Inv, Bounded, OnItsWay;
    var s, h := ss[i], hs[i];
    WholeRunKeeps(ss, hs, i);
    WholeRunKeeps(ss, hs, i + 1);
    assert ss[i + 1] == StepTo(s, h);
    assert OnQueues(s, h) == Some(W.WakeUp(BufferWait(s)));
    WayKeeps(s.w, W.WakeUp(BufferWait(s)), u);
  }
}
