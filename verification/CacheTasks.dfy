/** Any number of tasks in getblk, get_hash_table, bread, brelse and lock_buffer at once
    (fs/buffer.c:22-52, 117-251).

    The kernel is not preempted, so a task loses the processor only inside sleep_on.  A
    step runs one task from one control point to the next; the control points are the loops
    around sleep_on, which are left when the lock is seen clear, the sleep on buffer_wait,
    whose return may be spurious, and the label `repeat`.  The device may lock, fill,
    dirty, clean and unlock any buffer between steps. */
module CacheTasks {
  import opened Cache

  /** A pin that a caller holds: the buffer and the identity it asked for. */
  datatype Pinned = Pinned(b: nat, dev: UInt16, block: UInt32)

  /** Where a task stands.  `getblk` says whether get_hash_table was called from getblk. */
  datatype At =
    | Out                                                        // not in the cache code
    | Lookup(dev: UInt16, block: UInt32, getblk: bool)                 // about to call find_buffer
    | PinWait(b: nat, dev: UInt16, block: UInt32, getblk: bool)        // b pinned, waiting on its lock (line 131)
    | FreeWait(dev: UInt16, block: UInt32)                             // asleep on buffer_wait (line 179)
    | VictimWait(v: nat, dev: UInt16, block: UInt32)                   // waiting on the victim's lock (line 184)
    | DirtWait(v: nat, dev: UInt16, block: UInt32)                     // after sync_dev, waiting again (line 191)
    | ReleaseWait(i: nat)                                        // brelse of held[i], waiting on its lock
    | LockWait(i: nat)                                           // lock_buffer of held[i] (line 27)
    | ReadWait(i: nat)                                           // bread, waiting for held[i] (line 228)

  datatype Task = Task(at: At, held: seq<Pinned>)

  datatype State = State(cache: Cache, tasks: seq<Task>)

  // ---- steps ----

  datatype Event =
    | CallGetblk(dev: UInt16, block: UInt32)
    | CallHash(dev: UInt16, block: UInt32)
    | CallBrelse(i: nat)
    | CallLock(i: nat)
    | CallRead(i: nat)        // bread from line 224 on, with the buffer that getblk returned
    | Go
    | Device(b: nat, lock: UInt8, dirt: UInt8, uptodate: UInt8)

  /** brelse found b_count == 0: panic("Trying to free free buffer"). */
  datatype Outcome = Runs(s: State) | Panics

  function Put(s: State, t: nat, c: Cache, at: At, held: seq<Pinned>): Outcome
    requires t < |s.tasks|
  {
    Runs(State(c, s.tasks[t := Task(at, held)]))
  }

  /** The last part of getblk, from line 196 on: look again, then take the victim. */
  function Finish(s: State, t: nat, v: nat, dev: UInt16, block: UInt32): Outcome
    requires t < |s.tasks| && v < |s.cache.bufs|
  {
    var held := s.tasks[t].held;
    if Find(s.cache, dev, block).Some? then Put(s, t, s.cache, Lookup(dev, block, true), held)
    else Put(s, t, Reassign(s.cache, v, dev, block), Out, held + [Pinned(v, dev, block)])
  }

  /** What task t does next, when it can go on at all. */
  function Advance(s: State, t: nat): Outcome
    requires t < |s.tasks| && CanGo(s, t)
  {
    var held := s.tasks[t].held;
    match s.tasks[t].at
    case Lookup(dev, block, getblk) =>
      (match Find(s.cache, dev, block)
       case Some(b) => Put(s, t, Pin(s.cache, b), PinWait(b, dev, block, getblk), held)
       case None =>
         if !getblk then Put(s, t, s.cache, Out, held)
         else
           match Victim(s.cache)
           case None => Put(s, t, s.cache, FreeWait(dev, block), held)
           case Some(v) => Put(s, t, s.cache, VictimWait(v, dev, block), held))
    case PinWait(b, dev, block, getblk) =>
      var x := s.cache.bufs[b];
      if x.dev == dev && x.block == block then Put(s, t, s.cache, Out, held + [Pinned(b, dev, block)])
      else Put(s, t, Unpin(s.cache, b), Lookup(dev, block, getblk), held)
    case FreeWait(dev, block) => Put(s, t, s.cache, Lookup(dev, block, true), held)
    case VictimWait(v, dev, block) =>
      if s.cache.bufs[v].count != 0 then Put(s, t, s.cache, Lookup(dev, block, true), held)
      else if s.cache.bufs[v].dirt == 1 then Put(s, t, s.cache, DirtWait(v, dev, block), held)
      else Finish(s, t, v, dev, block)
    case DirtWait(v, dev, block) =>
      if s.cache.bufs[v].count != 0 then Put(s, t, s.cache, Lookup(dev, block, true), held)
      else if s.cache.bufs[v].dirt == 1 then Put(s, t, s.cache, DirtWait(v, dev, block), held)
      else Finish(s, t, v, dev, block)
    case ReleaseWait(i) =>
      var b := held[i].b;
      if s.cache.bufs[b].count == 0 then Panics
      else Put(s, t, Unpin(s.cache, b), Out, held[..i] + held[i + 1..])
    case LockWait(i) => Put(s, t, Locked(s.cache, held[i].b), Out, held)
    case ReadWait(i) => Put(s, t, s.cache, if s.cache.bufs[held[i].b].uptodate != 0 then Out else ReleaseWait(i), held)
  }

  /** `bh->b_lock = 1` */
  function Locked(c: Cache, b: nat): Cache
    requires b < |c.bufs|
  {
    Cache(c.bufs[b := c.bufs[b].(lock := 1)], c.ring)
  }

  predicate Unlocked(s: State, b: nat) { b < |s.cache.bufs| && s.cache.bufs[b].lock == 0 }

  /** Task t is inside the cache code and not held up by a lock. */
  predicate CanGo(s: State, t: nat)
    requires t < |s.tasks|
  {
    && (forall x :: 0 <= x < |s.cache.ring| ==> s.cache.ring[x] < |s.cache.bufs|)
    && match s.tasks[t].at
       case Out => false
       case Lookup(_, _, _) => true
       case PinWait(b, _, _, _) => Unlocked(s, b)
       case FreeWait(_, _) => true
       case VictimWait(v, _, _) => Unlocked(s, v)
       case DirtWait(v, _, _) => Unlocked(s, v)
       case ReleaseWait(i) => i < |s.tasks[t].held| && Unlocked(s, s.tasks[t].held[i].b)
       case LockWait(i) => i < |s.tasks[t].held| && Unlocked(s, s.tasks[t].held[i].b)
       case ReadWait(i) => i < |s.tasks[t].held| && Unlocked(s, s.tasks[t].held[i].b)
  }

  /** The callers' part: devices are 1..65535; brelse, lock_buffer and bread get a buffer held. */
  predicate Enabled(s: State, t: nat, e: Event) {
    match e
    case CallGetblk(dev, _) => t < |s.tasks| && s.tasks[t].at.Out? && dev != 0
    case CallHash(dev, _) => t < |s.tasks| && s.tasks[t].at.Out? && dev != 0
    case CallBrelse(i) => t < |s.tasks| && s.tasks[t].at.Out? && i < |s.tasks[t].held|
    case CallLock(i) => t < |s.tasks| && s.tasks[t].at.Out? && i < |s.tasks[t].held|
    case CallRead(i) =>
      t < |s.tasks| && s.tasks[t].at.Out? && i < |s.tasks[t].held| && s.tasks[t].held[i].b < |s.cache.bufs|
    case Go => t < |s.tasks| && CanGo(s, t)
    case Device(b, _, _, _) => b < |s.cache.bufs|
  }

  function Next(s: State, t: nat, e: Event): Outcome
    requires Enabled(s, t, e)
  {
    match e
    case CallGetblk(dev, block) => Put(s, t, s.cache, Lookup(dev, block, true), s.tasks[t].held)
    case CallHash(dev, block) => Put(s, t, s.cache, Lookup(dev, block, false), s.tasks[t].held)
    case CallBrelse(i) => Put(s, t, s.cache, ReleaseWait(i), s.tasks[t].held)
    case CallLock(i) => Put(s, t, s.cache, LockWait(i), s.tasks[t].held)
    case CallRead(i) =>
      var held := s.tasks[t].held;
      Put(s, t, s.cache, if s.cache.bufs[held[i].b].uptodate != 0 then Out else ReadWait(i), held)
    case Go => Advance(s, t)
    case Device(b, lock, dirt, uptodate) =>
      var x := s.cache.bufs[b].(lock := lock, dirt := dirt, uptodate := uptodate);
      Runs(State(Cache(s.cache.bufs[b := x], s.cache.ring), s.tasks))
  }

  // ---- pins ----

  function HeldPins(held: seq<Pinned>, b: nat): nat {
    if held == [] then 0 else (if held[0].b == b then 1 else 0) + HeldPins(held[1..], b)
  }

  /** The pins that a task has on a buffer. */
  function TaskPins(t: Task, b: nat): nat {
    HeldPins(t.held, b) + if t.at.PinWait? && t.at.b == b then 1 else 0
  }

  function Pins(tasks: seq<Task>, b: nat): nat {
    if tasks == [] then 0 else TaskPins(tasks[0], b) + Pins(tasks[1..], b)
  }

  lemma {:induction false} HeldSplit(x: seq<Pinned>, y: seq<Pinned>, b: nat)
    ensures HeldPins(x + y, b) == HeldPins(x, b) + HeldPins(y, b)
  {
    if x == [] {
      assert x + y == y;
    } else {
      assert (x + y)[1..] == x[1..] + y;
      HeldSplit(x[1..], y, b);
    }
  }

  lemma {:induction false} PinsUpdate(tasks: seq<Task>, t: nat, x: Task, b: nat)
    requires t < |tasks|
    ensures Pins(tasks[t := x], b) == Pins(tasks, b) - TaskPins(tasks[t], b) + TaskPins(x, b)
    ensures Pins(tasks, b) >= TaskPins(tasks[t], b)
  {
    if t > 0 {
      assert tasks[t := x][1..] == tasks[1..][t - 1 := x];
      PinsUpdate(tasks[1..], t - 1, x, b);
    } else {
      assert tasks[t := x][1..] == tasks[1..];
    }
  }

  lemma HeldOne(held: seq<Pinned>, i: nat, b: nat)
    requires i < |held|
    ensures HeldPins(held, b) == HeldPins(held[..i] + held[i + 1..], b) + if held[i].b == b then 1 else 0
  {
    HeldSplit(held[..i], held[i..], b);
    HeldSplit(held[..i], held[i + 1..], b);
    assert held == held[..i] + held[i..];
  }
}
