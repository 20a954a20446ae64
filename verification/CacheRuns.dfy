/** What every interleaving of the tasks of CacheTasks.dfy keeps, and what follows for their
    callers. */
module CacheRuns {
  import opened Cache
  import opened CacheTasks

  // ---- the invariant ----

  /** A pinned buffer is the one that was asked for. */
  predicate PinOk(c: Cache, p: Pinned) { p.b < |c.bufs| && c.bufs[p.b].Is(p.dev, p.block) }

  /** Buffers are in range, and devices are not 0. */
  ghost predicate TaskShape(c: Cache, t: Task) {
    && (forall i :: 0 <= i < |t.held| ==> t.held[i].b < |c.bufs|)
    && match t.at
       case Out => true
       case Lookup(dev, _, _) => dev != 0
       case PinWait(b, dev, block, _) => b < |c.bufs| && dev != 0
       case FreeWait(dev, _) => dev != 0
       case VictimWait(v, dev, _) => v < |c.bufs| && dev != 0
       case DirtWait(v, dev, _) => v < |c.bufs| && dev != 0
       case ReleaseWait(i) => i < |t.held|
       case LockWait(i) => i < |t.held|
       case ReadWait(i) => i < |t.held|
  }

  /** Every pin of the task is on the buffer it asked for. */
  ghost predicate PinsOk(c: Cache, t: Task) {
    && (forall i :: 0 <= i < |t.held| ==> PinOk(c, t.held[i]))
    && (t.at.PinWait? ==> PinOk(c, Pinned(t.at.b, t.at.dev, t.at.block)))
  }

  ghost predicate AllPinsOk(c: Cache, tasks: seq<Task>) {
    forall t :: 0 <= t < |tasks| ==> PinsOk(c, tasks[t])
  }

  /** b_count is the number of pins, as far as eight bits tell. */
  ghost predicate CountsOk(s: State) {
    forall b: nat :: b < |s.cache.bufs| ==> s.cache.bufs[b].count as int == Pins(s.tasks, b) % 256
  }

  /** What holds however many pins there are. */
  ghost predicate WrapInv(s: State) {
    CacheOk(s.cache) && CountsOk(s) && forall t :: 0 <= t < |s.tasks| ==> TaskShape(s.cache, s.tasks[t])
  }

  /** What holds as long as there are fewer than 256 on every buffer. */
  ghost predicate Inv(s: State) {
    WrapInv(s) && AllPinsOk(s.cache, s.tasks)
  }

  /** Fewer than 256 pins on every buffer: a uint8_t can count them. */
  ghost predicate Bounded(s: State) {
    forall b: nat :: b < |s.cache.bufs| ==> Pins(s.tasks, b) < 256
  }

  // ---- steps, with any number of pins ----

  /** Nothing but counts, locks and the like differ. */
  predicate SameNames(a: Cache, b: Cache) {
    && b.ring == a.ring && |b.bufs| == |a.bufs|
    && forall x :: 0 <= x < |a.bufs| ==> b.bufs[x].dev == a.bufs[x].dev && b.bufs[x].block == a.bufs[x].block
  }

  lemma SameNamesKeep(a: Cache, b: Cache)
    requires CacheOk(a) && SameNames(a, b)
    ensures CacheOk(b)
  {
    forall x, y | 0 <= x < |b.bufs| && 0 <= y < |b.bufs| && b.bufs[y].Is(b.bufs[x].dev, b.bufs[x].block)
      ensures x == y
    {
      assert a.bufs[y].Is(a.bufs[x].dev, a.bufs[x].block);
    }
  }

  /** The counts have changed by as much as the pins of the task that moved. */
  lemma PutCounts(s: State, t: nat, c: Cache, x: Task)
    requires CountsOk(s) && t < |s.tasks| && |c.bufs| == |s.cache.bufs|
    requires forall b: nat :: b < |c.bufs| ==>
      (c.bufs[b].count as int - s.cache.bufs[b].count as int - TaskPins(x, b) + TaskPins(s.tasks[t], b)) % 256 == 0
    ensures CountsOk(State(c, s.tasks[t := x]))
  {
    forall b: nat | b < |c.bufs| ensures c.bufs[b].count as int == Pins(s.tasks[t := x], b) % 256 {
      PinsUpdate(s.tasks, t, x, b);
      var d := TaskPins(x, b) - TaskPins(s.tasks[t], b);
      ModuloAdd(s.cache.bufs[b].count as int, Pins(s.tasks, b), c.bufs[b].count as int, d);
    }
  }

  lemma ModuloAdd(before: int, pins: int, after: int, d: int)
    requires before == pins % 256 && 0 <= after < 256 && (after - before - d) % 256 == 0
    ensures after == (pins + d) % 256
  {
  }

  /** A step of one task that keeps all identities. */
  lemma PutWraps(s: State, t: nat, c: Cache, at: At, held: seq<Pinned>)
    requires WrapInv(s) && t < |s.tasks| && SameNames(s.cache, c) && TaskShape(s.cache, Task(at, held))
    requires forall b: nat :: b < |c.bufs| ==>
      (c.bufs[b].count as int - s.cache.bufs[b].count as int
       - TaskPins(Task(at, held), b) + TaskPins(s.tasks[t], b)) % 256 == 0
    ensures WrapInv(Put(s, t, c, at, held).s)
  {
    hide CacheOk, CountsOk, TaskPins;
    SameNamesKeep(s.cache, c);
    PutCounts(s, t, c, Task(at, held));
  }

  /** A task goes somewhere else with the same pins. */
  lemma MoveWraps(s: State, t: nat, at: At)
    requires WrapInv(s) && t < |s.tasks| && !s.tasks[t].at.PinWait? && !at.PinWait?
    requires TaskShape(s.cache, Task(at, s.tasks[t].held))
    ensures WrapInv(Put(s, t, s.cache, at, s.tasks[t].held).s)
  {
    hide TaskShape, CacheOk, CountsOk;
    PutWraps(s, t, s.cache, at, s.tasks[t].held);
  }

  lemma LookupWraps(s: State, t: nat)
    requires WrapInv(s) && t < |s.tasks| && CanGo(s, t) && s.tasks[t].at.Lookup?
    ensures Advance(s, t).Runs? && WrapInv(Advance(s, t).s)
  {
    hide CacheOk, CountsOk, Victim;
    var held, c := s.tasks[t].held, s.cache;
    var Lookup(dev, block, getblk) := s.tasks[t].at;
    if Find(c, dev, block).Some? {
      var b := Find(c, dev, block).value;
      PutWraps(s, t, Pin(c, b), PinWait(b, dev, block, getblk), held);
    } else if !getblk {
      MoveWraps(s, t, Out);
    } else if Victim(c).None? {
      MoveWraps(s, t, FreeWait(dev, block));
    } else {
      MoveWraps(s, t, VictimWait(Victim(c).value, dev, block));
    }
  }

  lemma PinWaitWraps(s: State, t: nat)
    requires WrapInv(s) && t < |s.tasks| && CanGo(s, t) && s.tasks[t].at.PinWait?
    ensures Advance(s, t).Runs? && WrapInv(Advance(s, t).s)
  {
    hide CacheOk, CountsOk;
    var held, c := s.tasks[t].held, s.cache;
    var PinWait(b, dev, block, getblk) := s.tasks[t].at;
    if c.bufs[b].dev == dev && c.bufs[b].block == block {
      var p := Pinned(b, dev, block);
      forall x: nat ensures HeldPins(held + [p], x) == TaskPins(s.tasks[t], x) { HeldSplit(held, [p], x); }
      PutWraps(s, t, c, Out, held + [p]);
    } else {
      PutWraps(s, t, Unpin(c, b), Lookup(dev, block, getblk), held);
    }
  }

  /** The end of getblk: the victim, whose count is 0, gets the identity and count 1. */
  lemma FinishWraps(s: State, t: nat, v: nat, dev: UInt16, block: UInt32)
    requires WrapInv(s) && t < |s.tasks| && v < |s.cache.bufs| && dev != 0
    requires s.cache.bufs[v].count == 0 && !s.tasks[t].at.PinWait?
    ensures Finish(s, t, v, dev, block).Runs? && WrapInv(Finish(s, t, v, dev, block).s)
  {
    hide CacheOk, CountsOk;
    var held, p := s.tasks[t].held, Pinned(v, dev, block);
    if Find(s.cache, dev, block).Some? {
      MoveWraps(s, t, Lookup(dev, block, true));
    } else {
      ReassignKeeps(s.cache, v, dev, block);
      forall b: nat | b < |s.cache.bufs|
        ensures TaskPins(Task(Out, held + [p]), b) == TaskPins(s.tasks[t], b) + if b == v then 1 else 0
      {
        HeldSplit(held, [p], b);
      }
      PutCounts(s, t, Reassign(s.cache, v, dev, block), Task(Out, held + [p]));
    }
  }

  lemma VictimWraps(s: State, t: nat)
    requires WrapInv(s) && t < |s.tasks| && CanGo(s, t)
    requires s.tasks[t].at.VictimWait? || s.tasks[t].at.DirtWait?
    ensures Advance(s, t).Runs? && WrapInv(Advance(s, t).s)
  {
    hide CacheOk, CountsOk, Reassign, Find;
    var c := s.cache;
    var v, dev, block := s.tasks[t].at.v, s.tasks[t].at.dev, s.tasks[t].at.block;
    if c.bufs[v].count != 0 {
      MoveWraps(s, t, Lookup(dev, block, true));
    } else if c.bufs[v].dirt == 1 {
      MoveWraps(s, t, DirtWait(v, dev, block));
    } else {
      FinishWraps(s, t, v, dev, block);
    }
  }

  ghost function Dropped(held: seq<Pinned>, i: nat): seq<Pinned>
    requires i < |held|
  {
    held[..i] + held[i + 1..]
  }

  lemma ReleaseWraps(s: State, t: nat)
    requires WrapInv(s) && t < |s.tasks| && CanGo(s, t) && s.tasks[t].at.ReleaseWait? && Advance(s, t).Runs?
    ensures WrapInv(Advance(s, t).s)
  {
    hide CacheOk, CountsOk;
    var held, i := s.tasks[t].held, s.tasks[t].at.i;
    var b := held[i].b;
    forall x: nat ensures HeldPins(held, x) == HeldPins(Dropped(held, i), x) + if b == x then 1 else 0 {
      HeldOne(held, i, x);
    }
    PutWraps(s, t, Unpin(s.cache, b), Out, Dropped(held, i));
  }

  /** Every step that is no panic keeps the cache well formed and the counts modulo 256. */
  lemma StepWraps(s: State, t: nat, e: Event)
    requires WrapInv(s) && Enabled(s, t, e) && Next(s, t, e).Runs?
    ensures WrapInv(Next(s, t, e).s)
  {
    hide CacheOk, CountsOk;
    match e
    case CallGetblk(dev, block) => MoveWraps(s, t, Lookup(dev, block, true));
    case CallHash(dev, block) => MoveWraps(s, t, Lookup(dev, block, false));
    case CallBrelse(i) => MoveWraps(s, t, ReleaseWait(i));
    case CallLock(i) => MoveWraps(s, t, LockWait(i));
    case CallRead(i) => MoveWraps(s, t, Next(s, t, e).s.tasks[t].at);
    case Go => GoWraps(s, t);
    case Device(b, lock, dirt, uptodate) => DeviceWraps(s, t, b, lock, dirt, uptodate);
  }

  lemma GoWraps(s: State, t: nat)
    requires WrapInv(s) && t < |s.tasks| && CanGo(s, t) && Advance(s, t).Runs?
    ensures WrapInv(Advance(s, t).s)
  {
    hide CacheOk, CountsOk;
    match s.tasks[t].at
    case Lookup(_, _, _) => LookupWraps(s, t);
    case PinWait(_, _, _, _) => PinWaitWraps(s, t);
    case FreeWait(dev, block) => MoveWraps(s, t, Lookup(dev, block, true));
    case VictimWait(_, _, _) => VictimWraps(s, t);
    case DirtWait(_, _, _) => VictimWraps(s, t);
    case ReleaseWait(_) => ReleaseWraps(s, t);
    case LockWait(i) => PutWraps(s, t, Locked(s.cache, s.tasks[t].held[i].b), Out, s.tasks[t].held);
    case ReadWait(i) => MoveWraps(s, t, Advance(s, t).s.tasks[t].at);
  }

  lemma DeviceWraps(s: State, t: nat, b: nat, lock: UInt8, dirt: UInt8, uptodate: UInt8)
    requires WrapInv(s) && b < |s.cache.bufs|
    ensures Next(s, t, Device(b, lock, dirt, uptodate)).Runs?
    ensures WrapInv(Next(s, t, Device(b, lock, dirt, uptodate)).s)
  {
    SameNamesKeep(s.cache, Next(s, t, Device(b, lock, dirt, uptodate)).s.cache);
  }

  // ---- steps, with fewer than 256 pins ----

  lemma PinsBelow(s: State, b: nat)
    requires Bounded(s) && CountsOk(s) && b < |s.cache.bufs|
    ensures s.cache.bufs[b].count as int == Pins(s.tasks, b) < 256
  {
  }

  /** A step of one task that keeps all identities keeps the pins of all tasks right. */
  lemma PutPins(s: State, t: nat, c: Cache, x: Task)
    requires AllPinsOk(s.cache, s.tasks)
    requires t < |s.tasks| && SameNames(s.cache, c) && PinsOk(s.cache, x)
    ensures AllPinsOk(c, s.tasks[t := x])
  {
    var tasks' := s.tasks[t := x];
    forall u | 0 <= u < |s.tasks| ensures PinsOk(c, tasks'[u]) {
      var y := tasks'[u];
      assert PinsOk(s.cache, y);
      forall i | 0 <= i < |y.held| ensures PinOk(c, y.held[i]) { assert PinOk(s.cache, y.held[i]); }
      if y.at.PinWait? { assert PinOk(s.cache, Pinned(y.at.b, y.at.dev, y.at.block)); }
    }
  }

  /** A task without a pin on v does not notice that v changes its identity. */
  lemma NoPins(c: Cache, c': Cache, t: Task, v: nat)
    requires v < |c.bufs| == |c'.bufs| && PinsOk(c, t) && TaskPins(t, v) == 0
    requires forall x :: 0 <= x < |c.bufs| && x != v ==> c'.bufs[x] == c.bufs[x]
    ensures PinsOk(c', t)
  {
    forall i | 0 <= i < |t.held| ensures PinOk(c', t.held[i]) {
      assert PinOk(c, t.held[i]);
      HeldOne(t.held, i, v);
    }
  }

  /** The victim of a finished getblk: no task has a pin on it. */
  lemma FinishPins(s: State, t: nat, v: nat, dev: UInt16, block: UInt32)
    requires Inv(s) && Bounded(s) && t < |s.tasks| && v < |s.cache.bufs| && dev != 0
    requires s.cache.bufs[v].count == 0
    ensures var s' := Finish(s, t, v, dev, block).s; AllPinsOk(s'.cache, s'.tasks)
  {
    hide CacheOk;
    var held, p := s.tasks[t].held, Pinned(v, dev, block);
    if Find(s.cache, dev, block).Some? {
      PutPins(s, t, s.cache, Task(Lookup(dev, block, true), held));
    } else {
      PinsBelow(s, v);
      hide CountsOk, Bounded, TaskShape;
      var c' := Reassign(s.cache, v, dev, block);
      var tasks' := s.tasks[t := Task(Out, held + [p])];
      forall u | 0 <= u < |s.tasks| ensures PinsOk(c', tasks'[u]) {
        PinsUpdate(s.tasks, u, s.tasks[u], v);
        NoPins(s.cache, c', s.tasks[u], v);
        if u == t { HeldOk(c', held, p); }
      }
    }
  }

  lemma HeldOk(c: Cache, held: seq<Pinned>, p: Pinned)
    requires PinOk(c, p) && forall i :: 0 <= i < |held| ==> PinOk(c, held[i])
    ensures PinsOk(c, Task(Out, held + [p]))
  {
  }

  lemma DroppedOk(c: Cache, held: seq<Pinned>, i: nat)
    requires i < |held| && forall j :: 0 <= j < |held| ==> PinOk(c, held[j])
    ensures PinsOk(c, Task(Out, Dropped(held, i)))
  {
    var rest := Dropped(held, i);
    forall j | 0 <= j < |rest| ensures PinOk(c, rest[j]) { assert rest[j] == held[if j < i then j else j + 1]; }
  }

  /** A buffer that a task holds has a count other than 0. */
  lemma HeldIsCounted(s: State, t: nat, i: nat)
    requires Inv(s) && Bounded(s) && t < |s.tasks| && i < |s.tasks[t].held|
    ensures var b := s.tasks[t].held[i].b; b < |s.cache.bufs| && s.cache.bufs[b].count != 0
  {
    hide CacheOk;
    var b := s.tasks[t].held[i].b;
    HeldOne(s.tasks[t].held, i, b);
    PinsUpdate(s.tasks, t, s.tasks[t], b);
    PinsBelow(s, b);
  }

  lemma GoPins(s: State, t: nat)
    requires Inv(s) && Bounded(s) && t < |s.tasks| && CanGo(s, t)
    ensures Advance(s, t).Runs?
    ensures var s' := Advance(s, t).s; AllPinsOk(s'.cache, s'.tasks)
  {
    hide CacheOk, Victim, Reassign;
    var c, held := s.cache, s.tasks[t].held;
    match s.tasks[t].at
    case Lookup(dev, block, getblk) =>
      PutPins(s, t, Advance(s, t).s.cache, Advance(s, t).s.tasks[t]);
    case PinWait(b, dev, block, getblk) =>
      assert PinOk(c, Pinned(b, dev, block));
      HeldOk(c, held, Pinned(b, dev, block));
      PutPins(s, t, c, Task(Out, held + [Pinned(b, dev, block)]));
    case FreeWait(dev, block) => PutPins(s, t, c, Task(Lookup(dev, block, true), held));
    case VictimWait(v, dev, block) => VictimPins(s, t, v, dev, block);
    case DirtWait(v, dev, block) => VictimPins(s, t, v, dev, block);
    case ReleaseWait(i) =>
      HeldIsCounted(s, t, i);
      DroppedOk(c, held, i);
      PutPins(s, t, Unpin(c, held[i].b), Task(Out, Dropped(held, i)));
    case LockWait(i) => PutPins(s, t, Locked(c, held[i].b), Task(Out, held));
    case ReadWait(i) => PutPins(s, t, c, Advance(s, t).s.tasks[t]);
  }

  lemma VictimPins(s: State, t: nat, v: nat, dev: UInt16, block: UInt32)
    requires Inv(s) && Bounded(s) && t < |s.tasks| && CanGo(s, t)
    requires s.tasks[t].at == VictimWait(v, dev, block) || s.tasks[t].at == DirtWait(v, dev, block)
    ensures Advance(s, t).Runs?
    ensures var s' := Advance(s, t).s; AllPinsOk(s'.cache, s'.tasks)
  {
    hide CacheOk, Finish, CountsOk;
    var c, held := s.cache, s.tasks[t].held;
    if c.bufs[v].count != 0 {
      PutPins(s, t, c, Task(Lookup(dev, block, true), held));
    } else if c.bufs[v].dirt == 1 {
      PutPins(s, t, c, Task(DirtWait(v, dev, block), held));
    } else {
      FinishPins(s, t, v, dev, block);
      FinishWraps(s, t, v, dev, block);
    }
  }

  /** Every step keeps the invariant; in particular brelse never panics. */
  lemma StepKeeps(s: State, t: nat, e: Event)
    requires Inv(s) && Bounded(s) && Enabled(s, t, e)
    ensures Next(s, t, e).Runs? && Inv(Next(s, t, e).s)
  {
    hide CacheOk, Bounded, CountsOk, Advance, CanGo;
    match e
    case Go => GoPins(s, t); StepWraps(s, t, e);
    case Device(b, lock, dirt, uptodate) =>
      StepWraps(s, t, e);
      forall u | 0 <= u < |s.tasks| ensures PinsOk(Next(s, t, e).s.cache, s.tasks[u]) {
        assert s.tasks[u := s.tasks[u]] == s.tasks;
        PutPins(s, u, Next(s, t, e).s.cache, s.tasks[u]);
      }
    case _ =>
      StepWraps(s, t, e);
      PutPins(s, t, s.cache, Next(s, t, e).s.tasks[t]);
  }

  // ---- runs ----

  datatype Move = Move(t: nat, e: Event)

  /** A run of the cache: no panic so far. */
  ghost predicate IsAnyRun(ss: seq<State>, moves: seq<Move>) {
    && |ss| == |moves| + 1
    && forall i :: 0 <= i < |moves| ==>
         Enabled(ss[i], moves[i].t, moves[i].e) && Next(ss[i], moves[i].t, moves[i].e) == Runs(ss[i + 1])
  }

  /** A run that never has 256 pins on one buffer. */
  ghost predicate IsRun(ss: seq<State>, moves: seq<Move>) {
    IsAnyRun(ss, moves) && forall i :: 0 <= i < |ss| ==> Bounded(ss[i])
  }

  /** After buffer_init: every buffer free, without identity, in a ring; every task outside. */
  ghost predicate Initial(s: State) {
    && RingOk(s.cache)
    && (forall b :: 0 <= b < |s.cache.bufs| ==> s.cache.bufs[b].dev == 0 && s.cache.bufs[b].count == 0)
    && forall t :: 0 <= t < |s.tasks| ==> s.tasks[t] == Task(Out, [])
  }

  lemma {:induction false} NoPinsYet(tasks: seq<Task>, b: nat)
    requires forall t :: 0 <= t < |tasks| ==> tasks[t] == Task(Out, [])
    ensures Pins(tasks, b) == 0
  {
    if tasks != [] { NoPinsYet(tasks[1..], b); }
  }

  lemma InitialInv(s: State)
    requires Initial(s)
    ensures Inv(s)
  {
    forall b: nat { NoPinsYet(s.tasks, b); }
  }

  /** With any number of pins: the cache is well formed and the counts are right modulo 256. */
  lemma {:induction false} AnyRunKeeps(ss: seq<State>, moves: seq<Move>, i: nat)
    requires IsAnyRun(ss, moves) && Initial(ss[0]) && i < |ss|
    ensures WrapInv(ss[i])
    decreases i
  {
    if i == 0 {
      InitialInv(ss[0]);
    } else {
      hide WrapInv, Enabled, Next;
      AnyRunKeeps(ss, moves, i - 1);
      assert Next(ss[i - 1], moves[i - 1].t, moves[i - 1].e) == Runs(ss[i]);
      StepWraps(ss[i - 1], moves[i - 1].t, moves[i - 1].e);
    }
  }

  /** With fewer than 256: every pin is on the buffer that was asked for. */
  lemma {:induction false} RunKeeps(ss: seq<State>, moves: seq<Move>, i: nat)
    requires IsRun(ss, moves) && Initial(ss[0]) && i < |ss|
    ensures Inv(ss[i]) && Bounded(ss[i])
    decreases i
  {
    if i == 0 {
      InitialInv(ss[0]);
    } else {
      hide Inv, Enabled, Next, Bounded;
      RunKeeps(ss, moves, i - 1);
      StepKeeps(ss[i - 1], moves[i - 1].t, moves[i - 1].e);
    }
  }

  // ---- main results ----

  /** At most one buffer ever carries a given device and block, however many pins there are. */
  lemma OneBufferPerBlock(ss: seq<State>, moves: seq<Move>, i: nat, x: nat, y: nat)
    requires IsAnyRun(ss, moves) && Initial(ss[0]) && i < |ss|
    requires x < |ss[i].cache.bufs| && y < |ss[i].cache.bufs|
    requires ss[i].cache.bufs[y].Is(ss[i].cache.bufs[x].dev, ss[i].cache.bufs[x].block)
    ensures x == y
  {
    AnyRunKeeps(ss, moves, i);
  }

  /** A buffer whose b_count is not 0 never changes identity, whichever task moves. */
  lemma PinnedKeepsIdentity(s: State, t: nat, e: Event, b: nat)
    requires Enabled(s, t, e) && Next(s, t, e).Runs? && b < |s.cache.bufs| && s.cache.bufs[b].count != 0
    ensures var c, c' := s.cache, Next(s, t, e).s.cache;
      b < |c'.bufs| && c'.bufs[b].dev == c.bufs[b].dev && c'.bufs[b].block == c.bufs[b].block
  {
  }

  /** The identity check of get_hash_table (line 132) always succeeds: a task that leaves the
      wait on the lock returns the buffer it pinned, and nothing else has changed. */
  lemma RecheckSucceeds(ss: seq<State>, moves: seq<Move>, i: nat, t: nat)
    requires IsRun(ss, moves) && Initial(ss[0]) && i < |ss|
    requires t < |ss[i].tasks| && ss[i].tasks[t].at.PinWait? && CanGo(ss[i], t)
    ensures var s, at, held := ss[i], ss[i].tasks[t].at, ss[i].tasks[t].held;
      Advance(s, t) == Runs(State(s.cache, s.tasks[t := Task(Out, held + [Pinned(at.b, at.dev, at.block)])]))
  {
    hide WrapInv, Bounded;
    RunKeeps(ss, moves, i);
    var at := ss[i].tasks[t].at;
    assert PinOk(ss[i].cache, Pinned(at.b, at.dev, at.block));
  }

  /** What a task has got from getblk or get_hash_table is, until it releases it, the buffer
      of the block it asked for; two tasks that ask for the same block share the buffer. */
  lemma HeldIsWhatWasAsked(ss: seq<State>, moves: seq<Move>, i: nat, t: nat, x: nat, u: nat, y: nat)
    requires IsRun(ss, moves) && Initial(ss[0]) && i < |ss|
    requires t < |ss[i].tasks| && x < |ss[i].tasks[t].held| && u < |ss[i].tasks| && y < |ss[i].tasks[u].held|
    ensures var p, q, c := ss[i].tasks[t].held[x], ss[i].tasks[u].held[y], ss[i].cache;
      && p.b < |c.bufs| && c.bufs[p.b].dev == p.dev && c.bufs[p.b].block == p.block && c.bufs[p.b].count > 0
      && (p.dev == q.dev && p.block == q.block ==> p.b == q.b)
  {
    RunKeeps(ss, moves, i);
    var s := ss[i];
    assert PinOk(s.cache, s.tasks[t].held[x]) && PinOk(s.cache, s.tasks[u].held[y]);
    HeldIsCounted(s, t, x);
  }

  /** b_count is the number of pins, and brelse never finds it 0. */
  lemma CountIsPins(ss: seq<State>, moves: seq<Move>, i: nat, b: nat)
    requires IsRun(ss, moves) && Initial(ss[0]) && i < |ss| && b < |ss[i].cache.bufs|
    ensures ss[i].cache.bufs[b].count as int == Pins(ss[i].tasks, b)
    ensures forall t, e :: Enabled(ss[i], t, e) ==> Next(ss[i], t, e).Runs?
  {
    RunKeeps(ss, moves, i);
    PinsBelow(ss[i], b);
    hide Inv, Bounded, Enabled, Next;
    forall t, e | Enabled(ss[i], t, e) ensures Next(ss[i], t, e).Runs? { StepKeeps(ss[i], t, e); }
  }
}
