/** What the callers of getblk, get_hash_table, bread, brelse and lock_buffer may rely on
    (fs/buffer.c:22-32, 117-251), over every interleaving, with any number of pins: locks
    exclude, data are never stale, nothing dirty is taken, and the buffer that was given out
    longest ago is taken first. */
module CacheLaws {
  import opened Basics
  import opened Cache
  import opened CacheTasks
  import opened CacheRuns
  import opened CacheOverflow

  /** Task t makes the call at step i and is not back before step j. */
  ghost predicate Calling(ss: seq<State>, moves: seq<Move>, i: nat, j: nat, t: nat, e: Event) {
    && IsAnyRun(ss, moves) && i < j < |ss| && moves[i] == Move(t, e)
    && forall k :: i < k < j ==> t < |ss[k].tasks| && ss[k].tasks[t].at != Out
  }

  /** It is back at step j. */
  ghost predicate Returned(ss: seq<State>, moves: seq<Move>, i: nat, j: nat, t: nat, e: Event) {
    Calling(ss, moves, i, j, t, e) && t < |ss[i].tasks| && t < |ss[j].tasks| && ss[j].tasks[t].at == Out
  }

  // ---- lock_buffer ----

  /** Task t returns from lock_buffer of b in this step. */
  ghost predicate Locks(s: State, m: Move, b: nat) {
    && m.e.Go? && m.t < |s.tasks| && s.tasks[m.t].at.LockWait?
    && s.tasks[m.t].at.i < |s.tasks[m.t].held| && s.tasks[m.t].held[s.tasks[m.t].at.i].b == b
  }

  /** What lock_buffer does: it returns only when the buffer is unlocked, and leaves it locked. */
  lemma LockDoes(s: State, m: Move, b: nat)
    requires Enabled(s, m.t, m.e) && Locks(s, m, b)
    ensures b < |s.cache.bufs| && s.cache.bufs[b].lock == 0 && Next(s, m.t, m.e).Runs?
    ensures var c, s' := s.cache, Next(s, m.t, m.e).s;
      s' == State(Cache(c.bufs[b := c.bufs[b].(lock := 1)], c.ring), s.tasks[m.t := Task(Out, s.tasks[m.t].held)])
  {
  }

  /** A step that unlocks b. */
  predicate Unlocks(m: Move, b: nat) { m.e.Device? && m.e.b == b && m.e.lock == 0 }

  /** A buffer stays locked until it is unlocked, whoever moves meanwhile. */
  lemma {:induction false} StaysLocked(ss: seq<State>, moves: seq<Move>, i: nat, j: nat, b: nat)
    requires IsAnyRun(ss, moves) && i <= j < |ss| && b < |ss[i].cache.bufs| && ss[i].cache.bufs[b].lock != 0
    requires forall k :: i <= k < j ==> !Unlocks(moves[k], b)
    ensures b < |ss[j].cache.bufs| && ss[j].cache.bufs[b].lock != 0
    decreases j - i
  {
    hide Enabled, Next;
    if i < j {
      StaysLocked(ss, moves, i, j - 1, b);
      assert Next(ss[j - 1], moves[j - 1].t, moves[j - 1].e) == Runs(ss[j]);
      LockStays(ss[j - 1], moves[j - 1], b);
    }
  }

  lemma LockStays(s: State, m: Move, b: nat)
    requires Enabled(s, m.t, m.e) && Next(s, m.t, m.e).Runs? && b < |s.cache.bufs|
    requires s.cache.bufs[b].lock != 0 && !Unlocks(m, b)
    ensures b < |Next(s, m.t, m.e).s.cache.bufs| && Next(s, m.t, m.e).s.cache.bufs[b].lock != 0
  {
    hide Victim;
  }

  /** Mutual exclusion: of two returns from lock_buffer of one buffer, in one task or two, the
      second comes after the buffer was unlocked. */
  lemma LocksExclude(ss: seq<State>, moves: seq<Move>, i: nat, j: nat, b: nat)
    requires IsAnyRun(ss, moves) && i < j < |moves| && Locks(ss[i], moves[i], b) && Locks(ss[j], moves[j], b)
    ensures exists k :: i < k < j && Unlocks(moves[k], b)
  {
    hide Enabled, Next;
    LockDoes(ss[i], moves[i], b);
    LockDoes(ss[j], moves[j], b);
    assert Next(ss[i], moves[i].t, moves[i].e) == Runs(ss[i + 1]);
    if forall k :: i < k < j ==> !Unlocks(moves[k], b) {
      StaysLocked(ss, moves, i + 1, j, b);
    }
  }

  /** lock_buffer: its last step finds the buffer unlocked and locks it. */
  lemma {:induction false} LockReturnsLocked(ss: seq<State>, moves: seq<Move>, i: nat, j: nat, t: nat, x: nat)
    requires Calling(ss, moves, i, j, t, CallLock(x))
    ensures t < |ss[i].tasks| && x < |ss[i].tasks[t].held| && t < |ss[j].tasks|
    ensures ss[j].tasks[t].held == ss[i].tasks[t].held
    ensures ss[j].tasks[t].at == LockWait(x)
            || (ss[j].tasks[t].at == Out && j > i + 1 && moves[j - 1].t == t
                && Locks(ss[j - 1], moves[j - 1], ss[i].tasks[t].held[x].b))
    decreases j
  {
    hide Advance, CanGo;
    var s, m := ss[j - 1], moves[j - 1];
    assert Enabled(s, m.t, m.e) && Next(s, m.t, m.e) == Runs(ss[j - 1 + 1]);
    if j > i + 1 {
      LockReturnsLocked(ss, moves, i, j - 1, t, x);
      OthersStay(s, m, t);
      if m.t == t && !m.e.Device? { LockDoes(s, m, s.tasks[t].held[x].b); }
    }
  }

  // ---- what getblk and get_hash_table return ----

  /** The task is inside getblk or get_hash_table for the block. */
  ghost predicate Seeks(t: Task, held: seq<Pinned>, dev: UInt16, block: UInt32, getblk: bool) {
    && t.held == held
    && match t.at
       case Lookup(d, b, g) => d == dev && b == block && g == getblk
       case PinWait(_, d, b, g) => d == dev && b == block && g == getblk
       case FreeWait(d, b) => d == dev && b == block && getblk
       case VictimWait(_, d, b) => d == dev && b == block && getblk
       case DirtWait(_, d, b) => d == dev && b == block && getblk
       case _ => false
  }

  ghost predicate Got(t: Task, held: seq<Pinned>, dev: UInt16, block: UInt32) {
    t.at == Out && |t.held| == |held| + 1 && t.held == held + [Pinned(t.held[|held|].b, dev, block)]
  }

  lemma SeekStep(s: State, m: Move, t: nat, dev: UInt16, block: UInt32, getblk: bool)
    requires Enabled(s, m.t, m.e) && Next(s, m.t, m.e).Runs? && t < |s.tasks|
    requires Seeks(s.tasks[t], s.tasks[t].held, dev, block, getblk)
    ensures var held, s' := s.tasks[t].held, Next(s, m.t, m.e).s;
      && t < |s'.tasks|
      && (|| Seeks(s'.tasks[t], held, dev, block, getblk) || Got(s'.tasks[t], held, dev, block)
          || (s'.tasks[t] == Task(Out, held) && !getblk && s'.cache == s.cache && Find(s.cache, dev, block).None?))
  {
    hide Victim, Find, Reassign, Unlocked;
    OthersStay(s, m, t);
  }

  /** Nobody moves another task. */
  lemma OthersStay(s: State, m: Move, t: nat)
    requires Enabled(s, m.t, m.e) && Next(s, m.t, m.e).Runs? && t < |s.tasks|
    ensures var s' := Next(s, m.t, m.e).s;
      t < |s'.tasks| && (m.t != t || m.e.Device? ==> s'.tasks[t] == s.tasks[t])
  {
    hide Victim, Find, Reassign, Unlocked;
  }

  ghost function Call(dev: UInt16, block: UInt32, getblk: bool): Event {
    if getblk then CallGetblk(dev, block) else CallHash(dev, block)
  }

  lemma {:induction false} SeekGoesOn(ss: seq<State>, moves: seq<Move>, i: nat, j: nat, t: nat,
                                      dev: UInt16, block: UInt32, getblk: bool)
    requires Calling(ss, moves, i, j, t, Call(dev, block, getblk))
    ensures t < |ss[i].tasks| && t < |ss[j].tasks| && dev != 0
    ensures var held, t' := ss[i].tasks[t].held, ss[j].tasks[t];
      || Seeks(t', held, dev, block, getblk) || Got(t', held, dev, block)
      || (t' == Task(Out, held) && !getblk && Find(ss[j].cache, dev, block).None?)
    decreases j
  {
    hide Next, Enabled;
    var s, m := ss[j - 1], moves[j - 1];
    assert Enabled(s, m.t, m.e) && Next(s, m.t, m.e) == Runs(ss[j - 1 + 1]);
    if j > i + 1 {
      SeekGoesOn(ss, moves, i, j - 1, t, dev, block, getblk);
      SeekStep(s, m, t, dev, block, getblk);
    } else {
      CallStep(s, t, dev, block, getblk);
    }
  }

  lemma CallStep(s: State, t: nat, dev: UInt16, block: UInt32, getblk: bool)
    requires Enabled(s, t, Call(dev, block, getblk))
    ensures t < |s.tasks| && dev != 0
    ensures Next(s, t, Call(dev, block, getblk))
         == Runs(State(s.cache, s.tasks[t := Task(Lookup(dev, block, getblk), s.tasks[t].held)]))
  {
  }

  /** getblk and get_hash_table: what they return is one more buffer, pinned, and it is the block
      asked for and unlocked; get_hash_table may also return with nothing, and then no buffer has
      the block. */
  lemma SeekReturns(ss: seq<State>, moves: seq<Move>, i: nat, j: nat, t: nat, dev: UInt16, block: UInt32, getblk: bool)
    requires Returned(ss, moves, i, j, t, Call(dev, block, getblk)) && Initial(ss[0])
    ensures var held, t', c := ss[i].tasks[t].held, ss[j].tasks[t], ss[j].cache;
      || (&& Got(t', held, dev, block) && Has(c, t'.held[|held|].b, dev, block)
          && c.bufs[t'.held[|held|].b].lock == 0)
      || (!getblk && t'.held == held && forall b: nat :: !Has(c, b, dev, block))
  {
    hide Next, Enabled, Initial;
    SeekGoesOn(ss, moves, i, j, t, dev, block, getblk);
    if Got(ss[j].tasks[t], ss[i].tasks[t].held, dev, block) {
      assert Enabled(ss[i], moves[i].t, moves[i].e) && Next(ss[i], moves[i].t, moves[i].e) == Runs(ss[i + 1]);
      CallStep(ss[i], t, dev, block, getblk);
      SeekGoesOn(ss, moves, i, j - 1, t, dev, block, getblk);
      ReturnsUnlocked(ss, moves, j - 1, t);
    } else {
      forall b: nat ensures !Has(ss[j].cache, b, dev, block) {
        assert b < |ss[j].cache.bufs| ==> !ss[j].cache.bufs[b].Is(dev, block);
      }
    }
  }

  /** What a task gets is unlocked then, and is the block it asked for, with any number of pins. */
  lemma ReturnsUnlocked(ss: seq<State>, moves: seq<Move>, i: nat, t: nat)
    requires IsAnyRun(ss, moves) && Initial(ss[0]) && i < |moves| && t < |ss[i].tasks| && t < |ss[i + 1].tasks|
    requires |ss[i + 1].tasks[t].held| > |ss[i].tasks[t].held|
    ensures var c, held, held' := ss[i + 1].cache, ss[i].tasks[t].held, ss[i + 1].tasks[t].held;
      && |held'| == |held| + 1 && held' == held + [held'[|held|]] && ss[i + 1].tasks[t].at == Out
      && var p := held'[|held|];
         && p.b < |c.bufs| && c.bufs[p.b].lock == 0 && c.bufs[p.b].dev == p.dev && c.bufs[p.b].block == p.block
         && Asked(ss[i].tasks[t].at, p)
  {
    hide CountsOk, Initial, CacheOk, Victim;
    AnyRunKeeps(ss, moves, i);
    assert Next(ss[i], moves[i].t, moves[i].e) == Runs(ss[i + 1]);
    assert TaskShape(ss[i].cache, ss[i].tasks[t]);
  }

  /** The block that a task inside getblk or get_hash_table was called for. */
  predicate Asked(at: At, p: Pinned) {
    match at
    case PinWait(_, dev, block, _) => p.dev == dev && p.block == block
    case VictimWait(_, dev, block) => p.dev == dev && p.block == block
    case DirtWait(_, dev, block) => p.dev == dev && p.block == block
    case _ => false
  }

  /** find_buffer hits just when some buffer has the block, which then gets a pin; a miss ends
      get_hash_table with nothing, and changes nothing. */
  lemma LookupDoes(ss: seq<State>, i: nat, moves: seq<Move>, t: nat)
    requires IsAnyRun(ss, moves) && Initial(ss[0]) && i < |moves| && moves[i] == Move(t, Go)
    requires t < |ss[i].tasks| && ss[i].tasks[t].at.Lookup?
    ensures var s, s', at := ss[i], ss[i + 1], ss[i].tasks[t].at;
      && s'.tasks == s.tasks[t := Task(s'.tasks[t].at, s.tasks[t].held)]
      && (forall b: nat :: Has(s.cache, b, at.dev, at.block) ==>
            s'.tasks[t].at == PinWait(b, at.dev, at.block, at.getblk)
            && s'.cache == Cache(s.cache.bufs[b := s'.cache.bufs[b]], s.cache.ring)
            && s'.cache.bufs[b] == s.cache.bufs[b].(count := s'.cache.bufs[b].count)
            && s'.cache.bufs[b].count as int == (s.cache.bufs[b].count as int + 1) % 256)
      && ((forall b: nat :: !Has(s.cache, b, at.dev, at.block)) ==>
            s'.cache == s.cache
            && (!at.getblk ==> s'.tasks[t].at == Out)
            && (at.getblk && AllPinned(s.cache) ==> s'.tasks[t].at == FreeWait(at.dev, at.block))
            && (at.getblk && !AllPinned(s.cache) ==> s'.tasks[t].at.VictimWait?))
  {
    hide CountsOk, Initial, Victim, RingOk;
    AnyRunKeeps(ss, moves, i);
    var c, at := ss[i].cache, ss[i].tasks[t].at;
    assert TaskShape(c, ss[i].tasks[t]);
    assert Next(ss[i], t, Go) == Runs(ss[i + 1]);
    NoVictim(c);
    forall b: nat | Has(c, b, at.dev, at.block) ensures Find(c, at.dev, at.block) == Some(b) {
      assert c.bufs[b].Is(at.dev, at.block);
    }
    assert Find(c, at.dev, at.block).Some? ==> Has(c, Find(c, at.dev, at.block).value, at.dev, at.block);
  }

  lemma NoVictim(c: Cache)
    requires RingOk(c)
    ensures Victim(c).None? <==> AllPinned(c)
  {
    hide Victim;
    var k := VictimIsFirstLeast(c);
    forall b | 0 <= b < |c.bufs| && Victim(c).None? ensures c.bufs[b].count != 0 { RingHasAll(c.ring, b); }
  }

  predicate Has(c: Cache, b: nat, dev: UInt16, block: UInt32) {
    b < |c.bufs| && c.bufs[b].dev == dev && c.bufs[b].block == block
  }

  /** It slept for a free buffer, or its buffer is pinned, or b has its block by now. */
  predicate MustLookAgain(c: Cache, at: At, b: nat) {
    match at
    case FreeWait(_, _) => true
    case VictimWait(v, dev, block) => IsGone(c, v, dev, block, b)
    case DirtWait(v, dev, block) => IsGone(c, v, dev, block, b)
    case _ => false
  }

  predicate IsGone(c: Cache, v: nat, dev: UInt16, block: UInt32, b: nat) {
    v < |c.bufs| && (c.bufs[v].count != 0 || (c.bufs[v].dirt != 1 && dev != 0 && Has(c, b, dev, block)))
  }

  /** A getblk that cannot go on, because it has slept for a free buffer, or the one it chose has
      been pinned or its own block has been cached meanwhile, looks its block up again. */
  lemma LooksAgain(s: State, t: nat, b: nat)
    requires t < |s.tasks| && CanGo(s, t) && CacheOk(s.cache) && b < |s.cache.bufs|
    requires MustLookAgain(s.cache, s.tasks[t].at, b)
    ensures Advance(s, t) == Put(s, t, s.cache, Lookup(s.tasks[t].at.dev, s.tasks[t].at.block, true), s.tasks[t].held)
  {
    var at := s.tasks[t].at;
    if !at.FreeWait? && Has(s.cache, b, at.dev, at.block) && at.dev != 0 {
      assert s.cache.bufs[b].Is(at.dev, at.block);
    }
  }

  /** brelse gives up one pin, once the buffer is unlocked, and nothing else. */
  lemma BrelseDoes(s: State, t: nat)
    requires t < |s.tasks| && CanGo(s, t) && s.tasks[t].at.ReleaseWait?
    ensures var i, held, c := s.tasks[t].at.i, s.tasks[t].held, s.cache;
      && i < |held| && held[i].b < |c.bufs|
      && var b, x := held[i].b, c.bufs[held[i].b];
      && x.lock == 0 && (Advance(s, t).Panics? <==> x.count == 0)
      && (x.count != 0 ==>
            Advance(s, t).s == State(Cache(c.bufs[b := x.(count := x.count - 1)], c.ring),
                                     s.tasks[t := Task(Out, held[..i] + held[i + 1..])]))
  {
  }

  /** brelse returns, when it does, by that step. */
  lemma {:induction false} BrelseGoesOn(ss: seq<State>, moves: seq<Move>, i: nat, j: nat, t: nat, x: nat)
    requires Calling(ss, moves, i, j, t, CallBrelse(x))
    ensures t < |ss[i].tasks| && x < |ss[i].tasks[t].held| && t < |ss[j].tasks|
    ensures var held, t' := ss[i].tasks[t].held, ss[j].tasks[t];
      || t' == Task(ReleaseWait(x), held)
      || (t' == Task(Out, held[..x] + held[x + 1..]) && j > i + 1 && moves[j - 1] == Move(t, Go)
          && ss[j - 1].tasks[t] == Task(ReleaseWait(x), held))
    decreases j
  {
    hide Advance, CanGo;
    var s, m := ss[j - 1], moves[j - 1];
    assert Enabled(s, m.t, m.e) && Next(s, m.t, m.e) == Runs(ss[j - 1 + 1]);
    if j > i + 1 {
      BrelseGoesOn(ss, moves, i, j - 1, t, x);
      OthersStay(s, m, t);
      if m.t == t && !m.e.Device? { BrelseDoes(s, t); }
    }
  }

  /** brelse: the task no longer holds the buffer, which was unlocked and has one pin less. */
  lemma BrelseReturns(ss: seq<State>, moves: seq<Move>, i: nat, j: nat, t: nat, x: nat)
    requires Returned(ss, moves, i, j, t, CallBrelse(x))
    ensures x < |ss[i].tasks[t].held|
    ensures var held, b, c, c' := ss[i].tasks[t].held, ss[i].tasks[t].held[x].b, ss[j - 1].cache, ss[j].cache;
      && ss[j].tasks[t].held == held[..x] + held[x + 1..]
      && b < |c.bufs| && c.bufs[b].lock == 0 && c.bufs[b].count > 0
      && c' == Cache(c.bufs[b := c.bufs[b].(count := c.bufs[b].count - 1)], c.ring)
  {
    hide Advance, CanGo;
    BrelseGoesOn(ss, moves, i, j, t, x);
    assert Enabled(ss[j - 1], t, Go) && Next(ss[j - 1], t, Go) == Runs(ss[j - 1 + 1]);
    BrelseDoes(ss[j - 1], t);
  }

  predicate AllPinned(c: Cache) { forall b :: 0 <= b < |c.bufs| ==> c.bufs[b].count != 0 }

  // ---- the data ----

  ghost predicate Renamed(c: Cache, c': Cache, b: nat) {
    && b < |c.bufs| && b < |c'.bufs|
    && (c'.bufs[b].dev != c.bufs[b].dev || c'.bufs[b].block != c.bufs[b].block)
  }

  /** Only a buffer that nobody has pinned, that is unlocked and whose dirty bit is clear is
      given away; it then is pinned once, clean, and holds no data. */
  lemma NothingDirtyIsTaken(ss: seq<State>, moves: seq<Move>, i: nat, b: nat)
    requires IsAnyRun(ss, moves) && Initial(ss[0]) && i < |moves| && Renamed(ss[i].cache, ss[i + 1].cache, b)
    ensures var x, y := ss[i].cache.bufs[b], ss[i + 1].cache.bufs[b];
      && x.count == 0 && x.lock == 0 && x.dirt != 1
      && y.count == 1 && y.lock == 0 && y.dirt == 0 && y.uptodate == 0 && y.dev != 0
    ensures ss[i + 1].cache.ring != [] && ss[i + 1].cache.ring[|ss[i + 1].cache.ring| - 1] == b
  {
    hide CacheOk, CountsOk, Initial, Victim;
    AnyRunKeeps(ss, moves, i);
    var s, m := ss[i], moves[i];
    assert Next(s, m.t, m.e) == Runs(ss[i + 1]);
    StepRenames(s, m.t, m.e, b);
    assert TaskShape(s.cache, s.tasks[m.t]);
  }

  /** Data are never stale: from the moment on when a buffer gets another block it is clean and
      not up to date, whoever moves, until the device changes it. */
  lemma {:induction false} NoStaleData(ss: seq<State>, moves: seq<Move>, i: nat, j: nat, b: nat)
    requires IsAnyRun(ss, moves) && Initial(ss[0]) && i < j < |ss| && Renamed(ss[i].cache, ss[i + 1].cache, b)
    requires forall k :: i < k < j ==> !(moves[k].e.Device? && moves[k].e.b == b)
    ensures b < |ss[j].cache.bufs| && ss[j].cache.bufs[b].dirt == 0 && ss[j].cache.bufs[b].uptodate == 0
    decreases j - i
  {
    hide Initial, Enabled, Next;
    if j == i + 1 {
      NothingDirtyIsTaken(ss, moves, i, b);
    } else {
      NoStaleData(ss, moves, i, j - 1, b);
      assert Next(ss[j - 1], moves[j - 1].t, moves[j - 1].e) == Runs(ss[j]);
      DataStay(ss[j - 1], moves[j - 1], b);
    }
  }

  /** No step but those of the device and the one that gives the buffer away touches the data. */
  lemma DataStay(s: State, m: Move, b: nat)
    requires Enabled(s, m.t, m.e) && Next(s, m.t, m.e).Runs? && b < |s.cache.bufs|
    requires !(m.e.Device? && m.e.b == b)
    ensures var c' := Next(s, m.t, m.e).s.cache;
      && b < |c'.bufs| && (c'.bufs[b].dirt == s.cache.bufs[b].dirt || c'.bufs[b].dirt == 0)
      && (c'.bufs[b].uptodate == s.cache.bufs[b].uptodate || c'.bufs[b].uptodate == 0)
  {
    hide Victim;
  }

  // ---- bread ----

  /** Buffer b was seen unlocked and not up to date between the two steps. */
  ghost predicate SeenEmpty(ss: seq<State>, i: nat, j: nat, b: nat) {
    exists k :: i < k < j < |ss| && Empty(ss[k].cache, b)
  }

  predicate Empty(c: Cache, b: nat) { b < |c.bufs| && c.bufs[b].lock == 0 && c.bufs[b].uptodate == 0 }

  /** While bread waits the task holds what it held, and it gives the buffer up only after it was
      seen unlocked and not up to date. */
  lemma {:induction false} ReadGoesOn(ss: seq<State>, moves: seq<Move>, i: nat, j: nat, t: nat, x: nat)
    requires Calling(ss, moves, i, j, t, CallRead(x))
    ensures t < |ss[i].tasks| && x < |ss[i].tasks[t].held| && t < |ss[j].tasks|
    ensures var held, b, t' := ss[i].tasks[t].held, ss[i].tasks[t].held[x].b, ss[j].tasks[t];
      || t' == Task(ReadWait(x), held)
      || (t' == Task(ReleaseWait(x), held) && SeenEmpty(ss, i, j, b))
      || (t' == Task(Out, held) && b < |ss[j].cache.bufs| && ss[j].cache.bufs[b].uptodate != 0)
      || (t' == Task(Out, held[..x] + held[x + 1..]) && SeenEmpty(ss, i, j, b))
    decreases j
  {
    hide CanGo;
    assert Enabled(ss[i], t, CallRead(x)) && Next(ss[i], t, CallRead(x)) == Runs(ss[i + 1]);
    if j > i + 1 {
      ReadGoesOn(ss, moves, i, j - 1, t, x);
      var s, m, b := ss[j - 1], moves[j - 1], ss[i].tasks[t].held[x].b;
      assert Enabled(s, m.t, m.e) && Next(s, m.t, m.e) == Runs(ss[j]);
      ReadStep(s, m, t, x);
      if s.tasks[t].at.ReadWait? && ss[j].tasks[t].at.ReleaseWait? {
        assert Empty(ss[j - 1].cache, b);
      }
      if SeenEmpty(ss, i, j - 1, b) {
        var k :| i < k < j - 1 && Empty(ss[k].cache, b);
        assert SeenEmpty(ss, i, j, b);
      }
    }
  }

  /** One step of anybody while t waits in bread. */
  lemma ReadStep(s: State, m: Move, t: nat, x: nat)
    requires Enabled(s, m.t, m.e) && Next(s, m.t, m.e).Runs? && t < |s.tasks|
    requires x < |s.tasks[t].held| && (s.tasks[t].at == ReadWait(x) || s.tasks[t].at == ReleaseWait(x))
    ensures var held, b, s' := s.tasks[t].held, s.tasks[t].held[x].b, Next(s, m.t, m.e).s;
      && t < |s'.tasks|
      && if m.t != t || m.e.Device? then s'.tasks[t] == s.tasks[t]
         else if s.tasks[t].at.ReleaseWait? then s'.tasks[t] == Task(Out, held[..x] + held[x + 1..])
         else b < |s.cache.bufs| && s.cache.bufs[b].lock == 0 && s'.cache == s.cache
              && s'.tasks[t] == Task(if s.cache.bufs[b].uptodate == 0 then ReleaseWait(x) else Out, held)
  {
    hide Victim;
  }

  /** bread: it returns at once just when the buffer is up to date; when it returns the task
      holds the buffer still, and it is up to date, or else has released it after the read left
      it unlocked and not up to date. */
  lemma BreadReturnsData(ss: seq<State>, moves: seq<Move>, i: nat, j: nat, t: nat, x: nat)
    requires Returned(ss, moves, i, j, t, CallRead(x))
    ensures x < |ss[i].tasks[t].held| && ss[i].tasks[t].held[x].b < |ss[i].cache.bufs|
    ensures j == i + 1 <==> ss[i].cache.bufs[ss[i].tasks[t].held[x].b].uptodate != 0
    ensures var held, b := ss[i].tasks[t].held, ss[i].tasks[t].held[x].b;
      || (ss[j].tasks[t].held == held && b < |ss[j].cache.bufs| && ss[j].cache.bufs[b].uptodate != 0)
      || (ss[j].tasks[t].held == held[..x] + held[x + 1..] && SeenEmpty(ss, i, j, b))
  {
    ReadGoesOn(ss, moves, i, j, t, x);
    assert Enabled(ss[i], t, CallRead(x)) && Next(ss[i], t, CallRead(x)) == Runs(ss[i + 1]);
    assert i + 1 < j ==> ss[i + 1].tasks[t].at != Out;
  }

  // ---- which buffer is taken ----

  /** With locks of 0 or 1 a clean buffer is taken before any dirty one, and of those that are
      free for the taking, clean and unlocked, the first in the ring. */
  lemma CleanIsTakenFirst(c: Cache, k: nat)
    requires RingOk(c) && k < |c.ring| && c.bufs[c.ring[k]].count == 0 && c.bufs[c.ring[k]].dirt == 0
    requires forall b :: 0 <= b < |c.bufs| ==> c.bufs[b].lock <= 1
    ensures Victim(c).Some? && c.bufs[Victim(c).value].count == 0 && c.bufs[Victim(c).value].dirt == 0
    ensures c.bufs[c.ring[k]].lock == 0 ==> c.bufs[Victim(c).value].lock == 0 && Victim(c).value in c.ring[..k + 1]
  {
    var n := VictimIsFirstLeast(c);
    if c.bufs[c.ring[k]].lock == 0 { assert n <= k && c.ring[..k + 1][n] == c.ring[n]; }
  }

  /** getblk of one block after another, each released at once. */
  function Use(c: Cache, ids: seq<(UInt16, UInt32)>): (r: Cache)
    requires RingOk(c)
    ensures RingOk(r) && |r.bufs| == |c.bufs|
  {
    if ids == [] then c
    else
      var d := Use(c, ids[..|ids| - 1]);
      match Victim(d)
      case None => d
      case Some(v) =>
        var (dev, block) := ids[|ids| - 1];
        UseKeeps(d, v, dev, block);
        Unpin(Reassign(d, v, dev, block), v)
  }

  lemma UseKeeps(c: Cache, v: nat, dev: UInt16, block: UInt32)
    requires RingOk(c) && v < |c.bufs|
    ensures RingOk(Unpin(Reassign(c, v, dev, block), v))
  {
    MoveToBackKeeps(c.ring, v, |c.bufs|);
  }

  predicate AllFree(c: Cache) {
    forall b :: 0 <= b < |c.bufs| ==> c.bufs[b].count == 0 && c.bufs[b].dirt == 0 && c.bufs[b].lock == 0
  }

  /** The buffers are taken in turn: after n blocks the ring has gone round by n places, so a
      buffer is taken again only after every other one. */
  lemma {:induction false} TakenInTurn(c: Cache, ids: seq<(UInt16, UInt32)>)
    requires RingOk(c) && AllFree(c) && |ids| <= |c.ring|
    ensures var d := Use(c, ids);
      AllFree(d) && d.ring == c.ring[|ids|..] + c.ring[..|ids|] && Victim(d) == Some(d.ring[0])
    ensures forall n :: 0 <= n < |ids| ==> Has(Use(c, ids), c.ring[n], ids[n].0, ids[n].1)
  {
    hide RingOk, AllFree, Victim, Reassign, Unpin;
    var d := Use(c, ids);
    if ids == [] {
      assert c.ring[0..] + c.ring[..0] == c.ring;
    } else {
      var front, n := ids[..|ids| - 1], |ids| - 1;
      var b := Use(c, front);
      TakenInTurn(c, front);
      FirstIsTaken(b);
      UseOne(b, ids[n].0, ids[n].1);
      assert d == Unpin(Reassign(b, b.ring[0], ids[n].0, ids[n].1), b.ring[0]);
      assert b.ring[0] == c.ring[n] && b.ring[1..] + [c.ring[n]] == c.ring[n + 1..] + c.ring[..n + 1];
      forall m | 0 <= m < n ensures Has(d, c.ring[m], ids[m].0, ids[m].1) {
        assert Has(b, c.ring[m], front[m].0, front[m].1);
        RingDiffers(c, m, n);
      }
    }
    FirstIsTaken(d);
  }

  lemma RingDiffers(c: Cache, m: nat, n: nat)
    requires RingOk(c) && m < n < |c.ring|
    ensures c.ring[m] != c.ring[n]
  {
  }

  lemma FirstIsTaken(c: Cache)
    requires RingOk(c) && AllFree(c)
    ensures Victim(c) == Some(c.ring[0])
  {
    var k := VictimIsFirstLeast(c);
    assert c.bufs[c.ring[0]].count == 0;
  }

  lemma UseOne(c: Cache, dev: UInt16, block: UInt32)
    requires RingOk(c) && AllFree(c)
    ensures c.ring[0] < |c.bufs| && |Reassign(c, c.ring[0], dev, block).bufs| == |c.bufs|
    ensures var v := c.ring[0]; var d := Unpin(Reassign(c, v, dev, block), v);
      && AllFree(d) && d.ring == c.ring[1..] + [v] && |d.bufs| == |c.bufs| && Has(d, v, dev, block)
      && forall b: nat :: b < |c.bufs| && b != v ==> d.bufs[b] == c.bufs[b]
  {
    hide Without;
    WithoutAt(c.ring, 0);
    assert c.ring[..0] + c.ring[1..] == c.ring[1..];
  }

  // ---- hash values ----

  lemma Xor(x: bv32, y: bv32)
    ensures 0 ^ x == x ^ 0 == x && x ^ x == 0 && x ^ y == y ^ x
  {
  }

  /** A block of device 0 has its own number modulo 307, and so has a device with block 0; a
      device and a block of the same number have 0; it does not matter which of two is the device. */
  lemma HashValues(d: UInt16, e: UInt16, b: UInt32)
    ensures Hash(0, b) == (b as bv32) as nat % 307 && Hash(d, 0) == (d as bv32) as nat % 307
    ensures Hash(d, d as UInt32) == 0 && Hash(d, e as UInt32) == Hash(e, d as UInt32)
  {
    Xor(b as bv32, 0);
    Xor(d as bv32, e as bv32);
    var z: UInt16, w: UInt32 := 0, 0;
    assert z as bv32 == 0 && w as bv32 == 0;
  }
}
