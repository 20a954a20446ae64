/** What 256 pins do to the cache (fs/buffer.c:130, 246-249): b_count has eight bits. */
module CacheOverflow {
  import opened Basics
  import opened Cache
  import opened CacheTasks
  import opened CacheRuns

  /** In every run, with any number of pins, the one panic is that of brelse, and it happens if
      and only if the pins of the buffer, of which there is one at least, are a multiple of
      256. */
  lemma PanicsExactlyAt256(ss: seq<State>, moves: seq<Move>, i: nat, t: nat, e: Event)
    requires IsAnyRun(ss, moves) && Initial(ss[0]) && i < |ss| && Enabled(ss[i], t, e)
    ensures Next(ss[i], t, e).Panics?
       <==> e.Go? && ss[i].tasks[t].at.ReleaseWait?
            && Pins(ss[i].tasks, ss[i].tasks[t].held[ss[i].tasks[t].at.i].b) % 256 == 0
    ensures e.Go? && ss[i].tasks[t].at.ReleaseWait? ==>
      Pins(ss[i].tasks, ss[i].tasks[t].held[ss[i].tasks[t].at.i].b) > 0
  {
    hide CacheOk, IsAnyRun, Initial;
    var s := ss[i];
    AnyRunKeeps(ss, moves, i);
    if e.Go? && s.tasks[t].at.ReleaseWait? {
      var x, held := s.tasks[t].at.i, s.tasks[t].held;
      HeldOne(held, x, held[x].b);
      PinsUpdate(s.tasks, t, s.tasks[t], held[x].b);
    }
  }

  /** Task t is about to give buffer b the identity that it asked for. */
  predicate TakesOver(s: State, t: nat, b: nat) {
    && t < |s.tasks| && (s.tasks[t].at.VictimWait? || s.tasks[t].at.DirtWait?) && s.tasks[t].at.v == b
    && b < |s.cache.bufs| && s.cache.bufs[b].lock == 0 && s.cache.bufs[b].dirt != 1
    && Find(s.cache, s.tasks[t].at.dev, s.tasks[t].at.block).None?
  }

  /** In every run, with any number of pins, a step gives a buffer another identity if and only
      if it is the last step of a getblk that has chosen the buffer, found it unlocked and clean
      and its own block not cached, and the pins of the buffer are a multiple of 256. */
  lemma RenamesExactlyAt256(ss: seq<State>, moves: seq<Move>, i: nat, b: nat)
    requires IsAnyRun(ss, moves) && Initial(ss[0]) && i < |moves| && b < |ss[i].cache.bufs|
    ensures var s, m := ss[i], moves[i];
      && b < |ss[i + 1].cache.bufs|
      && (ss[i + 1].cache.bufs[b].dev != s.cache.bufs[b].dev || ss[i + 1].cache.bufs[b].block != s.cache.bufs[b].block
          <==> m.e.Go? && TakesOver(s, m.t, b) && Pins(s.tasks, b) % 256 == 0)
  {
    hide CacheOk, Enabled, Next, Initial;
    AnyRunKeeps(ss, moves, i);
    assert Next(ss[i], moves[i].t, moves[i].e) == Runs(ss[i + 1]);
    assert (Pins(ss[i].tasks, b) % 256 == 0) <==> ss[i].cache.bufs[b].count == 0;
    StepRenames(ss[i], moves[i].t, moves[i].e, b);
  }

  lemma StepRenames(s: State, t: nat, e: Event, b: nat)
    requires Enabled(s, t, e) && Next(s, t, e).Runs? && b < |s.cache.bufs|
    requires forall u :: 0 <= u < |s.tasks| ==> TaskShape(s.cache, s.tasks[u])
    ensures var c, c' := s.cache, Next(s, t, e).s.cache;
      && |c'.bufs| == |c.bufs|
      && (c'.bufs[b].dev != c.bufs[b].dev || c'.bufs[b].block != c.bufs[b].block
          <==> e.Go? && TakesOver(s, t, b) && c.bufs[b].count == 0)
  {
    hide Victim;
    if e.Go? { GoRenames(s, t, b); }
  }

  lemma GoRenames(s: State, t: nat, b: nat)
    requires Enabled(s, t, Go) && Advance(s, t).Runs? && b < |s.cache.bufs| && TaskShape(s.cache, s.tasks[t])
    ensures var c, c' := s.cache, Advance(s, t).s.cache;
      && |c'.bufs| == |c.bufs|
      && (c'.bufs[b].dev != c.bufs[b].dev || c'.bufs[b].block != c.bufs[b].block
          <==> TakesOver(s, t, b) && c.bufs[b].count == 0)
  {
    hide Victim;
    if TakesOver(s, t, b) && s.cache.bufs[b].count == 0 {
      assert !s.cache.bufs[b].Is(s.tasks[t].at.dev, s.tasks[t].at.block);
    }
  }

  // ---- a run to 256 pins ----

  lemma Extend(ss: seq<State>, moves: seq<Move>, t: nat, e: Event)
    requires IsAnyRun(ss, moves) && Enabled(ss[|moves|], t, e) && Next(ss[|moves|], t, e).Runs?
    ensures IsAnyRun(ss + [Next(ss[|moves|], t, e).s], moves + [Move(t, e)])
  {
    hide Enabled, Next;
    var ss', moves' := ss + [Next(ss[|moves|], t, e).s], moves + [Move(t, e)];
    forall i | 0 <= i < |moves'| ensures
      Enabled(ss'[i], moves'[i].t, moves'[i].e) && Next(ss'[i], moves'[i].t, moves'[i].e) == Runs(ss'[i + 1])
    {
      if i < |moves| { assert ss'[i] == ss[i] && ss'[i + 1] == ss[i + 1] && moves'[i] == moves[i]; }
    }
  }

  /** One buffer and two tasks, after buffer_init. */
  const START := State(Cache([Buf(0, 0, 0, 0, 0, 0)], [0]), [Task(Out, []), Task(Out, [])])

  const ITS_PIN := Pinned(0, 1, 1)

  /** The buffer carries device 1, block 1; task 0 is at `at` and holds n pins on it. */
  function Holding(at: At, n: nat, count: UInt8): State {
    State(Cache([Buf(1, 1, 0, 0, count, 0)], [0]), [Task(at, seq(n, _ => ITS_PIN)), Task(Out, [])])
  }

  /** The steps of getblk when the one buffer has count 0 and another identity. */
  lemma TakeOver(x: Buf, tasks: seq<Task>, t: nat, dev: UInt16, block: UInt32)
    requires x.count == 0 && x.lock == 0 && x.dirt == 0 && dev != 0 && !x.Is(dev, block)
    requires t < |tasks| && tasks[t].at.Out?
    ensures var c, held := Cache([x], [0]), tasks[t].held;
      var s1 := State(c, tasks[t := Task(Lookup(dev, block, true), held)]);
      var s2 := State(c, tasks[t := Task(VictimWait(0, dev, block), held)]);
      && Enabled(State(c, tasks), t, CallGetblk(dev, block)) && Enabled(s1, t, Go) && Enabled(s2, t, Go)
      && Next(State(c, tasks), t, CallGetblk(dev, block)) == Runs(s1) && Next(s1, t, Go) == Runs(s2)
      && Next(s2, t, Go) == Runs(State(Cache([Buf(dev, block, 0, 0, 1, 0)], [0]),
                                       tasks[t := Task(Out, held + [Pinned(0, dev, block)])]))
  {
    hide Find, Victim, Reassign;
    var c, held := Cache([x], [0]), tasks[t].held;
    OneBuffer(x, dev, block);
    var t1 := tasks[t := Task(Lookup(dev, block, true), held)];
    var t2 := tasks[t := Task(VictimWait(0, dev, block), held)];
    assert t1[t := t2[t]] == t2;
    var out := Task(Out, held + [Pinned(0, dev, block)]);
    assert t2[t := out] == tasks[t := out];
  }

  /** The choice and the renaming of the one buffer. */
  lemma OneBuffer(x: Buf, dev: UInt16, block: UInt32)
    requires x.count == 0 && x.lock == 0 && dev != 0 && !x.Is(dev, block)
    ensures var c := Cache([x], [0]);
      && Find(c, dev, block) == None && Victim(c) == Some(0)
      && Reassign(c, 0, dev, block) == Cache([Buf(dev, block, 0, 0, 1, 0)], [0])
  {
    var c := Cache([x], [0]);
    assert Find(c, dev, block).None?;
    assert Victim(c) == Some(0) by { var k := VictimIsFirstLeast(c); }
    WithoutAt([0], 0);
  }

  lemma ThreeMoves(ss: seq<State>, moves: seq<Move>, x: Buf, tasks: seq<Task>, t: nat, dev: UInt16, block: UInt32)
    returns (ss': seq<State>, moves': seq<Move>)
    requires IsAnyRun(ss, moves) && |ss| == |moves| + 1 && ss[|moves|] == State(Cache([x], [0]), tasks)
    requires x.count == 0 && x.lock == 0 && x.dirt == 0 && dev != 0 && !x.Is(dev, block)
    requires t < |tasks| && tasks[t].at.Out?
    ensures IsAnyRun(ss', moves') && |ss'| == |moves'| + 1 && ss'[0] == ss[0]
    ensures ss'[|moves'|] == State(Cache([Buf(dev, block, 0, 0, 1, 0)], [0]),
                                   tasks[t := Task(Out, tasks[t].held + [Pinned(0, dev, block)])])
  {
    hide Enabled, Next, IsAnyRun;
    TakeOver(x, tasks, t, dev, block);
    ss', moves' := OneMove(ss, moves, t, CallGetblk(dev, block));
    ss', moves' := OneMove(ss', moves', t, Go);
    ss', moves' := OneMove(ss', moves', t, Go);
  }

  lemma FirstPin() returns (ss: seq<State>, moves: seq<Move>)
    ensures IsAnyRun(ss, moves) && |ss| == |moves| + 1 && ss[0] == START && ss[|moves|] == Holding(Out, 1, 1)
  {
    assert IsAnyRun([START], []);
    ss, moves := ThreeMoves([START], [], Buf(0, 0, 0, 0, 0, 0), START.tasks, 0, 1, 1);
    assert [ITS_PIN] == [] + [ITS_PIN] == seq(1, _ => ITS_PIN);
  }

  /** getblk of the block once more. */
  lemma OnePinMore(n: nat, count: UInt8)
    ensures Enabled(Holding(Out, n, count), 0, CallGetblk(1, 1))
    ensures var s1 := Next(Holding(Out, n, count), 0, CallGetblk(1, 1));
      && s1 == Runs(Holding(Lookup(1, 1, true), n, count)) && Enabled(s1.s, 0, Go)
    ensures var s2 := Next(Holding(Lookup(1, 1, true), n, count), 0, Go);
      && s2 == Runs(Holding(PinWait(0, 1, 1, true), n, Inc(count))) && Enabled(s2.s, 0, Go)
    ensures Next(Holding(PinWait(0, 1, 1, true), n, Inc(count)), 0, Go) == Runs(Holding(Out, n + 1, Inc(count)))
  {
    var s, s1 := Holding(Out, n, count), Holding(Lookup(1, 1, true), n, count);
    var s2 := Holding(PinWait(0, 1, 1, true), n, Inc(count));
    assert s.tasks[0 := s1.tasks[0]] == s1.tasks;
    assert s1.cache.bufs[0].Is(1, 1) && Find(s1.cache, 1, 1) == Some(0);
    assert s1.tasks[0 := s2.tasks[0]] == s2.tasks;
    assert seq(n, _ => ITS_PIN) + [ITS_PIN] == seq(n + 1, _ => ITS_PIN);
    assert s2.tasks[0 := Holding(Out, n + 1, Inc(count)).tasks[0]] == Holding(Out, n + 1, Inc(count)).tasks;
  }

  lemma PinOnceMore(ss: seq<State>, moves: seq<Move>, n: nat, count: UInt8)
    returns (ss': seq<State>, moves': seq<Move>)
    requires IsAnyRun(ss, moves) && |ss| == |moves| + 1 && ss[|moves|] == Holding(Out, n, count)
    ensures IsAnyRun(ss', moves') && |ss'| == |moves'| + 1 && ss'[0] == ss[0]
    ensures ss'[|moves'|] == Holding(Out, n + 1, Inc(count))
  {
    hide Enabled, Next, Holding, IsAnyRun, Inc;
    OnePinMore(n, count);
    ss', moves' := OneMove(ss, moves, 0, CallGetblk(1, 1));
    ss', moves' := OneMove(ss', moves', 0, Go);
    ss', moves' := OneMove(ss', moves', 0, Go);
  }

  /** The count after n pins. */
  function CountAfter(n: nat): UInt8 { if n == 0 then 0 else Inc(CountAfter(n - 1)) }

  lemma {:induction false} CountWraps(n: nat)
    ensures CountAfter(n) as int == n % 256
  {
    if n > 0 { CountWraps(n - 1); }
  }

  lemma {:induction false} ManyPins(n: nat) returns (ss: seq<State>, moves: seq<Move>)
    requires n >= 1
    ensures IsAnyRun(ss, moves) && |ss| == |moves| + 1 && ss[0] == START
    ensures ss[|moves|] == Holding(Out, n, CountAfter(n))
  {
    if n == 1 {
      ss, moves := FirstPin();
      assert CountAfter(1) == Inc(CountAfter(0)) == 1;
    } else {
      hide Holding, IsAnyRun;
      ss, moves := ManyPins(n - 1);
      ss, moves := PinOnceMore(ss, moves, n - 1, CountAfter(n - 1));
    }
  }

  lemma OneMove(ss: seq<State>, moves: seq<Move>, t: nat, e: Event) returns (ss': seq<State>, moves': seq<Move>)
    requires IsAnyRun(ss, moves) && |ss| == |moves| + 1
    requires Enabled(ss[|moves|], t, e) && Next(ss[|moves|], t, e).Runs?
    ensures IsAnyRun(ss', moves') && |ss'| == |moves'| + 1
    ensures ss'[0] == ss[0] && ss'[|moves'|] == Next(ss[|moves|], t, e).s
  {
    hide Enabled, Next;
    Extend(ss, moves, t, e);
    ss', moves' := ss + [Next(ss[|moves|], t, e).s], moves + [Move(t, e)];
  }

  /** A run that ends in the panic: task 0 has got the buffer 256 times and releases it. */
  lemma BrelsePanicHappens() returns (ss: seq<State>, moves: seq<Move>)
    ensures IsAnyRun(ss, moves) && Initial(ss[0])
    ensures var s := ss[|moves|]; Enabled(s, 0, Go) && |s.tasks[0].held| == 256 && Next(s, 0, Go).Panics?
  {
    CountWraps(256);
    ss, moves := ManyPins(256);
    ss, moves := OneMove(ss, moves, 0, CallBrelse(0));
  }

  /** A run that renames a buffer that is held: task 0 has got the buffer 256 times, and task 1
      gets it for another block. */
  lemma HeldBufferIsRenamed() returns (ss: seq<State>, moves: seq<Move>)
    ensures IsAnyRun(ss, moves) && Initial(ss[0])
    ensures var s := ss[|moves|];
      |s.tasks| == 2 && |s.tasks[0].held| == 256 && s.tasks[0].held[0] == ITS_PIN && !PinOk(s.cache, ITS_PIN)
  {
    CountWraps(256);
    ss, moves := ManyPins(256);
    var s := ss[|moves|];
    ss, moves := ThreeMoves(ss, moves, s.cache.bufs[0], s.tasks, 1, 1, 2);
  }
}
