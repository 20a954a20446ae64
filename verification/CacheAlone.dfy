/** getblk run on its own (fs/buffer.c:147-215): when it ends.  sync_dev is a stub, and nobody
    else unlocks, cleans or releases a buffer. */
module CacheAlone {
  import opened Cache
  import opened CacheTasks
  import opened CacheRuns

  /** Task t goes on, if it can. */
  function Alone(s: State, t: nat): (r: State)
    requires t < |s.tasks|
    ensures |r.tasks| == |s.tasks|
  {
    if CanGo(s, t) && Advance(s, t).Runs? then Advance(s, t).s else s
  }

  /** n times. */
  function AloneFor(s: State, t: nat, n: nat): (r: State)
    requires t < |s.tasks|
    ensures |r.tasks| == |s.tasks|
    decreases n
  {
    if n == 0 then s else AloneFor(Alone(s, t), t, n - 1)
  }

  /** The block is cached in an unlocked buffer; or it is not, and the victim is unlocked and its
      dirt is not 1. */
  predicate Ready(c: Cache, dev: UInt16, block: UInt32)
    requires forall x :: 0 <= x < |c.ring| ==> c.ring[x] < |c.bufs|
  {
    match Find(c, dev, block)
    case Some(b) => c.bufs[b].lock == 0
    case None => Victim(c).Some? && c.bufs[Victim(c).value].lock == 0 && c.bufs[Victim(c).value].dirt != 1
  }

  /** Task t waits for something that nobody will do. */
  ghost predicate Stuck(s: State, t: nat, dev: UInt16, block: UInt32)
    requires t < |s.tasks|
  {
    && RingOk(s.cache)
    && match s.tasks[t].at
       case Lookup(d, b, getblk) => d == dev && b == block && getblk && !Ready(s.cache, dev, block)
       case PinWait(b, _, _, _) => b < |s.cache.bufs| && s.cache.bufs[b].lock != 0
       case FreeWait(d, b) =>
         d == dev && b == block && Find(s.cache, dev, block).None? && Victim(s.cache).None?
       case VictimWait(v, _, _) => StuckOn(s.cache, v)
       case DirtWait(v, _, _) => StuckOn(s.cache, v)
       case _ => false
  }

  predicate StuckOn(c: Cache, v: nat) {
    v < |c.bufs| && (c.bufs[v].lock != 0 || (c.bufs[v].dirt == 1 && c.bufs[v].count == 0))
  }

  lemma StaysStuck(s: State, t: nat, dev: UInt16, block: UInt32)
    requires t < |s.tasks| && Stuck(s, t, dev, block)
    ensures Stuck(Alone(s, t), t, dev, block) && !s.tasks[t].at.Out?
  {
    hide Victim, Reassign;
    if s.tasks[t].at.Lookup? && Victim(s.cache).Some? { VictimIsFree(s.cache); }
  }

  lemma VictimIsFree(c: Cache)
    requires RingOk(c) && Victim(c).Some?
    ensures c.bufs[Victim(c).value].count == 0
  {
    var k := VictimIsFirstLeast(c);
  }

  lemma {:induction false} StuckForEver(s: State, t: nat, dev: UInt16, block: UInt32, n: nat)
    requires t < |s.tasks| && Stuck(s, t, dev, block)
    ensures !AloneFor(s, t, n).tasks[t].at.Out?
    decreases n
  {
    hide Stuck, Alone;
    StaysStuck(s, t, dev, block);
    if n > 0 { StuckForEver(Alone(s, t), t, dev, block, n - 1); }
  }

  /** From a ready cache, two steps: the caller has the buffer of the block, pinned. */
  lemma ReadyEnds(s: State, t: nat, dev: UInt16, block: UInt32)
    requires RingOk(s.cache) && t < |s.tasks| && s.tasks[t].at == Lookup(dev, block, true) && dev != 0
    requires Ready(s.cache, dev, block)
    ensures var s', found := AloneFor(s, t, 2), Find(s.cache, dev, block);
      var b := if found.Some? then found.value else Victim(s.cache).value;
      s'.tasks[t] == Task(Out, s.tasks[t].held + [Pinned(b, dev, block)]) && PinOk(s'.cache, Pinned(b, dev, block))
  {
    hide Victim;
    var s1 := Alone(s, t);
    if Find(s.cache, dev, block).None? { VictimIsFree(s.cache); }
    assert AloneFor(s, t, 2) == AloneFor(s1, t, 1) == Alone(s1, t);
  }

  /** getblk on its own ends if and only if the cache is ready for it, and then after two steps. */
  lemma GetblkAloneEnds(s: State, t: nat, dev: UInt16, block: UInt32)
    requires RingOk(s.cache) && t < |s.tasks| && s.tasks[t].at == Lookup(dev, block, true) && dev != 0
    ensures (exists n: nat :: AloneFor(s, t, n).tasks[t].at.Out?) <==> Ready(s.cache, dev, block)
    ensures Ready(s.cache, dev, block) ==> AloneFor(s, t, 2).tasks[t].at.Out?
  {
    hide AloneFor, Ready;
    if Ready(s.cache, dev, block) {
      ReadyEnds(s, t, dev, block);
    } else {
      forall n: nat ensures !AloneFor(s, t, n).tasks[t].at.Out? { StuckForEver(s, t, dev, block, n); }
    }
  }
}
