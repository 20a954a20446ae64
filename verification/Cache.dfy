/** The buffer cache as a value (fs/buffer.c): the buffers, and the ring of all of them read
    from free_list.  What each uninterrupted stretch of get_hash_table, getblk and brelse
    does to it; BufferCache.dfy does the same on hash chains and ring pointers, and
    CacheTasks.dfy interleaves the stretches of many tasks. */
module Cache {
  import opened Basics

  newtype UInt8 = x: int | 0 <= x < 0x100
  newtype UInt16 = x: int | 0 <= x < 0x1_0000
  newtype UInt32 = x: int | 0 <= x < 0x1_0000_0000

  /** struct buffer_head without its pointers. */
  datatype Buf = Buf(dev: UInt16, block: UInt32, uptodate: UInt8, dirt: UInt8, count: UInt8, lock: UInt8) {
    /** The buffer carries this identity; device 0 is no identity. */
    predicate Is(d: UInt16, b: UInt32) { dev == d && block == b && d != 0 }

    /** BADNESS: (b_dirt << 1) + b_lock. */
    function Badness(): nat { 2 * dirt as nat + lock as nat }
  }

  /** The buffers by header number, and the numbers in ring order from free_list. */
  datatype Cache = Cache(bufs: seq<Buf>, ring: seq<nat>)

  /** The ring goes once through every buffer. */
  ghost predicate RingOk(c: Cache) {
    && |c.ring| == |c.bufs| > 0
    && (forall i :: 0 <= i < |c.ring| ==> c.ring[i] < |c.bufs|)
    && (forall i, j :: 0 <= i < j < |c.ring| ==> c.ring[i] != c.ring[j])
  }

  /** No two buffers carry the same identity. */
  ghost predicate Unique(c: Cache) {
    forall x, y :: 0 <= x < |c.bufs| && 0 <= y < |c.bufs| && c.bufs[y].Is(c.bufs[x].dev, c.bufs[x].block) ==> x == y
  }

  ghost predicate CacheOk(c: Cache) { RingOk(c) && Unique(c) }

  // ---- find_buffer ----

  /** The buffer with an identity, from header i on. */
  function FindFrom(bufs: seq<Buf>, dev: UInt16, block: UInt32, i: nat): (r: Option<nat>)
    requires i <= |bufs|
    ensures r.Some? ==> i <= r.value < |bufs| && bufs[r.value].Is(dev, block)
    ensures r.None? ==> forall x :: i <= x < |bufs| ==> !bufs[x].Is(dev, block)
    decreases |bufs| - i
  {
    if i == |bufs| then None
    else if bufs[i].Is(dev, block) then Some(i)
    else FindFrom(bufs, dev, block, i + 1)
  }

  const NR_HASH := 307

  /** _hashfn(dev, block) */
  function Hash(dev: UInt16, block: UInt32): (h: nat)
    ensures h < NR_HASH
  {
    ((dev as bv32) ^ (block as bv32)) as nat % NR_HASH
  }

  /** Giving v the identity makes insert_into_queues store through null (line 105): no other
      buffer is on the chain of its hash value. */
  predicate NullStore(c: Cache, v: nat, dev: UInt16, block: UInt32) {
    forall x :: 0 <= x < |c.bufs| && x != v && c.bufs[x].dev != 0 ==>
      Hash(c.bufs[x].dev, c.bufs[x].block) != Hash(dev, block)
  }

  function Find(c: Cache, dev: UInt16, block: UInt32): (r: Option<nat>)
    ensures r.Some? ==> r.value < |c.bufs| && c.bufs[r.value].Is(dev, block)
    ensures r.None? ==> forall x :: 0 <= x < |c.bufs| ==> !c.bufs[x].Is(dev, block)
  {
    FindFrom(c.bufs, dev, block, 0)
  }

  // ---- pins ----

  function WithCount(c: Cache, b: nat, count: UInt8): Cache
    requires b < |c.bufs|
  {
    Cache(c.bufs[b := c.bufs[b].(count := count)], c.ring)
  }

  /** `b_count += 1` and `b_count -= 1` on a uint8_t. */
  function Inc(x: UInt8): UInt8 { if x == 0xFF then 0 else x + 1 }
  function Dec(x: UInt8): UInt8 { if x == 0 then 0xFF else x - 1 }

  function Pin(c: Cache, b: nat): Cache
    requires b < |c.bufs|
  {
    WithCount(c, b, Inc(c.bufs[b].count))
  }

  function Unpin(c: Cache, b: nat): Cache
    requires b < |c.bufs|
  {
    WithCount(c, b, Dec(c.bufs[b].count))
  }

  // ---- the search for a victim ----

  /** getblk's scan of the ring from position i, with the best buffer so far. */
  function ScanFrom(c: Cache, i: nat, best: Option<nat>): (r: Option<nat>)
    requires i <= |c.ring| && (forall x :: 0 <= x < |c.ring| ==> c.ring[x] < |c.bufs|)
    requires best.Some? ==> best.value < |c.bufs|
    ensures r.Some? ==> r.value < |c.bufs|
    decreases |c.ring| - i
  {
    if i == |c.ring| then best
    else
      var b := c.ring[i];
      if c.bufs[b].count != 0 then ScanFrom(c, i + 1, best)
      else if best.None? || c.bufs[b].Badness() < c.bufs[best.value].Badness() then
        if c.bufs[b].Badness() == 0 then Some(b) else ScanFrom(c, i + 1, Some(b))
      else ScanFrom(c, i + 1, best)
  }

  function Victim(c: Cache): (r: Option<nat>)
    requires forall x :: 0 <= x < |c.ring| ==> c.ring[x] < |c.bufs|
    ensures r.Some? ==> r.value < |c.bufs|
  {
    ScanFrom(c, 0, None)
  }

  /** Position k holds the first unpinned buffer of least badness among the first n. */
  ghost predicate FirstLeast(c: Cache, k: nat, n: nat)
    requires n <= |c.ring| && (forall x :: 0 <= x < |c.ring| ==> c.ring[x] < |c.bufs|)
  {
    && k < n && c.bufs[c.ring[k]].count == 0
    && (forall x :: 0 <= x < n && c.bufs[c.ring[x]].count == 0 ==>
          c.bufs[c.ring[k]].Badness() <= c.bufs[c.ring[x]].Badness())
    && (forall x :: 0 <= x < k && c.bufs[c.ring[x]].count == 0 ==>
          c.bufs[c.ring[k]].Badness() < c.bufs[c.ring[x]].Badness())
  }

  lemma {:induction false} ScanFinds(c: Cache, i: nat, best: Option<nat>, k: nat) returns (k': nat)
    requires i <= |c.ring| && (forall x :: 0 <= x < |c.ring| ==> c.ring[x] < |c.bufs|)
    requires if best.None? then forall x :: 0 <= x < i ==> c.bufs[c.ring[x]].count != 0
             else FirstLeast(c, k, i) && best.value == c.ring[k]
    ensures var r := ScanFrom(c, i, best);
      if r.None? then forall x :: 0 <= x < |c.ring| ==> c.bufs[c.ring[x]].count != 0
      else FirstLeast(c, k', |c.ring|) && r.value == c.ring[k']
    decreases |c.ring| - i
  {
    k' := k;
    if i < |c.ring| {
      var b := c.ring[i];
      if c.bufs[b].count == 0 && (best.None? || c.bufs[b].Badness() < c.bufs[best.value].Badness()) {
        if c.bufs[b].Badness() == 0 { k' := i; } else { k' := ScanFinds(c, i + 1, Some(b), i); }
      } else {
        k' := ScanFinds(c, i + 1, best, k);
      }
    }
  }

  /** The scan of getblk picks the first unpinned buffer of least badness in ring order; it
      picks none just when every buffer is pinned. */
  lemma VictimIsFirstLeast(c: Cache) returns (k: nat)
    requires RingOk(c)
    ensures Victim(c).None? <==> forall x :: 0 <= x < |c.ring| ==> c.bufs[c.ring[x]].count != 0
    ensures Victim(c).Some? ==> FirstLeast(c, k, |c.ring|) && Victim(c).value == c.ring[k]
  {
    k := ScanFinds(c, 0, None, 0);
  }

  // ---- giving a buffer a new identity ----

  /** The ring without v. */
  function Without(ring: seq<nat>, v: nat): (r: seq<nat>)
    ensures v !in r && |r| <= |ring|
    ensures forall x :: x in r <==> x in ring && x != v
  {
    if ring == [] then [] else if ring[0] == v then Without(ring[1..], v) else [ring[0]] + Without(ring[1..], v)
  }

  /** The end of getblk: v is taken out of both queues, gets the identity, one pin, clean and
      not up to date, and is put back at the end of the ring. */
  function Reassign(c: Cache, v: nat, dev: UInt16, block: UInt32): Cache
    requires v < |c.bufs|
  {
    Cache(c.bufs[v := Buf(dev, block, 0, 0, 1, c.bufs[v].lock)], Without(c.ring, v) + [v])
  }

  lemma {:induction false} WithoutAt(ring: seq<nat>, p: nat)
    requires p < |ring| && forall i, j :: 0 <= i < j < |ring| ==> ring[i] != ring[j]
    ensures Without(ring, ring[p]) == ring[..p] + ring[p + 1..]
  {
    if p == 0 {
      WithoutAbsent(ring[1..], ring[0]);
      assert ring[..0] + ring[1..] == ring[1..];
    } else {
      WithoutAt(ring[1..], p - 1);
      assert [ring[0]] + (ring[1..][..p - 1] + ring[1..][p..]) == ring[..p] + ring[p + 1..];
    }
  }

  lemma {:induction false} WithoutAbsent(ring: seq<nat>, v: nat)
    requires v !in ring
    ensures Without(ring, v) == ring
  {
    if ring != [] { WithoutAbsent(ring[1..], v); }
  }

  /** Every number below |ring| occurs in the ring. */
  lemma RingHasAll(ring: seq<nat>, v: nat)
    requires (forall i :: 0 <= i < |ring| ==> ring[i] < |ring|) && v < |ring|
    requires forall i, j :: 0 <= i < j < |ring| ==> ring[i] != ring[j]
    ensures v in ring
  {
    var s := set x | x in ring;
    DistinctSize(ring);
    if v !in ring {
      SubsetSize(s, Below(|ring|) - {v});
      assert false;
    }
  }

  lemma MoveToBackKeeps(ring: seq<nat>, v: nat, n: nat)
    requires |ring| == n && v < n && (forall i :: 0 <= i < n ==> ring[i] < n)
    requires forall i, j :: 0 <= i < j < n ==> ring[i] != ring[j]
    ensures var r := Without(ring, v) + [v];
      && |r| == n && (forall i :: 0 <= i < n ==> r[i] < n) && (forall i, j :: 0 <= i < j < n ==> r[i] != r[j])
  {
    RingHasAll(ring, v);
    var p :| 0 <= p < n && ring[p] == v;
    WithoutAt(ring, p);
  }

  /** Reassigning an identity that no buffer has keeps the cache well formed. */
  lemma ReassignKeeps(c: Cache, v: nat, dev: UInt16, block: UInt32)
    requires CacheOk(c) && v < |c.bufs| && Find(c, dev, block).None? && dev != 0
    ensures CacheOk(Reassign(c, v, dev, block))
    ensures Find(Reassign(c, v, dev, block), dev, block) == Some(v)
  {
    hide Without, FindFrom;
    MoveToBackKeeps(c.ring, v, |c.bufs|);
    var c' := Reassign(c, v, dev, block);
    assert c'.bufs[v].Is(dev, block);
  }

  /** As long as no buffer has an identity, none is found, some buffer can be taken, and giving
      it an identity stores through null. */
  lemma FreshCache(c: Cache, dev: UInt16, block: UInt32)
    requires RingOk(c) && |c.bufs| > 0 && dev != 0
    requires forall x :: 0 <= x < |c.bufs| ==> c.bufs[x].dev == 0 && c.bufs[x].count == 0
    ensures Find(c, dev, block).None? && Victim(c).Some? && NullStore(c, Victim(c).value, dev, block)
  {
    var k := VictimIsFirstLeast(c);
  }
}
