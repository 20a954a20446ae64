/** fs/buffer.c on pointers: hash chains and the ring of free_list, both linked through the
    same headers, against the cache as a value (Cache.dfy). */
module BufferCache {
  import opened Basics
  import opened Cache

  const BLOCK_SIZE := 1024
  const HEADER_SIZE := 36   // sizeof(struct buffer_head)

  /** The end of the buffers: on 32 bits the first `end -= BLOCK_SIZE` wraps around below 1024. */
  function EndOf(bufferEnd: nat): nat {
    if bufferEnd < BLOCK_SIZE then bufferEnd + 0x1_0000_0000 else bufferEnd
  }

  /** How many buffers fit between two addresses. */
  function Fits(start: nat, end: nat): nat { if end < start then 0 else (end - start) / (BLOCK_SIZE + HEADER_SIZE) }

  /** buffer_init stops in time and not before: with n buffers the headers, growing up from
      start, and the blocks, growing down from end, do not overlap; one more would not fit. */
  lemma FitsIsMaximal(start: nat, end: nat, n: nat)
    requires start <= end || n > 0
    ensures n <= Fits(start, end) <==> start + n * HEADER_SIZE <= end - n * BLOCK_SIZE
  {
    if end < start { return; }
    var q := (end - start) / (BLOCK_SIZE + HEADER_SIZE);
    assert (end - start) == q * (BLOCK_SIZE + HEADER_SIZE) + (end - start) % (BLOCK_SIZE + HEADER_SIZE);
  }

  class BufferHead {
    const index: nat            // position in the array of headers at buf_start_addr
    var bData: nat              // address of the block
    var bDev: UInt16
    var bBlocknr: UInt32
    var bUptodate: UInt8
    var bDirt: UInt8
    var bCount: UInt8
    var bLock: UInt8
    var prevHash: BufferHead?
    var nextHash: BufferHead?
    var prevFree: BufferHead?
    var nextFree: BufferHead?

    constructor (index: nat)
      ensures this.index == index
    {
      this.index := index;
    }

    function State(): Buf
      reads this
    {
      Buf(bDev, bBlocknr, bUptodate, bDirt, bCount, bLock)
    }
  }

  ghost predicate Distinct<T>(s: seq<T>) { forall i, j :: 0 <= i < j < |s| ==> s[i] != s[j] }

  ghost function States(hs: seq<BufferHead>): (r: seq<Buf>)
    reads hs
  {
    seq(|hs|, i requires 0 <= i < |hs| reads hs => hs[i].State())
  }

  function Indices(hs: seq<BufferHead>): (r: seq<nat>) {
    seq(|hs|, i requires 0 <= i < |hs| => hs[i].index)
  }

  /** s without the element at position p. */
  ghost function Cut<T>(s: seq<T>, p: nat): seq<T>
    requires p < |s|
  {
    s[..p] + s[p + 1..]
  }

  /** The free pointers spell out `r` from `first`; both directions agree. */
  ghost predicate RingLinks(first: BufferHead?, r: seq<BufferHead>)
    reads Nodes(r)`nextFree, Nodes(r)`prevFree
  {
    && |r| > 0 && first == r[0] && Distinct(r)
    && (forall i {:trigger r[i].nextFree} :: 0 <= i < |r| - 1 ==> r[i].nextFree == r[i + 1])
    && (forall i {:trigger r[i].prevFree} :: 1 <= i < |r| ==> r[i].prevFree == r[i - 1])
    && r[|r| - 1].nextFree == r[0] && r[0].prevFree == r[|r| - 1]
  }

  /** The hash pointers of `c` link it into a chain in this order. */
  ghost predicate Linked(c: seq<BufferHead>)
    reads Nodes(c)`nextHash, Nodes(c)`prevHash
  {
    && Distinct(c)
    && (forall i {:trigger c[i].nextHash} :: 0 <= i < |c| - 1 ==> c[i].nextHash == c[i + 1])
    && (forall i {:trigger c[i].prevHash} :: 1 <= i < |c| ==> c[i].prevHash == c[i - 1])
    && (c != [] ==> c[0].prevHash == null && c[|c| - 1].nextHash == null)
  }

  ghost function Nodes(c: seq<BufferHead>): set<BufferHead> { set b | b in c }

  /** What is left of a chain when the element at p has been bridged. */
  lemma CutLinked(c: seq<BufferHead>, p: nat)
    requires p < |c| && Distinct(c)
    requires forall i {:trigger c[i].nextHash} :: 0 <= i < |c| - 1 && i != p - 1 && i != p ==> c[i].nextHash == c[i + 1]
    requires forall i {:trigger c[i].prevHash} :: 1 <= i < |c| && i != p && i != p + 1 ==> c[i].prevHash == c[i - 1]
    requires 0 < p < |c| - 1 ==> c[p - 1].nextHash == c[p + 1] && c[p + 1].prevHash == c[p - 1]
    requires 0 < p == |c| - 1 ==> c[p - 1].nextHash == null
    requires 0 == p < |c| - 1 ==> c[1].prevHash == null
    requires 0 < p ==> c[0].prevHash == null
    requires p < |c| - 1 ==> c[|c| - 1].nextHash == null
    ensures Linked(Cut(c, p))
  {
    CutMembers(c, p);
    var c' := Cut(c, p);
    assert forall i :: 0 <= i < |c'| ==> c'[i] == c[if i < p then i else i + 1];
  }

  /** What is left of a ring of two or more when the element at p has been bridged. */
  lemma CutRing(first: BufferHead?, r: seq<BufferHead>, p: nat)
    requires p < |r| && 1 < |r| && Distinct(r)
    requires forall i {:trigger r[i].nextFree} :: 0 <= i < |r| - 1 && i != p - 1 && i != p ==> r[i].nextFree == r[i + 1]
    requires forall i {:trigger r[i].prevFree} :: 1 <= i < |r| && i != p && i != p + 1 ==> r[i].prevFree == r[i - 1]
    requires 0 < p < |r| - 1 ==> r[p - 1].nextFree == r[p + 1] && r[p + 1].prevFree == r[p - 1]
    requires 0 < p < |r| - 1 ==> r[|r| - 1].nextFree == r[0] && r[0].prevFree == r[|r| - 1]
    requires p == 0 ==> r[|r| - 1].nextFree == r[1] && r[1].prevFree == r[|r| - 1]
    requires p == |r| - 1 ==> r[p - 1].nextFree == r[0] && r[0].prevFree == r[p - 1]
    requires first == if p == 0 then r[1] else r[0]
    ensures RingLinks(first, Cut(r, p))
  {
    CutMembers(r, p);
    var r' := Cut(r, p);
    assert forall i :: 0 <= i < |r'| ==> r'[i] == r[if i < p then i else i + 1];
  }

  ghost function First(c: seq<BufferHead>): BufferHead? { if c == [] then null else c[0] }

  lemma CutMembers<T>(c: seq<T>, p: nat)
    requires p < |c| && Distinct(c)
    ensures Distinct(Cut(c, p)) && forall b :: b in Cut(c, p) <==> b in c && b != c[p]
  {
    forall b | b in c && b != c[p] ensures b in Cut(c, p) {
      var i :| 0 <= i < |c| && c[i] == b;
      assert Cut(c, p)[if i < p then i else i - 1] == b;
    }
  }

  /** b belongs on the chain of hash value h. */
  predicate OnChain(b: BufferHead, h: nat)
    reads b`bDev, b`bBlocknr
  {
    b.bDev != 0 && Hash(b.bDev, b.bBlocknr) == h
  }

  /** The first position of x in s, or |s|. */
  ghost function PositionOf<T>(s: seq<T>, x: T): (p: nat)
    ensures p <= |s| && (p < |s| ==> s[p] == x) && (x in s ==> p < |s|)
  {
    if s == [] || s[0] == x then 0 else 1 + PositionOf(s[1..], x)
  }

  class BufferCache {
    var freeList: BufferHead?
    const hashTable: array<BufferHead?>
    ghost const heads: seq<BufferHead>      // the array of headers
    ghost var ring: seq<BufferHead>         // the ring, read from freeList
    ghost var chains: seq<seq<BufferHead>>  // the hash chains, read from hashTable

    /** Every header with a device is on the chain of its hash value and on no other; a
        header without a device is on none, and its hash pointers are null. */
    ghost predicate ChainsOk(cs: seq<seq<BufferHead>>, but: BufferHead?)
      reads hashTable, Nodes(heads)`nextHash, Nodes(heads)`prevHash, Nodes(heads)`bDev, Nodes(heads)`bBlocknr
    {
      && hashTable.Length == NR_HASH == |cs|
      && (forall h :: 0 <= h < NR_HASH ==> Nodes(cs[h]) <= Nodes(heads))
      && (forall h :: 0 <= h < NR_HASH ==> hashTable[h] == First(cs[h]) && Linked(cs[h]))
      && (forall h, b :: 0 <= h < NR_HASH && b in cs[h] ==> OnChain(b, h) && b != but)
      && (forall b :: b in heads && b != but && b.bDev != 0 ==> b in cs[Hash(b.bDev, b.bBlocknr)])
      && (forall b :: b in heads && b != but && b.bDev == 0 ==> b.nextHash == null && b.prevHash == null)
    }

    ghost predicate HeadsOk()
      reads heads
    {
      |heads| > 0 && forall i :: 0 <= i < |heads| ==> heads[i].index == i
    }

    /** The cache as a value. */
    ghost function View(): Cache
      reads this, heads
    {
      Cache(States(heads), Indices(ring))
    }

    ghost predicate Valid()
      reads this, hashTable, Nodes(heads), Nodes(ring)
    {
      && HeadsOk()
      && (forall b :: b in ring ==> b in heads)
      && RingLinks(freeList, ring) && ChainsOk(chains, null)
      && CacheOk(View())
    }

    // ---- buffer_init ----

    /** buffer_init, on the headers `mem` that lie from address start on.  When not one buffer
        fits the result is null: the original then stores to the header in front of the first. */
    static method BufferInit(mem: seq<BufferHead>, start: nat, bufferEnd: nat) returns (c: BufferCache?)
      requires BLOCK_SIZE <= start && Fits(start, EndOf(bufferEnd)) < |mem|
      requires forall i :: 0 <= i < |mem| ==> mem[i].index == i
      modifies Nodes(mem)
      ensures c == null <==> Fits(start, EndOf(bufferEnd)) == 0
      ensures c == null ==> forall b :: b in mem ==> b.State() == old(b.State())
      ensures c != null ==> c.Valid() && fresh(c) && fresh(c.hashTable)
      ensures c != null ==> c.heads == mem[..Fits(start, EndOf(bufferEnd))] && c.ring == c.heads
      ensures c != null ==> forall i :: 0 <= i < |c.heads| ==> Blank(c.heads[i])
      ensures c != null ==>
        forall i :: 0 <= i < |c.heads| ==> c.heads[i].bData == EndOf(bufferEnd) - (i + 1) * BLOCK_SIZE
      ensures c != null ==> forall i :: 0 <= i < |c.heads| ==> c.heads[i].bData >= start + |c.heads| * HEADER_SIZE
    {
      var end := EndOf(bufferEnd);
      FitsIsMaximal(start, end, 1);
      if end - BLOCK_SIZE < start + HEADER_SIZE { return null; }
      hide BufferCache.Valid;
      c := new BufferCache(mem, start, bufferEnd);
    }

    /** The first getblk after buffer_init stores through null, whatever block is asked for. */
    static method FirstGetblk(mem: seq<BufferHead>, start: nat, bufferEnd: nat, dev: UInt16, block: UInt32)
      returns (bh: BufferHead?, nullStore: bool)
      requires BLOCK_SIZE <= start && 0 < Fits(start, EndOf(bufferEnd)) < |mem| && dev != 0
      requires forall i :: 0 <= i < |mem| ==> mem[i].index == i
      modifies Nodes(mem)
      ensures bh != null && nullStore
    {
      hide BufferCache.Valid, NullStore, Hash;
      var c := BufferInit(mem, start, bufferEnd);
      c.FreshView(dev, block);
      bh := c.LookupAndPin(dev, block);
      bh := c.ScanFreeList();
      nullStore := c.TakeVictim(bh, dev, block);
    }

    lemma FreshView(dev: UInt16, block: UInt32)
      requires Valid() && dev != 0 && forall i :: 0 <= i < |heads| ==> Blank(heads[i])
      ensures Find(View(), dev, block).None? && Victim(View()).Some?
      ensures NullStore(View(), Victim(View()).value, dev, block)
    {
      hide ChainsOk, RingLinks, Hash;
      forall x | 0 <= x < |View().bufs| ensures View().bufs[x].dev == 0 && View().bufs[x].count == 0 {
        assert View().bufs[x] == heads[x].State() && Blank(heads[x]);
      }
      FreshCache(View(), dev, block);
    }

    /** The constructor holds the case that something fits. */
    constructor (mem: seq<BufferHead>, start: nat, bufferEnd: nat)
      requires BLOCK_SIZE <= start && 0 < Fits(start, EndOf(bufferEnd)) < |mem|
      requires forall i :: 0 <= i < |mem| ==> mem[i].index == i
      modifies Nodes(mem)
      ensures Valid() && fresh(hashTable) && heads == mem[..Fits(start, EndOf(bufferEnd))] && ring == heads
      ensures View().ring == seq(Fits(start, EndOf(bufferEnd)), i => i)
      ensures forall i :: 0 <= i < |heads| ==> Blank(heads[i])
      ensures forall i :: 0 <= i < |heads| ==> heads[i].bData == EndOf(bufferEnd) - (i + 1) * BLOCK_SIZE
      ensures forall i :: 0 <= i < |heads| ==> heads[i].bData >= start + |heads| * HEADER_SIZE
    {
      FitsIsMaximal(start, EndOf(bufferEnd), Fits(start, EndOf(bufferEnd)));
      var n := InitHeaders(mem, start, bufferEnd);
      FixEnds(mem, n, mem[0], mem[n - 1]);
      freeList := mem[0];
      hashTable := new BufferHead?[NR_HASH](_ => null);
      heads, ring, chains := mem[..n], mem[..n], seq(NR_HASH, _ => []);
      new;
      hide Valid, RingLinks;
      InitialValid();
    }

    lemma InitialValid()
      requires hashTable.Length == NR_HASH == |chains| && HeadsOk() && ring == heads && RingLinks(freeList, ring)
      requires forall h :: 0 <= h < NR_HASH ==> hashTable[h] == null && chains[h] == []
      requires forall i :: 0 <= i < |heads| ==> Blank(heads[i])
      ensures Valid() && View().ring == seq(|heads|, i => i)
    {
      hide Hash, RingLinks;
      assert View().ring == seq(|heads|, i => i);
    }

    /** The loop of buffer_init; addresses have 32 bits, and start is 1 MB in the original. */
    static method InitHeaders(mem: seq<BufferHead>, start: nat, bufferEnd: nat) returns (n: nat)
      requires BLOCK_SIZE <= start && Fits(start, EndOf(bufferEnd)) < |mem|
      requires forall i :: 0 <= i < |mem| ==> mem[i].index == i
      modifies Nodes(mem)
      ensures n == Fits(start, EndOf(bufferEnd))
      ensures forall i {:trigger mem[i]} :: 0 <= i < n ==>
        Blank(mem[i]) && mem[i].bData == EndOf(bufferEnd) - (i + 1) * BLOCK_SIZE
      ensures forall i {:trigger mem[i].nextFree} :: 0 <= i < n - 1 ==> mem[i].nextFree == mem[i + 1]
      ensures forall i {:trigger mem[i].prevFree} :: 1 <= i < n ==> mem[i].prevFree == mem[i - 1]
    {
      n := 0;
      ghost var end := EndOf(bufferEnd);
      var top: int := bufferEnd;
      if start <= end { FitsIsMaximal(start, end, Fits(start, end)); }
      while true
        invariant 0 <= n <= Fits(start, end)
        invariant if n == 0 then top == bufferEnd else top == end - n * BLOCK_SIZE >= start
        invariant forall i :: 0 <= i < n ==> Fresh(mem, i, end)
        decreases Fits(start, end) - n
      {
        top := if top < BLOCK_SIZE then top - BLOCK_SIZE + 0x1_0000_0000 else top - BLOCK_SIZE;
        FitsIsMaximal(start, end, n + 1);
        if top < start + (n + 1) * HEADER_SIZE { break; }
        assert forall i :: 0 <= i < n ==> mem[i].index != mem[n].index;
        InitHeader(mem, n, top, end);
        n := n + 1;
      }
      assert forall i {:trigger mem[i]} :: 0 <= i < n ==> Fresh(mem, i, end);
    }

    /** The body of that loop. */
    static method InitHeader(mem: seq<BufferHead>, n: nat, top: nat, ghost end: nat)
      requires n + 1 < |mem| && top == end - (n + 1) * BLOCK_SIZE
      requires forall i :: 0 <= i < |mem| ==> mem[i].index == i
      modifies mem[n]
      ensures Fresh(mem, n, end)
    {
      mem[n].bDev := 0;
      mem[n].bDirt := 0;
      mem[n].bCount := 0;
      mem[n].bLock := 0;
      mem[n].bUptodate := 0;
      mem[n].prevHash := null;
      mem[n].nextHash := null;
      mem[n].bData := top;
      mem[n].prevFree := if n == 0 then null else mem[n - 1];
      mem[n].nextFree := mem[n + 1];
    }

    /** The two stores after the loop: the headers form one ring. */
    static method FixEnds(ghost mem: seq<BufferHead>, ghost n: nat, first: BufferHead, last: BufferHead)
      requires 0 < n < |mem| && first == mem[0] && last == mem[n - 1]
      requires forall i :: 0 <= i < |mem| ==> mem[i].index == i
      requires forall i {:trigger mem[i].nextFree} :: 0 <= i < n - 1 ==> mem[i].nextFree == mem[i + 1]
      requires forall i {:trigger mem[i].prevFree} :: 1 <= i < n ==> mem[i].prevFree == mem[i - 1]
      modifies first`prevFree, last`nextFree
      ensures RingLinks(mem[0], mem[..n])
    {
      assert forall i, j :: 0 <= i < j < |mem| ==> mem[i].index != mem[j].index;
      first.prevFree := last;
      last.nextFree := first;
    }

    static ghost predicate Blank(b: BufferHead)
      reads b`bDev, b`bDirt, b`bCount, b`bLock, b`bUptodate, b`prevHash, b`nextHash
    {
      && b.bDev == 0 && b.bDirt == 0 && b.bCount == 0 && b.bLock == 0 && b.bUptodate == 0
      && b.prevHash == null && b.nextHash == null
    }

    /** A header as buffer_init's loop leaves it. */
    static ghost predicate Fresh(mem: seq<BufferHead>, i: nat, end: nat)
      requires i + 1 < |mem|
      reads mem[i]
    {
      && Blank(mem[i]) && mem[i].bData == end - (i + 1) * BLOCK_SIZE
      && (i > 0 ==> mem[i].prevFree == mem[i - 1]) && mem[i].nextFree == mem[i + 1]
    }

    // ---- remove_from_queues ----

    /** The first part of remove_from_queues: out of the hash chain. */
    method UnlinkHash(bh: BufferHead)
      requires HeadsOk() && bh in heads && ChainsOk(chains, null)
      modifies this`chains, hashTable, Nodes(heads)`nextHash, Nodes(heads)`prevHash
      ensures ChainsOk(chains, bh)
    {
      hide Hash, Linked, First, PositionOf;
      var h := Hash(bh.bDev, bh.bBlocknr);
      ghost var cs, c := chains, chains[h];
      ghost var p := if bh.bDev != 0 then PositionOf(c, bh) else |c|;
      ChainsApart(cs, null, h);
      if p < |c| { LinkedDistinct(c); CutMembers(c, p); }
      assert bh.bDev == 0 ==> bh !in c;
      UnlinkFromChain(bh, h, c, p);
      if p < |c| {
        chains := cs[h := Cut(c, p)];
        ChainsRebuilt(cs, h, Cut(c, p), bh);
      } else {
        assert cs[h := c] == cs;
        ChainsRebuilt(cs, h, c, bh);
      }
    }

    /** Replacing the chain of one entry. */
    lemma ChainsRebuilt(cs: seq<seq<BufferHead>>, h: nat, c': seq<BufferHead>, but: BufferHead?)
      requires hashTable.Length == NR_HASH == |cs| && h < NR_HASH
      requires forall x :: 0 <= x < NR_HASH && x != h ==>
        Nodes(cs[x]) <= Nodes(heads) && hashTable[x] == First(cs[x]) && Linked(cs[x])
      requires Nodes(c') <= Nodes(heads) && hashTable[h] == First(c') && Linked(c')
      requires forall x, b :: 0 <= x < NR_HASH && x != h && b in cs[x] ==> OnChain(b, x) && b != but
      requires forall b :: b in c' ==> OnChain(b, h) && b != but
      requires forall b :: b in heads && b != but && b.bDev != 0 ==>
        if Hash(b.bDev, b.bBlocknr) == h then b in c' else b in cs[Hash(b.bDev, b.bBlocknr)]
      requires forall b :: b in heads && b != but && b.bDev == 0 ==> b.nextHash == null && b.prevHash == null
      ensures ChainsOk(cs[h := c'], but)
    {
      hide Hash, Linked, First;
    }

    /** Chains of different entries have no header in common. */
    lemma ChainsApart(cs: seq<seq<BufferHead>>, but: BufferHead?, h: nat)
      requires ChainsOk(cs, but) && h < NR_HASH
      ensures forall x :: 0 <= x < NR_HASH && x != h ==> Nodes(cs[x]) !! Nodes(cs[h])
    {
      hide Hash, Linked;
      forall x | 0 <= x < NR_HASH && x != h ensures Nodes(cs[x]) !! Nodes(cs[h]) {
        forall b | b in cs[x] ensures b !in cs[h] { assert OnChain(b, x); }
      }
    }

    /** The same, on the chain c of entry h: bh is at position p of it, or, when it has no
        device, nowhere (p == |c|). */
    static lemma LinkedDistinct(c: seq<BufferHead>)
      requires Linked(c)
      ensures Distinct(c)
    {
    }

    method UnlinkFromChain(bh: BufferHead, h: nat, ghost c: seq<BufferHead>, ghost p: nat)
      requires h < hashTable.Length && hashTable[h] == First(c)
      requires Linked(c) && p <= |c|
      requires if p < |c| then c[p] == bh else bh !in c && bh.nextHash == bh.prevHash == null
      modifies hashTable, Nodes(c)`nextHash, Nodes(c)`prevHash
      ensures p < |c| ==> Linked(Cut(c, p)) && hashTable[h] == First(Cut(c, p))
      ensures p == |c| ==> Linked(c) && hashTable[h] == First(c)
      ensures forall x :: 0 <= x < hashTable.Length && x != h ==> hashTable[x] == old(hashTable[x])
    {
      if bh.nextHash != null { bh.nextHash.prevHash := bh.prevHash; }
      if bh.prevHash != null { bh.prevHash.nextHash := bh.nextHash; }
      if hashTable[h] == bh { hashTable[h] := bh.nextHash; }
      if p < |c| { CutLinked(c, p); }
    }

    // ---- the second part, on the ring ----

    /** The ring without bh, or bh alone linked to itself if it was the only one. */
    ghost predicate RingBut(r: seq<BufferHead>, bh: BufferHead)
      reads this`freeList, Nodes(r)`nextFree, Nodes(r)`prevFree, bh`nextFree, bh`prevFree
    {
      if r == [] then freeList == bh && bh.nextFree == bh && bh.prevFree == bh else RingLinks(freeList, r) && bh !in r
    }

    /** The second part of remove_from_queues: out of the ring. */
    method UnlinkRing(bh: BufferHead)
      requires RingLinks(freeList, ring) && bh in ring
      modifies this`freeList, this`ring, Nodes(ring)`nextFree, Nodes(ring)`prevFree
      ensures old(PositionOf(ring, bh)) < |old(ring)| && ring == old(Cut(ring, PositionOf(ring, bh)))
      ensures RingBut(ring, bh)
    {
      hide PositionOf;
      ghost var p := PositionOf(ring, bh);
      ghost var r := ring;
      bh.prevFree.nextFree := bh.nextFree;
      bh.nextFree.prevFree := bh.prevFree;
      if freeList == bh { freeList := bh.nextFree; }
      ring := Cut(r, p);
      if |r| > 1 {
        CutRing(freeList, r, p);
        CutMembers(r, p);
      }
    }

    /** The first part of insert_into_queues: at the end of the ring. */
    method LinkRing(bh: BufferHead)
      requires RingBut(ring, bh)
      modifies this`ring, Nodes(ring)`nextFree, Nodes(ring)`prevFree, bh`nextFree, bh`prevFree
      ensures ring == old(ring) + [bh] && RingLinks(freeList, ring)
    {
      bh.nextFree := freeList;
      bh.prevFree := freeList.prevFree;
      freeList.prevFree.nextFree := bh;
      freeList.prevFree := bh;
      ring := ring + [bh];
    }

    /** The second part of insert_into_queues: at the front of its hash chain.  The original
        stores to b_next_hash->b_prev_hash without looking whether b_next_hash is null
        (fs/buffer.c:105); here that store is left out, and reported.  It happens if and only
        if no other header is on the chain. */
    method LinkHash(bh: BufferHead) returns (nullStore: bool)
      requires HeadsOk() && bh in heads && ChainsOk(chains, bh)
      modifies this`chains, hashTable, Nodes(heads)`nextHash, Nodes(heads)`prevHash
      ensures ChainsOk(chains, null)
      ensures nullStore
         <==> bh.bDev != 0 && forall b :: b in heads && b != bh ==> !OnChain(b, Hash(bh.bDev, bh.bBlocknr))
    {
      hide Hash, Linked, First;
      bh.prevHash := null;
      bh.nextHash := null;
      if bh.bDev == 0 { return false; }
      var h := Hash(bh.bDev, bh.bBlocknr);
      ghost var cs, c := chains, chains[h];
      ChainsApart(cs, bh, h);
      nullStore := LinkToChain(bh, h, c);
      assert c != [] ==> c[0] in Nodes(c) && OnChain(c[0], h) && c[0] != bh;
      chains := cs[h := [bh] + c];
      ChainsRebuilt(cs, h, [bh] + c, null);
    }

    method LinkToChain(bh: BufferHead, h: nat, ghost c: seq<BufferHead>) returns (nullStore: bool)
      requires h < hashTable.Length && hashTable[h] == First(c)
      requires Linked(c) && bh !in c && bh.prevHash == null
      modifies hashTable, Nodes(c)`nextHash, Nodes(c)`prevHash, bh`nextHash
      ensures Linked([bh] + c) && hashTable[h] == First([bh] + c) && (nullStore <==> c == [])
      ensures forall x :: 0 <= x < hashTable.Length && x != h ==> hashTable[x] == old(hashTable[x])
    {
      bh.nextHash := hashTable[h];
      hashTable[h] := bh;
      nullStore := bh.nextHash == null;
      if !nullStore { bh.nextHash.prevHash := bh; }
    }

    // ---- the two routines, and the end of getblk ----

    method RemoveFromQueues(bh: BufferHead)
      requires HeadsOk() && bh in heads && ChainsOk(chains, null) && RingLinks(freeList, ring) && bh in ring
      modifies this`chains, this`ring, this`freeList, hashTable
      modifies Nodes(heads)`nextHash, Nodes(heads)`prevHash, Nodes(ring)`nextFree, Nodes(ring)`prevFree
      ensures ChainsOk(chains, bh)
      ensures old(PositionOf(ring, bh)) < |old(ring)| && ring == old(Cut(ring, PositionOf(ring, bh)))
      ensures RingBut(ring, bh)
    {
      hide ChainsOk, RingLinks;
      UnlinkHash(bh);
      UnlinkRing(bh);
    }

    method InsertIntoQueues(bh: BufferHead) returns (nullStore: bool)
      requires HeadsOk() && bh in heads && ChainsOk(chains, bh) && RingBut(ring, bh)
      modifies this`chains, this`ring, hashTable, bh`nextFree, bh`prevFree
      modifies Nodes(heads)`nextHash, Nodes(heads)`prevHash, Nodes(ring)`nextFree, Nodes(ring)`prevFree
      ensures ChainsOk(chains, null) && ring == old(ring) + [bh] && RingLinks(freeList, ring)
      ensures nullStore
         <==> bh.bDev != 0 && forall b :: b in heads && b != bh ==> !OnChain(b, Hash(bh.bDev, bh.bBlocknr))
    {
      hide ChainsOk;
      LinkRing(bh);
      nullStore := LinkHash(bh);
    }

    /** Giving a header that is on no chain another identity. */
    method SetIdentity(bh: BufferHead, dev: UInt16, block: UInt32)
      requires bh in heads && ChainsOk(chains, bh)
      modifies bh`bDev, bh`bBlocknr
      ensures ChainsOk(chains, bh) && bh.bDev == dev && bh.bBlocknr == block
    {
      hide Hash, Linked;
      bh.bDev := dev;
      bh.bBlocknr := block;
    }

    /** The end of getblk (lines 200-212): the victim gets the new identity.  The store through
        null of line 105 happens if and only if no other buffer hashes where the block does. */
    method TakeVictim(bh: BufferHead, dev: UInt16, block: UInt32) returns (nullStore: bool)
      requires Valid() && bh in heads && dev != 0 && Find(View(), dev, block).None?
      modifies this`chains, this`ring, this`freeList, hashTable, Nodes(heads)
      ensures Valid() && View() == Reassign(old(View()), bh.index, dev, block)
      ensures nullStore <==> NullStore(old(View()), bh.index, dev, block)
    {
      hide ChainsOk, RingLinks, RingBut, Without, Unique, Reassign, PositionOf, RingOk, NullStore, OnChain, Hash;
      ghost var c, r := View(), ring;
      HeadInRing(bh);
      ghost var p := PositionOf(ring, bh);
      assert forall b :: b in Cut(r, p) ==> b in r;
      bh.bCount := 1;
      bh.bDirt := 0;
      bh.bUptodate := 0;
      RemoveFromQueues(bh);
      SetIdentity(bh, dev, block);
      nullStore := InsertIntoQueues(bh);
      Reassigned(c, r, p, bh, dev, block);
      NullStoreIs(c, bh, dev, block);
    }

    lemma NullStoreIs(c: Cache, bh: BufferHead, dev: UInt16, block: UInt32)
      requires HeadsOk() && bh in heads && |c.bufs| == |heads|
      requires forall b :: b in heads && b != bh ==> c.bufs[b.index] == b.State()
      ensures NullStore(c, bh.index, dev, block)
         <==> forall b :: b in heads && b != bh ==> !OnChain(b, Hash(dev, block))
    {
      hide Hash;
      var h := Hash(dev, block);
      assert forall b :: b in heads ==> heads[b.index] == b;
      if forall b :: b in heads && b != bh ==> !OnChain(b, h) {
        forall x | 0 <= x < |c.bufs| && x != bh.index && c.bufs[x].dev != 0
          ensures Hash(c.bufs[x].dev, c.bufs[x].block) != h
        {
          assert heads[x] in heads && heads[x] != bh && !OnChain(heads[x], h);
        }
      }
      if NullStore(c, bh.index, dev, block) {
        forall b | b in heads && b != bh ensures !OnChain(b, h) { assert c.bufs[b.index] == b.State(); }
      }
    }

    /** The headers and the ring after a reassignment, as values. */
    lemma Reassigned(c: Cache, r: seq<BufferHead>, p: nat, bh: BufferHead, dev: UInt16, block: UInt32)
      requires HeadsOk() && bh in heads && |c.bufs| == |heads|
      requires bh.State() == Buf(dev, block, 0, 0, 1, c.bufs[bh.index].lock)
      requires forall b :: b in heads && b != bh ==> c.bufs[b.index] == b.State()
      requires CacheOk(c) && c.ring == Indices(r) && p < |r| && r[p] == bh && (forall b :: b in r ==> b in heads)
      requires ring == Cut(r, p) + [bh] && RingLinks(freeList, ring) && ChainsOk(chains, null)
      requires dev != 0 && Find(c, dev, block).None?
      ensures Valid() && View() == Reassign(c, bh.index, dev, block)
    {
      hide ChainsOk, RingLinks, Unique, Without;
      RingMoved(r, p, c);
      ReassignKeeps(c, bh.index, dev, block);
      assert States(heads) == Reassign(c, bh.index, dev, block).bufs;
    }

    /** Every header is on the ring. */
    lemma HeadInRing(bh: BufferHead)
      requires Valid() && bh in heads
      ensures bh in ring
    {
      hide ChainsOk, RingLinks;
      RingHasAll(View().ring, bh.index);
      var i :| 0 <= i < |ring| && Indices(ring)[i] == bh.index;
      assert ring[i] in heads;
    }

    lemma RingMoved(r: seq<BufferHead>, p: nat, c: Cache)
      requires RingOk(c) && c.ring == Indices(r) && p < |r|
      ensures Indices(Cut(r, p) + [r[p]]) == Without(c.ring, r[p].index) + [r[p].index]
    {
      WithoutAt(c.ring, p);
    }

    // ---- find_buffer ----

    method FindBuffer(dev: UInt16, block: UInt32) returns (tmp: BufferHead?)
      requires Valid()
      ensures tmp == null ==> Find(View(), dev, block) == None
      ensures tmp != null ==> tmp in heads && Find(View(), dev, block) == Some(tmp.index)
    {
      hide Hash;
      ghost var c, i := chains[Hash(dev, block)], 0;
      tmp := hashTable[Hash(dev, block)];
      while tmp != null
        invariant 0 <= i <= |c| && tmp == (if i < |c| then c[i] else null)
        invariant forall j :: 0 <= j < i ==> !(c[j].bDev == dev && c[j].bBlocknr == block)
        decreases |c| - i
      {
        if tmp.bDev == dev && tmp.bBlocknr == block {
          assert tmp in Nodes(c) && OnChain(tmp, Hash(dev, block));
          FoundIs(tmp, dev, block);
          return;
        }
        tmp := tmp.nextHash;
        i := i + 1;
      }
      NotFound(dev, block);
    }

    lemma FoundIs(b: BufferHead, dev: UInt16, block: UInt32)
      requires Valid() && b in heads && b.bDev == dev != 0 && b.bBlocknr == block
      ensures Find(View(), dev, block) == Some(b.index)
    {
      hide ChainsOk, RingLinks, RingOk;
      assert View().bufs[b.index].Is(dev, block);
    }

    lemma NotFound(dev: UInt16, block: UInt32)
      requires Valid()
      requires forall b :: b in chains[Hash(dev, block)] ==> !(b.bDev == dev && b.bBlocknr == block)
      ensures Find(View(), dev, block) == None
    {
      hide Hash, RingLinks, CacheOk;
      forall x | 0 <= x < |heads| ensures !View().bufs[x].Is(dev, block) {
        var b := heads[x];
        assert View().bufs[x] == b.State();
        assert b.bDev != 0 ==> b in chains[Hash(b.bDev, b.bBlocknr)];
      }
    }

    // ---- the scan for a victim ----

    method ScanFreeList() returns (bh: BufferHead?)
      requires Valid()
      ensures bh == null ==> Victim(View()) == None
      ensures bh != null ==> bh in heads && Victim(View()) == Some(bh.index)
    {
      hide ChainsOk, Unique;
      var tmp := freeList;
      bh := null;
      ghost var i := 0;
      while true
        invariant 0 <= i < |ring| && tmp == ring[i]
        invariant bh != null ==> bh in heads
        invariant ScanFrom(View(), i, if bh == null then None else Some(bh.index)) == Victim(View())
        decreases |ring| - i
      {
        assert tmp in heads && View().ring[i] == tmp.index && View().bufs[tmp.index] == tmp.State();
        if tmp.bCount == 0 {
          if bh == null || 2 * tmp.bDirt as nat + tmp.bLock as nat < 2 * bh.bDirt as nat + bh.bLock as nat {
            bh := tmp;
            if 2 * tmp.bDirt as nat + tmp.bLock as nat == 0 { break; }
          }
        }
        tmp := tmp.nextFree;
        i := i + 1;
        if tmp == freeList { break; }
      }
    }

    // ---- pins ----

    /** The part of get_hash_table before the wait: find the buffer and pin it. */
    method LookupAndPin(dev: UInt16, block: UInt32) returns (bh: BufferHead?)
      requires Valid()
      modifies Nodes(heads)`bCount
      ensures Valid()
      ensures bh == null ==> Find(old(View()), dev, block) == None && View() == old(View())
      ensures bh != null ==>
        bh in heads && Find(old(View()), dev, block) == Some(bh.index) && View() == Pin(old(View()), bh.index)
    {
      hide Find;
      bh := FindBuffer(dev, block);
      if bh != null { SetCount(bh, Inc(bh.bCount)); }
    }

    /** The part of brelse after the wait; false stands for the panic. */
    method Release(bh: BufferHead) returns (ok: bool)
      requires Valid() && bh in heads
      modifies bh`bCount
      ensures Valid() && ok == (old(bh.bCount) != 0)
      ensures View() == if ok then Unpin(old(View()), bh.index) else old(View())
    {
      if bh.bCount == 0 { return false; }
      SetCount(bh, Dec(bh.bCount));
      return true;
    }

    method SetCount(bh: BufferHead, n: UInt8)
      requires Valid() && bh in heads
      modifies bh`bCount
      ensures Valid() && View() == WithCount(old(View()), bh.index, n)
    {
      hide ChainsOk, RingLinks;
      ghost var c := View();
      bh.bCount := n;
      assert View().bufs == WithCount(c, bh.index, n).bufs;
      CountKeeps(c, bh.index, n);
    }

    static lemma CountKeeps(c: Cache, b: nat, n: UInt8)
      requires CacheOk(c) && b < |c.bufs|
      ensures CacheOk(WithCount(c, b, n))
    {
      var c' := WithCount(c, b, n);
      forall x, y | 0 <= x < |c'.bufs| && 0 <= y < |c'.bufs| && c'.bufs[y].Is(c'.bufs[x].dev, c'.bufs[x].block)
        ensures x == y
      {
        assert c.bufs[y].Is(c.bufs[x].dev, c.bufs[x].block);
      }
    }
  }
}
