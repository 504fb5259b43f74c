/** The pool of blocks that wait for their parent. */
module OrphanBlocks {
  import opened Ledger
  import opened BlockTrees

  const MAX_ORPHAN_BLOCKS: nat := 100
  const HOUR: int := 3600

  /** A block and the time until which it is kept, as the pool remembers its oldest. */
  datatype Oldest = Oldest(hash: Hash, expiration: int)

  type Times = map<Hash, int>

  /** The blocks whose time is not over. */
  function Unexpired(expirations: Times, now: int): (r: set<Hash>)
    ensures r <= expirations.Keys
  {
    set h | h in expirations && expirations[h] >= now
  }

  /** The remembered oldest after all blocks that are kept were looked at: the old one or a kept block, and none that is
      kept expires before it. */
  ghost predicate IsOldest(expirations: Times, kept: set<Hash>, was: Option<Oldest>, o: Option<Oldest>)
    requires kept <= expirations.Keys
  {
    && (o.None? ==> was.None? && kept == {})
    && (o.Some? ==> o == was || (o.value.hash in kept && expirations[o.value.hash] == o.value.expiration))
    && (o.Some? ==> forall h :: h in kept ==> o.value.expiration <= expirations[h])
    && (was.Some? ==> o.Some? && (o == was || o.value.expiration < was.value.expiration))
  }

  /** The block that makes room: the earliest to expire, or one under the hash that is remembered as the oldest. */
  ghost predicate MakesRoom(expirations: Times, kept: set<Hash>, was: Option<Oldest>, o: Hash)
    requires kept <= expirations.Keys
  {
    o in kept && ((forall h :: h in kept ==> expirations[o] <= expirations[h]) || (was.Some? && was.value.hash == o))
  }

  /** The pool still remembers, as its oldest, a block that is gone and would have expired before all that are kept. */
  predicate Stale(expirations: Times, kept: set<Hash>, was: Option<Oldest>)
    requires kept <= expirations.Keys
  {
    was.Some? && was.value.hash !in kept && forall h :: h in kept ==> was.value.expiration <= expirations[h]
  }

  class OrphanBlockPool {
    var blocks: map<Hash, Header>
    var expirations: Times
    var oldest: Option<Oldest>

    ghost predicate Valid()
      reads this
    {
      blocks.Keys == expirations.Keys
    }

    constructor ()
      ensures Valid() && blocks == map[] && oldest == None
    {
      blocks, expirations, oldest := map[], map[], None;
    }

    method Remove(h: Hash)
      requires Valid()
      modifies this
      ensures Valid() && blocks == old(blocks) - {h} && expirations == old(expirations) - {h} && oldest == old(oldest)
      ensures blocks.Keys == old(blocks.Keys) - {h}
    {
      blocks := blocks - {h};
      expirations := expirations - {h};
    }

    /** Drops what has expired and notes the oldest of the rest. */
    method DropExpired(now: int)
      requires Valid()
      modifies this
      ensures Valid() && forall h :: h in blocks <==> h in Unexpired(old(expirations), now)
      ensures forall h :: h in blocks ==> blocks[h] == old(blocks)[h] && expirations[h] == old(expirations)[h]
      ensures IsOldest(old(expirations), Unexpired(old(expirations), now), old(oldest), oldest)
    {
      hide IsOldest;
      ghost var all, seen: set<Hash> := expirations, {};
      var rest := blocks.Keys;
      NoneSeen(all, oldest);
      while rest != {}
        invariant Valid() && rest <= blocks.Keys && seen <= all.Keys
        invariant forall h :: h in seen <==> h in all && h !in rest && all[h] >= now
        invariant forall h :: h in blocks <==> h in rest || h in seen
        invariant forall h :: h in blocks ==> h in all && expirations[h] == all[h] && blocks[h] == old(blocks)[h]
        invariant IsOldest(all, seen, old(oldest), oldest)
        decreases |rest|
      {
        var h :| h in rest;
        var e := expirations[h];
        rest := rest - {h};
        if e < now {
          Remove(h);
        } else {
          OneSeen(all, seen, old(oldest), oldest, h);
          if oldest.None? || e < oldest.value.expiration {
            oldest := Some(Oldest(h, e));
          }
          seen := seen + {h};
        }
      }
      assert seen == Unexpired(all, now);
    }

    /** Adds a block.  When the pool is full the oldest block makes room, the earliest to expire; but a remembered oldest
        that is no longer in the pool makes none, and exactly then the pool grows beyond its limit. */
    method AddOrphanBlock(x: Header, now: int)
      requires Valid() && x.hash !in blocks
      modifies this
      ensures Valid() && x.hash in blocks && blocks[x.hash] == x && expirations[x.hash] == now + HOUR
      ensures forall h :: h in blocks && h != x.hash ==>
                h in old(blocks) && blocks[h] == old(blocks)[h] && expirations[h] == old(expirations)[h]
      ensures Added(old(expirations), old(oldest), now, x.hash, blocks.Keys)
      ensures var kept := Unexpired(old(expirations), now);
              if |kept| < MAX_ORPHAN_BLOCKS then IsOldest(old(expirations), kept, old(oldest), oldest) else oldest == None
    {
      hide Unexpired, IsOldest, Added, Stale;
      ghost var all, was, kept := expirations, oldest, Unexpired(expirations, now);
      DropExpired(now);
      assert blocks.Keys == kept;
      KeyCount(blocks);
      ghost var full := oldest;
      if |blocks| + 1 > MAX_ORPHAN_BLOCKS {
        SomeOldest(all, kept, was, oldest);
        Remove(oldest.value.hash);
        oldest := None;
      }
      Put(x, now + HOUR);
      AddedBy(all, was, kept, now, x.hash, full, blocks.Keys);
    }

    method Put(x: Header, expiration: int)
      requires Valid()
      modifies this
      ensures Valid() && blocks == old(blocks)[x.hash := x] && expirations == old(expirations)[x.hash := expiration]
      ensures blocks.Keys == old(blocks.Keys) + {x.hash} && oldest == old(oldest)
    {
      blocks := blocks[x.hash := x];
      expirations := expirations[x.hash := expiration];
    }
  }

  /** The blocks in the pool after one more was added. */
  ghost predicate Added(expirations: Times, oldest: Option<Oldest>, now: int, h: Hash, keys: set<Hash>) {
    var kept := Unexpired(expirations, now);
    if |kept| < MAX_ORPHAN_BLOCKS || Stale(expirations, kept, oldest) then keys == kept + {h}
    else exists o :: MakesRoom(expirations, kept, oldest, o) && keys == kept - {o} + {h}
  }

  lemma NoneSeen(all: Times, was: Option<Oldest>)
    ensures IsOldest(all, {}, was, was)
  {
  }

  lemma OneSeen(all: Times, seen: set<Hash>, was: Option<Oldest>, o: Option<Oldest>, h: Hash)
    requires seen <= all.Keys && h in all && IsOldest(all, seen, was, o)
    ensures IsOldest(all, seen + {h}, was,
              if o.None? || all[h] < o.value.expiration then Some(Oldest(h, all[h])) else o)
  {
  }

  lemma SomeOldest(all: Times, kept: set<Hash>, was: Option<Oldest>, o: Option<Oldest>)
    requires kept <= all.Keys && IsOldest(all, kept, was, o) && |kept| > 0
    ensures o.Some?
  {
  }

  lemma AddedBy(all: Times, was: Option<Oldest>, kept: set<Hash>, now: int, h: Hash, o: Option<Oldest>, keys: set<Hash>)
    requires kept == Unexpired(all, now) && h !in all && IsOldest(all, kept, was, o)
    requires |kept| < MAX_ORPHAN_BLOCKS ==> keys == kept + {h}
    requires |kept| >= MAX_ORPHAN_BLOCKS ==> o.Some? && keys == kept - {o.value.hash} + {h}
    ensures Added(all, was, now, h, keys)
  {
    hide Unexpired;
    if |kept| >= MAX_ORPHAN_BLOCKS {
      if o.value.hash in kept {
        assert MakesRoom(all, kept, was, o.value.hash);
      } else {
        assert kept - {o.value.hash} == kept;
      }
    }
  }

  /** A pool within its limit stays within it, exactly when it is not full or what it remembers as its oldest is not
      stale. */
  lemma Limit(expirations: Times, oldest: Option<Oldest>, now: int, h: Hash, keys: set<Hash>)
    requires Added(expirations, oldest, now, h, keys) && h !in expirations
    requires |Unexpired(expirations, now)| <= MAX_ORPHAN_BLOCKS
    ensures var kept := Unexpired(expirations, now);
            |keys| <= MAX_ORPHAN_BLOCKS <==> |kept| < MAX_ORPHAN_BLOCKS || !Stale(expirations, kept, oldest)
  {
    hide Unexpired, Stale;
  }

  /** Adding to a pool that has room, or remembers a block that is gone and expired first. */
  lemma RoomLeft(expirations: Times, was: Option<Oldest>, now: int, h: Hash, keys: set<Hash>, o: Option<Oldest>)
    requires forall k :: k in expirations ==> expirations[k] >= now
    requires was.Some? ==> was.value.hash !in expirations
    requires was.Some? ==> forall k :: k in expirations ==> expirations[k] > was.value.expiration
    requires was.Some? || |expirations.Keys| < MAX_ORPHAN_BLOCKS
    requires Added(expirations, was, now, h, keys)
    requires var kept := Unexpired(expirations, now);
             |kept| < MAX_ORPHAN_BLOCKS ==> IsOldest(expirations, kept, was, o)
    ensures keys == expirations.Keys + {h}
    ensures |expirations.Keys| < MAX_ORPHAN_BLOCKS && was.Some? ==> o == was
    ensures expirations.Keys == {} ==> o == was
    ensures forall k :: was.None? && expirations.Keys == {k} ==> o == Some(Oldest(k, expirations[k]))
  {
    assert Unexpired(expirations, now) == expirations.Keys;
  }

  /** A block that waits for a parent of its own. */
  function Waiting(h: Hash): Header {
    Header(h, h + 1000, 1, 0, 0)
  }

  /** The pool holds the blocks from 2 up to h and remembers block 1, which is gone. */
  ghost predicate Filled(pool: OrphanBlockPool, h: nat)
    reads pool
  {
    && pool.Valid() && pool.blocks.Keys == UpTo(h) && pool.oldest == Some(Oldest(1, HOUR))
    && forall k :: k in pool.expirations ==> pool.expirations[k] > HOUR
  }

  ghost function UpTo(h: nat): set<Hash> {
    if h <= 2 then {} else UpTo(h - 1) + {h - 1}
  }

  lemma {:induction false} UpToSize(h: nat)
    requires h >= 2
    ensures |UpTo(h)| == h - 2 && forall k :: k in UpTo(h) ==> 2 <= k < h
  {
    if h > 2 {
      UpToSize(h - 1);
    }
  }

  method FillOne(pool: OrphanBlockPool, h: nat)
    requires 2 <= h < MAX_ORPHAN_BLOCKS + 2 && Filled(pool, h)
    modifies pool
    ensures Filled(pool, h + 1)
  {
    hide IsOldest, Added, Unexpired;
    UpToSize(h);
    ghost var times := pool.expirations;
    pool.AddOrphanBlock(Waiting(h), HOUR + 1);
    RoomLeft(times, Some(Oldest(1, HOUR)), HOUR + 1, h, pool.expirations.Keys, pool.oldest);
  }

  method OneTooMany(pool: OrphanBlockPool)
    requires Filled(pool, MAX_ORPHAN_BLOCKS + 2)
    modifies pool
    ensures |pool.blocks.Keys| == MAX_ORPHAN_BLOCKS + 1
  {
    hide IsOldest, Added, UpTo, Unexpired;
    UpToSize(MAX_ORPHAN_BLOCKS + 2);
    ghost var times := pool.expirations;
    pool.AddOrphanBlock(Waiting(MAX_ORPHAN_BLOCKS + 2), HOUR + 1);
    RoomLeft(times, Some(Oldest(1, HOUR)), HOUR + 1, MAX_ORPHAN_BLOCKS + 2, pool.expirations.Keys, pool.oldest);
  }

  /** The limit can be passed by additions alone: the oldest block expires, and is still remembered as the oldest when the
      pool is full. */
  method OverTheLimit() returns (pool: OrphanBlockPool)
    ensures |pool.blocks.Keys| == MAX_ORPHAN_BLOCKS + 1
  {
    hide Filled;
    pool := FirstThree();
    var h := 4;
    while h < MAX_ORPHAN_BLOCKS + 2
      invariant 4 <= h <= MAX_ORPHAN_BLOCKS + 2 && Filled(pool, h)
    {
      FillOne(pool, h);
      h := h + 1;
    }
    OneTooMany(pool);
  }

  method FirstThree() returns (pool: OrphanBlockPool)
    ensures fresh(pool) && Filled(pool, 4)
  {
    pool := new OrphanBlockPool();
    AddFirst(pool);
    AddSecond(pool);
    AddThird(pool);
  }

  /** The first block has expired by now. */
  method AddThird(pool: OrphanBlockPool)
    requires pool.Valid() && pool.expirations == map[1 := HOUR, 2 := HOUR + 1] && pool.oldest == Some(Oldest(1, HOUR))
    modifies pool
    ensures Filled(pool, 4)
  {
    hide IsOldest, Added, Unexpired;
    ghost var times := pool.expirations;
    pool.AddOrphanBlock(Waiting(3), HOUR + 1);
    OneExpired(times, pool.blocks.Keys, pool.oldest);
  }

  lemma OneExpired(times: Times, keys: set<Hash>, o: Option<Oldest>)
    requires times == map[1 := HOUR, 2 := HOUR + 1] && Added(times, Some(Oldest(1, HOUR)), HOUR + 1, 3, keys)
    requires var kept := Unexpired(times, HOUR + 1);
             |kept| < MAX_ORPHAN_BLOCKS ==> IsOldest(times, kept, Some(Oldest(1, HOUR)), o)
    ensures keys == UpTo(4) == {2, 3} && o == Some(Oldest(1, HOUR))
  {
    assert Unexpired(times, HOUR + 1) == {2};
    assert UpTo(3) == {2} && UpTo(4) == {2, 3};
  }

  method AddFirst(pool: OrphanBlockPool)
    requires pool.Valid() && pool.blocks == map[] && pool.oldest == None
    modifies pool
    ensures pool.Valid() && pool.expirations == map[1 := HOUR] && pool.oldest == None
  {
    hide IsOldest, Added, Unexpired;
    ghost var times := pool.expirations;
    pool.AddOrphanBlock(Waiting(1), 0);
    RoomLeft(times, None, 0, 1, pool.expirations.Keys, pool.oldest);
  }

  method AddSecond(pool: OrphanBlockPool)
    requires pool.Valid() && pool.expirations == map[1 := HOUR] && pool.oldest == None
    modifies pool
    ensures pool.Valid() && pool.expirations == map[1 := HOUR, 2 := HOUR + 1] && pool.oldest == Some(Oldest(1, HOUR))
  {
    hide IsOldest, Added, Unexpired;
    ghost var times := pool.expirations;
    assert times.Keys == {1};
    pool.AddOrphanBlock(Waiting(2), 1);
    RoomLeft(times, None, 1, 2, pool.expirations.Keys, pool.oldest);
  }

  lemma KeyCount(m: map<Hash, Header>)
    ensures |m| == |m.Keys|
  {
  }
}
