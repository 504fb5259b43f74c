/** Accepting blocks in any order: blocks without a parent wait as orphans. */
module BlockProcessing {
  import opened Ledger
  import opened BlockTrees
  import opened ChainState
  import opened OrphanBlocks

  /** Every orphan whose parent is in the tree waits for one of the open hashes. */
  ghost predicate SettledBut(index: Index, orphans: map<Hash, Header>, open: set<Hash>) {
    forall o :: o in orphans && orphans[o].previous in index ==> orphans[o].previous in open
  }

  /** The tree and the orphans together hold what they held and the headers in got, and nothing else. */
  ghost predicate Accounts(index: Index, orphans: map<Hash, Header>, was: Index, got: set<Header>) {
    && (forall h :: h in was ==> h in index && index[h] == was[h])
    && (forall x :: x in got ==> (x.hash in index && index[x.hash].header == x) ||
                                 (x.hash in orphans && orphans[x.hash] == x))
    && (forall h :: h in index && h !in was ==> index[h].header in got)
    && (forall h :: h in orphans ==> orphans[h] in got)
  }

  /** What accepting orphans below h may change: orphans move to the tree, those below h or below other orphans. */
  ghost predicate Moved(index0: Index, orphans0: map<Hash, Header>, index: Index, orphans: map<Hash, Header>, h: Hash) {
    && (forall k :: k in index0 ==> k in index && index[k] == index0[k])
    && (forall o :: o in orphans ==> o in orphans0 && orphans[o] == orphans0[o])
    && (forall o :: o in orphans0 && o !in orphans ==>
          && o in index && index[o].header == orphans0[o]
          && (orphans0[o].previous == h || orphans0[o].previous !in index0))
    && (forall k :: k in index && k !in index0 ==> k in orphans0 && k !in orphans)
  }

  /** Orphans are stored under their own hash; one that is in the tree as well is the same block there. */
  ghost predicate Consistent(index: Index, root: Hash, orphans: map<Hash, Header>) {
    && (forall o :: o in orphans ==> orphans[o].hash == o && orphans[o].target > 0)
    && (forall o :: o in orphans && o in index ==> o != root && index[o].header == orphans[o])
  }

  lemma ConsistentMore(index: Index, root: Hash, orphans: map<Hash, Header>, x: Header)
    requires Consistent(index, root, orphans) && root in index && x.hash !in index && x.previous in index
    requires x.hash in orphans ==> orphans[x.hash] == x
    ensures Consistent(index[x.hash := Leaf(index, x)], root, orphans)
    ensures Consistent(index[x.hash := Leaf(index, x)], root, orphans - {x.hash})
  {
  }

  class Driver {
    const chain: Chain
    const pool: OrphanBlockPool

    ghost predicate Valid()
      reads this, chain, pool
    {
      chain.Valid() && pool.Valid() && Consistent(chain.index, chain.root, pool.blocks)
    }

    /** No block is both in the tree and an orphan.  A failed acceptance can break this. */
    ghost predicate Apart()
      reads this, chain, pool
    {
      pool.blocks.Keys !! chain.index.Keys
    }

    /** No orphan below the hash is in the tree already. */
    ghost predicate NoneBelow(h: Hash)
      reads this, chain, pool
    {
      forall o :: o in pool.blocks && pool.blocks[o].previous == h ==> o !in chain.index
    }

    /** The state of a run in which nothing failed and no orphan was dropped. */
    ghost predicate Clean(was: Index, got: set<Header>)
      reads this, chain, pool
    {
      && Apart() && IsBest(chain.index, chain.best) && SettledBut(chain.index, pool.blocks, {})
      && Accounts(chain.index, pool.blocks, was, got) && Injective(was, got)
    }

    constructor (genesis: Header)
      ensures Valid() && Apart() && IsBest(chain.index, chain.best) && pool.blocks == map[]
      ensures chain.index == map[genesis.hash := Node(genesis, genesis.target, 0)] && fresh(chain) && fresh(pool)
      ensures chain.root == genesis.hash
    {
      chain := new Chain(genesis);
      pool := new OrphanBlockPool();
    }

    /** The context checks may refuse a block; otherwise it joins the tree. */
    method MaybeAcceptBlock(x: Header) returns (r: Result)
      requires chain.Valid() && x.hash !in chain.index && x.previous in chain.index && x.target > 0
      modifies chain
      ensures chain.Valid()
      ensures chain.index == old(chain.index) || chain.index == old(chain.index)[x.hash := Leaf(old(chain.index), x)]
      ensures r == Done ==> chain.index == old(chain.index)[x.hash := Leaf(old(chain.index), x)]
      ensures r == Done && old(IsBest(chain.index, chain.best)) ==> IsBest(chain.index, chain.best)
    {
      var fits: bool := *;
      if !fits {
        return Failed;
      }
      r := chain.ConnectBestChain(x, AnyFault);
    }

    method GetOrphansByPrevious(h: Hash) returns (list: seq<Header>)
      requires Valid()
      ensures forall o :: o in pool.blocks && pool.blocks[o].previous == h ==>
                pool.blocks[o] in list && pool.blocks[o].hash == o
      ensures forall n :: 0 <= n < |list| ==>
                list[n].hash in pool.blocks && pool.blocks[list[n].hash] == list[n] && list[n].previous == h
      ensures forall n, m :: 0 <= n < m < |list| ==> list[n].hash != list[m].hash
      ensures forall n :: 0 <= n < |list| ==> list[n].target > 0
    {
      hide WellFormed, Path, Members;
      list := [];
      var rest := pool.blocks.Keys;
      while rest != {}
        invariant rest <= pool.blocks.Keys
        invariant forall o :: o in pool.blocks && o !in rest && pool.blocks[o].previous == h ==> pool.blocks[o] in list
        invariant forall n :: 0 <= n < |list| ==>
                    list[n].hash in pool.blocks && pool.blocks[list[n].hash] == list[n] && list[n].previous == h
        invariant forall n :: 0 <= n < |list| ==> list[n].hash !in rest
        invariant forall n, m :: 0 <= n < m < |list| ==> list[n].hash != list[m].hash
        invariant forall n :: 0 <= n < |list| ==> list[n].target > 0
        decreases |rest|
      {
        var o :| o in rest;
        rest := rest - {o};
        if pool.blocks[o].previous == h {
          list := list + [pool.blocks[o]];
        }
      }
    }

    /** Accepts the orphans below a hash that just joined the tree, depth first, stopping at the first failure. */
    method ProcessOrphans(h: Hash, ghost open: set<Hash>) returns (r: Result)
      requires Valid() && h in chain.index && NoneBelow(h)
      modifies pool, chain
      ensures Valid()
      ensures r == Done ==> Moved(old(chain.index), old(pool.blocks), chain.index, pool.blocks, h)
      ensures r == Done && old(IsBest(chain.index, chain.best)) ==> IsBest(chain.index, chain.best)
      ensures r == Done && old(SettledBut(chain.index, pool.blocks, open + {h})) ==>
                SettledBut(chain.index, pool.blocks, open)
      decreases pool.blocks.Keys
    {
      hide WellFormed, Path, Members, IsBest, Better, Moved, SettledBut, Consistent;
      var list := GetOrphansByPrevious(h);
      ghost var index0, orphans0 := chain.index, pool.blocks;
      ghost var sound := SettledBut(chain.index, pool.blocks, open + {h});
      ghost var best := IsBest(chain.index, chain.best);
      MovedNone(index0, orphans0, h);
      for m := 0 to |list|
        invariant Valid() && h in chain.index
        invariant Moved(index0, orphans0, chain.index, pool.blocks, h)
        invariant forall n :: m <= n < |list| ==> list[n].hash in pool.blocks && pool.blocks[list[n].hash] == list[n]
        invariant forall n :: m <= n < |list| ==> list[n].hash !in chain.index && list[n].hash !in index0
        invariant forall n :: 0 <= n < m ==> list[n].hash !in pool.blocks
        invariant best ==> IsBest(chain.index, chain.best)
        invariant sound ==> SettledBut(chain.index, pool.blocks, open + {h})
      {
        var x := list[m];
        ghost var index1, orphans1 := chain.index, pool.blocks;
        MovedKeeps(index0, orphans0, index1, orphans1, h, x.hash);
        RootIn(chain.index, chain.root);
        ConsistentMore(index1, chain.root, orphans1, x);
        FreshBelow(x.hash);
        r := MaybeAcceptBlock(x);
        if r != Done {
          return;
        }
        pool.Remove(x.hash);
        ghost var index2, orphans2 := chain.index, pool.blocks;
        AcceptedOne(index1, orphans1, index2, orphans2, open + {h}, x);
        assert pool.blocks.Keys < orphans0.Keys by { MovedFewer(index0, orphans0, index1, orphans1, h); }
        r := ProcessOrphans(x.hash, open + {h});
        if r != Done {
          return;
        }
        MovedTrans(index0, orphans0, index1, orphans1, index2, orphans2, chain.index, pool.blocks, h, x);
        MovedKeeps(index0, orphans0, chain.index, pool.blocks, h, x.hash);
        StillWaiting(index2, orphans2, chain.index, pool.blocks, h, x, list, m);
      }
      SettledNow(index0, orphans0, chain.index, pool.blocks, open, h, list);
      r := Done;
    }

    /** No orphan below a hash that is not in the tree can be in the tree. */
    lemma FreshBelow(h: Hash)
      requires Valid() && h !in chain.index
      ensures forall o :: o in pool.blocks && pool.blocks[o].previous == h ==> o !in chain.index
    {
      hide Path, Members;
      forall o | o in pool.blocks && o in chain.index
        ensures pool.blocks[o].previous in chain.index
      {
        assert Linked(chain.index, o);
      }
    }

    /** A block is known, waits as an orphan, or joins the tree together with the orphans below it.  Whatever fails, the
        tree and the orphans stay consistent.  kept is false when an older orphan had to make room or had expired. */
    method ProcessBlock(x: Header, ghost was: Index, ghost got: set<Header>) returns (r: Result, kept: bool)
      requires Valid()
      modifies pool, chain
      ensures Valid()
      ensures r == Done && kept && old(Clean(was, got)) && Injective(was, got + {x}) ==> Clean(was, got + {x})
    {
      hide WellFormed, Path, Members, IsBest, Better, Moved, SettledBut, Accounts, Injective;
      kept := true;
      if x.hash in chain.index || x.hash in pool.blocks {
        HashesMatch(chain.index, chain.root);
        if Clean(was, got) && Injective(was, got + {x}) {
          KnownAlready(chain.index, pool.blocks, was, got, x);
        }
        return Done, true;
      }
      var sane: bool := *;
      if !sane || x.target == 0 || (x.previous !in chain.index && x.previous == ZERO_HASH) {
        return Failed, true;
      }
      if x.previous !in chain.index {
        kept := AddOrphanBlock(x, was, got);
        return Done, kept;
      }
      r := AcceptWithOrphans(x, was, got);
    }

    /** Keeps a block without a parent; kept says whether all other orphans are still there. */
    method AddOrphanBlock(x: Header, ghost was: Index, ghost got: set<Header>) returns (kept: bool)
      requires Valid()
      requires x.hash !in chain.index && x.hash !in pool.blocks && x.previous !in chain.index && x.target > 0
      modifies pool
      ensures Valid() && x.hash in pool.blocks
      ensures kept && old(Clean(was, got)) && Injective(was, got + {x}) ==> Clean(was, got + {x})
      ensures old(Apart()) ==> Apart()
    {
      hide WellFormed, Path, Members, SettledBut, Accounts, IsBest, Injective, Added, IsOldest;
      var before := pool.blocks;
      var now: int := *;
      pool.AddOrphanBlock(x, now);
      kept := pool.blocks == before[x.hash := x];
      if kept && old(Clean(was, got)) {
        NewOrphan(chain.index, before, was, got, x);
      }
    }

    method AcceptWithOrphans(x: Header, ghost was: Index, ghost got: set<Header>) returns (r: Result)
      requires Valid()
      requires x.hash !in chain.index && x.hash !in pool.blocks && x.previous in chain.index && x.target > 0
      modifies pool, chain
      ensures Valid()
      ensures r == Done && old(Clean(was, got)) && Injective(was, got + {x}) ==> Clean(was, got + {x})
    {
      hide WellFormed, Path, Members, IsBest, Better, Moved, SettledBut, Accounts, Injective;
      ghost var index0, orphans0 := chain.index, pool.blocks;
      ghost var clean := Clean(was, got);
      FreshBelow(x.hash);
      r := MaybeAcceptBlock(x);
      if r != Done {
        return;
      }
      ghost var index1 := chain.index;
      if clean {
        NewNode(index0, pool.blocks, index1, was, got, x);
      }
      r := ProcessOrphans(x.hash, {});
      if r == Done && clean {
        AccountsMoved(index1, orphans0, chain.index, pool.blocks, was, got + {x}, x.hash);
        MovedApart(index1, orphans0, chain.index, pool.blocks, x.hash);
      }
    }

    /** A run in any order at all, which goes on after failures.  The tree and the orphans stay consistent.  When nothing
        fails and no orphan is dropped, they hold exactly the headers of the run, no orphan has its parent in the tree,
        and the best node is the best of the tree. */
    method ProcessRun(run: seq<Header>) returns (clean: bool)
      requires Valid()
      modifies pool, chain
      ensures Valid()
      ensures clean && old(Clean(chain.index, {})) && Injective(old(chain.index), SetOf(run)) ==>
                Clean(old(chain.index), SetOf(run))
    {
      hide WellFormed, Path, Members, IsBest, Better, SettledBut, Accounts, Injective, Clean;
      ghost var was := chain.index;
      ghost var fit := Clean(was, {}) && Injective(was, SetOf(run));
      clean := true;
      assert SetOf(run[..0]) == {};
      for i := 0 to |run|
        invariant Valid()
        invariant clean && fit ==> Clean(was, SetOf(run[..i]))
      {
        assert run[..i + 1] == run[..i] + [run[i]];
        assert SetOf(run[..i + 1]) == SetOf(run[..i]) + {run[i]};
        if fit {
          InjectiveSubset(was, SetOf(run[..i]) + {run[i]}, SetOf(run));
        }
        var r, kept := ProcessBlock(run[i], was, SetOf(run[..i]));
        clean := clean && r == Done && kept;
        if r == Crashed {
          return;
        }
      }
      assert run[..|run|] == run;
    }

    /** A driver without orphans starts clean. */
    lemma StartsClean()
      requires Valid() && IsBest(chain.index, chain.best) && pool.blocks == map[]
      ensures Clean(chain.index, {})
    {
      StartAccounts(chain.index, pool.blocks);
    }
  }

  /** Two drivers that start from the same block and get the same headers, each in its own order, agree on the tree, the
      orphans and the best node, when nothing fails and no orphan is dropped. */
  method TwoOrders(genesis: Header, run1: seq<Header>, run2: seq<Header>) returns (clean: bool, one: Driver, two: Driver)
    requires SetOf(run1) == SetOf(run2)
    requires forall x, y :: x in {genesis} + SetOf(run1) && y in {genesis} + SetOf(run1) && x.hash == y.hash ==> x == y
    ensures one.Valid() && two.Valid()
    ensures clean ==>
              && one.chain.index == two.chain.index && one.chain.best == two.chain.best && one.pool.blocks == two.pool.blocks
              && IsBest(one.chain.index, one.chain.best)
  {
    hide WellFormed, Path, Members, IsBest, Better, SettledBut, Accounts;
    one := new Driver(genesis);
    two := new Driver(genesis);
    ghost var was := one.chain.index;
    one.StartsClean();
    two.StartsClean();
    assert Injective(was, SetOf(run1));
    var clean1 := one.ProcessRun(run1);
    var clean2 := two.ProcessRun(run2);
    clean := clean1 && clean2;
    if clean {
      SoundTree(one.chain);
      SoundTree(two.chain);
      AnyOrder(was, one.chain.root, SetOf(run1), one.chain.index, one.pool.blocks, one.chain.best,
               two.chain.index, two.pool.blocks, two.chain.best);
    }
  }

  lemma SoundTree(chain: Chain)
    requires chain.Valid()
    ensures WellFormed(chain.index, chain.root)
  {
  }

  lemma MovedApart(index0: Index, orphans0: map<Hash, Header>, index: Index, orphans: map<Hash, Header>, h: Hash)
    requires Moved(index0, orphans0, index, orphans, h) && orphans0.Keys !! index0.Keys
    ensures orphans.Keys !! index.Keys
  {
  }

  lemma MovedNone(index: Index, orphans: map<Hash, Header>, h: Hash)
    ensures Moved(index, orphans, index, orphans, h)
  {
  }

  lemma MovedKeeps(index0: Index, orphans0: map<Hash, Header>, index: Index, orphans: map<Hash, Header>, h: Hash, o: Hash)
    requires Moved(index0, orphans0, index, orphans, h)
    ensures o in orphans ==> o in orphans0 && orphans[o] == orphans0[o]
    ensures h in index0 ==> h in index
  {
  }

  lemma MovedFewer(index0: Index, orphans0: map<Hash, Header>, index: Index, orphans: map<Hash, Header>, h: Hash)
    requires Moved(index0, orphans0, index, orphans, h)
    ensures orphans.Keys <= orphans0.Keys
  {
  }

  /** Accepting one orphan opens its own hash. */
  lemma AcceptedOne(index1: Index, orphans1: map<Hash, Header>, index2: Index, orphans2: map<Hash, Header>,
                    open: set<Hash>, x: Header)
    requires x.previous in index1 && index2 == index1[x.hash := Leaf(index1, x)] && orphans2 == orphans1 - {x.hash}
    ensures SettledBut(index1, orphans1, open) ==> SettledBut(index2, orphans2, open + {x.hash})
  {
  }

  lemma MovedOne(index1: Index, orphans1: map<Hash, Header>, index2: Index, orphans2: map<Hash, Header>, x: Header)
    requires x.hash in orphans1 && orphans1[x.hash] == x && x.previous in index1 && x.hash !in index1
    requires index2 == index1[x.hash := Leaf(index1, x)] && orphans2 == orphans1 - {x.hash}
    ensures Moved(index1, orphans1, index2, orphans2, x.previous)
  {
  }

  /** What moves below g afterwards counts as moving below h, when g is h or was not in the tree. */
  lemma MovedComposes(index0: Index, orphans0: map<Hash, Header>, index1: Index, orphans1: map<Hash, Header>,
                      index: Index, orphans: map<Hash, Header>, h: Hash, g: Hash)
    requires Moved(index0, orphans0, index1, orphans1, h) && Moved(index1, orphans1, index, orphans, g)
    requires g == h || g !in index0
    ensures Moved(index0, orphans0, index, orphans, h)
  {
    forall o | o in orphans0 && o !in orphans
      ensures o in index && index[o].header == orphans0[o]
      ensures orphans0[o].previous == h || orphans0[o].previous !in index0
    {
      if o !in orphans1 {
        assert o in index1;
      }
    }
  }

  lemma MovedTrans(index0: Index, orphans0: map<Hash, Header>, index1: Index, orphans1: map<Hash, Header>,
                   index2: Index, orphans2: map<Hash, Header>, index: Index, orphans: map<Hash, Header>, h: Hash, x: Header)
    requires Moved(index0, orphans0, index1, orphans1, h) && Moved(index2, orphans2, index, orphans, x.hash)
    requires x.hash in orphans1 && orphans1[x.hash] == x && x.previous == h && h in index1
    requires index2 == index1[x.hash := Leaf(index1, x)] && orphans2 == orphans1 - {x.hash}
    requires x.hash !in index0 && x.hash !in index1
    ensures Moved(index0, orphans0, index, orphans, h)
  {
    hide Leaf;
    MovedOne(index1, orphans1, index2, orphans2, x);
    MovedComposes(index0, orphans0, index1, orphans1, index2, orphans2, h, h);
    MovedComposes(index0, orphans0, index2, orphans2, index, orphans, h, x.hash);
  }

  /** The remaining children of h are untouched by what happened below x. */
  lemma StillWaiting(index2: Index, orphans2: map<Hash, Header>, index: Index, orphans: map<Hash, Header>, h: Hash, x: Header,
                     list: seq<Header>, m: nat)
    requires Moved(index2, orphans2, index, orphans, x.hash) && h in index2 && h != x.hash && m < |list|
    requires forall n :: m < n < |list| ==>
               list[n].hash in orphans2 && orphans2[list[n].hash] == list[n] && list[n].previous == h
    requires forall n :: 0 <= n <= m ==> list[n].hash !in orphans2
    requires forall n :: m < n < |list| ==> list[n].hash !in index2
    ensures forall n :: m < n < |list| ==> list[n].hash !in index
    ensures forall n :: m < n < |list| ==> list[n].hash in orphans && orphans[list[n].hash] == list[n]
    ensures forall n :: 0 <= n <= m ==> list[n].hash !in orphans
  {
  }

  lemma SettledNow(index0: Index, orphans0: map<Hash, Header>, index: Index, orphans: map<Hash, Header>, open: set<Hash>,
                   h: Hash, list: seq<Header>)
    requires Moved(index0, orphans0, index, orphans, h)
    requires forall o :: o in orphans0 && orphans0[o].previous == h ==> orphans0[o] in list && orphans0[o].hash == o
    requires forall n :: 0 <= n < |list| ==> list[n].hash !in orphans
    ensures SettledBut(index, orphans, open + {h}) ==> SettledBut(index, orphans, open)
  {
    if SettledBut(index, orphans, open + {h}) {
      forall o | o in orphans && orphans[o].previous in index
        ensures orphans[o].previous in open
      {
        assert orphans[o] == orphans0[o];
      }
    }
  }

  function SetOf(run: seq<Header>): set<Header> {
    set x | x in run
  }

  lemma HashesMatch(index: Index, root: Hash)
    requires WellFormed(index, root)
    ensures forall h :: h in index ==> index[h].header.hash == h
  {
  }

  /** A hash stands for one header. */
  ghost predicate Injective(was: Index, headers: set<Header>) {
    && (forall x, y :: x in headers && y in headers && x.hash == y.hash ==> x == y)
    && (forall x :: x in headers && x.hash in was ==> was[x.hash].header == x)
  }

  lemma InjectiveSubset(was: Index, small: set<Header>, large: set<Header>)
    requires small <= large && Injective(was, large)
    ensures Injective(was, small)
  {
  }

  lemma StartAccounts(index: Index, orphans: map<Hash, Header>)
    requires orphans == map[]
    ensures Accounts(index, orphans, index, {}) && SettledBut(index, orphans, {})
  {
  }

  lemma KnownAlready(index: Index, orphans: map<Hash, Header>, was: Index, got: set<Header>, x: Header)
    requires Accounts(index, orphans, was, got) && Injective(was, got + {x})
    requires forall h :: h in index ==> index[h].header.hash == h
    requires forall o :: o in orphans ==> orphans[o].hash == o
    requires x.hash in index || x.hash in orphans
    ensures Accounts(index, orphans, was, got + {x})
  {
    if x.hash in index {
      assert index[x.hash].header == x;
    } else {
      assert orphans[x.hash] == x;
    }
  }

  lemma NewOrphan(index: Index, orphans: map<Hash, Header>, was: Index, got: set<Header>, x: Header)
    requires Accounts(index, orphans, was, got) && SettledBut(index, orphans, {})
    requires x.hash !in index && x.hash !in orphans && x.previous !in index
    ensures Accounts(index, orphans[x.hash := x], was, got + {x}) && SettledBut(index, orphans[x.hash := x], {})
  {
  }

  lemma NewNode(index: Index, orphans: map<Hash, Header>, more: Index, was: Index, got: set<Header>, x: Header)
    requires Accounts(index, orphans, was, got) && SettledBut(index, orphans, {})
    requires x.hash !in index && x.hash !in orphans && x.previous in index && more == index[x.hash := Leaf(index, x)]
    ensures Accounts(more, orphans, was, got + {x}) && SettledBut(more, orphans, {} + {x.hash})
  {
  }

  lemma AccountsMoved(index0: Index, orphans0: map<Hash, Header>, index: Index, orphans: map<Hash, Header>, was: Index,
                      got: set<Header>, h: Hash)
    requires Accounts(index0, orphans0, was, got) && Moved(index0, orphans0, index, orphans, h)
    ensures Accounts(index, orphans, was, got)
  {
    forall x | x in got
      ensures (x.hash in index && index[x.hash].header == x) || (x.hash in orphans && orphans[x.hash] == x)
    {
      if x.hash in orphans0 && orphans0[x.hash] == x && x.hash !in orphans {
        assert x.hash in index;
      }
    }
    forall k | k in index && k !in was
      ensures index[k].header in got
    {
      if k !in index0 {
        assert k in orphans0 && k !in orphans;
      }
    }
  }

  /** A node of one tree is a node of the other. */
  lemma {:induction false} InBoth(was: Index, root: Hash, got: set<Header>, index1: Index, orphans1: map<Hash, Header>,
                                  index2: Index, orphans2: map<Hash, Header>, h: Hash)
    requires WellFormed(index1, root) && root in was && h in index1
    requires Accounts(index1, orphans1, was, got) && Accounts(index2, orphans2, was, got)
    requires SettledBut(index2, orphans2, {})
    ensures h in index2 && index2[h].header == index1[h].header
    decreases index1[h].height
  {
    if h !in was {
      assert Linked(index1, h);
      var x := index1[h].header;
      InBoth(was, root, got, index1, orphans1, index2, orphans2, x.previous);
      assert x in got && x.hash == h;
    }
  }

  /** Two runs over the same headers, in any two orders, end with the same tree, the same orphans and the same best node. */
  lemma AnyOrder(was: Index, root: Hash, got: set<Header>, index1: Index, orphans1: map<Hash, Header>, best1: Hash,
                 index2: Index, orphans2: map<Hash, Header>, best2: Hash)
    requires WellFormed(index1, root) && WellFormed(index2, root) && root in was
    requires Accounts(index1, orphans1, was, got) && Accounts(index2, orphans2, was, got)
    requires SettledBut(index1, orphans1, {}) && SettledBut(index2, orphans2, {})
    requires orphans1.Keys !! index1.Keys && orphans2.Keys !! index2.Keys
    requires (forall o :: o in orphans1 ==> orphans1[o].hash == o) && (forall o :: o in orphans2 ==> orphans2[o].hash == o)
    requires IsBest(index1, best1) && IsBest(index2, best2)
    ensures index1 == index2 && best1 == best2 && orphans1.Keys == orphans2.Keys
    ensures (forall x, y :: x in got && y in got && x.hash == y.hash ==> x == y) ==> orphans1 == orphans2
  {
    hide WellFormed, SettledBut, IsBest;
    forall h
      ensures h in index1 <==> h in index2
      ensures h in index1 && h in index2 ==> index1[h].header == index2[h].header
    {
      if h in index1 {
        InBoth(was, root, got, index1, orphans1, index2, orphans2, h);
      }
      if h in index2 {
        InBoth(was, root, got, index2, orphans2, index1, orphans1, h);
      }
    }
    assert index1.Keys == index2.Keys;
    RootIn(index1, root);
    BestDetermined(index1, best1, index2, best2, root);
    forall o
      ensures o in orphans1 <==> o in orphans2
    {
      assert o in orphans1 ==> orphans1[o] in got;
      assert o in orphans2 ==> orphans2[o] in got;
    }
  }

  lemma RootIn(index: Index, root: Hash)
    requires WellFormed(index, root)
    ensures root in index
  {
  }
}
