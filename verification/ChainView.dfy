/** The transaction view from any node of the tree. */
module ChainView {
  import opened Ledger
  import opened BlockTrees
  import opened ChainState
  import opened TxLookup

  /** The blocks of a path, in order. */
  function BlocksOf(blocks: map<Hash, Block>, path: seq<Hash>): (r: seq<Block>)
    requires forall h :: h in path ==> h in blocks
    ensures |r| == |path| && forall i :: 0 <= i < |path| ==> r[i] == blocks[path[i]]
  {
    seq(|path|, i requires 0 <= i < |path| => blocks[path[i]])
  }

  ghost function History(blocks: map<Hash, Block>, index: Index, root: Hash, h: Hash): seq<Placed>
    requires WellFormed(index, root) && h in index
    requires forall k :: k in Path(index, root, h) ==> k in blocks
  {
    PlaceAll(BlocksOf(blocks, Path(index, root, h)))
  }

  /** Every block of the tree is at hand: from the database on the main chain, from the cache off it. */
  ghost predicate AllKnown(blocks: map<Hash, Block>, index: Index) {
    index.Keys <= blocks.Keys
  }

  /** Every block of the branch to h above the main chain can be applied to what the store shows at its parent, once
      the main chain was undone down to n transactions. */
  ghost predicate BranchApplies(keys: set<Hash>, blocks: map<Hash, Block>, chain: Chain, main: seq<Placed>, n: nat, h: Hash)
    requires chain.Valid() && h in chain.index && AllKnown(blocks, chain.index) && n <= |main|
    reads chain
  {
    forall k :: k in Path(chain.index, chain.root, h) && k !in chain.inMain ==> AppliesAt(keys, blocks, chain, main, n, k)
  }

  ghost predicate AppliesAt(keys: set<Hash>, blocks: map<Hash, Block>, chain: Chain, main: seq<Placed>, n: nat, k: Hash)
    requires chain.Valid() && AllKnown(blocks, chain.index) && n <= |main|
    reads chain
  {
    k in chain.index && k != chain.root &&
    var p := chain.index[k].header.previous;
    p in chain.index && (PathKnown(blocks, chain.index, chain.root, p);
    !Inapplicable(keys, main, n, History(blocks, chain.index, chain.root, p), blocks[k]))
  }

  /** The blocks above the fork are the blocks of the path that are not on the main chain. */
  lemma BranchIsAttach(keys: set<Hash>, blocks: map<Hash, Block>, chain: Chain, h: Hash, fork: Hash, attach: seq<Hash>,
                       main: seq<Placed>)
    requires chain.Valid() && h in chain.index && AllKnown(blocks, chain.index)
    requires fork in chain.index && fork in chain.inMain
    requires Path(chain.index, chain.root, h) == Path(chain.index, chain.root, fork) + attach
    requires forall n :: n in attach ==> n !in chain.inMain
    requires forall k :: k in Path(chain.index, chain.root, fork) ==> k in blocks
    requires forall k :: k in attach ==> k in blocks
    requires |History(blocks, chain.index, chain.root, fork)| <= |main|
    ensures AllApplicable(keys, main, BlocksOf(blocks, Path(chain.index, chain.root, fork)), BlocksOf(blocks, attach))
            <==> BranchApplies(keys, blocks, chain, main, |History(blocks, chain.index, chain.root, fork)|, h)
  {
    hide Path, WellFormed, Inapplicable, PlaceAll, Members, AppliesAt;
    var index, root := chain.index, chain.root;
    var base := BlocksOf(blocks, Path(index, root, fork));
    var n, branch := |PlaceAll(base)|, BlocksOf(blocks, attach);
    ForkInMain(chain, fork);
    forall k | 0 <= k < |attach|
      ensures !Inapplicable(keys, main, n, PlaceAll(base + branch[..k]), branch[k]) <==>
              AppliesAt(keys, blocks, chain, main, n, attach[k])
    {
      AppliesStep(keys, blocks, chain, h, fork, attach, k, main, n);
    }
    forall k | k in Path(index, root, h) && k !in chain.inMain
      ensures k in attach
    {
    }
    assert forall k :: k in attach ==> k in Path(index, root, h);
  }

  lemma ForkInMain(chain: Chain, fork: Hash)
    requires chain.Valid() && fork in chain.index && fork in chain.inMain
    ensures forall k :: k in Path(chain.index, chain.root, fork) ==> k in chain.inMain
  {
    PathPrefix(chain.index, chain.root, chain.best, fork);
  }

  lemma AppliesStep(keys: set<Hash>, blocks: map<Hash, Block>, chain: Chain, h: Hash, fork: Hash, attach: seq<Hash>, k: nat,
                    main: seq<Placed>, n: nat)
    requires chain.Valid() && h in chain.index && AllKnown(blocks, chain.index) && fork in chain.index
    requires Path(chain.index, chain.root, h) == Path(chain.index, chain.root, fork) + attach && k < |attach|
    requires forall k :: k in Path(chain.index, chain.root, fork) ==> k in blocks
    requires (forall k :: k in attach ==> k in blocks) && n <= |main|
    ensures var base, branch := BlocksOf(blocks, Path(chain.index, chain.root, fork)), BlocksOf(blocks, attach);
            !Inapplicable(keys, main, n, PlaceAll(base + branch[..k]), branch[k]) <==>
            AppliesAt(keys, blocks, chain, main, n, attach[k])
  {
    hide Path, WellFormed, Inapplicable, PlaceAll, Members;
    var index, root := chain.index, chain.root;
    var f := Path(index, root, fork);
    chain.NextOnPath(attach, fork, h, k);
    var p := index[attach[k]].header.previous;
    PathKnown(blocks, index, root, p);
    assert attach[..k + 1] == attach[..k] + [attach[k]];
    assert f + (attach[..k] + [attach[k]]) == (f + attach[..k]) + [attach[k]];
    assert Path(index, root, p) == f + attach[..k] by {
      SameButLast(Path(index, root, p), f, attach[..k], attach[k]);
    }
    BlocksOfConcat(blocks, f, attach[..k]);
    assert BlocksOf(blocks, attach[..k]) == BlocksOf(blocks, attach)[..k];
  }

  lemma PathKnown(blocks: map<Hash, Block>, index: Index, root: Hash, h: Hash)
    requires WellFormed(index, root) && h in index && AllKnown(blocks, index)
    ensures forall k :: k in Path(index, root, h) ==> k in blocks && k in index
  {
    PathHeights(index, root, h);
  }

  lemma BlocksOfReversed(blocks: map<Hash, Block>, path: seq<Hash>)
    requires forall h :: h in path ==> h in blocks
    ensures forall h :: h in Reversed(path) ==> h in blocks
    ensures BlocksOf(blocks, Reversed(path)) == Reverse(BlocksOf(blocks, path))
  {
  }

  lemma BlocksOfConcat(blocks: map<Hash, Block>, a: seq<Hash>, b: seq<Hash>)
    requires (forall h :: h in a ==> h in blocks) && (forall h :: h in b ==> h in blocks)
    ensures forall h :: h in a + b ==> h in blocks
    ensures BlocksOf(blocks, a + b) == BlocksOf(blocks, a) + BlocksOf(blocks, b)
  {
  }

  /** The last node of the path to h that is on the main chain. */
  ghost predicate IsFork(chain: Chain, h: Hash, fork: Hash)
    requires chain.Valid() && h in chain.index
    reads chain
  {
    && fork in chain.index && fork in chain.inMain && Path(chain.index, chain.root, fork) <= Path(chain.index, chain.root, h)
    && forall k :: k in Path(chain.index, chain.root, h)[|Path(chain.index, chain.root, fork)|..] ==> k !in chain.inMain
  }

  /** On exactly one of the main chain and the path to h: the store moves over this block. */
  ghost predicate MovedOver(chain: Chain, h: Hash, k: Hash)
    requires chain.Valid() && h in chain.index
    reads chain
  {
    k in chain.index && (k in Path(chain.index, chain.root, h) <==> k !in chain.inMain)
  }

  ghost predicate MovesPlain(keys: set<Hash>, blocks: map<Hash, Block>, chain: Chain, h: Hash)
    requires chain.Valid() && h in chain.index && AllKnown(blocks, chain.index)
    reads chain
  {
    forall k :: MovedOver(chain, h, k) ==> Plain(keys, [blocks[k]])
  }

  /** The store for the child of a node, for every node of the tree.  At the best node it is the view of the main chain,
      with fully spent transactions left out.  Elsewhere it shows the path to the node with the coinbases it moved over
      missing or left behind: it is the view of replaying the blocks from the root to the node exactly when the two are
      in step, and always when no coinbase it moved over spends anything requested. */
  method FetchTxStoreAt(chain: Chain, blocks: map<Hash, Block>, database: Database, txSet: set<Hash>, prev: Hash)
    returns (r: Outcome, store: TxStore, ghost fork: Hash)
    requires chain.Valid() && prev in chain.index && AllKnown(blocks, chain.index)
    requires forall k :: k in Path(chain.index, chain.root, chain.best) ==> k in blocks
    requires Valid(History(blocks, chain.index, chain.root, chain.best))
    requires Reflects(database, History(blocks, chain.index, chain.root, chain.best))
    requires forall h :: h in chain.index ==> Hashed([blocks[h]])
    ensures fresh(store) && store.entries.Keys == txSet && IsFork(chain, prev, fork)
    ensures forall k :: k in Path(chain.index, chain.root, prev) || k in Path(chain.index, chain.root, fork) ==> k in blocks
    ensures History(blocks, chain.index, chain.root, fork) <= History(blocks, chain.index, chain.root, chain.best)
    ensures r == Ok <==> BranchApplies(txSet, blocks, chain, History(blocks, chain.index, chain.root, chain.best),
                                       |History(blocks, chain.index, chain.root, fork)|, prev)
    ensures prev == chain.best ==> r == Ok && Serves(store.entries, History(blocks, chain.index, chain.root, prev))
    ensures r == Ok && prev != chain.best ==>
              Sees(store.entries, History(blocks, chain.index, chain.root, chain.best),
                   |History(blocks, chain.index, chain.root, fork)|, History(blocks, chain.index, chain.root, prev))
    ensures r == Ok && prev != chain.best ==>
              (Agrees(store.entries, History(blocks, chain.index, chain.root, prev)) <==>
               InStep(txSet, History(blocks, chain.index, chain.root, chain.best),
                      |History(blocks, chain.index, chain.root, fork)|, History(blocks, chain.index, chain.root, prev)))
    ensures r == Ok && MovesPlain(txSet, blocks, chain, prev) ==>
              Serves(store.entries, History(blocks, chain.index, chain.root, prev))
  {
    hide Path, WellFormed, Valid, Reflects, Agrees, Sees, Serves, Plain, Hashed, InStep, PlaceAll, BlocksOf, Reversed,
         BranchApplies, AllApplicable, Members, MainChain, History, Undoes, IsFork;
    PathKnown(blocks, chain.index, chain.root, prev);
    PathKnown(blocks, chain.index, chain.root, chain.best);
    if prev == chain.best {
      fork := prev;
      BestIsFork(chain, blocks, txSet);
      r, store := FetchTxStore(database, txSet, true, [], [], BlocksOf(blocks, Path(chain.index, chain.root, prev)));
      return;
    }
    var detach, attach;
    detach, attach, fork := chain.GetReorganizeNodes(prev);
    SplitHistories(chain, blocks, prev, fork, detach, attach);
    BranchIsAttach(txSet, blocks, chain, prev, fork, attach, History(blocks, chain.index, chain.root, chain.best));
    HashedList(blocks, attach);
    if MovesPlain(txSet, blocks, chain, prev) {
      MovedLists(chain, prev, fork, detach, attach);
      PlainList(txSet, blocks, detach);
      PlainList(txSet, blocks, attach);
    }
    r, store := FetchTxStore(database, txSet, false, BlocksOf(blocks, detach), BlocksOf(blocks, attach),
                             BlocksOf(blocks, Path(chain.index, chain.root, fork)));
  }

  lemma BestIsFork(chain: Chain, blocks: map<Hash, Block>, keys: set<Hash>)
    requires chain.Valid() && AllKnown(blocks, chain.index)
    ensures IsFork(chain, chain.best, chain.best) && Hashed([]) && Plain(keys, [])
    ensures forall k :: k in Path(chain.index, chain.root, chain.best) ==> k in blocks
    ensures BranchApplies(keys, blocks, chain, History(blocks, chain.index, chain.root, chain.best),
                          |History(blocks, chain.index, chain.root, chain.best)|, chain.best)
    ensures var base := BlocksOf(blocks, Path(chain.index, chain.root, chain.best));
            && MainChain(base, []) == PlaceAll(base + []) == History(blocks, chain.index, chain.root, chain.best)
            && PlaceAll(base) == MainChain(base, []) && AllApplicable(keys, MainChain(base, []), base, [])
  {
    hide Path, WellFormed, AppliesAt, PlaceAll;
    PathKnown(blocks, chain.index, chain.root, chain.best);
    EndOfPath(chain.index, chain.root, chain.best);
    var base := BlocksOf(blocks, Path(chain.index, chain.root, chain.best));
    assert base + [] == base && base + Reverse([]) == base;
  }

  lemma EndOfPath(index: Index, root: Hash, h: Hash)
    requires WellFormed(index, root) && h in index
    ensures h in Path(index, root, h)
  {
    var p := Path(index, root, h);
    assert p[|p| - 1] == h;
  }

  /** In terms of blocks: the two paths are the path to the fork followed by the two lists. */
  lemma SplitHistories(chain: Chain, blocks: map<Hash, Block>, h: Hash, fork: Hash, detach: seq<Hash>, attach: seq<Hash>)
    requires chain.Valid() && AllKnown(blocks, chain.index) && h in chain.index && fork in chain.index
    requires fork in chain.inMain && forall k :: k in attach ==> k !in chain.inMain
    requires Path(chain.index, chain.root, chain.best) == Path(chain.index, chain.root, fork) + Reversed(detach)
    requires Path(chain.index, chain.root, h) == Path(chain.index, chain.root, fork) + attach
    ensures IsFork(chain, h, fork)
    ensures forall k :: k in detach || k in attach ==> k in blocks && k in chain.index
    ensures forall k :: k in Path(chain.index, chain.root, chain.best) ==> k in blocks
    ensures forall k :: k in Path(chain.index, chain.root, h) || k in Path(chain.index, chain.root, fork) ==> k in blocks
    ensures var base := BlocksOf(blocks, Path(chain.index, chain.root, fork));
            && MainChain(base, BlocksOf(blocks, detach)) == History(blocks, chain.index, chain.root, chain.best)
            && PlaceAll(base + BlocksOf(blocks, attach)) == History(blocks, chain.index, chain.root, h)
            && PlaceAll(base) == History(blocks, chain.index, chain.root, fork)
    ensures History(blocks, chain.index, chain.root, fork) <= History(blocks, chain.index, chain.root, chain.best)
  {
    hide Path, WellFormed, PlaceAll, BlocksOf, Reversed;
    PathKnown(blocks, chain.index, chain.root, h);
    PathKnown(blocks, chain.index, chain.root, chain.best);
    var base := Path(chain.index, chain.root, fork);
    SplitKnown(blocks, base, Reversed(detach), Path(chain.index, chain.root, chain.best));
    SplitKnown(blocks, base, attach, Path(chain.index, chain.root, h));
    ReversedMembers(detach);
    BlocksOfReversed(blocks, detach);
    BlocksOfConcat(blocks, base, Reversed(detach));
    BlocksOfConcat(blocks, base, attach);
    BaseIsPrefix(BlocksOf(blocks, base), BlocksOf(blocks, Reversed(detach)));
  }

  lemma HeightOutside(index: Index, root: Hash, h: Hash, k: Hash)
    requires WellFormed(index, root) && h in index && k in index && index[k].height > index[h].height
    ensures k !in Path(index, root, h)
  {
    hide Path, WellFormed;
    PathHeights(index, root, h);
  }

  /** The two lists are the blocks on exactly one of the paths. */
  lemma MovedLists(chain: Chain, h: Hash, fork: Hash, detach: seq<Hash>, attach: seq<Hash>)
    requires chain.Valid() && h in chain.index && fork in chain.index
    requires Path(chain.index, chain.root, chain.best) == Path(chain.index, chain.root, fork) + Reversed(detach)
    requires Path(chain.index, chain.root, h) == Path(chain.index, chain.root, fork) + attach
    requires forall n :: n in attach ==> n !in chain.inMain
    ensures forall k :: k in detach || k in attach ==> MovedOver(chain, h, k)
  {
    hide Path, WellFormed, Reversed;
    var index, root := chain.index, chain.root;
    PathHeights(index, root, h);
    PathHeights(index, root, chain.best);
    PathHeights(index, root, fork);
    ReversedMembers(detach);
    var f := Path(index, root, fork);
    forall k | k in detach
      ensures k in index && k in chain.inMain && k !in Path(index, root, h)
    {
      var i :| 0 <= i < |Reversed(detach)| && Reversed(detach)[i] == k;
      assert Path(index, root, chain.best)[|f| + i] == k;
      assert k in Members(Path(index, root, chain.best));
      assert index[k].height == |f| + i;
      HeightOutside(index, root, fork, k);
    }
    forall k | k in attach
      ensures k in index && k in Path(index, root, h)
    {
      assert k in f + attach;
    }
  }

  lemma ReversedMembers(s: seq<Hash>)
    ensures forall h :: h in s <==> h in Reversed(s)
  {
    forall h | h in s
      ensures h in Reversed(s)
    {
      var i :| 0 <= i < |s| && s[i] == h;
      assert Reversed(s)[|s| - 1 - i] == h;
    }
  }

  lemma SplitKnown(blocks: map<Hash, Block>, a: seq<Hash>, b: seq<Hash>, path: seq<Hash>)
    requires path == a + b && forall k :: k in path ==> k in blocks
    ensures (forall k :: k in a ==> k in blocks && k in path) && (forall k :: k in b ==> k in blocks && k in path)
  {
  }

  lemma PlainList(txSet: set<Hash>, blocks: map<Hash, Block>, path: seq<Hash>)
    requires forall h :: h in path ==> h in blocks && Plain(txSet, [blocks[h]])
    ensures Plain(txSet, BlocksOf(blocks, path))
  {
    hide PlainFor;
    forall b | b in BlocksOf(blocks, path)
      ensures Plain(txSet, [b]) && b in [b]
    {
      var i :| 0 <= i < |path| && BlocksOf(blocks, path)[i] == b;
      assert path[i] in path;
    }
  }

  lemma HashedList(blocks: map<Hash, Block>, path: seq<Hash>)
    requires forall h :: h in path ==> h in blocks && Hashed([blocks[h]])
    ensures Hashed(BlocksOf(blocks, path))
  {
    hide NamesItself;
    forall b | b in BlocksOf(blocks, path)
      ensures Hashed([b]) && b in [b]
    {
      var i :| 0 <= i < |path| && BlocksOf(blocks, path)[i] == b;
      assert path[i] in path;
    }
  }
}
