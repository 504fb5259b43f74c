/** Extending and reorganizing the best chain. */
module ChainState {
  import opened Ledger
  import opened BlockTrees

  /** How a step ended.  Crashed: the log statement after a reorganization reads the first detached node of an
      empty list. */
  datatype Result = Done | Failed | Crashed

  /** What may go wrong in a step: nothing, every connection of a block, or any check, index or storage operation. */
  datatype Faults = NoFault | ConnectFault | AnyFault

  function Reversed(s: seq<Hash>): (r: seq<Hash>)
    ensures |r| == |s| && forall i :: 0 <= i < |s| ==> r[i] == s[|s| - 1 - i]
  {
    seq(|s|, i requires 0 <= i < |s| => s[|s| - 1 - i])
  }

  lemma ReversedSnoc(s: seq<Hash>, h: Hash)
    ensures Reversed(s + [h]) == [h] + Reversed(s)
  {
  }

  lemma ReversedFirst(s: seq<Hash>)
    requires s != []
    ensures Reversed(s) == Reversed(s[1..]) + [s[0]]
  {
  }

  lemma SameButLast(a: seq<Hash>, b: seq<Hash>, c: seq<Hash>, h: Hash)
    requires a + [h] == b + (c + [h])
    ensures a == b + c
  {
    assert a == (a + [h])[..|a|] && b + c == (b + (c + [h]))[..|a|];
  }

  class Chain {
    const root: Hash
    var index: Index
    var inMain: set<Hash>
    var best: Hash
    var cache: set<Hash>
    var db: seq<Hash>

    /** The main-chain flags and the database hold exactly the path to the best node, and every other node of
        the tree has its block in the cache. */
    ghost predicate Valid()
      reads this
    {
      && WellFormed(index, root) && best in index
      && inMain == Members(Path(index, root, best))
      && db == Path(index, root, best)
      && index.Keys - inMain <= cache
    }

    constructor (genesis: Header)
      ensures Valid() && IsBest(index, best)
      ensures root == best == genesis.hash && index == map[genesis.hash := Node(genesis, genesis.target, 0)]
    {
      root, best := genesis.hash, genesis.hash;
      index := map[genesis.hash := Node(genesis, genesis.target, 0)];
      inMain, cache, db := {genesis.hash}, {}, [genesis.hash];
    }

    method AttachBlockNode(x: Header) returns (ok: bool)
      modifies this`index
      ensures ok <==> x.previous in old(index)
      ensures index == if ok then old(index)[x.hash := Leaf(old(index), x)] else old(index)
    {
      if x.previous !in index {
        return false;
      }
      index := index[x.hash := Leaf(index, x)];
      ok := true;
    }

    /** Connects a block to the end of the best chain; every check, index and storage step may fail, and then
        nothing has changed. */
    method ConnectBlock(h: Hash, previous: Hash, faults: Faults) returns (ok: bool)
      modifies this`inMain, this`best, this`db
      ensures faults == NoFault ==> (ok <==> previous == old(best))
      ensures faults == ConnectFault ==> !ok
      ensures ok ==> previous == old(best) && best == h && inMain == old(inMain) + {h} && db == old(db) + [h]
      ensures !ok ==> best == old(best) && inMain == old(inMain) && db == old(db)
    {
      if previous != best {
        return false;
      }
      var stored: bool := *;
      if faults == ConnectFault || (faults == AnyFault && !stored) {
        return false;
      }
      db := db + [h];
      inMain := inMain + {h};
      best := h;
      ok := true;
    }

    /** Disconnects the block at the end of the best chain. */
    method DisconnectBlock(h: Hash, faults: Faults) returns (ok: bool)
      requires Valid() && h in index && h != root
      modifies this`inMain, this`best, this`db, this`cache
      ensures Valid()
      ensures faults != AnyFault ==> (ok <==> h == old(best))
      ensures ok ==> h == old(best) && best == index[h].header.previous && h in cache && old(cache) <= cache
      ensures !ok ==> best == old(best) && cache == old(cache)
    {
      if h != best {
        return false;
      }
      var stored: bool := *;
      if faults == AnyFault && !stored {
        return false;
      }
      PathDistinct(index, root, h);
      db := db[..|db| - 1];
      inMain := inMain - {h};
      cache := cache + {h};
      best := index[h].header.previous;
      ok := true;
    }

    /** The lists of a reorganization to h: the nodes of the main chain above the fork, newest first, and the
        nodes of the branch above the fork, oldest first. */
    method GetReorganizeNodes(h: Hash) returns (detach: seq<Hash>, attach: seq<Hash>, ghost fork: Hash)
      requires Valid() && h in index
      ensures fork in index && fork in inMain
      ensures Path(index, root, best) == Path(index, root, fork) + Reversed(detach)
      ensures Path(index, root, h) == Path(index, root, fork) + attach
      ensures forall n :: n in attach ==> n !in inMain
    {
      hide Path, WellFormed, Reversed;
      attach, detach := [], [];
      var ancestor := h;
      assert Path(index, root, h) + [] == Path(index, root, h);
      while ancestor != root && ancestor !in inMain
        invariant ancestor in index && Path(index, root, h) == Path(index, root, ancestor) + attach
        invariant forall n :: n in attach ==> n !in inMain
        decreases index[ancestor].height
      {
        PathStep(index, root, ancestor);
        assert Path(index, root, index[ancestor].header.previous) + [ancestor] + attach
            == Path(index, root, index[ancestor].header.previous) + ([ancestor] + attach);
        attach := [ancestor] + attach;
        ancestor := index[ancestor].header.previous;
      }
      fork := ancestor;
      RootInMain();
      RootPath(index, root);
      assert Path(index, root, best) + Reversed([]) == Path(index, root, best);
      var n := best;
      while n != root && n != ancestor
        invariant n in index && ancestor in Path(index, root, n)
        invariant Path(index, root, best) == Path(index, root, n) + Reversed(detach)
        decreases index[n].height
      {
        PathStep(index, root, n);
        ReversedSnoc(detach, n);
        assert Path(index, root, index[n].header.previous) + [n] + Reversed(detach)
            == Path(index, root, index[n].header.previous) + ([n] + Reversed(detach));
        detach := detach + [n];
        n := index[n].header.previous;
      }
    }

    lemma RootInMain()
      requires Valid()
      ensures root in inMain
    {
      assert Path(index, root, best)[0] == root;
    }

    /** The detach list is empty exactly when the node descends from the best node. */
    lemma NothingToDetach(h: Hash, detach: seq<Hash>, attach: seq<Hash>, fork: Hash)
      requires Valid() && h in index && fork in index
      requires Path(index, root, best) == Path(index, root, fork) + Reversed(detach)
      requires Path(index, root, h) == Path(index, root, fork) + attach
      requires forall n :: n in attach ==> n !in inMain
      ensures detach == [] <==> best in Path(index, root, h)
    {
      var f := Path(index, root, fork);
      if detach == [] {
        assert Reversed(detach) == [];
        assert f == Path(index, root, best);
        assert f[|f| - 1] in Path(index, root, h);
      } else {
        assert best in inMain;
        PathHeights(index, root, best);
        PathHeights(index, root, fork);
        assert best !in f;
      }
    }

    /** Moves the end of the main chain from best to the last node to attach.  Whatever fails on the way, the
        chain is left consistent. */
    method ReorganizeChain(detach: seq<Hash>, attach: seq<Hash>, faults: Faults, ghost fork: Hash, ghost h: Hash)
      returns (r: Result)
      requires Valid() && h in index && fork in index && attach != []
      requires Path(index, root, best) == Path(index, root, fork) + Reversed(detach)
      requires Path(index, root, h) == Path(index, root, fork) + attach
      modifies this`inMain, this`best, this`db, this`cache
      ensures Valid()
      ensures r == Done || r == Crashed ==> best == h
      ensures r == Crashed ==> detach == []
      ensures r == Done ==> detach != []
      ensures faults == NoFault && (forall n :: n in attach ==> n in old(cache)) ==> r != Failed
      ensures faults == ConnectFault && (forall n :: n in attach ==> n in old(cache)) ==> r == Failed && best == fork
    {
      hide Path, WellFormed, Reversed, Members;
      for i := 0 to |attach| {
        if attach[i] !in cache {
          return Failed;
        }
      }
      for i := 0 to |attach| {
        var checked: bool := *;
        if faults == AnyFault && !checked {
          return Failed;
        }
      }
      assert detach[0..] == detach;
      for i := 0 to |detach|
        invariant Valid()
        invariant Path(index, root, best) == Path(index, root, fork) + Reversed(detach[i..])
      {
        Disconnectable(detach[i..], fork, best);
        PathStep(index, root, best);
        var ok := DisconnectBlock(detach[i], faults);
        if !ok {
          return Failed;
        }
        assert detach[i..][1..] == detach[i + 1..];
        ReversedFirst(detach[i..]);
        SameButLast(Path(index, root, best), Path(index, root, fork), Reversed(detach[i + 1..]), detach[i]);
      }
      assert Path(index, root, best) == Path(index, root, fork) + attach[..0];
      SamePath(index, root, best, fork);
      for i := 0 to |attach|
        invariant Valid() && (faults == ConnectFault ==> i == 0 && best == fork)
        invariant Path(index, root, best) == Path(index, root, fork) + attach[..i]
      {
        NextOnPath(attach, fork, h, i);
        ConnectedAgain(best, attach[i]);
        AttachesTo(attach, fork, h, i);
        var ok := ConnectBlock(attach[i], index[attach[i]].header.previous, faults);
        if !ok {
          return Failed;
        }
        assert attach[..i + 1] == attach[..i] + [attach[i]];
      }
      assert attach[..|attach|] == attach;
      r := if detach == [] then Crashed else Done;
    }

    lemma ConnectedAgain(tip: Hash, next: Hash)
      requires WellFormed(index, root) && tip in index && next in index && next != root
      ensures index[next].header.previous == tip ==>
                Members(Path(index, root, next)) == Members(Path(index, root, tip)) + {next}
    {
      PathDistinct(index, root, next);
    }

    /** The first node of the list is the best one and not the root. */
    lemma Disconnectable(detach: seq<Hash>, fork: Hash, tip: Hash)
      requires WellFormed(index, root) && tip in index && fork in index
      requires Path(index, root, tip) == Path(index, root, fork) + Reversed(detach)
      ensures detach != [] ==> detach[0] == tip && tip != root
    {
      if detach != [] {
        var p := Path(index, root, tip);
        assert p[|p| - 1] == Reversed(detach)[|detach| - 1] == detach[0];
      }
    }

    lemma RootAtZero()
      requires WellFormed(index, root)
      ensures root in index && index[root].height == 0
    {
    }

    lemma NextOnPath(attach: seq<Hash>, fork: Hash, h: Hash, i: nat)
      requires WellFormed(index, root) && h in index && fork in index && i < |attach|
      requires Path(index, root, h) == Path(index, root, fork) + attach
      ensures attach[i] in index && attach[i] != root
      ensures index[attach[i]].header.previous in index
      ensures Path(index, root, attach[i]) == Path(index, root, index[attach[i]].header.previous) + [attach[i]]
      ensures Path(index, root, attach[i]) == Path(index, root, fork) + attach[..i + 1]
    {
      hide Path, WellFormed;
      var f := Path(index, root, fork);
      var p := Path(index, root, h);
      var a := attach[i];
      assert p[|f| + i] == a;
      PathPrefix(index, root, h, a);
      PathHeights(index, root, h);
      PathHeights(index, root, a);
      var q := Path(index, root, a);
      assert q == p[..|f| + i + 1] by {
        assert |q| == |f| + i + 1;
      }
      assert p[..|f| + i + 1] == f + attach[..i + 1];
      RootAtZero();
      PathStep(index, root, a);
    }

    /** Accepts a block whose parent is in the tree.  The tree is consistent whatever fails; without a failure
        the best node stays the best of the whole tree, and no reorganization has an empty list. */
    method ConnectBestChain(x: Header, faults: Faults) returns (r: Result)
      requires Valid() && x.hash !in index && x.previous in index && x.target > 0
      modifies this
      ensures Valid()
      ensures x.previous != old(best) || r == Done ==> index == old(index)[x.hash := Leaf(old(index), x)]
      ensures x.previous == old(best) && r != Done ==> index == old(index) && best == old(best)
      ensures r == Done ==>
                best == if Better(Leaf(old(index), x), old(index)[old(best)]) then x.hash else old(best)
      ensures r == Done && old(IsBest(index, best)) ==> IsBest(index, best)
      ensures r == Crashed ==>
                x.previous != old(best) && x.hash in index && old(best) in Path(index, root, x.hash) &&
                !old(IsBest(index, best))
      ensures r == Done && x.previous != old(best) ==> x.hash in index && old(best) !in Path(index, root, x.hash)
      ensures faults == NoFault ==> r != Failed
      ensures faults == ConnectFault && x.previous != old(best) && Better(Leaf(old(index), x), old(index)[old(best)]) ==>
                r == Failed && best in old(inMain) && x.hash in index && best in Path(index, root, x.hash)
    {
      hide Path, WellFormed, Members;
      LeafWellFormed(index, root, x);
      ghost var was := index;
      ghost var tree := index[x.hash := Leaf(index, x)];
      PathStable(index, root, best, x.hash, Leaf(index, x));
      PathHeights(index, root, best);
      LeafRoot(index, x);
      if x.previous == best {
        var checked: bool := *;
        if faults == AnyFault && !checked {
          return Failed;
        }
        var connected := ConnectBlock(x.hash, x.previous, faults);
        if !connected {
          return Failed;
        }
        var attached := AttachBlockNode(x);
        PathStep(index, root, x.hash);
        PathDistinct(index, root, x.hash);
        LeafIsBest(was, x, old(best));
        return Done;
      }
      cache := cache + {x.hash};
      var attached := AttachBlockNode(x);
      assert Valid();
      if !Better(index[x.hash], index[best]) {
        KeepsBest(was, x, best);
        NotBelowBest(was, x, best);
        return Done;
      }
      var detach, attach, fork := GetReorganizeNodes(x.hash);
      NothingToDetach(x.hash, detach, attach, fork);
      NotMain(x.hash);
      assert Path(index, root, fork) + [] == Path(index, root, fork);
      AttachCached(x.hash, fork, attach);
      r := ReorganizeChain(detach, attach, faults, fork, x.hash);
      if detach == [] {
        DescendsFromBest(was, x, old(best));
      }
      if r == Done {
        LeafIsBest(was, x, old(best));
      }
    }

    /** A leaf that does not beat the best node is not below it. */
    lemma NotBelowBest(was: Index, x: Header, tip: Hash)
      requires WellFormed(was, root) && x.hash !in was && x.previous in was && tip in was && x.target > 0
      requires WellFormed(was[x.hash := Leaf(was, x)], root) && !Better(Leaf(was, x), was[tip])
      ensures tip !in Path(was[x.hash := Leaf(was, x)], root, x.hash)
    {
      hide Path, WellFormed;
      var tree := was[x.hash := Leaf(was, x)];
      if tip in Path(tree, root, x.hash) {
        DescendantBetter(tree, root, x.hash, tip);
      }
    }

    /** The blocks to attach are in the cache, and the fork is on the path of both. */
    lemma AttachCached(h: Hash, fork: Hash, attach: seq<Hash>)
      requires Valid() && h in index && fork in index && Path(index, root, h) == Path(index, root, fork) + attach
      requires forall n :: n in attach ==> n !in inMain
      ensures (forall n :: n in attach ==> n in cache) && fork in Path(index, root, h)
    {
      hide Path, WellFormed, Members;
      PathHeights(index, root, h);
      forall n | n in attach
        ensures n in cache
      {
        assert n in Path(index, root, h);
        assert n in index;
      }
      LastOnPath(fork);
    }

    lemma LastOnPath(h: Hash)
      requires WellFormed(index, root) && h in index
      ensures h in Path(index, root, h)
    {
      var p := Path(index, root, h);
      assert p[|p| - 1] == h;
    }

    /** The next block to attach is a child of the last one attached. */
    lemma AttachesTo(attach: seq<Hash>, fork: Hash, h: Hash, i: nat)
      requires Valid() && h in index && fork in index && i < |attach|
      requires Path(index, root, h) == Path(index, root, fork) + attach
      requires Path(index, root, best) == Path(index, root, fork) + attach[..i]
      ensures attach[i] in index && index[attach[i]].header.previous == best
    {
      hide Path, WellFormed, Members;
      NextOnPath(attach, fork, h, i);
      var p := index[attach[i]].header.previous;
      assert attach[..i + 1] == attach[..i] + [attach[i]];
      SameButLast(Path(index, root, p), Path(index, root, fork), attach[..i], attach[i]);
      SamePath(index, root, p, best);
    }

    lemma LeafRoot(was: Index, x: Header)
      requires WellFormed(was, root) && x.hash !in was
      ensures x.hash != root
    {
    }

    /** A node that was just attached to a side branch is not flagged. */
    lemma NotMain(h: Hash)
      requires Valid() && h in index
      ensures h in inMain <==> h in Path(index, root, best)
    {
    }

    /** The new leaf beats the best node and so everything that one beats. */
    lemma LeafIsBest(was: Index, x: Header, tip: Hash)
      requires WellFormed(was, root) && x.hash !in was && x.previous in was && tip in was && x.target > 0
      requires x.previous == tip || Better(Leaf(was, x), was[tip])
      ensures Better(Leaf(was, x), was[tip])
      ensures IsBest(was, tip) ==> IsBest(was[x.hash := Leaf(was, x)], x.hash)
    {
      var leaf := Leaf(was, x);
      if IsBest(was, tip) {
        forall h | h in was
          ensures Better(leaf, was[h])
        {
          BetterIsStrictTotal(leaf, was[tip], was[h]);
        }
      }
    }

    lemma KeepsBest(was: Index, x: Header, tip: Hash)
      requires WellFormed(was, root) && x.hash !in was && x.previous in was && tip in was
      requires !Better(Leaf(was, x), was[tip])
      ensures IsBest(was, tip) ==> IsBest(was[x.hash := Leaf(was, x)], tip)
    {
      BetterIsStrictTotal(Leaf(was, x), was[tip], was[tip]);
    }

    /** A leaf below the best node that is not its child passes through a child that beats it. */
    lemma DescendsFromBest(was: Index, x: Header, tip: Hash)
      requires WellFormed(was, root) && x.hash !in was && x.previous in was && tip in was && x.previous != tip
      requires x.target > 0
      requires WellFormed(was[x.hash := Leaf(was, x)], root)
      requires tip in Path(was[x.hash := Leaf(was, x)], root, x.hash)
      ensures !IsBest(was, tip)
    {
      var leaf := Leaf(was, x);
      PathStep(was[x.hash := leaf], root, x.hash);
      PathStable(was, root, x.previous, x.hash, leaf);
      DescendantBetter(was, root, x.previous, tip);
      BetterIsStrictTotal(was[x.previous], was[tip], was[tip]);
    }

    /** A parent-first run.  When nothing fails the tree holds exactly the headers of the run and its best node
        is the best of them. */
    method ProcessAll(run: seq<Header>, faults: Faults) returns (r: Result)
      requires Valid() && IsBest(index, best) && ParentFirst(index.Keys, run)
      modifies this
      ensures Valid() && r != Crashed && (faults == NoFault ==> r == Done)
      ensures r == Done ==> IsBest(index, best) && Holds(index, old(index), run)
    {
      hide Path, WellFormed, Members, IsBest, Holds, Leaf, Better;
      HoldsNone(index);
      for i := 0 to |run|
        invariant Valid() && IsBest(index, best) && Holds(index, old(index), run[..i])
        invariant ParentFirst(index.Keys, run[i..])
      {
        var x := run[i];
        assert run[i..][1..] == run[i + 1..];
        ghost var before := index;
        r := ConnectBestChain(x, faults);
        if r != Done {
          return;
        }
        HoldsMore(before, index, old(index), run, i);
        assert index.Keys == before.Keys + {x.hash};
      }
      assert run[..|run|] == run;
      r := Done;
    }
  }

  /** A path determines the node it leads to. */
  lemma SamePath(index: Index, root: Hash, a: Hash, b: Hash)
    requires WellFormed(index, root) && a in index && b in index
    ensures Path(index, root, a) == Path(index, root, b) ==> a == b
  {
    var p, q := Path(index, root, a), Path(index, root, b);
    assert p[|p| - 1] == a && q[|q| - 1] == b;
  }

  lemma ChildPath(index: Index, root: Hash, h: Hash)
    requires WellFormed(index, root) && h in index && h != root && index[h].header.previous == root
    ensures Path(index, root, h) == [root, h]
  {
    PathStep(index, root, h);
    RootPath(index, root);
  }

  lemma MainIs(chain: Chain)
    requires chain.Valid()
    ensures forall h :: h in chain.inMain <==> h in Path(chain.index, chain.root, chain.best)
  {
  }

  /** The crash can be reached: a reorganization that fails after its disconnections leaves the best node below blocks
      of the tree, and the next block that descends from one of those finds nothing to detach. */
  method CrashRun() returns (first: Result, second: Result, third: Result)
    ensures first == Done && second == Failed && third == Crashed
  {
    hide Path, WellFormed, Members;
    var chain := new Chain(Header(1, ZERO_HASH, 1, 1, 1));
    first := chain.ConnectBestChain(Header(2, 1, 1, 2, 1), NoFault);
    ChildPath(chain.index, chain.root, 2);
    assert chain.inMain == {1, 2} by { MainIs(chain); }
    second := chain.ConnectBestChain(Header(3, 1, 2, 3, 1), ConnectFault);
    ChildPath(chain.index, chain.root, 3);
    assert chain.best == 1;
    third := chain.ConnectBestChain(Header(4, 2, 1, 4, 1), NoFault);
    ChildPath(chain.index, chain.root, 2);
    PathStep(chain.index, chain.root, 4);
  }

  /** Every header comes after its parent and at most once. */
  predicate ParentFirst(known: set<Hash>, run: seq<Header>)
    decreases |run|
  {
    run == [] ||
    (run[0].previous in known && run[0].hash !in known && run[0].target > 0 &&
     ParentFirst(known + {run[0].hash}, run[1..]))
  }

  /** The tree holds what it held and the headers of the run, and nothing else. */
  ghost predicate Holds(index: Index, was: Index, run: seq<Header>) {
    && (forall h :: h in was ==> h in index && index[h] == was[h])
    && (forall x :: x in run ==> x.hash in index && index[x.hash].header == x)
    && (forall h :: h in index && h !in was ==> index[h].header in run)
  }

  lemma HoldsNone(was: Index)
    ensures Holds(was, was, [])
  {
  }

  lemma HoldsMore(before: Index, index: Index, was: Index, run: seq<Header>, i: nat)
    requires i < |run| && Holds(before, was, run[..i]) && run[i].previous in before && run[i].hash !in before
    requires index == before[run[i].hash := Leaf(before, run[i])]
    ensures Holds(index, was, run[..i + 1])
  {
    assert run[..i + 1] == run[..i] + [run[i]];
  }

  /** Two runs over the same headers, in any two parent-first orders, end with the same best node. */
  lemma ArrivalOrderIrrelevant(was: Index, root: Hash, run1: seq<Header>, run2: seq<Header>,
                               index1: Index, index2: Index, best1: Hash, best2: Hash)
    requires WellFormed(was, root) && WellFormed(index1, root) && WellFormed(index2, root)
    requires multiset(run1) == multiset(run2)
    requires Holds(index1, was, run1) && Holds(index2, was, run2)
    requires IsBest(index1, best1) && IsBest(index2, best2)
    ensures best1 == best2 && index1 == index2
  {
    forall x: Header
      ensures x in run1 <==> x in run2
    {
      assert x in run1 <==> x in multiset(run1);
      assert x in run2 <==> x in multiset(run2);
    }
    forall h
      ensures h in index1 <==> h in index2
      ensures h in index1 && h in index2 ==> index1[h].header == index2[h].header
    {
      SameHeader(was, run1, run2, index1, index2, h);
      SameHeader(was, run2, run1, index2, index1, h);
    }
    assert index1.Keys == index2.Keys;
    BestDetermined(index1, best1, index2, best2, root);
  }

  lemma SameHeader(was: Index, run1: seq<Header>, run2: seq<Header>, index1: Index, index2: Index, h: Hash)
    requires Holds(index1, was, run1) && Holds(index2, was, run2)
    requires forall x :: x in run1 ==> x in run2
    requires forall k :: k in index1 ==> index1[k].header.hash == k
    ensures h in index1 ==> h in index2 && index2[h].header == index1[h].header
  {
  }
}
