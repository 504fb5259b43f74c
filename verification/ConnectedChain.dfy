/** Blocks that are checked, stored and connected one after the other, and the value they can create. */
module ConnectedChain {
  import opened Ledger
  import opened Supply
  import opened Subsidies
  import opened TxLookup
  import opened TxTables
  import opened TxUndo
  import opened Branches
  import opened BlockChecks
  import opened MoneyBound

  /** A block that passed extends the history transaction by transaction. */
  lemma PassedExtendsAll(hist: seq<Placed>, b: Block, allowance: nat)
    requires Passed(hist, b, allowance)
    ensures ExtendsAll(hist, b)
  {
    hide Checked, Extends, Before, CountedFees, Sum;
    var e, pooling, fees: nat :| PassedWith(hist, |hist|, hist, b, allowance, e, pooling, fees);
    forall i | 0 <= i < |b.txs|
      ensures Extends(Before(hist, b, i), Placed(b.txs[i], b.height))
    {
      CheckedAtTip(hist, b, e, pooling, i);
    }
  }

  /** A valid block on a chain the tables reflect, which repeats no hash that is never recorded. */
  ghost predicate Storable(db: Database, b: Block, hist: seq<Placed>) {
    Reflects(db, hist) && ExtendsAll(hist, b) && b.height < MAX_HEIGHT && NoneRepeated(hist + Place(b.txs, b.height))
  }

  /** Storing a valid block: the tables reflect the chain with it. */
  method InsertBlock(db: Database, b: Block, ghost hist: seq<Placed>) returns (r: Option<Database>)
    ensures Storable(db, b, hist) ==> r.Some? && Reflects(r.value, hist + Place(b.txs, b.height))
  {
    hide Reflects, Extends, Before, NoneRepeated;
    var d := db;
    ghost var valid := Storable(db, b, hist);
    EmptyBefore(hist, b);
    for i := 0 to |b.txs|
      invariant valid ==> Reflects(d, Before(hist, b, i))
    {
      BeforeNext(hist, b, i);
      if valid {
        assert Extends(Before(hist, b, i), Placed(b.txs[i], b.height));
        NoneRepeatedBefore(hist, b, i + 1);
      }
      var next := InsertTx(d, b.txs[i], b.height, Before(hist, b, i));
      if next.None? {
        return None;
      }
      d := next.value;
    }
    AllBefore(hist, b);
    r := Some(d);
  }

  lemma NoneRepeatedBefore(hist: seq<Placed>, b: Block, i: nat)
    requires i <= |b.txs| && NoneRepeated(hist + Place(b.txs, b.height))
    ensures NoneRepeated(Before(hist, b, i))
  {
    hide Padded;
    var all, cur := hist + Place(b.txs, b.height), Before(hist, b, i);
    assert cur == all[..|cur|];
  }

  lemma AllBefore(hist: seq<Placed>, b: Block)
    ensures Before(hist, b, |b.txs|) == hist + Place(b.txs, b.height)
  {
    assert b.txs[..|b.txs|] == b.txs;
  }

  lemma EmptyReflects(db: Database)
    requires db.live == map[] && db.spent == map[]
    ensures Reflects(db, []) && Ledger.Valid([])
  {
  }

  /** The chain starts with the first block, and only that may be at height 0. */
  ghost predicate StartsWith(main: seq<Placed>, first: Block) {
    && |first.txs| <= |main| && (forall k :: 0 <= k < |first.txs| ==> main[k] == Placed(first.txs[k], first.height))
    && (forall k :: |first.txs| <= k < |main| ==> main[k].height > 0)
  }

  /** Transactions with other hashes than those never recorded of the first block repeat nothing that is never recorded. */
  lemma NamesApart(main: seq<Placed>, first: Block, b: Block)
    requires StartsWith(main, first) && NoneRepeated(main) && b.height > 0
    requires forall t, g :: t in b.txs && g in first.txs && Padded(Placed(g, first.height)) ==> t.id != g.id
    ensures StartsWith(main + Place(b.txs, b.height), first) && NoneRepeated(main + Place(b.txs, b.height))
  {
    var all := main + Place(b.txs, b.height);
    forall k, j | 0 <= k < |first.txs| && |main| <= j < |all| && Padded(all[k])
      ensures all[k].tx.id != all[j].tx.id
    {
      assert all[k] == main[k] == Placed(first.txs[k], first.height) && first.txs[k] in first.txs;
      assert all[j].tx == b.txs[j - |main|] && b.txs[j - |main|] in b.txs;
    }
    forall k, j | 0 <= k < j < |main| && all[k].tx.id == all[j].tx.id
      ensures !Padded(all[k])
    {
      assert all[k] == main[k] && all[j] == main[j];
    }
  }

  /** How a block or branch was treated.  CheckedOnly: it passed, and nothing was changed.  Stopped: storing failed on the
      way, and the chain ends there. */
  datatype Verdict = Rejected | CheckedOnly | Connected | Stopped

  /** A block as it is handed in: its transactions, whether it comes without a proof, and whether its header has a key. */
  datatype Submission = Submission(txs: seq<Tx>, noPoC: bool, hasKey: bool, pooling: set<OutPoint>)

  class Node {
    const interval: nat
    const initHeight: nat
    const alloc: seq<nat>
    ghost const genesis: Block
    var blocks: seq<Block>
    var database: Database

    function Height(): nat
      requires |blocks| >= 1
      reads this
    {
      blocks[|blocks| - 1].height
    }

    /** Every part of the chain from the first block on holds at most the value of the first block and the allowances of the
        later ones. */
    ghost predicate Bounded()
      reads this
    {
      |blocks| >= 1 && forall m :: 1 <= m <= |blocks| ==> BoundedAt(blocks, m, interval, initHeight, alloc)
    }

    /** The chain is valid, the tables reflect it, and its value is bounded. */
    ghost predicate Sound()
      reads this
    {
      && |blocks| >= 1 && blocks[0] == genesis && Bounded()
      && Ledger.Valid(PlaceAll(blocks)) && Reflects(database, PlaceAll(blocks))
      && forall m :: 1 <= m <= |blocks| ==> OrderedAt(blocks, m)
    }

    constructor (first: Block, interval: nat, initHeight: nat, alloc: seq<nat>)
      requires ExtendsAll([], first) && first.height < MAX_HEIGHT
      ensures Sound() && blocks == [first] && genesis == first
      ensures this.interval == interval && this.initHeight == initHeight && this.alloc == alloc
    {
      hide Ledger.Valid, Reflects, PlaceAll, Above, StartsWith, NoneRepeated, ExtendsAll, OrderedAt, BoundedAt, Extends;
      var none := new Database(map[], map[]);
      EmptyReflects(none);
      FirstBlock(first);
      var stored := InsertBlock(none, first, []);
      this.interval, this.initHeight, this.alloc := interval, initHeight, alloc;
      genesis, blocks, database := first, [first], stored.value;
      new;
      FirstAlone(first, interval, initHeight, alloc);
    }

    /** No transaction has the hash of one in a first block at height 0 that is never recorded: the coinbase there names
        its height. */
    ghost predicate NamedApart(txs: seq<Tx>) {
      forall t, g :: t in txs && g in genesis.txs && Padded(Placed(g, genesis.height)) ==> t.id != g.id
    }

    /** A block without a proof is only checked.  Any other needs a key in its header, for the signature there to
        verify, and extends the best chain when it passes. */
    method ProcessBlock(s: Submission) returns (v: Verdict)
      requires Sound() && Height() + 1 < MAX_HEIGHT && Hashed([Block(0, s.txs)]) && NamedApart(s.txs)
      modifies this`blocks, this`database
      ensures Sound()
      ensures s.noPoC || !s.hasKey ==> v != Connected
      ensures v != Connected ==> blocks == old(blocks) && database == old(database)
      ensures v == Connected ==> blocks == old(blocks) + [Block(old(Height()) + 1, s.txs)]
      ensures v == Connected ==>
                var b := Block(old(Height()) + 1, s.txs);
                Passed(PlaceAll(old(blocks)), b, Allowance(interval, b.height, initHeight, alloc))
    {
      hide Ledger.Valid, Reflects, PlaceAll, Above, Total, Allowance, Passed, PassedOn, Sane, Hashed, ExtendsAll;
      hide MainChain, Asked, Undoes, ViewHolds, Lone, LoneAccepted, NoneRepeated, StartsWith;
      if !s.noPoC && !s.hasKey {
        return Rejected;
      }
      var b := Block(Height() + 1, s.txs);
      if !Sane(b) {
        return Rejected;
      }
      AtTip(Asked(b), [], [], blocks);
      Ordered(blocks, |blocks|);
      NoMoves(blocks);
      var scripts: bool := *;
      var ok := CheckConnectBlock(database, true, [], [], b, s.hasKey, interval, initHeight, alloc, s.pooling, scripts,
                                  blocks);
      if !ok {
        return Rejected;
      }
      if s.noPoC {
        return CheckedOnly;
      }
      PassedExtendsAll(PlaceAll(blocks), b, Allowance(interval, b.height, initHeight, alloc));
      ReflectsOnce(database, PlaceAll(blocks));
      NamesApart(PlaceAll(blocks), genesis, b);
      var stored := InsertBlock(database, b, PlaceAll(blocks));
      var failed: bool := *;
      if failed || stored.None? {
        return Rejected;
      }
      PassedExtends(blocks, b, Allowance(interval, b.height, initHeight, alloc));
      PlaceAllSnoc(blocks, b);
      PassedForward(PlaceAll(blocks), |PlaceAll(blocks)|, PlaceAll(blocks), b,
                    Allowance(interval, b.height, initHeight, alloc));
      OneMore(blocks, b, interval, initHeight, alloc);
      blocks := blocks + [b];
      database := stored.value;
      v := Connected;
    }

    /** Whatever is handed in, and whichever of it is accepted: the chain stays valid, the tables reflect it, and its
        unspent value stays within the allowances. */
    method ProcessAll(run: seq<Submission>) returns (accepted: seq<Submission>)
      requires Sound() && Height() + |run| < MAX_HEIGHT
      requires forall s :: s in run ==> Hashed([Block(0, s.txs)]) && NamedApart(s.txs)
      modifies this`blocks, this`database
      ensures Sound()
      ensures |blocks| == |old(blocks)| + |accepted| && old(blocks) <= blocks
      ensures forall i :: 0 <= i < |accepted| ==>
                accepted[i].hasKey && !accepted[i].noPoC && blocks[|old(blocks)| + i].txs == accepted[i].txs
    {
      hide Sound, Hashed, NamedApart;
      SoundHasBlocks();
      accepted := [];
      for i := 0 to |run|
        invariant Sound() && |blocks| >= 1 && Height() + (|run| - i) < MAX_HEIGHT
        invariant |blocks| == |old(blocks)| + |accepted| && old(blocks) <= blocks
        invariant forall k :: 0 <= k < |accepted| ==>
                    accepted[k].hasKey && !accepted[k].noPoC && blocks[|old(blocks)| + k].txs == accepted[k].txs
      {
        var v := ProcessBlock(run[i]);
        if v == Connected {
          accepted := accepted + [run[i]];
        }
      }
    }

    /** A reorganization: the blocks above the first keep ones give way to a branch.  The checks come first, and when they
        fail nothing changes.  Whatever happens afterwards, the value of the chain stays within the allowances; and on a
        sound branch the chain and its tables stay sound, wherever storing stops. */
    method Reorganize(keep: nat, attach: seq<Block>, pooling: set<OutPoint>, scripts: bool) returns (v: Verdict)
      requires Sound() && 1 <= keep <= |blocks| && blocks[keep - 1].height + |attach| < MAX_HEIGHT
      requires Hashed(attach) && forall i :: 0 <= i < |attach| ==> Sane(attach[i]) && NamedApart(attach[i].txs)
      requires forall i :: 0 <= i < |attach| ==> attach[i].height == blocks[keep - 1].height + 1 + i
      modifies this`blocks, this`database
      ensures v == Rejected ==> blocks == old(blocks) && database == old(database)
      ensures v == Connected ==> blocks == old(blocks)[..keep] + attach
      ensures Bounded() && (v == Rejected ==> Sound())
      ensures SoundBranch(old(blocks), keep, attach) ==> Sound()
    {
      hide Ledger.Valid, Reflects, PlaceAll, Sane, Hashed, BranchSound, MainChain, OrderedAt, BoundedAt, Undoes, Above;
      hide LoneAccepted, BranchInStep, BranchBounded, NoForward, ExtendsAll, Storable, Total, Allowances;
      var base, detach := blocks[..keep], Reverse(blocks[keep..]);
      Split(blocks, keep);
      Ordered(blocks, keep);
      RisingAll(base, attach);
      var ok := CheckBranch(database, detach, attach, interval, initHeight, alloc, pooling, scripts, base);
      if !ok {
        return Rejected;
      }
      ghost var sound := SoundBranch(blocks, keep, attach);
      ghost var was := blocks;
      while |blocks| > keep
        invariant keep <= |blocks| <= |was| && blocks == was[..|blocks|] && Sound()
      {
        var failed: bool := *;
        if failed {
          return Stopped;
        }
        Shortened(blocks, interval, initHeight, alloc);
        var less := DeleteBlock(database, blocks[|blocks| - 1], PlaceAll(blocks[..|blocks| - 1]));
        if less.None? {
          return Stopped;
        }
        blocks, database := blocks[..|blocks| - 1], less.value;
      }
      assert blocks == base && base + attach[..0] == base;
      for i := 0 to |attach|
        invariant blocks == base + attach[..i] && Bounded() && (sound ==> Sound())
      {
        var failed: bool := *;
        var more := InsertBlock(database, attach[i], PlaceAll(blocks));
        if sound {
          NextStored(base, attach, i, genesis, database);
        }
        if failed || more.None? {
          return Stopped;
        }
        BranchOnTop(base, attach, i + 1, interval, initHeight, alloc);
        blocks, database := base + attach[..i + 1], more.value;
      }
      assert attach[..|attach|] == attach;
      v := Connected;
    }

    lemma SoundHasBlocks()
      requires Sound()
      ensures |blocks| >= 1
    {
    }
  }

  lemma FirstBlock(first: Block)
    requires ExtendsAll([], first)
    ensures PlaceAll([first]) == [] + Place(first.txs, first.height)
    ensures Ledger.Valid(PlaceAll([first])) && Above(PlaceAll([first]), first.height + 1)
    ensures StartsWith(PlaceAll([first]), first) && NoneRepeated(PlaceAll([first]))
  {
    hide Extends, Padded;
    assert [] + [first] == [first];
    PlaceAllSnoc([], first);
    ValidAppend([], first);
    NotTwice([], first);
  }

  /** A valid block holds no hash twice. */
  lemma NotTwice(hist: seq<Placed>, b: Block)
    requires ExtendsAll(hist, b)
    ensures forall i, j :: 0 <= i < j < |b.txs| ==> b.txs[i].id != b.txs[j].id
  {
    forall i, j | 0 <= i < j < |b.txs|
      ensures b.txs[i].id != b.txs[j].id
    {
      assert Extends(Before(hist, b, j), Placed(b.txs[j], b.height));
      BeforeAt(hist, b, j, i);
    }
  }

  lemma ReflectsOnce(db: Database, main: seq<Placed>)
    requires Reflects(db, main)
    ensures NoneRepeated(main)
  {
    hide View;
  }

  lemma NoMoves(blocks: seq<Block>)
    ensures blocks + [] == blocks && MainChain(blocks, []) == PlaceAll(blocks) && Hashed([])
  {
    assert blocks + Reverse([]) == blocks;
  }

  // ----- chains of blocks

  /** The branch in place of the blocks above the first keep ones is sound. */
  ghost predicate SoundBranch(blocks: seq<Block>, keep: nat, attach: seq<Block>)
    requires keep <= |blocks|
  {
    var main, base := PlaceAll(blocks), blocks[..keep];
    |PlaceAll(base)| <= |main| && BranchSound(main, |PlaceAll(base)|, PlaceAll(base + attach))
  }

  ghost predicate BoundedAt(blocks: seq<Block>, m: nat, interval: nat, initHeight: nat, alloc: seq<nat>)
    requires 1 <= m <= |blocks|
  {
    Total(PlaceAll(blocks[..m])) <= Total(PlaceAll(blocks[..1])) + Allowances(interval, initHeight, alloc, blocks[1..m])
  }

  /** The first m blocks: all below the next height, none but the first at height 0, and the block on top of them spends
      nothing that a later transaction of it places. */
  ghost predicate OrderedAt(blocks: seq<Block>, m: nat)
    requires 1 <= m <= |blocks|
  {
    && Above(PlaceAll(blocks[..m]), blocks[m - 1].height + 1) && StartsWith(PlaceAll(blocks[..m]), blocks[0])
    && (m < |blocks| ==> NoForward(blocks[m]))
  }

  lemma Ordered(blocks: seq<Block>, m: nat)
    requires 1 <= m <= |blocks| && OrderedAt(blocks, m)
    ensures m == |blocks| ==>
              Above(PlaceAll(blocks), blocks[m - 1].height + 1) && StartsWith(PlaceAll(blocks), blocks[0])
    ensures Above(PlaceAll(blocks[..m]), blocks[m - 1].height + 1)
  {
    hide PlaceAll, Above, StartsWith, NoForward;
    assert blocks[..|blocks|] == blocks;
  }

  lemma FirstAlone(first: Block, interval: nat, initHeight: nat, alloc: seq<nat>)
    requires Above(PlaceAll([first]), first.height + 1) && StartsWith(PlaceAll([first]), first)
    ensures BoundedAt([first], 1, interval, initHeight, alloc) && OrderedAt([first], 1)
  {
    assert [first][..1] == [first] && [first][1..1] == [];
  }

  /** What holds of the parts of a chain holds of the parts of a longer one. */
  lemma SameParts(blocks: seq<Block>, more: seq<Block>, m: nat, interval: nat, initHeight: nat, alloc: seq<nat>)
    requires 1 <= m <= |blocks| && blocks <= more
    ensures BoundedAt(blocks, m, interval, initHeight, alloc) <==> BoundedAt(more, m, interval, initHeight, alloc)
    ensures m < |blocks| ==> (OrderedAt(blocks, m) <==> OrderedAt(more, m))
    ensures OrderedAt(more, m) ==> OrderedAt(blocks, m)
    ensures m == |blocks| < |more| && OrderedAt(blocks, m) && NoForward(more[m]) ==> OrderedAt(more, m)
  {
    hide PlaceAll, Above, StartsWith, NoForward, Total, Allowances;
    assert more[..m] == blocks[..m] && more[..1] == blocks[..1] && more[1..m] == blocks[1..m];
  }

  lemma OneMore(blocks: seq<Block>, b: Block, interval: nat, initHeight: nat, alloc: seq<nat>)
    requires |blocks| >= 1 && b.height == blocks[|blocks| - 1].height + 1 && NoForward(b)
    requires forall m :: 1 <= m <= |blocks| ==> BoundedAt(blocks, m, interval, initHeight, alloc) && OrderedAt(blocks, m)
    requires Total(PlaceAll(blocks + [b])) <= Total(PlaceAll(blocks)) + Allowance(interval, b.height, initHeight, alloc)
    ensures forall m :: 1 <= m <= |blocks| + 1 ==>
              BoundedAt(blocks + [b], m, interval, initHeight, alloc) && OrderedAt(blocks + [b], m)
  {
    hide OrderedAt, BoundedAt, Total, PlaceAll, NoForward;
    var n := |blocks|;
    forall m | 1 <= m <= n
      ensures BoundedAt(blocks + [b], m, interval, initHeight, alloc) && OrderedAt(blocks + [b], m)
    {
      SameParts(blocks, blocks + [b], m, interval, initHeight, alloc);
    }
    TopOrdered(blocks, b);
    TopBounded(blocks, b, interval, initHeight, alloc);
  }

  lemma TopBounded(blocks: seq<Block>, b: Block, interval: nat, initHeight: nat, alloc: seq<nat>)
    requires |blocks| >= 1 && BoundedAt(blocks, |blocks|, interval, initHeight, alloc)
    requires Total(PlaceAll(blocks + [b])) <= Total(PlaceAll(blocks)) + Allowance(interval, b.height, initHeight, alloc)
    ensures BoundedAt(blocks + [b], |blocks| + 1, interval, initHeight, alloc)
  {
    hide Total, PlaceAll, Allowance, Allowances;
    var n, more := |blocks|, blocks + [b];
    assert more[..n + 1] == more && blocks[..n] == blocks && more[..1] == blocks[..1];
    assert more[1..n + 1] == blocks[1..n] + [b];
    AllowancesSnoc(interval, initHeight, alloc, blocks[1..n], b);
  }

  lemma AllowancesSnoc(interval: nat, initHeight: nat, alloc: seq<nat>, blocks: seq<Block>, b: Block)
    ensures Allowances(interval, initHeight, alloc, blocks + [b]) ==
            Allowances(interval, initHeight, alloc, blocks) + Allowance(interval, b.height, initHeight, alloc)
  {
    hide Allowance;
    assert (blocks + [b])[..|blocks|] == blocks;
  }

  lemma TopOrdered(blocks: seq<Block>, b: Block)
    requires |blocks| >= 1 && b.height == blocks[|blocks| - 1].height + 1 && OrderedAt(blocks, |blocks|)
    ensures OrderedAt(blocks + [b], |blocks| + 1)
  {
    hide PlaceAll;
    Ordered(blocks, |blocks|);
    var more := blocks + [b];
    assert more[..|blocks| + 1] == more;
    PlaceAllSnoc(blocks, b);
  }

  /** A block that passed spends nothing that a later transaction of it places: those hashes were fully spent. */
  lemma PassedForward(main: seq<Placed>, n: nat, hist: seq<Placed>, b: Block, allowance: nat)
    requires n <= |main| && n <= |hist| && PassedOn(main, n, hist, b, allowance)
    ensures NoForward(b)
  {
    hide Checked, CountedFees, Sum, Seen, Spends;
    var e, pooling, fees: nat :| PassedWith(main, n, hist, b, allowance, e, pooling, fees);
    forall i, q, op | 0 <= i < q < |b.txs| && op in Spends(b.txs[i])
      ensures op.hash != b.txs[q].id
    {
      CheckedReference(main, n, hist, b, e, pooling, i, op);
      ReferenceGood(main, n, hist, b, e, pooling, i, op);
    }
  }

  /** The block on top of a valid chain extends the chain below it. */
  lemma ValidBlock(chain: seq<Block>, b: Block)
    requires Ledger.Valid(PlaceAll(chain + [b]))
    ensures Ledger.Valid(PlaceAll(chain)) && ExtendsAll(PlaceAll(chain), b)
  {
    hide Extends, PlaceAll, Ledger.Valid;
    PlaceAllSnoc(chain, b);
    var hist, all := PlaceAll(chain), PlaceAll(chain + [b]);
    ValidPrefix(all, |hist|);
    assert all[..|hist|] == hist;
    forall i | 0 <= i < |b.txs|
      ensures Extends(Before(hist, b, i), Placed(b.txs[i], b.height))
    {
      ValidAt(all, |hist| + i);
      assert all[..|hist| + i] == Before(hist, b, i);
    }
  }

  /** The chain without its last block. */
  lemma Shortened(blocks: seq<Block>, interval: nat, initHeight: nat, alloc: seq<nat>)
    requires |blocks| >= 2 && Ledger.Valid(PlaceAll(blocks))
    requires forall m :: 1 <= m <= |blocks| ==> BoundedAt(blocks, m, interval, initHeight, alloc) && OrderedAt(blocks, m)
    ensures var less, b := blocks[..|blocks| - 1], blocks[|blocks| - 1];
            && PlaceAll(blocks) == PlaceAll(less) + Place(b.txs, b.height)
            && Ledger.Valid(PlaceAll(less)) && ExtendsAll(PlaceAll(less), b) && NoForward(b)
            && forall m :: 1 <= m <= |less| ==> BoundedAt(less, m, interval, initHeight, alloc) && OrderedAt(less, m)
  {
    hide BoundedAt, PlaceAll, Ledger.Valid, ExtendsAll, Above, StartsWith, NoForward;
    var less, b := blocks[..|blocks| - 1], blocks[|blocks| - 1];
    assert less + [b] == blocks;
    PlaceAllSnoc(less, b);
    ValidBlock(less, b);
    assert OrderedAt(blocks, |less|);
    forall m | 1 <= m <= |less|
      ensures BoundedAt(less, m, interval, initHeight, alloc) && OrderedAt(less, m)
    {
      SameParts(less, blocks, m, interval, initHeight, alloc);
    }
  }

  lemma Split(blocks: seq<Block>, keep: nat)
    requires keep <= |blocks|
    ensures MainChain(blocks[..keep], Reverse(blocks[keep..])) == PlaceAll(blocks)
  {
    assert Reverse(Reverse(blocks[keep..])) == blocks[keep..];
    assert blocks[..keep] + blocks[keep..] == blocks;
  }

  lemma {:induction false} RisingAt(base: seq<Block>, attach: seq<Block>, i: nat)
    requires |base| >= 1 && i <= |attach| && Above(PlaceAll(base), base[|base| - 1].height + 1)
    requires forall k :: 0 <= k < |attach| ==> attach[k].height == base[|base| - 1].height + 1 + k
    ensures Above(PlaceAll(base + attach[..i]), base[|base| - 1].height + 1 + i)
  {
    hide PlaceAll;
    if i == 0 {
      assert base + attach[..0] == base;
    } else {
      RisingAt(base, attach, i - 1);
      assert base + attach[..i - 1] + [attach[i - 1]] == base + attach[..i];
      PlaceAllSnoc(base + attach[..i - 1], attach[i - 1]);
    }
  }

  lemma RisingAll(base: seq<Block>, attach: seq<Block>)
    requires |base| >= 1 && Above(PlaceAll(base), base[|base| - 1].height + 1)
    requires forall k :: 0 <= k < |attach| ==> attach[k].height == base[|base| - 1].height + 1 + k
    ensures forall i :: 0 <= i < |attach| ==> Above(PlaceAll(base + attach[..i]), attach[i].height)
  {
    hide PlaceAll, Above;
    forall i | 0 <= i < |attach|
      ensures Above(PlaceAll(base + attach[..i]), attach[i].height)
    {
      RisingAt(base, attach, i);
    }
  }

  ghost predicate BranchBounded(base: seq<Block>, attach: seq<Block>, interval: nat, initHeight: nat, alloc: seq<nat>) {
    forall m :: 0 <= m <= |attach| ==>
      Total(PlaceAll(base + attach[..m])) <= Total(PlaceAll(base)) + Allowances(interval, initHeight, alloc, attach[..m])
  }

  lemma {:induction false} AllowancesAdd(interval: nat, initHeight: nat, alloc: seq<nat>, a: seq<Block>, b: seq<Block>)
    ensures Allowances(interval, initHeight, alloc, a + b) ==
            Allowances(interval, initHeight, alloc, a) + Allowances(interval, initHeight, alloc, b)
    decreases b
  {
    if b == [] {
      assert a + b == a;
    } else {
      var k := |b| - 1;
      AllowancesAdd(interval, initHeight, alloc, a, b[..k]);
      assert (a + b)[..|a + b| - 1] == a + b[..k];
    }
  }

  /** A bounded chain with a bounded branch on top is bounded. */
  lemma BranchOnTop(base: seq<Block>, attach: seq<Block>, i: nat, interval: nat, initHeight: nat, alloc: seq<nat>)
    requires |base| >= 1 && i <= |attach| && BranchBounded(base, attach, interval, initHeight, alloc)
    requires forall m :: 1 <= m <= |base| ==> BoundedAt(base, m, interval, initHeight, alloc)
    ensures forall m :: 1 <= m <= |base| + i ==> BoundedAt(base + attach[..i], m, interval, initHeight, alloc)
  {
    hide BoundedAt, PlaceAll, Total, Allowances;
    var chain := base + attach[..i];
    forall m | 1 <= m <= |base| + i
      ensures BoundedAt(chain, m, interval, initHeight, alloc)
    {
      if m <= |base| {
        SameParts(base, chain, m, interval, initHeight, alloc);
      } else {
        PartBounded(base, attach, i, m - |base|, interval, initHeight, alloc);
      }
    }
  }

  lemma PartBounded(base: seq<Block>, attach: seq<Block>, i: nat, j: nat, interval: nat, initHeight: nat, alloc: seq<nat>)
    requires |base| >= 1 && j <= i <= |attach| && BranchBounded(base, attach, interval, initHeight, alloc)
    requires BoundedAt(base, |base|, interval, initHeight, alloc)
    ensures BoundedAt(base + attach[..i], |base| + j, interval, initHeight, alloc)
  {
    hide PlaceAll, Total, Allowances;
    var chain := base + attach[..i];
    assert chain[..|base| + j] == base + attach[..j] && chain[..1] == base[..1] && base[..|base|] == base;
    assert chain[1..|base| + j] == base[1..|base|] + attach[..j];
    AllowancesAdd(interval, initHeight, alloc, base[1..|base|], attach[..j]);
  }

  /** The next block of a valid branch can be stored, and the chain stays ordered. */
  lemma NextStored(base: seq<Block>, attach: seq<Block>, i: nat, first: Block, db: Database)
    requires |base| >= 1 && base[0] == first && i < |attach| && attach[i].height < MAX_HEIGHT
    requires Ledger.Valid(PlaceAll(base + attach)) && Reflects(db, PlaceAll(base + attach[..i])) && NoForward(attach[i])
    requires forall t, g :: t in attach[i].txs && g in first.txs && Padded(Placed(g, first.height)) ==> t.id != g.id
    requires var chain := base + attach[..i];
             && attach[i].height == chain[|chain| - 1].height + 1
             && forall m :: 1 <= m <= |chain| ==> OrderedAt(chain, m)
    ensures Storable(db, attach[i], PlaceAll(base + attach[..i]))
    ensures var more := base + attach[..i + 1];
            && PlaceAll(more) == PlaceAll(base + attach[..i]) + Place(attach[i].txs, attach[i].height)
            && Ledger.Valid(PlaceAll(more)) && forall m :: 1 <= m <= |more| ==> OrderedAt(more, m)
  {
    hide PlaceAll, Ledger.Valid, Reflects, OrderedAt, NoForward, ExtendsAll, NoneRepeated, StartsWith;
    var chain, b := base + attach[..i], attach[i];
    var more := base + attach[..i + 1];
    assert chain + [b] == more;
    PlaceAllSnoc(chain, b);
    ValidPart(base, attach, i + 1);
    ValidBlock(chain, b);
    Ordered(chain, |chain|);
    ReflectsOnce(db, PlaceAll(chain));
    NamesApart(PlaceAll(chain), first, b);
    forall m | 1 <= m <= |more|
      ensures OrderedAt(more, m)
    {
      if m <= |chain| {
        SameParts(chain, more, m, 0, 0, []);
      } else {
        TopOrdered(chain, b);
      }
    }
  }

  lemma ValidPart(base: seq<Block>, attach: seq<Block>, i: nat)
    requires i <= |attach| && Ledger.Valid(PlaceAll(base + attach))
    ensures Ledger.Valid(PlaceAll(base + attach[..i]))
  {
    hide PlaceAll, Ledger.Valid;
    var part, all := PlaceAll(base + attach[..i]), PlaceAll(base + attach);
    assert base + attach[..i] + attach[i..] == base + attach;
    BaseIsPrefix(base + attach[..i], attach[i..]);
    ValidPrefix(all, |part|);
    assert all[..|part|] == part;
  }

  // ----- reorganizations

  /** For every block of the branch, the store it is checked against is the view of the branch below it. */
  ghost predicate BranchInStep(base: seq<Block>, detach: seq<Block>, attach: seq<Block>) {
    forall i :: 0 <= i < |attach| ==>
      ViewHolds(detach == [] && i == 0, Asked(attach[i]), detach, attach[..i], base)
  }

  /** The checks before a reorganization: each block to attach against the branch below it.  Whenever all pass, the unspent
      value of the branch is at most that of the fork and its allowances, and the branch is valid exactly when it is sound:
      it spends nothing that an earlier coinbase of it spent, and repeats no hash with unspent leftovers. */
  method CheckBranch(database: Database, detach: seq<Block>, attach: seq<Block>, interval: nat, initHeight: nat,
                     alloc: seq<nat>, pooling: set<OutPoint>, scripts: bool, ghost base: seq<Block>)
    returns (ok: bool)
    requires Ledger.Valid(MainChain(base, detach)) && Reflects(database, MainChain(base, detach)) && Hashed(attach)
    requires forall i :: 0 <= i < |attach| ==> Sane(attach[i]) && Above(PlaceAll(base + attach[..i]), attach[i].height)
    ensures Undoes(base, detach)
    ensures ok ==>
              Total(PlaceAll(base + attach)) <= Total(PlaceAll(base)) + Allowances(interval, initHeight, alloc, attach)
    ensures ok ==> BranchBounded(base, attach, interval, initHeight, alloc)
    ensures ok ==> forall i :: 0 <= i < |attach| ==> NoForward(attach[i])
    ensures ok ==> (Ledger.Valid(PlaceAll(base + attach)) <==>
                    BranchSound(MainChain(base, detach), |PlaceAll(base)|, PlaceAll(base + attach)))
    ensures ok && BranchInStep(base, detach, attach) ==> Ledger.Valid(PlaceAll(base + attach))
    ensures detach != [] && (forall i :: 0 <= i < |attach| ==> |attach[i].txs| == 1) ==>
              (ok <==> forall i :: 0 <= i < |attach| ==>
                 LoneAccepted(base, detach, attach[..i], attach[i], true, interval, initHeight, alloc, pooling, scripts))
  {
    hide Ledger.Valid, Reflects, PlaceAll, MainChain, Above, Total, Allowance, Allowances, PassedOn, Sane, ViewHolds;
    hide LoneAccepted, BranchShown, BranchSound, Strip, Hashed, BranchBounded, NoForward;
    BaseIsPrefix(base, Reverse(detach));
    MainChainIs(base, detach);
    HashedParts(attach);
    for i := 0 to |attach|
      invariant BranchInStep(base, detach, attach) ==>
                  forall k :: 0 <= k < i ==>
                    Passed(PlaceAll(base + attach[..k]), attach[k], Allowance(interval, attach[k].height, initHeight, alloc))
      invariant forall k :: 0 <= k < i ==>
                  PassedOn(MainChain(base, detach), |PlaceAll(base)|, PlaceAll(base + attach[..k]), attach[k],
                           Allowance(interval, attach[k].height, initHeight, alloc))
      invariant forall k :: 0 <= k < i && detach != [] && |attach[k].txs| == 1 ==>
                  LoneAccepted(base, detach, attach[..k], attach[k], true, interval, initHeight, alloc, pooling, scripts)
    {
      ok := CheckConnectBlock(database, detach == [] && i == 0, detach, attach[..i], attach[i], true, interval, initHeight,
                              alloc, pooling, scripts, base);
      if !ok {
        return false;
      }
    }
    BaseIsValid(base, detach);
    BranchBound(base, detach, attach, interval, initHeight, alloc);
    BranchResult(base, detach, attach);
    BranchParts(base, detach, attach, interval, initHeight, alloc);
    if BranchInStep(base, detach, attach) {
      ChainBound(base, attach, interval, initHeight, alloc);
    }
    ok := true;
  }

  lemma HashedParts(attach: seq<Block>)
    requires Hashed(attach)
    ensures forall i :: 0 <= i <= |attach| ==> Hashed(attach[..i])
  {
    hide NamesItself;
  }

  lemma BranchParts(base: seq<Block>, detach: seq<Block>, attach: seq<Block>, interval: nat, initHeight: nat,
                    alloc: seq<nat>)
    requires Undoes(base, detach) && BranchPassed(base, detach, attach, interval, initHeight, alloc)
    ensures BranchBounded(base, attach, interval, initHeight, alloc)
    ensures forall i :: 0 <= i < |attach| ==> NoForward(attach[i])
  {
    hide PlaceAll, MainChain, Total, Strip, PassedOn, Allowance, Allowances, NoForward, BranchShown;
    var main, n := MainChain(base, detach), |PlaceAll(base)|;
    forall m | 0 <= m <= |attach|
      ensures Total(PlaceAll(base + attach[..m])) <=
              Total(PlaceAll(base)) + Allowances(interval, initHeight, alloc, attach[..m])
    {
      forall i | 0 <= i < m
        ensures attach[..m][..i] == attach[..i]
      {
      }
      BranchBound(base, detach, attach[..m], interval, initHeight, alloc);
      StripTotal(n, PlaceAll(base + attach[..m]));
    }
    forall i | 0 <= i < |attach|
      ensures NoForward(attach[i])
    {
      BaseIsPrefix(base, attach[..i]);
      PassedForward(main, n, PlaceAll(base + attach[..i]), attach[i],
                    Allowance(interval, attach[i].height, initHeight, alloc));
    }
  }

  lemma BranchResult(base: seq<Block>, detach: seq<Block>, attach: seq<Block>)
    requires Undoes(base, detach) && Ledger.Valid(MainChain(base, detach))
    requires BranchShown(MainChain(base, detach), |PlaceAll(base)|, PlaceAll(base + attach))
    ensures Total(PlaceAll(base + attach)) <= Total(Strip(|PlaceAll(base)|, PlaceAll(base + attach)))
    ensures Ledger.Valid(PlaceAll(base + attach)) <==>
            BranchSound(MainChain(base, detach), |PlaceAll(base)|, PlaceAll(base + attach))
  {
    hide Ledger.Valid, PlaceAll, MainChain, Total, BranchShown, BranchSound, Strip;
    var main, n, hist := MainChain(base, detach), |PlaceAll(base)|, PlaceAll(base + attach);
    StripTotal(n, hist);
    BaseIsPrefix(base, attach);
    assert hist[..n] == PlaceAll(base) == main[..n];
    BranchValid(main, n, hist);
  }

  lemma BaseIsValid(base: seq<Block>, detach: seq<Block>)
    requires Ledger.Valid(MainChain(base, detach))
    ensures Ledger.Valid(PlaceAll(base))
  {
    hide Ledger.Valid, PlaceAll;
    BaseIsPrefix(base, Reverse(detach));
    ValidPrefix(MainChain(base, detach), |PlaceAll(base)|);
    assert MainChain(base, detach)[..|PlaceAll(base)|] == PlaceAll(base);
  }

  /** A branch is in step when no coinbase that is undone or applied spends what a later block of it asks for. */
  lemma PlainBranch(base: seq<Block>, detach: seq<Block>, attach: seq<Block>)
    requires forall i :: 0 <= i < |attach| ==> Plain(Asked(attach[i]), detach) && Plain(Asked(attach[i]), attach[..i])
    ensures BranchInStep(base, detach, attach)
  {
    hide Plain, InStep, PlaceAll, MainChain;
    forall i | 0 <= i < |attach|
      ensures ViewHolds(detach == [] && i == 0, Asked(attach[i]), detach, attach[..i], base)
    {
      BaseIsPrefix(base, Reverse(detach));
      assert PlaceAll(base + Reverse(detach)) == MainChain(base, detach) by { MainChainIs(base, detach); }
      MovedPlain(Asked(attach[i]), base, detach, attach[..i]);
    }
  }

  lemma MainChainIs(base: seq<Block>, detach: seq<Block>)
    ensures MainChain(base, detach) == PlaceAll(base + Reverse(detach))
  {
  }
}
