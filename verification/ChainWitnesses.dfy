/** Runs on concrete blocks that show where the promises end. */
module ChainWitnesses {
  import opened Ledger
  import opened Supply
  import opened Subsidies
  import opened TxLookup
  import opened TxTables
  import opened BlockChecks
  import opened MoneyBound
  import opened ConnectedChain

  /** A block of one coinbase with two outputs. */
  function CoinbaseOnly(height: nat, id: Hash, spends: seq<OutPoint>): Block {
    Block(height, [Tx(id, [OutPoint(ZERO_HASH, MAX_INDEX)] + spends, [1, 1])])
  }

  /** A pooling output of the coinbase at the fork, mature after one block. */
  const POOLED: OutPoint := OutPoint(1, 1)

  const FORK: Block := CoinbaseOnly(1, 1, [])
  const UNDONE: Block := CoinbaseOnly(2, 2, [])
  const FIRST_SPENDER: Block := CoinbaseOnly(2, 3, [POOLED])
  const SECOND_SPENDER: Block := CoinbaseOnly(3, 4, [POOLED])

  function PlacedIn(b: Block): Placed
    requires |b.txs| == 1
  {
    Placed(b.txs[0], b.height)
  }

  lemma OneAndTwo(a: Block, b: Block)
    requires |a.txs| == |b.txs| == 1
    ensures PlaceAll([]) == [] && PlaceAll([a]) == [] + Place(a.txs, a.height) == [PlacedIn(a)]
    ensures PlaceAll([a] + [b]) == PlaceAll([a]) + Place(b.txs, b.height) == [PlacedIn(a), PlacedIn(b)]
  {
    PlaceAllSnoc([], a);
    assert [] + [a] == [a];
    PlaceAllSnoc([a], b);
  }

  lemma PlainCoinbase(hist: seq<Placed>, height: nat, id: Hash)
    requires forall k :: 0 <= k < |hist| ==> hist[k].height < height && hist[k].tx.id != id
    ensures ExtendsAll(hist, CoinbaseOnly(height, id, []))
  {
    var b := CoinbaseOnly(height, id, []);
    EmptyBefore(hist, b);
    assert Spends(b.txs[0]) == [];
    assert Latest(hist, id) == None;
  }

  /** The output is shown unspent before and after the first spender, and is spent by it. */
  lemma TwoSpendersSeen()
    ensures var main, hist := [PlacedIn(FORK), PlacedIn(UNDONE)], [PlacedIn(FORK), PlacedIn(FIRST_SPENDER)];
            && Seen(main, 1, [PlacedIn(FORK)], 1) == Fresh(PlacedIn(FORK)) == Seen(main, 1, hist, 1)
            && !Spendable(View(hist, 1), 1)
            && Seen(main, 1, [PlacedIn(FORK)], 3) == Missing == Seen(main, 1, hist, 4)
  {
    var main, hist := [PlacedIn(FORK), PlacedIn(UNDONE)], [PlacedIn(FORK), PlacedIn(FIRST_SPENDER)];
    var fork := [PlacedIn(FORK)];
    assert Latest(fork, 1) == Some(0) && Latest(fork, 3) == None && Latest(fork, 4) == None;
    assert hist[..1] == fork;
    assert Latest(hist, 1) == Some(0) && Latest(hist, 4) == None;
    assert Spends(UNDONE.txs[0]) == [] && CoinbaseLeft(main, 2, 1) == [];
    assert CoinbaseLeft(main, 1, 1) == [];
    forall i: nat
      ensures !MarkedAfter(hist, 1, 0, OutPoint(1, i)) && !MarkedAfter(fork, 1, 0, OutPoint(1, i))
    {
    }
    assert Seen(main, 1, fork, 1).spent == Fresh(PlacedIn(FORK)).spent;
    assert Seen(main, 1, hist, 1).spent == Fresh(PlacedIn(FORK)).spent;
    SpendsPooled();
    assert POOLED in Spends(hist[1].tx);
  }

  lemma SpendsPooled()
    ensures Spends(FIRST_SPENDER.txs[0]) == [POOLED] == Spends(SECOND_SPENDER.txs[0])
    ensures POOLED in Spends(FIRST_SPENDER.txs[0]) && POOLED in Spends(SECOND_SPENDER.txs[0])
    ensures Referenced(FIRST_SPENDER) == {1} == Referenced(SECOND_SPENDER)
    ensures Ids(FIRST_SPENDER) == {3} && Ids(SECOND_SPENDER) == {4}
  {
    assert Spends(FIRST_SPENDER.txs[0])[0] == POOLED;
    assert Spends(SECOND_SPENDER.txs[0])[0] == POOLED;
    assert FIRST_SPENDER.txs[0] in FIRST_SPENDER.txs && SECOND_SPENDER.txs[0] in SECOND_SPENDER.txs;
  }

  /** Two coinbases of one branch spend the same output.  Every check before the reorganization passes, and the branch is
      not valid. */
  method TwoSpenders() returns (ok: bool)
    ensures ok && !Ledger.Valid(PlaceAll([FORK] + [FIRST_SPENDER, SECOND_SPENDER]))
  {
    hide Reflects, Ledger.Valid, Extends, Seen, View, PlaceAll, ExtendsAll, AllApplicable, LoneAccepted, Sane, Above, Hashed;
    var none := new Database(map[], map[]);
    EmptyReflects(none);
    OneAndTwo(FORK, UNDONE);
    PlainCoinbase([], 1, 1);
    PlainCoinbase([PlacedIn(FORK)], 2, 2);
    assert NoneRepeated([PlacedIn(FORK)]) && NoneRepeated([PlacedIn(FORK), PlacedIn(UNDONE)]);
    var one := InsertBlock(none, FORK, []);
    var two := InsertBlock(one.value, UNDONE, PlaceAll([FORK]));
    ValidAppend([], FORK);
    ValidAppend(PlaceAll([FORK]), UNDONE);
    assert Reverse([UNDONE]) == [UNDONE];
    var attach := [FIRST_SPENDER, SECOND_SPENDER];
    assert attach[..0] == [] && attach[..1] == [FIRST_SPENDER];
    BranchPlaced();
    SpendersSane();
    FirstAccepted();
    SecondAccepted();
    ok := CheckBranch(two.value, [UNDONE], attach, 0, 0, [], {POOLED}, true, [FORK]);
    NotValid();
  }

  lemma BranchPlaced()
    ensures [FORK] + [] == [FORK] && PlaceAll([FORK]) == [PlacedIn(FORK)]
    ensures PlaceAll([FORK] + [FIRST_SPENDER]) == [PlacedIn(FORK), PlacedIn(FIRST_SPENDER)]
    ensures PlaceAll([FORK] + [FIRST_SPENDER, SECOND_SPENDER]) ==
            [PlacedIn(FORK), PlacedIn(FIRST_SPENDER), PlacedIn(SECOND_SPENDER)]
    ensures MainChain([FORK], [UNDONE]) == [PlacedIn(FORK), PlacedIn(UNDONE)] && Undoes([FORK], [UNDONE])
  {
    hide PlaceAll;
    OneAndTwo(FORK, UNDONE);
    OneAndTwo(FORK, FIRST_SPENDER);
    PlaceAllSnoc([FORK] + [FIRST_SPENDER], SECOND_SPENDER);
    assert [FORK] + [FIRST_SPENDER] + [SECOND_SPENDER] == [FORK] + [FIRST_SPENDER, SECOND_SPENDER];
    MainChainIs([FORK], [UNDONE]);
    assert Reverse([UNDONE]) == [UNDONE];
  }

  lemma SpendersSane()
    ensures Sane(FIRST_SPENDER) && Sane(SECOND_SPENDER) && Hashed([FIRST_SPENDER, SECOND_SPENDER])
    ensures Hashed([FIRST_SPENDER])
    ensures Above([PlacedIn(FORK)], 2) && Above([PlacedIn(FORK), PlacedIn(FIRST_SPENDER)], 3)
  {
    SpendsPooled();
  }

  lemma FirstAccepted()
    ensures Undoes([FORK], [UNDONE])
    ensures LoneAccepted([FORK], [UNDONE], [], FIRST_SPENDER, true, 0, 0, [], {POOLED}, true)
  {
    hide PlaceAll, MainChain, Seen, View;
    BranchPlaced();
    TwoSpendersSeen();
    SpendsPooled();
    CoinbaseAccepted(FIRST_SPENDER, [PlacedIn(FORK)]);
  }

  lemma SecondAccepted()
    ensures Undoes([FORK], [UNDONE])
    ensures LoneAccepted([FORK], [UNDONE], [FIRST_SPENDER], SECOND_SPENDER, true, 0, 0, [], {POOLED}, true)
  {
    hide PlaceAll, MainChain, Seen, View, AllApplicable;
    BranchPlaced();
    TwoSpendersSeen();
    SpendsPooled();
    FirstApplies({4});
    FirstApplies({1});
    CoinbaseAccepted(SECOND_SPENDER, [PlacedIn(FORK), PlacedIn(FIRST_SPENDER)]);
  }

  lemma FirstApplies(keys: set<Hash>)
    requires 3 !in keys
    ensures Undoes([FORK], [UNDONE])
    ensures AllApplicable(keys, MainChain([FORK], [UNDONE]), [FORK], [FIRST_SPENDER])
  {
    hide PlaceAll, MainChain, Seen, View;
    BranchPlaced();
  }

  lemma CoinbaseAccepted(b: Block, hist: seq<Placed>)
    requires b == FIRST_SPENDER || b == SECOND_SPENDER
    requires Seen([PlacedIn(FORK), PlacedIn(UNDONE)], 1, hist, 1) == Fresh(PlacedIn(FORK))
    ensures CoinbaseGood(b.txs[0], b.height, true, 0, 0, [], 0, {POOLED}, true,
                         SeenEntries({1}, [PlacedIn(FORK), PlacedIn(UNDONE)], 1, hist), [])
  {
    hide Seen;
    SpendsPooled();
    var outs := b.txs[0].outs;
    assert outs[..1] == [1] && outs[..1][..0] == [];
    assert Sum(outs) == Sum(outs[..1]) + 1 == Sum(outs[..1][..0]) + 1 + 1 == 2;
  }

  lemma NotValid()
    ensures !Ledger.Valid(PlaceAll([FORK] + [FIRST_SPENDER, SECOND_SPENDER]))
  {
    hide View, PlaceAll, Extends;
    BranchPlaced();
    TwoSpendersSeen();
    SpendsPooled();
    var hist := PlaceAll([FORK] + [FIRST_SPENDER, SECOND_SPENDER]);
    assert hist[..2] == [PlacedIn(FORK), PlacedIn(FIRST_SPENDER)];
    NeedsUnspent(hist[..2], hist[2], POOLED);
  }

  lemma NeedsUnspent(hist: seq<Placed>, p: Placed, op: OutPoint)
    requires op in Spends(p.tx) && !Spendable(View(hist, op.hash), op.index)
    ensures !Extends(hist, p)
  {
    hide View;
  }

  /** A template that pays out the largest amount there is. */
  const TEMPLATE: Block := Block(1, [Tx(1, [OutPoint(ZERO_HASH, MAX_INDEX)], [MAX_AMOUNT])])

  /** A template has no key in its header, and without one the value of the coinbase is not checked: a template may pay
      out any amount in range.  It is never connected. */
  method KeylessTemplate() returns (ok: bool)
    ensures ok && Sum(TEMPLATE.txs[0].outs) == MAX_AMOUNT > Allowance(HALVING_INTERVAL, TEMPLATE.height, 0, [])
  {
    hide Reflects, Ledger.Valid, View, PlaceAll, Allowance, Sane, Above, Hashed;
    var none := new Database(map[], map[]);
    EmptyReflects(none);
    TemplateFacts();
    NoMoves([]);
    ok := CheckConnectBlock(none, true, [], [], TEMPLATE, false, HALVING_INTERVAL, 0, [], {}, true, []);
  }

  lemma TemplateFacts()
    ensures PlaceAll([]) == [] && Above([], TEMPLATE.height) && Sane(TEMPLATE) && Lone(TEMPLATE, [])
    ensures Sum(TEMPLATE.txs[0].outs) == MAX_AMOUNT > Allowance(HALVING_INTERVAL, TEMPLATE.height, 0, [])
  {
    var t := TEMPLATE.txs[0];
    assert Spends(t) == [];
    assert t.outs[..0] == [];
    assert Sum(t.outs) == Sum([]) + MAX_AMOUNT;
    SubsidyNeverRises(0, 1);
  }

  /** A first block at height 0 whose transaction has two outputs, and a block that spends both. */
  const FIRST: Block := CoinbaseOnly(0, 1, [])
  const SPENDER: Block := CoinbaseOnly(1, 2, [OutPoint(1, 0), OutPoint(1, 1)])

  /** All outputs of the first transaction are spent, and the table of unspent transactions still holds it. */
  method FirstStays() returns (db: Database)
    ensures 1 in db.live && db.live[1] == Found(FIRST.txs[0], 0, [true, true])
  {
    hide Reflects, Extends, View, PlaceAll, ExtendsAll;
    var none := new Database(map[], map[]);
    EmptyReflects(none);
    PlainCoinbase([], 0, 1);
    OneAndTwo(FIRST, SPENDER);
    SpenderExtends();
    assert NoneRepeated([PlacedIn(FIRST)]) && NoneRepeated([PlacedIn(FIRST), PlacedIn(SPENDER)]);
    var one := InsertBlock(none, FIRST, []);
    var two := InsertBlock(one.value, SPENDER, [PlacedIn(FIRST)]);
    db := two.value;
    KeptLive(db, [PlacedIn(FIRST), PlacedIn(SPENDER)], 1);
  }

  lemma KeptLive(db: Database, main: seq<Placed>, h: Hash)
    requires Reflects(db, main) && Kept(View(main, h))
    ensures h in db.live && db.live[h] == View(main, h)
  {
    hide View;
  }

  lemma SpenderExtends()
    ensures ExtendsAll([PlacedIn(FIRST)], SPENDER)
    ensures View([PlacedIn(FIRST), PlacedIn(SPENDER)], 1) == Found(FIRST.txs[0], 0, [true, true])
  {
    var hist, p := [PlacedIn(FIRST)], PlacedIn(SPENDER);
    EmptyBefore(hist, SPENDER);
    assert Spends(p.tx) == [OutPoint(1, 0), OutPoint(1, 1)];
    assert Latest(hist, 1) == Some(0) && Latest(hist, 2) == None;
    assert View(hist, 1).spent == [false, false];
    ViewSnoc(hist, p, 1);
    assert hist + [p] == [PlacedIn(FIRST), PlacedIn(SPENDER)];
    var m := Mark(View(hist, 1), 1, Spends(p.tx));
    assert OutPoint(1, 0) in Spends(p.tx) && OutPoint(1, 1) in Spends(p.tx);
    assert m.spent == [true, true];
  }
}
