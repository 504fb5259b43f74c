/** What connecting a block does to the unspent value, and the bound over a whole chain. */
module MoneyBound {
  import opened Ledger
  import opened Supply
  import opened Subsidies
  import opened TxLookup
  import opened Branches
  import opened BlockChecks

  /** Inputs minus outputs of the ordinary transactions among the first i. */
  ghost function Fees(hist: seq<Placed>, b: Block, i: nat): int
    requires i <= |b.txs|
  {
    if i == 0 then 0
    else
      var t := b.txs[i - 1];
      Fees(hist, b, i - 1) +
      if IsCoinBase(t) then 0 else ValueOfAll(Before(hist, b, i - 1), t.ins) - Sum(t.outs)
  }

  ghost predicate ExtendsAll(hist: seq<Placed>, b: Block) {
    forall i :: 0 <= i < |b.txs| ==> Extends(Before(hist, b, i), Placed(b.txs[i], b.height))
  }

  /** A block creates what its coinbase pays out, and destroys the fees and the coinbase's own inputs. */
  lemma {:induction false} BlockTotal(hist: seq<Placed>, b: Block, i: nat)
    requires Sane(b) && ExtendsAll(hist, b) && 1 <= i <= |b.txs|
    ensures Total(Before(hist, b, i)) + ValueOfAll(hist, Spends(b.txs[0])) + Fees(hist, b, i) ==
            Total(hist) + Sum(b.txs[0].outs)
  {
    hide Extends, Total, ValueOfAll, Sum, Before, NamesItself, Distinct;
    var p := Placed(b.txs[i - 1], b.height);
    BeforeNext(hist, b, i - 1);
    assert Extends(Before(hist, b, i - 1), p);
    Conservation(Before(hist, b, i - 1), p);
    if i > 1 {
      BlockTotal(hist, b, i - 1);
    }
  }

  lemma ValidAppend(hist: seq<Placed>, b: Block)
    requires Valid(hist) && ExtendsAll(hist, b)
    ensures Valid(hist + Place(b.txs, b.height))
  {
    hide Extends;
    var all := hist + Place(b.txs, b.height);
    forall j | 0 <= j < |all|
      ensures Extends(all[..j], all[j])
    {
      if j < |hist| {
        assert all[..j] == hist[..j];
      } else {
        var i := j - |hist|;
        assert Extends(Before(hist, b, i), Placed(b.txs[i], b.height));
        assert all[..j] == Before(hist, b, i);
      }
    }
  }

  /** The counted values are the values in the history, so the counted fees are the fees. */
  lemma {:induction false} CountedValues(main: seq<Placed>, n: nat, hist: seq<Placed>, b: Block, e: Entries,
                                         pooling: set<OutPoint>, i: nat, m: nat)
    requires n <= |main| && n <= |hist| && Checked(main, n, hist, b, e, pooling)
    requires 0 < i < |b.txs| && !IsCoinBase(b.txs[i]) && m <= |b.txs[i].ins|
    ensures Sum(InputValues(e, b.txs[i].ins[..m])) == ValueOfAll(Before(hist, b, i), b.txs[i].ins[..m])
  {
    hide Checked, View, Seen, Before;
    var ops := b.txs[i].ins;
    if m > 0 {
      CountedValues(main, n, hist, b, e, pooling, i, m - 1);
      InputValuesSnoc(e, ops, m - 1);
      ReferencePays(main, n, hist, b, e, pooling, i, ops[m - 1]);
      SeenShape(main, n, Before(hist, b, i), ops[m - 1].hash);
      assert ops[..m][..m - 1] == ops[..m - 1];
    }
  }

  /** What a coinbase may pay beyond the fees at a height. */
  function Allowance(interval: nat, height: nat, initHeight: nat, alloc: seq<nat>): nat {
    (if interval == 0 then BASE_SUBSIDY else Subsidy(height)) + (if height == initHeight then Sum(alloc) else 0)
  }

  /** The largest reward at a height: the shares of the subsidy, and at the initial height the allocations. */
  function FullReward(interval: nat, height: nat, initHeight: nat, alloc: seq<nat>): nat {
    SharesOf(if interval == 0 then BASE_SUBSIDY else Subsidy(height)) + (if height == initHeight then Sum(alloc) else 0)
  }

  lemma RewardBelowAllowance(interval: nat, height: nat, initHeight: nat, alloc: seq<nat>)
    ensures var a := Allowance(interval, height, initHeight, alloc);
            a - 4 < FullReward(interval, height, initHeight, alloc) <= a
  {
  }

  /** The allocations are due and not all of them are paid, or the reward is out of range. */
  predicate Unpaid(t: Tx, interval: nat, height: nat, initHeight: nat, alloc: seq<nat>) {
    height == initHeight &&
    ((exists v :: v in alloc && v !in t.outs) || FullReward(interval, height, initHeight, alloc) > MAX_AMOUNT)
  }

  /** The reward of a coinbase: the shares of the subsidy, and at the initial height the allocations it must pay. */
  method CheckCoinbase(t: Tx, interval: nat, height: nat, hasValidBinding: bool, initHeight: nat, alloc: seq<nat>)
    returns (reward: Option<nat>)
    ensures reward == if Unpaid(t, interval, height, initHeight, alloc) then None
                      else Some(FullReward(interval, height, initHeight, alloc))
    ensures reward.Some? ==>
              var a := Allowance(interval, height, initHeight, alloc); a - 4 < reward.value <= a
    ensures reward.Some? && height == initHeight ==> forall v :: v in alloc ==> v in t.outs
  {
    hide SharesOf;
    SubsidyNeverRises(0, height);
    RewardBelowAllowance(interval, height, initHeight, alloc);
    var miner, pool, senate := CalcBlockSubsidy(interval, height, hasValidBinding);
    var total := miner + pool + senate;
    if total > MAX_AMOUNT {
      return None;
    }
    if height == initHeight {
      ghost var shares := total;
      for i := 0 to |alloc|
        invariant total == shares + Sum(alloc[..i]) <= MAX_AMOUNT
        invariant forall k :: 0 <= k < i ==> alloc[k] in t.outs
      {
        assert alloc[..i + 1][..i] == alloc[..i];
        if alloc[i] !in t.outs {
          return None;
        }
        total := total + alloc[i];
        SumPrefix(alloc, i + 1);
        if total > MAX_AMOUNT {
          return None;
        }
      }
      assert alloc[..|alloc|] == alloc;
    }
    reward := Some(total);
  }

  /** The further inputs of a coinbase are checked against the store in which every other input of the block is
      already marked.  scripts says whether the script classes of those inputs, which are not modelled, are accepted. */
  method CheckCoinbaseInputs(store: TxStore, t: Tx, height: nat, pooling: set<OutPoint>, scripts: bool,
                             ghost e: Entries, ghost seen: seq<OutPoint>)
    returns (ok: bool)
    requires IsCoinBase(t) && store.entries == MarkAll(e, seen) && AllShaped(e)
    ensures ok <==>
              (Spends(t) == [] || scripts) && forall op :: op in Spends(t) ==> FurtherGood(e, seen, op, height, pooling)
  {
    hide Mark, MarkAll, AllShaped;
    var ops := t.ins[1..];
    for m := 0 to |ops|
      invariant m > 0 ==> scripts
      invariant forall k :: 0 <= k < m ==> FurtherGood(e, seen, ops[k], height, pooling)
    {
      var op := ops[m];
      assert op in Spends(t);
      MarkedInput(e, seen, op);
      if op.hash in e && e[op.hash].Found? {
        MarkedMature(e, seen, op, height, pooling);
      }
      if op.hash !in store.entries || store.entries[op.hash].Missing? {
        return false;
      }
      var d := store.entries[op.hash];
      if !Mature(d, height, op, true, pooling) || op.index >= |d.spent| || d.spent[op.index] {
        return false;
      }
      if !scripts {
        return false;
      }
    }
    ok := true;
  }

  /** A further input of a coinbase names an output that is there, mature, unspent, and not spent by the block itself. */
  predicate FurtherGood(e: Entries, seen: seq<OutPoint>, op: OutPoint, height: nat, pooling: set<OutPoint>) {
    && op.hash in e && e[op.hash].Found? && Mature(e[op.hash], height, op, true, pooling)
    && Spendable(e[op.hash], op.index) && op !in seen
  }

  lemma MarkedMature(e: Entries, ops: seq<OutPoint>, op: OutPoint, height: nat, pooling: set<OutPoint>)
    requires op.hash in e && e[op.hash].Found?
    ensures Mature(MarkAll(e, ops)[op.hash], height, op, true, pooling) <==> Mature(e[op.hash], height, op, true, pooling)
  {
  }

  /** The sum is in range and, with a key, every further input is good and the sum is at most the reward and the fees. */
  predicate CoinbaseGood(t: Tx, height: nat, hasKey: bool, interval: nat, initHeight: nat, alloc: seq<nat>, fees: nat,
                         pooling: set<OutPoint>, scripts: bool, e: Entries, seen: seq<OutPoint>)
  {
    && Sum(t.outs) <= MAX_AMOUNT
    && (hasKey ==>
          && (Spends(t) == [] || scripts)
          && (forall op :: op in Spends(t) ==> FurtherGood(e, seen, op, height, pooling))
          && !Unpaid(t, interval, height, initHeight, alloc)
          && FullReward(interval, height, initHeight, alloc) + fees <= MAX_AMOUNT
          && Sum(t.outs) <= FullReward(interval, height, initHeight, alloc) + fees)
  }

  /** The coinbase pays at most the reward and the fees, and its further inputs can be spent.  A block without a public
      key in its header skips all but the range of the sum. */
  method CheckCoinbaseValue(store: TxStore, t: Tx, b: Block, hasKey: bool, interval: nat, initHeight: nat,
                            alloc: seq<nat>, fees: nat, pooling: set<OutPoint>, scripts: bool,
                            ghost e: Entries, ghost seen: seq<OutPoint>)
    returns (ok: bool)
    requires IsCoinBase(t) && store.entries == MarkAll(e, seen) && AllShaped(e)
    ensures ok <==> CoinbaseGood(t, b.height, hasKey, interval, initHeight, alloc, fees, pooling, scripts, e, seen)
    ensures ok && hasKey ==> Sum(t.outs) <= Allowance(interval, b.height, initHeight, alloc) + fees
    ensures ok && hasKey ==> forall op :: op in Spends(t) ==>
              op.hash in e && Spendable(e[op.hash], op.index) && op !in seen
  {
    hide Mark, MarkAll, AllShaped, Sum, Allowance, FullReward, Unpaid, Spends, Mature;
    RewardBelowAllowance(interval, b.height, initHeight, alloc);
    var totalOut := SumAmounts(t.outs);
    if totalOut.None? {
      return false;
    }
    if !hasKey {
      return true;
    }
    ok := CheckCoinbaseInputs(store, t, b.height, pooling, scripts, e, seen);
    if !ok {
      return false;
    }
    var hasValidBinding: bool := *;
    var reward := CheckCoinbase(t, interval, b.height, hasValidBinding, initHeight, alloc);
    if reward.None? || reward.value + fees > MAX_AMOUNT {
      return false;
    }
    ok := totalOut.value <= reward.value + fees;
  }

  /** Whether a transaction of the block would overwrite one that the store does not show as fully spent. */
  method CheckDupTx(store: TxStore, b: Block) returns (ok: bool)
    requires store.entries.Keys == Ids(b)
    ensures ok <==> forall h :: h in Ids(b) ==> FullySpent(store.entries[h])
  {
    for i := 0 to |b.txs|
      invariant forall k :: 0 <= k < i ==> FullySpent(store.entries[b.txs[k].id])
    {
      assert b.txs[i].id in store.entries;
      var d := store.entries[b.txs[i].id];
      if d.Found? && !AllSpent(d.spent) {
        return false;
      }
    }
    ok := true;
  }

  /** On what the store shows of the branch that is the rule against overwriting a transaction. */
  lemma NoDuplicates(entries: Entries, b: Block, main: seq<Placed>, n: nat, hist: seq<Placed>)
    requires n <= |main| && Shown(entries, main, n, hist) && entries.Keys == Ids(b)
    ensures (forall h :: h in Ids(b) ==> FullySpent(entries[h])) <==>
            (forall i :: 0 <= i < |b.txs| ==> FullySpent(Seen(main, n, hist, b.txs[i].id)))
  {
    hide Seen, FullySpent;
    forall h | h in Ids(b)
      ensures FullySpent(entries[h]) <==> FullySpent(Seen(main, n, hist, h))
    {
      ShownFully(entries, main, n, hist, h);
    }
    assert forall i :: 0 <= i < |b.txs| ==> b.txs[i].id in Ids(b);
  }

  lemma ShownFully(entries: Entries, main: seq<Placed>, n: nat, hist: seq<Placed>, h: Hash)
    requires n <= |main| && Shown(entries, main, n, hist) && h in entries
    ensures FullySpent(entries[h]) <==> FullySpent(Seen(main, n, hist, h))
  {
    hide Seen;
  }

  function Ids(b: Block): set<Hash> {
    set t | t in b.txs :: t.id
  }

  /** The ordinary transactions all pass, and the fees add up. */
  ghost predicate Paid(hist: seq<Placed>, b: Block, e: Entries, pooling: set<OutPoint>, i: nat, fees: nat)
    requires i <= |b.txs|
  {
    && (forall k :: 0 < k < i ==> Affordable(e, OrdinarySpends(b, k), b.txs[k], b.height, pooling))
    && fees == CountedFees(b, e, i)
  }

  ghost function CountedFees(b: Block, e: Entries, i: nat): int
    requires i <= |b.txs|
  {
    if i == 0 then 0
    else CountedFees(b, e, i - 1) +
         if IsCoinBase(b.txs[i - 1]) then 0 else Sum(InputValues(e, b.txs[i - 1].ins)) - Sum(b.txs[i - 1].outs)
  }

  lemma {:induction false} CountedAreFees(main: seq<Placed>, n: nat, hist: seq<Placed>, b: Block, e: Entries,
                                          pooling: set<OutPoint>, i: nat)
    requires n <= |main| && n <= |hist| && Checked(main, n, hist, b, e, pooling) && i <= |b.txs|
    ensures CountedFees(b, e, i) == Fees(hist, b, i)
  {
    hide Checked, Sum, InputValues, ValueOfAll, Before;
    if i > 0 {
      CountedAreFees(main, n, hist, b, e, pooling, i - 1);
      var t := b.txs[i - 1];
      if !IsCoinBase(t) {
        FirstIsCoinbase(main, n, hist, b, e, pooling);
        CountedValues(main, n, hist, b, e, pooling, i - 1, |t.ins|);
        assert t.ins[..|t.ins|] == t.ins;
      }
    }
  }

  lemma FirstIsCoinbase(main: seq<Placed>, n: nat, hist: seq<Placed>, b: Block, e: Entries, pooling: set<OutPoint>)
    requires n <= |main| && Checked(main, n, hist, b, e, pooling)
    ensures |b.txs| >= 1 && IsCoinBase(b.txs[0]) && Sane(b)
  {
    hide Seen, Affordable, Provenance, Distinct, NamesItself, FullySpent;
  }

  lemma PaidNone(hist: seq<Placed>, b: Block, e: Entries, pooling: set<OutPoint>)
    ensures Paid(hist, b, e, pooling, 0, 0) && OrdinarySpends(b, 0) == []
  {
  }

  lemma PaidNext(hist: seq<Placed>, b: Block, e: Entries, pooling: set<OutPoint>, i: nat, total: nat, fee: nat)
    requires i < |b.txs| && Paid(hist, b, e, pooling, i, total) && (i > 0 ==> !IsCoinBase(b.txs[i]))
    requires if IsCoinBase(b.txs[i]) then fee == 0
             else Affordable(e, OrdinarySpends(b, i), b.txs[i], b.height, pooling) &&
                  fee + Sum(b.txs[i].outs) == Sum(InputValues(e, b.txs[i].ins))
    ensures Paid(hist, b, e, pooling, i + 1, total + fee)
  {
    hide Affordable, Sum, InputValues, OrdinarySpends, CountedFees, IsCoinBase;
    CountedNext(b, e, i);
  }

  lemma CountedNext(b: Block, e: Entries, i: nat)
    requires i < |b.txs|
    ensures CountedFees(b, e, i + 1) == CountedFees(b, e, i) +
            if IsCoinBase(b.txs[i]) then 0 else Sum(InputValues(e, b.txs[i].ins)) - Sum(b.txs[i].outs)
  {
    hide Sum, InputValues, IsCoinBase;
  }

  lemma SpendsNext(b: Block, i: nat)
    requires i < |b.txs|
    ensures OrdinarySpends(b, i + 1) ==
            if IsCoinBase(b.txs[i]) then OrdinarySpends(b, i) else OrdinarySpends(b, i) + b.txs[i].ins
  {
    assert OrdinarySpends(b, i) + [] == OrdinarySpends(b, i);
  }

  lemma OnlyFirstCoinbase(b: Block, i: nat)
    requires Sane(b) && 0 < i < |b.txs|
    ensures !IsCoinBase(b.txs[i])
  {
  }

  method CheckAllInputs(store: TxStore, b: Block, pooling: set<OutPoint>, ghost hist: seq<Placed>, ghost e: Entries)
    returns (fees: Option<nat>)
    requires Sane(b) && store.entries == e && AllShaped(e)
    modifies store
    ensures fees.Some? ==> Paid(hist, b, e, pooling, |b.txs|, fees.value)
    ensures fees.Some? ==> store.entries == MarkAll(e, OrdinarySpends(b, |b.txs|))
    ensures |b.txs| == 1 ==> fees == Some(0)
  {
    hide AllShaped, Affordable, MarkAll, Sum, InputValues, Sane, IsCoinBase, OrdinarySpends, CountedFees, Paid;
    MarkAllNone(e);
    var total: nat := 0;
    PaidNone(hist, b, e, pooling);
    for i := 0 to |b.txs|
      invariant store.entries == MarkAll(e, OrdinarySpends(b, i))
      invariant Paid(hist, b, e, pooling, i, total)
      invariant i <= 1 ==> total == 0
    {
      if i == 0 {
        SaneFirst(b);
      } else {
        OnlyFirstCoinbase(b, i);
      }
      SpendsNext(b, i);
      var fee := CheckTransactionInputs(store, b.txs[i], b.height, pooling, e, OrdinarySpends(b, i));
      if fee.None? || total + fee.value > MAX_AMOUNT {
        return None;
      }
      PaidNext(hist, b, e, pooling, i, total, fee.value);
      total := total + fee.value;
    }
    fees := Some(total);
  }

  /** All that the checks establish about a block that passed: the entries it was checked against are what the store shows
      of its branch or come from the block itself, and its coinbase pays at most the allowance and the fees. */
  ghost predicate PassedOn(main: seq<Placed>, n: nat, hist: seq<Placed>, b: Block, allowance: nat)
    requires n <= |main|
  {
    exists e, pooling, fees: nat :: PassedWith(main, n, hist, b, allowance, e, pooling, fees)
  }

  ghost predicate PassedWith(main: seq<Placed>, n: nat, hist: seq<Placed>, b: Block, allowance: nat, e: Entries,
                             pooling: set<OutPoint>, fees: nat)
    requires n <= |main|
  {
    && Checked(main, n, hist, b, e, pooling) && fees == CountedFees(b, e, |b.txs|)
    && |b.txs| >= 1 && Sum(b.txs[0].outs) <= allowance + fees
  }

  /** The block passed on top of a main chain with that history, where the store shows the view. */
  ghost predicate Passed(hist: seq<Placed>, b: Block, allowance: nat) {
    PassedOn(hist, |hist|, hist, b, allowance)
  }

  /** The hashes for which a block is checked against the chain. */
  ghost function Asked(b: Block): set<Hash> {
    Ids(b) + Referenced(b)
  }

  /** The store a block is checked against is the view of its branch: at the tip always, elsewhere when the branch is in
      step. */
  ghost predicate ViewHolds(parentIsBest: bool, keys: set<Hash>, detach: seq<Block>, attach: seq<Block>, base: seq<Block>) {
    parentIsBest ||
    (Undoes(base, detach) && InStep(keys, MainChain(base, detach), |PlaceAll(base)|, PlaceAll(base + attach)))
  }

  /** A block that passed on a branch in step would have passed on a main chain with the same history. */
  lemma PassedInStep(main: seq<Placed>, n: nat, hist: seq<Placed>, b: Block, allowance: nat)
    requires n <= |main| && PassedOn(main, n, hist, b, allowance) && InStep(Asked(b), main, n, hist)
    ensures Passed(hist, b, allowance)
  {
    hide Checked, Asked, Balanced, CountedFees, Sum;
    var e, pooling, fees: nat :| PassedWith(main, n, hist, b, allowance, e, pooling, fees);
    CheckedInStep(main, n, hist, b, e, pooling);
    assert PassedWith(hist, |hist|, hist, b, allowance, e, pooling, fees);
  }

  lemma CheckedInStep(main: seq<Placed>, n: nat, hist: seq<Placed>, b: Block, e: Entries, pooling: set<OutPoint>)
    requires n <= |main| && Checked(main, n, hist, b, e, pooling) && InStep(Asked(b), main, n, hist)
    ensures Checked(hist, |hist|, hist, b, e, pooling)
  {
    hide Seen, Balanced, FullySpent, Affordable, Spends, Distinct, NamesItself, OrdinarySpends, FromBlock;
    forall h | h in Asked(b)
      ensures Seen(main, n, hist, h) == Seen(hist, |hist|, hist, h)
    {
      SeenIsView(main, n, hist, h);
      TipSeen(hist, h);
    }
    forall i | 0 <= i < |b.txs|
      ensures b.txs[i].id in Asked(b)
    {
    }
    forall i, op | 0 <= i < |b.txs| && op in Spends(b.txs[i])
      ensures Provenance(hist, |hist|, hist, b, e, op.hash, i)
    {
      assert b.txs[i] in b.txs;
      assert op.hash in Asked(b);
      assert Provenance(main, n, hist, b, e, op.hash, i);
    }
  }

  ghost function SeenEntries(keys: set<Hash>, main: seq<Placed>, n: nat, hist: seq<Placed>): Entries
    requires n <= |main|
  {
    map h | h in keys :: Seen(main, n, hist, h)
  }

  /** When a block of a coinbase alone is accepted off the tip. */
  ghost predicate LoneAccepted(base: seq<Block>, detach: seq<Block>, attach: seq<Block>, b: Block, hasKey: bool,
                               interval: nat, initHeight: nat, alloc: seq<nat>, pooling: set<OutPoint>, scripts: bool)
    requires |b.txs| == 1 && Undoes(base, detach)
  {
    var main, n, hist := MainChain(base, detach), |PlaceAll(base)|, PlaceAll(base + attach);
    && AllApplicable(Ids(b), main, base, attach) && AllApplicable(Referenced(b), main, base, attach)
    && FullySpent(Seen(main, n, hist, b.txs[0].id))
    && CoinbaseGood(b.txs[0], b.height, hasKey, interval, initHeight, alloc, 0, pooling, scripts,
                    SeenEntries(Referenced(b), main, n, hist), [])
  }

  lemma LoneCollected(b: Block, e: Entries, needed: set<Hash>)
    requires Sane(b) && |b.txs| == 1 && Collected(b, e, needed) && needed <= e.Keys <= Referenced(b)
    ensures needed == e.Keys == Referenced(b)
  {
    hide Distinct, IsCoinBase, Spends;
    forall h | h in Referenced(b)
      ensures h in needed
    {
      var t, op :| t in b.txs && op in Spends(t) && op.hash == h;
      assert t == b.txs[0] && h in e;
      NotItself(t, op);
    }
  }

  lemma LoneFetched(e: Entries, fetched: Entries, main: seq<Placed>, n: nat, hist: seq<Placed>)
    requires n <= |main| && e.Keys == fetched.Keys && Sees(fetched, main, n, hist)
    ensures e + fetched == SeenEntries(e.Keys, main, n, hist)
  {
    hide Seen;
  }

  lemma LoneShown(b: Block)
    requires |b.txs| == 1
    ensures Ids(b) == {b.txs[0].id} && OrdinarySpends(b, 0) == []
    ensures IsCoinBase(b.txs[0]) ==> OrdinarySpends(b, 1) == []
  {
  }

  /** The checks of a block whose parent ends base + attach.  A block with a public key in its header that passes has all
      that is needed to extend the history as far as the store shows, and on a branch in step to extend it. */
  method CheckConnectBlock(database: Database, parentIsBest: bool, detach: seq<Block>, attach: seq<Block>, b: Block,
                           hasKey: bool, interval: nat, initHeight: nat, alloc: seq<nat>, pooling: set<OutPoint>,
                           scripts: bool, ghost base: seq<Block>)
    returns (ok: bool)
    requires Valid(MainChain(base, detach)) && Reflects(database, MainChain(base, detach)) && Hashed(attach)
    requires parentIsBest ==> detach == [] && attach == []
    requires Sane(b) && Above(PlaceAll(base + attach), b.height)
    ensures Undoes(base, detach)
    ensures ok && hasKey ==> PassedOn(MainChain(base, detach), |PlaceAll(base)|, PlaceAll(base + attach), b,
                                      Allowance(interval, b.height, initHeight, alloc))
    ensures ok && hasKey && ViewHolds(parentIsBest, Asked(b), detach, attach, base) ==>
              Passed(PlaceAll(base + attach), b, Allowance(interval, b.height, initHeight, alloc))
    ensures |b.txs| == 1 && !parentIsBest ==>
              (ok <==> LoneAccepted(base, detach, attach, b, hasKey, interval, initHeight, alloc, pooling, scripts))
    ensures !hasKey && parentIsBest && Lone(b, PlaceAll(base)) ==> ok
  {
    hide Valid, Reflects, Hashed, PlaceAll, MainChain, Sane, Above, View, Seen, Serves, Agrees, Sees, AllApplicable;
    hide Allowance, Collected, Total, Ids, Referenced, Paid, InStep, FullySpent, Spends, Sum, PassedOn, AllShaped;
    hide CoinbaseGood, Shown, SeenEntries, ViewHolds, LoneAccepted;
    ghost var main, n, hist := MainChain(base, detach), |PlaceAll(base)|, PlaceAll(base + attach);
    var r, dups := FetchTxStore(database, Ids(b), parentIsBest, detach, attach, base);
    if parentIsBest {
      NothingToApply(Ids(b), detach, base);
      TipIsMain(base);
      ServesShown(dups.entries, hist);
    } else if r == Ok {
      SeesShown(dups.entries, main, n, hist);
    }
    if |b.txs| == 1 {
      LoneMeans(base, detach, attach, b, hasKey, interval, initHeight, alloc, pooling, scripts);
      LoneShown(b);
    }
    if r != Ok {
      return false;
    }
    ok := CheckDupTx(dups, b);
    NoDuplicates(dups.entries, b, main, n, hist);
    if !ok {
      return false;
    }
    var e, needed := CollectInputs(b);
    if |b.txs| == 1 {
      LoneCollected(b, e, needed);
    }
    var fetched;
    r, fetched := FetchTxStore(database, needed, parentIsBest, detach, attach, base);
    if parentIsBest {
      NothingToApply(needed, detach, base);
      ServesShown(fetched.entries, hist);
    } else if r == Ok {
      SeesShown(fetched.entries, main, n, hist);
      if |b.txs| == 1 {
        LoneFetched(e, fetched.entries, main, n, hist);
      }
    }
    if r != Ok {
      return false;
    }
    Merged(main, n, hist, b, e, needed, fetched.entries);
    ShownShaped(fetched.entries, main, n, hist);
    MergedShaped(b, e, needed, fetched.entries);
    e := e + fetched.entries;
    var store := new TxStore(e);
    var fees := CheckAllInputs(store, b, pooling, hist, e);
    if fees.None? {
      return false;
    }
    SaneFirst(b);
    ok := CheckCoinbaseValue(store, b.txs[0], b, hasKey, interval, initHeight, alloc, fees.value, pooling, scripts, e,
                             OrdinarySpends(b, |b.txs|));
    if ok && hasKey {
      AllChecked(main, n, hist, b, e, pooling, fees.value);
      PassedBy(main, n, hist, b, Allowance(interval, b.height, initHeight, alloc), e, pooling, fees.value);
      ViewPassed(parentIsBest, detach, attach, base, b, Allowance(interval, b.height, initHeight, alloc));
    }
  }

  lemma ViewPassed(parentIsBest: bool, detach: seq<Block>, attach: seq<Block>, base: seq<Block>, b: Block, allowance: nat)
    requires Undoes(base, detach) && (parentIsBest ==> detach == [] && attach == [])
    requires PassedOn(MainChain(base, detach), |PlaceAll(base)|, PlaceAll(base + attach), b, allowance)
    ensures ViewHolds(parentIsBest, Asked(b), detach, attach, base) ==> Passed(PlaceAll(base + attach), b, allowance)
  {
    hide PassedOn, InStep, MainChain, PlaceAll;
    if parentIsBest {
      TipIsMain(base);
    } else if ViewHolds(parentIsBest, Asked(b), detach, attach, base) {
      PassedInStep(MainChain(base, detach), |PlaceAll(base)|, PlaceAll(base + attach), b, allowance);
    }
  }

  lemma TipIsMain(base: seq<Block>)
    ensures MainChain(base, []) == PlaceAll(base) == PlaceAll(base + [])
  {
    assert base + Reverse([]) == base && base + [] == base;
  }

  /** A block of a coinbase alone, which spends nothing, pays an amount in range and overwrites nothing. */
  ghost predicate Lone(b: Block, hist: seq<Placed>) {
    |b.txs| == 1 && Spends(b.txs[0]) == [] && Sum(b.txs[0].outs) <= MAX_AMOUNT && FullySpent(View(hist, b.txs[0].id))
  }

  lemma LoneMeans(base: seq<Block>, detach: seq<Block>, attach: seq<Block>, b: Block, hasKey: bool,
                  interval: nat, initHeight: nat, alloc: seq<nat>, pooling: set<OutPoint>, scripts: bool)
    requires |b.txs| == 1 && Undoes(base, detach)
    ensures LoneAccepted(base, detach, attach, b, hasKey, interval, initHeight, alloc, pooling, scripts) <==>
              var main, n, hist := MainChain(base, detach), |PlaceAll(base)|, PlaceAll(base + attach);
              && AllApplicable(Ids(b), main, base, attach) && AllApplicable(Referenced(b), main, base, attach)
              && FullySpent(Seen(main, n, hist, b.txs[0].id))
              && CoinbaseGood(b.txs[0], b.height, hasKey, interval, initHeight, alloc, 0, pooling, scripts,
                              SeenEntries(Referenced(b), main, n, hist), [])
    ensures !hasKey && Lone(b, PlaceAll(base)) ==>
              && FullySpent(Seen(PlaceAll(base), |PlaceAll(base)|, PlaceAll(base), b.txs[0].id))
              && forall e: Entries, seen, fees: nat ::
                   CoinbaseGood(b.txs[0], b.height, hasKey, interval, initHeight, alloc, fees, pooling, scripts, e, seen)
  {
    hide Seen, View, AllApplicable, MainChain, PlaceAll, Ids, Referenced, SeenEntries;
    TipSeen(PlaceAll(base), b.txs[0].id);
  }

  lemma PassedBy(main: seq<Placed>, n: nat, hist: seq<Placed>, b: Block, allowance: nat, e: Entries,
                 pooling: set<OutPoint>, fees: nat)
    requires n <= |main| && PassedWith(main, n, hist, b, allowance, e, pooling, fees)
    ensures PassedOn(main, n, hist, b, allowance)
  {
  }

  lemma NothingToApply(keys: set<Hash>, detach: seq<Block>, base: seq<Block>)
    requires Undoes(base, detach)
    ensures AllApplicable(keys, MainChain(base, detach), base, [])
  {
  }

  lemma SaneFirst(b: Block)
    requires Sane(b)
    ensures |b.txs| >= 1 && IsCoinBase(b.txs[0])
  {
  }

  lemma AtTip(keys: set<Hash>, detach: seq<Block>, attach: seq<Block>, base: seq<Block>)
    ensures ViewHolds(true, keys, detach, attach, base)
  {
  }

  lemma AllChecked(main: seq<Placed>, n: nat, hist: seq<Placed>, b: Block, e: Entries, pooling: set<OutPoint>, fees: nat)
    requires n <= |main| && Sane(b) && Above(hist, b.height) && AllShaped(e)
    requires forall i :: 0 <= i < |b.txs| ==> FullySpent(Seen(main, n, hist, b.txs[i].id))
    requires forall i, op :: 0 <= i < |b.txs| && op in Spends(b.txs[i]) ==> Provenance(main, n, hist, b, e, op.hash, i)
    requires Paid(hist, b, e, pooling, |b.txs|, fees)
    requires forall op :: op in Spends(b.txs[0]) ==>
               op.hash in e && Spendable(e[op.hash], op.index) && op !in OrdinarySpends(b, |b.txs|)
    ensures Checked(main, n, hist, b, e, pooling) && fees == CountedFees(b, e, |b.txs|)
  {
    hide Seen, Spends, FullySpent, Provenance, Affordable, Above, AllShaped, Spendable, OrdinarySpends, CountedFees;
  }

  lemma Accepted(hist: seq<Placed>, b: Block, e: Entries, pooling: set<OutPoint>, fees: nat, allowance: nat)
    requires Valid(hist) && Checked(hist, |hist|, hist, b, e, pooling) && fees == CountedFees(b, e, |b.txs|)
    requires |b.txs| >= 1 && Sum(b.txs[0].outs) <= allowance + fees
    ensures Valid(hist + Place(b.txs, b.height))
    ensures Total(hist + Place(b.txs, b.height)) <= Total(hist) + allowance
  {
    hide Checked, Sane, Valid, Total, Sum, Extends, CountedFees, Fees, Spends, ValueOfAll;
    forall i | 0 <= i < |b.txs|
      ensures Extends(Before(hist, b, i), Placed(b.txs[i], b.height))
    {
      CheckedAtTip(hist, b, e, pooling, i);
    }
    CountedAreFees(hist, |hist|, hist, b, e, pooling, |b.txs|);
    FirstIsCoinbase(hist, |hist|, hist, b, e, pooling);
    BlockTotal(hist, b, |b.txs|);
    ValidAppend(hist, b);
    assert b.txs[..|b.txs|] == b.txs;
  }

  // ----- blocks of a branch

  ghost predicate ShownAll(main: seq<Placed>, n: nat, hist: seq<Placed>, b: Block)
    requires n <= |main|
  {
    forall i :: 0 <= i < |b.txs| ==> SeenExtends(main, n, Before(hist, b, i), Placed(b.txs[i], b.height))
  }

  /** What a block of a branch adds to the stripped history: at most its coinbase outputs less its fees. */
  lemma {:induction false} BranchBlockTotal(main: seq<Placed>, n: nat, hist: seq<Placed>, b: Block, i: nat)
    requires n <= |main| && n <= |hist| && Sane(b) && ShownAll(main, n, hist, b) && 1 <= i <= |b.txs|
    ensures Total(Strip(n, Before(hist, b, i))) + Fees(hist, b, i) <= Total(Strip(n, hist)) + Sum(b.txs[0].outs)
  {
    hide SeenExtends, Total, ValueOfAll, Sum, Before, NamesItself, Distinct, Strip;
    var p := Placed(b.txs[i - 1], b.height);
    BeforeNext(hist, b, i - 1);
    BeforeLength(hist, b, i - 1);
    assert SeenExtends(main, n, Before(hist, b, i - 1), p);
    BranchStep(main, n, Before(hist, b, i - 1), p);
    if i > 1 {
      BranchBlockTotal(main, n, hist, b, i - 1);
    }
  }

  /** A block of a branch that passed extends it as far as the store shows, and raises what the stripped branch holds by at
      most its allowance. */
  lemma PassedOnBranch(main: seq<Placed>, n: nat, hist: seq<Placed>, b: Block, allowance: nat)
    requires n <= |main| && n <= |hist| && PassedOn(main, n, hist, b, allowance)
    ensures ShownAll(main, n, hist, b)
    ensures Total(Strip(n, hist + Place(b.txs, b.height))) <= Total(Strip(n, hist)) + allowance
  {
    hide Checked, Sane, Total, Sum, SeenExtends, CountedFees, Fees, Strip;
    var e, pooling, fees: nat :| PassedWith(main, n, hist, b, allowance, e, pooling, fees);
    forall i | 0 <= i < |b.txs|
      ensures SeenExtends(main, n, Before(hist, b, i), Placed(b.txs[i], b.height))
    {
      CheckedExtends(main, n, hist, b, e, pooling, i);
    }
    CountedAreFees(main, n, hist, b, e, pooling, |b.txs|);
    FirstIsCoinbase(main, n, hist, b, e, pooling);
    BranchBlockTotal(main, n, hist, b, |b.txs|);
    assert b.txs[..|b.txs|] == b.txs;
  }

  /** The allowances of a list of blocks. */
  function Allowances(interval: nat, initHeight: nat, alloc: seq<nat>, blocks: seq<Block>): nat {
    if blocks == [] then 0
    else Allowances(interval, initHeight, alloc, blocks[..|blocks| - 1])
         + Allowance(interval, blocks[|blocks| - 1].height, initHeight, alloc)
  }

  /** A chain of blocks that each passed the checks on the chain before it is valid, and its unspent value is at most
      that of the start and the allowances of all the heights since. */
  lemma {:induction false} ChainBound(start: seq<Block>, blocks: seq<Block>, interval: nat, initHeight: nat, alloc: seq<nat>)
    requires Valid(PlaceAll(start))
    requires forall i :: 0 <= i < |blocks| ==>
               Passed(PlaceAll(start + blocks[..i]), blocks[i], Allowance(interval, blocks[i].height, initHeight, alloc))
    ensures Valid(PlaceAll(start + blocks))
    ensures Total(PlaceAll(start + blocks)) <= Total(PlaceAll(start)) + Allowances(interval, initHeight, alloc, blocks)
  {
    hide Total, PlaceAll, Allowance, Valid, Passed;
    if blocks == [] {
      assert start + blocks == start;
    } else {
      var n := |blocks| - 1;
      var rest := blocks[..n];
      forall i | 0 <= i < n
        ensures Passed(PlaceAll(start + rest[..i]), rest[i], Allowance(interval, rest[i].height, initHeight, alloc))
      {
        assert rest[..i] == blocks[..i];
      }
      ChainBound(start, rest, interval, initHeight, alloc);
      assert start + rest + [blocks[n]] == start + blocks;
      PassedExtends(start + rest, blocks[n], Allowance(interval, blocks[n].height, initHeight, alloc));
    }
  }

  /** A block that passed extends a valid history and raises the unspent value by at most its allowance. */
  lemma PassedExtends(chain: seq<Block>, b: Block, allowance: nat)
    requires Valid(PlaceAll(chain)) && Passed(PlaceAll(chain), b, allowance)
    ensures Valid(PlaceAll(chain + [b])) && Total(PlaceAll(chain + [b])) <= Total(PlaceAll(chain)) + allowance
  {
    hide Valid, Total, PlaceAll, Checked, CountedFees, Sum;
    var hist := PlaceAll(chain);
    var e, pooling, fees: nat :| PassedWith(hist, |hist|, hist, b, allowance, e, pooling, fees);
    Accepted(PlaceAll(chain), b, e, pooling, fees, allowance);
    PlaceAllSnoc(chain, b);
  }

  /** Every block of the branch passed where it stands. */
  ghost predicate BranchPassed(base: seq<Block>, detach: seq<Block>, attach: seq<Block>,
                               interval: nat, initHeight: nat, alloc: seq<nat>)
    requires Undoes(base, detach)
  {
    forall i :: 0 <= i < |attach| ==>
      PassedOn(MainChain(base, detach), |PlaceAll(base)|, PlaceAll(base + attach[..i]), attach[i],
               Allowance(interval, attach[i].height, initHeight, alloc))
  }

  /** A branch whose blocks all passed, in step or not: every transaction of it passes as far as the store shows, and its
      unspent value is at most that of the fork and its allowances. */
  lemma {:induction false} BranchBound(base: seq<Block>, detach: seq<Block>, attach: seq<Block>,
                                       interval: nat, initHeight: nat, alloc: seq<nat>)
    requires Undoes(base, detach) && BranchPassed(base, detach, attach, interval, initHeight, alloc)
    ensures BranchShown(MainChain(base, detach), |PlaceAll(base)|, PlaceAll(base + attach))
    ensures Total(Strip(|PlaceAll(base)|, PlaceAll(base + attach))) <=
            Total(PlaceAll(base)) + Allowances(interval, initHeight, alloc, attach)
    decreases attach
  {
    hide Total, PlaceAll, Allowance, PassedOn, MainChain, Strip, SeenExtends;
    var main, n := MainChain(base, detach), |PlaceAll(base)|;
    if attach == [] {
      assert base + attach == base;
      StripTotal(n, PlaceAll(base));
    } else {
      var m := |attach| - 1;
      var rest, b := attach[..m], attach[m];
      forall i | 0 <= i < m
        ensures PassedOn(main, n, PlaceAll(base + rest[..i]), rest[i],
                         Allowance(interval, rest[i].height, initHeight, alloc))
      {
        assert rest[..i] == attach[..i];
      }
      BranchBound(base, detach, rest, interval, initHeight, alloc);
      BaseIsPrefix(base, rest);
      assert base + rest + [b] == base + attach;
      PlaceAllSnoc(base + rest, b);
      PassedOnBranch(main, n, PlaceAll(base + rest), b, Allowance(interval, b.height, initHeight, alloc));
      ShownSnoc(main, n, PlaceAll(base + rest), b);
    }
  }

  lemma ShownSnoc(main: seq<Placed>, n: nat, hist: seq<Placed>, b: Block)
    requires n <= |main| && BranchShown(main, n, hist) && ShownAll(main, n, hist, b)
    ensures BranchShown(main, n, hist + Place(b.txs, b.height))
  {
    hide SeenExtends;
    var all := hist + Place(b.txs, b.height);
    forall k | n <= k < |all|
      ensures SeenExtends(main, n, all[..k], all[k])
    {
      if k < |hist| {
        assert all[..k] == hist[..k];
      } else {
        var i := k - |hist|;
        assert SeenExtends(main, n, Before(hist, b, i), Placed(b.txs[i], b.height));
        assert all[..k] == Before(hist, b, i);
      }
    }
  }
}
