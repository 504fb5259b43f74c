/** Branches whose blocks were checked against what the transaction store shows: when they are valid, and what they hold. */
module Branches {
  import opened Ledger
  import opened Supply
  import opened TxLookup

  /** The transaction may follow as far as the store shows: like Ledger.Extends, with Seen in place of the view. */
  ghost predicate SeenExtends(main: seq<Placed>, n: nat, hist: seq<Placed>, p: Placed)
    requires n <= |main|
  {
    && 1 <= |p.tx.outs| <= MAX_INDEX
    && Distinct(Spends(p.tx))
    && (forall op :: op in Spends(p.tx) ==> Spendable(Seen(main, n, hist, op.hash), op.index))
    && FullySpent(Seen(main, n, hist, p.tx.id))
    && (forall k :: 0 <= k < |hist| ==> hist[k].height <= p.height)
    && (forall k :: 0 <= k < |hist| && hist[k].tx.id == p.tx.id ==> hist[k].height < p.height)
  }

  // ----- when a branch is valid

  /** The coinbase at position m spends the output, and no later transaction has placed its hash again. */
  ghost predicate CoinbaseSpends(hist: seq<Placed>, m: nat, op: OutPoint)
    requires m < |hist|
  {
    IsCoinBase(hist[m].tx) && op in Spends(hist[m].tx) && Latest(hist, op.hash).Some? && Latest(hist, op.hash).value < m
  }

  /** The transaction spends what an earlier coinbase of the branch has spent. */
  ghost predicate SpendsAgain(hist: seq<Placed>, n: nat, t: Tx) {
    exists m, op :: n <= m < |hist| && CoinbaseSpends(hist, m, op) && op in Spends(t)
  }

  /** Of the latest transaction of that hash, every output an undone coinbase left marked is spent. */
  ghost predicate LeftSpent(main: seq<Placed>, n: nat, hist: seq<Placed>, h: Hash)
    requires n <= |main|
  {
    var l := Latest(hist, h);
    l.Some? && l.value < n ==>
      forall i: nat :: i < |hist[l.value].tx.outs| && OutPoint(h, i) in CoinbaseLeft(main, n, h) ==>
        SpentAfter(hist, l.value, OutPoint(h, i))
  }

  /** A transaction that the store lets pass is valid exactly when it spends nothing again and, should it repeat a hash,
      all that undone coinbases left marked there is spent. */
  lemma ExtendsExactly(main: seq<Placed>, n: nat, hist: seq<Placed>, p: Placed)
    requires n <= |main| && SeenExtends(main, n, hist, p)
    ensures Extends(hist, p) <==> !SpendsAgain(hist, n, p.tx) && LeftSpent(main, n, hist, p.tx.id)
  {
    hide Seen, View, Spends, Distinct, CoinbaseLeft, SpendsAgain, LeftSpent;
    SpendableExactly(main, n, hist, p.tx);
    FullyExactly(main, n, hist, p.tx.id);
  }

  lemma SpendableExactly(main: seq<Placed>, n: nat, hist: seq<Placed>, t: Tx)
    requires n <= |main| && forall op :: op in Spends(t) ==> Spendable(Seen(main, n, hist, op.hash), op.index)
    ensures (forall op :: op in Spends(t) ==> Spendable(View(hist, op.hash), op.index)) <==> !SpendsAgain(hist, n, t)
  {
    hide Seen, View, Spends, CoinbaseSpends;
    forall op | op in Spends(t)
      ensures Spendable(View(hist, op.hash), op.index) <==>
              !exists m :: n <= m < |hist| && CoinbaseSpends(hist, m, op)
    {
      SpendableAt(main, n, hist, op);
    }
  }

  lemma SpendableAt(main: seq<Placed>, n: nat, hist: seq<Placed>, op: OutPoint)
    requires n <= |main| && Spendable(Seen(main, n, hist, op.hash), op.index)
    ensures Spendable(View(hist, op.hash), op.index) <==> !exists m :: n <= m < |hist| && CoinbaseSpends(hist, m, op)
  {
    hide CoinbaseLeft, Spends, Latest;
    var j := Latest(hist, op.hash).value;
    assert OutPoint(op.hash, op.index) == op;
    assert !MarkedAfter(hist, n, j, op);
    if SpentAfter(hist, j, op) {
      var m :| j < m < |hist| && op in Spends(hist[m].tx);
      NotMarked(hist, n, j, m, op);
      assert CoinbaseSpends(hist, m, op);
    }
  }

  /** A spending transaction that leaves no mark is a coinbase of the branch. */
  lemma NotMarked(hist: seq<Placed>, n: nat, j: nat, m: nat, op: OutPoint)
    requires j < m < |hist| && op in Spends(hist[m].tx) && !MarkedAfter(hist, n, j, op)
    ensures n <= m && IsCoinBase(hist[m].tx)
  {
    assert op !in Marks(hist, n, m);
  }

  lemma FullyExactly(main: seq<Placed>, n: nat, hist: seq<Placed>, h: Hash)
    requires n <= |main| && FullySpent(Seen(main, n, hist, h))
    ensures FullySpent(View(hist, h)) <==> LeftSpent(main, n, hist, h)
  {
    hide CoinbaseLeft, Spends, Latest;
    if Latest(hist, h).Some? {
      var j := Latest(hist, h).value;
      var s, v := Seen(main, n, hist, h), View(hist, h);
      forall i: nat | i < |hist[j].tx.outs|
        ensures (j < n && OutPoint(h, i) in CoinbaseLeft(main, n, h)) || SpentAfter(hist, j, OutPoint(h, i))
        ensures v.spent[i] == SpentAfter(hist, j, OutPoint(h, i))
      {
        assert s.spent[i];
        if MarkedAfter(hist, n, j, OutPoint(h, i)) {
          MarkedIsSpent(hist, n, j, OutPoint(h, i));
        }
      }
    }
  }

  /** Every transaction of the branch spends nothing again and repeats no hash with unspent leftovers. */
  ghost predicate BranchSound(main: seq<Placed>, n: nat, hist: seq<Placed>)
    requires n <= |main|
  {
    forall k :: n <= k < |hist| ==> SoundAt(main, n, hist, k)
  }

  ghost predicate SoundAt(main: seq<Placed>, n: nat, hist: seq<Placed>, k: nat)
    requires n <= |main| && k < |hist|
  {
    !SpendsAgain(hist[..k], n, hist[k].tx) && LeftSpent(main, n, hist[..k], hist[k].tx.id)
  }

  /** The transactions of the branch all pass as far as the store shows. */
  ghost predicate BranchShown(main: seq<Placed>, n: nat, hist: seq<Placed>)
    requires n <= |main|
  {
    forall k :: n <= k < |hist| ==> SeenExtends(main, n, hist[..k], hist[k])
  }

  /** The exact condition for a branch that passed to be valid. */
  lemma BranchValid(main: seq<Placed>, n: nat, hist: seq<Placed>)
    requires Valid(main) && n <= |main| && n <= |hist| && hist[..n] == main[..n] && BranchShown(main, n, hist)
    ensures Valid(hist) <==> BranchSound(main, n, hist)
  {
    hide Extends, SeenExtends, SpendsAgain, LeftSpent;
    forall k | 0 <= k < n
      ensures Extends(hist[..k], hist[k])
    {
      assert hist[k] == hist[..n][k] == main[..n][k];
      assert hist[..k] == hist[..n][..k] == main[..n][..k] == main[..k];
      ValidAt(main, k);
    }
    forall k | n <= k < |hist|
      ensures Extends(hist[..k], hist[k]) <==> SoundAt(main, n, hist, k)
    {
      ExtendsExactly(main, n, hist[..k], hist[k]);
    }
  }

  // ----- what a branch holds

  /** The transaction without the further inputs of a coinbase. */
  function Bare(t: Tx): Tx {
    if IsCoinBase(t) then t.(ins := t.ins[..1]) else t
  }

  /** The history in which the coinbases of the branch have no further inputs. */
  function Strip(n: nat, hist: seq<Placed>): (r: seq<Placed>)
    ensures |r| == |hist|
    ensures forall k :: 0 <= k < |hist| ==> r[k] == if k < n then hist[k] else Placed(Bare(hist[k].tx), hist[k].height)
  {
    seq(|hist|, k requires 0 <= k < |hist| => if k < n then hist[k] else Placed(Bare(hist[k].tx), hist[k].height))
  }

  lemma BareSpends(t: Tx)
    ensures Spends(Bare(t)) == Ordinary(t)
  {
  }

  lemma StripSnoc(n: nat, hist: seq<Placed>, p: Placed)
    requires n <= |hist|
    ensures Strip(n, hist + [p]) == Strip(n, hist) + [Placed(Bare(p.tx), p.height)]
  {
  }

  lemma {:induction false} StripLatest(n: nat, hist: seq<Placed>, h: Hash)
    ensures Latest(Strip(n, hist), h) == Latest(hist, h)
  {
    hide Strip;
    if hist != [] {
      var k := |hist| - 1;
      StripLatest(n, hist[..k], h);
      assert Strip(n, hist)[..k] == Strip(n, hist[..k]);
    }
  }

  lemma StripSpent(n: nat, hist: seq<Placed>, j: nat, op: OutPoint)
    ensures SpentAfter(Strip(n, hist), j, op) <==> MarkedAfter(hist, n, j, op)
  {
    hide Spends, Ordinary, Strip;
    forall k | 0 <= k < |hist|
      ensures Spends(Strip(n, hist)[k].tx) == Marks(hist, n, k)
    {
      BareSpends(hist[k].tx);
    }
    if MarkedAfter(hist, n, j, op) {
      var k :| j < k < |hist| && op in Marks(hist, n, k);
      assert op in Spends(Strip(n, hist)[k].tx);
    }
    if SpentAfter(Strip(n, hist), j, op) {
      var k :| j < k < |hist| && op in Spends(Strip(n, hist)[k].tx);
      assert op in Marks(hist, n, k);
    }
  }

  /** What the store shows as unspent is unspent in the stripped history. */
  lemma StripSpendable(main: seq<Placed>, n: nat, hist: seq<Placed>, op: OutPoint)
    requires n <= |main| && Spendable(Seen(main, n, hist, op.hash), op.index)
    ensures Spendable(View(Strip(n, hist), op.hash), op.index)
  {
    hide CoinbaseLeft, Strip, Latest, MarkedAfter, SpentAfter;
    StripLatest(n, hist, op.hash);
    var j := Latest(hist, op.hash).value;
    StripSpent(n, hist, j, OutPoint(op.hash, op.index));
  }

  lemma StripValue(n: nat, hist: seq<Placed>, op: OutPoint)
    ensures ValueOf(Strip(n, hist), op) == ValueOf(hist, op)
  {
    hide Strip, Latest, SpentAfter;
    StripLatest(n, hist, op.hash);
  }

  lemma {:induction false} StripValues(n: nat, hist: seq<Placed>, ops: seq<OutPoint>)
    ensures ValueOfAll(Strip(n, hist), ops) == ValueOfAll(hist, ops)
  {
    hide Strip, ValueOf;
    if ops != [] {
      StripValues(n, hist, ops[..|ops| - 1]);
      StripValue(n, hist, ops[|ops| - 1]);
    }
  }

  /** More spent flags leave less. */
  lemma {:induction false} UnspentLess(outs: seq<nat>, more: seq<bool>, less: seq<bool>)
    requires |outs| == |more| == |less| && forall i :: 0 <= i < |less| && less[i] ==> more[i]
    ensures UnspentSum(outs, more) <= UnspentSum(outs, less)
  {
    if outs != [] {
      UnspentLess(outs[..|outs| - 1], more[..|outs| - 1], less[..|outs| - 1]);
    }
  }

  lemma StripHolding(n: nat, hist: seq<Placed>, j: nat)
    requires j < |hist|
    ensures Holding(hist, [], j) <= Holding(Strip(n, hist), [], j)
  {
    hide Strip, Latest, SpentAfter, MarkedAfter, UnspentSum;
    var h := hist[j].tx.id;
    StripLatest(n, hist, h);
    if Latest(hist, h) == Some(j) {
      var v, s := View(hist, h), View(Strip(n, hist), h);
      MarkNone(v, h);
      MarkNone(s, h);
      forall i | 0 <= i < |v.spent| && s.spent[i]
        ensures v.spent[i]
      {
        StripSpent(n, hist, j, OutPoint(h, i));
        MarkedIsSpent(hist, n, j, OutPoint(h, i));
      }
      UnspentLess(v.tx.outs, v.spent, s.spent);
    }
  }

  lemma {:induction false} StripUpTo(n: nat, hist: seq<Placed>, m: nat)
    requires m <= |hist|
    ensures HoldingUpTo(hist, [], m) <= HoldingUpTo(Strip(n, hist), [], m)
  {
    hide Strip, Holding;
    if m > 0 {
      StripUpTo(n, hist, m - 1);
      StripHolding(n, hist, m - 1);
    }
  }

  /** The stripped history holds at least as much, and the same when there is no branch. */
  lemma StripTotal(n: nat, hist: seq<Placed>)
    ensures Total(hist) <= Total(Strip(n, hist))
    ensures |hist| <= n ==> Strip(n, hist) == hist
  {
    StripUpTo(n, hist, |hist|);
  }

  /** One transaction of the branch adds at most its outputs less its ordinary inputs. */
  lemma BranchStep(main: seq<Placed>, n: nat, hist: seq<Placed>, p: Placed)
    requires n <= |main| && n <= |hist| && SeenExtends(main, n, hist, p)
    ensures Total(Strip(n, hist + [p])) + ValueOfAll(hist, Ordinary(p.tx)) <= Total(Strip(n, hist)) + Sum(p.tx.outs)
  {
    hide Seen, View, Strip, Total, ValueOfAll, Sum, Spends, Ordinary;
    var q := Placed(Bare(p.tx), p.height);
    StripSnoc(n, hist, p);
    BareSpends(p.tx);
    OrdinaryInSpends(p.tx);
    forall op | op in Ordinary(p.tx)
      ensures Spendable(View(Strip(n, hist), op.hash), op.index)
    {
      StripSpendable(main, n, hist, op);
    }
    ConservationAtMost(Strip(n, hist), q);
    StripValues(n, hist, Ordinary(p.tx));
  }

  lemma OrdinaryInSpends(t: Tx)
    ensures (forall op :: op in Ordinary(t) ==> op in Spends(t)) && (Distinct(Spends(t)) ==> Distinct(Ordinary(t)))
    ensures Bare(t).outs == t.outs
  {
  }
}
