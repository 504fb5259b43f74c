/** The unspent value of a history, and how one transaction changes it. */
module Supply {
  import opened Ledger

  function Sum(values: seq<nat>): nat {
    if values == [] then 0 else Sum(values[..|values| - 1]) + values[|values| - 1]
  }

  /** The value of the outputs whose flag is not set. */
  function UnspentSum(outs: seq<nat>, spent: seq<bool>): nat
    requires |outs| == |spent|
  {
    if outs == [] then 0
    else UnspentSum(outs[..|outs| - 1], spent[..|outs| - 1]) + (if spent[|outs| - 1] then 0 else outs[|outs| - 1])
  }

  ghost predicate Shaped(d: TxData) {
    d.Found? ==> |d.spent| == |d.tx.outs|
  }

  function Left(d: TxData): nat {
    if d.Found? && |d.spent| == |d.tx.outs| then UnspentSum(d.tx.outs, d.spent) else 0
  }

  lemma ViewShaped(hist: seq<Placed>, h: Hash)
    ensures Shaped(View(hist, h))
  {
  }

  /** What position j still holds when the outputs in ops count as spent too. */
  ghost function Holding(hist: seq<Placed>, ops: seq<OutPoint>, j: nat): nat
    requires j < |hist|
  {
    var h := hist[j].tx.id;
    if Latest(hist, h) == Some(j) then Left(Mark(View(hist, h), h, ops)) else 0
  }

  ghost function HoldingUpTo(hist: seq<Placed>, ops: seq<OutPoint>, n: nat): nat
    requires n <= |hist|
  {
    if n == 0 then 0 else HoldingUpTo(hist, ops, n - 1) + Holding(hist, ops, n - 1)
  }

  /** The total unspent value: the latest transaction of every hash with what is not yet spent of it. */
  ghost function Total(hist: seq<Placed>): nat {
    HoldingUpTo(hist, [], |hist|)
  }

  /** The value of an output named by an outpoint. */
  ghost function ValueOf(hist: seq<Placed>, op: OutPoint): nat {
    var d := View(hist, op.hash);
    if d.Found? && op.index < |d.tx.outs| then d.tx.outs[op.index] else 0
  }

  ghost function ValueOfAll(hist: seq<Placed>, ops: seq<OutPoint>): nat {
    if ops == [] then 0 else ValueOfAll(hist, ops[..|ops| - 1]) + ValueOf(hist, ops[|ops| - 1])
  }

  lemma {:induction false} UnspentFlip(outs: seq<nat>, spent: seq<bool>, i: nat)
    requires |outs| == |spent| && i < |outs| && !spent[i]
    ensures UnspentSum(outs, spent) == UnspentSum(outs, spent[i := true]) + outs[i]
  {
    var n := |outs| - 1;
    if i == n {
      assert spent[i := true][..n] == spent[..n];
    } else {
      UnspentFlip(outs[..n], spent[..n], i);
      assert spent[i := true][..n] == spent[..n][i := true];
    }
  }

  lemma {:induction false} UnspentAll(outs: seq<nat>, spent: seq<bool>)
    requires |outs| == |spent|
    ensures (forall i :: 0 <= i < |spent| ==> spent[i]) ==> UnspentSum(outs, spent) == 0
    ensures (forall i :: 0 <= i < |spent| ==> !spent[i]) ==> UnspentSum(outs, spent) == Sum(outs)
  {
    if outs != [] {
      UnspentAll(outs[..|outs| - 1], spent[..|outs| - 1]);
    }
  }

  /** One more spent output takes its value from the position that holds it, and from no other. */
  lemma HoldingSpent(hist: seq<Placed>, ops: seq<OutPoint>, op: OutPoint, j: nat)
    requires j < |hist| && Spendable(View(hist, op.hash), op.index) && op !in ops
    ensures Holding(hist, ops, j) ==
            Holding(hist, ops + [op], j) + if Latest(hist, op.hash) == Some(j) then ValueOf(hist, op) else 0
  {
    var h := hist[j].tx.id;
    var d := View(hist, h);
    ViewShaped(hist, h);
    MarkMore(d, h, ops, op);
    if Latest(hist, h) == Some(j) && op.hash == h {
      var m := Mark(d, h, ops);
      UnspentFlip(d.tx.outs, m.spent, op.index);
    }
  }

  lemma {:induction false} UpToSpent(hist: seq<Placed>, ops: seq<OutPoint>, op: OutPoint, n: nat)
    requires n <= |hist| && Spendable(View(hist, op.hash), op.index) && op !in ops
    ensures HoldingUpTo(hist, ops, n) == HoldingUpTo(hist, ops + [op], n) +
            if Latest(hist, op.hash).Some? && Latest(hist, op.hash).value < n then ValueOf(hist, op) else 0
  {
    hide View, Holding, ValueOf;
    if n > 0 {
      UpToSpent(hist, ops, op, n - 1);
      HoldingSpent(hist, ops, op, n - 1);
    }
  }

  /** Spending distinct unspent outputs removes exactly their value. */
  lemma {:induction false} SpendAll(hist: seq<Placed>, ops: seq<OutPoint>)
    requires Distinct(ops) && forall op :: op in ops ==> Spendable(View(hist, op.hash), op.index)
    ensures HoldingUpTo(hist, ops, |hist|) + ValueOfAll(hist, ops) == Total(hist)
  {
    if ops != [] {
      var n := |ops| - 1;
      var op := ops[n];
      var rest := ops[..n];
      assert op in ops && rest + [op] == ops;
      SpendAll(hist, rest);
      assert op !in rest;
      SpendableIsLatest(hist, op);
      UpToSpent(hist, rest, op, |hist|);
    }
  }

  lemma SpendableIsLatest(hist: seq<Placed>, op: OutPoint)
    requires Spendable(View(hist, op.hash), op.index)
    ensures Latest(hist, op.hash).Some?
  {
  }

  /** After one more transaction every older position holds at most what is left when its inputs count as spent; exactly
      that, when the transaction overwrites nothing unspent. */
  lemma HoldingSnoc(hist: seq<Placed>, p: Placed, j: nat)
    requires j < |hist|
    ensures Holding(hist + [p], [], j) <= Holding(hist, Spends(p.tx), j)
    ensures FullySpent(View(hist, p.tx.id)) ==> Holding(hist + [p], [], j) == Holding(hist, Spends(p.tx), j)
  {
    var all := hist + [p];
    var h := hist[j].tx.id;
    assert all[..|hist|] == hist && all[j] == hist[j];
    ViewSnoc(hist, p, h);
    MarkNone(View(all, h), h);
    ViewShaped(hist, h);
    if h == p.tx.id {
      assert Latest(all, h) == Some(|hist|);
      var m := Mark(View(hist, h), h, Spends(p.tx));
      if m.Found? && |m.spent| == |m.tx.outs| {
        UnspentAll(m.tx.outs, m.spent);
      }
    } else {
      assert Latest(all, h) == Latest(hist, h);
    }
  }

  lemma {:induction false} UpToSnoc(hist: seq<Placed>, p: Placed, n: nat)
    requires n <= |hist|
    ensures HoldingUpTo(hist + [p], [], n) <= HoldingUpTo(hist, Spends(p.tx), n)
    ensures FullySpent(View(hist, p.tx.id)) ==> HoldingUpTo(hist + [p], [], n) == HoldingUpTo(hist, Spends(p.tx), n)
  {
    hide View, Holding;
    if n > 0 {
      UpToSnoc(hist, p, n - 1);
      HoldingSnoc(hist, p, n - 1);
    }
  }

  /** The new transaction holds all its outputs. */
  lemma HoldingNew(hist: seq<Placed>, p: Placed)
    ensures Holding(hist + [p], [], |hist|) == Sum(p.tx.outs)
  {
    var all := hist + [p];
    ViewSnoc(hist, p, p.tx.id);
    assert Latest(all, p.tx.id) == Some(|hist|);
    MarkNone(Fresh(p), p.tx.id);
    UnspentAll(p.tx.outs, Fresh(p).spent);
  }

  /** Conservation: a valid transaction adds its outputs and removes its inputs, exactly. */
  lemma Conservation(hist: seq<Placed>, p: Placed)
    requires Extends(hist, p)
    ensures Total(hist + [p]) + ValueOfAll(hist, Spends(p.tx)) == Total(hist) + Sum(p.tx.outs)
  {
    hide View, Holding, ValueOfAll;
    SpendAll(hist, Spends(p.tx));
    UpToSnoc(hist, p, |hist|);
    HoldingNew(hist, p);
    assert |hist + [p]| == |hist| + 1;
  }

  /** Without the rule against overwriting, it adds at most its outputs less its inputs. */
  lemma ConservationAtMost(hist: seq<Placed>, p: Placed)
    requires Distinct(Spends(p.tx)) && forall op :: op in Spends(p.tx) ==> Spendable(View(hist, op.hash), op.index)
    ensures Total(hist + [p]) + ValueOfAll(hist, Spends(p.tx)) <= Total(hist) + Sum(p.tx.outs)
  {
    hide View, Holding, ValueOfAll;
    SpendAll(hist, Spends(p.tx));
    UpToSnoc(hist, p, |hist|);
    HoldingNew(hist, p);
    assert |hist + [p]| == |hist| + 1;
  }
}
