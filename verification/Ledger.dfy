/** Transactions, blocks, and the view of a history of transactions. */
module Ledger {
  type Hash = nat

  const ZERO_HASH: Hash := 0
  const MAX_INDEX: nat := 0xFFFF_FFFF

  datatype OutPoint = OutPoint(hash: Hash, index: nat)
  datatype Tx = Tx(id: Hash, ins: seq<OutPoint>, outs: seq<nat>)
  datatype Block = Block(height: nat, txs: seq<Tx>)

  /** A transaction whose first input is the null outpoint; further inputs are allowed. */
  predicate IsCoinBase(t: Tx) {
    |t.ins| >= 1 && t.ins[0] == OutPoint(ZERO_HASH, MAX_INDEX)
  }

  /** The outputs a transaction consumes: all its inputs, or those after the null input of a coinbase. */
  function Spends(t: Tx): seq<OutPoint> {
    if IsCoinBase(t) then t.ins[1..] else t.ins
  }

  /** The outputs an ordinary transaction consumes; a coinbase counts for nothing here. */
  function Ordinary(t: Tx): seq<OutPoint> {
    if IsCoinBase(t) then [] else t.ins
  }

  /** A transaction and the height of the block that holds it. */
  datatype Placed = Placed(tx: Tx, height: nat)

  function Place(txs: seq<Tx>, height: nat): (r: seq<Placed>)
    ensures |r| == |txs| && forall i :: 0 <= i < |txs| ==> r[i] == Placed(txs[i], height)
  {
    seq(|txs|, i requires 0 <= i < |txs| => Placed(txs[i], height))
  }

  function PlaceAll(blocks: seq<Block>): seq<Placed> {
    if blocks == [] then []
    else PlaceAll(blocks[..|blocks| - 1]) + Place(blocks[|blocks| - 1].txs, blocks[|blocks| - 1].height)
  }

  datatype Option<T> = None | Some(value: T)

  /** The position of the latest transaction with the given hash. */
  function Latest(hist: seq<Placed>, h: Hash): (r: Option<nat>)
    ensures r.Some? ==> r.value < |hist| && hist[r.value].tx.id == h
    ensures forall k :: 0 <= k < |hist| && hist[k].tx.id == h ==> r.Some? && k <= r.value
  {
    if hist == [] then None
    else if hist[|hist| - 1].tx.id == h then Some(|hist| - 1)
    else Latest(hist[..|hist| - 1], h)
  }

  ghost predicate SpentAfter(hist: seq<Placed>, j: nat, op: OutPoint) {
    exists k :: j < k < |hist| && op in Spends(hist[k].tx)
  }

  /** What a store knows about a transaction: where it is and which of its outputs are spent. */
  datatype TxData = Missing | Found(tx: Tx, height: nat, spent: seq<bool>)

  /** The view after a history: the latest transaction of that hash with the outputs consumed since. */
  ghost function View(hist: seq<Placed>, h: Hash): TxData {
    match Latest(hist, h)
    case None => Missing
    case Some(j) =>
      Found(hist[j].tx, hist[j].height, seq(|hist[j].tx.outs|, i requires 0 <= i => SpentAfter(hist, j, OutPoint(h, i))))
  }

  predicate AllSpent(spent: seq<bool>) {
    forall i :: 0 <= i < |spent| ==> spent[i]
  }

  predicate FullySpent(d: TxData) { d.Missing? || AllSpent(d.spent) }

  predicate Spendable(d: TxData, i: nat) {
    d.Found? && i < |d.spent| && !d.spent[i]
  }

  predicate Distinct(s: seq<OutPoint>) {
    forall i, j :: 0 <= i < j < |s| ==> s[i] != s[j]
  }

  /** The transaction may follow the history: it spends unspent outputs, each once, repeats a hash only when
      that transaction is fully spent, and never one of its own height. */
  ghost predicate Extends(hist: seq<Placed>, p: Placed) {
    && 1 <= |p.tx.outs| <= MAX_INDEX
    && Distinct(Spends(p.tx))
    && (forall op :: op in Spends(p.tx) ==> Spendable(View(hist, op.hash), op.index))
    && FullySpent(View(hist, p.tx.id))
    && (forall k :: 0 <= k < |hist| ==> hist[k].height <= p.height)
    && (forall k :: 0 <= k < |hist| && hist[k].tx.id == p.tx.id ==> hist[k].height < p.height)
  }

  ghost predicate Valid(hist: seq<Placed>) {
    forall j :: 0 <= j < |hist| ==> Extends(hist[..j], hist[j])
  }

  // ----- how the view changes with one more transaction

  /** A newly made slice of flags. */
  function NoneSpent(n: nat): (r: seq<bool>)
    ensures |r| == n && forall i :: 0 <= i < n ==> !r[i]
  {
    seq(n, _ => false)
  }

  function Fresh(p: Placed): TxData {
    Found(p.tx, p.height, NoneSpent(|p.tx.outs|))
  }

  function Mark(d: TxData, h: Hash, ops: seq<OutPoint>): (r: TxData)
    ensures r.Found? == d.Found?
    ensures r.Found? ==> |r.spent| == |d.spent| && r.tx == d.tx && r.height == d.height
    ensures r.Found? ==> forall i :: 0 <= i < |r.spent| ==> r.spent[i] == (d.spent[i] || OutPoint(h, i) in ops)
  {
    match d
    case Missing => Missing
    case Found(tx, height, spent) =>
      Found(tx, height, seq(|spent|, i requires 0 <= i < |spent| => spent[i] || OutPoint(h, i) in ops))
  }

  lemma SpentAfterSnoc(hist: seq<Placed>, p: Placed, j: nat, op: OutPoint)
    requires j < |hist|
    ensures SpentAfter(hist + [p], j, op) <==> SpentAfter(hist, j, op) || op in Spends(p.tx)
  {
    var all := hist + [p];
    if SpentAfter(hist, j, op) {
      var k :| j < k < |hist| && op in Spends(hist[k].tx);
      assert all[k] == hist[k];
    }
    if op in Spends(p.tx) {
      assert all[|hist|] == p;
    }
  }

  /** One more transaction: its own entry is fresh, every other entry is marked with what it spends. */
  lemma ViewSnoc(hist: seq<Placed>, p: Placed, h: Hash)
    ensures View(hist + [p], h) == if p.tx.id == h then Fresh(p) else Mark(View(hist, h), h, Spends(p.tx))
  {
    var all := hist + [p];
    assert all[..|hist|] == hist;
    if p.tx.id == h {
      var v := View(all, h);
      assert Latest(all, h) == Some(|hist|);
      assert v.spent == Fresh(p).spent;
    } else if Latest(hist, h).Some? {
      var j := Latest(hist, h).value;
      var l, r := View(all, h), Mark(View(hist, h), h, Spends(p.tx));
      forall i | 0 <= i < |l.spent|
        ensures l.spent[i] == r.spent[i]
      {
        SpentAfterSnoc(hist, p, j, OutPoint(h, i));
      }
      assert l.spent == r.spent;
    }
  }

  lemma MarkNone(d: TxData, h: Hash)
    ensures Mark(d, h, []) == d
  {
    if d.Found? {
      assert Mark(d, h, []).spent == d.spent;
    }
  }

  lemma MarkMore(d: TxData, h: Hash, ops: seq<OutPoint>, op: OutPoint)
    ensures op.hash != h ==> Mark(d, h, ops + [op]) == Mark(d, h, ops)
    ensures op.hash == h && d.Found? && op.index < |d.spent| ==>
              var m := Mark(d, h, ops);
              Mark(d, h, ops + [op]) == m.(spent := m.spent[op.index := true])
    ensures op.hash == h && d.Found? && op.index >= |d.spent| ==> Mark(d, h, ops + [op]) == Mark(d, h, ops)
  {
    if d.Found? {
      var m, n := Mark(d, h, ops), Mark(d, h, ops + [op]);
      if op.hash != h || op.index >= |d.spent| {
        assert n.spent == m.spent;
      } else {
        assert n.spent == m.spent[op.index := true];
      }
    }
  }

  lemma ValidPrefix(hist: seq<Placed>, n: nat)
    requires Valid(hist) && n <= |hist|
    ensures Valid(hist[..n])
  {
    forall j | 0 <= j < n
      ensures Extends(hist[..n][..j], hist[..n][j])
    {
      assert hist[..n][..j] == hist[..j];
    }
  }

  /** A valid transaction does not spend from its own hash. */
  lemma NoSelfSpend(hist: seq<Placed>, p: Placed, i: nat)
    requires Extends(hist, p)
    ensures OutPoint(p.tx.id, i) !in Spends(p.tx)
  {
  }
}
