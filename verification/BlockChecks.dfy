/** The input and coinbase checks of a block, and the bound they put on the unspent value. */
module BlockChecks {
  import opened Ledger
  import opened Supply
  import opened Subsidies
  import opened TxLookup
  import opened Branches

  const COINBASE_MATURITY: nat := 10
  const TRANSACTION_MATURITY: nat := 1

  // ----- one transaction

  function MarkAll(e: Entries, ops: seq<OutPoint>): (r: Entries)
    ensures r.Keys == e.Keys && forall h :: h in e ==> r[h] == Mark(e[h], h, ops)
  {
    map h | h in e :: Mark(e[h], h, ops)
  }

  lemma MarkAllNone(e: Entries)
    ensures MarkAll(e, []) == e
  {
    forall h | h in e
      ensures Mark(e[h], h, []) == e[h]
    {
      MarkNone(e[h], h);
    }
  }

  /** Marking one more output that the entries have. */
  lemma MarkAllMore(e: Entries, ops: seq<OutPoint>, op: OutPoint)
    requires op.hash in e && e[op.hash].Found? && op.index < |e[op.hash].spent|
    ensures var m := MarkAll(e, ops);
            m[op.hash].Found? && op.index < |m[op.hash].spent| &&
            MarkAll(e, ops + [op]) == m[op.hash := m[op.hash].(spent := m[op.hash].spent[op.index := true])]
  {
    var m, n := MarkAll(e, ops), MarkAll(e, ops + [op]);
    forall h | h in e
      ensures n[h] == if h == op.hash then m[h].(spent := m[h].spent[op.index := true]) else m[h]
    {
      MarkMore(e[h], h, ops, op);
    }
  }

  /** Coins of a coinbase wait for maturity; its pooling outputs after the first only for one block. */
  predicate Mature(d: TxData, height: nat, op: OutPoint, spenderIsCoinbase: bool, pooling: set<OutPoint>)
    requires d.Found?
  {
    var since := if height > d.height then height - d.height else 0;
    if IsCoinBase(d.tx) then
      since >= COINBASE_MATURITY || (op in pooling && op.index > 0 && since >= TRANSACTION_MATURITY)
    else
      !spenderIsCoinbase || since >= TRANSACTION_MATURITY
  }

  /** The output exists, is not spent and is worth v. */
  predicate Pays(d: TxData, i: nat, v: nat) {
    Spendable(d, i) && i < |d.tx.outs| && d.tx.outs[i] == v
  }

  ghost predicate AllShaped(e: Entries) {
    forall h :: h in e ==> Shaped(e[h])
  }

  /** Input m of the transaction can be spent when the outputs in seen were spent before. */
  predicate InputGood(e: Entries, seen: seq<OutPoint>, t: Tx, m: nat, height: nat, pooling: set<OutPoint>)
    requires m < |t.ins|
  {
    var op := t.ins[m];
    && op.hash in e && e[op.hash].Found? && Mature(e[op.hash], height, op, false, pooling)
    && Spendable(e[op.hash], op.index) && op !in seen + t.ins[..m]
  }

  /** What the inputs are worth. */
  function InputValues(e: Entries, ops: seq<OutPoint>): (r: seq<nat>)
    ensures |r| == |ops|
  {
    seq(|ops|, m requires 0 <= m < |ops| => ValueIn(e, ops[m]))
  }

  function ValueIn(e: Entries, op: OutPoint): nat {
    if op.hash in e && e[op.hash].Found? && op.index < |e[op.hash].tx.outs| then e[op.hash].tx.outs[op.index] else 0
  }

  lemma InputValuesSnoc(e: Entries, ops: seq<OutPoint>, m: nat)
    requires m < |ops|
    ensures InputValues(e, ops[..m + 1]) == InputValues(e, ops[..m]) + [ValueIn(e, ops[m])]
    ensures Sum(InputValues(e, ops[..m + 1])) == Sum(InputValues(e, ops[..m])) + ValueIn(e, ops[m])
  {
    var a, b := InputValues(e, ops[..m + 1]), InputValues(e, ops[..m]);
    assert a == b + [ValueIn(e, ops[m])];
    assert a[..m] == b;
  }

  lemma {:induction false} SumPrefix(values: seq<nat>, m: nat)
    requires m <= |values|
    ensures Sum(values[..m]) <= Sum(values)
  {
    if m < |values| {
      SumPrefix(values[..|values| - 1], m);
      assert values[..|values| - 1][..m] == values[..m];
    } else {
      assert values[..m] == values;
    }
  }

  /** A sum of amounts, or nothing when it leaves the range of amounts. */
  method SumAmounts(values: seq<nat>) returns (r: Option<nat>)
    ensures r == if Sum(values) <= MAX_AMOUNT then Some(Sum(values)) else None
  {
    var total := 0;
    for i := 0 to |values|
      invariant total == Sum(values[..i]) <= MAX_AMOUNT
    {
      assert values[..i + 1][..i] == values[..i];
      SumPrefix(values, i + 1);
      total := total + values[i];
      if total > MAX_AMOUNT {
        return None;
      }
    }
    assert values[..|values|] == values;
    r := Some(total);
  }

  /** One input: it must be there, mature and unspent, and is marked; its value is returned. */
  method CheckInput(store: TxStore, t: Tx, m: nat, height: nat, pooling: set<OutPoint>,
                    ghost e: Entries, ghost seen: seq<OutPoint>)
    returns (value: Option<nat>)
    requires m < |t.ins| && store.entries == MarkAll(e, seen + t.ins[..m]) && AllShaped(e)
    modifies store
    ensures value.Some? <==> InputGood(e, seen, t, m, height, pooling)
    ensures value.Some? ==>
              value.value == ValueIn(e, t.ins[m]) && store.entries == MarkAll(e, seen + t.ins[..m + 1])
  {
    hide Mark;
    var op := t.ins[m];
    MarkedInput(e, seen + t.ins[..m], op);
    if op.hash !in store.entries || store.entries[op.hash].Missing? {
      return None;
    }
    var d := store.entries[op.hash];
    if !Mature(d, height, op, false, pooling) {
      return None;
    }
    if op.index >= |d.spent| || d.spent[op.index] {
      return None;
    }
    MarkAllMore(e, seen + t.ins[..m], op);
    assert seen + t.ins[..m + 1] == seen + t.ins[..m] + [op];
    store.entries := store.entries[op.hash := d.(spent := d.spent[op.index := true])];
    value := Some(d.tx.outs[op.index]);
  }

  /** The fee of a transaction is what its inputs are worth beyond its outputs; its inputs are marked. */
  method CheckTransactionInputs(store: TxStore, t: Tx, height: nat, pooling: set<OutPoint>,
                                ghost e: Entries, ghost seen: seq<OutPoint>)
    returns (fee: Option<nat>)
    requires store.entries == MarkAll(e, seen) && AllShaped(e)
    modifies store
    ensures IsCoinBase(t) ==> fee == Some(0) && store.entries == old(store.entries)
    ensures !IsCoinBase(t) ==> (fee.Some? <==> Affordable(e, seen, t, height, pooling))
    ensures !IsCoinBase(t) && fee.Some? ==>
              store.entries == MarkAll(e, seen + t.ins) && fee.value + Sum(t.outs) == Sum(InputValues(e, t.ins))
  {
    hide Mark, MarkAll, AllShaped, Sum, InputGood, InputValues, ValueIn;
    if IsCoinBase(t) {
      return Some(0);
    }
    var total := 0;
    SumOfNone(e);
    assert seen + t.ins[..0] == seen && t.ins[..0] == [];
    for m := 0 to |t.ins|
      invariant store.entries == MarkAll(e, seen + t.ins[..m])
      invariant forall k :: 0 <= k < m ==> InputGood(e, seen, t, k, height, pooling)
      invariant total == Sum(InputValues(e, t.ins[..m])) <= MAX_AMOUNT
    {
      InputValuesSnoc(e, t.ins, m);
      PartialSum(e, t.ins, m + 1);
      var value := CheckInput(store, t, m, height, pooling, e, seen);
      if value.None? {
        return None;
      }
      total := total + value.value;
      if total > MAX_AMOUNT {
        return None;
      }
    }
    assert t.ins[..|t.ins|] == t.ins;
    var totalOut := SumAmounts(t.outs);
    if totalOut.None? || totalOut.value > total {
      return None;
    }
    fee := Some(total - totalOut.value);
  }

  /** Every input can be spent and the inputs, in range, cover the outputs. */
  predicate Affordable(e: Entries, seen: seq<OutPoint>, t: Tx, height: nat, pooling: set<OutPoint>) {
    && (forall m :: 0 <= m < |t.ins| ==> InputGood(e, seen, t, m, height, pooling))
    && Sum(t.outs) <= Sum(InputValues(e, t.ins)) <= MAX_AMOUNT
  }

  lemma SumOfNone(e: Entries)
    ensures Sum(InputValues(e, [])) == 0
  {
  }

  lemma PartialSum(e: Entries, ops: seq<OutPoint>, m: nat)
    requires m <= |ops|
    ensures Sum(InputValues(e, ops[..m])) <= Sum(InputValues(e, ops))
  {
    SumPrefix(InputValues(e, ops), m);
    assert InputValues(e, ops)[..m] == InputValues(e, ops[..m]);
  }

  /** What the marked entry says about an output. */
  lemma MarkedInput(e: Entries, ops: seq<OutPoint>, op: OutPoint)
    requires AllShaped(e)
    ensures op.hash in MarkAll(e, ops) <==> op.hash in e
    ensures op.hash in e ==>
              var d, m := e[op.hash], MarkAll(e, ops)[op.hash];
              && d.Found? == m.Found?
              && (d.Found? ==> d.tx == m.tx && d.height == m.height && |d.spent| == |m.spent| == |d.tx.outs|)
              && (d.Found? && op.index < |d.spent| ==> m.spent[op.index] == (d.spent[op.index] || op in ops))
  {
    if op.hash in e && e[op.hash].Found? {
      assert Shaped(e[op.hash]);
      assert OutPoint(op.hash, op.index) == op;
    }
  }

  // ----- the inputs of a block

  /** What the context-free checks have established. */
  predicate Sane(b: Block) {
    && |b.txs| >= 1 && IsCoinBase(b.txs[0]) && OneCoinBase(b)
    && (forall i, j :: 0 <= i < j < |b.txs| ==> b.txs[i].id != b.txs[j].id)
    && (forall i :: 0 <= i < |b.txs| ==>
          1 <= |b.txs[i].outs| <= MAX_INDEX && Distinct(Spends(b.txs[i])) && !NamesItself(b.txs[i]))
  }

  ghost predicate Above(hist: seq<Placed>, height: nat) {
    forall k :: 0 <= k < |hist| ==> hist[k].height < height
  }

  method InFlight(b: Block) returns (m: map<Hash, nat>)
    requires Sane(b)
    ensures forall i :: 0 <= i < |b.txs| ==> b.txs[i].id in m && m[b.txs[i].id] == i
    ensures forall h :: h in m ==> m[h] < |b.txs| && b.txs[m[h]].id == h
  {
    m := map[];
    for i := 0 to |b.txs|
      invariant forall k :: 0 <= k < i ==> b.txs[k].id in m && m[b.txs[k].id] == k
      invariant forall h :: h in m ==> m[h] < i && b.txs[m[h]].id == h
    {
      m := m[b.txs[i].id := i];
    }
  }

  /** The entry is that of the transaction at position k of the same block. */
  ghost predicate FromBlock(e: TxData, b: Block, h: Hash, k: nat) {
    k < |b.txs| && b.txs[k].id == h && e == Fresh(Placed(b.txs[k], b.height))
  }

  /** Entries from the same block serve every reference; all others are asked for. */
  ghost predicate Collected(b: Block, e: Entries, needed: set<Hash>) {
    && needed <= e.Keys
    && (forall i, op :: 0 <= i < |b.txs| && op in Spends(b.txs[i]) ==> op.hash in e)
    && (forall h :: h in e && h !in needed ==> exists k: nat :: FromBlock(e[h], b, h, k) && NoEarlier(b, h, k))
  }

  /** No transaction before position k refers to the hash. */
  ghost predicate NoEarlier(b: Block, h: Hash, k: nat) {
    forall i, op :: 0 <= i < |b.txs| && op in Spends(b.txs[i]) && op.hash == h ==> k <= i
  }

  /** The hashes the block refers to. */
  function Referenced(b: Block): set<Hash> {
    set t, op | t in b.txs && op in Spends(t) :: op.hash
  }

  lemma IsReferenced(b: Block, i: nat, m: nat)
    requires i < |b.txs| && m < |Spends(b.txs[i])|
    ensures Spends(b.txs[i])[m].hash in Referenced(b)
  {
    assert b.txs[i] in b.txs && Spends(b.txs[i])[m] in Spends(b.txs[i]);
  }

  method CollectInputs(b: Block) returns (e: Entries, needed: set<Hash>)
    requires Sane(b)
    ensures Collected(b, e, needed) && needed <= e.Keys <= Referenced(b)
  {
    hide Fresh, Spends, Referenced, Served, IsCoinBase, Distinct, NamesItself, OneCoinBase, Sane;
    var inFlight := InFlight(b);
    e, needed := map[], {};
    for i := 0 to |b.txs|
      invariant needed <= e.Keys <= Referenced(b)
      invariant forall k, op :: 0 <= k < i && op in Spends(b.txs[k]) ==> Served(e, needed, inFlight, op.hash, k)
      invariant forall h :: h in e && h !in needed ==> h in inFlight && FromBlock(e[h], b, h, inFlight[h])
    {
      var refs := Spends(b.txs[i]);
      for m := 0 to |refs|
        invariant needed <= e.Keys <= Referenced(b)
        invariant forall k, op :: 0 <= k < i && op in Spends(b.txs[k]) ==> Served(e, needed, inFlight, op.hash, k)
        invariant forall n :: 0 <= n < m ==> Served(e, needed, inFlight, refs[n].hash, i)
        invariant forall h :: h in e && h !in needed ==> h in inFlight && FromBlock(e[h], b, h, inFlight[h])
      {
        var h := refs[m].hash;
        IsReferenced(b, i, m);
        ghost var was, asked := e, needed;
        if h in inFlight && i >= inFlight[h] {
          e := e[h := Fresh(Placed(b.txs[inFlight[h]], b.height))];
        } else {
          e := e[h := Missing];
          needed := needed + {h};
        }
        ServedMore(was, asked, e, needed, inFlight);
        assert Served(e, needed, inFlight, h, i) by { ServedNow(e, needed, inFlight, h, i); }
      }
    }
    CollectedAll(b, e, needed, inFlight);
  }

  lemma ServedMore(e: Entries, needed: set<Hash>, e': Entries, needed': set<Hash>, inFlight: map<Hash, nat>)
    requires e.Keys <= e'.Keys && needed <= needed'
    ensures forall h, i :: Served(e, needed, inFlight, h, i) ==> Served(e', needed', inFlight, h, i)
  {
  }

  lemma ServedNow(e: Entries, needed: set<Hash>, inFlight: map<Hash, nat>, h: Hash, i: nat)
    requires h in e && (h in needed || (h in inFlight && inFlight[h] <= i))
    ensures Served(e, needed, inFlight, h, i)
  {
  }

  ghost predicate Served(e: Entries, needed: set<Hash>, inFlight: map<Hash, nat>, h: Hash, i: nat) {
    h in e && (h in needed || (h in inFlight && inFlight[h] <= i))
  }

  lemma CollectedAll(b: Block, e: Entries, needed: set<Hash>, inFlight: map<Hash, nat>)
    requires needed <= e.Keys
    requires forall k, op :: 0 <= k < |b.txs| && op in Spends(b.txs[k]) ==> Served(e, needed, inFlight, op.hash, k)
    requires forall h :: h in e && h !in needed ==> h in inFlight && FromBlock(e[h], b, h, inFlight[h])
    ensures Collected(b, e, needed)
  {
    hide Spends, FromBlock;
    forall h | h in e && h !in needed
      ensures FromBlock(e[h], b, h, inFlight[h]) && NoEarlier(b, h, inFlight[h])
    {
    }
  }

  lemma MergedShaped(b: Block, e: Entries, needed: set<Hash>, fetched: Entries)
    requires Collected(b, e, needed) && fetched.Keys == needed && AllShaped(fetched)
    ensures AllShaped(e + fetched)
  {
    hide Spends, Fresh;
    var all := e + fetched;
    forall h | h in all
      ensures Shaped(all[h])
    {
      if h !in needed {
        var k: nat :| FromBlock(e[h], b, h, k) && NoEarlier(b, h, k);
        FreshShaped(Placed(b.txs[k], b.height));
      }
    }
  }

  /** What was fetched is what the store shows, except that fully spent transactions may be left out. */
  ghost predicate Shown(entries: Entries, main: seq<Placed>, n: nat, hist: seq<Placed>)
    requires n <= |main|
  {
    forall h :: h in entries ==>
      entries[h] == Seen(main, n, hist, h) || (entries[h].Missing? && FullySpent(Seen(main, n, hist, h)))
  }

  /** What is shown has one flag for each output. */
  lemma ShownShaped(entries: Entries, main: seq<Placed>, n: nat, hist: seq<Placed>)
    requires n <= |main| && Shown(entries, main, n, hist)
    ensures AllShaped(entries)
  {
    hide CoinbaseLeft, MarkedAfter;
  }

  lemma SeesShown(entries: Entries, main: seq<Placed>, n: nat, hist: seq<Placed>)
    requires n <= |main| && Sees(entries, main, n, hist)
    ensures Shown(entries, main, n, hist)
  {
    hide Seen;
  }

  /** At the tip the store shows the view. */
  lemma ServesShown(entries: Entries, hist: seq<Placed>)
    requires Serves(entries, hist)
    ensures Shown(entries, hist, |hist|, hist)
  {
    hide Seen, View;
    forall h | h in entries
      ensures Seen(hist, |hist|, hist, h) == View(hist, h)
    {
      TipSeen(hist, h);
    }
  }

  lemma TipSeen(hist: seq<Placed>, h: Hash)
    ensures Seen(hist, |hist|, hist, h) == View(hist, h)
  {
    hide Seen, View;
    assert hist[..|hist|] == hist;
    SeenStart(hist, |hist|, h);
    MarkNone(View(hist, h), h);
  }

  /** Entries from the block and entries from the chain together serve every reference. */
  lemma Merged(main: seq<Placed>, n: nat, hist: seq<Placed>, b: Block, e: Entries, needed: set<Hash>, fetched: Entries)
    requires n <= |main| && Collected(b, e, needed) && fetched.Keys == needed && Shown(fetched, main, n, hist)
    ensures forall i, op :: 0 <= i < |b.txs| && op in Spends(b.txs[i]) ==>
              Provenance(main, n, hist, b, e + fetched, op.hash, i)
  {
    hide Seen, Spends, Fresh;
    var all := e + fetched;
    forall i, op | 0 <= i < |b.txs| && op in Spends(b.txs[i])
      ensures Provenance(main, n, hist, b, all, op.hash, i)
    {
      var h := op.hash;
      if h !in needed {
        var k: nat :| FromBlock(e[h], b, h, k) && NoEarlier(b, h, k);
        assert k <= i;
      }
    }
  }

  lemma FreshShaped(p: Placed)
    ensures Shaped(Fresh(p))
  {
  }

  // ----- from the checks to a valid history

  /** The ordinary inputs of the first i transactions. */
  function OrdinarySpends(b: Block, i: nat): seq<OutPoint>
    requires i <= |b.txs|
  {
    if i == 0 then []
    else OrdinarySpends(b, i - 1) + (if IsCoinBase(b.txs[i - 1]) then [] else b.txs[i - 1].ins)
  }

  lemma {:induction false} OrdinaryHas(b: Block, j: nat, i: nat, op: OutPoint)
    requires j < i <= |b.txs| && !IsCoinBase(b.txs[j]) && op in b.txs[j].ins
    ensures op in OrdinarySpends(b, i)
  {
    if j < i - 1 {
      OrdinaryHas(b, j, i - 1, op);
    }
  }

  /** The history before transaction i of the block. */
  function Before(hist: seq<Placed>, b: Block, i: nat): seq<Placed>
    requires i <= |b.txs|
  {
    hist + Place(b.txs[..i], b.height)
  }

  lemma BeforeNext(hist: seq<Placed>, b: Block, i: nat)
    requires i < |b.txs|
    ensures Before(hist, b, i + 1) == Before(hist, b, i) + [Placed(b.txs[i], b.height)]
    ensures Before(hist, b, 0) == hist
  {
    PlaceSnoc(hist, b, i);
  }

  lemma PaysSnoc(main: seq<Placed>, n: nat, hist: seq<Placed>, p: Placed, op: OutPoint, v: nat)
    requires n <= |main| && n <= |hist|
    ensures p.tx.id != op.hash && op !in Ordinary(p.tx) && Pays(Seen(main, n, hist, op.hash), op.index, v) ==>
              Pays(Seen(main, n, hist + [p], op.hash), op.index, v)
    ensures p.tx.id == op.hash && op.index < |p.tx.outs| && p.tx.outs[op.index] == v ==>
              Pays(Seen(main, n, hist + [p], op.hash), op.index, v)
    ensures p.tx.id != op.hash && FullySpent(Seen(main, n, hist, op.hash)) ==>
              FullySpent(Seen(main, n, hist + [p], op.hash))
  {
    hide Seen;
    SeenSnoc(main, n, hist, p, op.hash);
    assert OutPoint(op.hash, op.index) == op;
  }

  /** An output stays unspent over transactions that neither spend it nor repeat its hash. */
  lemma {:induction false} PaysUpTo(main: seq<Placed>, n: nat, hist: seq<Placed>, b: Block, k: nat, i: nat,
                                    op: OutPoint, v: nat)
    requires n <= |main| && n <= |hist|
    requires k <= i <= |b.txs| && Pays(Seen(main, n, Before(hist, b, k), op.hash), op.index, v)
    requires forall j :: k <= j < i ==> b.txs[j].id != op.hash && op !in Ordinary(b.txs[j])
    ensures Pays(Seen(main, n, Before(hist, b, i), op.hash), op.index, v)
  {
    hide Seen, Pays, Before, Ordinary;
    if k < i {
      PaysUpTo(main, n, hist, b, k, i - 1, op, v);
      BeforeNext(hist, b, i - 1);
      BeforeLength(hist, b, i - 1);
      PaysSnoc(main, n, Before(hist, b, i - 1), Placed(b.txs[i - 1], b.height), op, v);
    }
  }

  lemma {:induction false} FullyUpTo(main: seq<Placed>, n: nat, hist: seq<Placed>, b: Block, i: nat, h: Hash)
    requires n <= |main| && n <= |hist| && i <= |b.txs| && FullySpent(Seen(main, n, hist, h))
    requires forall j :: 0 <= j < i ==> b.txs[j].id != h
    ensures FullySpent(Seen(main, n, Before(hist, b, i), h))
  {
    hide Seen, FullySpent, Before;
    if i > 0 {
      FullyUpTo(main, n, hist, b, i - 1, h);
      BeforeNext(hist, b, i - 1);
      BeforeLength(hist, b, i - 1);
      PaysSnoc(main, n, Before(hist, b, i - 1), Placed(b.txs[i - 1], b.height), OutPoint(h, 0), 0);
    } else {
      assert Before(hist, b, 0) == hist by { EmptyBefore(hist, b); }
    }
  }

  lemma EmptyBefore(hist: seq<Placed>, b: Block)
    ensures Before(hist, b, 0) == hist
  {
  }

  lemma BeforeLength(hist: seq<Placed>, b: Block, i: nat)
    requires i <= |b.txs|
    ensures |Before(hist, b, i)| == |hist| + i
  {
  }

  /** Where the entry for a reference of transaction i comes from. */
  ghost predicate Provenance(main: seq<Placed>, n: nat, hist: seq<Placed>, b: Block, e: Entries, h: Hash, i: nat)
    requires n <= |main|
  {
    h in e &&
    (e[h].Missing? || e[h] == Seen(main, n, hist, h) || exists k: nat :: k <= i && FromBlock(e[h], b, h, k))
  }

  /** All that the checks of a block establish, against what the store shows of its branch. */
  ghost predicate Checked(main: seq<Placed>, n: nat, hist: seq<Placed>, b: Block, e: Entries, pooling: set<OutPoint>)
    requires n <= |main|
  {
    && Sane(b) && Above(hist, b.height) && AllShaped(e)
    && (forall i :: 0 <= i < |b.txs| ==> FullySpent(Seen(main, n, hist, b.txs[i].id)))
    && (forall i, op :: 0 <= i < |b.txs| && op in Spends(b.txs[i]) ==> Provenance(main, n, hist, b, e, op.hash, i))
    && (forall i :: 0 < i < |b.txs| ==> Affordable(e, OrdinarySpends(b, i), b.txs[i], b.height, pooling))
    && (forall op :: op in Spends(b.txs[0]) ==>
          Spendable(e[op.hash], op.index) && op !in OrdinarySpends(b, |b.txs|))
  }

  lemma CheckedReference(main: seq<Placed>, n: nat, hist: seq<Placed>, b: Block, e: Entries, pooling: set<OutPoint>,
                         i: nat, op: OutPoint)
    requires n <= |main| && Checked(main, n, hist, b, e, pooling) && i < |b.txs| && op in Spends(b.txs[i])
    ensures Provenance(main, n, hist, b, e, op.hash, i) && Shaped(e[op.hash]) && op.hash != b.txs[i].id
    ensures i > 0 ==> !IsCoinBase(b.txs[i])
    ensures forall j :: 0 <= j < |b.txs| ==> FullySpent(Seen(main, n, hist, b.txs[j].id))
    ensures forall j, k :: 0 <= j < k < |b.txs| ==> b.txs[j].id != b.txs[k].id
  {
    hide Seen, Affordable, Provenance, Distinct, NamesItself, FullySpent;
    assert Provenance(main, n, hist, b, e, op.hash, i);
    assert op.hash in e by { ProvenanceKnown(main, n, hist, b, e, op.hash, i); }
    NotItself(b.txs[i], op);
  }

  lemma ProvenanceKnown(main: seq<Placed>, n: nat, hist: seq<Placed>, b: Block, e: Entries, h: Hash, i: nat)
    requires n <= |main| && Provenance(main, n, hist, b, e, h, i)
    ensures h in e
  {
  }

  /** Input m of an ordinary transaction was found good. */
  lemma CheckedInput(main: seq<Placed>, n: nat, hist: seq<Placed>, b: Block, e: Entries, pooling: set<OutPoint>,
                     i: nat, op: OutPoint)
    requires n <= |main| && Checked(main, n, hist, b, e, pooling) && 0 < i < |b.txs| && op in b.txs[i].ins
    ensures op.hash in e && Spendable(e[op.hash], op.index) && op !in OrdinarySpends(b, i)
  {
    var t := b.txs[i];
    assert Affordable(e, OrdinarySpends(b, i), t, b.height, pooling);
    hide Checked, Sum, Mature;
    var m :| 0 <= m < |t.ins| && t.ins[m] == op;
    assert InputGood(e, OrdinarySpends(b, i), t, m, b.height, pooling);
  }

  lemma CheckedExtra(main: seq<Placed>, n: nat, hist: seq<Placed>, b: Block, e: Entries, pooling: set<OutPoint>,
                     op: OutPoint)
    requires n <= |main| && Checked(main, n, hist, b, e, pooling) && op in Spends(b.txs[0])
    ensures op.hash in e && Spendable(e[op.hash], op.index) && op !in OrdinarySpends(b, |b.txs|)
  {
    hide Seen, Affordable, Distinct, NamesItself, FullySpent, OrdinarySpends;
    assert Provenance(main, n, hist, b, e, op.hash, 0);
  }

  /** Every output the block refers to is shown unspent at that point of the history and worth what was counted. */
  lemma ReferencePays(main: seq<Placed>, n: nat, hist: seq<Placed>, b: Block, e: Entries, pooling: set<OutPoint>,
                      i: nat, op: OutPoint)
    requires n <= |main| && n <= |hist|
    requires Checked(main, n, hist, b, e, pooling) && i < |b.txs| && op in Spends(b.txs[i])
    ensures Pays(Seen(main, n, Before(hist, b, i), op.hash), op.index, ValueIn(e, op))
  {
    hide Seen, Before, Checked, Ordinary;
    CheckedReference(main, n, hist, b, e, pooling, i, op);
    ReferenceGood(main, n, hist, b, e, pooling, i, op);
    var v := ValueIn(e, op);
    forall j | 0 <= j < i
      ensures op !in Ordinary(b.txs[j])
    {
      NotSpentEarlier(main, n, hist, b, e, pooling, i, j, op);
    }
    if e[op.hash] == Seen(main, n, hist, op.hash) {
      EmptyBefore(hist, b);
      PaysUpTo(main, n, hist, b, 0, i, op, v);
    } else {
      var k: nat :| k <= i && FromBlock(e[op.hash], b, op.hash, k);
      BeforeNext(hist, b, k);
      BeforeLength(hist, b, k);
      PaysSnoc(main, n, Before(hist, b, k), Placed(b.txs[k], b.height), op, v);
      PaysUpTo(main, n, hist, b, k + 1, i, op, v);
    }
  }

  lemma NotItself(t: Tx, op: OutPoint)
    requires !NamesItself(t) && op in Spends(t)
    ensures op.hash != t.id
  {
  }

  lemma ReferenceGood(main: seq<Placed>, n: nat, hist: seq<Placed>, b: Block, e: Entries, pooling: set<OutPoint>,
                      i: nat, op: OutPoint)
    requires n <= |main| && Checked(main, n, hist, b, e, pooling) && i < |b.txs| && op in Spends(b.txs[i])
    ensures op.hash in e && Spendable(e[op.hash], op.index)
  {
    hide Checked;
    CheckedReference(main, n, hist, b, e, pooling, i, op);
    if i == 0 {
      CheckedExtra(main, n, hist, b, e, pooling, op);
    } else {
      CheckedInput(main, n, hist, b, e, pooling, i, op);
    }
  }

  /** No two transactions of the block spend the same output. */
  lemma NotSpentEarlier(main: seq<Placed>, n: nat, hist: seq<Placed>, b: Block, e: Entries, pooling: set<OutPoint>,
                        i: nat, j: nat, op: OutPoint)
    requires n <= |main| && Checked(main, n, hist, b, e, pooling) && j < i < |b.txs| && op in Spends(b.txs[i])
    ensures op !in Spends(b.txs[j]) && op !in Ordinary(b.txs[j])
  {
    hide Checked, OrdinarySpends;
    CheckedReference(main, n, hist, b, e, pooling, i, op);
    CheckedInput(main, n, hist, b, e, pooling, i, op);
    if op in Spends(b.txs[j]) {
      CheckedReference(main, n, hist, b, e, pooling, j, op);
      if j == 0 {
        CheckedExtra(main, n, hist, b, e, pooling, op);
        OrdinaryHas(b, i, |b.txs|, op);
      } else {
        OrdinaryHas(b, j, i, op);
      }
    }
  }

  lemma CheckedSanity(main: seq<Placed>, n: nat, hist: seq<Placed>, b: Block, e: Entries, pooling: set<OutPoint>, i: nat)
    requires n <= |main| && Checked(main, n, hist, b, e, pooling) && i < |b.txs|
    ensures 1 <= |b.txs[i].outs| <= MAX_INDEX && Distinct(Spends(b.txs[i]))
    ensures FullySpent(Seen(main, n, hist, b.txs[i].id)) && !NamesItself(b.txs[i]) && (i > 0 ==> !IsCoinBase(b.txs[i]))
    ensures forall j :: 0 <= j < i ==> b.txs[j].id != b.txs[i].id
    ensures Above(hist, b.height)
  {
    hide Seen, Affordable, Distinct, NamesItself, FullySpent, Provenance;
  }

  /** As far as the store shows, a checked block extends the history transaction by transaction. */
  lemma CheckedExtends(main: seq<Placed>, n: nat, hist: seq<Placed>, b: Block, e: Entries, pooling: set<OutPoint>, i: nat)
    requires n <= |main| && n <= |hist| && Checked(main, n, hist, b, e, pooling) && i < |b.txs|
    ensures SeenExtends(main, n, Before(hist, b, i), Placed(b.txs[i], b.height))
  {
    hide Seen, Checked, FullySpent, Distinct, Before, Spends;
    var t := b.txs[i];
    CheckedSanity(main, n, hist, b, e, pooling, i);
    forall op | op in Spends(t)
      ensures Spendable(Seen(main, n, Before(hist, b, i), op.hash), op.index)
    {
      ReferencePays(main, n, hist, b, e, pooling, i, op);
    }
    FullyUpTo(main, n, hist, b, i, t.id);
    HeightsBefore(hist, b, i);
  }

  /** At the tip that is an extension: the block spends nothing twice, and nothing was left marked. */
  lemma CheckedAtTip(hist: seq<Placed>, b: Block, e: Entries, pooling: set<OutPoint>, i: nat)
    requires Checked(hist, |hist|, hist, b, e, pooling) && i < |b.txs|
    ensures Extends(Before(hist, b, i), Placed(b.txs[i], b.height))
  {
    hide Checked, SeenExtends, Extends, Before, Spends;
    var n, cur, t := |hist|, Before(hist, b, i), b.txs[i];
    CheckedExtends(hist, n, hist, b, e, pooling, i);
    ExtendsExactly(hist, n, cur, Placed(t, b.height));
    BeforeLength(hist, b, i);
    forall m, op | n <= m < |cur| && CoinbaseSpends(cur, m, op) && op in Spends(t)
      ensures false
    {
      BeforeAt(hist, b, i, m - n);
      NotSpentEarlier(hist, n, hist, b, e, pooling, i, m - n, op);
    }
  }

  lemma BeforeAt(hist: seq<Placed>, b: Block, i: nat, k: nat)
    requires k < i <= |b.txs|
    ensures |Before(hist, b, i)| == |hist| + i && Before(hist, b, i)[|hist| + k] == Placed(b.txs[k], b.height)
  {
  }

  lemma HeightsBefore(hist: seq<Placed>, b: Block, i: nat)
    requires i < |b.txs| && Above(hist, b.height) && forall j :: 0 <= j < i ==> b.txs[j].id != b.txs[i].id
    ensures var cur := Before(hist, b, i);
            && (forall k :: 0 <= k < |cur| ==> cur[k].height <= b.height)
            && (forall k :: 0 <= k < |cur| && cur[k].tx.id == b.txs[i].id ==> cur[k].height < b.height)
  {
    var cur := Before(hist, b, i);
    forall k | |hist| <= k < |cur|
      ensures cur[k].tx.id != b.txs[i].id
    {
      assert cur[k].tx == b.txs[k - |hist|];
    }
  }
}
