/** The transaction store: connecting and disconnecting blocks, and the view from any node. */
module TxLookup {
  import opened Ledger

  type Entries = map<Hash, TxData>

  /** The entries are exactly the view of the history for the requested hashes. */
  ghost predicate Agrees(entries: Entries, hist: seq<Placed>) {
    forall h :: h in entries ==> entries[h] == View(hist, h)
  }

  /** Among the requested hashes, no coinbase has an input beyond its null input. */
  predicate PlainFor(keys: set<Hash>, t: Tx) {
    IsCoinBase(t) ==> forall op :: op in Spends(t) ==> op.hash !in keys
  }

  /** Cryptographic hashing rules this out: a transaction that names its own hash. */
  predicate NamesItself(t: Tx) {
    exists i :: 0 <= i < |t.ins| && t.ins[i].hash == t.id
  }

  datatype Outcome = Ok | TxAlreadyExists | BadTxInput

  // ----- what the store shows

  /** The outputs that the coinbases of the main chain from position n on leave marked on a hash when they are undone:
      those spent before a transaction of that hash is placed again. */
  ghost function CoinbaseLeft(main: seq<Placed>, n: nat, h: Hash): seq<OutPoint>
    requires n <= |main|
    decreases |main| - n
  {
    if n == |main| || main[n].tx.id == h then []
    else (if IsCoinBase(main[n].tx) then Spends(main[n].tx) else []) + CoinbaseLeft(main, n + 1, h)
  }

  /** What the transaction at position k marks: below n all it spends, from n on nothing for a coinbase. */
  ghost function Marks(hist: seq<Placed>, n: nat, k: nat): seq<OutPoint>
    requires k < |hist|
  {
    if k < n then Spends(hist[k].tx) else Ordinary(hist[k].tx)
  }

  ghost predicate MarkedAfter(hist: seq<Placed>, n: nat, j: nat, op: OutPoint) {
    exists k :: j < k < |hist| && op in Marks(hist, n, k)
  }

  /** What the store shows after the main chain was undone down to n positions and hist, which shares these, was
      connected: an output is marked if it is spent below n, by an ordinary transaction above n, or by a coinbase that
      was undone. */
  ghost function Seen(main: seq<Placed>, n: nat, hist: seq<Placed>, h: Hash): TxData
    requires n <= |main|
  {
    match Latest(hist, h)
    case None => Missing
    case Some(j) =>
      Found(hist[j].tx, hist[j].height, seq(|hist[j].tx.outs|, i requires 0 <= i =>
        MarkedAfter(hist, n, j, OutPoint(h, i)) || (j < n && OutPoint(h, i) in CoinbaseLeft(main, n, h))))
  }

  ghost predicate Sees(entries: Entries, main: seq<Placed>, n: nat, hist: seq<Placed>)
    requires n <= |main|
  {
    forall h :: h in entries ==> entries[h] == Seen(main, n, hist, h)
  }

  /** Every output that an undone coinbase left marked is spent on the branch as well, and every output that a coinbase
      of the branch spends is marked for another reason. */
  ghost predicate Balanced(main: seq<Placed>, n: nat, hist: seq<Placed>, h: Hash)
    requires n <= |main|
  {
    var l := Latest(hist, h);
    l.Some? ==>
      && (l.value < n ==> forall i: nat :: i < |hist[l.value].tx.outs| && OutPoint(h, i) in CoinbaseLeft(main, n, h) ==>
            SpentAfter(hist, l.value, OutPoint(h, i)))
      && (forall k, i: nat ::
            n <= k < |hist| && l.value < k && i < |hist[l.value].tx.outs| && OutPoint(h, i) in Spends(hist[k].tx) ==>
            MarkedAfter(hist, n, l.value, OutPoint(h, i)) ||
            (l.value < n && OutPoint(h, i) in CoinbaseLeft(main, n, h)))
  }

  ghost predicate InStep(keys: set<Hash>, main: seq<Placed>, n: nat, hist: seq<Placed>)
    requires n <= |main|
  {
    forall h :: h in keys ==> Balanced(main, n, hist, h)
  }

  /** The store shows the view of a hash exactly when its outputs are in step. */
  lemma SeenIsView(main: seq<Placed>, n: nat, hist: seq<Placed>, h: Hash)
    requires n <= |main|
    ensures Seen(main, n, hist, h) == View(hist, h) <==> Balanced(main, n, hist, h)
  {
    hide CoinbaseLeft, Spends, Ordinary;
    if Latest(hist, h).Some? {
      var j := Latest(hist, h).value;
      var s, v := Seen(main, n, hist, h), View(hist, h);
      if s == v {
        ViewBalances(main, n, hist, h);
      }
      if Balanced(main, n, hist, h) {
        forall i: nat | i < |hist[j].tx.outs|
          ensures s.spent[i] == v.spent[i]
        {
          SpentIsCovered(main, n, hist, h, i);
          if MarkedAfter(hist, n, j, OutPoint(h, i)) {
            MarkedIsSpent(hist, n, j, OutPoint(h, i));
          }
        }
        assert s.spent == v.spent;
      }
    }
  }

  lemma ViewBalances(main: seq<Placed>, n: nat, hist: seq<Placed>, h: Hash)
    requires n <= |main| && Latest(hist, h).Some? && Seen(main, n, hist, h) == View(hist, h)
    ensures Balanced(main, n, hist, h)
  {
    hide CoinbaseLeft, Spends, Ordinary, MarkedAfter;
    var j := Latest(hist, h).value;
    var s, v := Seen(main, n, hist, h), View(hist, h);
    forall i: nat | i < |hist[j].tx.outs|
      ensures MarkedAfter(hist, n, j, OutPoint(h, i)) || (j < n && OutPoint(h, i) in CoinbaseLeft(main, n, h)) <==>
              SpentAfter(hist, j, OutPoint(h, i))
    {
      assert s.spent[i] == v.spent[i];
    }
  }

  lemma MarkedIsSpent(hist: seq<Placed>, n: nat, j: nat, op: OutPoint)
    requires MarkedAfter(hist, n, j, op)
    ensures SpentAfter(hist, j, op)
  {
    var k :| j < k < |hist| && op in Marks(hist, n, k);
    assert op in Spends(hist[k].tx);
  }

  lemma SpentIsCovered(main: seq<Placed>, n: nat, hist: seq<Placed>, h: Hash, i: nat)
    requires n <= |main| && Balanced(main, n, hist, h) && Latest(hist, h).Some?
    requires i < |hist[Latest(hist, h).value].tx.outs|
    ensures SpentAfter(hist, Latest(hist, h).value, OutPoint(h, i)) ==>
              var j := Latest(hist, h).value;
              MarkedAfter(hist, n, j, OutPoint(h, i)) || (j < n && OutPoint(h, i) in CoinbaseLeft(main, n, h))
  {
    hide CoinbaseLeft;
    var j, op := Latest(hist, h).value, OutPoint(h, i);
    if SpentAfter(hist, j, op) {
      var k :| j < k < |hist| && op in Spends(hist[k].tx);
      if k < n {
        assert op in Marks(hist, n, k);
      }
    }
  }

  /** Before anything is connected the store shows the view with what the undone coinbases left. */
  lemma SeenStart(main: seq<Placed>, n: nat, h: Hash)
    requires n <= |main|
    ensures Seen(main, n, main[..n], h) == Mark(View(main[..n], h), h, CoinbaseLeft(main, n, h))
  {
    hide CoinbaseLeft, Spends;
    var hist := main[..n];
    if Latest(hist, h).Some? {
      var j := Latest(hist, h).value;
      var s, m := Seen(main, n, hist, h), Mark(View(hist, h), h, CoinbaseLeft(main, n, h));
      forall i: nat | i < |hist[j].tx.outs|
        ensures s.spent[i] == m.spent[i]
      {
        AllMark(hist, n, j, OutPoint(h, i));
      }
      assert s.spent == m.spent;
    }
  }

  lemma AllMark(hist: seq<Placed>, n: nat, j: nat, op: OutPoint)
    requires |hist| <= n
    ensures MarkedAfter(hist, n, j, op) <==> SpentAfter(hist, j, op)
  {
    if SpentAfter(hist, j, op) {
      var k :| j < k < |hist| && op in Spends(hist[k].tx);
      assert op in Marks(hist, n, k);
    }
    if MarkedAfter(hist, n, j, op) {
      MarkedIsSpent(hist, n, j, op);
    }
  }

  /** One more connected transaction: its own entry is fresh, the others are marked unless it is a coinbase. */
  lemma SeenSnoc(main: seq<Placed>, n: nat, hist: seq<Placed>, p: Placed, h: Hash)
    requires n <= |main| && n <= |hist|
    ensures Seen(main, n, hist + [p], h) ==
            if p.tx.id == h then Fresh(p) else Mark(Seen(main, n, hist, h), h, Ordinary(p.tx))
  {
    hide CoinbaseLeft, Spends, Ordinary;
    var all := hist + [p];
    assert all[..|hist|] == hist;
    if p.tx.id == h {
      assert Latest(all, h) == Some(|hist|);
      assert Seen(main, n, all, h).spent == Fresh(p).spent;
    } else if Latest(hist, h).Some? {
      var j := Latest(hist, h).value;
      var l, r := Seen(main, n, all, h), Mark(Seen(main, n, hist, h), h, Ordinary(p.tx));
      forall i: nat | i < |hist[j].tx.outs|
        ensures l.spent[i] == r.spent[i]
      {
        MarkedSnoc(hist, n, p, j, OutPoint(h, i));
      }
      assert l.spent == r.spent;
    }
  }

  lemma MarkedSnoc(hist: seq<Placed>, n: nat, p: Placed, j: nat, op: OutPoint)
    requires j < |hist| && n <= |hist|
    ensures MarkedAfter(hist + [p], n, j, op) <==> MarkedAfter(hist, n, j, op) || op in Ordinary(p.tx)
  {
    var all := hist + [p];
    if MarkedAfter(hist, n, j, op) {
      var k :| j < k < |hist| && op in Marks(hist, n, k);
      assert all[k] == hist[k] && op in Marks(all, n, k);
    }
    if op in Ordinary(p.tx) {
      assert all[|hist|] == p && op in Marks(all, n, |hist|);
    }
    if MarkedAfter(all, n, j, op) {
      var k :| j < k < |all| && op in Marks(all, n, k);
      if k < |hist| {
        assert all[k] == hist[k] && op in Marks(hist, n, k);
      }
    }
  }

  /** The store and the view know the same transactions and outputs. */
  lemma SeenShape(main: seq<Placed>, n: nat, hist: seq<Placed>, h: Hash)
    requires n <= |main|
    ensures var s, v := Seen(main, n, hist, h), View(hist, h);
            s.Found? == v.Found? && (s.Found? ==> s.tx == v.tx && s.height == v.height && |s.spent| == |v.spent|)
  {
  }

  // ----- when a block cannot be connected

  /** A requested transaction would be overwritten while the store shows unspent outputs of it. */
  ghost predicate Overwrites(keys: set<Hash>, main: seq<Placed>, n: nat, hist: seq<Placed>, t: Tx)
    requires n <= |main|
  {
    t.id in keys && !FullySpent(Seen(main, n, hist, t.id))
  }

  /** An input names an output that the requested transaction does not have. */
  ghost predicate BeyondOutputs(keys: set<Hash>, hist: seq<Placed>, t: Tx) {
    !IsCoinBase(t) && exists k :: 0 <= k < |t.ins| && NoSuchOutput(keys, hist, t, t.ins[k])
  }

  ghost predicate NoSuchOutput(keys: set<Hash>, hist: seq<Placed>, t: Tx, op: OutPoint) {
    op.hash in keys && op.hash != t.id && var d := View(hist, op.hash); d.Found? && op.index >= |d.spent|
  }

  /** Some transaction of the block cannot be applied to the requested entries. */
  ghost predicate Inapplicable(keys: set<Hash>, main: seq<Placed>, n: nat, hist: seq<Placed>, b: Block)
    requires n <= |main|
  {
    exists j :: 0 <= j < |b.txs| && InapplicableAt(keys, main, n, hist, b, j)
  }

  ghost predicate InapplicableAt(keys: set<Hash>, main: seq<Placed>, n: nat, hist: seq<Placed>, b: Block, j: nat)
    requires n <= |main| && j < |b.txs|
  {
    var before := hist + Place(b.txs[..j], b.height);
    Overwrites(keys, main, n, before, b.txs[j]) || BeyondOutputs(keys, before, b.txs[j])
  }

  /** The same two conditions on the entries themselves. */
  predicate Applicable(e: Entries, t: Tx) {
    && !(t.id in e && !FullySpent(e[t.id]))
    && (IsCoinBase(t) || forall k :: 0 <= k < |t.ins| ==> !Outside(e, t, t.ins[k]))
  }

  predicate Outside(e: Entries, t: Tx, op: OutPoint) {
    op.hash in e && op.hash != t.id && e[op.hash].Found? && op.index >= |e[op.hash].spent|
  }

  /** What connecting a transaction makes of an entry. */
  function Applied(d: TxData, h: Hash, t: Tx, height: nat): TxData {
    if t.id == h then Fresh(Placed(t, height)) else Mark(d, h, Ordinary(t))
  }

  ghost predicate AllApplied(was: Entries, entries: Entries, t: Tx, height: nat) {
    entries.Keys == was.Keys && forall h :: h in was ==> entries[h] == Applied(was[h], h, t, height)
  }

  lemma ApplicableSeen(e: Entries, main: seq<Placed>, n: nat, hist: seq<Placed>, t: Tx)
    requires n <= |main| && Sees(e, main, n, hist)
    ensures Applicable(e, t) <==> !Overwrites(e.Keys, main, n, hist, t) && !BeyondOutputs(e.Keys, hist, t)
  {
    hide Seen, View, FullySpent;
    forall k | 0 <= k < |t.ins|
      ensures Outside(e, t, t.ins[k]) <==> NoSuchOutput(e.Keys, hist, t, t.ins[k])
    {
      SeenShape(main, n, hist, t.ins[k].hash);
    }
  }

  lemma SeesApplied(was: Entries, entries: Entries, main: seq<Placed>, n: nat, hist: seq<Placed>, t: Tx, height: nat)
    requires n <= |main| && n <= |hist| && Sees(was, main, n, hist) && AllApplied(was, entries, t, height)
    ensures Sees(entries, main, n, hist + [Placed(t, height)])
  {
    hide Seen, Mark, Ordinary, Fresh;
    forall h | h in entries
      ensures entries[h] == Seen(main, n, hist + [Placed(t, height)], h)
    {
      SeenSnoc(main, n, hist, Placed(t, height), h);
    }
  }

  /** Connecting one valid transaction to the view gives the next view, exactly when no further input of a coinbase was
      requested. */
  lemma AppliedIsView(was: Entries, entries: Entries, hist: seq<Placed>, t: Tx, height: nat)
    requires Agrees(was, hist) && AllApplied(was, entries, t, height) && Extends(hist, Placed(t, height))
    ensures Agrees(entries, hist + [Placed(t, height)]) <==> PlainFor(entries.Keys, t)
  {
    hide View, Extends;
    var p := Placed(t, height);
    forall h | h in entries
      ensures View(hist + [p], h) == if t.id == h then Fresh(p) else Mark(View(hist, h), h, Spends(t))
      ensures PlainFor(entries.Keys, t) && IsCoinBase(t) ==> Mark(View(hist, h), h, Spends(t)) == View(hist, h)
      ensures Mark(View(hist, h), h, []) == View(hist, h)
    {
      ViewSnoc(hist, p, h);
      MarkNone(View(hist, h), h);
      if PlainFor(entries.Keys, t) && IsCoinBase(t) {
        MarkOther(View(hist, h), h, Spends(t));
      }
    }
    if !PlainFor(entries.Keys, t) {
      var op :| op in Spends(t) && op.hash in entries.Keys;
      ExtraIsMarked(hist, p, op);
    }
  }

  lemma ExtraIsMarked(hist: seq<Placed>, p: Placed, op: OutPoint)
    requires Extends(hist, p) && op in Spends(p.tx)
    ensures op.hash != p.tx.id && Mark(View(hist, op.hash), op.hash, Spends(p.tx)) != View(hist, op.hash)
  {
    hide View;
    assert Spendable(View(hist, op.hash), op.index);
    NoSelfSpend(hist, p, op.index);
  }

  lemma PlaceSnoc(hist: seq<Placed>, b: Block, j: nat)
    requires j < |b.txs|
    ensures hist + Place(b.txs[..j + 1], b.height) == hist + Place(b.txs[..j], b.height) + [Placed(b.txs[j], b.height)]
  {
    assert Place(b.txs[..j + 1], b.height) == Place(b.txs[..j], b.height) + [Placed(b.txs[j], b.height)];
  }

  /** Marking can only matter for outputs that are named. */
  lemma MarkOther(d: TxData, h: Hash, ops: seq<OutPoint>)
    requires forall op :: op in ops ==> op.hash != h
    ensures Mark(d, h, ops) == d
  {
    if d.Found? {
      assert Mark(d, h, ops).spent == d.spent;
    }
  }

  class TxStore {
    var entries: Entries

    constructor (e: Entries)
      ensures entries == e
    {
      entries := e;
    }

    /** The effect of one transaction on the entries, and where it stops.  A coinbase marks nothing, so a valid one
        leads from view to view exactly when none of its further inputs was requested. */
    method ConnectTransaction(t: Tx, height: nat, ghost hist: seq<Placed>) returns (r: Outcome)
      requires !NamesItself(t)
      modifies this
      ensures entries.Keys == old(entries.Keys)
      ensures r == Ok <==> Applicable(old(entries), t)
      ensures r == Ok ==> AllApplied(old(entries), entries, t, height)
      ensures r == Ok && old(Agrees(entries, hist)) && Extends(hist, Placed(t, height)) ==>
                (Agrees(entries, hist + [Placed(t, height)]) <==> PlainFor(entries.Keys, t))
    {
      hide View, Mark, Agrees, Partly, FullySpent, AllSpent, PlainFor, NamesItself, Extends, AllApplied, Outside;
      ghost var was, keys := entries, entries.Keys;
      OwnEntry(was, t, height);
      if t.id in entries {
        var d := entries[t.id];
        if d.Found? && !AllSpent(d.spent) {
          return TxAlreadyExists;
        }
        entries := entries[t.id := Found(t, height, NoneSpent(|t.outs|))];
      }
      assert entries.Keys == keys;
      if !IsCoinBase(t) {
        var i := 0;
        while i < |t.ins|
          invariant 0 <= i <= |t.ins| && entries.Keys == keys
          invariant Partly(entries, was, t, height, t.ins[..i])
          invariant forall k :: 0 <= k < i ==> !Outside(was, t, t.ins[k])
        {
          var op := t.ins[i];
          PartlyStep(entries, was, t, height, i);
          if op.hash in entries && entries[op.hash].Found? {
            var d := entries[op.hash];
            if op.index >= |d.spent| {
              return BadTxInput;
            }
            entries := entries[op.hash := d.(spent := d.spent[op.index := true])];
          }
          i := i + 1;
        }
        assert t.ins[..|t.ins|] == t.ins;
      }
      Finished(entries, was, t, height);
      if Agrees(was, hist) && Extends(hist, Placed(t, height)) {
        AppliedIsView(was, entries, hist, t, height);
      }
      r := Ok;
    }

    /** Connecting a block keeps the store what it shows of the branch, or stops exactly at a transaction that cannot be
        applied; the store is then the view of the branch exactly when the branch is in step. */
    method ConnectTransactions(b: Block, ghost main: seq<Placed>, ghost n: nat, ghost hist: seq<Placed>) returns (r: Outcome)
      requires n <= |main| && n <= |hist| && Sees(entries, main, n, hist)
      requires forall t :: t in b.txs ==> !NamesItself(t)
      modifies this
      ensures entries.Keys == old(entries.Keys)
      ensures r == Ok <==> !Inapplicable(entries.Keys, main, n, hist, b)
      ensures r == Ok ==> Sees(entries, main, n, hist + Place(b.txs, b.height))
      ensures r == Ok ==> (Agrees(entries, hist + Place(b.txs, b.height)) <==>
                           InStep(entries.Keys, main, n, hist + Place(b.txs, b.height)))
    {
      hide View, Seen, Sees, Agrees, NamesItself, Overwrites, BeyondOutputs, Applicable, AllApplied, InStep, PlainFor;
      hide Extends;
      ghost var keys := entries.Keys;
      assert hist + Place(b.txs[..0], b.height) == hist;
      for i := 0 to |b.txs|
        invariant entries.Keys == keys
        invariant Sees(entries, main, n, hist + Place(b.txs[..i], b.height))
        invariant forall j :: 0 <= j < i ==> !InapplicableAt(keys, main, n, hist, b, j)
      {
        PlaceSnoc(hist, b, i);
        ghost var before, was := hist + Place(b.txs[..i], b.height), entries;
        ApplicableSeen(was, main, n, before, b.txs[i]);
        r := ConnectTransaction(b.txs[i], b.height, before);
        if r != Ok {
          assert InapplicableAt(keys, main, n, hist, b, i);
          return;
        }
        SeesApplied(was, entries, main, n, before, b.txs[i], b.height);
      }
      assert b.txs[..|b.txs|] == b.txs;
      SeesAgrees(entries, main, n, hist + Place(b.txs, b.height));
      r := Ok;
    }

    /** Undoing the transaction at position j of the main chain.  A coinbase leaves its further inputs marked, so from
        the view the earlier view comes back exactly when none of those was requested. */
    method DisconnectTransaction(db: Database, t: Tx, height: nat, ghost main: seq<Placed>, ghost j: nat)
      returns (r: Outcome)
      requires Valid(main) && Reflects(db, main)
      requires j < |main| && main[j] == Placed(t, height) && Sees(entries, main, j + 1, main[..j + 1])
      modifies this
      ensures r == Ok && entries.Keys == old(entries.Keys)
      ensures Sees(entries, main, j, main[..j])
      ensures old(Agrees(entries, main[..j + 1])) ==> (Agrees(entries, main[..j]) <==> PlainFor(entries.Keys, t))
    {
      hide View, Mark, Seen, Sees, Spends, Agrees, StillMarked, PlainFor, Valid, Reflects, NothingLeft;
      ghost var keys := entries.Keys;
      LeftAgrees(entries, main, j + 1);
      if NothingLeft(keys, main, j + 1) {
        LeftStep(keys, main, j);
      }
      if t.id in entries {
        var last := db.FetchLastFullySpentTxBeforeHeight(t.id, height);
        LastInstance(db, main, j);
        if last.None? {
          entries := entries[t.id := Missing];
        } else {
          entries := entries[t.id := Found(last.value.tx, last.value.height, EverySpent(|last.value.tx.outs|))];
        }
      }
      Cleared(old(entries), entries, main, j);
      assert entries.Keys == keys;
      if IsCoinBase(t) {
        CoinbaseUndone(entries, main, j);
        LeftAgrees(entries, main, j);
        return Ok;
      }
      var i := 0;
      while i < |t.ins|
        invariant 0 <= i <= |t.ins| && entries.Keys == keys
        invariant StillMarked(entries, main, j, t.ins[i..])
      {
        var op := t.ins[i];
        UndoneStep(entries, main, j, i);
        if op.hash in entries && entries[op.hash].Found? {
          var d := entries[op.hash];
          if op.index >= |d.spent| {
            return BadTxInput;
          }
          entries := entries[op.hash := d.(spent := d.spent[op.index := false])];
        }
        i := i + 1;
      }
      UndoneEnd(entries, main, j);
      LeftAgrees(entries, main, j);
      r := Ok;
    }

    /** Disconnecting a block of the main chain leaves the view before it with the marks of the undone coinbases, and
        from the view gives back the view exactly when the coinbase of the block spends nothing that was requested. */
    method DisconnectTransactions(db: Database, b: Block, ghost main: seq<Placed>, ghost n: nat) returns (r: Outcome)
      requires Valid(main) && Reflects(db, main)
      requires n + |b.txs| <= |main| && main[n..n + |b.txs|] == Place(b.txs, b.height)
      requires Sees(entries, main, n + |b.txs|, main[..n + |b.txs|])
      modifies this
      ensures r == Ok && entries.Keys == old(entries.Keys)
      ensures Sees(entries, main, n, main[..n])
      ensures Agrees(entries, main[..n]) <==> NothingLeft(entries.Keys, main, n)
      ensures OneCoinBase(b) && old(Agrees(entries, main[..n + |b.txs|])) ==>
                (Agrees(entries, main[..n]) <==> b.txs == [] || PlainFor(entries.Keys, b.txs[0]))
    {
      hide View, Spends, Seen, Sees, Agrees, PlainFor, Valid, Reflects, NothingLeft;
      ghost var keys, viewed := entries.Keys, OneCoinBase(b) && Agrees(entries, main[..n + |b.txs|]);
      var i := |b.txs|;
      while i > 0
        invariant 0 <= i <= |b.txs| && entries.Keys == keys
        invariant Sees(entries, main, n + i, main[..n + i])
        invariant viewed && (i > 0 || b.txs == []) ==> Agrees(entries, main[..n + i])
        invariant viewed && i == 0 < |b.txs| ==> (Agrees(entries, main[..n]) <==> PlainFor(keys, b.txs[0]))
      {
        i := i - 1;
        assert main[n + i] == main[n..n + |b.txs|][i] == Placed(b.txs[i], b.height);
        r := DisconnectTransaction(db, b.txs[i], b.height, main, n + i);
        if viewed && i > 0 {
          OrdinaryIsPlain(keys, b.txs[i]);
        }
      }
      LeftAgrees(entries, main, n);
      r := Ok;
    }
  }

  lemma OrdinaryIsPlain(keys: set<Hash>, t: Tx)
    requires !IsCoinBase(t)
    ensures PlainFor(keys, t)
  {
  }

  /** Only the first transaction of a block is a coinbase. */
  predicate OneCoinBase(b: Block) {
    forall i :: 0 < i < |b.txs| ==> !IsCoinBase(b.txs[i])
  }

  function EverySpent(n: nat): (r: seq<bool>)
    ensures |r| == n && forall i :: 0 <= i < n ==> r[i]
  {
    seq(n, _ => true)
  }

  // ----- the database

  /** The database of the main chain: transactions with unspent outputs, and for each hash the fully spent
      transactions in the order they were placed. */
  class Database {
    const live: map<Hash, TxData>
    const spent: map<Hash, seq<Placed>>

    constructor (l: map<Hash, TxData>, s: map<Hash, seq<Placed>>)
      ensures live == l && spent == s
    {
      live, spent := l, s;
    }

    method FetchLastFullySpentTxBeforeHeight(h: Hash, height: nat) returns (r: Option<Placed>)
      ensures r == LastBelow(SpentList(spent, h), height)
    {
      if h !in spent {
        return None;
      }
      var list := spent[h];
      var i := |list|;
      assert list[..i] == list;
      while i > 0
        invariant 0 <= i <= |list|
        invariant LastBelow(list, height) == LastBelow(list[..i], height)
      {
        i := i - 1;
        assert list[..i + 1][..i] == list[..i];
        if list[i].height < height {
          return Some(list[i]);
        }
      }
      r := None;
    }

    /** The most recent transaction of that name, fully spent or not. */
    method FetchTxBySha(h: Hash) returns (r: TxData)
      ensures r == if h in live then live[h] else OfRecord(LastBelow(SpentList(spent, h), MAX_HEIGHT))
    {
      if h in live {
        return live[h];
      }
      var last := FetchLastFullySpentTxBeforeHeight(h, MAX_HEIGHT);
      r := OfRecord(last);
    }

    method FetchUnSpentTxBySha(h: Hash) returns (r: TxData)
      ensures r == if h in live then live[h] else Missing
    {
      r := if h in live then live[h] else Missing;
    }
  }

  const MAX_HEIGHT: nat := 0xFFFF_FFFF_FFFF_FFFF

  function SpentList(spent: map<Hash, seq<Placed>>, h: Hash): seq<Placed> {
    if h in spent then spent[h] else []
  }

  function OfRecord(p: Option<Placed>): TxData {
    if p.None? then Missing else Found(p.value.tx, p.value.height, EverySpent(|p.value.tx.outs|))
  }

  function LastBelow(list: seq<Placed>, height: nat): Option<Placed> {
    if list == [] then None
    else if list[|list| - 1].height < height then Some(list[|list| - 1])
    else LastBelow(list[..|list| - 1], height)
  }

  /** The flags of a transaction fill whole bytes.  At height 0 the rest of the last byte is never set, so that the tables
      never find all of it set. */
  predicate Padded(p: Placed) {
    p.height == 0 && |p.tx.outs| % 8 != 0
  }

  /** At some time the transaction at j was the latest of its hash and had every output spent, and the tables saw it. */
  ghost predicate Recorded(main: seq<Placed>, j: nat)
    requires j < |main|
  {
    !Padded(main[j]) && exists e :: j < e <= |main| && RecordedAt(main, j, e)
  }

  ghost predicate RecordedAt(main: seq<Placed>, j: nat, e: nat)
    requires j < e <= |main|
  {
    Latest(main[..e], main[j].tx.id) == Some(j) && FullySpent(View(main[..e], main[j].tx.id))
  }

  ghost function RecordedList(main: seq<Placed>, n: nat, h: Hash): seq<Placed>
    requires n <= |main|
  {
    if n == 0 then []
    else if main[n - 1].tx.id == h && Recorded(main, n - 1) then RecordedList(main, n - 1, h) + [main[n - 1]]
    else RecordedList(main, n - 1, h)
  }

  /** The transaction stays among the unspent ones when all its outputs are spent. */
  predicate Kept(d: TxData) {
    d.Found? && Padded(Placed(d.tx, d.height))
  }

  /** No transaction repeats the hash of one that is never recorded. */
  ghost predicate NoneRepeated(main: seq<Placed>) {
    forall k, j :: 0 <= k < j < |main| && main[k].tx.id == main[j].tx.id ==> !Padded(main[k])
  }

  /** The tables hold what the main chain says. */
  ghost predicate Reflects(db: Database, main: seq<Placed>) {
    && NoneRepeated(main)
    && (forall h: Hash :: h in db.live <==> !FullySpent(View(main, h)) || Kept(View(main, h)))
    && (forall h :: h in db.live ==> db.live[h] == View(main, h))
    && (forall h: Hash :: SpentList(db.spent, h) == RecordedList(main, |main|, h))
    && (forall k :: 0 <= k < |main| ==> main[k].height < MAX_HEIGHT && |main[k].tx.outs| <= MAX_INDEX)
  }

  ghost function At(main: seq<Placed>, j: Option<nat>): Option<Placed>
    requires j.Some? ==> j.value < |main|
  {
    if j.None? then None else Some(main[j.value])
  }

  lemma ValidAt(main: seq<Placed>, j: nat)
    requires Valid(main) && j < |main|
    ensures Extends(main[..j], main[j])
  {
  }

  /** Of two transactions with the same hash the earlier one is recorded and lies lower. */
  lemma {:induction false} EarlierIsRecorded(main: seq<Placed>, k: nat, j: nat)
    requires Valid(main) && NoneRepeated(main) && k < j < |main| && main[k].tx.id == main[j].tx.id
    ensures Recorded(main, k) && main[k].height < main[j].height
    decreases j
  {
    hide View, Valid;
    ValidAt(main, j);
    assert main[..j][k] == main[k];
    var l := Latest(main[..j], main[j].tx.id).value;
    if l == k {
      assert RecordedAt(main, k, j);
    } else {
      EarlierIsRecorded(main, k, l);
    }
  }

  /** The last fully spent transaction below the height of position j is the latest one before j. */
  lemma {:induction false} LastBelowIs(main: seq<Placed>, n: nat, j: nat)
    requires Valid(main) && NoneRepeated(main) && j < |main| && n <= |main|
    ensures LastBelow(RecordedList(main, n, main[j].tx.id), main[j].height) ==
            At(main, Latest(main[..if n <= j then n else j], main[j].tx.id))
  {
    hide Valid, Recorded;
    var h := main[j].tx.id;
    if n > 0 {
      LastBelowIs(main, n - 1, j);
      var rest := RecordedList(main, n - 1, h);
      if main[n - 1].tx.id == h {
        if n - 1 < j {
          EarlierIsRecorded(main, n - 1, j);
        } else if n - 1 > j {
          EarlierIsRecorded(main, j, n - 1);
        }
        assert (rest + [main[n - 1]])[..|rest|] == rest;
      }
      if n <= j {
        assert main[..n][..n - 1] == main[..n - 1];
      }
    }
  }

  lemma LastInstance(db: Database, main: seq<Placed>, j: nat)
    requires Valid(main) && Reflects(db, main) && j < |main|
    ensures LastBelow(SpentList(db.spent, main[j].tx.id), main[j].height) == At(main, Latest(main[..j], main[j].tx.id))
  {
    LastBelowIs(main, |main|, j);
  }

  // ----- undoing one transaction

  /** What was left marked before the transaction at position j was undone. */
  ghost function Rest(main: seq<Placed>, j: nat, h: Hash): seq<OutPoint>
    requires j < |main|
  {
    if main[j].tx.id == h then [] else CoinbaseLeft(main, j + 1, h)
  }

  /** The entries are the view before position j, with the outputs in ops and the earlier leftovers still marked. */
  ghost predicate StillMarked(entries: Entries, main: seq<Placed>, j: nat, ops: seq<OutPoint>)
    requires j < |main|
  {
    forall h :: h in entries ==> entries[h] == Mark(View(main[..j], h), h, ops + Rest(main, j, h))
  }

  lemma MarkMark(d: TxData, h: Hash, first: seq<OutPoint>, next: seq<OutPoint>)
    ensures Mark(Mark(d, h, first), h, next) == Mark(d, h, first + next)
  {
    if d.Found? {
      assert Mark(Mark(d, h, first), h, next).spent == Mark(d, h, first + next).spent;
    }
  }

  lemma MarkSpent(d: TxData, h: Hash, ops: seq<OutPoint>)
    requires FullySpent(d)
    ensures Mark(d, h, ops) == d
  {
    if d.Found? {
      assert Mark(d, h, ops).spent == d.spent;
    }
  }

  lemma Cleared(was: Entries, entries: Entries, main: seq<Placed>, j: nat)
    requires Valid(main) && j < |main| && Sees(was, main, j + 1, main[..j + 1])
    requires entries == if main[j].tx.id !in was then was
                        else was[main[j].tx.id := OfRecord(At(main, Latest(main[..j], main[j].tx.id)))]
    ensures StillMarked(entries, main, j, Spends(main[j].tx))
    ensures !IsCoinBase(main[j].tx) ==> StillMarked(entries, main, j, main[j].tx.ins[0..])
  {
    hide Valid, Extends, View, Mark, Seen, Spends, IsCoinBase, OfRecord, CoinbaseLeft;
    var p := main[j];
    ValidAt(main, j);
    forall h | h in entries
      ensures entries[h] == Mark(View(main[..j], h), h, Spends(p.tx) + Rest(main, j, h))
    {
      if h == p.tx.id {
        OwnCleared(main[..j], p, Spends(p.tx) + Rest(main, j, h));
      } else {
        OtherCleared(main, j, h);
      }
    }
    SpendsAllInputs(p.tx);
    assert p.tx.ins[0..] == p.tx.ins;
  }

  lemma OtherCleared(main: seq<Placed>, j: nat, h: Hash)
    requires j < |main| && main[j].tx.id != h
    ensures Seen(main, j + 1, main[..j + 1], h) ==
            Mark(View(main[..j], h), h, Spends(main[j].tx) + CoinbaseLeft(main, j + 1, h))
  {
    hide View, Mark, Seen, Spends, CoinbaseLeft;
    SeenStart(main, j + 1, h);
    assert main[..j + 1] == main[..j] + [main[j]];
    ViewSnoc(main[..j], main[j], h);
    MarkMark(View(main[..j], h), h, Spends(main[j].tx), CoinbaseLeft(main, j + 1, h));
  }

  lemma OwnCleared(hist: seq<Placed>, p: Placed, ops: seq<OutPoint>)
    requires Extends(hist, p)
    ensures Mark(View(hist, p.tx.id), p.tx.id, ops) == OfRecord(At(hist, Latest(hist, p.tx.id)))
  {
    var v := View(hist, p.tx.id);
    MarkSpent(v, p.tx.id, ops);
    if v.Found? {
      assert v.spent == EverySpent(|v.tx.outs|);
    }
  }

  lemma CoinbaseUndone(entries: Entries, main: seq<Placed>, j: nat)
    requires Valid(main) && j < |main| && IsCoinBase(main[j].tx)
    requires StillMarked(entries, main, j, Spends(main[j].tx))
    ensures Sees(entries, main, j, main[..j])
  {
    hide Valid, Extends, View, Mark, Seen, Spends;
    ValidAt(main, j);
    forall h | h in entries
      ensures entries[h] == Seen(main, j, main[..j], h)
    {
      SeenStart(main, j, h);
      if h == main[j].tx.id {
        OwnIsSpent(main[..j], main[j]);
        MarkSpent(View(main[..j], h), h, Spends(main[j].tx) + Rest(main, j, h));
        MarkSpent(View(main[..j], h), h, CoinbaseLeft(main, j, h));
      }
    }
  }

  lemma OwnIsSpent(hist: seq<Placed>, p: Placed)
    requires Extends(hist, p)
    ensures FullySpent(View(hist, p.tx.id))
  {
  }

  lemma Unspent(main: seq<Placed>, j: nat, op: OutPoint)
    requires Valid(main) && j < |main| && op in Spends(main[j].tx)
    ensures Spendable(View(main[..j], op.hash), op.index) && op.hash != main[j].tx.id
  {
    hide View;
    ValidAt(main, j);
    NoSelfSpend(main[..j], main[j], op.index);
  }

  /** What an undone coinbase left marked had not been spent before. */
  lemma {:induction false} LeftIsUnspent(main: seq<Placed>, n: nat, op: OutPoint)
    requires Valid(main) && n <= |main| && op in CoinbaseLeft(main, n, op.hash)
    ensures Spendable(View(main[..n], op.hash), op.index)
    decreases |main| - n
  {
    hide Valid, View, Spends, Mark;
    if IsCoinBase(main[n].tx) && op in Spends(main[n].tx) {
      Unspent(main, n, op);
    } else {
      LeftIsUnspent(main, n + 1, op);
      assert main[..n + 1] == main[..n] + [main[n]];
      ViewSnoc(main[..n], main[n], op.hash);
    }
  }

  lemma NotLeft(main: seq<Placed>, j: nat, op: OutPoint)
    requires Valid(main) && j < |main| && op in Spends(main[j].tx)
    ensures op !in Rest(main, j, op.hash)
  {
    hide Valid, View, Spends, Mark, CoinbaseLeft;
    Unspent(main, j, op);
    assert main[..j + 1] == main[..j] + [main[j]];
    ViewSnoc(main[..j], main[j], op.hash);
    if op in CoinbaseLeft(main, j + 1, op.hash) {
      LeftIsUnspent(main, j + 1, op);
    }
  }

  lemma UndoneStep(entries: Entries, main: seq<Placed>, j: nat, i: nat)
    requires Valid(main) && j < |main| && !IsCoinBase(main[j].tx)
    requires i < |main[j].tx.ins| && StillMarked(entries, main, j, main[j].tx.ins[i..])
    ensures var op := main[j].tx.ins[i];
            if op.hash in entries then
              var d := entries[op.hash];
              && d.Found? && op.index < |d.spent|
              && StillMarked(entries[op.hash := d.(spent := d.spent[op.index := false])], main, j, main[j].tx.ins[i + 1..])
            else StillMarked(entries, main, j, main[j].tx.ins[i + 1..])
  {
    var t := main[j].tx;
    var op := t.ins[i];
    hide Valid, View, Mark, IsCoinBase, Spends, StillMarked, Rest;
    SpendsAllInputs(t);
    TailSplit(t.ins, i);
    Unspent(main, j, op);
    NotLeft(main, j, op);
    InputsDistinct(main, j, i);
    UnmarkEntries(entries, main, j, op, t.ins[i + 1..]);
  }

  lemma TailSplit(ops: seq<OutPoint>, i: nat)
    requires i < |ops|
    ensures ops[i] in ops && ops[i..] == [ops[i]] + ops[i + 1..]
  {
  }

  lemma SpendsAllInputs(t: Tx)
    ensures !IsCoinBase(t) ==> Spends(t) == t.ins
  {
  }

  /** Unmarking the first of several marked outputs. */
  lemma UnmarkEntries(entries: Entries, main: seq<Placed>, j: nat, op: OutPoint, ops: seq<OutPoint>)
    requires j < |main| && StillMarked(entries, main, j, [op] + ops)
    requires op !in ops && op !in Rest(main, j, op.hash) && Spendable(View(main[..j], op.hash), op.index)
    ensures op.hash !in entries ==> StillMarked(entries, main, j, ops)
    ensures op.hash in entries ==>
              var d := entries[op.hash];
              && d.Found? && op.index < |d.spent|
              && StillMarked(entries[op.hash := d.(spent := d.spent[op.index := false])], main, j, ops)
  {
    hide View, Mark, Rest;
    forall h | h in entries
      ensures h != op.hash ==> entries[h] == Mark(View(main[..j], h), h, ops + Rest(main, j, h))
    {
      Unmark(View(main[..j], h), h, op, ops, Rest(main, j, h));
    }
    Unmark(View(main[..j], op.hash), op.hash, op, ops, Rest(main, j, op.hash));
  }

  lemma InputsDistinct(main: seq<Placed>, j: nat, i: nat)
    requires Valid(main) && j < |main| && !IsCoinBase(main[j].tx) && i < |main[j].tx.ins|
    ensures main[j].tx.ins[i] !in main[j].tx.ins[i + 1..]
  {
    hide View;
    ValidAt(main, j);
  }

  lemma Unmark(d: TxData, h: Hash, op: OutPoint, ops: seq<OutPoint>, rest: seq<OutPoint>)
    requires op !in ops
    ensures op.hash != h ==> Mark(d, h, [op] + ops + rest) == Mark(d, h, ops + rest)
    ensures op.hash == h && op !in rest && d.Found? && op.index < |d.spent| && !d.spent[op.index] ==>
              var m := Mark(d, h, [op] + ops + rest);
              Mark(d, h, ops + rest) == m.(spent := m.spent[op.index := false])
  {
    if d.Found? {
      var m, n := Mark(d, h, [op] + ops + rest), Mark(d, h, ops + rest);
      if op.hash != h {
        assert m.spent == n.spent;
      } else if op !in rest && op.index < |d.spent| && !d.spent[op.index] {
        assert n.spent == m.spent[op.index := false];
      }
    }
  }

  lemma UndoneEnd(entries: Entries, main: seq<Placed>, j: nat)
    requires j < |main| && !IsCoinBase(main[j].tx)
    requires StillMarked(entries, main, j, main[j].tx.ins[|main[j].tx.ins|..])
    ensures Sees(entries, main, j, main[..j])
  {
    hide View, Mark, Seen;
    forall h | h in entries
      ensures entries[h] == Seen(main, j, main[..j], h)
    {
      SeenStart(main, j, h);
      assert main[j].tx.ins[|main[j].tx.ins|..] + Rest(main, j, h) == CoinbaseLeft(main, j, h);
    }
  }

  /** No undone coinbase left a mark on a requested hash. */
  ghost predicate NothingLeft(keys: set<Hash>, main: seq<Placed>, n: nat)
    requires n <= |main|
  {
    forall h :: h in keys ==> NoneLeft(main, n, h)
  }

  ghost predicate NoneLeft(main: seq<Placed>, n: nat, h: Hash)
    requires n <= |main|
  {
    forall op :: op in CoinbaseLeft(main, n, h) ==> op.hash != h
  }

  lemma LeftAgrees(entries: Entries, main: seq<Placed>, n: nat)
    requires Valid(main) && n <= |main| && Sees(entries, main, n, main[..n])
    ensures Agrees(entries, main[..n]) <==> NothingLeft(entries.Keys, main, n)
  {
    hide Valid, View, Seen, NoneLeft;
    forall h | h in entries
      ensures entries[h] == View(main[..n], h) <==> NoneLeft(main, n, h)
    {
      LeftIsView(main, n, h);
    }
  }

  lemma LeftIsView(main: seq<Placed>, n: nat, h: Hash)
    requires Valid(main) && n <= |main|
    ensures Seen(main, n, main[..n], h) == View(main[..n], h) <==> NoneLeft(main, n, h)
  {
    hide Valid, View, Seen, CoinbaseLeft;
    SeenStart(main, n, h);
    if NoneLeft(main, n, h) {
      MarkOther(View(main[..n], h), h, CoinbaseLeft(main, n, h));
    } else {
      var op :| op in CoinbaseLeft(main, n, h) && op.hash == h;
      LeftIsUnspent(main, n, op);
    }
  }

  /** One position further down only the coinbase that stands there can add to what is left. */
  lemma LeftStep(keys: set<Hash>, main: seq<Placed>, j: nat)
    requires Valid(main) && j < |main| && NothingLeft(keys, main, j + 1)
    ensures NothingLeft(keys, main, j) <==> PlainFor(keys, main[j].tx)
  {
    hide Valid, View, Spends;
    forall h | h in keys
      ensures NoneLeft(main, j, h) <==> IsCoinBase(main[j].tx) ==> forall op :: op in Spends(main[j].tx) ==> op.hash != h
    {
      if h == main[j].tx.id {
        forall op | op in Spends(main[j].tx)
          ensures op.hash != h
        {
          Unspent(main, j, op);
        }
      }
    }
  }

  // ----- connecting one transaction

  /** The transaction's own entry is written, and the outputs in ops are marked. */
  ghost predicate Partly(entries: Entries, was: Entries, t: Tx, height: nat, ops: seq<OutPoint>) {
    && entries.Keys == was.Keys
    && forall h :: h in entries ==> entries[h] == if h == t.id then Fresh(Placed(t, height)) else Mark(was[h], h, ops)
  }

  lemma OwnEntry(was: Entries, t: Tx, height: nat)
    ensures (t.id in was && !FullySpent(was[t.id])) <==> (t.id in was && was[t.id].Found? && !AllSpent(was[t.id].spent))
    ensures var e := if t.id in was then was[t.id := Found(t, height, NoneSpent(|t.outs|))] else was;
            Partly(e, was, t, height, []) && Partly(e, was, t, height, t.ins[..0])
  {
    forall h | h in was
      ensures Mark(was[h], h, []) == was[h]
    {
      MarkNone(was[h], h);
    }
    assert t.ins[..0] == [];
  }

  lemma PartlyStep(entries: Entries, was: Entries, t: Tx, height: nat, i: nat)
    requires i < |t.ins| && Partly(entries, was, t, height, t.ins[..i]) && !NamesItself(t)
    ensures var op := t.ins[i];
            && (Outside(was, t, op) <==>
                  op.hash in entries && entries[op.hash].Found? && op.index >= |entries[op.hash].spent|)
            && (op.hash in entries && entries[op.hash].Found? && op.index < |entries[op.hash].spent| ==>
                  var d := entries[op.hash];
                  Partly(entries[op.hash := d.(spent := d.spent[op.index := true])], was, t, height, t.ins[..i + 1]))
            && (!(op.hash in entries && entries[op.hash].Found?) ==> Partly(entries, was, t, height, t.ins[..i + 1]))
  {
    hide Mark;
    var op := t.ins[i];
    assert t.ins[..i + 1] == t.ins[..i] + [op];
    assert op.hash != t.id;
    forall h | h in entries
      ensures h != op.hash ==> Mark(was[h], h, t.ins[..i + 1]) == Mark(was[h], h, t.ins[..i])
    {
      MarkMore(was[h], h, t.ins[..i], op);
    }
    if op.hash in entries {
      MarkMore(was[op.hash], op.hash, t.ins[..i], op);
    }
  }

  lemma Finished(entries: Entries, was: Entries, t: Tx, height: nat)
    requires Partly(entries, was, t, height, Ordinary(t))
    ensures AllApplied(was, entries, t, height)
  {
  }

  lemma SeesAgrees(entries: Entries, main: seq<Placed>, n: nat, hist: seq<Placed>)
    requires n <= |main| && Sees(entries, main, n, hist)
    ensures Agrees(entries, hist) <==> InStep(entries.Keys, main, n, hist)
  {
    hide Seen, View, Balanced;
    forall h | h in entries
      ensures entries[h] == View(hist, h) <==> Balanced(main, n, hist, h)
    {
      SeenIsView(main, n, hist, h);
    }
  }

  // ----- the view from any node

  lemma {:induction false} LastBelowAny(main: seq<Placed>, n: nat, h: Hash)
    requires Valid(main) && NoneRepeated(main) && n <= |main| && FullySpent(View(main, h)) && !Kept(View(main, h))
    requires forall k :: 0 <= k < |main| ==> main[k].height < MAX_HEIGHT
    ensures LastBelow(RecordedList(main, n, h), MAX_HEIGHT) == At(main, Latest(main[..n], h))
  {
    hide Valid, Recorded, View;
    if n > 0 {
      LastBelowAny(main, n - 1, h);
      var rest := RecordedList(main, n - 1, h);
      assert main[..n][..n - 1] == main[..n - 1];
      if main[n - 1].tx.id == h {
        InstanceIsRecorded(main, n - 1);
        assert (rest + [main[n - 1]])[..|rest|] == rest;
      }
    }
  }

  lemma LatestPlaced(main: seq<Placed>, h: Hash)
    requires Latest(main, h).Some?
    ensures var v := View(main, h); v.Found? && Placed(v.tx, v.height) == main[Latest(main, h).value]
  {
  }

  lemma InstanceIsRecorded(main: seq<Placed>, k: nat)
    requires Valid(main) && NoneRepeated(main) && k < |main|
    requires FullySpent(View(main, main[k].tx.id)) && !Kept(View(main, main[k].tx.id))
    ensures Recorded(main, k)
  {
    hide View, Valid;
    var l := Latest(main, main[k].tx.id).value;
    if l == k {
      assert main[..|main|] == main;
      LatestPlaced(main, main[k].tx.id);
      assert RecordedAt(main, k, |main|);
    } else {
      EarlierIsRecorded(main, k, l);
    }
  }

  /** What the database answers for the tip is the view of the main chain. */
  lemma TipView(db: Database, main: seq<Placed>, h: Hash)
    requires Valid(main) && Reflects(db, main)
    ensures (if h in db.live then db.live[h] else OfRecord(LastBelow(SpentList(db.spent, h), MAX_HEIGHT))) == View(main, h)
  {
    if h !in db.live {
      LastBelowAny(main, |main|, h);
      assert main[..|main|] == main;
      var v := View(main, h);
      if v.Found? {
        assert v.spent == EverySpent(|v.tx.outs|);
      }
    }
  }

  /** The entries are the view, except that fully spent transactions may be left out. */
  ghost predicate Serves(entries: Entries, hist: seq<Placed>) {
    forall h :: h in entries ==>
      entries[h] == View(hist, h) || (entries[h].Missing? && FullySpent(View(hist, h)))
  }

  /** Leaving out fully spent transactions does not change what can be spent. */
  lemma ServesSpendable(entries: Entries, hist: seq<Placed>, op: OutPoint)
    requires Serves(entries, hist) && op.hash in entries
    ensures Spendable(entries[op.hash], op.index) <==> Spendable(View(hist, op.hash), op.index)
  {
    hide View;
  }

  method FetchTxStoreMain(db: Database, txSet: set<Hash>, includeSpent: bool, ghost main: seq<Placed>)
    returns (store: TxStore)
    requires Valid(main) && Reflects(db, main)
    ensures fresh(store) && store.entries.Keys == txSet
    ensures includeSpent ==> Agrees(store.entries, main)
    ensures Serves(store.entries, main)
  {
    hide View, Valid, Reflects, LastBelow;
    store := new TxStore(map[]);
    var rest := txSet;
    while rest != {}
      invariant rest <= txSet && store.entries.Keys == txSet - rest
      invariant includeSpent ==> Agrees(store.entries, main)
      invariant Serves(store.entries, main)
      decreases |rest|
    {
      var h :| h in rest;
      TipView(db, main, h);
      LiveView(db, main, h);
      var reply;
      if includeSpent {
        reply := db.FetchTxBySha(h);
      } else {
        reply := db.FetchUnSpentTxBySha(h);
      }
      store.entries := store.entries[h := reply];
      rest := rest - {h};
    }
  }

  lemma LiveView(db: Database, main: seq<Placed>, h: Hash)
    requires Reflects(db, main)
    ensures h in db.live ==> db.live[h] == View(main, h)
    ensures h !in db.live ==> FullySpent(View(main, h))
  {
    hide View;
  }

  lemma AgreesServes(entries: Entries, hist: seq<Placed>)
    requires Agrees(entries, hist)
    ensures Serves(entries, hist)
  {
    hide View;
  }

  function Reverse(s: seq<Block>): (r: seq<Block>)
    ensures |r| == |s| && forall i :: 0 <= i < |s| ==> r[i] == s[|s| - 1 - i]
  {
    seq(|s|, i requires 0 <= i < |s| => s[|s| - 1 - i])
  }

  /** No coinbase of the blocks spends anything that was requested. */
  predicate Plain(keys: set<Hash>, blocks: seq<Block>) {
    forall b :: b in blocks ==> forall t :: t in b.txs ==> PlainFor(keys, t)
  }

  /** Cryptographic hashing gives this: no transaction names its own hash. */
  predicate Hashed(blocks: seq<Block>) {
    forall b :: b in blocks ==> forall t :: t in b.txs ==> !NamesItself(t)
  }

  lemma PlaceAllSnoc(blocks: seq<Block>, b: Block)
    ensures PlaceAll(blocks + [b]) == PlaceAll(blocks) + Place(b.txs, b.height)
  {
    assert (blocks + [b])[..|blocks|] == blocks;
  }

  /** Disconnecting blocks from the tip of the main chain, newest first: what is left is the view of the base with the
      marks of the undone coinbases, and the view itself exactly when those marked nothing that was requested. */
  method Detach(store: TxStore, db: Database, detach: seq<Block>, ghost base: seq<Block>)
    requires Valid(PlaceAll(base + Reverse(detach))) && Reflects(db, PlaceAll(base + Reverse(detach)))
    requires Agrees(store.entries, PlaceAll(base + Reverse(detach)))
    modifies store
    ensures store.entries.Keys == old(store.entries.Keys)
    ensures Undoes(base, detach)
    ensures Sees(store.entries, MainChain(base, detach), |PlaceAll(base)|, PlaceAll(base))
    ensures Agrees(store.entries, PlaceAll(base)) <==>
              NothingLeft(store.entries.Keys, MainChain(base, detach), |PlaceAll(base)|)
  {
    hide View, Seen, Sees, Agrees, Valid, Reflects, PlaceAll, NothingLeft, OneCoinBase, PlainFor;
    ghost var main := PlaceAll(base + Reverse(detach));
    ghost var keys := store.entries.Keys;
    ghost var left := Reverse(detach);
    assert main[..|main|] == main;
    AllSeen(store.entries, main);
    for i := 0 to |detach|
      invariant store.entries.Keys == keys
      invariant left == Reverse(detach)[..|detach| - i]
      invariant PlaceAll(base + left) <= main
      invariant Sees(store.entries, main, |PlaceAll(base + left)|, PlaceAll(base + left))
    {
      var b := detach[i];
      ghost var less := left[..|left| - 1];
      assert left[|left| - 1] == b;
      assert base + left == base + less + [b];
      PlaceAllSnoc(base + less, b);
      ghost var n := |PlaceAll(base + less)|;
      assert main[..n + |b.txs|] == PlaceAll(base + left);
      assert main[n..n + |b.txs|] == Place(b.txs, b.height);
      var r := store.DisconnectTransactions(db, b, main, n);
      assert main[..n] == PlaceAll(base + less);
      left := less;
    }
    assert left == [] && base + [] == base;
    assert main[..|PlaceAll(base)|] == PlaceAll(base);
    LeftAgrees(store.entries, main, |PlaceAll(base)|);
  }

  /** The main chain, when its blocks above the base are given newest first. */
  function MainChain(base: seq<Block>, detach: seq<Block>): seq<Placed> {
    PlaceAll(base + Reverse(detach))
  }

  ghost predicate Undoes(base: seq<Block>, detach: seq<Block>) {
    PlaceAll(base) <= MainChain(base, detach)
  }

  lemma BaseIsPrefix(base: seq<Block>, more: seq<Block>)
    ensures PlaceAll(base) <= PlaceAll(base + more)
  {
    if more == [] {
      assert base + more == base;
    } else {
      var less := more[..|more| - 1];
      BaseIsPrefix(base, less);
      assert base + more == base + less + [more[|more| - 1]];
      PlaceAllSnoc(base + less, more[|more| - 1]);
    }
  }

  lemma AllSeen(entries: Entries, main: seq<Placed>)
    requires Agrees(entries, main)
    ensures Sees(entries, main, |main|, main)
  {
    hide View, Seen;
    assert main[..|main|] == main;
    forall h | h in entries
      ensures entries[h] == Seen(main, |main|, main, h)
    {
      SeenStart(main, |main|, h);
      MarkNone(View(main, h), h);
    }
  }

  /** Connecting blocks in order, until one cannot be applied. */
  method Attach(store: TxStore, attach: seq<Block>, ghost base: seq<Block>, ghost main: seq<Placed>) returns (r: Outcome)
    requires PlaceAll(base) <= main && Sees(store.entries, main, |PlaceAll(base)|, PlaceAll(base))
    requires Hashed(attach)
    modifies store
    ensures store.entries.Keys == old(store.entries.Keys)
    ensures r == Ok ==> Sees(store.entries, main, |PlaceAll(base)|, PlaceAll(base + attach))
    ensures r == Ok <==> AllApplicable(store.entries.Keys, main, base, attach)
    ensures r == Ok ==> (Agrees(store.entries, PlaceAll(base + attach)) <==>
                         InStep(store.entries.Keys, main, |PlaceAll(base)|, PlaceAll(base + attach)))
  {
    hide View, Seen, Sees, Agrees, PlaceAll, NamesItself, Inapplicable, InStep;
    ghost var keys, n := store.entries.Keys, |PlaceAll(base)|;
    assert base + attach[..0] == base;
    for i := 0 to |attach|
      invariant store.entries.Keys == keys
      invariant Sees(store.entries, main, n, PlaceAll(base + attach[..i]))
      invariant forall k :: 0 <= k < i ==> !Inapplicable(keys, main, n, PlaceAll(base + attach[..k]), attach[k])
    {
      PlaceAllSnoc(base + attach[..i], attach[i]);
      assert base + attach[..i] + [attach[i]] == base + attach[..i + 1];
      BaseIsPrefix(base, attach[..i]);
      r := store.ConnectTransactions(attach[i], main, n, PlaceAll(base + attach[..i]));
      if r != Ok {
        return;
      }
    }
    assert attach[..|attach|] == attach;
    SeesAgrees(store.entries, main, n, PlaceAll(base + attach));
    r := Ok;
  }

  /** Every block of the branch can be applied to what the store shows where it stands. */
  ghost predicate AllApplicable(keys: set<Hash>, main: seq<Placed>, base: seq<Block>, attach: seq<Block>)
    requires |PlaceAll(base)| <= |main|
  {
    forall k :: 0 <= k < |attach| ==>
      !Inapplicable(keys, main, |PlaceAll(base)|, PlaceAll(base + attach[..k]), attach[k])
  }

  /** When no moved coinbase spends anything requested, the branch is in step. */
  lemma MovedPlain(keys: set<Hash>, base: seq<Block>, detach: seq<Block>, attach: seq<Block>)
    requires Plain(keys, detach) && Plain(keys, attach)
    ensures |PlaceAll(base)| <= |MainChain(base, detach)|
    ensures InStep(keys, MainChain(base, detach), |PlaceAll(base)|, PlaceAll(base + attach))
  {
    hide Spends, CoinbaseLeft, PlaceAll, PlainFor, MarkedAfter, SpentAfter, Balanced;
    BaseIsPrefix(base, Reverse(detach));
    var main, n, hist := MainChain(base, detach), |PlaceAll(base)|, PlaceAll(base + attach);
    forall k | n <= k < |main|
      ensures PlainFor(keys, main[k].tx)
    {
      var b := AboveBase(base, Reverse(detach), k);
    }
    forall k | n <= k < |hist|
      ensures PlainFor(keys, hist[k].tx)
    {
      var b := AboveBase(base, attach, k);
    }
    forall h | h in keys
      ensures Balanced(main, n, hist, h)
    {
      PlainLeft(keys, main, n, h);
      PlainBalanced(keys, main, n, hist, h);
    }
  }

  /** A transaction above the base stands in one of the blocks above it. */
  lemma {:induction false} AboveBase(base: seq<Block>, more: seq<Block>, k: nat) returns (b: Block)
    requires |PlaceAll(base)| <= k < |PlaceAll(base + more)|
    ensures b in more && PlaceAll(base + more)[k].tx in b.txs
    decreases more
  {
    hide PlaceAll;
    assert base + [] == base;
    var less, last := more[..|more| - 1], more[|more| - 1];
    assert base + more == base + less + [last];
    PlaceAllSnoc(base + less, last);
    if k < |PlaceAll(base + less)| {
      b := AboveBase(base, less, k);
    } else {
      b := last;
      assert PlaceAll(base + more)[k] == Place(b.txs, b.height)[k - |PlaceAll(base + less)|];
    }
  }

  lemma {:induction false} PlainLeft(keys: set<Hash>, main: seq<Placed>, n: nat, h: Hash)
    requires n <= |main| && h in keys && forall k :: n <= k < |main| ==> PlainFor(keys, main[k].tx)
    ensures NoneLeft(main, n, h)
    decreases |main| - n
  {
    if n < |main| {
      PlainLeft(keys, main, n + 1, h);
    }
  }

  lemma PlainBalanced(keys: set<Hash>, main: seq<Placed>, n: nat, hist: seq<Placed>, h: Hash)
    requires n <= |main| && h in keys && NoneLeft(main, n, h)
    requires forall k :: n <= k < |hist| ==> PlainFor(keys, hist[k].tx)
    ensures Balanced(main, n, hist, h)
  {
    hide CoinbaseLeft;
    if Latest(hist, h).Some? {
      var j := Latest(hist, h).value;
      forall k, i: nat | n <= k < |hist| && j < k && i < |hist[j].tx.outs| && OutPoint(h, i) in Spends(hist[k].tx)
        ensures MarkedAfter(hist, n, j, OutPoint(h, i))
      {
        assert PlainFor(keys, hist[k].tx);
        assert OutPoint(h, i) in Marks(hist, n, k);
      }
    }
  }

  /** The view from a node whose parent ends base + attach, while the main chain is base + detach reversed.  Off the
      main chain the store is the view exactly when the branch is in step, which it is when no moved coinbase spends
      anything requested. */
  method FetchTxStore(db: Database, txSet: set<Hash>, parentIsBest: bool, detach: seq<Block>, attach: seq<Block>,
                      ghost base: seq<Block>)
    returns (r: Outcome, store: TxStore)
    requires Valid(MainChain(base, detach)) && Reflects(db, MainChain(base, detach)) && Hashed(attach)
    requires parentIsBest ==> detach == [] && attach == []
    ensures fresh(store) && store.entries.Keys == txSet
    ensures Undoes(base, detach)
    ensures r == Ok <==> AllApplicable(txSet, MainChain(base, detach), base, attach)
    ensures parentIsBest ==> Serves(store.entries, PlaceAll(base + attach))
    ensures r == Ok && !parentIsBest ==>
              Sees(store.entries, MainChain(base, detach), |PlaceAll(base)|, PlaceAll(base + attach))
    ensures r == Ok && !parentIsBest ==>
              (Agrees(store.entries, PlaceAll(base + attach)) <==>
               InStep(txSet, MainChain(base, detach), |PlaceAll(base)|, PlaceAll(base + attach)))
    ensures r == Ok && Plain(txSet, detach) && Plain(txSet, attach) ==> Serves(store.entries, PlaceAll(base + attach))
  {
    hide View, Seen, Sees, Agrees, Valid, Reflects, PlaceAll, Plain, Serves, InStep, NothingLeft;
    ghost var main := MainChain(base, detach);
    BaseIsPrefix(base, Reverse(detach));
    if parentIsBest {
      assert base + Reverse(detach) == base + attach;
      store := FetchTxStoreMain(db, txSet, false, main);
      return Ok, store;
    }
    store := FetchTxStoreMain(db, txSet, true, main);
    Detach(store, db, detach, base);
    r := Ok;
    if |attach| == 0 {
      assert base + attach == base;
      SeesAgrees(store.entries, main, |PlaceAll(base)|, PlaceAll(base));
    } else {
      r := Attach(store, attach, base, main);
    }
    if r == Ok && Plain(txSet, detach) && Plain(txSet, attach) {
      MovedPlain(txSet, base, detach, attach);
      AgreesServes(store.entries, PlaceAll(base + attach));
    }
  }
}
