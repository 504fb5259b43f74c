/** Storing a block: the tables of unspent and fully spent transactions follow the chain. */
module TxTables {
  import opened Ledger
  import opened TxLookup

  type Live = map<Hash, TxData>
  type Spent = map<Hash, seq<Placed>>

  /** What the tables say of a hash once the transaction p is inserted and the outputs in ops are marked. */
  ghost function Midway(main: seq<Placed>, p: Placed, ops: seq<OutPoint>, h: Hash): TxData {
    if p.tx.id == h then Fresh(p) else Mark(View(main, h), h, ops)
  }

  /** The record that a hash gains when its last output is marked. */
  ghost function Gained(main: seq<Placed>, p: Placed, ops: seq<OutPoint>, h: Hash): seq<Placed> {
    var v := View(main, h);
    if p.tx.id != h && !FullySpent(v) && FullySpent(Midway(main, p, ops, h)) && !Kept(v) then [Placed(v.tx, v.height)]
    else []
  }

  /** The tables are those of the history, changed by p and by the marks of ops. */
  ghost predicate Storing(live: Live, spent: Spent, main: seq<Placed>, p: Placed, ops: seq<OutPoint>) {
    forall h: Hash :: StoringAt(live, spent, main, p, ops, h)
  }

  ghost predicate StoringAt(live: Live, spent: Spent, main: seq<Placed>, p: Placed, ops: seq<OutPoint>, h: Hash) {
    && (h in live <==> !FullySpent(Midway(main, p, ops, h)) || Kept(Midway(main, p, ops, h)))
    && (h in live ==> live[h] == Midway(main, p, ops, h))
    && SpentList(spent, h) == RecordedList(main, |main|, h) + Gained(main, p, ops, h)
  }

  /** The flags as they are stored: whole bytes, the rest of the last one set except at height 0. */
  function Bits(height: nat, spent: seq<bool>): seq<bool> {
    spent + seq((8 - |spent| % 8) % 8, _ => height != 0)
  }

  /** Every stored bit is set. */
  predicate Whole(d: TxData) {
    d.Found? && AllSpent(Bits(d.height, d.spent))
  }

  /** All bits are set exactly when all outputs are spent, except for a transaction at height 0 that does not fill its
      bytes. */
  lemma WholeMeans(d: TxData)
    requires d.Found? && |d.spent| == |d.tx.outs|
    ensures Whole(d) <==> FullySpent(d) && !Kept(d)
  {
    var bits := Bits(d.height, d.spent);
    assert forall i :: 0 <= i < |d.spent| ==> bits[i] == d.spent[i];
    assert forall i :: |d.spent| <= i < |bits| ==> bits[i] == (d.height != 0);
    if |d.spent| % 8 != 0 {
      assert bits[|d.spent|] == (d.height != 0);
    }
  }

  /** Marks an output in the table of unspent transactions, and moves the transaction to the other table when every bit is
      set.  A transaction that is not in the table cannot be marked. */
  method SetSpentData(live: Live, spent: Spent, op: OutPoint) returns (r: Option<(Live, Spent)>)
    ensures r.Some? <==> op.hash in live && live[op.hash].Found? && op.index < |live[op.hash].spent|
    ensures r.Some? ==>
              var d := live[op.hash].(spent := live[op.hash].spent[op.index := true]);
              var list := SpentList(spent, op.hash) + [Placed(d.tx, d.height)];
              r.value == if Whole(d) then (live - {op.hash}, spent[op.hash := list]) else (live[op.hash := d], spent)
  {
    if op.hash !in live || live[op.hash].Missing? || op.index >= |live[op.hash].spent| {
      return None;
    }
    var d := live[op.hash].(spent := live[op.hash].spent[op.index := true]);
    if AllSpent(Bits(d.height, d.spent)) {
      return Some((live - {op.hash}, spent[op.hash := SpentList(spent, op.hash) + [Placed(d.tx, d.height)]]));
    }
    r := Some((live[op.hash := d], spent));
  }

  /** One marked output takes the tables one step further. */
  lemma SpendStep(live: Live, spent: Spent, main: seq<Placed>, p: Placed, i: nat)
    requires Extends(main, p) && i < |Spends(p.tx)| && Storing(live, spent, main, p, Spends(p.tx)[..i])
    ensures var op := Spends(p.tx)[i];
            && op.hash in live && live[op.hash].Found? && op.index < |live[op.hash].spent|
            && var d := live[op.hash].(spent := live[op.hash].spent[op.index := true]);
               if Whole(d) then
                 Storing(live - {op.hash}, spent[op.hash := SpentList(spent, op.hash) + [Placed(d.tx, d.height)]], main, p,
                         Spends(p.tx)[..i + 1])
               else Storing(live[op.hash := d], spent, main, p, Spends(p.tx)[..i + 1])
  {
    hide View, Mark, FullySpent, RecordedList, Spends, Extends, Whole, Padded;
    var ops, op := Spends(p.tx)[..i], Spends(p.tx)[i];
    assert Spends(p.tx)[..i + 1] == ops + [op];
    StillUnspent(main, p, i);
    assert StoringAt(live, spent, main, p, ops, op.hash);
    var d := live[op.hash].(spent := live[op.hash].spent[op.index := true]);
    MarkMore(View(main, op.hash), op.hash, ops, op);
    assert d == Midway(main, p, ops + [op], op.hash);
    ViewFlags(main, op.hash);
    WholeMeans(d);
    assert Kept(d) == Kept(View(main, op.hash));
    var live' := if Whole(d) then live - {op.hash} else live[op.hash := d];
    var spent' := if Whole(d) then spent[op.hash := SpentList(spent, op.hash) + [Placed(d.tx, d.height)]] else spent;
    forall h: Hash
      ensures StoringAt(live', spent', main, p, ops + [op], h)
    {
      assert StoringAt(live, spent, main, p, ops, h);
      if h != op.hash {
        MarkMore(View(main, h), h, ops, op);
      }
    }
  }

  lemma ViewFlags(main: seq<Placed>, h: Hash)
    ensures var v := View(main, h); v.Found? ==> |v.spent| == |v.tx.outs|
  {
  }

  /** The next output to mark is not marked yet, so its transaction is still in the table. */
  lemma StillUnspent(main: seq<Placed>, p: Placed, i: nat)
    requires Extends(main, p) && i < |Spends(p.tx)|
    ensures var op := Spends(p.tx)[i];
            var m := Midway(main, p, Spends(p.tx)[..i], op.hash);
            && op.hash != p.tx.id && Spendable(View(main, op.hash), op.index) && Spendable(m, op.index)
            && !FullySpent(m) && !FullySpent(View(main, op.hash)) && |m.spent| == |View(main, op.hash).spent|
            && m.tx == View(main, op.hash).tx && m.height == View(main, op.hash).height
  {
    hide View;
    var op := Spends(p.tx)[i];
    assert op in Spends(p.tx);
    NoSelfSpend(main, p, op.index);
    assert OutPoint(op.hash, op.index) == op;
    assert op !in Spends(p.tx)[..i];
  }

  /** Marks all that a transaction spends, the further inputs of a coinbase included. */
  method DoSpend(live: Live, spent: Spent, t: Tx, ghost main: seq<Placed>, ghost height: nat)
    returns (r: Option<(Live, Spent)>)
    ensures Extends(main, Placed(t, height)) && Storing(live, spent, main, Placed(t, height), []) &&
            (forall k :: 0 <= k < |main| ==> |main[k].tx.outs| <= MAX_INDEX) ==>
              r.Some? && Storing(r.value.0, r.value.1, main, Placed(t, height), Spends(t))
  {
    hide Storing, Extends, Spends, FullySpent, Whole;
    ghost var valid := Extends(main, Placed(t, height)) && Storing(live, spent, main, Placed(t, height), []) &&
                       forall k :: 0 <= k < |main| ==> |main[k].tx.outs| <= MAX_INDEX;
    var l, s := live, spent;
    var ops := Spends(t);
    assert ops[..0] == [];
    for i := 0 to |ops|
      invariant valid ==> Storing(l, s, main, Placed(t, height), ops[..i])
    {
      if valid {
        NotNull(main, Placed(t, height), i);
        SpendStep(l, s, main, Placed(t, height), i);
      }
      if ops[i].index == MAX_INDEX {
        continue;
      }
      var next := SetSpentData(l, s, ops[i]);
      if next.None? {
        return None;
      }
      l, s := next.value.0, next.value.1;
    }
    assert ops[..|ops|] == ops;
    r := Some((l, s));
  }

  /** No output has the null index. */
  lemma NotNull(main: seq<Placed>, p: Placed, i: nat)
    requires Extends(main, p) && i < |Spends(p.tx)|
    requires forall k :: 0 <= k < |main| ==> |main[k].tx.outs| <= MAX_INDEX
    ensures Spends(p.tx)[i].index < MAX_INDEX
  {
    var op := Spends(p.tx)[i];
    assert op in Spends(p.tx);
    assert Spendable(View(main, op.hash), op.index);
  }

  lemma InsertStart(db: Database, main: seq<Placed>, p: Placed)
    requires Reflects(db, main) && Extends(main, p)
    ensures Storing(db.live[p.tx.id := Fresh(p)], db.spent, main, p, [])
  {
    hide View, Mark, RecordedList;
    FreshIsLive(p);
    var live := db.live[p.tx.id := Fresh(p)];
    forall h: Hash
      ensures StoringAt(live, db.spent, main, p, [], h)
    {
      MarkNone(View(main, h), h);
    }
  }

  lemma FreshIsLive(p: Placed)
    ensures |p.tx.outs| >= 1 ==> !FullySpent(Fresh(p))
  {
    if |p.tx.outs| >= 1 {
      assert !Fresh(p).spent[0];
    }
  }

  /** The records after one more transaction: those before, and the hash whose last output it spent. */
  lemma RecordedSnoc(main: seq<Placed>, p: Placed, h: Hash)
    requires |p.tx.outs| >= 1
    ensures RecordedList(main + [p], |main| + 1, h) == RecordedList(main, |main|, h) + Gained(main, p, Spends(p.tx), h)
  {
    hide View, Recorded, Gained, FullySpent;
    var all := main + [p];
    assert all[|main|] == p;
    OwnNotRecorded(main, p);
    RecordedUpTo(main, p, h, |main|);
    NothingGained(main, p, h);
  }

  lemma NothingGained(main: seq<Placed>, p: Placed, h: Hash)
    ensures p.tx.id == h || Latest(main, h).None? ==> Gained(main, p, Spends(p.tx), h) == []
  {
  }

  lemma GainedIs(main: seq<Placed>, p: Placed, j: nat)
    requires j < |main| && Latest(main, main[j].tx.id) == Some(j)
    ensures var h := main[j].tx.id;
            Gained(main, p, Spends(p.tx), h) ==
            if p.tx.id != h && !FullySpent(View(main, h)) && FullySpent(View(main + [p], h)) && !Padded(main[j])
            then [main[j]] else []
  {
    hide FullySpent, Mark, Spends;
    ViewSnoc(main, p, main[j].tx.id);
  }

  lemma OwnNotRecorded(main: seq<Placed>, p: Placed)
    requires |p.tx.outs| >= 1
    ensures !Recorded(main + [p], |main|)
  {
    hide View;
    var all := main + [p];
    assert all[..|main| + 1] == all && all[|main|] == p;
    ViewSnoc(main, p, p.tx.id);
    FreshIsLive(p);
  }

  lemma {:induction false} RecordedUpTo(main: seq<Placed>, p: Placed, h: Hash, n: nat)
    requires n <= |main|
    ensures RecordedList(main + [p], n, h) == RecordedList(main, n, h) +
            (if Latest(main, h).Some? && Latest(main, h).value < n then Gained(main, p, Spends(p.tx), h) else [])
  {
    hide View, Recorded, FullySpent, Mark, Spends, Gained;
    if n > 0 {
      RecordedUpTo(main, p, h, n - 1);
      assert (main + [p])[n - 1] == main[n - 1];
      if main[n - 1].tx.id == h {
        RecordedNow(main, p, n - 1);
      }
    }
  }

  /** The transaction at j has a record afterwards if it had one or gains one now. */
  lemma RecordedNow(main: seq<Placed>, p: Placed, j: nat)
    requires j < |main|
    ensures var h := main[j].tx.id;
            var g := Gained(main, p, Spends(p.tx), h);
            if Latest(main, h) == Some(j) && g != [] then g == [main[j]] && !Recorded(main, j) && Recorded(main + [p], j)
            else (Recorded(main + [p], j) <==> Recorded(main, j)) && (Latest(main, h) == Some(j) ==> g == [])
  {
    hide View, FullySpent, Mark, Spends, Latest, Gained, Recorded;
    var h, all := main[j].tx.id, main + [p];
    assert all[..|all|] == all && all[j] == main[j];
    LatestSnoc(main, p, h);
    RecordedMore(main, p, j);
    if Latest(main, h) == Some(j) {
      GainedIs(main, p, j);
      NotYetRecorded(main, j);
      ViewSnoc(main, p, h);
      if FullySpent(View(main, h)) && p.tx.id != h {
        MarkSpent(View(main, h), h, Spends(p.tx));
      }
    }
  }

  lemma LatestSnoc(main: seq<Placed>, p: Placed, h: Hash)
    ensures Latest(main + [p], h) == if p.tx.id == h then Some(|main|) else Latest(main, h)
  {
    assert (main + [p])[..|main|] == main;
  }

  lemma RecordedMore(main: seq<Placed>, p: Placed, j: nat)
    requires j < |main|
    ensures Recorded(main + [p], j) <==> Recorded(main, j) || (!Padded(main[j]) && RecordedAt(main + [p], j, |main| + 1))
  {
    hide View, FullySpent, Latest;
    var all := main + [p];
    forall e | j < e <= |main|
      ensures RecordedAt(all, j, e) <==> RecordedAt(main, j, e)
    {
      assert all[..e] == main[..e] && all[j] == main[j];
    }
  }

  /** While a transaction is the latest of its hash, a record of it stays right: its outputs stay spent. */
  lemma NotYetRecorded(main: seq<Placed>, j: nat)
    requires j < |main| && Latest(main, main[j].tx.id) == Some(j)
    ensures Recorded(main, j) <==> FullySpent(View(main, main[j].tx.id)) && !Padded(main[j])
  {
    hide View, FullySpent, Latest;
    var h := main[j].tx.id;
    assert main[..|main|] == main;
    if FullySpent(View(main, h)) {
      assert RecordedAt(main, j, |main|);
    }
    if Recorded(main, j) {
      var e :| j < e <= |main| && RecordedAt(main, j, e);
      StaysSpent(main, j, e, |main|);
    }
  }

  lemma {:induction false} StaysSpent(main: seq<Placed>, j: nat, e: nat, n: nat)
    requires j < e <= n <= |main| && Latest(main, main[j].tx.id) == Some(j)
    requires FullySpent(View(main[..e], main[j].tx.id))
    ensures FullySpent(View(main[..n], main[j].tx.id))
  {
    hide View, FullySpent, Latest, Mark;
    if e < n {
      StaysSpent(main, j, e, n - 1);
      assert main[..n] == main[..n - 1] + [main[n - 1]];
      ViewSnoc(main[..n - 1], main[n - 1], main[j].tx.id);
      MarkSpent(View(main[..n - 1], main[j].tx.id), main[j].tx.id, Spends(main[n - 1].tx));
    }
  }

  lemma Stored(live: Live, spent: Spent, main: seq<Placed>, p: Placed, db: Database)
    requires Extends(main, p) && p.height < MAX_HEIGHT && Storing(live, spent, main, p, Spends(p.tx))
    requires db.live == live && db.spent == spent
    requires forall k :: 0 <= k < |main| ==> main[k].height < MAX_HEIGHT && |main[k].tx.outs| <= MAX_INDEX
    ensures NoneRepeated(main + [p]) <==> Reflects(db, main + [p])
  {
    hide View, Mark, RecordedList, FullySpent, Spends, Gained, Kept;
    forall h: Hash
      ensures h in live <==> !FullySpent(View(main + [p], h)) || Kept(View(main + [p], h))
      ensures h in live ==> live[h] == View(main + [p], h)
      ensures SpentList(spent, h) == RecordedList(main + [p], |main| + 1, h)
    {
      assert StoringAt(live, spent, main, p, Spends(p.tx), h);
      ViewSnoc(main, p, h);
      RecordedSnoc(main, p, h);
    }
  }

  /** Storing a valid transaction: the tables reflect the chain with it, exactly when it does not repeat the hash of a
      transaction at height 0 that is never recorded. */
  method InsertTx(db: Database, t: Tx, height: nat, ghost main: seq<Placed>) returns (r: Option<Database>)
    ensures Reflects(db, main) && Extends(main, Placed(t, height)) && height < MAX_HEIGHT ==>
              r.Some? && (Reflects(r.value, main + [Placed(t, height)]) <==> NoneRepeated(main + [Placed(t, height)]))
  {
    hide Reflects, Extends, Storing;
    ghost var valid := Reflects(db, main) && Extends(main, Placed(t, height)) && height < MAX_HEIGHT;
    if valid {
      InsertStart(db, main, Placed(t, height));
      HeightsKnown(db, main);
    }
    var live := db.live[t.id := Found(t, height, NoneSpent(|t.outs|))];
    var next := DoSpend(live, db.spent, t, main, height);
    if next.None? {
      return None;
    }
    var d := new Database(next.value.0, next.value.1);
    if valid {
      Stored(next.value.0, next.value.1, main, Placed(t, height), d);
    }
    r := Some(d);
  }

  lemma HeightsKnown(db: Database, main: seq<Placed>)
    requires Reflects(db, main)
    ensures forall k :: 0 <= k < |main| ==> main[k].height < MAX_HEIGHT && |main[k].tx.outs| <= MAX_INDEX
  {
    hide View;
  }
}
