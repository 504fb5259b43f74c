/** Deleting a block: the tables go back to what they were before it was stored. */
module TxUndo {
  import opened Ledger
  import opened TxLookup
  import opened TxTables
  import opened BlockChecks
  import opened MoneyBound

  /** The entry with the outputs in ops no longer marked. */
  function Lifted(d: TxData, h: Hash, ops: seq<OutPoint>): (r: TxData)
    ensures r.Found? == d.Found?
    ensures r.Found? ==> |r.spent| == |d.spent| && r.tx == d.tx && r.height == d.height
    ensures r.Found? ==> forall i :: 0 <= i < |r.spent| ==> r.spent[i] == (d.spent[i] && OutPoint(h, i) !in ops)
  {
    match d
    case Missing => Missing
    case Found(tx, height, spent) =>
      Found(tx, height, seq(|spent|, i requires 0 <= i < |spent| => spent[i] && OutPoint(h, i) !in ops))
  }

  /** What the first i transactions of a block spend. */
  function BlockSpends(b: Block, i: nat): seq<OutPoint>
    requires i <= |b.txs|
  {
    if i == 0 then [] else BlockSpends(b, i - 1) + Spends(b.txs[i - 1])
  }

  /** No transaction of the block spends from a hash that a later one places. */
  ghost predicate NoForward(b: Block) {
    forall i, q, op :: 0 <= i < q < |b.txs| && op in Spends(b.txs[i]) ==> op.hash != b.txs[q].id
  }

  // ----- the tables on the way

  /** The records that are left once the outputs in ops are no longer marked: the last one of a hash is taken back when it
      was fully spent and no longer is. */
  ghost function Remaining(main: seq<Placed>, h: Hash, ops: seq<OutPoint>): seq<Placed> {
    var list, v := RecordedList(main, |main|, h), View(main, h);
    if v.Found? && FullySpent(v) && !Kept(v) && !FullySpent(Lifted(v, h, ops)) && list != [] then list[..|list| - 1]
    else list
  }

  ghost predicate UndoingAt(live: Live, spent: Spent, main: seq<Placed>, ops: seq<OutPoint>, h: Hash) {
    var e := Lifted(View(main, h), h, ops);
    && (h in live <==> !FullySpent(e) || Kept(e))
    && (h in live ==> live[h] == e)
    && SpentList(spent, h) == Remaining(main, h, ops)
  }

  ghost predicate Undoing(live: Live, spent: Spent, main: seq<Placed>, ops: seq<OutPoint>) {
    forall h: Hash :: UndoingAt(live, spent, main, ops, h)
  }

  lemma LiftedNone(d: TxData, h: Hash)
    ensures Lifted(d, h, []) == d
  {
    if d.Found? {
      assert Lifted(d, h, []).spent == d.spent;
    }
  }

  lemma LiftedMore(d: TxData, h: Hash, ops: seq<OutPoint>, op: OutPoint)
    ensures op.hash != h ==> Lifted(d, h, ops + [op]) == Lifted(d, h, ops)
    ensures op.hash == h && d.Found? && op.index < |d.spent| ==>
              var e := Lifted(d, h, ops);
              Lifted(d, h, ops + [op]) == e.(spent := e.spent[op.index := false])
  {
    if d.Found? {
      var m, n := Lifted(d, h, ops), Lifted(d, h, ops + [op]);
      if op.hash != h {
        assert n.spent == m.spent;
      } else if op.index < |d.spent| {
        assert n.spent == m.spent[op.index := false];
      }
    }
  }

  lemma UndoingStart(db: Database, main: seq<Placed>)
    requires Reflects(db, main)
    ensures Undoing(db.live, db.spent, main, [])
  {
    hide View, RecordedList;
    forall h: Hash
      ensures UndoingAt(db.live, db.spent, main, [], h)
    {
      LiftedNone(View(main, h), h);
    }
  }

  /** The last record of a fully spent hash is its latest transaction. */
  lemma {:induction false} LastRecord(main: seq<Placed>, n: nat, h: Hash)
    requires n <= |main| && Latest(main, h).Some? && Latest(main, h).value < n && Recorded(main, Latest(main, h).value)
    ensures var list := RecordedList(main, n, h); list != [] && list[|list| - 1] == main[Latest(main, h).value]
  {
    hide Recorded;
    var j := Latest(main, h).value;
    if n - 1 > j {
      LastRecord(main, n - 1, h);
    }
  }

  lemma SpentIsRecorded(main: seq<Placed>, h: Hash)
    requires var v := View(main, h); v.Found? && FullySpent(v) && !Kept(v)
    ensures var list, v := RecordedList(main, |main|, h), View(main, h);
            list != [] && list[|list| - 1] == Placed(v.tx, v.height)
  {
    hide RecordedList, FullySpent;
    var j := Latest(main, h).value;
    assert main[..|main|] == main;
    assert RecordedAt(main, j, |main|);
    LastRecord(main, |main|, h);
  }

  /** Clears a mark: in the table of unspent transactions, or on the last record of the hash, which comes back there. */
  method ClearSpentData(live: Live, spent: Spent, op: OutPoint) returns (r: Option<(Live, Spent)>)
    ensures op.hash in live && live[op.hash].Found? && op.index < |live[op.hash].spent| ==>
              var d := live[op.hash];
              r == Some((live[op.hash := d.(spent := d.spent[op.index := false])], spent))
    ensures op.hash !in live && SpentList(spent, op.hash) != [] ==>
              var list := SpentList(spent, op.hash);
              var p := list[|list| - 1];
              op.index < |p.tx.outs| ==>
                r == Some((live[op.hash := Found(p.tx, p.height, EverySpent(|p.tx.outs|)[op.index := false])],
                           spent[op.hash := list[..|list| - 1]]))
  {
    if op.hash in live {
      var d := live[op.hash];
      if d.Missing? || op.index >= |d.spent| {
        return None;
      }
      return Some((live[op.hash := d.(spent := d.spent[op.index := false])], spent));
    }
    var list := SpentList(spent, op.hash);
    if list == [] {
      return None;
    }
    var p := list[|list| - 1];
    if op.index >= |p.tx.outs| {
      return None;
    }
    r := Some((live[op.hash := Found(p.tx, p.height, EverySpent(|p.tx.outs|)[op.index := false])],
               spent[op.hash := list[..|list| - 1]]));
  }

  /** A mark that is set and not yet lifted. */
  ghost predicate Lifts(main: seq<Placed>, ops: seq<OutPoint>, op: OutPoint) {
    var v := View(main, op.hash);
    v.Found? && op.index < |v.spent| && v.spent[op.index] && op !in ops
  }

  lemma ClearStep(live: Live, spent: Spent, main: seq<Placed>, ops: seq<OutPoint>, op: OutPoint)
    requires Undoing(live, spent, main, ops) && Lifts(main, ops, op)
    ensures op.hash in live ==>
              var d := live[op.hash];
              && d.Found? && op.index < |d.spent|
              && Undoing(live[op.hash := d.(spent := d.spent[op.index := false])], spent, main, ops + [op])
    ensures op.hash !in live ==>
              var list := SpentList(spent, op.hash);
              && list != [] && op.index < |list[|list| - 1].tx.outs|
              && var p := list[|list| - 1];
                 Undoing(live[op.hash := Found(p.tx, p.height, EverySpent(|p.tx.outs|)[op.index := false])],
                         spent[op.hash := list[..|list| - 1]], main, ops + [op])
  {
    hide View, RecordedList, Lifted, Padded;
    var v, e := View(main, op.hash), Lifted(View(main, op.hash), op.hash, ops);
    var e' := Lifted(v, op.hash, ops + [op]);
    assert UndoingAt(live, spent, main, ops, op.hash);
    LiftedMore(v, op.hash, ops, op);
    assert OutPoint(op.hash, op.index) == op && e.spent[op.index] && !e'.spent[op.index];
    LiftedOut(main, op, ops);
    var live', spent';
    if op.hash in live {
      live', spent' := live[op.hash := e'], spent;
    } else {
      SpentIsRecorded(main, op.hash);
      var list := SpentList(spent, op.hash);
      live', spent' := live[op.hash := e'], spent[op.hash := list[..|list| - 1]];
    }
    forall h: Hash
      ensures UndoingAt(live', spent', main, ops + [op], h)
    {
      assert UndoingAt(live, spent, main, ops, h);
      if h != op.hash {
        LiftedMore(View(main, h), h, ops, op);
      }
    }
  }

  /** When the lifted entry is fully spent, so was the view; the record then spells out the entry. */
  lemma LiftedOut(main: seq<Placed>, op: OutPoint, ops: seq<OutPoint>)
    requires Lifts(main, ops, op)
    ensures var v := View(main, op.hash);
            var e := Lifted(v, op.hash, ops);
            && (FullySpent(e) ==> FullySpent(v)) && Kept(e) == Kept(v) && |v.spent| == |v.tx.outs|
            && !FullySpent(Lifted(v, op.hash, ops + [op]))
            && (FullySpent(e) ==>
                  Lifted(v, op.hash, ops + [op]) ==
                  Found(v.tx, v.height, EverySpent(|v.tx.outs|)[op.index := false]))
  {
    hide SpentAfter, Latest;
    var v := View(main, op.hash);
    var e, e' := Lifted(v, op.hash, ops), Lifted(v, op.hash, ops + [op]);
    LiftedMore(v, op.hash, ops, op);
    assert !e'.spent[op.index];
    if FullySpent(e) {
      assert forall i :: 0 <= i < |v.spent| ==> e.spent[i] ==> v.spent[i];
      assert e'.spent == EverySpent(|v.tx.outs|)[op.index := false];
    }
  }

  // ----- the spends of a block

  ghost predicate Marked(d: TxData, i: nat) {
    d.Found? && i < |d.spent| && d.spent[i]
  }

  /** What a transaction of the block spends is marked from then on. */
  lemma {:induction false} StaysMarked(hist: seq<Placed>, b: Block, i: nat, m: nat, op: OutPoint)
    requires ExtendsAll(hist, b) && NoForward(b) && i < m <= |b.txs| && op in Spends(b.txs[i])
    ensures Marked(View(Before(hist, b, m), op.hash), op.index)
  {
    hide View, Before, Extends, Spends;
    BeforeNext(hist, b, m - 1);
    var cur, p := Before(hist, b, m - 1), Placed(b.txs[m - 1], b.height);
    ViewSnoc(cur, p, op.hash);
    assert OutPoint(op.hash, op.index) == op;
    if i == m - 1 {
      assert Extends(cur, p);
      SpendsUnspent(cur, p, op);
    } else {
      StaysMarked(hist, b, i, m - 1, op);
    }
  }

  lemma SpendsUnspent(hist: seq<Placed>, p: Placed, op: OutPoint)
    requires Extends(hist, p) && op in Spends(p.tx)
    ensures Spendable(View(hist, op.hash), op.index) && op.hash != p.tx.id
  {
    hide View;
    NoSelfSpend(hist, p, op.index);
  }

  lemma {:induction false} InBlockSpends(b: Block, i: nat, op: OutPoint) returns (k: nat)
    requires i <= |b.txs| && op in BlockSpends(b, i)
    ensures k < i && op in Spends(b.txs[k])
  {
    hide Spends;
    if op in Spends(b.txs[i - 1]) {
      k := i - 1;
    } else {
      k := InBlockSpends(b, i - 1, op);
    }
  }

  /** Each input of the block can be lifted when its turn comes. */
  lemma CanLift(hist: seq<Placed>, b: Block, i: nat, k: nat)
    requires ExtendsAll(hist, b) && NoForward(b) && i < |b.txs| && k < |Spends(b.txs[i])|
    ensures Lifts(Before(hist, b, |b.txs|), BlockSpends(b, i) + Spends(b.txs[i])[..k], Spends(b.txs[i])[k])
  {
    hide View, Before, Extends, Spends, BlockSpends;
    var op := Spends(b.txs[i])[k];
    assert op in Spends(b.txs[i]);
    StaysMarked(hist, b, i, |b.txs|, op);
    var cur, p := Before(hist, b, i), Placed(b.txs[i], b.height);
    assert Extends(cur, p);
    SpendsUnspent(cur, p, op);
    if op in BlockSpends(b, i) {
      var j := InBlockSpends(b, i, op);
      StaysMarked(hist, b, j, i, op);
    }
    DistinctSpends(cur, p, k);
  }

  lemma DistinctSpends(hist: seq<Placed>, p: Placed, k: nat)
    requires Extends(hist, p) && k < |Spends(p.tx)|
    ensures Spends(p.tx)[k] !in Spends(p.tx)[..k]
  {
    hide View;
  }

  /** The entry of a hash when nothing the first i transactions spend counts: fresh if one of them placed it. */
  ghost function Settled(hist: seq<Placed>, b: Block, i: nat, h: Hash): TxData
    requires i <= |b.txs|
  {
    if i == 0 then View(hist, h)
    else if b.txs[i - 1].id == h then Fresh(Placed(b.txs[i - 1], b.height))
    else Settled(hist, b, i - 1, h)
  }

  lemma {:induction false} SettledOther(hist: seq<Placed>, b: Block, i: nat, h: Hash)
    requires i <= |b.txs| && forall q :: 0 <= q < i ==> b.txs[q].id != h
    ensures Settled(hist, b, i, h) == View(hist, h)
  {
    if i > 0 {
      SettledOther(hist, b, i - 1, h);
    }
  }

  lemma {:induction false} SettledOwn(hist: seq<Placed>, b: Block, i: nat, q: nat)
    requires q < i <= |b.txs| && forall r :: q < r < i ==> b.txs[r].id != b.txs[q].id
    ensures Settled(hist, b, i, b.txs[q].id) == Fresh(Placed(b.txs[q], b.height))
  {
    if q < i - 1 {
      SettledOwn(hist, b, i - 1, q);
    }
  }

  /** With the marks of the block lifted, its own entries are fresh and all others as before it. */
  lemma {:induction false} LiftedBlock(hist: seq<Placed>, b: Block, i: nat, h: Hash)
    requires ExtendsAll(hist, b) && i <= |b.txs|
    ensures Lifted(View(Before(hist, b, i), h), h, BlockSpends(b, i)) == Settled(hist, b, i, h)
  {
    hide View, Before, Extends, Spends, Lifted, Mark, Fresh;
    if i == 0 {
      EmptyBefore(hist, b);
      LiftedNone(View(hist, h), h);
    } else {
      LiftedBlock(hist, b, i - 1, h);
      BeforeNext(hist, b, i - 1);
      var cur, p := Before(hist, b, i - 1), Placed(b.txs[i - 1], b.height);
      assert Extends(cur, p);
      ViewSnoc(cur, p, h);
      LiftedFresh(p, h, BlockSpends(b, i));
      LiftedMarks(cur, p, h, BlockSpends(b, i - 1));
    }
  }

  lemma LiftedFresh(p: Placed, h: Hash, ops: seq<OutPoint>)
    ensures Lifted(Fresh(p), h, ops) == Fresh(p)
  {
    assert Lifted(Fresh(p), h, ops).spent == Fresh(p).spent;
  }

  lemma LiftedMarks(hist: seq<Placed>, p: Placed, h: Hash, ops: seq<OutPoint>)
    requires Extends(hist, p)
    ensures var v := View(hist, h);
            Lifted(Mark(v, h, Spends(p.tx)), h, ops + Spends(p.tx)) == Lifted(v, h, ops)
  {
    hide View, Spends;
    var v := View(hist, h);
    if v.Found? {
      var l, r := Lifted(Mark(v, h, Spends(p.tx)), h, ops + Spends(p.tx)), Lifted(v, h, ops);
      forall i | 0 <= i < |v.spent|
        ensures l.spent[i] == r.spent[i]
      {
        if OutPoint(h, i) in Spends(p.tx) {
          SpendsUnspent(hist, p, OutPoint(h, i));
        }
      }
      assert l.spent == r.spent;
    }
  }

  // ----- the records of a block

  /** The record a hash gains over the block: its latest transaction, if that is fully spent and was not before. */
  ghost function NewRecord(hist: seq<Placed>, cur: seq<Placed>, h: Hash): seq<Placed> {
    var v := View(cur, h);
    if v.Found? && FullySpent(v) && !Kept(v) && !(Latest(hist, h) == Latest(cur, h) && FullySpent(View(hist, h)))
    then [Placed(v.tx, v.height)] else []
  }

  /** What the block places was fully spent before the block. */
  lemma {:induction false} FullyBefore(hist: seq<Placed>, b: Block, q: nat, i: nat)
    requires ExtendsAll(hist, b) && NoForward(b) && i <= q < |b.txs|
    ensures FullySpent(View(Before(hist, b, i), b.txs[q].id))
    decreases q - i
  {
    hide View, Before, Extends, Spends, FullySpent;
    var h := b.txs[q].id;
    if i == q {
      assert Extends(Before(hist, b, q), Placed(b.txs[q], b.height));
      OwnIsSpent(Before(hist, b, q), Placed(b.txs[q], b.height));
    } else {
      FullyBefore(hist, b, q, i + 1);
      BeforeNext(hist, b, i);
      var cur, p := Before(hist, b, i), Placed(b.txs[i], b.height);
      assert Extends(cur, p);
      if p.tx.id == h {
        OwnIsSpent(cur, p);
      } else {
        ViewSnoc(cur, p, h);
        UnmarkedFully(View(cur, h), h, Spends(p.tx));
      }
    }
  }

  lemma UnmarkedFully(d: TxData, h: Hash, ops: seq<OutPoint>)
    requires FullySpent(Mark(d, h, ops)) && forall op :: op in ops ==> op.hash != h
    ensures FullySpent(d)
  {
    MarkOther(d, h, ops);
  }

  lemma {:induction false} BlockRecords(hist: seq<Placed>, b: Block, i: nat, h: Hash)
    requires ExtendsAll(hist, b) && NoForward(b) && i <= |b.txs|
    requires forall q, r :: 0 <= q < r < |b.txs| ==> b.txs[q].id != b.txs[r].id
    ensures var cur := Before(hist, b, i);
            RecordedList(cur, |cur|, h) == RecordedList(hist, |hist|, h) + NewRecord(hist, cur, h)
  {
    hide View, Before, Extends, Spends, FullySpent, RecordedList, NewRecord, Gained, NoForward;
    if i == 0 {
      EmptyBefore(hist, b);
      NoNewRecord(hist, h);
    } else {
      BlockRecords(hist, b, i - 1, h);
      BeforeNext(hist, b, i - 1);
      var cur, p := Before(hist, b, i - 1), Placed(b.txs[i - 1], b.height);
      assert Extends(cur, p);
      ExtendsOuts(cur, p);
      RecordedSnoc(cur, p, h);
      assert |cur + [p]| == |cur| + 1;
      if p.tx.id == h {
        FullyBefore(hist, b, i - 1, 0);
        EmptyBefore(hist, b);
        NotPlacedYet(hist, b, i - 1, h);
        OwnRecord(hist, cur, p);
      } else {
        OtherRecord(hist, b, i - 1, h);
      }
    }
  }

  lemma ExtendsOuts(hist: seq<Placed>, p: Placed)
    requires Extends(hist, p)
    ensures 1 <= |p.tx.outs|
  {
    hide View;
  }

  lemma NoNewRecord(hist: seq<Placed>, h: Hash)
    ensures NewRecord(hist, hist, h) == []
  {
  }

  /** Before its place in the block the hash stands where it stood before the block. */
  lemma {:induction false} NotPlacedYet(hist: seq<Placed>, b: Block, i: nat, h: Hash)
    requires i <= |b.txs| && forall q :: 0 <= q < i ==> b.txs[q].id != h
    ensures Latest(Before(hist, b, i), h) == Latest(hist, h)
  {
    hide Before;
    if i == 0 {
      EmptyBefore(hist, b);
    } else {
      NotPlacedYet(hist, b, i - 1, h);
      BeforeNext(hist, b, i - 1);
      LatestSnoc(Before(hist, b, i - 1), Placed(b.txs[i - 1], b.height), h);
    }
  }

  /** The transaction placed under the hash itself adds no record. */
  lemma OwnRecord(hist: seq<Placed>, cur: seq<Placed>, p: Placed)
    requires Extends(cur, p) && Latest(cur, p.tx.id) == Latest(hist, p.tx.id) && FullySpent(View(hist, p.tx.id))
    ensures NewRecord(hist, cur, p.tx.id) == [] == NewRecord(hist, cur + [p], p.tx.id)
    ensures Gained(cur, p, Spends(p.tx), p.tx.id) == []
  {
    hide View;
    ViewSnoc(cur, p, p.tx.id);
    FreshIsLive(p);
  }

  /** A transaction of another hash adds the record that is gained. */
  lemma OtherRecord(hist: seq<Placed>, b: Block, i: nat, h: Hash)
    requires i < |b.txs| && b.txs[i].id != h && ExtendsAll(hist, b)
    ensures var cur, p := Before(hist, b, i), Placed(b.txs[i], b.height);
            NewRecord(hist, cur + [p], h) == NewRecord(hist, cur, h) + Gained(cur, p, Spends(p.tx), h)
  {
    hide View, Extends, Spends, Before, Latest;
    var cur, p := Before(hist, b, i), Placed(b.txs[i], b.height);
    ViewSnoc(cur, p, h);
    LatestSnoc(cur, p, h);
    if FullySpent(View(cur, h)) {
      MarkSpent(View(cur, h), h, Spends(p.tx));
    } else if Latest(hist, h) == Latest(cur, h) && FullySpent(View(hist, h)) {
      StaysFully(hist, b, i, h);
    }
  }

  lemma StaysFully(hist: seq<Placed>, b: Block, i: nat, h: Hash)
    requires i <= |b.txs| && Latest(hist, h) == Latest(Before(hist, b, i), h) && FullySpent(View(hist, h))
    ensures FullySpent(View(Before(hist, b, i), h))
  {
    hide View, Before, FullySpent, Latest;
    var cur := Before(hist, b, i);
    BeforeLength(hist, b, i);
    assert cur[..|hist|] == hist by { BeforePrefix(hist, b, i); }
    if Latest(cur, h).Some? {
      LatestIn(cur, h);
      LatestIn(hist, h);
      var j := Latest(cur, h).value;
      assert cur[..|cur|] == cur;
      StaysSpent(cur, j, |hist|, |cur|);
    } else {
      NoneIsFull(cur, h);
    }
  }

  lemma BeforePrefix(hist: seq<Placed>, b: Block, i: nat)
    requires i <= |b.txs|
    ensures |hist| <= |Before(hist, b, i)| && Before(hist, b, i)[..|hist|] == hist
  {
  }

  lemma LatestIn(hist: seq<Placed>, h: Hash)
    ensures Latest(hist, h).Some? ==> Latest(hist, h).value < |hist| && hist[Latest(hist, h).value].tx.id == h
  {
  }

  lemma NoneIsFull(hist: seq<Placed>, h: Hash)
    requires Latest(hist, h).None?
    ensures FullySpent(View(hist, h))
  {
  }

  // ----- deleting a block

  /** The inputs of a transaction that count, among the first k. */
  function Counted(t: Tx, k: nat): seq<OutPoint>
    requires k <= |t.ins|
  {
    if !IsCoinBase(t) then t.ins[..k] else if k == 0 then [] else t.ins[1..k]
  }

  lemma CountedStep(t: Tx, k: nat)
    requires k < |t.ins|
    ensures Counted(t, k + 1) == if IsCoinBase(t) && k == 0 then [] else Counted(t, k) + [t.ins[k]]
    ensures Counted(t, 0) == [] && Counted(t, |t.ins|) == Spends(t)
    ensures !(IsCoinBase(t) && k == 0) ==>
              |Counted(t, k)| < |Spends(t)| && Spends(t)[|Counted(t, k)|] == t.ins[k] &&
              Counted(t, k) == Spends(t)[..|Counted(t, k)|]
  {
  }

  /** Lifts the marks of one transaction of the block. */
  method UnSpend(live: Live, spent: Spent, t: Tx, ghost hist: seq<Placed>, ghost b: Block, ghost i: nat)
    returns (r: Option<(Live, Spent)>)
    requires ExtendsAll(hist, b) && NoForward(b) && i < |b.txs| && b.txs[i] == t
    requires forall k :: 0 <= k < |hist| ==> |hist[k].tx.outs| <= MAX_INDEX
    requires Undoing(live, spent, Before(hist, b, |b.txs|), BlockSpends(b, i))
    ensures r.Some? && Undoing(r.value.0, r.value.1, Before(hist, b, |b.txs|), BlockSpends(b, i + 1))
  {
    hide Undoing, ExtendsAll, NoForward, Spends, BlockSpends, Before, Counted, Lifts, IsCoinBase;
    ghost var main, done := Before(hist, b, |b.txs|), BlockSpends(b, i);
    var l, s := live, spent;
    CountedNone(t);
    assert done + [] == done;
    for k := 0 to |t.ins|
      invariant Undoing(l, s, main, done + Counted(t, k))
    {
      CountedStep(t, k);
      NullOnly(hist, b, i, k);
      if t.ins[k].index == MAX_INDEX {
        continue;
      }
      CanLift(hist, b, i, |Counted(t, k)|);
      ClearStep(l, s, main, done + Counted(t, k), t.ins[k]);
      assert done + Counted(t, k) + [t.ins[k]] == done + Counted(t, k + 1);
      var next := ClearSpentData(l, s, t.ins[k]);
      if next.None? {
        return None;
      }
      l, s := next.value.0, next.value.1;
    }
    NextSpends(b, i);
    r := Some((l, s));
  }

  lemma CountedNone(t: Tx)
    ensures Counted(t, 0) == [] && Counted(t, |t.ins|) == Spends(t)
  {
  }

  lemma NextSpends(b: Block, i: nat)
    requires i < |b.txs|
    ensures BlockSpends(b, i + 1) == BlockSpends(b, i) + Spends(b.txs[i])
  {
  }

  /** Only the first input of a coinbase has the null index. */
  lemma NullOnly(hist: seq<Placed>, b: Block, i: nat, k: nat)
    requires ExtendsAll(hist, b) && i < |b.txs| && k < |b.txs[i].ins|
    requires forall m :: 0 <= m < |hist| ==> |hist[m].tx.outs| <= MAX_INDEX
    ensures b.txs[i].ins[k].index == MAX_INDEX <==> IsCoinBase(b.txs[i]) && k == 0
  {
    hide View, Before, Extends;
    var t, cur := b.txs[i], Before(hist, b, i);
    if !(IsCoinBase(t) && k == 0) {
      CountedStep(t, k);
      OutsBounded(hist, b, i);
      assert Extends(cur, Placed(t, b.height));
      NotNull(cur, Placed(t, b.height), |Counted(t, k)|);
    }
  }

  lemma OutsBounded(hist: seq<Placed>, b: Block, i: nat)
    requires ExtendsAll(hist, b) && i <= |b.txs| && forall k :: 0 <= k < |hist| ==> |hist[k].tx.outs| <= MAX_INDEX
    ensures forall k :: 0 <= k < |Before(hist, b, i)| ==> |Before(hist, b, i)[k].tx.outs| <= MAX_INDEX
  {
    hide View;
    forall k | 0 <= k < i
      ensures |b.txs[k].outs| <= MAX_INDEX
    {
      assert Extends(Before(hist, b, k), Placed(b.txs[k], b.height));
    }
  }

  /** Deleting a stored block gives back the tables that reflect the chain before it. */
  method DeleteBlock(db: Database, b: Block, ghost hist: seq<Placed>) returns (r: Option<Database>)
    requires ExtendsAll(hist, b) && NoForward(b) && Reflects(db, hist + Place(b.txs, b.height))
    ensures r.Some? && Reflects(r.value, hist)
  {
    hide Undoing, ExtendsAll, NoForward, BlockSpends, Before, Reflects;
    ghost var main := Before(hist, b, |b.txs|);
    WholeBlock(hist, b);
    HeightsKnown(db, main);
    KnownBefore(hist, b);
    UndoingStart(db, main);
    var live, spent := db.live, db.spent;
    assert BlockSpends(b, 0) == [] by { NoSpends(b); }
    for i := 0 to |b.txs|
      invariant Undoing(live, spent, main, BlockSpends(b, i))
    {
      var next := UnSpend(live, spent, b.txs[i], hist, b, i);
      if next.None? {
        return None;
      }
      live, spent := next.value.0, next.value.1;
    }
    ghost var lifted := live;
    for i := 0 to |b.txs|
      invariant forall h :: h in live <==> h in lifted && forall q :: 0 <= q < i ==> b.txs[q].id != h
      invariant forall h :: h in live ==> live[h] == lifted[h]
    {
      live := live - {b.txs[i].id};
    }
    var d := new Database(live, spent);
    Deleted(db, d, lifted, hist, b);
    r := Some(d);
  }

  lemma NoSpends(b: Block)
    ensures BlockSpends(b, 0) == []
  {
  }

  lemma WholeBlock(hist: seq<Placed>, b: Block)
    ensures Before(hist, b, |b.txs|) == hist + Place(b.txs, b.height)
  {
    assert b.txs[..|b.txs|] == b.txs;
  }

  lemma KnownBefore(hist: seq<Placed>, b: Block)
    requires forall k :: 0 <= k < |Before(hist, b, |b.txs|)| ==>
               Before(hist, b, |b.txs|)[k].height < MAX_HEIGHT && |Before(hist, b, |b.txs|)[k].tx.outs| <= MAX_INDEX
    ensures forall k :: 0 <= k < |hist| ==> hist[k].height < MAX_HEIGHT && |hist[k].tx.outs| <= MAX_INDEX
  {
    forall k | 0 <= k < |hist|
      ensures hist[k] == Before(hist, b, |b.txs|)[k]
    {
    }
  }

  lemma Deleted(was: Database, db: Database, lifted: Live, hist: seq<Placed>, b: Block)
    requires ExtendsAll(hist, b) && NoForward(b) && Reflects(was, Before(hist, b, |b.txs|))
    requires Undoing(lifted, db.spent, Before(hist, b, |b.txs|), BlockSpends(b, |b.txs|))
    requires forall h :: h in db.live <==> h in lifted && forall q :: 0 <= q < |b.txs| ==> b.txs[q].id != h
    requires forall h :: h in db.live ==> db.live[h] == lifted[h]
    requires forall k :: 0 <= k < |hist| ==> hist[k].height < MAX_HEIGHT && |hist[k].tx.outs| <= MAX_INDEX
    ensures Reflects(db, hist)
  {
    hide View, ExtendsAll, NoForward, BlockSpends, Before, RecordedList, FullySpent, Kept, UndoingAt, Reflects;
    IdsOnce(hist, b);
    OnceBefore(was, hist, b);
    forall h: Hash
      ensures h in db.live <==> !FullySpent(View(hist, h)) || Kept(View(hist, h))
      ensures h in db.live ==> db.live[h] == View(hist, h)
      ensures SpentList(db.spent, h) == RecordedList(hist, |hist|, h)
    {
      assert UndoingAt(lifted, db.spent, Before(hist, b, |b.txs|), BlockSpends(b, |b.txs|), h);
      if q :| 0 <= q < |b.txs| && b.txs[q].id == h {
        DeletedOwn(lifted, db.spent, hist, b, q);
      } else {
        DeletedOther(lifted, db.spent, hist, b, h);
      }
    }
    ReflectsIntro(db, hist);
  }

  lemma ReflectsIntro(db: Database, hist: seq<Placed>)
    requires NoneRepeated(hist)
    requires forall h: Hash :: h in db.live <==> !FullySpent(View(hist, h)) || Kept(View(hist, h))
    requires forall h :: h in db.live ==> db.live[h] == View(hist, h)
    requires forall h: Hash :: SpentList(db.spent, h) == RecordedList(hist, |hist|, h)
    requires forall k :: 0 <= k < |hist| ==> hist[k].height < MAX_HEIGHT && |hist[k].tx.outs| <= MAX_INDEX
    ensures Reflects(db, hist)
  {
    hide View, FullySpent, Kept, RecordedList;
  }

  lemma IdsOnce(hist: seq<Placed>, b: Block)
    requires ExtendsAll(hist, b)
    ensures forall q, r :: 0 <= q < r < |b.txs| ==> b.txs[q].id != b.txs[r].id
  {
    hide View;
    forall q, r | 0 <= q < r < |b.txs|
      ensures b.txs[q].id != b.txs[r].id
    {
      assert Extends(Before(hist, b, r), Placed(b.txs[r], b.height));
      BeforeAt(hist, b, r, q);
    }
  }

  lemma OnceBefore(db: Database, hist: seq<Placed>, b: Block)
    requires Reflects(db, Before(hist, b, |b.txs|))
    ensures NoneRepeated(hist)
    ensures forall k, q :: 0 <= k < |hist| && 0 <= q < |b.txs| && hist[k].tx.id == b.txs[q].id ==> !Padded(hist[k])
  {
    hide View, Padded;
    var main := Before(hist, b, |b.txs|);
    forall k | 0 <= k < |hist|
      ensures main[k] == hist[k]
    {
    }
    forall q | 0 <= q < |b.txs|
      ensures main[|hist| + q].tx == b.txs[q]
    {
      BeforeAt(hist, b, |b.txs|, q);
    }
  }

  /** A hash the block did not place is back where it was. */
  lemma DeletedOther(lifted: Live, spent: Spent, hist: seq<Placed>, b: Block, h: Hash)
    requires ExtendsAll(hist, b) && NoForward(b) && forall q :: 0 <= q < |b.txs| ==> b.txs[q].id != h
    requires forall q, r :: 0 <= q < r < |b.txs| ==> b.txs[q].id != b.txs[r].id
    requires UndoingAt(lifted, spent, Before(hist, b, |b.txs|), BlockSpends(b, |b.txs|), h)
    ensures h in lifted <==> !FullySpent(View(hist, h)) || Kept(View(hist, h))
    ensures h in lifted ==> lifted[h] == View(hist, h)
    ensures SpentList(spent, h) == RecordedList(hist, |hist|, h)
  {
    hide View, ExtendsAll, NoForward, BlockSpends, Before, RecordedList, Padded;
    var main := Before(hist, b, |b.txs|);
    LiftedBlock(hist, b, |b.txs|, h);
    SettledOther(hist, b, |b.txs|, h);
    BlockRecords(hist, b, |b.txs|, h);
    NotPlacedYet(hist, b, |b.txs|, h);
    var list, past, v := RecordedList(main, |main|, h), RecordedList(hist, |hist|, h), View(main, h);
    assert v.Found? ==> View(hist, h).tx == v.tx && View(hist, h).height == v.height;
    if FullySpent(View(hist, h)) {
      StaysFully(hist, b, |b.txs|, h);
      assert past + [] == past;
    } else if FullySpent(v) && !Kept(v) {
      assert (past + [Placed(v.tx, v.height)])[..|past|] == past;
    } else {
      assert past + [] == past;
    }
  }

  /** A hash the block placed leaves the table of unspent transactions, and its record goes. */
  lemma DeletedOwn(lifted: Live, spent: Spent, hist: seq<Placed>, b: Block, q: nat)
    requires ExtendsAll(hist, b) && NoForward(b) && q < |b.txs|
    requires forall i, r :: 0 <= i < r < |b.txs| ==> b.txs[i].id != b.txs[r].id
    requires forall k :: 0 <= k < |hist| && hist[k].tx.id == b.txs[q].id ==> !Padded(hist[k])
    requires UndoingAt(lifted, spent, Before(hist, b, |b.txs|), BlockSpends(b, |b.txs|), b.txs[q].id)
    ensures var h := b.txs[q].id;
            && FullySpent(View(hist, h)) && !Kept(View(hist, h))
            && SpentList(spent, h) == RecordedList(hist, |hist|, h)
  {
    hide View, ExtendsAll, NoForward, BlockSpends, Before, RecordedList, Padded;
    var h, main := b.txs[q].id, Before(hist, b, |b.txs|);
    FullyBefore(hist, b, q, 0);
    EmptyBefore(hist, b);
    NotKept(hist, h);
    LiftedBlock(hist, b, |b.txs|, h);
    SettledOwn(hist, b, |b.txs|, q);
    FreshOfBlock(hist, b, q);
    BlockRecords(hist, b, |b.txs|, h);
    PlacedLast(hist, b, q);
    var past, v := RecordedList(hist, |hist|, h), View(main, h);
    if v.Found? && FullySpent(v) && !Kept(v) {
      assert (past + [Placed(v.tx, v.height)])[..|past|] == past;
    } else {
      assert past + [] == past;
    }
  }

  lemma NotKept(hist: seq<Placed>, h: Hash)
    requires forall k :: 0 <= k < |hist| && hist[k].tx.id == h ==> !Padded(hist[k])
    ensures !Kept(View(hist, h))
  {
    hide Padded, SpentAfter;
  }

  lemma FreshOfBlock(hist: seq<Placed>, b: Block, q: nat)
    requires ExtendsAll(hist, b) && q < |b.txs|
    ensures !FullySpent(Fresh(Placed(b.txs[q], b.height)))
  {
    hide View;
    assert Extends(Before(hist, b, q), Placed(b.txs[q], b.height));
    FreshIsLive(Placed(b.txs[q], b.height));
  }

  /** After the block the latest transaction of that hash is the one the block placed. */
  lemma PlacedLast(hist: seq<Placed>, b: Block, q: nat)
    requires q < |b.txs|
    ensures Latest(hist, b.txs[q].id) != Latest(Before(hist, b, |b.txs|), b.txs[q].id)
  {
    hide Latest;
    var h, main := b.txs[q].id, Before(hist, b, |b.txs|);
    BeforeAt(hist, b, |b.txs|, q);
    LatestIn(hist, h);
    LatestAtLeast(main, h, |hist| + q);
  }

  lemma LatestAtLeast(hist: seq<Placed>, h: Hash, k: nat)
    requires k < |hist| && hist[k].tx.id == h
    ensures Latest(hist, h).Some? && k <= Latest(hist, h).value
  {
  }
}
