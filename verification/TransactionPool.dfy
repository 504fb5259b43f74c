/** The transaction pool, its outpoint index and its orphans. */
module TransactionPool {
  import opened Ledger

  const MAX_ORPHANS: nat := 1000

  type Pool = map<Hash, Tx>

  /** What the pool asks the main chain: hashes with unspent outputs, and outputs that are spent. */
  datatype ChainInfo = ChainInfo(known: set<Hash>, spent: set<OutPoint>)

  datatype Verdict = Accepted | MissingParents | Rejected

  /** Hashing makes the spend graph acyclic: a transaction names only hashes of lower rank than its own. */
  ghost predicate Ranked(rank: Hash -> nat, t: Tx) {
    forall op :: op in t.ins ==> rank(op.hash) < rank(t.id)
  }

  ghost predicate AllRanked(pool: Pool, rank: Hash -> nat) {
    forall h :: h in pool ==> pool[h].id == h && Ranked(rank, pool[h])
  }

  predicate References(t: Tx, h: Hash) {
    exists i :: 0 <= i < |t.ins| && t.ins[i].hash == h
  }

  /** b spends one of the outputs of a. */
  ghost predicate Redeems(a: Tx, b: Tx) {
    exists op :: op in b.ins && op.hash == a.id && op.index < |a.outs|
  }

  /** k depends on t through a chain of pooled transactions that each redeem the one before. */
  ghost predicate Dependent(pool: Pool, rank: Hash -> nat, t: Tx, k: Hash)
    decreases rank(k)
  {
    k in pool &&
    (Redeems(t, pool[k]) ||
     exists j :: j in pool && rank(j) < rank(k) && Redeems(pool[j], pool[k]) && Dependent(pool, rank, t, j))
  }

  /** A transaction without a parent: some input names a hash that is neither pooled nor known on the chain. */
  predicate HasMissing(pool: Pool, c: ChainInfo, t: Tx) {
    exists i :: 0 <= i < |t.ins| && t.ins[i].hash !in pool && t.ins[i].hash !in c.known
  }

  lemma {:induction false} DependentMore(small: Pool, large: Pool, rank: Hash -> nat, t: Tx, k: Hash)
    requires forall h :: h in small ==> h in large && small[h] == large[h]
    requires Dependent(small, rank, t, k)
    ensures Dependent(large, rank, t, k)
    decreases rank(k)
  {
    if !Redeems(t, small[k]) {
      var j :| j in small && rank(j) < rank(k) && Redeems(small[j], small[k]) && Dependent(small, rank, t, j);
      DependentMore(small, large, rank, t, j);
    }
  }

  lemma {:induction false} DependentTrans(pool: Pool, rank: Hash -> nat, t: Tx, r: Hash, k: Hash)
    requires r in pool && AllRanked(pool, rank)
    requires Dependent(pool, rank, t, r) && Dependent(pool, rank, pool[r], k)
    ensures Dependent(pool, rank, t, k)
    decreases rank(k)
  {
    if Redeems(pool[r], pool[k]) {
      assert rank(r) < rank(k);
    } else {
      var j :| j in pool && rank(j) < rank(k) && Redeems(pool[j], pool[k]) && Dependent(pool, rank, pool[r], j);
      DependentTrans(pool, rank, t, r, j);
    }
  }

  /** Dependents have a higher rank, so nothing depends on itself. */
  lemma {:induction false} DependentRank(pool: Pool, rank: Hash -> nat, t: Tx, k: Hash)
    requires Dependent(pool, rank, t, k)
    requires AllRanked(pool, rank)
    ensures rank(t.id) < rank(k)
    decreases rank(k)
  {
    if !Redeems(t, pool[k]) {
      var j :| j in pool && rank(j) < rank(k) && Redeems(pool[j], pool[k]) && Dependent(pool, rank, t, j);
      DependentRank(pool, rank, t, j);
    }
  }

  /** When what is left redeems neither t nor anything removed, everything that depended on t is gone. */
  lemma {:induction false} AllDependentsGone(before: Pool, after: Pool, rank: Hash -> nat, t: Tx, k: Hash)
    requires forall h :: h in after ==> h in before && after[h] == before[h] && !Redeems(t, before[h])
    requires forall h, j :: h in after && j in before && j !in after ==> !Redeems(before[j], before[h])
    requires Dependent(before, rank, t, k)
    ensures k !in after
    decreases rank(k)
  {
    if !Redeems(t, before[k]) {
      var j :| j in before && rank(j) < rank(k) && Redeems(before[j], before[k]) && Dependent(before, rank, t, j);
      AllDependentsGone(before, after, rank, t, j);
    }
  }

  ghost function Dependents(pool: Pool, rank: Hash -> nat, t: Tx): set<Hash> {
    set k | k in pool && Dependent(pool, rank, t, k)
  }

  /** The index maps an outpoint to a transaction exactly when that transaction is pooled and spends it. */
  ghost predicate Indexed(pool: Pool, outpoints: map<OutPoint, Tx>) {
    && (forall op :: op in outpoints ==>
          outpoints[op].id in pool && pool[outpoints[op].id] == outpoints[op] && op in outpoints[op].ins)
    && (forall h, op :: h in pool && op in pool[h].ins ==> op in outpoints && outpoints[op] == pool[h])
  }

  lemma IndexedWithout(pool: Pool, rank: Hash -> nat, was: map<OutPoint, Tx>, outpoints: map<OutPoint, Tx>, h: Hash)
    requires Indexed(pool, was) && AllRanked(pool, rank) && h in pool
    requires forall op :: op in outpoints <==> op in was && op !in pool[h].ins
    requires forall op :: op in outpoints ==> outpoints[op] == was[op]
    ensures Indexed(pool - {h}, outpoints) && AllRanked(pool - {h}, rank)
  {
    hide Ranked;
    forall k, op | k in pool - {h} && op in pool[k].ins
      ensures op in outpoints && outpoints[op] == pool[k]
    {
      assert op in was && was[op] == pool[k];
      assert pool[k] != pool[h];
    }
  }

  lemma IndexedWith(pool: Pool, was: map<OutPoint, Tx>, outpoints: map<OutPoint, Tx>, t: Tx)
    requires Indexed(pool, was) && t.id !in pool
    requires forall h, op :: h in pool && op in pool[h].ins ==> op !in t.ins
    requires forall op :: op in outpoints <==> op in was || op in t.ins
    requires forall op :: op in outpoints ==> outpoints[op] == if op in t.ins then t else was[op]
    ensures Indexed(pool[t.id := t], outpoints)
  {
  }

  /** So no two pooled transactions share an input. */
  lemma NoConflicts(pool: Pool, outpoints: map<OutPoint, Tx>, a: Hash, b: Hash, op: OutPoint)
    requires Indexed(pool, outpoints) && a in pool && b in pool && op in pool[a].ins && op in pool[b].ins
    requires forall h :: h in pool ==> pool[h].id == h
    ensures a == b
  {
    assert pool[a] == outpoints[op] == pool[b];
  }

  class TxPool {
    ghost const rank: Hash -> nat
    ghost const txOf: Hash -> Tx
    var pool: Pool
    var outpoints: map<OutPoint, Tx>
    var orphans: map<Hash, Tx>

    ghost predicate Valid()
      reads this
    {
      && Indexed(pool, outpoints)
      && AllRanked(pool, rank) && AllRanked(orphans, rank) && pool.Keys !! orphans.Keys
      && (forall h :: h in pool ==> pool[h] == txOf(h))
      && (forall h :: h in orphans ==> orphans[h] == txOf(h))
    }

    /** A hash stands for one transaction. */
    ghost predicate Genuine(t: Tx) {
      txOf(t.id) == t && Ranked(rank, t)
    }

    constructor (ghost r: Hash -> nat, ghost f: Hash -> Tx)
      ensures Valid() && pool == map[] && orphans == map[] && rank == r && txOf == f
    {
      rank, txOf := r, f;
      pool, outpoints, orphans := map[], map[], map[];
    }

    /** Takes one transaction out of the pool and its inputs out of the index. */
    method Delete(h: Hash)
      requires Valid() && h in pool
      modifies this`pool, this`outpoints
      ensures Valid() && pool == old(pool) - {h}
    {
      hide Ranked, Indexed, AllRanked;
      var t := pool[h];
      ghost var was := outpoints;
      for i := 0 to |t.ins|
        invariant forall op :: op in outpoints <==> op in was && op !in t.ins[..i]
        invariant forall op :: op in outpoints ==> outpoints[op] == was[op]
        invariant pool == old(pool)
      {
        assert t.ins[..i + 1] == t.ins[..i] + [t.ins[i]];
        outpoints := outpoints - {t.ins[i]};
      }
      assert t.ins[..|t.ins|] == t.ins;
      IndexedWithout(pool, rank, was, outpoints, h);
      pool := pool - {h};
    }

    /** Removes a transaction and, if asked, exactly those that depend on it. */
    method RemoveTransaction(t: Tx, removeRedeemers: bool)
      requires Valid() && Genuine(t)
      modifies this`pool, this`outpoints
      ensures Valid()
      ensures pool.Keys == old(pool.Keys) - {t.id} - (if removeRedeemers then Dependents(old(pool), rank, t) else {})
      ensures forall h :: h in pool ==> pool[h] == old(pool)[h]
      decreases Higher(pool, rank, rank(t.id))
    {
      hide Dependent, Indexed, Ranked, Pruned;
      ghost var was := pool;
      PrunedStart(was, rank, t);
      if removeRedeemers {
        var i := 0;
        while i < |t.outs|
          invariant 0 <= i <= |t.outs| && Valid() && Pruned(was, pool, rank, t, i)
        {
          var op := OutPoint(t.id, i);
          ghost var mid := pool;
          Redeemer(was, pool, outpoints, rank, t, i);
          if op in outpoints {
            var redeemer := outpoints[op];
            HigherShrinks(was, pool, rank, t, i, redeemer.id);
            RemoveTransaction(redeemer, true);
            PrunedStep(was, mid, pool, rank, t, i, redeemer);
          }
          i := i + 1;
        }
        PrunedEnd(was, pool, rank, t);
      }
      if t.id in pool {
        Delete(t.id);
      }
    }

    /** Removes the pooled transactions that share an input with t, and exactly what depends on those. */
    method RemoveDoubleSpends(t: Tx)
      requires Valid() && Genuine(t)
      modifies this`pool, this`outpoints
      ensures Valid()
      ensures forall h :: h in pool <==> h in old(pool) && !Doomed(old(pool), rank, t, |t.ins|, h)
      ensures forall h :: h in pool ==> pool[h] == old(pool)[h]
    {
      hide Dependent, Indexed, Ranked, Cleaned;
      ghost var was := pool;
      CleanedStart(was, rank, t);
      for i := 0 to |t.ins|
        invariant Valid() && Cleaned(was, pool, rank, t, i)
      {
        ghost var mid := pool;
        Spender(pool, outpoints, t.ins[i]);
        if t.ins[i] in outpoints {
          var redeemer := outpoints[t.ins[i]];
          if redeemer.id != t.id {
            RemoveTransaction(redeemer, true);
            CleanedStep(was, mid, pool, rank, t, i, redeemer);
          } else {
            CleanedSkip(was, pool, rank, t, i);
          }
        } else {
          CleanedSkip(was, pool, rank, t, i);
        }
      }
      CleanedEnd(was, pool, rank, t);
    }

    /** Whether the pool spends none of the inputs already. */
    method CheckPoolDoubleSpend(t: Tx) returns (ok: bool)
      requires Valid()
      ensures ok <==> forall h, op :: h in pool && op in pool[h].ins ==> op !in t.ins
    {
      for i := 0 to |t.ins|
        invariant forall k :: 0 <= k < i ==> t.ins[k] !in outpoints
      {
        if t.ins[i] in outpoints {
          ghost var other := outpoints[t.ins[i]].id;
          assert other in pool && t.ins[i] in pool[other].ins && t.ins[i] in t.ins;
          return false;
        }
      }
      ok := true;
    }

    method AddTransaction(t: Tx)
      requires Valid() && Genuine(t) && t.id !in pool && t.id !in orphans
      requires forall h, op :: h in pool && op in pool[h].ins ==> op !in t.ins
      modifies this`pool, this`outpoints
      ensures Valid() && pool == old(pool)[t.id := t]
    {
      hide Indexed, Ranked;
      pool := pool[t.id := t];
      ghost var was := outpoints;
      for i := 0 to |t.ins|
        invariant pool == old(pool)[t.id := t]
        invariant forall op :: op in outpoints <==> op in was || op in t.ins[..i]
        invariant forall op :: op in outpoints ==> outpoints[op] == if op in t.ins[..i] then t else was[op]
      {
        assert t.ins[..i + 1] == t.ins[..i] + [t.ins[i]];
        outpoints := outpoints[t.ins[i] := t];
      }
      assert t.ins[..|t.ins|] == t.ins;
      IndexedWith(old(pool), was, outpoints, t);
    }

    /** A transaction enters the pool exactly if it is new and no coinbase, all its parents are there, none of its inputs
        is spent on the chain or by the pool, and the rules outside this model accept it: those about the transaction by
        itself and those about its place in the pool. */
    method MaybeAcceptTransaction(t: Tx, c: ChainInfo, sane: bool, allowed: bool) returns (r: Verdict)
      requires Valid() && Genuine(t)
      modifies this`pool, this`outpoints
      ensures Valid()
      ensures r == Accepted <==>
                && sane && allowed && !IsCoinBase(t)
                && t.id !in old(pool) && t.id !in orphans && t.id !in c.known && !HasMissing(old(pool), c, t)
                && (forall op :: op in t.ins ==> op !in c.spent)
                && (forall h, op :: h in old(pool) && op in old(pool)[h].ins ==> op !in t.ins)
      ensures r == Accepted ==> pool == old(pool)[t.id := t]
      ensures r != Accepted ==> pool == old(pool)
      ensures r == MissingParents ==> HasMissing(pool, c, t) && t.id !in pool
    {
      hide Indexed, Ranked;
      if t.id in pool || t.id in orphans {
        return Rejected;
      }
      if !sane || IsCoinBase(t) || t.id in c.known {
        return Rejected;
      }
      var ok := CheckPoolDoubleSpend(t);
      if !ok {
        return Rejected;
      }
      if HasMissing(pool, c, t) {
        return MissingParents;
      }
      if !allowed || exists i :: 0 <= i < |t.ins| && t.ins[i] in c.spent {
        return Rejected;
      }
      AddTransaction(t);
      r := Accepted;
    }

    /** Evicts any one orphan when the next would be one too many. */
    method LimitOrphans()
      requires Valid()
      modifies this`orphans
      ensures Valid() && Lost(old(orphans), orphans) <= 1
      ensures forall o :: o in orphans ==> o in old(orphans) && orphans[o] == old(orphans)[o]
      ensures old(|orphans|) < MAX_ORPHANS ==> orphans == old(orphans)
    {
      hide Indexed, Ranked;
      if |orphans| + 1 > MAX_ORPHANS {
        var victim :| victim in orphans;
        ghost var was := orphans;
        orphans := orphans - {victim};
        assert was.Keys - orphans.Keys == {victim};
      } else {
        assert orphans.Keys - orphans.Keys == {};
      }
    }

    /** Keeps an orphan, making room by evicting at most one other. */
    method AddOrphan(t: Tx)
      requires Valid() && Genuine(t) && t.id !in pool
      modifies this`orphans
      ensures Valid() && t.id in orphans && orphans.Keys <= old(orphans.Keys) + {t.id}
      ensures Lost(old(orphans), orphans) <= 1
      ensures old(|orphans|) < MAX_ORPHANS ==> orphans == old(orphans)[t.id := t]
    {
      hide Indexed, Ranked, Lost;
      LimitOrphans();
      LostWith(old(orphans), orphans, t);
      orphans := orphans[t.id := t];
    }

    /** The orphans with an input of that hash, once for each such input. */
    method GetOrphansByPrevious(h: Hash) returns (list: seq<Tx>)
      requires Valid()
      ensures forall t :: t in list ==> t.id in orphans && orphans[t.id] == t
      ensures forall o :: o in orphans && References(orphans[o], h) ==> orphans[o] in list
    {
      list := [];
      var rest := orphans.Keys;
      while rest != {}
        invariant rest <= orphans.Keys
        invariant forall t :: t in list ==> t.id in orphans && orphans[t.id] == t
        invariant forall o :: o in orphans && o !in rest && References(orphans[o], h) ==> orphans[o] in list
        decreases |rest|
      {
        var o :| o in rest;
        ghost var was := list;
        for i := 0 to |orphans[o].ins|
          invariant forall t :: t in list ==> t.id in orphans && orphans[t.id] == t
          invariant forall t :: t in was ==> t in list
          invariant forall k :: 0 <= k < i && orphans[o].ins[k].hash == h ==> orphans[o] in list
        {
          if orphans[o].ins[i].hash == h {
            list := list + [orphans[o]];
          }
        }
        rest := rest - {o};
      }
    }

    /** Takes an orphan out and tries it again; it comes back if it still misses a parent. */
    method RetryOrphan(t: Tx, c: ChainInfo) returns (accepted: bool)
      requires Valid() && Genuine(t)
      modifies this
      ensures Valid() && orphans.Keys <= old(orphans.Keys) + {t.id}
      ensures !accepted ==> pool == old(pool) && (t.id in orphans ==> HasMissing(pool, c, orphans[t.id]))
      ensures accepted ==> pool == old(pool)[t.id := t] && t.id !in orphans && Clean(t, c)
    {
      hide Indexed, Ranked, HasMissing;
      orphans := orphans - {t.id};
      var sane: bool, allowed: bool := *, *;
      var r := MaybeAcceptTransaction(t, c, sane, allowed);
      if r == MissingParents {
        AddOrphan(t);
      }
      accepted := r == Accepted;
    }

    method RetryAll(list: seq<Tx>, c: ChainInfo, pushed: seq<Hash>, ghost pending: seq<Hash>) returns (work: seq<Hash>)
      requires Valid() && forall n :: 0 <= n < |list| ==> list[n].id in orphans && Genuine(list[n])
      modifies this
      ensures Valid() && orphans.Keys <= old(orphans.Keys)
      ensures orphans.Keys < old(orphans.Keys) || work == pushed
      ensures forall k :: k in old(pool) ==> k in pool && pool[k] == old(pool)[k]
      ensures forall k :: k in pool && k !in old(pool) ==> k in old(orphans) && Clean(pool[k], c)
      ensures old(Retrying(pool, orphans, c, pushed + pending, list, 0)) ==>
                Waiting(pool, orphans, c, work + pending)
    {
      hide Indexed, Ranked, HasMissing, References, Clean, Retrying, Waiting;
      ghost var sound := Retrying(pool, orphans, c, pushed + pending, list, 0);
      ghost var keys := orphans.Keys;
      work := pushed;
      for m := 0 to |list|
        invariant Valid() && orphans.Keys <= keys
        invariant pushed <= work && forall q :: q in work[|pushed|..] ==> q in pool && q in keys
        invariant forall k :: k in old(pool) ==> k in pool && pool[k] == old(pool)[k]
        invariant forall k :: k in pool && k !in old(pool) ==> k in keys && Clean(pool[k], c)
        invariant sound ==> Retrying(pool, orphans, c, work + pending, list, m)
      {
        ghost var pool0, orphans0, work0 := pool, orphans, work;
        var accepted := RetryOrphan(list[m], c);
        if accepted {
          work := work + [list[m].id];
        }
        Retried(pool0, orphans0, pool, orphans, c, work0, work, pending, list, m);
      }
      RetriedAll(pool, orphans, c, work, pending, list);
      if work != pushed {
        assert work[|pushed|] in work[|pushed|..];
      }
    }

    /** Retries the orphans that waited for a hash, and for what was accepted on the way.  Afterwards an orphan is left
        only if it still misses a parent or waits for one of the hashes in pending. */
    method ProcessOrphans(h: Hash, c: ChainInfo, ghost pending: seq<Hash>)
      requires Valid()
      modifies this
      ensures Valid() && orphans.Keys <= old(orphans.Keys)
      ensures forall k :: k in old(pool) ==> k in pool && pool[k] == old(pool)[k]
      ensures forall k :: k in pool && k !in old(pool) ==> k in old(orphans) && Clean(pool[k], c)
      ensures old(Waiting(pool, orphans, c, [h] + pending)) ==> Waiting(pool, orphans, c, pending)
    {
      hide Indexed, Ranked, HasMissing, References, Clean, Retrying, Waiting;
      ghost var sound := Waiting(pool, orphans, c, [h] + pending);
      ghost var keys := orphans.Keys;
      var work := [h];
      while |work| > 0
        invariant Valid() && orphans.Keys <= keys
        invariant forall k :: k in old(pool) ==> k in pool && pool[k] == old(pool)[k]
        invariant forall k :: k in pool && k !in old(pool) ==> k in keys && Clean(pool[k], c)
        invariant sound ==> Waiting(pool, orphans, c, work + pending)
        decreases orphans.Keys, |work|
      {
        var next, rest := work[0], work[1..];
        var list := GetOrphansByPrevious(next);
        assert forall n :: 0 <= n < |list| ==> list[n].id in orphans && Genuine(list[n]);
        Popped(pool, orphans, c, next, rest, pending, list);
        assert work + pending == [next] + rest + pending;
        work := RetryAll(list, c, rest, pending);
      }
      assert work + pending == pending;
    }

    /** A new transaction is pooled, kept as an orphan or refused.  Whatever happens, no orphan is left stranded:
        each still waits for a parent that is neither pooled nor on the chain. */
    method ProcessTransaction(t: Tx, allowOrphan: bool, c: ChainInfo) returns (r: Verdict)
      requires Valid() && Genuine(t)
      modifies this
      ensures Valid()
      ensures old(Waiting(pool, orphans, c, [])) ==> Waiting(pool, orphans, c, [])
      ensures r == Accepted ==> t.id in pool
      ensures forall k :: k in pool && k !in old(pool) ==> Clean(pool[k], c)
    {
      hide Indexed, Ranked, HasMissing, References, Waiting, Clean, Lost;
      var sane: bool, allowed: bool := *, *;
      r := MaybeAcceptTransaction(t, c, sane, allowed);
      if r == Accepted {
        AcceptedIsClean(t, c);
        NowWaiting(old(pool), orphans, c, t);
        assert [t.id] + [] == [t.id];
        ProcessOrphans(t.id, c, []);
      } else if r == MissingParents && allowOrphan {
        var tooBig: bool := *;
        if !tooBig {
          ghost var was := orphans;
          AddOrphan(t);
          AlsoWaiting(pool, was, orphans, txOf, c, t);
        }
      }
    }

    /** One ordinary transaction of an attached block: it leaves the pool and the orphans, what conflicts with it leaves with
        its dependents, and the orphans that waited for it are tried again. */
    method AttachTransaction(t: Tx, c: ChainInfo, ghost pending: seq<Hash>) returns (ghost mid: Pool, ghost cleaned: Pool)
      requires Valid() && Genuine(t)
      modifies this
      ensures Valid() && orphans.Keys <= old(orphans.Keys) && t.id !in orphans
      ensures mid.Keys == old(pool.Keys) - {t.id} && forall h :: h in mid ==> mid[h] == old(pool)[h]
      ensures forall h :: h in cleaned <==> h in mid && !Doomed(mid, rank, t, |t.ins|, h)
      ensures forall h :: h in cleaned ==> cleaned[h] == mid[h] && h in pool && pool[h] == mid[h]
      ensures forall h :: h in pool && h !in cleaned ==> h in old(orphans) && Clean(pool[h], c)
      ensures AllRanked(mid, rank)
      ensures old(Waiting(pool, orphans, c, [t.id] + pending)) ==> Waiting(pool, orphans, c, pending)
    {
      hide Indexed, Ranked, HasMissing, References, Doomed, Waiting, Clean;
      ghost var was, wasOrphans := pool, orphans;
      RemoveTransaction(t, false);
      mid := pool;
      RemoveDoubleSpends(t);
      cleaned := pool;
      orphans := orphans - {t.id};
      Shrunk(was, wasOrphans, pool, orphans, c, [t.id] + pending);
      ProcessOrphans(t.id, c, pending);
    }

    /** A block is attached; only its ordinary transactions are looked at.  Afterwards no pooled transaction shares an input
        with one of those, given that the chain reports what the block spends as spent, and no orphan that waited for one
        of them is left stranded.  Of the older transactions none stays but the survivors, and for a block that fits all of
        them stay: so no pooled transaction shares an input with the coinbase either, exactly when no survivor does. */
    method SyncAttachBlock(b: Block, c: ChainInfo)
      requires Valid() && |b.txs| >= 1 && forall t :: t in b.txs[1..] ==> Genuine(t) && |t.ins| >= 1
      requires forall t, op :: t in b.txs && op in Spends(t) ==> op in c.spent
      requires forall t :: t in b.txs[1..] ==> !IsCoinBase(t)
      modifies this
      ensures Valid()
      ensures forall t, op, h :: t in b.txs[1..] && op in t.ins && h in pool ==> op !in pool[h].ins
      ensures forall t :: t in b.txs[1..] ==> t.id !in pool && t.id !in orphans
      ensures old(Waiting(pool, orphans, c, IdsOf(b.txs[1..]))) ==> Waiting(pool, orphans, c, [])
      ensures old(Waiting(pool, orphans, c, IdsOf(b.txs))) ==> Waiting(pool, orphans, c, [b.txs[0].id])
      ensures forall k :: k in pool ==>
                (Survives(old(pool), rank, b.txs[1..], k) && pool[k] == old(pool)[k]) ||
                (k in old(orphans) && k !in old(pool) && Clean(pool[k], c))
      ensures old(Fits(pool, orphans, b.txs[1..])) ==>
                forall k :: Survives(old(pool), rank, b.txs[1..], k) ==> k in pool
      ensures old(Fits(pool, orphans, b.txs[1..])) ==>
                (SharesNothing(pool, b) <==>
                 forall k, op :: Survives(old(pool), rank, b.txs[1..], k) && op in Spends(b.txs[0]) ==>
                   op !in old(pool)[k].ins)
      ensures |b.txs| == 1 ==> pool == old(pool) && orphans == old(orphans)
    {
      hide Indexed, Ranked, AllRanked, HasMissing, References, Doomed, Waiting, SharesNone, Clean, IdsOf, Synced, Survives;
      hide Fits, SharesNothing;
      var txs := b.txs[1..];
      ghost var pool0, orphans0 := pool, orphans;
      ghost var last := if Waiting(pool, orphans, c, IdsOf(txs)) then [] else [b.txs[0].id];
      WaitingSplit(pool, orphans, c, b.txs);
      SpentInputs(b, c);
      assert IdsOf(txs) + [] == IdsOf(txs);
      AttachAll(txs, c, last);
      WaitingMore(pool, orphans, c, b.txs[0].id);
      AllApart(pool, txs);
      NoneLeft(pool, rank, txs);
      SyncedEnd(pool0, orphans0, pool, rank, txs, c);
      CoinbaseShares(pool0, orphans0, pool, rank, b, c);
    }

    method AttachAll(txs: seq<Tx>, c: ChainInfo, ghost last: seq<Hash>)
      requires Valid() && forall t :: t in txs ==> Genuine(t)
      requires forall t, op :: t in txs && op in t.ins ==> op in c.spent
      modifies this
      ensures Valid() && Synced(old(pool), old(orphans), pool, rank, txs, c) && SharesNone(pool, txs, |txs|)
      ensures old(Waiting(pool, orphans, c, IdsOf(txs) + last)) ==> Waiting(pool, orphans, c, last)
      ensures forall t :: t in txs ==> t.id !in orphans
      ensures txs == [] ==> pool == old(pool) && orphans == old(orphans)
    {
      hide Indexed, Ranked, AllRanked, HasMissing, References, Doomed, Waiting, SharesNone, Clean, IdsOf, Synced;
      ghost var pool0, orphans0 := pool, orphans;
      ghost var waits := Waiting(pool, orphans, c, IdsOf(txs) + last);
      NothingShared(pool, txs);
      SyncedStart(pool, orphans, rank, txs, c);
      assert txs[0..] == txs;
      for i := 0 to |txs|
        invariant Valid() && Synced(pool0, orphans0, pool, rank, txs, c) && orphans.Keys <= orphans0.Keys
        invariant SharesNone(pool, txs, i) && forall k :: 0 <= k < i ==> txs[k].id !in orphans
        invariant waits ==> Waiting(pool, orphans, c, IdsOf(txs[i..]) + last)
        invariant i == 0 ==> pool == pool0 && orphans == orphans0
      {
        var t := txs[i];
        ghost var was := pool;
        IdsFirst(txs, i);
        assert [t.id] + IdsOf(txs[i + 1..]) + last == [t.id] + (IdsOf(txs[i + 1..]) + last);
        ghost var mid, cleaned := AttachTransaction(t, c, IdsOf(txs[i + 1..]) + last);
        NoneShares(mid, cleaned, rank, t);
        SharesNoneNext(was, cleaned, pool, txs, i, c);
        SyncedStep(pool0, orphans0, was, mid, cleaned, pool, rank, txOf, txs, c, i);
      }
      NoIds();
      assert txs[|txs|..] == [] && [] + last == last;
    }

    /** The ordinary transactions of a detached block are offered to the pool again.  A refused one leaves with all that
        depends on it, and nothing that depends on it comes back. */
    method SyncDetachBlock(b: Block, c: ChainInfo) returns (ghost refused: set<Tx>)
      requires Valid() && |b.txs| >= 1 && forall t :: t in b.txs[1..] ==> Genuine(t)
      modifies this`pool, this`outpoints
      ensures Valid()
      ensures forall k :: k in pool ==> k in old(pool) || exists t :: t in b.txs[1..] && t.id == k && Clean(t, c)
      ensures DistinctIds(b.txs[1..]) ==> forall t :: t in refused && t.id !in c.known ==>
                t.id !in pool && Dependents(pool, rank, t) == {}
    {
      hide Indexed, Ranked, HasMissing, References, Dependent, Redeems;
      var txs := b.txs[1..];
      refused := {};
      for i := 0 to |txs|
        invariant Valid() && forall t :: t in refused ==> t in txs[..i]
        invariant forall k :: k in pool ==> k in old(pool) || exists t :: t in txs && t.id == k && Clean(t, c)
        invariant DistinctIds(txs) ==> forall t :: t in refused && t.id !in c.known ==> Absent(pool, t)
      {
        ghost var was := pool;
        var sane: bool, allowed: bool := *, *;
        var r := MaybeAcceptTransaction(txs[i], c, sane, allowed);
        if r == Rejected {
          RemoveTransaction(txs[i], true);
          RefusedNow(was, pool, rank, txs[i]);
          refused := refused + {txs[i]};
        } else if r == Accepted {
          forall t | t in refused && t.id !in c.known && DistinctIds(txs) && Absent(was, t)
            ensures Absent(pool, t)
          {
            StillAbsent(was, c, t, txs[i]);
          }
        }
        assert txs[..i + 1] == txs[..i] + [txs[i]];
      }
      forall t | t in refused && t.id !in c.known && DistinctIds(txs)
        ensures Dependents(pool, rank, t) == {}
      {
        NothingDepends(pool, rank, t);
      }
    }
  }

  predicate DistinctIds(txs: seq<Tx>) {
    forall i, j :: 0 <= i < j < |txs| ==> txs[i].id != txs[j].id
  }

  /** Neither the transaction nor anything that redeems it is pooled. */
  ghost predicate Absent(pool: Pool, t: Tx) {
    t.id !in pool && forall h :: h in pool ==> !Redeems(t, pool[h])
  }

  lemma RefusedNow(was: Pool, pool: Pool, rank: Hash -> nat, t: Tx)
    requires pool.Keys == was.Keys - {t.id} - Dependents(was, rank, t)
    requires forall h :: h in pool ==> pool[h] == was[h]
    ensures Absent(pool, t)
    ensures forall x :: Absent(was, x) ==> Absent(pool, x)
  {
    hide Dependent, Redeems;
    forall h | h in pool && Redeems(t, pool[h])
      ensures false
    {
      RedeemerIsDependent(was, rank, t, h);
    }
  }

  /** What is accepted has all its parents, so it does not redeem an absent transaction. */
  lemma StillAbsent(pool: Pool, c: ChainInfo, t: Tx, x: Tx)
    requires Absent(pool, t) && t.id !in c.known && !HasMissing(pool, c, x) && x.id != t.id
    ensures Absent(pool[x.id := x], t)
  {
  }

  lemma NothingDepends(pool: Pool, rank: Hash -> nat, t: Tx)
    requires Absent(pool, t)
    ensures Dependents(pool, rank, t) == {}
  {
    hide Dependent, Redeems;
    forall k | k in pool
      ensures !Dependent(pool, rank, t, k)
    {
      NotDependent(pool, rank, t, k);
    }
  }

  lemma {:induction false} NotDependent(pool: Pool, rank: Hash -> nat, t: Tx, k: Hash)
    requires Absent(pool, t)
    ensures !Dependent(pool, rank, t, k)
    decreases rank(k)
  {
    if Dependent(pool, rank, t, k) {
      var j :| j in pool && rank(j) < rank(k) && Redeems(pool[j], pool[k]) && Dependent(pool, rank, t, j);
      NotDependent(pool, rank, t, j);
    }
  }

  /** How many keys are gone. */
  ghost function Lost(was: Pool, now: Pool): nat {
    |was.Keys - now.Keys|
  }

  lemma LostWith(was: Pool, now: Pool, t: Tx)
    ensures Lost(was, now[t.id := t]) <= Lost(was, now)
  {
    var lost := was.Keys - now.Keys;
    assert was.Keys - now[t.id := t].Keys == if t.id in lost then lost - {t.id} else lost;
  }

  /** Removed so far are only dependents of t, together with all that redeemed them, and nothing left spends one
      of the first i outputs of t. */
  ghost predicate Pruned(was: Pool, pool: Pool, rank: Hash -> nat, t: Tx, i: nat) {
    && (forall h :: h in pool ==> h in was && pool[h] == was[h])
    && (forall k :: k in was && k !in pool ==> Dependent(was, rank, t, k))
    && (forall h, j :: h in pool && j in was && j !in pool ==> !Redeems(was[j], was[h]))
    && (forall h, op :: h in pool && op in pool[h].ins && op.hash == t.id ==> op.index >= i)
  }

  /** The pooled transactions above a rank: fewer with every step up the spend graph. */
  ghost function Higher(pool: Pool, rank: Hash -> nat, n: nat): set<Hash> {
    set h | h in pool && rank(h) > n
  }

  lemma HigherShrinks(was: Pool, pool: Pool, rank: Hash -> nat, t: Tx, i: nat, r: Hash)
    requires Pruned(was, pool, rank, t, i) && r in pool && rank(t.id) < rank(r)
    ensures Higher(pool, rank, rank(r)) < Higher(was, rank, rank(t.id))
  {
    hide Dependent;
    assert r in Higher(was, rank, rank(t.id)) && r !in Higher(pool, rank, rank(r));
  }

  lemma PrunedStart(was: Pool, rank: Hash -> nat, t: Tx)
    ensures Pruned(was, was, rank, t, 0)
  {
  }

  lemma Redeemer(was: Pool, pool: Pool, outpoints: map<OutPoint, Tx>, rank: Hash -> nat, t: Tx, i: nat)
    requires Pruned(was, pool, rank, t, i) && Indexed(pool, outpoints) && AllRanked(pool, rank)
    ensures OutPoint(t.id, i) !in outpoints ==> Pruned(was, pool, rank, t, i + 1)
    ensures OutPoint(t.id, i) in outpoints ==>
              var r := outpoints[OutPoint(t.id, i)];
              && r.id in pool && pool[r.id] == r && Ranked(rank, r) && rank(t.id) < rank(r.id)
              && OutPoint(t.id, i) in r.ins
              && forall h :: h in pool && OutPoint(t.id, i) in pool[h].ins ==> h == r.id
  {
    hide Dependent;
    if OutPoint(t.id, i) !in outpoints {
      forall h, op | h in pool && op in pool[h].ins && op.hash == t.id
        ensures op.index >= i + 1
      {
        assert op.index == i ==> op == OutPoint(t.id, i);
      }
    }
  }

  lemma PrunedStep(was: Pool, mid: Pool, after: Pool, rank: Hash -> nat, t: Tx, i: nat, r: Tx)
    requires Pruned(was, mid, rank, t, i) && AllRanked(was, rank) && i < |t.outs|
    requires r.id in mid && mid[r.id] == r && OutPoint(t.id, i) in r.ins
    requires forall h :: h in mid && OutPoint(t.id, i) in mid[h].ins ==> h == r.id
    requires after.Keys == mid.Keys - {r.id} - Dependents(mid, rank, r)
    requires forall h :: h in after ==> after[h] == mid[h]
    ensures Pruned(was, after, rank, t, i + 1)
  {
    hide Dependent;
    assert Redeems(t, was[r.id]);
    RedeemerIsDependent(was, rank, t, r.id);
    forall k | k in was && k !in after
      ensures Dependent(was, rank, t, k)
    {
      if k in mid && k != r.id {
        DependentMore(mid, was, rank, r, k);
        DependentTrans(was, rank, t, r.id, k);
      }
    }
    forall h, j | h in after && j in was && j !in after
      ensures !Redeems(was[j], was[h])
    {
      if j in mid && Redeems(was[j], was[h]) {
        NextDependent(mid, rank, r, j, h);
      }
    }
    forall h, op | h in after && op in after[h].ins && op.hash == t.id
      ensures op.index >= i + 1
    {
      assert op.index == i ==> op == OutPoint(t.id, i);
    }
  }

  lemma RedeemerIsDependent(pool: Pool, rank: Hash -> nat, t: Tx, k: Hash)
    requires k in pool && Redeems(t, pool[k])
    ensures Dependent(pool, rank, t, k)
  {
  }

  /** What redeems r or a dependent of r is a dependent of r. */
  lemma NextDependent(pool: Pool, rank: Hash -> nat, r: Tx, j: Hash, h: Hash)
    requires AllRanked(pool, rank) && j in pool && h in pool && Redeems(pool[j], pool[h])
    requires (j == r.id && pool[j] == r) || Dependent(pool, rank, r, j)
    ensures Dependent(pool, rank, r, h)
  {
    assert rank(j) < rank(h);
  }

  lemma PrunedEnd(was: Pool, pool: Pool, rank: Hash -> nat, t: Tx)
    requires Pruned(was, pool, rank, t, |t.outs|) && AllRanked(was, rank)
    ensures pool.Keys == was.Keys - Dependents(was, rank, t) && t.id !in Dependents(was, rank, t)
    ensures forall h :: h in pool ==> pool[h] == was[h]
  {
    hide Dependent;
    forall k | k in was && Dependent(was, rank, t, k)
      ensures k !in pool && k != t.id
    {
      AllDependentsGone(was, pool, rank, t, k);
      DependentRank(was, rank, t, k);
    }
  }

  // ----- double spends

  /** k shares one of the first i inputs of t, or depends on a pooled transaction that does. */
  ghost predicate Doomed(pool: Pool, rank: Hash -> nat, t: Tx, i: nat, k: Hash)
    requires i <= |t.ins|
  {
    exists x :: Conflicts(pool, t, i, x) && (k == x || Dependent(pool, rank, pool[x], k))
  }

  ghost predicate Conflicts(pool: Pool, t: Tx, i: nat, x: Hash)
    requires i <= |t.ins|
  {
    x in pool && x != t.id && exists m :: 0 <= m < i && t.ins[m] in pool[x].ins
  }

  ghost predicate Cleaned(was: Pool, pool: Pool, rank: Hash -> nat, t: Tx, i: nat)
    requires i <= |t.ins|
  {
    && (forall h :: h in pool ==> h in was && pool[h] == was[h])
    && (forall k :: k in was && k !in pool ==> Doomed(was, rank, t, i, k))
    && (forall h, j :: h in pool && j in was && j !in pool ==> !Redeems(was[j], was[h]))
    && (forall h, m :: h in pool && h != t.id && 0 <= m < i ==> t.ins[m] !in pool[h].ins)
  }

  lemma CleanedStart(was: Pool, rank: Hash -> nat, t: Tx)
    ensures Cleaned(was, was, rank, t, 0)
  {
  }

  lemma Spender(pool: Pool, outpoints: map<OutPoint, Tx>, op: OutPoint)
    requires Indexed(pool, outpoints)
    ensures op in outpoints ==>
              && outpoints[op].id in pool && pool[outpoints[op].id] == outpoints[op] && op in outpoints[op].ins
              && forall h :: h in pool && op in pool[h].ins ==> pool[h] == outpoints[op]
    ensures op !in outpoints ==> forall h :: h in pool ==> op !in pool[h].ins
  {
  }

  lemma DoomedMore(was: Pool, rank: Hash -> nat, t: Tx, i: nat, k: Hash)
    requires i < |t.ins| && Doomed(was, rank, t, i, k)
    ensures Doomed(was, rank, t, i + 1, k)
  {
    hide Dependent;
    var x :| Conflicts(was, t, i, x) && (k == x || Dependent(was, rank, was[x], k));
    assert Conflicts(was, t, i + 1, x);
  }

  lemma CleanedSkip(was: Pool, pool: Pool, rank: Hash -> nat, t: Tx, i: nat)
    requires i < |t.ins| && Cleaned(was, pool, rank, t, i)
    requires forall h :: h in pool && h != t.id ==> t.ins[i] !in pool[h].ins
    ensures Cleaned(was, pool, rank, t, i + 1)
  {
    hide Doomed;
    forall k | k in was && k !in pool
      ensures Doomed(was, rank, t, i + 1, k)
    {
      DoomedMore(was, rank, t, i, k);
    }
  }

  lemma CleanedStep(was: Pool, mid: Pool, after: Pool, rank: Hash -> nat, t: Tx, i: nat, r: Tx)
    requires i < |t.ins| && Cleaned(was, mid, rank, t, i) && AllRanked(was, rank)
    requires r.id in mid && mid[r.id] == r && r.id != t.id && t.ins[i] in r.ins
    requires forall h :: h in mid && t.ins[i] in mid[h].ins ==> mid[h] == r
    requires after.Keys == mid.Keys - {r.id} - Dependents(mid, rank, r)
    requires forall h :: h in after ==> after[h] == mid[h]
    ensures Cleaned(was, after, rank, t, i + 1)
  {
    hide Dependent, Doomed;
    forall k | k in was && k !in after
      ensures Doomed(was, rank, t, i + 1, k)
    {
      if k !in mid {
        DoomedMore(was, rank, t, i, k);
      } else {
        if k != r.id {
          DependentMore(mid, was, rank, r, k);
        }
        DoomedNow(was, rank, t, i, r.id, k);
      }
    }
    forall h, j | h in after && j in was && j !in after
      ensures !Redeems(was[j], was[h])
    {
      if j in mid && Redeems(was[j], was[h]) {
        NextDependent(mid, rank, r, j, h);
      }
    }
  }

  lemma DoomedNow(was: Pool, rank: Hash -> nat, t: Tx, i: nat, x: Hash, k: Hash)
    requires i < |t.ins| && x in was && x != t.id && t.ins[i] in was[x].ins
    requires k == x || Dependent(was, rank, was[x], k)
    ensures Doomed(was, rank, t, i + 1, k)
  {
    hide Dependent;
    assert Conflicts(was, t, i + 1, x);
  }

  lemma CleanedEnd(was: Pool, pool: Pool, rank: Hash -> nat, t: Tx)
    requires Cleaned(was, pool, rank, t, |t.ins|)
    ensures forall h :: h in pool <==> h in was && !Doomed(was, rank, t, |t.ins|, h)
    ensures forall h :: h in pool ==> pool[h] == was[h]
  {
    hide Dependent;
    forall h | h in was && Doomed(was, rank, t, |t.ins|, h)
      ensures h !in pool
    {
      var x :| Conflicts(was, t, |t.ins|, x) && (h == x || Dependent(was, rank, was[x], h));
      assert x !in pool;
      if h != x {
        AllDependentsGone(was, pool, rank, was[x], h);
      }
    }
  }

  // ----- orphans

  /** No input is spent on the chain, and the transaction itself is not there. */
  ghost predicate Clean(t: Tx, c: ChainInfo) {
    t.id !in c.known && forall op :: op in t.ins ==> op !in c.spent
  }

  ghost predicate WaitsFor(t: Tx, work: seq<Hash>) {
    exists q :: q in work && References(t, q)
  }

  /** Every orphan misses a parent or waits for a hash that is still to be processed. */
  ghost predicate Waiting(pool: Pool, orphans: map<Hash, Tx>, c: ChainInfo, work: seq<Hash>) {
    forall o :: o in orphans ==> HasMissing(pool, c, orphans[o]) || WaitsFor(orphans[o], work)
  }

  ghost predicate Retrying(pool: Pool, orphans: map<Hash, Tx>, c: ChainInfo, work: seq<Hash>, list: seq<Tx>, m: nat) {
    forall o :: o in orphans ==>
      HasMissing(pool, c, orphans[o]) || WaitsFor(orphans[o], work) || exists n :: m <= n < |list| && list[n].id == o
  }

  lemma Popped(pool: Pool, orphans: map<Hash, Tx>, c: ChainInfo, next: Hash, work: seq<Hash>, pending: seq<Hash>, list: seq<Tx>)
    requires forall o :: o in orphans ==> orphans[o].id == o
    requires forall o :: o in orphans && References(orphans[o], next) ==> orphans[o] in list
    ensures Waiting(pool, orphans, c, [next] + work + pending) ==> Retrying(pool, orphans, c, work + pending, list, 0)
  {
    hide HasMissing, References;
    if Waiting(pool, orphans, c, [next] + work + pending) {
      forall o | o in orphans && !HasMissing(pool, c, orphans[o]) && !WaitsFor(orphans[o], work + pending)
        ensures exists n :: 0 <= n < |list| && list[n].id == o
      {
        var q :| q in [next] + work + pending && References(orphans[o], q);
        assert q in work + pending || q == next;
        var n :| 0 <= n < |list| && list[n] == orphans[o];
      }
    }
  }

  /** An orphan that loses its missing parent to the pool references that parent. */
  lemma Unblocked(pool: Pool, c: ChainInfo, t: Tx, o: Tx)
    requires HasMissing(pool, c, o)
    ensures HasMissing(pool[t.id := t], c, o) || References(o, t.id)
  {
    var i :| 0 <= i < |o.ins| && o.ins[i].hash !in pool && o.ins[i].hash !in c.known;
    assert o.ins[i].hash == t.id || o.ins[i].hash !in pool[t.id := t];
  }

  lemma Retried(pool0: Pool, orphans0: map<Hash, Tx>, pool: Pool, orphans: map<Hash, Tx>, c: ChainInfo,
                work0: seq<Hash>, work: seq<Hash>, pending: seq<Hash>, list: seq<Tx>, m: nat)
    requires m < |list| && forall o :: o in orphans && o != list[m].id ==> o in orphans0 && orphans[o] == orphans0[o]
    requires
      || (&& pool == pool0 && work == work0
          && (list[m].id in orphans ==> HasMissing(pool, c, orphans[list[m].id])))
      || (pool == pool0[list[m].id := list[m]] && work == work0 + [list[m].id] && list[m].id !in orphans)
    ensures Retrying(pool0, orphans0, c, work0 + pending, list, m) ==> Retrying(pool, orphans, c, work + pending, list, m + 1)
  {
    hide HasMissing, References;
    if Retrying(pool0, orphans0, c, work0 + pending, list, m) {
      forall o | o in orphans && !HasMissing(pool, c, orphans[o]) && !WaitsFor(orphans[o], work + pending)
        ensures exists n :: m + 1 <= n < |list| && list[n].id == o
      {
        if HasMissing(pool0, c, orphans[o]) {
          Unblocked(pool0, c, list[m], orphans[o]);
        }
        assert forall q :: q in work0 + pending ==> q in work + pending;
        assert !WaitsFor(orphans[o], work0 + pending);
        assert pool != pool0 ==> list[m].id in work + pending;
        var n :| m <= n < |list| && list[n].id == o;
      }
    }
  }

  lemma RetriedAll(pool: Pool, orphans: map<Hash, Tx>, c: ChainInfo, work: seq<Hash>, pending: seq<Hash>, list: seq<Tx>)
    ensures Retrying(pool, orphans, c, work + pending, list, |list|) ==> Waiting(pool, orphans, c, work + pending)
  {
  }

  function IdsOf(txs: seq<Tx>): (r: seq<Hash>)
    ensures |r| == |txs| && forall i :: 0 <= i < |txs| ==> r[i] == txs[i].id
  {
    seq(|txs|, i requires 0 <= i < |txs| => txs[i].id)
  }

  lemma IdsFirst(txs: seq<Tx>, i: nat)
    requires i < |txs|
    ensures IdsOf(txs[i..]) == [txs[i].id] + IdsOf(txs[i + 1..])
  {
  }

  /** Pooling a transaction can only free orphans that reference it. */
  lemma AcceptedIsClean(t: Tx, c: ChainInfo)
    requires t.id !in c.known && forall op :: op in t.ins ==> op !in c.spent
    ensures Clean(t, c)
  {
  }

  /** A new orphan misses a parent itself, and the others wait as before. */
  lemma AlsoWaiting(pool: Pool, was: map<Hash, Tx>, orphans: map<Hash, Tx>, txOf: Hash -> Tx, c: ChainInfo, t: Tx)
    requires HasMissing(pool, c, t) && orphans.Keys <= was.Keys + {t.id} && txOf(t.id) == t
    requires (forall h :: h in was ==> was[h] == txOf(h)) && (forall h :: h in orphans ==> orphans[h] == txOf(h))
    ensures Waiting(pool, was, c, []) ==> Waiting(pool, orphans, c, [])
  {
    hide HasMissing, References;
  }

  lemma NowWaiting(pool: Pool, orphans: map<Hash, Tx>, c: ChainInfo, t: Tx)
    ensures Waiting(pool, orphans, c, []) ==> Waiting(pool[t.id := t], orphans, c, [t.id])
  {
    hide HasMissing, References;
    if Waiting(pool, orphans, c, []) {
      forall o | o in orphans
        ensures HasMissing(pool[t.id := t], c, orphans[o]) || WaitsFor(orphans[o], [t.id])
      {
        Unblocked(pool, c, t, orphans[o]);
        assert t.id in [t.id];
      }
    }
  }

  /** A smaller pool frees no orphan. */
  lemma Shrunk(pool0: Pool, orphans0: map<Hash, Tx>, pool: Pool, orphans: map<Hash, Tx>, c: ChainInfo, work: seq<Hash>)
    requires pool.Keys <= pool0.Keys && forall o :: o in orphans ==> o in orphans0 && orphans[o] == orphans0[o]
    ensures Waiting(pool0, orphans0, c, work) ==> Waiting(pool, orphans, c, work)
  {
    forall o | o in orphans
      ensures HasMissing(pool0, c, orphans[o]) ==> HasMissing(pool, c, orphans[o])
    {
      if HasMissing(pool0, c, orphans[o]) {
        var t := orphans[o];
        var i :| 0 <= i < |t.ins| && t.ins[i].hash !in pool0 && t.ins[i].hash !in c.known;
        assert t.ins[i].hash !in pool;
      }
    }
  }

  lemma NoneShares(mid: Pool, pool: Pool, rank: Hash -> nat, t: Tx)
    requires t.id !in mid && forall h :: h in pool <==> h in mid && !Doomed(mid, rank, t, |t.ins|, h)
    requires forall h :: h in pool ==> pool[h] == mid[h]
    ensures forall h, op :: h in pool && op in t.ins ==> op !in pool[h].ins
  {
    hide Dependent;
    forall h, m | h in pool && 0 <= m < |t.ins|
      ensures t.ins[m] !in pool[h].ins
    {
      assert !Conflicts(mid, t, |t.ins|, h);
    }
  }

  /** No pooled transaction shares an input with one of the first i transactions. */
  ghost predicate SharesNone(pool: Pool, txs: seq<Tx>, i: nat)
    requires i <= |txs|
  {
    forall k, op, h :: 0 <= k < i && op in txs[k].ins && h in pool ==> op !in pool[h].ins
  }

  lemma NothingShared(pool: Pool, txs: seq<Tx>)
    ensures SharesNone(pool, txs, 0)
  {
  }

  lemma AllApart(pool: Pool, txs: seq<Tx>)
    requires SharesNone(pool, txs, |txs|)
    ensures forall t, op, h :: t in txs && op in t.ins && h in pool ==> op !in pool[h].ins
  {
  }

  lemma SharesNoneNext(was: Pool, mid: Pool, pool: Pool, txs: seq<Tx>, i: nat, c: ChainInfo)
    requires i < |txs| && SharesNone(was, txs, i)
    requires forall h :: h in mid ==> h in was && mid[h] == was[h]
    requires forall h, op :: h in mid && op in txs[i].ins ==> op !in mid[h].ins
    requires forall h :: h in pool && h in mid ==> pool[h] == mid[h]
    requires forall h :: h in pool && h !in mid ==> Clean(pool[h], c)
    requires forall t, op :: t in txs && op in t.ins ==> op in c.spent
    ensures SharesNone(pool, txs, i + 1)
  {
    forall k, op, h | 0 <= k < i + 1 && op in txs[k].ins && h in pool
      ensures op !in pool[h].ins
    {
      assert txs[k] in txs;
    }
  }

  // ----- which transactions survive a block

  ghost function IdSet(txs: seq<Tx>): set<Hash> {
    set t | t in txs :: t.id
  }

  /** Pooled, not among the transactions, and neither in conflict with one of them nor dependent on one that is, the pool
      taken without the transactions themselves. */
  ghost predicate Survives(pool: Pool, rank: Hash -> nat, txs: seq<Tx>, k: Hash) {
    k in pool && k !in IdSet(txs) && !Fated(pool - IdSet(txs), rank, txs, k)
  }

  ghost predicate Fated(others: Pool, rank: Hash -> nat, txs: seq<Tx>, k: Hash) {
    exists t :: t in txs && Doomed(others, rank, t, |t.ins|, k)
  }

  /** The transactions spend no output twice and nothing of a pooled transaction that is not among them, as in every valid
      block; and no pooled transaction waits for an orphan. */
  ghost predicate Fits(pool: Pool, orphans: map<Hash, Tx>, txs: seq<Tx>) {
    && (forall i, j, op :: 0 <= i < j < |txs| && op in txs[i].ins ==> op !in txs[j].ins)
    && (forall t, op :: t in txs && op in t.ins && op.hash in pool ==> op.hash in IdSet(txs))
    && (forall k, op :: k in pool && op in pool[k].ins ==> op.hash !in orphans)
  }

  /** No pooled transaction shares an input with the block. */
  ghost predicate SharesNothing(pool: Pool, b: Block) {
    forall t, op, h :: t in b.txs && op in Spends(t) && h in pool ==> op !in pool[h].ins
  }

  /** While a block is attached: the pool holds older transactions and clean ones that were orphans; what has left of the
      others took along all that redeemed it, and was fated. */
  ghost predicate Synced(pool0: Pool, orphans0: map<Hash, Tx>, pool: Pool, rank: Hash -> nat, txs: seq<Tx>, c: ChainInfo) {
    var others := pool0 - IdSet(txs);
    && (forall k :: k in pool ==>
          (k in pool0 && pool[k] == pool0[k]) || (k in orphans0 && k !in pool0 && Clean(pool[k], c)))
    && (forall x, h :: x in others && x !in pool && h in others && h in pool ==> !Redeems(others[x], others[h]))
    && (Fits(pool0, orphans0, txs) ==> forall k :: k in others && k !in pool ==> Fated(others, rank, txs, k))
  }

  lemma SyncedStart(pool: Pool, orphans: map<Hash, Tx>, rank: Hash -> nat, txs: seq<Tx>, c: ChainInfo)
    ensures Synced(pool, orphans, pool, rank, txs, c)
  {
    hide Fits, Fated, Clean;
  }

  /** Whatever redeems a doomed transaction is doomed. */
  lemma DoomedClosed(pool: Pool, rank: Hash -> nat, t: Tx, j: Hash, h: Hash)
    requires AllRanked(pool, rank) && j in pool && h in pool && Redeems(pool[j], pool[h])
    requires Doomed(pool, rank, t, |t.ins|, j)
    ensures Doomed(pool, rank, t, |t.ins|, h)
  {
    hide Dependent, Ranked, Redeems;
    var x :| Conflicts(pool, t, |t.ins|, x) && (j == x || Dependent(pool, rank, pool[x], j));
    NextDependent(pool, rank, pool[x], j, h);
  }

  lemma SyncedStep(pool0: Pool, orphans0: map<Hash, Tx>, was: Pool, mid: Pool, cleaned: Pool, pool: Pool,
                   rank: Hash -> nat, txOf: Hash -> Tx, txs: seq<Tx>, c: ChainInfo, i: nat)
    requires i < |txs| && Synced(pool0, orphans0, was, rank, txs, c) && AllRanked(mid, rank)
    requires mid.Keys == was.Keys - {txs[i].id} && forall h :: h in mid ==> mid[h] == was[h]
    requires forall h :: h in cleaned <==> h in mid && !Doomed(mid, rank, txs[i], |txs[i].ins|, h)
    requires forall h :: h in cleaned ==> cleaned[h] == mid[h]
    requires forall h :: h in cleaned ==> h in pool && pool[h] == cleaned[h]
    requires forall h :: h in pool && h !in cleaned ==> h in orphans0 && Clean(pool[h], c)
    requires pool0.Keys !! orphans0.Keys && AllRanked(pool0, rank)
    requires forall t, op :: t in txs && op in t.ins ==> op in c.spent
    requires (forall h :: h in pool0 ==> pool0[h] == txOf(h)) && forall t :: t in txs ==> txOf(t.id) == t
    ensures Synced(pool0, orphans0, pool, rank, txs, c)
  {
    hide Fits, Fated, Clean, Doomed, Redeems, Ranked;
    var others, t := pool0 - IdSet(txs), txs[i];
    assert t in txs;
    OthersStay(pool0, orphans0, was, mid, cleaned, pool, rank, txs, c, i);
    forall x, h | x in others && x !in pool && h in others && h in pool
      ensures !Redeems(others[x], others[h])
    {
      if x in was && Redeems(others[x], others[h]) {
        DoomedClosed(mid, rank, t, x, h);
      }
    }
    if Fits(pool0, orphans0, txs) {
      forall k | k in others && k !in pool
        ensures Fated(others, rank, txs, k)
      {
        if k in was {
          DoomedIsFated(pool0, orphans0, mid, rank, txOf, txs, c, i, k);
        }
      }
    }
  }

  lemma OthersStay(pool0: Pool, orphans0: map<Hash, Tx>, was: Pool, mid: Pool, cleaned: Pool, pool: Pool,
                   rank: Hash -> nat, txs: seq<Tx>, c: ChainInfo, i: nat)
    requires i < |txs| && Synced(pool0, orphans0, was, rank, txs, c)
    requires mid.Keys == was.Keys - {txs[i].id} && forall h :: h in mid ==> mid[h] == was[h]
    requires forall h :: h in cleaned <==> h in mid && !Doomed(mid, rank, txs[i], |txs[i].ins|, h)
    requires forall h :: h in cleaned ==> cleaned[h] == mid[h]
    requires forall h :: h in cleaned ==> h in pool && pool[h] == cleaned[h]
    requires forall h :: h in pool && h !in cleaned ==> h in orphans0 && Clean(pool[h], c)
    requires pool0.Keys !! orphans0.Keys
    ensures forall h :: h in pool0 - IdSet(txs) && h in pool ==> h in was && h in mid && mid[h] == pool0[h]
    ensures forall h :: h in pool0 - IdSet(txs) && h !in pool && h in was ==>
              h in mid && mid[h] == pool0[h] && Doomed(mid, rank, txs[i], |txs[i].ins|, h)
    ensures forall k :: k in pool ==>
              (k in pool0 && pool[k] == pool0[k]) || (k in orphans0 && k !in pool0 && Clean(pool[k], c))
  {
    hide Fits, Fated, Clean, Doomed, Redeems;
    assert txs[i] in txs && txs[i].id in IdSet(txs);
  }

  /** In a block that fits, what is doomed in the pool on the way is doomed in the pool without the block. */
  lemma DoomedIsFated(pool0: Pool, orphans0: map<Hash, Tx>, mid: Pool, rank: Hash -> nat, txOf: Hash -> Tx,
                      txs: seq<Tx>, c: ChainInfo, i: nat, k: Hash)
    requires i < |txs| && Fits(pool0, orphans0, txs) && AllRanked(pool0, rank)
    requires forall h :: h in mid ==>
               (h in pool0 && mid[h] == pool0[h]) || (h in orphans0 && h !in pool0 && Clean(mid[h], c))
    requires forall t, op :: t in txs && op in t.ins ==> op in c.spent
    requires (forall h :: h in pool0 ==> pool0[h] == txOf(h)) && forall t :: t in txs ==> txOf(t.id) == t
    requires forall h :: h in mid ==> mid[h].id == h
    requires k in pool0 - IdSet(txs) && Doomed(mid, rank, txs[i], |txs[i].ins|, k)
    ensures Fated(pool0 - IdSet(txs), rank, txs, k)
  {
    hide Dependent, Ranked;
    var others, t := pool0 - IdSet(txs), txs[i];
    var x :| Conflicts(mid, t, |t.ins|, x) && (k == x || Dependent(mid, rank, mid[x], k));
    var m :| 0 <= m < |t.ins| && t.ins[m] in mid[x].ins;
    assert t in txs && t.ins[m] in t.ins;
    ConflictIsOther(pool0, orphans0, mid, txOf, txs, c, i, x, t.ins[m]);
    assert Conflicts(others, t, |t.ins|, x);
    if k != x {
      DependentAmongOthers(pool0, orphans0, mid, rank, txs, txOf, x, k);
    }
    assert Doomed(others, rank, t, |t.ins|, k);
  }

  lemma ConflictIsOther(pool0: Pool, orphans0: map<Hash, Tx>, mid: Pool, txOf: Hash -> Tx, txs: seq<Tx>, c: ChainInfo,
                        i: nat, x: Hash, op: OutPoint)
    requires i < |txs| && Fits(pool0, orphans0, txs) && x in mid && x != txs[i].id && op in txs[i].ins && op in mid[x].ins
    requires (x in pool0 && mid[x] == pool0[x]) || Clean(mid[x], c)
    requires op in c.spent
    requires (forall h :: h in pool0 ==> pool0[h] == txOf(h)) && forall t :: t in txs ==> txOf(t.id) == t
    ensures x in pool0 - IdSet(txs) && mid[x] == pool0[x]
  {
  }

  /** The pool on the way: older transactions and promoted orphans. */
  ghost predicate Mixed(pool0: Pool, orphans0: map<Hash, Tx>, mid: Pool) {
    forall h :: h in mid ==> mid[h].id == h && ((h in pool0 && mid[h] == pool0[h]) || (h in orphans0 && h !in pool0))
  }

  /** What redeems an older transaction of the pool is redeemed from an older one. */
  lemma RedeemsOlder(pool0: Pool, orphans0: map<Hash, Tx>, mid: Pool, txs: seq<Tx>, j: Hash, k: Hash)
    requires Fits(pool0, orphans0, txs) && Mixed(pool0, orphans0, mid)
    requires j in mid && k in mid && k in pool0 && Redeems(mid[j], mid[k])
    ensures j in pool0 && mid[j] == pool0[j] && exists op :: op in pool0[k].ins && op.hash == j
  {
    var op :| op in mid[k].ins && op.hash == mid[j].id && op.index < |mid[j].outs|;
  }

  /** Nothing in the block depends on another transaction. */
  lemma {:induction false} BlockApart(pool0: Pool, orphans0: map<Hash, Tx>, mid: Pool, rank: Hash -> nat, txs: seq<Tx>,
                                      txOf: Hash -> Tx, x: Hash, j: Hash)
    requires Fits(pool0, orphans0, txs) && Mixed(pool0, orphans0, mid)
    requires (forall h :: h in pool0 ==> pool0[h] == txOf(h)) && forall t :: t in txs ==> txOf(t.id) == t
    requires j in mid && j in pool0 && j in IdSet(txs) && x in mid && x in pool0 && x !in IdSet(txs)
    ensures !Dependent(mid, rank, mid[x], j)
    decreases rank(j)
  {
    hide Redeems;
    InBlock(pool0, orphans0, txs, txOf, j);
    if Dependent(mid, rank, mid[x], j) {
      if Redeems(mid[x], mid[j]) {
        RedeemsOlder(pool0, orphans0, mid, txs, x, j);
      } else {
        var y :| y in mid && rank(y) < rank(j) && Redeems(mid[y], mid[j]) && Dependent(mid, rank, mid[x], y);
        RedeemsOlder(pool0, orphans0, mid, txs, y, j);
        BlockApart(pool0, orphans0, mid, rank, txs, txOf, x, y);
      }
    }
  }

  /** What a pooled transaction of the block spends of the pool is in the block. */
  lemma InBlock(pool0: Pool, orphans0: map<Hash, Tx>, txs: seq<Tx>, txOf: Hash -> Tx, j: Hash)
    requires Fits(pool0, orphans0, txs) && j in pool0 && j in IdSet(txs)
    requires (forall h :: h in pool0 ==> pool0[h] == txOf(h)) && forall t :: t in txs ==> txOf(t.id) == t
    ensures forall op :: op in pool0[j].ins && op.hash in pool0 ==> op.hash in IdSet(txs)
  {
    var t :| t in txs && t.id == j;
    assert pool0[j] == t;
  }

  /** A chain of redeemers between two others stays among the others. */
  lemma {:induction false} DependentAmongOthers(pool0: Pool, orphans0: map<Hash, Tx>, mid: Pool, rank: Hash -> nat,
                                                txs: seq<Tx>, txOf: Hash -> Tx, x: Hash, k: Hash)
    requires Fits(pool0, orphans0, txs) && Mixed(pool0, orphans0, mid)
    requires (forall h :: h in pool0 ==> pool0[h] == txOf(h)) && forall t :: t in txs ==> txOf(t.id) == t
    requires x in mid && x in pool0 && x !in IdSet(txs) && k in pool0 && k !in IdSet(txs)
    requires Dependent(mid, rank, mid[x], k)
    ensures Dependent(pool0 - IdSet(txs), rank, pool0[x], k)
    decreases rank(k)
  {
    hide Redeems, Fits;
    var others := pool0 - IdSet(txs);
    assert mid[k] == others[k] && mid[x] == others[x];
    if !Redeems(mid[x], mid[k]) {
      var j :| j in mid && rank(j) < rank(k) && Redeems(mid[j], mid[k]) && Dependent(mid, rank, mid[x], j);
      RedeemsOlder(pool0, orphans0, mid, txs, j, k);
      if j in IdSet(txs) {
        BlockApart(pool0, orphans0, mid, rank, txs, txOf, x, j);
      } else {
        DependentAmongOthers(pool0, orphans0, mid, rank, txs, txOf, x, j);
        assert others[j] == mid[j];
      }
    }
  }

  /** All that is fated is gone, and nothing else when the block fits. */
  lemma SyncedEnd(pool0: Pool, orphans0: map<Hash, Tx>, pool: Pool, rank: Hash -> nat, txs: seq<Tx>, c: ChainInfo)
    requires Synced(pool0, orphans0, pool, rank, txs, c)
    requires forall t, op, h :: t in txs && op in t.ins && h in pool ==> op !in pool[h].ins
    requires forall t :: t in txs ==> t.id !in pool
    ensures forall k :: k in pool ==>
              (Survives(pool0, rank, txs, k) && pool[k] == pool0[k]) ||
              (k in orphans0 && k !in pool0 && Clean(pool[k], c))
    ensures Fits(pool0, orphans0, txs) ==> forall k :: Survives(pool0, rank, txs, k) ==> k in pool
  {
    hide Fits, Clean, Doomed, Redeems;
    forall k | k in pool && k in pool0
      ensures !Fated(pool0 - IdSet(txs), rank, txs, k) && k !in IdSet(txs)
    {
      if Fated(pool0 - IdSet(txs), rank, txs, k) {
        FatedIsGone(pool0, orphans0, pool, rank, txs, c, k);
      }
    }
  }

  lemma FatedIsGone(pool0: Pool, orphans0: map<Hash, Tx>, pool: Pool, rank: Hash -> nat, txs: seq<Tx>, c: ChainInfo, k: Hash)
    requires Synced(pool0, orphans0, pool, rank, txs, c) && Fated(pool0 - IdSet(txs), rank, txs, k)
    requires forall t, op, h :: t in txs && op in t.ins && h in pool ==> op !in pool[h].ins
    ensures k !in pool
  {
    hide Fits, Clean, Dependent, Redeems;
    var others := pool0 - IdSet(txs);
    var t :| t in txs && Doomed(others, rank, t, |t.ins|, k);
    var x :| Conflicts(others, t, |t.ins|, x) && (k == x || Dependent(others, rank, others[x], k));
    var m :| 0 <= m < |t.ins| && t.ins[m] in others[x].ins;
    assert t.ins[m] in t.ins && x !in pool;
    if k != x {
      var after := map h | h in others && h in pool :: others[h];
      AllDependentsGone(others, after, rank, others[x], k);
      DependentIn(others, rank, others[x], k);
    }
  }

  lemma DependentIn(pool: Pool, rank: Hash -> nat, t: Tx, k: Hash)
    requires Dependent(pool, rank, t, k)
    ensures k in pool
  {
  }

  /** Promoted orphans share nothing with the block, so only survivors can. */
  lemma CoinbaseShares(pool0: Pool, orphans0: map<Hash, Tx>, pool: Pool, rank: Hash -> nat, b: Block, c: ChainInfo)
    requires |b.txs| >= 1 && forall t, op :: t in b.txs && op in Spends(t) ==> op in c.spent
    requires forall t :: t in b.txs[1..] ==> !IsCoinBase(t)
    requires forall t, op, h :: t in b.txs[1..] && op in t.ins && h in pool ==> op !in pool[h].ins
    requires forall k :: k in pool ==>
               (Survives(pool0, rank, b.txs[1..], k) && pool[k] == pool0[k]) ||
               (k in orphans0 && k !in pool0 && Clean(pool[k], c))
    requires Fits(pool0, orphans0, b.txs[1..]) ==> forall k :: Survives(pool0, rank, b.txs[1..], k) ==> k in pool
    ensures Fits(pool0, orphans0, b.txs[1..]) ==>
              (SharesNothing(pool, b) <==>
               forall k, op :: Survives(pool0, rank, b.txs[1..], k) && op in Spends(b.txs[0]) ==> op !in pool0[k].ins)
  {
    hide Fits, Fated;
    var txs := b.txs[1..];
    forall t | t in b.txs
      ensures t == b.txs[0] || (t in txs && Spends(t) == t.ins)
    {
      var i :| 0 <= i < |b.txs| && b.txs[i] == t;
      assert i > 0 ==> txs[i - 1] == t;
    }
    assert b.txs[0] in b.txs;
    if Fits(pool0, orphans0, txs) && SharesNothing(pool, b) {
      forall k, op | Survives(pool0, rank, txs, k) && op in Spends(b.txs[0])
        ensures op !in pool0[k].ins
      {
        assert k in pool && pool[k] == pool0[k];
      }
    }
  }

  lemma SpentInputs(b: Block, c: ChainInfo)
    requires |b.txs| >= 1 && forall t, op :: t in b.txs && op in Spends(t) ==> op in c.spent
    requires forall t :: t in b.txs[1..] ==> !IsCoinBase(t)
    ensures forall t, op :: t in b.txs[1..] && op in t.ins ==> op in c.spent
  {
    forall t, op | t in b.txs[1..] && op in t.ins
      ensures op in c.spent
    {
      assert t in b.txs && Spends(t) == t.ins;
    }
  }

  /** Waiting for a transaction of the block is waiting for its coinbase or for one of the others. */
  lemma WaitingSplit(pool: Pool, orphans: map<Hash, Tx>, c: ChainInfo, all: seq<Tx>)
    requires |all| >= 1
    ensures Waiting(pool, orphans, c, IdsOf(all)) ==> Waiting(pool, orphans, c, IdsOf(all[1..]) + [all[0].id])
  {
    hide HasMissing, References;
    if Waiting(pool, orphans, c, IdsOf(all)) {
      forall o | o in orphans && WaitsFor(orphans[o], IdsOf(all))
        ensures WaitsFor(orphans[o], IdsOf(all[1..]) + [all[0].id])
      {
        var q :| q in IdsOf(all) && References(orphans[o], q);
        var i :| 0 <= i < |all| && all[i].id == q;
        assert i > 0 ==> all[1..][i - 1].id == q && IdsOf(all[1..])[i - 1] == q;
        assert q in IdsOf(all[1..]) + [all[0].id];
      }
    }
  }

  lemma WaitingMore(pool: Pool, orphans: map<Hash, Tx>, c: ChainInfo, h: Hash)
    ensures Waiting(pool, orphans, c, []) ==> Waiting(pool, orphans, c, [h])
  {
    hide HasMissing, References;
  }

  lemma NoneLeft(pool: Pool, rank: Hash -> nat, txs: seq<Tx>)
    requires forall t, op, h :: t in txs && op in t.ins && h in pool ==> op !in pool[h].ins
    requires AllRanked(pool, rank) && forall t :: t in txs ==> |t.ins| >= 1 && (t.id in pool ==> pool[t.id] == t)
    ensures forall t :: t in txs ==> t.id !in pool
  {
    forall t | t in txs
      ensures t.id !in pool
    {
      assert t.ins[0] in t.ins;
    }
  }

  lemma NoIds()
    ensures IdsOf([]) == []
  {
  }

  // ----- the coinbase is not looked at

  const FUNDING: OutPoint := OutPoint(1, 0)
  const POOLED: Tx := Tx(2, [FUNDING], [1])
  const COINBASE: Tx := Tx(3, [OutPoint(ZERO_HASH, MAX_INDEX), FUNDING], [1])
  const WAITING: Tx := Tx(4, [OutPoint(3, 0)], [1])

  /** A block of a coinbase alone is attached.  The pool keeps the transaction that spends the same output, and the orphan
      that waited for the coinbase stays an orphan although its parent is on the chain. */
  method CoinbaseOverlooked() returns (pool: TxPool, c: ChainInfo)
    ensures var b := Block(1, [COINBASE]);
            && FUNDING in Spends(COINBASE) && POOLED.id in pool.pool && FUNDING in pool.pool[POOLED.id].ins
            && !SharesNothing(pool.pool, b)
            && WAITING.id in pool.orphans && !HasMissing(pool.pool, c, pool.orphans[WAITING.id])
  {
    hide Indexed, AllRanked, Ranked, Waiting, Clean, Survives, Fits, SharesNothing, HasMissing, IdsOf;
    var b := Block(1, [COINBASE]);
    pool := BeforeBlock();
    c := ChainInfo({3}, {FUNDING});
    Overlooked(c);
    pool.SyncAttachBlock(b, c);
  }

  method BeforeBlock() returns (pool: TxPool)
    ensures fresh(pool) && pool.Valid() && pool.pool == map[2 := POOLED] && pool.orphans == map[4 := WAITING]
  {
    hide Indexed;
    pool := new TxPool(h => h, h => if h == 2 then POOLED else WAITING);
    pool.AddTransaction(POOLED);
    pool.AddOrphan(WAITING);
  }

  lemma Overlooked(c: ChainInfo)
    requires c == ChainInfo({3}, {FUNDING})
    ensures var b := Block(1, [COINBASE]);
            && b.txs[1..] == [] && Spends(COINBASE) == [FUNDING] && FUNDING in Spends(COINBASE) && FUNDING in POOLED.ins
            && !SharesNothing(map[2 := POOLED], b) && !HasMissing(map[2 := POOLED], c, WAITING)
  {
    var b := Block(1, [COINBASE]);
    assert Spends(COINBASE) == [FUNDING];
    var pool: Pool := map[2 := POOLED];
    assert b.txs[0] in b.txs && FUNDING in Spends(b.txs[0]) && POOLED.ins[0] == FUNDING;
    assert 2 in pool && FUNDING in pool[2].ins;
  }
}
