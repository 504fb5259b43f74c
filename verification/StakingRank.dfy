/** The staking rank and the split of the pool reward. */
module StakingRank {
  import opened Ledger
  import opened Supply
  import opened Subsidies

  const MAX_STAKING_REWARD_NUM: nat := 100
  const STAKING_TX_REWARD_START: nat := 24
  const DAY_PERIOD: nat := 1920

  type Key = nat

  datatype StakingTx = StakingTx(value: nat, frozenPeriod: nat, blockHeight: nat)
  datatype Pair = Pair(key: Key, value: nat, weight: nat)

  const FROZEN_PERIOD_WEIGHT: map<nat, nat> := map[55 := 10000, 144 := 16180, 377 := 26180]

  /** The weight of a day count: that of the longest period it reaches. */
  function Coefficient(days: nat): nat {
    if days >= 377 then 26180 else if days >= 144 then 16180 else if days >= 55 then 10000 else 0
  }

  /** The largest coefficient whose period is reached, whatever order the periods are visited in. */
  method FindCoefficient(days: nat) returns (current: nat)
    ensures current == Coefficient(days)
  {
    current := 0;
    var rest := FROZEN_PERIOD_WEIGHT.Keys;
    while rest != {}
      invariant rest <= FROZEN_PERIOD_WEIGHT.Keys
      invariant current == 0 || exists p :: p in FROZEN_PERIOD_WEIGHT && days >= p && current == FROZEN_PERIOD_WEIGHT[p]
      invariant forall p :: p in FROZEN_PERIOD_WEIGHT && p !in rest && days >= p ==> FROZEN_PERIOD_WEIGHT[p] <= current
      decreases |rest|
    {
      var period :| period in rest;
      var coefficient := FROZEN_PERIOD_WEIGHT[period];
      if days >= period && coefficient > current {
        current := coefficient;
      }
      rest := rest - {period};
    }
    assert 55 in FROZEN_PERIOD_WEIGHT && 144 in FROZEN_PERIOD_WEIGHT && 377 in FROZEN_PERIOD_WEIGHT;
  }

  // ----- the totals of one key

  const WORD: nat := 0x1_0000_0000_0000_0000

  /** Addition of 64-bit words, which wraps around. */
  function Add64(a: nat, b: nat): nat {
    (a + b) % WORD
  }

  /** Started and not expired, with the sums taken in 64 bits. */
  predicate Eligible(t: StakingTx, height: nat) {
    height >= Add64(t.blockHeight, STAKING_TX_REWARD_START) && Add64(t.blockHeight, t.frozenPeriod) >= height
  }

  /** The stake is in its rewarded period, and the end of that period fits in a word: one whose end does not fit is never
      eligible. */
  lemma EligibleMeans(t: StakingTx, height: nat)
    requires t.blockHeight + STAKING_TX_REWARD_START < WORD && t.frozenPeriod < WORD
    ensures Eligible(t, height) <==>
            t.blockHeight + STAKING_TX_REWARD_START <= height <= t.blockHeight + t.frozenPeriod < WORD
  {
    WrapOnce(t.blockHeight + t.frozenPeriod);
  }

  lemma WrapOnce(sum: nat)
    requires sum < 2 * WORD
    ensures sum % WORD == if sum < WORD then sum else sum - WORD
  {
  }

  function TotalValue(txs: seq<StakingTx>): nat {
    if txs == [] then 0 else TotalValue(txs[..|txs| - 1]) + txs[|txs| - 1].value
  }

  function TotalWeight(txs: seq<StakingTx>): (r: nat)
    ensures r <= TotalValue(txs) * 26180
  {
    if txs == [] then 0
    else
      var t := txs[|txs| - 1];
      assert t.value * Coefficient(t.frozenPeriod / DAY_PERIOD) <= t.value * 26180;
      TotalWeight(txs[..|txs| - 1]) + t.value * Coefficient(t.frozenPeriod / DAY_PERIOD)
  }

  /** The stakes of a key can be ranked: in range, started and not expired. */
  predicate Rankable(txs: seq<StakingTx>, height: nat) {
    TotalValue(txs) <= MAX_AMOUNT && forall i :: 0 <= i < |txs| ==> Eligible(txs[i], height)
  }

  lemma {:induction false} ValuePrefix(txs: seq<StakingTx>, n: nat)
    requires n <= |txs|
    ensures TotalValue(txs[..n]) <= TotalValue(txs)
  {
    if n == |txs| {
      assert txs[..n] == txs;
    } else {
      ValuePrefix(txs[..|txs| - 1], n);
      assert txs[..|txs| - 1][..n] == txs[..n];
    }
  }

  method Totals(key: Key, txs: seq<StakingTx>, height: nat) returns (r: Option<Pair>)
    ensures r == if Rankable(txs, height) then Some(Pair(key, TotalValue(txs), TotalWeight(txs))) else None
  {
    var value, weight := 0, 0;
    for i := 0 to |txs|
      invariant value == TotalValue(txs[..i]) <= MAX_AMOUNT && weight == TotalWeight(txs[..i])
      invariant forall k :: 0 <= k < i ==> Eligible(txs[k], height)
    {
      var t := txs[i];
      assert txs[..i + 1][..i] == txs[..i];
      ValuePrefix(txs, i + 1);
      value := value + t.value;
      if value > MAX_AMOUNT {
        return None;
      }
      if height < Add64(t.blockHeight, STAKING_TX_REWARD_START) || Add64(t.blockHeight, t.frozenPeriod) < height {
        return None;
      }
      var c := FindCoefficient(t.frozenPeriod / DAY_PERIOD);
      weight := weight + t.value * c;
    }
    assert txs[..|txs|] == txs;
    r := Some(Pair(key, value, weight));
  }

  // ----- the order

  /** Before in the ranking: larger weight, then larger value, then larger key. */
  predicate Before(a: Pair, b: Pair) {
    if a.weight != b.weight then a.weight > b.weight
    else if a.value != b.value then a.value > b.value
    else a.key > b.key
  }

  lemma BeforeIsStrictTotal(a: Pair, b: Pair, c: Pair)
    ensures !(Before(a, b) && Before(b, a))
    ensures Before(a, b) && Before(b, c) ==> Before(a, c)
    ensures Before(a, b) || Before(b, a) || a == b
  {
  }

  predicate Descending(s: seq<Pair>) {
    forall i, j :: 0 <= i < j < |s| ==> Before(s[i], s[j])
  }

  /** A set of pairs has only one descending arrangement. */
  lemma {:induction false} DescendingUnique(a: seq<Pair>, b: seq<Pair>)
    requires Descending(a) && Descending(b) && forall p :: p in a <==> p in b
    ensures a == b
  {
    assert b != [] ==> b[0] in b;
    if a != [] {
      assert a[0] in b && b != [] && b[0] in a;
      FirstAgree(a, b);
      forall p
        ensures p in a[1..] <==> p in b[1..]
      {
        RestMembers(a, p);
        RestMembers(b, p);
      }
      DescendingUnique(a[1..], b[1..]);
      assert a == [a[0]] + a[1..] && b == [b[0]] + b[1..];
    }
  }

  lemma FirstAgree(a: seq<Pair>, b: seq<Pair>)
    requires Descending(a) && Descending(b) && a != [] && b != [] && a[0] in b && b[0] in a
    ensures a[0] == b[0]
  {
    var i :| 0 <= i < |a| && a[i] == b[0];
    var j :| 0 <= j < |b| && b[j] == a[0];
    if i > 0 && j > 0 {
      BeforeIsStrictTotal(a[0], b[0], a[0]);
    }
  }

  lemma RestMembers(s: seq<Pair>, p: Pair)
    requires Descending(s) && s != []
    ensures p in s[1..] <==> p in s && p != s[0]
  {
    if p in s[1..] {
      var i :| 0 <= i < |s[1..]| && s[1..][i] == p;
      assert s[i + 1] == p && Before(s[0], p);
      BeforeIsStrictTotal(p, p, p);
    }
  }

  /** The sort: a stable insertion by the order above.  All pairs have different keys. */
  method Sorted(ps: seq<Pair>) returns (s: seq<Pair>)
    requires forall i, j :: 0 <= i < j < |ps| ==> ps[i].key != ps[j].key
    ensures Descending(s) && |s| == |ps| && forall p :: p in s <==> p in ps
  {
    s := [];
    for n := 0 to |ps|
      invariant Descending(s) && |s| == n && forall p :: p in s <==> p in ps[..n]
    {
      var x := ps[n];
      assert ps[..n + 1] == ps[..n] + [x];
      assert x !in s;
      var k := 0;
      while k < |s| && !Before(x, s[k])
        invariant 0 <= k <= |s| && forall i :: 0 <= i < k ==> Before(s[i], x)
      {
        BeforeIsStrictTotal(x, s[k], x);
        k := k + 1;
      }
      Inserted(s, x, k);
      s := s[..k] + [x] + s[k..];
    }
    assert ps[..|ps|] == ps;
  }

  lemma Inserted(s: seq<Pair>, x: Pair, k: nat)
    requires Descending(s) && k <= |s| && (forall i :: 0 <= i < k ==> Before(s[i], x))
    requires k < |s| ==> Before(x, s[k])
    ensures Descending(s[..k] + [x] + s[k..]) && forall p :: p in s[..k] + [x] + s[k..] <==> p in s || p == x
  {
    var t := s[..k] + [x] + s[k..];
    forall i, j | 0 <= i < j < |t|
      ensures Before(t[i], t[j])
    {
      if i < k < j {
        assert t[j] == s[j - 1];
      } else if i == k {
        assert t[j] == s[j - 1];
        BeforeIsStrictTotal(x, s[k], s[j - 1]);
      } else if i > k {
        assert t[i] == s[i - 1] && t[j] == s[j - 1];
      }
    }
    assert s == s[..k] + s[k..];
  }

  // ----- the ranking of a map

  type Stakes = map<Key, seq<StakingTx>>

  ghost predicate AllRankable(m: Stakes, height: nat) {
    forall k :: k in m ==> Rankable(m[k], height)
  }

  function PairOf(m: Stakes, k: Key): Pair
    requires k in m
  {
    Pair(k, TotalValue(m[k]), TotalWeight(m[k]))
  }

  /** The full ranking: every key once, in descending order. */
  ghost predicate IsRanking(m: Stakes, s: seq<Pair>) {
    && Descending(s) && |s| == |m|
    && forall p :: p in s <==> p.key in m && p == PairOf(m, p.key)
  }

  lemma RankingUnique(m: Stakes, a: seq<Pair>, b: seq<Pair>)
    requires IsRanking(m, a) && IsRanking(m, b)
    ensures a == b
  {
    DescendingUnique(a, b);
  }

  predicate Tie(a: Pair, b: Pair) {
    a.value == b.value && a.weight == b.weight
  }

  /** The first n entries of the ranking split no tie. */
  predicate WholeTies(s: seq<Pair>, n: nat) {
    0 < n < |s| ==> !Tie(s[n - 1], s[n])
  }

  /** What SortMap returns: the ranking, or for rewards the longest part of at most 100 entries without a split tie. */
  ghost predicate IsRewardList(s: seq<Pair>, onlyReward: bool, r: seq<Pair>) {
    if !onlyReward || |s| <= MAX_STAKING_REWARD_NUM then r == s
    else
      && |r| <= MAX_STAKING_REWARD_NUM && r == s[..|r|] && WholeTies(s, |r|)
      && forall n :: |r| < n <= MAX_STAKING_REWARD_NUM ==> !WholeTies(s, n)
  }

  /** SortMap succeeds exactly when all stakes can be ranked, and its result depends on the map alone, not on the
      order in which the keys are visited. */
  method SortMap(m: Stakes, height: nat, onlyReward: bool) returns (r: Option<seq<Pair>>, ghost ranking: seq<Pair>)
    ensures r.Some? <==> AllRankable(m, height)
    ensures r.Some? ==> IsRanking(m, ranking) && IsRewardList(ranking, onlyReward, r.value)
  {
    hide Descending, IsRewardList, Rankable;
    ranking := [];
    var ps: seq<Pair> := [];
    var rest := m.Keys;
    while rest != {}
      invariant rest <= m.Keys && |ps| + |rest| == |m|
      invariant forall p :: p in ps <==> p.key in m && p.key !in rest && p == PairOf(m, p.key)
      invariant forall i, j :: 0 <= i < j < |ps| ==> ps[i].key != ps[j].key
      invariant forall k :: k in m && k !in rest ==> Rankable(m[k], height)
      decreases |rest|
    {
      var k :| k in rest;
      var p := Totals(k, m[k], height);
      if p.None? {
        return None, [];
      }
      forall i | 0 <= i < |ps|
        ensures ps[i].key != k
      {
        assert ps[i] in ps;
      }
      ps := ps + [p.value];
      rest := rest - {k};
    }
    var s := Sorted(ps);
    ranking := s;
    var list := Cut(s, onlyReward);
    r := Some(list);
  }

  method Cut(s: seq<Pair>, onlyReward: bool) returns (r: seq<Pair>)
    ensures IsRewardList(s, onlyReward, r)
  {
    if onlyReward && |s| > MAX_STAKING_REWARD_NUM {
      var length := 0;
      var i := MAX_STAKING_REWARD_NUM;
      while i > 0
        invariant 0 <= i <= MAX_STAKING_REWARD_NUM
        invariant forall n :: i < n <= MAX_STAKING_REWARD_NUM ==> !WholeTies(s, n)
      {
        if s[i].value == s[i - 1].value && s[i].weight == s[i - 1].weight {
          i := i - 1;
          continue;
        }
        length := i;
        break;
      }
      return s[..length];
    }
    r := s;
  }

  /** Two calls agree. */
  lemma SortMapDeterministic(m: Stakes, onlyReward: bool, s1: seq<Pair>, r1: seq<Pair>, s2: seq<Pair>, r2: seq<Pair>)
    requires IsRanking(m, s1) && IsRewardList(s1, onlyReward, r1)
    requires IsRanking(m, s2) && IsRewardList(s2, onlyReward, r2)
    ensures r1 == r2
  {
    RankingUnique(m, s1, s2);
    if onlyReward && |s1| > MAX_STAKING_REWARD_NUM {
      assert WholeTies(s1, |r1|) && WholeTies(s1, |r2|);
    }
  }

  /** No key outside the reward list equals one inside in value and weight. */
  lemma NoTieSplit(s: seq<Pair>, n: nat, i: nat, j: nat)
    requires Descending(s) && WholeTies(s, n) && i < n <= j < |s|
    ensures !Tie(s[i], s[j])
  {
    assert i < n - 1 ==> Before(s[i], s[n - 1]);
    assert n < j ==> Before(s[n], s[j]);
    assert Before(s[n - 1], s[n]);
  }

  // ----- the split of the pool reward

  function WeightSum(ranks: seq<Pair>): nat {
    if ranks == [] then 0 else WeightSum(ranks[..|ranks| - 1]) + ranks[|ranks| - 1].weight
  }

  lemma {:induction false} WeightSumPrefix(ranks: seq<Pair>, n: nat)
    requires n <= |ranks|
    ensures WeightSum(ranks[..n]) <= WeightSum(ranks)
  {
    if n == |ranks| {
      assert ranks[..n] == ranks;
    } else {
      WeightSumPrefix(ranks[..|ranks| - 1], n);
      assert ranks[..|ranks| - 1][..n] == ranks[..n];
    }
  }

  /** The share of a weight, rounded down. */
  function NodeReward(reward: nat, total: nat, weight: nat): nat
    requires total > 0
  {
    reward * weight / total
  }

  lemma ShareBelow(reward: nat, total: nat, weight: nat)
    requires total > 0
    ensures NodeReward(reward, total, weight) * total <= reward * weight
  {
  }

  /** Smaller weights get smaller shares. */
  lemma ShareMonotone(reward: nat, total: nat, a: nat, b: nat)
    requires total > 0 && a <= b
    ensures NodeReward(reward, total, a) <= NodeReward(reward, total, b)
  {
    var x, y := NodeReward(reward, total, a), NodeReward(reward, total, b);
    ShareBelow(reward, total, a);
    assert reward * a <= reward * b;
    QuotientAtLeast(reward * b, total, x);
  }

  lemma QuotientAtLeast(n: nat, d: nat, q: nat)
    requires d > 0 && q * d <= n
    ensures q <= n / d
  {
    var k := n / d;
    assert n == k * d + n % d;
    assert (k + 1) * d == k * d + d;
    FactorLess(q, k + 1, d);
  }

  lemma FactorLess(a: nat, b: nat, d: nat)
    requires a * d < b * d
    ensures a < b
  {
  }

  /** Payouts with this property, times the total weight, stay within the reward times the weights paid. */
  lemma Within(paid: nat, total: nat, reward: nat, weights: nat)
    requires total > 0 && paid * total <= reward * weights && weights <= total
    ensures paid <= reward
  {
    assert reward * weights <= reward * total;
  }

  lemma SumSnoc(values: seq<nat>, v: nat)
    ensures Sum(values + [v]) == Sum(values) + v
  {
    assert (values + [v])[..|values|] == values;
  }

  const LIMIT: nat := 0x1_0000_0000_0000_0000_0000_0000_0000_0000

  /** The total of the weights, or nothing when it leaves 128 bits. */
  method AddWeights(ranks: seq<Pair>) returns (total: Option<nat>)
    ensures total == if WeightSum(ranks) < LIMIT then Some(WeightSum(ranks)) else None
  {
    var sum := 0;
    for i := 0 to |ranks|
      invariant sum == WeightSum(ranks[..i]) < LIMIT
    {
      assert ranks[..i + 1][..i] == ranks[..i];
      WeightSumPrefix(ranks, i + 1);
      sum := sum + ranks[i].weight;
      if sum >= LIMIT {
        return None;
      }
    }
    assert ranks[..|ranks|] == ranks;
    total := Some(sum);
  }

  /** The share of a weight can be computed: the product fits in 128 bits and the share is an amount. */
  predicate Computable(reward: nat, total: nat, weight: nat) {
    total > 0 && reward * weight < LIMIT && NodeReward(reward, total, weight) <= MAX_AMOUNT
  }

  method CalcNodeReward(reward: nat, total: nat, weight: nat) returns (r: Option<nat>)
    ensures r.Some? <==> Computable(reward, total, weight)
    ensures r.Some? ==> r.value * total <= reward * weight < (r.value + 1) * total
    ensures r.Some? ==> r.value == NodeReward(reward, total, weight)
  {
    var u := reward * weight;
    if u >= LIMIT || total == 0 {
      return None;
    }
    ShareBelow(reward, total, weight);
    assert (u / total + 1) * total == u / total * total + total;
    if u / total > MAX_AMOUNT {
      return None;
    }
    r := Some(u / total);
  }

  /** All ranks before i get something. */
  ghost predicate Reached(reward: nat, ranks: seq<Pair>, i: nat)
    requires i <= |ranks| && WeightSum(ranks) > 0
  {
    forall k :: 0 <= k < i ==> NodeReward(reward, WeightSum(ranks), ranks[k].weight) > 0
  }

  /** The outputs of the reward transaction: a payout to each rank until the first share of zero, and the rest back
      to the pool.  Fails exactly when the total is zero or too large, or a share on the way cannot be computed. */
  method SplitReward(reward: nat, ranks: seq<Pair>) returns (r: Option<seq<nat>>, change: nat)
    ensures r.Some? <==>
              ranks == [] ||
              (0 < WeightSum(ranks) < LIMIT &&
               forall i :: 0 <= i < |ranks| && Reached(reward, ranks, i) ==>
                 Computable(reward, WeightSum(ranks), ranks[i].weight))
    ensures r.Some? ==>
              var payouts, total := r.value, WeightSum(ranks);
              && |payouts| <= |ranks| && Sum(payouts) + change == reward
              && (forall i :: 0 <= i < |payouts| ==> payouts[i] == NodeReward(reward, total, ranks[i].weight) > 0)
              && (|payouts| < |ranks| ==> NodeReward(reward, total, ranks[|payouts|].weight) == 0)
  {
    hide NodeReward, Sum, Computable, WeightSum;
    NoWeight();
    var total := AddWeights(ranks);
    change := reward;
    if total.None? {
      return None, 0;
    }
    var payouts: seq<nat> := [];
    SumNone();
    assert ranks[..0] == [];
    for i := 0 to |ranks|
      invariant i > 0 ==> total.value > 0
      invariant |payouts| == i && Sum(payouts) + change == reward
      invariant forall k :: 0 <= k < i ==> payouts[k] == NodeReward(reward, total.value, ranks[k].weight) > 0
      invariant forall k :: 0 <= k < i ==> Computable(reward, total.value, ranks[k].weight)
      invariant Sum(payouts) * total.value <= reward * WeightSum(ranks[..i])
    {
      var share := CalcNodeReward(reward, total.value, ranks[i].weight);
      ComputableTotal(reward, total.value, ranks[i].weight);
      if share.None? {
        assert total.value > 0 ==> Reached(reward, ranks, i);
        return None, 0;
      }
      if share.value == 0 {
        return Some(payouts), change;
      }
      PaidWithin(reward, ranks, i, payouts);
      payouts := payouts + [share.value];
      change := change - share.value;
    }
    r := Some(payouts);
  }

  lemma NoWeight()
    ensures WeightSum([]) == 0
  {
  }

  lemma ComputableTotal(reward: nat, total: nat, weight: nat)
    ensures Computable(reward, total, weight) ==> total > 0
  {
  }

  /** One more payout still leaves the sum within the reward. */
  lemma PaidWithin(reward: nat, ranks: seq<Pair>, i: nat, payouts: seq<nat>)
    requires i < |ranks| && WeightSum(ranks) > 0
    requires Sum(payouts) * WeightSum(ranks) <= reward * WeightSum(ranks[..i])
    ensures var share := NodeReward(reward, WeightSum(ranks), ranks[i].weight);
            && Sum(payouts + [share]) == Sum(payouts) + share <= reward
            && Sum(payouts + [share]) * WeightSum(ranks) <= reward * WeightSum(ranks[..i + 1])
  {
    hide NodeReward, Sum;
    var total := WeightSum(ranks);
    var share := NodeReward(reward, total, ranks[i].weight);
    assert ranks[..i + 1][..i] == ranks[..i];
    ShareBelow(reward, total, ranks[i].weight);
    SumSnoc(payouts, share);
    Accumulate(Sum(payouts), share, total, reward, WeightSum(ranks[..i]), ranks[i].weight);
    WeightSumPrefix(ranks, i + 1);
    Within(Sum(payouts) + share, total, reward, WeightSum(ranks[..i + 1]));
  }

  lemma SumNone()
    ensures Sum([]) == 0
  {
  }

  lemma Accumulate(paid: nat, share: nat, total: nat, reward: nat, weights: nat, weight: nat)
    requires paid * total <= reward * weights && share * total <= reward * weight
    ensures (paid + share) * total <= reward * (weights + weight)
  {
    assert (paid + share) * total == paid * total + share * total;
    assert reward * (weights + weight) == reward * weights + reward * weight;
  }

  /** Stopping at the first share of zero skips nobody who would have been paid, because the ranks descend by weight. */
  lemma BreakSkipsOnlyZeros(reward: nat, ranks: seq<Pair>, n: nat, j: nat)
    requires Descending(ranks) && WeightSum(ranks) > 0 && n <= j < |ranks|
    requires NodeReward(reward, WeightSum(ranks), ranks[n].weight) == 0
    ensures NodeReward(reward, WeightSum(ranks), ranks[j].weight) == 0
  {
    hide NodeReward, WeightSum;
    assert n < j ==> Before(ranks[n], ranks[j]);
    ShareMonotone(reward, WeightSum(ranks), ranks[j].weight, ranks[n].weight);
  }

  /** What the rank of a key weighs at most. */
  const MAX_WEIGHT: nat := MAX_AMOUNT * 26180

  /** The products stay within 128 bits for every reward and every stake in range. */
  lemma NoOverflow(reward: nat, txs: seq<StakingTx>)
    requires reward <= MAX_AMOUNT && TotalValue(txs) <= MAX_AMOUNT
    ensures TotalWeight(txs) <= MAX_WEIGHT && reward * TotalWeight(txs) < LIMIT
  {
    hide TotalWeight, TotalValue;
    ProductBound(reward, MAX_AMOUNT, TotalWeight(txs), MAX_AMOUNT * 26180);
  }

  lemma {:induction false} WeightsBounded(ranks: seq<Pair>)
    requires forall i :: 0 <= i < |ranks| ==> ranks[i].weight <= MAX_WEIGHT
    ensures WeightSum(ranks) <= |ranks| * MAX_WEIGHT
  {
    if ranks != [] {
      WeightsBounded(ranks[..|ranks| - 1]);
    }
  }

  /** Nothing overflows on the ranks of a reward list: the split fails only when there are ranks and all of them weigh
      nothing. */
  lemma RankedFits(m: Stakes, height: nat, ranking: seq<Pair>, ranks: seq<Pair>, reward: nat)
    requires AllRankable(m, height) && IsRanking(m, ranking) && IsRewardList(ranking, true, ranks)
    requires reward <= MAX_AMOUNT
    ensures Descending(ranks) && WeightSum(ranks) < LIMIT
    ensures forall i :: 0 <= i < |ranks| && WeightSum(ranks) > 0 ==> Computable(reward, WeightSum(ranks), ranks[i].weight)
  {
    hide WeightSum, NodeReward, TotalWeight, TotalValue, Computable, WholeTies;
    assert |ranks| <= MAX_STAKING_REWARD_NUM && ranks <= ranking;
    forall i | 0 <= i < |ranks|
      ensures ranks[i].weight <= MAX_WEIGHT && reward * ranks[i].weight < LIMIT
    {
      assert ranks[i] == ranking[i] && ranking[i] in ranking;
      NoOverflow(reward, m[ranks[i].key]);
    }
    WeightsBounded(ranks);
    forall i | 0 <= i < |ranks| && WeightSum(ranks) > 0
      ensures Computable(reward, WeightSum(ranks), ranks[i].weight)
    {
      WeightInSum(ranks, i);
      ShareInRange(reward, WeightSum(ranks), ranks[i].weight);
    }
  }

  lemma WeightInSum(ranks: seq<Pair>, i: nat)
    requires i < |ranks|
    ensures ranks[i].weight <= WeightSum(ranks)
  {
    WeightSumPrefix(ranks, i + 1);
    assert ranks[..i + 1][..i] == ranks[..i];
  }

  lemma ShareInRange(reward: nat, total: nat, weight: nat)
    requires total > 0 && weight <= total && reward <= MAX_AMOUNT && reward * weight < LIMIT
    ensures Computable(reward, total, weight)
  {
    ShareBelow(reward, total, weight);
    Within(NodeReward(reward, total, weight), total, reward, weight);
  }

  /** The reward of the pool over the ranking of the stakes.  It fails exactly when a stake cannot be ranked or the ranks
      weigh nothing; otherwise a rank is paid exactly when its rounded share is not zero, and payouts and change add up
      to the reward. */
  method RewardRanked(m: Stakes, height: nat, reward: nat) returns (r: Option<seq<nat>>, change: nat, ranks: seq<Pair>)
    requires reward <= MAX_AMOUNT
    ensures r.Some? <==> AllRankable(m, height) && (ranks == [] || WeightSum(ranks) > 0)
    ensures AllRankable(m, height) ==> exists ranking :: IsRanking(m, ranking) && IsRewardList(ranking, true, ranks)
    ensures r.Some? ==> |r.value| <= |ranks| && Sum(r.value) + change == reward
    ensures r.Some? ==> forall i :: 0 <= i < |ranks| ==>
              var share := NodeReward(reward, WeightSum(ranks), ranks[i].weight);
              if i < |r.value| then r.value[i] == share > 0 else share == 0
  {
    hide Descending, IsRanking, IsRewardList, Sum, NodeReward, WeightSum, Computable, AllRankable;
    NoWeight();
    var list, ranking := SortMap(m, height, true);
    if list.None? {
      return None, 0, [];
    }
    ranks := list.value;
    RankedFits(m, height, ranking, ranks, reward);
    r, change := SplitReward(reward, ranks);
    if r.Some? {
      forall i | |r.value| <= i < |ranks|
        ensures NodeReward(reward, WeightSum(ranks), ranks[i].weight) == 0
      {
        BreakSkipsOnlyZeros(reward, ranks, |r.value|, i);
      }
    }
  }

  lemma ProductBound(a: nat, b: nat, c: nat, d: nat)
    requires a <= b && c <= d
    ensures a * c <= b * d
  {
    assert a * c <= b * c <= b * d;
  }
}
