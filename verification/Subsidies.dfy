/** The subsidy schedule and its shares. */
module Subsidies {
  const BASE_SUBSIDY: nat := 128_0000_0000
  const MIN_HALVED_SUBSIDY: nat := 625_0000
  const HALVING_INTERVAL: nat := 13440
  const ATTENUATION: nat := 94162
  const ATTENUATION_DENOMINATOR: nat := 100000
  const MAX_AMOUNT: nat := 618033988_0000_0000

  /** How often the schedule has attenuated at period t: the binary logarithm, rounded down. */
  function Attenuations(t: nat): nat {
    if t <= 1 then 0 else 1 + Attenuations(t / 2)
  }

  /** The subsidy after k attenuations; below the minimum it is zero for good. */
  function Attenuated(k: nat): nat {
    if k == 0 then BASE_SUBSIDY
    else
      var s := Attenuated(k - 1) * ATTENUATION / ATTENUATION_DENOMINATOR;
      if s < MIN_HALVED_SUBSIDY then 0 else s
  }

  function Subsidy(height: nat): nat {
    if height < 1 then BASE_SUBSIDY else Attenuated(Attenuations((height - 1) / HALVING_INTERVAL + 1))
  }

  method CalcCoinbaseSubsidy(interval: nat, height: nat) returns (subsidy: nat)
    ensures subsidy == if interval == 0 then BASE_SUBSIDY else Subsidy(height)
  {
    subsidy := BASE_SUBSIDY;
    if height < 1 || interval <= 0 {
      return;
    }
    var t := (height - 1) / HALVING_INTERVAL + 1;
    ghost var k, all := 0, Attenuations(t);
    while true
      invariant t >= 1 && k + Attenuations(t) == all && subsidy == Attenuated(k)
      decreases t
    {
      t := t / 2;
      if t == 0 {
        return;
      }
      subsidy := subsidy * ATTENUATION / ATTENUATION_DENOMINATOR;
      k := k + 1;
      if subsidy < MIN_HALVED_SUBSIDY {
        subsidy := 0;
        StaysZero(k, all);
        return;
      }
    }
  }

  lemma {:induction false} StaysZero(k: nat, m: nat)
    requires k <= m && Attenuated(k) == 0
    ensures Attenuated(m) == 0
  {
    if k < m {
      StaysZero(k, m - 1);
    }
  }

  lemma {:induction false} AttenuatedDecreases(k: nat, m: nat)
    requires k <= m
    ensures Attenuated(m) <= Attenuated(k)
  {
    if k < m {
      AttenuatedDecreases(k, m - 1);
      var s := Attenuated(m - 1);
      assert s * ATTENUATION / ATTENUATION_DENOMINATOR <= s;
    }
  }

  lemma {:induction false} AttenuationsIncrease(t: nat, u: nat)
    requires t <= u
    ensures Attenuations(t) <= Attenuations(u)
  {
    if t > 1 {
      AttenuationsIncrease(t / 2, u / 2);
    }
  }

  /** The subsidy never rises with the height. */
  lemma SubsidyNeverRises(low: nat, high: nat)
    requires low <= high
    ensures Subsidy(high) <= Subsidy(low) <= BASE_SUBSIDY
  {
    AttenuatedDecreases(0, if low < 1 then 0 else Attenuations((low - 1) / HALVING_INTERVAL + 1));
    if low >= 1 {
      AttenuationsIncrease((low - 1) / HALVING_INTERVAL + 1, (high - 1) / HALVING_INTERVAL + 1);
      AttenuatedDecreases(Attenuations((low - 1) / HALVING_INTERVAL + 1), Attenuations((high - 1) / HALVING_INTERVAL + 1));
    } else if high >= 1 {
      AttenuatedDecreases(0, Attenuations((high - 1) / HALVING_INTERVAL + 1));
    }
  }

  /** What the shares of a subsidy add up to, each rounded down. */
  function SharesOf(s: nat): nat {
    s * 6930 / 10000 + s * 2000 / 10000 + s * 70 / 10000 + s * 1000 / 10000
  }

  /** The shares of a subsidy: a valid binding moves the game share from the pool to the miner.  Rounding down
      loses fewer than four units and the shares never exceed the subsidy. */
  method CalcBlockSubsidy(interval: nat, height: nat, hasValidBinding: bool)
    returns (miner: nat, pool: nat, senate: nat)
    ensures var s := if interval == 0 then BASE_SUBSIDY else Subsidy(height);
            s - 4 < miner + pool + senate <= s
    ensures miner + pool + senate == SharesOf(if interval == 0 then BASE_SUBSIDY else Subsidy(height))
    ensures senate == (if interval == 0 then BASE_SUBSIDY else Subsidy(height)) / 10
    ensures var s := if interval == 0 then BASE_SUBSIDY else Subsidy(height);
            if hasValidBinding then pool == s / 5 else miner == s * 7 / 1000
  {
    var subsidy := CalcCoinbaseSubsidy(interval, height);
    miner, pool, senate := 0, 0, 0;
    if subsidy == 0 {
      return;
    }
    if !hasValidBinding {
      pool := subsidy * 6930 / 10000;
    } else {
      miner := miner + subsidy * 6930 / 10000;
    }
    pool := pool + subsidy * 2000 / 10000;
    miner := miner + subsidy * 70 / 10000;
    senate := subsidy * 1000 / 10000;
  }
}
