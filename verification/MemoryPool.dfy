/**
 The memory budget all maps of a process share: how much their write buffers hold together, and
 the cap over which a map writes its buffer out.
 */
module MemoryPools {

  /** Under the budget, a map writes its buffer out only once it holds this much. */
  const MIN_BUDGET_FLUSH_BYTES: nat := 64 * 1024

  /** What the given maps hold together. */
  ghost function Sum(shares: map<object, nat>): nat
    decreases |shares|
  {
    if shares == map[] then 0
    else
      var m :| m in shares;
      shares[m] + Sum(shares - {m})
  }

  /** The sum does not depend on the order of the maps. */
  lemma {:induction false} SumWithout(shares: map<object, nat>, m: object)
    requires m in shares
    ensures Sum(shares) == shares[m] + Sum(shares - {m})
    decreases |shares|
  {
    var n :| n in shares && Sum(shares) == shares[n] + Sum(shares - {n});
    if n != m {
      SumWithout(shares - {n}, m);
      SumWithout(shares - {m}, n);
      assert shares - {n} - {m} == shares - {m} - {n};
    }
  }

  lemma SumSet(shares: map<object, nat>, m: object, share: nat)
    ensures Sum(shares[m := share]) == Sum(shares - {m}) + share
    ensures m in shares ==> Sum(shares[m := share]) == Sum(shares) - shares[m] + share
    ensures m !in shares ==> Sum(shares[m := share]) == Sum(shares) + share
  {
    SumWithout(shares[m := share], m);
    assert shares[m := share] - {m} == shares - {m};
    if m in shares {
      SumWithout(shares, m);
    } else {
      assert shares - {m} == shares;
    }
  }

  /** The maps that hold enough to be worth a run. */
  ghost function Big(shares: map<object, nat>): map<object, nat> {
    map m | m in shares && shares[m] >= MIN_BUDGET_FLUSH_BYTES :: shares[m]
  }

  /** One threshold for each of `n` maps. */
  ghost function Thresholds(n: nat): nat {
    MIN_BUDGET_FLUSH_BYTES * n
  }

  lemma {:induction false} BigBounds(shares: map<object, nat>)
    ensures Sum(Big(shares)) <= Sum(shares) <= Sum(Big(shares)) + Thresholds(|shares|)
    decreases |shares|
  {
    hide Sum, Big, Thresholds;
    NoShares();
    if shares != map[] {
      var m :| m in shares;
      var rest := shares - {m};
      BigBounds(rest);
      SumWithout(shares, m);
      BigWithout(shares, m);
      OneMoreThreshold(|rest|);
      assert |shares| == |rest| + 1;
      if m in Big(shares) {
        SumWithout(Big(shares), m);
      }
    }
  }

  lemma OneMoreThreshold(n: nat)
    ensures Thresholds(n + 1) == Thresholds(n) + MIN_BUDGET_FLUSH_BYTES
  {
  }

  lemma NoShares()
    ensures Sum(map[]) == 0 && Big(map[]) == map[] && Thresholds(0) == 0
  {
  }

  /** Leaving a map out leaves it out of the large ones, if it is one. */
  lemma BigWithout(shares: map<object, nat>, m: object)
    requires m in shares
    ensures m in Big(shares) <==> shares[m] >= MIN_BUDGET_FLUSH_BYTES
    ensures Big(shares - {m}) == Big(shares) - {m}
    ensures m in Big(shares) ==> Big(shares)[m] == shares[m]
    ensures m !in Big(shares) ==> Big(shares) - {m} == Big(shares)
  {
  }

  lemma BigAfter(shares: map<object, nat>, m: object, share: nat)
    requires share < MIN_BUDGET_FLUSH_BYTES
    ensures Sum(Big(shares[m := share])) <= Sum(Big(shares))
  {
    if m in Big(shares) {
      assert Big(shares[m := share]) == Big(shares) - {m};
      SumWithout(Big(shares), m);
    } else {
      assert Big(shares[m := share]) == Big(shares);
    }
  }

  class MemoryPool {
    /** The cap, the use now, and the most there has been. */
    const budget: nat
    var inUse: nat
    var peak: nat
    /** Each live map's share. */
    ghost var shares: map<object, nat>

    /** The counter is the sum of the shares. */
    ghost predicate Valid()
      reads this
    {
      inUse == Sum(shares) && inUse <= peak
    }

    /** The maps worth a run hold no more than the budget. */
    ghost predicate Bounded()
      reads this
    {
      Sum(Big(shares)) <= budget
    }

    constructor (budget: nat)
      ensures Valid() && Bounded() && shares == map[] && inUse == peak == 0 && this.budget == budget
    {
      this.budget := budget;
      inUse, peak, shares := 0, 0, map[];
      assert Big(map[]) == map[];
    }

    /** Moves one map's share from `before` to `now`, as `count_memory` does. */
    method Account(owner: object, before: nat, now: nat)
      requires Valid() && owner in shares && shares[owner] == before
      modifies this
      ensures Valid()
      ensures shares == old(shares)[owner := now]
      ensures inUse == old(inUse) - before + now
      ensures peak == if inUse > old(peak) then inUse else old(peak)
    {
      SumSet(shares, owner, now);
      SumWithout(shares, owner);
      if now >= before {
        inUse := inUse + (now - before);
        peak := if inUse > peak then inUse else peak;
      } else {
        inUse := inUse - (before - now);
      }
      shares := shares[owner := now];
    }

    /** A new map enters with nothing. */
    ghost method Enter(owner: object)
      requires Valid() && Bounded() && owner !in shares
      modifies `shares
      ensures Valid() && Bounded() && shares == old(shares)[owner := 0]
    {
      SumSet(shares, owner, 0);
      BigAfter(shares, owner, 0);
      shares := shares[owner := 0];
    }

    /** A map that is dropped gives its share back. */
    method Leave(owner: object, share: nat)
      requires Valid() && Bounded() && owner in shares && shares[owner] == share
      modifies this
      ensures Valid() && Bounded() && shares == old(shares) - {owner}
    {
      SumWithout(shares, owner);
      inUse := inUse - share;
      if owner in Big(shares) {
        SumWithout(Big(shares), owner);
        assert Big(shares - {owner}) == Big(shares) - {owner};
      } else {
        assert Big(shares - {owner}) == Big(shares);
      }
      shares := shares - {owner};
    }

    /** A map under the flush threshold, or a total under the budget, keeps the bound. */
    lemma StaysBounded(before: map<object, nat>, owner: object, share: nat)
      requires Valid() && shares == before[owner := share] && Sum(Big(before)) <= budget
      requires share < MIN_BUDGET_FLUSH_BYTES || inUse <= budget
      ensures Bounded()
    {
      if share < MIN_BUDGET_FLUSH_BYTES {
        BigAfter(before, owner, share);
      } else {
        BigBounds(shares);
      }
    }

    /** Between operations, all maps together hold at most the budget and a threshold each. */
    lemma TotalBounded()
      requires Valid() && Bounded()
      ensures inUse <= budget + MIN_BUDGET_FLUSH_BYTES * |shares|
    {
      BigBounds(shares);
    }
  }
}
