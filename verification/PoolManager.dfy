/**
 Round-robin choice of the pool that gets the next client.
 */
module PoolManagers {
  import opened Text

  /** Pools are known by the identity of the object that was added. */
  type PoolId = nat

  /** The pool chosen, and the index kept for the next time. */
  function Pick(n: nat, next: nat): (i: nat)
    requires n > 0
    ensures i < n
    ensures next < n ==> i == next
  {
    next % n
  }

  function Advance(n: nat, next: nat): (i: nat)
    requires n > 0
    ensures i < n
    ensures next < n ==> i == if next + 1 == n then 0 else next + 1
  {
    (next + 1) % n
  }

  class PoolManager {
    var pools: seq<PoolId>
    var nextPoolIndex: nat

    /** The index names a pool as soon as there is one. */
    predicate Valid()
      reads this
    {
      nextPoolIndex < |pools| || (pools == [] && nextPoolIndex == 0)
    }

    constructor ()
      ensures Valid() && pools == []
    {
      pools, nextPoolIndex := [], 0;
    }

    method AddPool(pool: PoolId)
      requires Valid()
      modifies this
      ensures Valid() && pools == old(pools) + [pool] && nextPoolIndex == old(nextPoolIndex)
    {
      pools := pools + [pool];
    }

    method GetPool() returns (selected: Option<PoolId>)
      requires Valid()
      modifies this`nextPoolIndex
      ensures Valid()
      ensures if pools == [] then selected == None && nextPoolIndex == old(nextPoolIndex)
              else selected == Some(pools[old(nextPoolIndex)])
                   && nextPoolIndex == Advance(|pools|, old(nextPoolIndex))
    {
      if pools == [] {
        return None;
      }
      var index := nextPoolIndex % |pools|;
      nextPoolIndex := (nextPoolIndex + 1) % |pools|;
      return Some(pools[index]);
    }
  }

  /** The indices of `k` successive choices. */
  function Picks(n: nat, next: nat, k: nat): (r: seq<nat>)
    requires n > 0
    ensures |r| == k && forall i :: 0 <= i < k ==> r[i] < n
    decreases k
  {
    if k == 0 then [] else [Pick(n, next)] + Picks(n, Advance(n, next), k - 1)
  }

  function CountOf(s: seq<nat>, p: nat): nat {
    if s == [] then 0 else (if s[0] == p then 1 else 0) + CountOf(s[1..], p)
  }

  /** How many choices before pool `p` is chosen. */
  function Distance(n: nat, next: nat, p: nat): nat
    requires next < n && p < n
  {
    if p >= next then p - next else p + n - next
  }

  lemma {:induction false} MulStep(n: nat, a: nat, b: nat)
    requires a < b
    ensures n * a + n <= n * b
    decreases b
  {
    assert n * b == n * (b - 1) + n;
    if a < b - 1 { MulStep(n, a, b - 1); }
  }

  lemma QuotientIs(x: nat, n: nat, q: nat)
    requires n > 0 && n * q <= x < n * q + n
    ensures x / n == q
  {
    var d := x / n;
    assert x == n * d + x % n;
    if d < q { MulStep(n, d, q); }
    if d > q { MulStep(n, q, d); }
  }

  lemma DivShift(x: nat, n: nat)
    requires n > 0
    ensures (x + n) / n == x / n + 1
  {
    assert n * (x / n + 1) == n * (x / n) + n;
    QuotientIs(x + n, n, x / n + 1);
  }

  lemma DivSmall(x: nat, n: nat)
    requires x < n
    ensures x / n == 0
  {
    QuotientIs(x, n, 0);
  }

  lemma DivMonotone(x: nat, y: nat, n: nat)
    requires n > 0 && x <= y
    ensures x / n <= y / n
  {
    assert x == n * (x / n) + x % n && y == n * (y / n) + y % n;
    if y / n < x / n { MulStep(n, y / n, x / n); }
  }

  /** The exact number of times a pool is chosen. */
  lemma {:induction false} CountExact(n: nat, next: nat, k: nat, p: nat)
    requires next < n && p < n
    ensures CountOf(Picks(n, next, k), p) == (k + n - 1 - Distance(n, next, p)) / n
    decreases k
  {
    if k == 0 {
      DivSmall(n - 1 - Distance(n, next, p), n);
    } else {
      assert Picks(n, next, k)[1..] == Picks(n, Advance(n, next), k - 1);
      CountExact(n, Advance(n, next), k - 1, p);
      if p == next {
        DivShift(k - 1, n);
      }
    }
  }

  /** Any k choices in a row, from any reachable index, give each of n pools floor(k/n) or ceil(k/n) clients. */
  lemma RoundRobinFair(n: nat, next: nat, k: nat, p: nat)
    requires next < n && p < n
    ensures k / n <= CountOf(Picks(n, next, k), p) <= (k + n - 1) / n
  {
    CountExact(n, next, k, p);
    DivMonotone(k, k + n - 1 - Distance(n, next, p), n);
    DivMonotone(k + n - 1 - Distance(n, next, p), k + n - 1, n);
  }

  /** Any n choices in a row choose every pool exactly once. */
  lemma RoundIsPermutation(n: nat, next: nat, p: nat)
    requires next < n && p < n
    ensures CountOf(Picks(n, next, n), p) == 1
  {
    CountExact(n, next, n, p);
    DivShift(n - 1 - Distance(n, next, p), n);
    DivSmall(n - 1 - Distance(n, next, p), n);
  }
}
