/** How the table chooses its bucket count, and how much room a rehash leaves. */
module Sizing {
  import opened Primes
  import opened Probing
  import opened PrimeTable

  /** (khint_t)(n * 0.77 + 0.5). Every size is odd, so n * 0.77 + 0.5 is never an integer and
      the floor does not depend on how 0.77 is rounded. */
  function UpperBound(n: nat): nat {
    (77 * n + 50) / 100
  }

  /** The limit is within one half of 0.77 n, and so the nearest integer to it. */
  lemma UpperBoundRounds(n: nat)
    ensures -0.5 <= UpperBound(n) as real - 0.77 * (n as real) <= 0.5
  {
    assert 77 * n - 50 < 100 * UpperBound(n) <= 77 * n + 50;
  }

  lemma SizeStep(t: nat)
    requires t < 31
    ensures Size(t) + 1 < Size(t + 1)
    ensures t > 0 ==> Size(t) % 2 == 1
  {
  }

  lemma {:induction false} SizeMonotone(s: nat, t: nat)
    requires s < t < 32
    ensures Size(s) + 1 < Size(t)
    decreases t - s
  {
    SizeStep(t - 1);
    if s < t - 1 {
      SizeMonotone(s, t - 1);
    }
  }

  /** The modelled bucket counts are prime and small enough for the probe arithmetic. */
  lemma SizeIsGood(t: nat)
    requires 1 <= t <= LARGEST
    ensures IsPrime(Size(t)) && 3 <= Size(t) <= MAX_BUCKETS
  {
    ScheduleIsPrime(t);
    SizeStep(0);
    if t > 1 {
      SizeMonotone(1, t);
    }
    if t < LARGEST {
      SizeMonotone(t, LARGEST);
    }
  }

  lemma UpperBoundBelow(n: nat)
    requires n >= 3
    ensures 2 <= UpperBound(n) < n
  {
  }

  /** The table search of kh_resize: the smallest size above the request. */
  method NextSize(want: nat) returns (n: nat, ghost t: nat)
    requires want < Size(31)
    ensures 1 <= t < 32 && n == Size(t) && Size(t - 1) <= want < Size(t)
    ensures want < n && forall s: nat :: s < 32 && want < Size(s) ==> n <= Size(s)
  {
    var k := 31;
    while Size(k) > want
      invariant 0 <= k <= 31
      invariant k < 31 ==> want < Size(k + 1)
    {
      k := k - 1;
    }
    n, t := Size(k + 1), k + 1;
    SmallestAbove(t, want);
  }

  lemma SmallestAbove(t: nat, want: nat)
    requires 1 <= t < 32 && Size(t - 1) <= want < Size(t)
    ensures forall s: nat :: s < 32 && want < Size(s) ==> Size(t) <= Size(s)
  {
    forall s: nat | s < 32 && want < Size(s)
      ensures Size(t) <= Size(s)
    {
      if s < t {
        SizeAtMost(s, t - 1);
      } else {
        SizeAtMost(t, s);
      }
    }
  }

  /** A request below the largest modelled size stays within the modelled sizes. */
  lemma TierIsModelled(t: nat, want: nat)
    requires 1 <= t < 32 && Size(t - 1) <= want < Size(LARGEST)
    ensures t <= LARGEST
  {
    if t - 1 > LARGEST {
      SizeMonotone(LARGEST, t - 1);
    }
  }

  /** The two requests of kh_put: one less than the count keeps it, one more moves to the next. */
  lemma RequestedTier(tier: nat, want: nat, t: nat)
    requires tier <= LARGEST && 1 <= t < 32 && Size(t - 1) <= want < Size(t)
    ensures want == Size(tier) - 1 ==> t == tier
    ensures want == Size(tier) + 1 ==> t == tier + 1
  {
    SizeStep(tier);
    if t < tier {
      SizeMonotone(t, tier);
    } else if t > tier + 1 {
      SizeMonotone(tier, t - 1);
    }
  }

  /** Rehashing at the same size, done when at most half the buckets are live, passes the load
      test and leaves at least a quarter of the buckets as room. */
  lemma SameSizeHeadroom(n: nat, size: nat)
    requires n >= 3 && n > 2 * size
    ensures size < UpperBound(n) && 4 * (UpperBound(n) - size) >= n
  {
  }

  /** So does growing, from a table that is at its load limit. */
  lemma GrowHeadroom(tier: nat, size: nat)
    requires tier < LARGEST && size <= UpperBound(Size(tier))
    ensures var n := Size(tier + 1); size < UpperBound(n) && 4 * (UpperBound(n) - size) >= n
  {
    GrowthRate(tier);
  }

  lemma GrowthRate(tier: nat)
    requires tier < LARGEST
    ensures 4 * UpperBound(Size(tier + 1)) >= Size(tier + 1) + 4 * UpperBound(Size(tier))
    ensures Size(tier + 1) > 0
  {
  }

  /** The request kh_put makes when the table is at its load limit. */
  function PutRequest(n: nat, size: nat): int {
    if n > 2 * size then n - 1 else n + 1
  }

  lemma SizeAtMost(s: nat, t: nat)
    requires s <= t < 32
    ensures Size(s) <= Size(t)
  {
    if s < t {
      SizeMonotone(s, t);
    }
  }

  /** The request can be met unless the table would outgrow the modelled sizes, */
  lemma PutRequestFits(tier: nat, size: nat)
    requires tier <= LARGEST && (Size(tier) > 2 * size || Size(tier) < Size(LARGEST))
    ensures 0 <= PutRequest(Size(tier), size) < Size(LARGEST)
    ensures Size(tier) <= 2 * size ==> tier < LARGEST
  {
    SizeAtMost(tier, LARGEST);
    if Size(tier) <= 2 * size {
      SizeAtMost(tier + 1, LARGEST);
      SizeStep(tier);
    }
  }

  /** and the size it leads to passes the load test with a quarter of its buckets to spare: every
      rehash that a put triggers really happens. */
  lemma PutRequestPasses(tier: nat, size: nat, t: nat)
    requires tier <= LARGEST && size <= UpperBound(Size(tier)) && (Size(tier) > 2 * size || tier < LARGEST)
    requires 1 <= t <= LARGEST && Size(t - 1) <= PutRequest(Size(tier), size) < Size(t)
    ensures size < UpperBound(Size(t)) && 4 * (UpperBound(Size(t)) - size) >= Size(t)
  {
    RequestedTier(tier, PutRequest(Size(tier), size), t);
    if Size(tier) > 2 * size {
      if tier > 0 {
        SizeIsGood(tier);
      }
      SameSizeHeadroom(Size(tier), size);
    } else {
      GrowHeadroom(tier, size);
    }
  }
}
