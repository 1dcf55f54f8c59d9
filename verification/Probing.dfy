/** Double hashing: the order in which a key's buckets are visited. */
module Probing {
  import opened Primes

  const WORD: int := 0x1_0000_0000

  /** A 32-bit hash value. */
  type Hash = h: int | 0 <= h < WORD

  function Home(h: Hash, n: nat): (i: nat)
    requires n > 0
    ensures i < n
  {
    h % n
  }

  function Stride(h: Hash, n: nat): (inc: nat)
    requires n > 1
    ensures 1 <= inc < n
  {
    1 + h % (n - 1)
  }

  /** One step of the probe loop in 32-bit arithmetic: the sum wraps before it is compared. */
  function Advance(i: nat, inc: nat, n: nat): int
    requires n < WORD && i < n && inc < n
  {
    var s := (i + inc) % WORD;
    if s >= n then s - n else s
  }

  /** The wrap-by-subtraction step is addition modulo n exactly when the sum fits in 32 bits;
      with at most 2^31 buckets it always does, with the two largest sizes it may not. */
  lemma AdvanceIsModular(i: nat, inc: nat, n: nat)
    requires 0 < n < WORD && i < n && inc < n
    ensures Advance(i, inc, n) == (i + inc) % n <==> i + inc < WORD
  {
    if i + inc >= n {
      DivModUnique(n, 1, i + inc - n);
    } else {
      DivModUnique(n, 0, i + inc);
    }
  }

  /** A concrete failure, with 3221225473 buckets: from the last bucket, a stride of 2^30
      leads to bucket 0 instead of bucket 1073741823. */
  lemma AdvanceOverflows()
    ensures Advance(3221225472, 1073741824, 3221225473) == 0
    ensures (3221225472 + 1073741824) % 3221225473 == 1073741823
  {
  }

  /** Largest bucket count at which no step overflows, whatever the stride. */
  const MAX_BUCKETS: nat := WORD / 2

  /** The bucket reached from i after j steps of stride inc. */
  function Walk(i: nat, inc: nat, n: nat, j: nat): (r: nat)
    requires n <= MAX_BUCKETS && i < n && inc < n
    ensures r < n
  {
    if j == 0 then i else Advance(Walk(i, inc, n, j - 1), inc, n)
  }

  /** The bucket visited by the j-th probe for a key with hash h. */
  function Probe(h: Hash, n: nat, j: nat): (i: nat)
    requires 1 < n <= MAX_BUCKETS
    ensures i < n
  {
    Walk(Home(h, n), Stride(h, n), n, j)
  }

  lemma AdvanceCases(i: nat, inc: nat, n: nat)
    requires n <= MAX_BUCKETS && i < n && inc < n
    ensures Advance(i, inc, n) == if i + inc >= n then i + inc - n else i + inc
  {
  }

  /** After j steps the walk has gone j strides, less q whole turns of the table. */
  ghost predicate Travelled(i: nat, inc: nat, n: nat, j: nat, q: int, w: int)
  {
    i + j * inc == n * q + w
  }

  lemma TravelOn(i: nat, inc: nat, n: nat, j: nat, q: int, w: int, turn: int)
    requires Travelled(i, inc, n, j, q, w)
    ensures Travelled(i, inc, n, j + 1, q + turn, w + inc - n * turn)
  {
    assert (j + 1) * inc == j * inc + inc;
    assert n * (q + turn) == n * q + n * turn;
  }

  lemma {:induction false} WalkTurns(i: nat, inc: nat, n: nat, j: nat, w: nat) returns (q: int)
    requires n <= MAX_BUCKETS && i < n && inc < n && w == Walk(i, inc, n, j)
    ensures Travelled(i, inc, n, j, q, w)
  {
    if j == 0 {
      q := 0;
    } else {
      var v := Walk(i, inc, n, j - 1);
      var p := WalkTurns(i, inc, n, j - 1, v);
      AdvanceCases(v, inc, n);
      q := if v + inc >= n then p + 1 else p;
      TravelOn(i, inc, n, j - 1, p, v, q - p);
    }
  }

  /** The j-th probe in closed form: j strides of 1 + h % (n - 1) from h % n on, modulo n. */
  lemma ProbeIs(h: Hash, n: nat, j: nat)
    requires 1 < n <= MAX_BUCKETS
    ensures Probe(h, n, j) == (h % n + j * (1 + h % (n - 1))) % n
  {
    var w := Probe(h, n, j);
    var q := WalkTurns(Home(h, n), Stride(h, n), n, j, w);
    DivModUnique(n, q, w);
  }

  lemma SamePlace(i: nat, inc: nat, n: nat, a: nat, b: nat, p: int, q: int, w: int)
    requires n > 0 && Travelled(i, inc, n, a, p, w) && Travelled(i, inc, n, b, q, w)
    ensures Divides(n, (b - a) * inc)
  {
    var c, d := b - a, q - p;
    assert c * inc == b * inc - a * inc;
    assert n * d == n * q - n * p;
    DividesIntro(n, d, c * inc);
  }

  lemma WalkDistinct(i: nat, inc: nat, n: nat, a: nat, b: nat)
    requires IsPrime(n) && n <= MAX_BUCKETS && i < n && 0 < inc < n && a < b < a + n
    ensures Walk(i, inc, n, a) != Walk(i, inc, n, b)
  {
    var w := Walk(i, inc, n, a);
    if w == Walk(i, inc, n, b) {
      var p := WalkTurns(i, inc, n, a, w);
      var q := WalkTurns(i, inc, n, b, w);
      SamePlace(i, inc, n, a, b, p, q, w);
      EuclidBelow(n, b - a, inc);
      DividesBound(n, inc);
      assert false;
    }
  }

  /** Probe coverage: with a prime bucket count every bucket is visited by one of the first n
      probes. */
  lemma ProbeCovers(h: Hash, n: nat, b: nat) returns (j: nat)
    requires IsPrime(n) && n <= MAX_BUCKETS && b < n
    ensures j < n && Probe(h, n, j) == b
  {
    if j' :| 0 <= j' < n && Probe(h, n, j') == b {
      j := j';
    } else {
      var visited: seq<int> := seq(n, t requires 0 <= t => Probe(h, n, t));
      forall x, y | 0 <= x < y < n
        ensures visited[x] != visited[y]
      {
        WalkDistinct(Home(h, n), Stride(h, n), n, x, y);
      }
      DistinctBound(visited, Below(n) - {b});
      assert false;
    }
  }

  /** No bucket is visited twice within n consecutive probes. */
  lemma ProbeDistinct(h: Hash, n: nat, a: nat, b: nat)
    requires IsPrime(n) && n <= MAX_BUCKETS && a < b < a + n
    ensures Probe(h, n, a) != Probe(h, n, b)
  {
    WalkDistinct(Home(h, n), Stride(h, n), n, a, b);
  }

  /** The probe sequence is a single cycle: n steps, and no fewer, lead back home. */
  lemma ProbeReturnsHome(h: Hash, n: nat, j: nat)
    requires IsPrime(n) && n <= MAX_BUCKETS && 0 < j <= n
    ensures Probe(h, n, j) == Home(h, n) <==> j == n
  {
    if j < n {
      ProbeDistinct(h, n, 0, j);
    } else {
      var k := ProbeCovers(h, n, Probe(h, n, n));
      if k > 0 {
        ProbeDistinct(h, n, k, n);
        assert false;
      }
    }
  }
}
