/** The counters of a table, how the operations move them, and what rehashing costs over any
    course of them. */
module RehashCost {
  import opened PrimeTable
  import opened Sizing

  /** n_buckets, size, n_occupied and upper_bound. */
  datatype Load = Load(buckets: nat, size: nat, occupied: nat, limit: nat)

  ghost predicate NextCount(n: nat, n': nat) {
    exists t: nat :: t < LARGEST && n == Size(t) && n' == Size(t + 1)
  }

  /** Making room: below the limit nothing changes. At the limit a rehash drops the tombstones;
      the bucket count stays when less than half the buckets are live and else is the next one. */
  ghost predicate RoomStep(c: Load, c': Load) {
    if c.occupied < c.limit then
      c' == c
    else
      c'.size == c'.occupied == c.size && c'.limit == UpperBound(c'.buckets)
      && (if c.buckets > 2 * c.size then c'.buckets == c.buckets else NextCount(c.buckets, c'.buckets))
  }

  /** What a put with this return code writes: 0 for a key that was there, 1 for an empty bucket
      taken, 2 for a tombstone. */
  function Stored(c: Load, ret: int): Load {
    c.(size := if ret == 0 then c.size else c.size + 1, occupied := if ret == 1 then c.occupied + 1 else c.occupied)
  }

  ghost predicate PutStep(c: Load, c': Load, ret: int) {
    var room := Load(c'.buckets, c.size, if c.occupied < c.limit then c.occupied else c.size, c'.limit);
    0 <= ret <= 2 && RoomStep(c, room) && c' == Stored(room, ret) && c'.size <= c'.occupied <= c'.limit
  }

  /** The old buckets a put scans: all of them at the limit, none below it. */
  function PutCost(c: Load): nat {
    if c.occupied >= c.limit then c.buckets else 0
  }

  /** What every reachable table keeps of its counters. */
  ghost predicate InBounds(c: Load) {
    && (exists t: nat :: t <= LARGEST && c.buckets == Size(t))
    && c.limit == UpperBound(c.buckets) && c.size <= c.occupied <= c.limit
  }

  /** The account: the buckets scanned are paid for by the puts, at four buckets a put, and the
      table's own buckets by those puts and the headroom left. */
  ghost predicate Paid(c: Load, scanned: nat, puts: nat)
    requires c.occupied <= c.limit
  {
    scanned <= 4 * puts && (c.buckets > 0 ==> scanned + c.buckets <= 4 * puts + 4 * (c.limit - c.occupied))
  }

  /** What a put does to the counters, number by number: it grows the table exactly when the limit
      is reached and at least half the buckets are live, and then to the next size. */
  lemma PutMoves(c: Load, c': Load, ret: int)
    requires InBounds(c) && PutStep(c, c', ret)
    ensures c'.size == c.size + if ret == 0 then 0 else 1
    ensures c'.occupied == (if c.occupied < c.limit then c.occupied else c.size) + if ret == 1 then 1 else 0
    ensures c.buckets < c'.buckets <==> c.occupied >= c.limit && c.buckets <= 2 * c.size
    ensures c.buckets == c'.buckets || exists t: nat :: t < LARGEST && c.buckets == Size(t) && c'.buckets == Size(t + 1)
    ensures -50 <= 100 * c'.limit - 77 * c'.buckets <= 50
  {
    if c.occupied >= c.limit && c.buckets <= 2 * c.size {
      var t: nat :| t < LARGEST && c.buckets == Size(t) && c'.buckets == Size(t + 1);
      SizeStep(t);
    }
  }

  /** A rehash leaves a quarter of its new buckets as headroom, whether it keeps the count or
      grows. */
  lemma RoomLeft(c: Load, c': Load)
    requires InBounds(c) && RoomStep(c, c') && c.occupied >= c.limit
    ensures InBounds(c') && c'.occupied < c'.limit && 4 * (c'.limit - c'.occupied) >= c'.buckets
  {
    var t: nat :| t <= LARGEST && c.buckets == Size(t);
    if c.buckets > 2 * c.size {
      SizeIsGood(t);
      SameSizeHeadroom(c.buckets, c.size);
    } else {
      var s: nat :| s < LARGEST && c.buckets == Size(s) && c'.buckets == Size(s + 1);
      GrowHeadroom(s, c.size);
    }
  }

  /** Any put that moves the counters as PutStep says keeps the account. */
  lemma PutPaid(c: Load, c': Load, ret: int, scanned: nat, puts: nat)
    requires InBounds(c) && Paid(c, scanned, puts) && PutStep(c, c', ret)
    ensures InBounds(c') && Paid(c', scanned + PutCost(c), puts + 1)
  {
    if c.occupied >= c.limit {
      RoomLeft(c, Load(c'.buckets, c.size, c.size, c'.limit));
    }
  }

  /** So does clearing, and removing an entry, which leaves the headroom as it is. */
  lemma LessPaid(c: Load, c': Load, scanned: nat, puts: nat)
    requires InBounds(c) && Paid(c, scanned, puts)
    requires c'.size <= c'.occupied <= c.occupied && c'.buckets == c.buckets && c'.limit == c.limit
    ensures InBounds(c') && Paid(c', scanned, puts)
  {
  }
}
