/** The invariant of a reachable table, with its counters, and what each operation keeps of it. */
module TableInvariant {
  import opened Wrappers
  import opened Probing
  import opened PrimeTable
  import opened BucketFlags
  import opened HashTable
  import opened Rehash
  import opened Sizing

  /** n_buckets, size, n_occupied, upper_bound, and the place of n_buckets in the schedule. */
  datatype Counters = Counters(n: nat, size: nat, occupied: nat, upper: nat, tier: nat)

  /** The load invariant and the representation. A table with buckets always has an empty one;
      a new table has none at all. */
  ghost predicate Sound<K(!new), V>(hash: K -> Hash, c: Counters, t: Table<K, V>, m: map<K, V>) {
    && c.tier <= LARGEST && c.n == Size(c.tier) == |t.st| && c.upper == UpperBound(c.n)
    && c.size == |m| && c.size <= c.occupied <= c.upper
    && c.occupied == |InUse(t.st)|
    && (if c.tier == 0 then m == map[] && t == Table([], [], [], map[]) else c.upper < c.n && Represents(hash, t, m))
  }

  lemma NewSound<K(!new), V>(hash: K -> Hash)
    ensures Sound<K, V>(hash, Counters(0, 0, 0, 0, 0), Table([], [], [], map[]), map[])
  {
    assert InUse([]) == {};
  }

  /** What the operations rely on: in every reachable table with buckets,
      size <= n_occupied <= upper_bound < n_buckets, and n_occupied counts the buckets in use,
      of which exactly size are live. */
  lemma LoadInvariant<K(!new), V>(hash: K -> Hash, c: Counters, t: Table<K, V>, m: map<K, V>)
    requires Sound(hash, c, t, m) && c.n > 0
    ensures Represents(hash, t, m) && GoodSize(c.n) && c.n == |t.st| == |t.keys| == |t.vals|
    ensures c.size == |m| == |LiveSet(t.st)| <= c.occupied == |InUse(t.st)| <= c.upper < c.n
    ensures t.pos.Keys == m.Keys
  {
    Shape(hash, t, m);
    LiveCount(hash, t, m);
  }

  lemma TierPositive<K(!new), V>(hash: K -> Hash, c: Counters, t: Table<K, V>, m: map<K, V>)
    requires Sound(hash, c, t, m)
    ensures c.tier > 0 <==> c.n > 0
    ensures c.tier == 0 ==> m == map[] && c == Counters(0, 0, 0, 0, 0)
  {
    if c.tier > 0 {
      SizeIsGood(c.tier);
    } else {
      assert InUse(t.st) == {};
    }
  }

  lemma Bounds<K(!new), V>(hash: K -> Hash, c: Counters, t: Table<K, V>, m: map<K, V>)
    requires Sound(hash, c, t, m)
    ensures c.tier <= LARGEST && c.n == Size(c.tier) && c.size <= c.occupied <= c.upper == UpperBound(c.n)
    ensures c.occupied < c.upper ==> c.n > 0
  {
  }

  lemma SizeEqualsCard<K(!new), V>(hash: K -> Hash, c: Counters, t: Table<K, V>, m: map<K, V>)
    requires Sound(hash, c, t, m)
    ensures c.size == |m|
  {
  }

  lemma ClearSound<K(!new), V>(hash: K -> Hash, c: Counters, t: Table<K, V>, m: map<K, V>, t': Table<K, V>)
    requires Sound(hash, c, t, m) && c.n > 0
    requires t' == Table(seq(c.n, i => EMPTY), t.keys, t.vals, map[])
    ensures Sound(hash, c.(size := 0, occupied := 0), t', map[])
  {
    LoadInvariant(hash, c, t, m);
    EmptyRepresents(hash, t');
  }

  /** A put of a new key: into an empty bucket, below the load limit, or over a tombstone. */
  lemma InsertSound<K(!new), V>(hash: K -> Hash, c: Counters, t: Table<K, V>, m: map<K, V>, k: K, x: nat)
    requires Sound(hash, c, t, m) && c.occupied < c.upper && k !in m && c.n > 0
    requires x < c.n && !t.st[x].Live() && Findable(t.st, hash(k), x)
    ensures x < |t.vals| && x < |t.keys|
    ensures Sound(hash, c.(size := c.size + 1, occupied := if t.st[x].isEmpty then c.occupied + 1 else c.occupied),
                  Table(t.st[x := LIVE], t.keys[x := k], t.vals, t.pos[k := x]), m[k := t.vals[x]])
  {
    hide Findable;
    LoadInvariant(hash, c, t, m);
    LiveCount(hash, t, m);
    InUseAfter(t.st, x, LIVE);
    InsertRepresents(hash, t, m, k, t.vals[x], x);
    assert t.vals[x := t.vals[x]] == t.vals;
  }

  lemma UpdateSound<K(!new), V>(hash: K -> Hash, c: Counters, t: Table<K, V>, m: map<K, V>, k: K, v: V)
    requires Sound(hash, c, t, m) && k in m
    ensures c.n > 0 && Entry(t, m, k)
    ensures Sound(hash, c, t.(vals := t.vals[t.pos[k] := v]), m[k := v])
  {
    hide Findable;
    UpdateRepresents(hash, t, m, k, v);
    assert m[k := v].Keys == m.Keys;
    assert |m[k := v]| == |m[k := v].Keys|;
  }

  lemma DeleteSound<K(!new), V>(hash: K -> Hash, c: Counters, t: Table<K, V>, m: map<K, V>, x: nat)
    requires Sound(hash, c, t, m) && x < c.n && t.st[x].Live()
    ensures x < |t.keys| && t.keys[x] in m && c.size > 0
    ensures Sound(hash, c.(size := c.size - 1), Table(t.st[x := DELETED], t.keys, t.vals, t.pos - {t.keys[x]}), m - {t.keys[x]})
  {
    hide Findable;
    LoadInvariant(hash, c, t, m);
    DeleteRepresents(hash, t, m, x);
    InUseAfter(t.st, x, DELETED);
    assert (m - {t.keys[x]}).Keys == m.Keys - {t.keys[x]};
  }

  /** A rehash to another size of the schedule whose load test passes. */
  lemma RehashSound<K(!new), V>(hash: K -> Hash, m: map<K, V>, t: Table<K, V>, tier: nat)
    requires Represents(hash, t, m) && 1 <= tier <= LARGEST && |t.st| == Size(tier)
    requires |m| < UpperBound(Size(tier))
    requires forall b :: 0 <= b < |t.st| ==> t.st[b].isEmpty || t.st[b].Live()
    ensures Sound(hash, Counters(Size(tier), |m|, |m|, UpperBound(Size(tier)), tier), t, m)
  {
    hide Findable;
    SizeIsGood(tier);
    UpperBoundBelow(Size(tier));
    LiveCount(hash, t, m);
    assert LiveSet(t.st) == InUse(t.st);
  }

  /** The rehash of a reachable table to a size with room for its entries can begin, */
  lemma StartSound<K(!new), V>(hash: K -> Hash, c: Counters, t: Table<K, V>, m: map<K, V>, r: Move<K, V>, tier: nat)
    requires Sound(hash, c, t, m) && 1 <= tier <= LARGEST && |m| < UpperBound(Size(tier))
    requires r.from == t.st && r.into == seq(Size(tier), i => EMPTY) && r.pos == t.pos && r.hand == None
    requires |r.keys| == |r.vals| && |t.st| <= |r.keys| && |r.into| <= |r.keys|
    requires |t.keys| == |t.vals| == |t.st| && r.keys[..|t.st|] == t.keys && r.vals[..|t.st|] == t.vals
    ensures InFlight(hash, m, r)
  {
    SizeIsGood(tier);
    UpperBoundBelow(Size(tier));
    if c.tier == 0 {
      assert forall b :: !r.Pending(b) && !r.Placed(b);
    } else {
      Start(hash, t, m, r);
    }
  }

  /** and its end is a reachable table again. */
  lemma FinishSound<K(!new), V>(hash: K -> Hash, m: map<K, V>, r: Move<K, V>, tier: nat)
    requires InFlight(hash, m, r) && r.hand == None && (forall b :: !r.Pending(b))
    requires 1 <= tier <= LARGEST && |r.into| == Size(tier) && |m| < UpperBound(Size(tier))
    ensures r.Shaped()
    ensures Sound(hash, Counters(Size(tier), |m|, |m|, UpperBound(Size(tier)), tier), Settled(r), m)
    ensures forall b :: 0 <= b < |r.into| ==> r.into[b].isEmpty || r.into[b].Live()
  {
    hide Represents;
    Finish(hash, m, r);
    RehashSound(hash, m, Settled(r), tier);
  }

  /** A pass over all buckets has seen every pair of the map once. */
  lemma EachSound<K(!new), V>(hash: K -> Hash, c: Counters, t: Table<K, V>, m: map<K, V>, order: seq<nat>, pairs: seq<(K, V)>)
    requires Sound(hash, c, t, m) && Visited(t, |t.st|, order, pairs)
    ensures Enumerates(pairs, m)
    ensures m.Keys <= t.pos.Keys && forall i, j :: 0 <= i < j < |pairs| ==> t.pos[pairs[i].0] < t.pos[pairs[j].0]
  {
    if c.tier > 0 {
      VisitedAll(hash, t, m, order, pairs);
    }
  }
}
