/** The in-place rehash as a state machine over values: entries are picked up from the old
    layout, placed in the new one, and evict entries that have not moved yet. */
module Rehash {
  import opened Wrappers
  import opened Primes
  import opened Probing
  import opened BucketFlags
  import opened HashTable

  /** Position of the entry that is out of the table, in the loop's local variables. */
  const IN_HAND := -1

  /** The shared key and value arrays under the old and the new flags. */
  datatype Move<K, V> = Move(from: seq<Bucket>, into: seq<Bucket>, keys: seq<K>, vals: seq<V>,
                             pos: map<K, int>, hand: Option<K>) {
    /** Bucket b holds an entry that already has its new place. */
    ghost predicate Placed(b: int) {
      0 <= b < |into| && !into[b].isEmpty
    }

    /** Bucket b holds an entry that has not moved yet. */
    ghost predicate Pending(b: int) {
      0 <= b < |from| && from[b].Live()
    }

    ghost predicate Shaped() {
      GoodSize(|into|) && |from| <= |keys| && |into| <= |keys| && |keys| == |vals|
    }

    ghost predicate Holds(m: map<K, V>, b: int) {
      0 <= b < |keys| && |keys| == |vals| && keys[b] in m && keys[b] in pos && pos[keys[b]] == b && vals[b] == m[keys[b]]
    }

    /** Key k is in hand, or in exactly one bucket, placed or pending. */
    ghost predicate Located(k: K) {
      && k in pos
      && (pos[k] == IN_HAND <==> hand == Some(k))
      && (pos[k] != IN_HAND ==> (Placed(pos[k]) || Pending(pos[k])) && 0 <= pos[k] < |keys| && keys[pos[k]] == k)
    }
  }

  ghost predicate AllFindable<K>(hash: K -> Hash, st: seq<Bucket>, keys: seq<K>)
    requires 1 < |st| <= MAX_BUCKETS && |st| <= |keys|
  {
    forall b: nat :: b < |st| && !st[b].isEmpty ==> Findable(st, hash(keys[b]), b)
  }

  /** At every step of the rehash the placed, the pending and the in-hand entries are together
      exactly the entries of m, each once, and every placed key is findable. */
  ghost predicate InFlight<K(!new), V>(hash: K -> Hash, m: map<K, V>, r: Move<K, V>)
  {
    && r.Shaped()
    && |m| < |r.into|
    && r.pos.Keys == m.Keys
    && (forall b :: r.Placed(b) ==> !r.Pending(b))
    && (forall b :: r.Placed(b) || r.Pending(b) ==> r.Holds(m, b))
    && (forall k :: k in m ==> r.Located(k))
    && (r.hand.Some? ==> r.hand.value in m)
    && AllFindable(hash, r.into, r.keys)
    && (forall b :: 0 <= b < |r.into| ==> !r.into[b].isDel)
  }

  /** The start: nothing placed, nothing in hand, the old layout is the table. */
  lemma Start<K(!new), V>(hash: K -> Hash, t: Table<K, V>, m: map<K, V>, r: Move<K, V>)
    requires Represents(hash, t, m)
    requires r.Shaped() && |m| < |r.into| && r.from == t.st && r.hand == None && r.pos == t.pos
    requires forall b :: 0 <= b < |r.into| ==> r.into[b] == EMPTY
    requires |t.st| <= |r.keys| && r.keys[..|t.st|] == t.keys && r.vals[..|t.st|] == t.vals
    ensures InFlight(hash, m, r)
  {
    hide Findable;
    forall b | 0 <= b < |t.st|
      ensures r.keys[b] == t.keys[b] && r.vals[b] == t.vals[b]
    {
      assert r.keys[..|t.st|][b] == t.keys[b] && r.vals[..|t.st|][b] == t.vals[b];
    }
    forall b | r.Pending(b)
      ensures r.Holds(m, b)
    {
      assert Entry(t, m, t.keys[b]);
    }
    forall k | k in m
      ensures r.Located(k)
    {
      assert Entry(t, m, k);
    }
  }

  /** The outer loop takes a pending entry in hand and marks its bucket. */
  ghost function Take<K, V>(r: Move<K, V>, j: nat): Move<K, V>
    requires r.Pending(j) && j < |r.keys|
  {
    r.(from := r.from[j := DELETED], pos := r.pos[r.keys[j] := IN_HAND], hand := Some(r.keys[j]))
  }

  lemma TakeHolds<K(!new), V>(hash: K -> Hash, m: map<K, V>, r: Move<K, V>, j: nat, b: int)
    requires InFlight(hash, m, r) && r.hand == None && r.Pending(j)
    requires Take(r, j).Placed(b) || Take(r, j).Pending(b)
    ensures Take(r, j).Holds(m, b)
  {
    hide Findable, AllFindable;
    assert r.Holds(m, j);
    assert r.Placed(b) || r.Pending(b);
    assert r.Holds(m, b);
  }

  lemma TakeLocated<K(!new), V>(hash: K -> Hash, m: map<K, V>, r: Move<K, V>, j: nat, k: K)
    requires InFlight(hash, m, r) && r.hand == None && r.Pending(j) && k in m
    ensures Take(r, j).Located(k)
  {
    hide Findable, AllFindable;
    assert r.Holds(m, j);
    assert r.Located(k) && r.Located(r.keys[j]);
  }

  lemma PickUp<K(!new), V>(hash: K -> Hash, m: map<K, V>, r: Move<K, V>, j: nat)
    requires InFlight(hash, m, r) && r.hand == None && r.Pending(j)
    ensures r.Holds(m, j)
    ensures InFlight(hash, m, Take(r, j))
    ensures forall b :: Take(r, j).Pending(b) <==> r.Pending(b) && b != j
  {
    hide Findable, AllFindable;
    assert r.Holds(m, j);
    var r' := Take(r, j);
    forall b | r'.Placed(b) || r'.Pending(b)
      ensures r'.Holds(m, b)
    {
      TakeHolds(hash, m, r, j, b);
    }
    forall k | k in m
      ensures r'.Located(k)
    {
      TakeLocated(hash, m, r, j, k);
    }
    assert forall b :: r'.Placed(b) <==> r.Placed(b);
  }

  lemma SomeFree<K(!new), V>(hash: K -> Hash, m: map<K, V>, r: Move<K, V>)
    requires InFlight(hash, m, r)
    ensures !forall b :: 0 <= b < |r.into| ==> !r.into[b].isEmpty
  {
    hide Findable, AllFindable;
    if forall b :: 0 <= b < |r.into| ==> !r.into[b].isEmpty {
      var keys := r.keys[..|r.into|];
      forall b | 0 <= b < |r.into|
        ensures r.Holds(m, b) && keys[b] in m.Keys
      {
        assert r.Placed(b);
      }
      forall x, y | 0 <= x < y < |keys|
        ensures keys[x] != keys[y]
      {
        assert r.Holds(m, x) && r.Holds(m, y);
      }
      DistinctBound(keys, m.Keys);
      assert false;
    }
  }

  /** Fewer entries than buckets: the new layout always has an empty bucket on the probe path
      of the entry in hand, so the inner search, which has no other exit, ends. */
  lemma FreeBucket<K(!new), V>(hash: K -> Hash, m: map<K, V>, r: Move<K, V>, h: Hash) returns (e: nat)
    requires InFlight(hash, m, r)
    ensures e < |r.into| && r.into[Probe(h, |r.into|, e)].isEmpty
  {
    SomeFree(hash, m, r);
    var b: nat :| b < |r.into| && r.into[b].isEmpty;
    e := ProbeCovers(h, |r.into|, b);
  }

  /** What both ways of placing the entry in hand have in common. */
  ghost function Put<K, V>(r: Move<K, V>, i: nat, key: K, val: V): Move<K, V>
    requires r.Shaped() && i < |r.into|
  {
    r.(into := r.into[i := LIVE], keys := r.keys[i := key], vals := r.vals[i := val], pos := r.pos[key := i], hand := None)
  }

  /** Placing does not disturb the entries of the other buckets. */
  lemma PutHolds<K(!new), V>(hash: K -> Hash, m: map<K, V>, r: Move<K, V>, i: nat, key: K, b: int)
    requires InFlight(hash, m, r) && r.hand == Some(key) && i < |r.into| && b != i
    requires r.Placed(b) || r.Pending(b)
    ensures r.Holds(m, b) && r.keys[b] != key && Put(r, i, key, m[key]).Holds(m, b)
  {
    hide Findable, AllFindable;
    assert r.Holds(m, b);
    assert r.Located(key);
  }

  lemma PutLocated<K(!new), V>(hash: K -> Hash, m: map<K, V>, r: Move<K, V>, i: nat, key: K, k: K)
    requires InFlight(hash, m, r) && r.hand == Some(key) && i < |r.into| && r.into[i].isEmpty && !r.Pending(i)
    requires k in m
    ensures Put(r, i, key, m[key]).Located(k)
  {
    hide Findable, AllFindable;
    assert r.Located(k) && r.Located(key);
  }

  /** The bucket found is free in both layouts: the entry in hand is at rest. */
  lemma Place<K(!new), V>(hash: K -> Hash, m: map<K, V>, r: Move<K, V>, i: nat, key: K)
    requires InFlight(hash, m, r) && r.hand == Some(key)
    requires i < |r.into| && r.into[i].isEmpty && Findable(r.into, hash(key), i) && !r.Pending(i)
    ensures InFlight(hash, m, Put(r, i, key, m[key]))
  {
    hide Findable, AllFindable;
    var r' := Put(r, i, key, m[key]);
    forall b | r'.Placed(b) || r'.Pending(b)
      ensures r'.Holds(m, b)
    {
      if b != i {
        assert r.Placed(b) || r.Pending(b);
        PutHolds(hash, m, r, i, key, b);
      }
    }
    forall k | k in m
      ensures r'.Located(k)
    {
      PutLocated(hash, m, r, i, key, k);
    }
    PlacedFindable(hash, r.into, r.keys, i, key);
  }

  lemma PlacedFindable<K>(hash: K -> Hash, st: seq<Bucket>, keys: seq<K>, i: nat, key: K)
    requires 1 < |st| <= MAX_BUCKETS && |st| <= |keys| && AllFindable(hash, st, keys)
    requires i < |st| && st[i].isEmpty && Findable(st, hash(key), i)
    ensures AllFindable(hash, st[i := LIVE], keys[i := key])
  {
    hide Findable;
    var st', keys' := st[i := LIVE], keys[i := key];
    forall b: nat | b < |st'| && !st'[b].isEmpty
      ensures Findable(st', hash(keys'[b]), b)
    {
      FindableGrows(st, st', hash(keys'[b]), b);
    }
  }

  /** The bucket found still holds an entry that has not moved: it is taken in hand instead. */
  ghost function Swap<K, V>(r: Move<K, V>, i: nat, key: K, val: V): Move<K, V>
    requires r.Shaped() && i < |r.into| && i < |r.from|
  {
    Move(r.from[i := DELETED], r.into[i := LIVE], r.keys[i := key], r.vals[i := val],
         r.pos[key := i][r.keys[i] := IN_HAND], Some(r.keys[i]))
  }

  lemma SwapLocated<K(!new), V>(hash: K -> Hash, m: map<K, V>, r: Move<K, V>, i: nat, key: K, k: K)
    requires InFlight(hash, m, r) && r.hand == Some(key) && i < |r.into| && r.into[i].isEmpty && r.Pending(i)
    requires k in m
    ensures Swap(r, i, key, m[key]).Located(k)
  {
    hide Findable, AllFindable;
    assert r.Holds(m, i);
    assert r.Located(k) && r.Located(key);
  }

  lemma Evict<K(!new), V>(hash: K -> Hash, m: map<K, V>, r: Move<K, V>, i: nat, key: K)
    requires InFlight(hash, m, r) && r.hand == Some(key)
    requires i < |r.into| && r.into[i].isEmpty && Findable(r.into, hash(key), i) && r.Pending(i)
    ensures r.Holds(m, i)
    ensures InFlight(hash, m, Swap(r, i, key, m[key]))
  {
    hide Findable, AllFindable;
    assert r.Holds(m, i);
    var r' := Swap(r, i, key, m[key]);
    forall b | r'.Placed(b) || r'.Pending(b)
      ensures r'.Holds(m, b)
    {
      SwapHolds(hash, m, r, i, key, b);
    }
    forall k | k in m
      ensures r'.Located(k)
    {
      SwapLocated(hash, m, r, i, key, k);
    }
    PlacedFindable(hash, r.into, r.keys, i, key);
  }

  lemma SwapHolds<K(!new), V>(hash: K -> Hash, m: map<K, V>, r: Move<K, V>, i: nat, key: K, b: int)
    requires InFlight(hash, m, r) && r.hand == Some(key) && i < |r.into| && r.Pending(i)
    requires Swap(r, i, key, m[key]).Placed(b) || Swap(r, i, key, m[key]).Pending(b)
    ensures Swap(r, i, key, m[key]).Holds(m, b)
  {
    hide Findable, AllFindable;
    assert r.Holds(m, i) && r.Located(key);
    if b != i {
      PutHolds(hash, m, r, i, key, b);
    }
  }

  /** The end: nothing pending and nothing in hand, so the new layout is a table for m. */
  ghost function Settled<K, V>(r: Move<K, V>): Table<K, V>
    requires r.Shaped()
  {
    Table(r.into, r.keys[..|r.into|], r.vals[..|r.into|], map k | k in r.pos && r.pos[k] >= 0 :: r.pos[k] as nat)
  }

  lemma SettledEntry<K(!new), V>(hash: K -> Hash, m: map<K, V>, r: Move<K, V>, k: K)
    requires InFlight(hash, m, r) && r.hand == None && (forall b :: !r.Pending(b)) && k in m
    ensures Entry(Settled(r), m, k) && Findable(r.into, hash(k), r.pos[k])
  {
    hide Findable;
    assert r.Located(k);
    assert r.Placed(r.pos[k]);
    assert r.Holds(m, r.pos[k]);
  }

  lemma Finish<K(!new), V>(hash: K -> Hash, m: map<K, V>, r: Move<K, V>)
    requires InFlight(hash, m, r) && r.hand == None && (forall b :: !r.Pending(b))
    ensures Represents(hash, Settled(r), m)
    ensures forall b :: 0 <= b < |r.into| ==> r.into[b].isEmpty || r.into[b].Live()
  {
    hide Findable, AllFindable;
    var t := Settled(r);
    forall k | k in m
      ensures Entry(t, m, k) && Findable(t.st, hash(k), t.pos[k])
    {
      SettledEntry(hash, m, r, k);
    }
    forall b: nat | b < |t.st| && t.st[b].Live()
      ensures t.keys[b] in m && t.pos[t.keys[b]] == b
    {
      assert r.Placed(b) && r.Holds(m, b);
    }
  }
}
