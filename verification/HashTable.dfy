/** The hash table as values: what its arrays represent, what a search can rely on, and what the
    operations do to it. */
module HashTable {
  import opened Primes
  import opened Probing
  import opened BucketFlags

  // ---- searching -------------------------------------------------------------------

  ghost predicate GoodSize(n: nat) {
    IsPrime(n) && n <= MAX_BUCKETS
  }

  /** The first j buckets probed for h are all in use. */
  ghost predicate Path(st: seq<Bucket>, h: Hash, j: nat)
    requires 1 < |st| <= MAX_BUCKETS
  {
    forall t: nat :: t < j ==> !st[Probe(h, |st|, t)].isEmpty
  }

  /** Bucket b is probed for h before any empty bucket is. */
  ghost predicate Findable(st: seq<Bucket>, h: Hash, b: nat)
    requires 1 < |st| <= MAX_BUCKETS
  {
    exists j: nat :: j < |st| && Probe(h, |st|, j) == b && Path(st, h, j)
  }

  /** No tombstone is among the probes from the i-th to before the j-th. */
  ghost predicate NoTombstone(st: seq<Bucket>, h: Hash, i: nat, j: nat)
    requires 1 < |st| <= MAX_BUCKETS
  {
    forall t: nat :: i <= t < j ==> !st[Probe(h, |st|, t)].isDel
  }

  /** Bucket b is the last tombstone probed for h before the e-th probe. */
  ghost predicate LastTombstone(st: seq<Bucket>, h: Hash, b: nat, e: nat)
    requires 1 < |st| <= MAX_BUCKETS
  {
    exists j: nat :: j < e && Probe(h, |st|, j) == b && st[b].isDel && NoTombstone(st, h, j + 1, e)
  }

  /** Bucket b is where a new key with hash h belongs: its search ends at the e-th probe, an
      empty bucket, and b is the last tombstone passed or, if there is none, that bucket. */
  ghost predicate BelongsAt(st: seq<Bucket>, h: Hash, b: nat, e: nat)
    requires 1 < |st| <= MAX_BUCKETS
  {
    && e < |st| && Path(st, h, e) && st[Probe(h, |st|, e)].isEmpty
    && (if NoTombstone(st, h, 0, e) then b == Probe(h, |st|, e) else LastTombstone(st, h, b, e))
  }

  ghost predicate Belongs(st: seq<Bucket>, h: Hash, b: nat)
    requires 1 < |st| <= MAX_BUCKETS
  {
    exists e: nat :: BelongsAt(st, h, b, e)
  }

  /** The search of a put has passed this site so far, the bucket count standing for none. */
  ghost predicate Passed(st: seq<Bucket>, h: Hash, site: nat, j: nat)
    requires 1 < |st| <= MAX_BUCKETS
  {
    if site == |st| then NoTombstone(st, h, 0, j) else LastTombstone(st, h, site, j)
  }

  lemma PassedNothing(st: seq<Bucket>, h: Hash)
    requires 1 < |st| <= MAX_BUCKETS
    ensures Passed(st, h, |st|, 0)
  {
  }

  lemma PassedStep(st: seq<Bucket>, h: Hash, site: nat, j: nat)
    requires 1 < |st| <= MAX_BUCKETS && Passed(st, h, site, j)
    ensures var b := Probe(h, |st|, j); Passed(st, h, if st[b].isDel then b else site, j + 1)
  {
    hide Probe;
    var b := Probe(h, |st|, j);
    if st[b].isDel {
      assert NoTombstone(st, h, j + 1, j + 1);
    } else if site != |st| {
      var i: nat :| i < j && Probe(h, |st|, i) == site && st[site].isDel && NoTombstone(st, h, i + 1, j);
      assert NoTombstone(st, h, i + 1, j + 1);
    }
  }

  /** At the end of a search that found no key, the site passed or the empty bucket is where the
      key belongs. */
  lemma PassedBelongs(st: seq<Bucket>, h: Hash, site: nat, e: nat)
    requires 1 < |st| <= MAX_BUCKETS && Passed(st, h, site, e)
    requires e < |st| && Path(st, h, e) && st[Probe(h, |st|, e)].isEmpty
    ensures Belongs(st, h, if site == |st| then Probe(h, |st|, e) else site)
  {
    hide Probe;
    if site != |st| {
      var j: nat :| j < e && Probe(h, |st|, j) == site && st[site].isDel && NoTombstone(st, h, j + 1, e);
      assert !NoTombstone(st, h, 0, e);
    }
    assert BelongsAt(st, h, if site == |st| then Probe(h, |st|, e) else site, e);
  }

  /** Of the tombstones before the first empty bucket none is probed after the one where the key
      belongs, and with no tombstone there it belongs in that empty bucket. */
  lemma BelongsLast(st: seq<Bucket>, h: Hash, b: nat, e: nat, t: nat)
    requires 1 < |st| <= MAX_BUCKETS && Belongs(st, h, b)
    requires (forall i: nat :: i < e ==> !st[Probe(h, |st|, i)].isEmpty) && st[Probe(h, |st|, e)].isEmpty
    ensures t < e && st[Probe(h, |st|, t)].isDel ==>
              b < |st| && st[b].isDel && exists j: nat :: t <= j < e && Probe(h, |st|, j) == b
    ensures (forall i: nat :: i < e ==> !st[Probe(h, |st|, i)].isDel) ==> b == Probe(h, |st|, e)
  {
    hide Probe;
    var e': nat :| BelongsAt(st, h, b, e');
    assert e' == e;
    if LastTombstone(st, h, b, e) {
      var j: nat :| j < e && Probe(h, |st|, j) == b && st[b].isDel && NoTombstone(st, h, j + 1, e);
    }
  }

  /** Such a bucket is probed before any empty one. */
  lemma BelongsFindable(st: seq<Bucket>, h: Hash, b: nat)
    requires 1 < |st| <= MAX_BUCKETS && Belongs(st, h, b)
    ensures Findable(st, h, b)
  {
    hide Probe;
    var e: nat :| BelongsAt(st, h, b, e);
    if LastTombstone(st, h, b, e) {
      var j: nat :| j < e && Probe(h, |st|, j) == b && st[b].isDel && NoTombstone(st, h, j + 1, e);
      assert Path(st, h, j);
    }
  }

  /** Marking more buckets as used never hides an entry. */
  lemma FindableGrows(st: seq<Bucket>, st': seq<Bucket>, h: Hash, b: nat)
    requires 1 < |st| == |st'| <= MAX_BUCKETS && Findable(st, h, b)
    requires forall i :: 0 <= i < |st| && !st[i].isEmpty ==> !st'[i].isEmpty
    ensures Findable(st', h, b)
  {
    var j: nat :| j < |st| && Probe(h, |st|, j) == b && Path(st, h, j);
    assert Path(st', h, j);
  }

  ghost function InUse(st: seq<Bucket>): set<int> {
    set b | 0 <= b < |st| && !st[b].isEmpty
  }

  lemma InUseBound(st: seq<Bucket>)
    ensures |InUse(st)| <= |st|
    ensures (forall b :: 0 <= b < |st| ==> !st[b].isEmpty) ==> |InUse(st)| == |st|
  {
    var all := Below(|st|);
    SubsetSize(InUse(st), all);
    if forall b :: 0 <= b < |st| ==> !st[b].isEmpty {
      assert InUse(st) == all;
    }
  }

  lemma {:induction false} SubsetSize<T>(a: set<T>, b: set<T>)
    requires a <= b
    ensures |a| <= |b|
    ensures |a| == |b| ==> a == b
  {
    if x :| x in a {
      SubsetSize(a - {x}, b - {x});
    }
  }

  /** If not every bucket is in use, some probe within the first n meets an empty one. */
  lemma EmptyAhead(st: seq<Bucket>, h: Hash) returns (e: nat)
    requires GoodSize(|st|) && |InUse(st)| < |st|
    ensures e < |st| && st[Probe(h, |st|, e)].isEmpty
  {
    InUseBound(st);
    var b: nat :| b < |st| && st[b].isEmpty;
    e := ProbeCovers(h, |st|, b);
  }

  // ---- what a table represents ---------------------------------------------------------

  /** The contents of the arrays; pos is the bucket of each key. */
  datatype Table<K, V> = Table(st: seq<Bucket>, keys: seq<K>, vals: seq<V>, pos: map<K, nat>)

  ghost predicate Entry<K, V>(t: Table<K, V>, m: map<K, V>, k: K)
    requires |t.keys| == |t.vals| == |t.st|
  {
    k in m && k in t.pos && t.pos[k] < |t.st| && t.st[t.pos[k]].Live()
    && t.keys[t.pos[k]] == k && t.vals[t.pos[k]] == m[k]
  }

  /** Live buckets and keys of m correspond one to one, values agree, and every key is found
      by probing from its home bucket. */
  ghost predicate Represents<K(!new), V>(hash: K -> Hash, t: Table<K, V>, m: map<K, V>)
  {
    && GoodSize(|t.st|)
    && |t.keys| == |t.vals| == |t.st|
    && t.pos.Keys == m.Keys
    && (forall k :: k in m ==> Entry(t, m, k))
    && (forall b: nat :: b < |t.st| && t.st[b].Live() ==> t.keys[b] in m && t.pos[t.keys[b]] == b)
    && (forall k :: k in m ==> Findable(t.st, hash(k), t.pos[k]))
  }

  /** No probe before the j-th found the key in a live bucket. */
  ghost predicate Missed<K, V>(t: Table<K, V>, h: Hash, k: K, j: nat)
    requires 1 < |t.st| <= MAX_BUCKETS && |t.keys| == |t.st|
  {
    forall i: nat :: i < j && t.st[Probe(h, |t.st|, i)].Live() ==> t.keys[Probe(h, |t.st|, i)] != k
  }

  /** A search may stop at an empty bucket: the key is not in the table. */
  lemma AbsentIfEmpty<K(!new), V>(hash: K -> Hash, t: Table<K, V>, m: map<K, V>, k: K, j: nat)
    requires Represents(hash, t, m) && Path(t.st, hash(k), j) && t.st[Probe(hash(k), |t.st|, j)].isEmpty
    requires Missed(t, hash(k), k, j)
    ensures k !in m
  {
    if k in m {
      assert false;
    }
  }

  lemma SearchStarts<K, V>(t: Table<K, V>, h: Hash, k: K)
    requires 1 < |t.st| <= MAX_BUCKETS && |t.keys| == |t.st|
    ensures Path(t.st, h, 0) && Missed(t, h, k, 0) && Probe(h, |t.st|, 0) == Home(h, |t.st|)
  {
  }

  /** One turn of a search loop: the probe moves on, the path grows, and with an empty bucket
      ahead the search is not back home. */
  lemma SearchStep<K, V>(t: Table<K, V>, h: Hash, k: K, j: nat, e: nat)
    requires GoodSize(|t.st|) && |t.keys| == |t.st|
    requires Path(t.st, h, j) && Missed(t, h, k, j)
    requires j <= e < |t.st| && t.st[Probe(h, |t.st|, e)].isEmpty
    requires var b := Probe(h, |t.st|, j); !t.st[b].isEmpty && (t.st[b].isDel || t.keys[b] != k)
    ensures j < e && Path(t.st, h, j + 1) && Missed(t, h, k, j + 1)
    ensures Probe(h, |t.st|, j + 1) == Advance(Probe(h, |t.st|, j), Stride(h, |t.st|), |t.st|)
    ensures Probe(h, |t.st|, j + 1) != Home(h, |t.st|)
  {
    ProbeReturnsHome(h, |t.st|, j + 1);
  }

  /** What the bucket at which a search stops says about the key. */
  lemma SearchEnds<K(!new), V>(hash: K -> Hash, t: Table<K, V>, m: map<K, V>, k: K, j: nat, x: nat)
    requires Represents(hash, t, m) && Path(t.st, hash(k), j) && Missed(t, hash(k), k, j)
    requires x == Probe(hash(k), |t.st|, j)
    requires t.st[x].isEmpty || (t.st[x].Live() && t.keys[x] == k)
    ensures t.st[x].isEmpty ==> k !in m
    ensures !t.st[x].isEmpty ==> k in m && t.pos[k] == x && t.vals[x] == m[k]
  {
    if t.st[x].isEmpty {
      AbsentIfEmpty(hash, t, m, k, j);
    } else {
      assert Entry(t, m, t.keys[x]);
    }
  }

  lemma Shape<K(!new), V>(hash: K -> Hash, t: Table<K, V>, m: map<K, V>)
    requires Represents(hash, t, m)
    ensures GoodSize(|t.st|) && |t.keys| == |t.vals| == |t.st| && t.pos.Keys == m.Keys
  {
  }

  /** Storing a new key in an unused or deleted bucket that its probe path reaches. */
  lemma InsertRepresents<K(!new), V>(hash: K -> Hash, t: Table<K, V>, m: map<K, V>, k: K, v: V, x: nat)
    requires Represents(hash, t, m) && k !in m
    requires x < |t.st| && !t.st[x].Live() && Findable(t.st, hash(k), x)
    ensures Represents(hash, Table(t.st[x := LIVE], t.keys[x := k], t.vals[x := v], t.pos[k := x]), m[k := v])
  {
    var t', m' := Table(t.st[x := LIVE], t.keys[x := k], t.vals[x := v], t.pos[k := x]), m[k := v];
    forall k' | k' in m'
      ensures Entry(t', m', k') && Findable(t'.st, hash(k'), t'.pos[k'])
    {
      if k' != k {
        assert Entry(t, m, k');
        FindableGrows(t.st, t'.st, hash(k'), t.pos[k']);
      } else {
        FindableGrows(t.st, t'.st, hash(k), x);
      }
    }
  }

  /** Overwriting the value of a key that is present. */
  lemma UpdateRepresents<K(!new), V>(hash: K -> Hash, t: Table<K, V>, m: map<K, V>, k: K, v: V)
    requires Represents(hash, t, m) && k in m
    ensures Entry(t, m, k)
    ensures Represents(hash, t.(vals := t.vals[t.pos[k] := v]), m[k := v])
  {
    assert Entry(t, m, k);
    var t', m' := t.(vals := t.vals[t.pos[k] := v]), m[k := v];
    assert t'.pos.Keys == m'.Keys;
    forall k' | k' in m'
      ensures Entry(t', m', k')
    {
      assert Entry(t, m, k');
    }
  }

  /** Turning a live bucket into a tombstone removes its key and no other. */
  lemma DeleteRepresents<K(!new), V>(hash: K -> Hash, t: Table<K, V>, m: map<K, V>, x: nat)
    requires Represents(hash, t, m) && x < |t.st| && t.st[x].Live()
    ensures Represents(hash, Table(t.st[x := DELETED], t.keys, t.vals, t.pos - {t.keys[x]}), m - {t.keys[x]})
  {
    var t', m' := Table(t.st[x := DELETED], t.keys, t.vals, t.pos - {t.keys[x]}), m - {t.keys[x]};
    forall k | k in m'
      ensures Entry(t', m', k) && Findable(t'.st, hash(k), t'.pos[k])
    {
      assert Entry(t, m, k);
      FindableGrows(t.st, t'.st, hash(k), t.pos[k]);
    }
  }

  lemma EmptyRepresents<K(!new), V>(hash: K -> Hash, t: Table<K, V>)
    requires GoodSize(|t.st|) && |t.keys| == |t.vals| == |t.st| && t.pos == map[]
    requires forall b :: 0 <= b < |t.st| ==> t.st[b] == EMPTY
    ensures Represents(hash, t, map[])
    ensures InUse(t.st) == {}
  {
  }

  // ---- counting -------------------------------------------------------------------------

  ghost function LiveSet(st: seq<Bucket>): set<int> {
    set b | 0 <= b < |st| && st[b].Live()
  }

  ghost function Image<K>(keys: set<K>, pos: map<K, nat>): set<int>
    requires keys <= pos.Keys
  {
    set k | k in keys :: pos[k]
  }

  lemma {:induction false} ImageSize<K>(keys: set<K>, pos: map<K, nat>)
    requires keys <= pos.Keys
    requires forall k, k' :: k in keys && k' in keys && k != k' ==> pos[k] != pos[k']
    ensures |Image(keys, pos)| == |keys|
  {
    if k :| k in keys {
      ImageSize(keys - {k}, pos);
      assert Image(keys, pos) == Image(keys - {k}, pos) + {pos[k]};
    }
  }

  lemma LiveIsImage<K(!new), V>(hash: K -> Hash, t: Table<K, V>, m: map<K, V>)
    requires Represents(hash, t, m)
    ensures LiveSet(t.st) == Image(m.Keys, t.pos)
    ensures forall k, k' :: k in m && k' in m && k != k' ==> t.pos[k] != t.pos[k']
  {
    forall k | k in m
      ensures Entry(t, m, k)
    {
    }
    forall b | b in LiveSet(t.st)
      ensures b in Image(m.Keys, t.pos)
    {
      assert t.pos[t.keys[b]] == b;
    }
  }

  /** The map has as many keys as the table has live buckets, and fewer than it has buckets in
      use as soon as there is a tombstone. */
  lemma LiveCount<K(!new), V>(hash: K -> Hash, t: Table<K, V>, m: map<K, V>)
    requires Represents(hash, t, m)
    ensures |m| == |LiveSet(t.st)| <= |InUse(t.st)|
    ensures (exists b :: 0 <= b < |t.st| && !t.st[b].isEmpty && !t.st[b].Live()) ==> |m| < |InUse(t.st)|
  {
    var live, used := LiveSet(t.st), InUse(t.st);
    LiveIsImage(hash, t, m);
    ImageSize(m.Keys, t.pos);
    SubsetSize(live, used);
    if b :| 0 <= b < |t.st| && !t.st[b].isEmpty && !t.st[b].Live() {
      assert b in used && b !in live;
    }
  }

  lemma InUseAfter(st: seq<Bucket>, x: nat, b: Bucket)
    requires x < |st| && !b.isEmpty
    ensures |InUse(st[x := b])| == if st[x].isEmpty then |InUse(st)| + 1 else |InUse(st)|
  {
    var u := InUse(st);
    assert InUse(st[x := b]) == u + {x};
    if st[x].isEmpty {
      assert x !in u;
      assert |u + {x}| == |u| + 1;
    } else {
      assert u + {x} == u;
    }
  }

  // ---- iteration ----------------------------------------------------------------------------

  /** Every pair of m, once each. */
  ghost predicate Enumerates<K, V>(pairs: seq<(K, V)>, m: map<K, V>) {
    && (forall i :: 0 <= i < |pairs| ==> pairs[i].0 in m && m[pairs[i].0] == pairs[i].1)
    && (forall i, j :: 0 <= i < j < |pairs| ==> pairs[i].0 != pairs[j].0)
    && (forall k :: k in m ==> exists i :: 0 <= i < |pairs| && pairs[i] == (k, m[k]))
  }

  /** The loop has passed the first n buckets; order lists the live ones it saw. */
  ghost predicate Visited<K, V>(t: Table<K, V>, n: nat, order: seq<nat>, pairs: seq<(K, V)>)
  {
    && n <= |t.st| == |t.keys| == |t.vals| && |order| == |pairs|
    && (forall i :: 0 <= i < |order| ==>
          order[i] < n && t.st[order[i]].Live() && pairs[i] == (t.keys[order[i]], t.vals[order[i]]))
    && (forall i, j :: 0 <= i < j < |order| ==> order[i] < order[j])
    && (forall b: nat :: b < n && t.st[b].Live() ==> b in order)
  }

  lemma VisitStarts<K, V>(t: Table<K, V>)
    requires |t.st| == |t.keys| == |t.vals|
    ensures Visited(t, 0, [], [])
  {
  }

  lemma VisitStep<K, V>(t: Table<K, V>, n: nat, order: seq<nat>, pairs: seq<(K, V)>)
    requires n < |t.st| && Visited(t, n, order, pairs)
    ensures t.st[n].Live() ==> Visited(t, n + 1, order + [n], pairs + [(t.keys[n], t.vals[n])])
    ensures !t.st[n].Live() ==> Visited(t, n + 1, order, pairs)
  {
    var order', pairs' := order + [n], pairs + [(t.keys[n], t.vals[n])];
    assert order'[|order|] == n;
    forall b: nat | b in order
      ensures b in order'
    {
      var i :| 0 <= i < |order| && order[i] == b;
      assert order'[i] == b;
    }
  }

  lemma VisitedAll<K(!new), V>(hash: K -> Hash, t: Table<K, V>, m: map<K, V>, order: seq<nat>, pairs: seq<(K, V)>)
    requires Represents(hash, t, m) && Visited(t, |t.st|, order, pairs)
    ensures Enumerates(pairs, m)
    ensures forall i, j :: 0 <= i < j < |pairs| ==> t.pos[pairs[i].0] < t.pos[pairs[j].0]
  {
    hide Findable;
    forall i | 0 <= i < |pairs|
      ensures pairs[i].0 in m && m[pairs[i].0] == pairs[i].1 && t.pos[pairs[i].0] == order[i]
    {
      assert Entry(t, m, t.keys[order[i]]);
    }
    forall k | k in m
      ensures exists i :: 0 <= i < |pairs| && pairs[i] == (k, m[k])
    {
      assert Entry(t, m, k);
      var i :| 0 <= i < |order| && order[i] == t.pos[k];
      assert pairs[i] == (k, m[k]);
    }
  }
}
