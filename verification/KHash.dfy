/** khash.h: the loops of the in-place rehash, on the arrays of the table. */
module KHash {
  import opened Wrappers
  import opened Probing
  import opened BucketFlags
  import opened HashTable
  import opened Rehash

  // ---- the loops of kh_resize, on arrays ------------------------------------------------

  /** realloc: the common prefix survives. */
  method Realloc<T(0)>(a: array<T>, n: nat) returns (b: array<T>)
    ensures fresh(b) && b.Length == n
    ensures forall i :: 0 <= i < n && i < a.Length ==> b[i] == a[i]
  {
    b := new T[n];
    var len := if a.Length < n then a.Length else n;
    for i := 0 to len
      invariant forall t :: 0 <= t < i ==> b[t] == a[t]
    {
      b[i] := a[i];
    }
  }

  /** The two realloc calls before the move: only a larger table needs larger arrays now, */
  method Widen<K(0), V(0)>(keys: array<K>, vals: array<V>, n0: nat, n1: nat) returns (ks: array<K>, vs: array<V>)
    requires keys.Length == vals.Length == n0 && keys as object != vals as object
    ensures ks.Length == vs.Length == if n0 < n1 then n1 else n0
    ensures ks as object != vs as object
    ensures (ks == keys && vs == vals) || (fresh(ks) && fresh(vs))
    ensures ks[..n0] == keys[..] && vs[..n0] == vals[..]
  {
    ks, vs := keys, vals;
    if n0 < n1 {
      ks := Realloc(keys, n1);
      vs := Realloc(vals, n1);
    }
    assert ks[..n0] == keys[..] && vs[..n0] == vals[..];
  }

  /** and the two after it: a smaller table gives space back. */
  method Shrink<K(0), V(0)>(keys: array<K>, vals: array<V>, n0: nat, n1: nat) returns (ks: array<K>, vs: array<V>)
    requires keys.Length == vals.Length == (if n0 < n1 then n1 else n0) && keys as object != vals as object
    ensures ks.Length == vs.Length == n1
    ensures ks as object != vs as object
    ensures (ks == keys && vs == vals) || (fresh(ks) && fresh(vs))
    ensures ks[..] == keys[..n1] && vs[..] == vals[..n1]
  {
    ks, vs := keys, vals;
    if n0 > n1 {
      ks := Realloc(keys, n1);
      vs := Realloc(vals, n1);
    }
    assert ks[..] == keys[..n1] && vs[..] == vals[..n1];
  }

  /** The innermost search: it has no exit but an empty bucket, so it needs one ahead. */
  method FindFree(flags: array<bv32>, n: nat, h: Hash, ghost e: nat) returns (i: nat)
    requires GoodSize(n) && WordCount(n) <= flags.Length
    requires e < n && Buckets(flags[..], n)[Probe(h, n, e)].isEmpty
    ensures i < n && Buckets(flags[..], n)[i].isEmpty && Findable(Buckets(flags[..], n), h, i)
  {
    hide Buckets, EmptyAt, Findable;
    i := Home(h, n);
    var inc := Stride(h, n);
    ghost var st := Buckets(flags[..], n);
    ghost var j := 0;
    while !EmptyAt(flags, n, i)
      invariant j <= e && i == Probe(h, n, j) && Path(st, h, j)
      decreases e - j
    {
      i := Advance(i, inc, n);
      j := j + 1;
    }
    FindableAt(st, h, j);
  }

  lemma FindableAt(st: seq<Bucket>, h: Hash, j: nat)
    requires 1 < |st| <= MAX_BUCKETS && j < |st| && Path(st, h, j)
    ensures Findable(st, h, Probe(h, |st|, j))
  {
  }

  ghost predicate Apart<K, V>(flags: array<bv32>, newFlags: array<bv32>, keys: array<K>, vals: array<V>) {
    && flags != newFlags
    && keys as object != vals as object
    && keys as object != flags && keys as object != newFlags
    && vals as object != flags && vals as object != newFlags
  }

  /** The arrays hold what the step r of the rehash says. */
  ghost predicate Holding<K, V>(flags: array<bv32>, newFlags: array<bv32>, keys: array<K>, vals: array<V>, r: Move<K, V>)
    requires WordCount(|r.from|) <= flags.Length && WordCount(|r.into|) <= newFlags.Length
    reads flags, newFlags, keys, vals
  {
    && Buckets(flags[..], |r.from|) == r.from
    && Buckets(newFlags[..], |r.into|) == r.into
    && keys[..] == r.keys
    && vals[..] == r.vals
  }

  /** The displacement loop: puts the entry (k0, v0), taken out of the table, in its new
      place; whatever has not moved yet and is in the way goes next. */
  method Displace<K(==,!new), V>(hash: K -> Hash, n0: nat, n1: nat, flags: array<bv32>, newFlags: array<bv32>,
                                 keys: array<K>, vals: array<V>, k0: K, v0: V,
                                 ghost m: map<K, V>, ghost r0: Move<K, V>) returns (ghost r: Move<K, V>)
    requires Apart(flags, newFlags, keys, vals)
    requires n0 == |r0.from| && n1 == |r0.into| && WordCount(n0) <= flags.Length && WordCount(n1) <= newFlags.Length
    requires Holding(flags, newFlags, keys, vals, r0)
    requires InFlight(hash, m, r0) && r0.hand == Some(k0) && k0 in m && v0 == m[k0]
    modifies flags, newFlags, keys, vals
    ensures |r.from| == n0 && |r.into| == n1 && Holding(flags, newFlags, keys, vals, r)
    ensures InFlight(hash, m, r) && r.hand == None
    ensures forall b :: r.Pending(b) ==> r0.Pending(b)
  {
    hide Buckets, Findable, EmptyAt, EitherAt, InFlight;
    Basics(hash, m, r0);
    var key, val := k0, v0;
    r := r0;
    while true
      invariant n0 == |r.from| && n1 == |r.into|
      invariant Holding(flags, newFlags, keys, vals, r)
      invariant InFlight(hash, m, r) && r.Shaped() && r.hand == Some(key) && key in m && val == m[key]
      invariant forall b :: r.Pending(b) ==> r0.Pending(b)
      decreases LiveSet(r.from)
    {
      Basics(hash, m, r);
      ghost var e := FreeBucket(hash, m, r, hash(key));
      var i := FindFree(newFlags, n1, hash(key), e);
      MarkNotEmpty(newFlags, n1, i);
      if i < n0 && !EitherAt(flags, n0, i) {
        Evict(hash, m, r, i, key);
        SwapShrinks(r, i, key, val);
        ghost var next := Swap(r, i, key, val);
        var tmpKey, tmpVal := keys[i], vals[i];
        keys[i], vals[i] := key, val;
        key, val := tmpKey, tmpVal;
        MarkDeleted(flags, n0, i);
        r := next;
      } else {
        Place(hash, m, r, i, key);
        keys[i], vals[i] := key, val;
        r := Put(r, i, key, val);
        break;
      }
    }
  }

  lemma Basics<K(!new), V>(hash: K -> Hash, m: map<K, V>, r: Move<K, V>)
    requires InFlight(hash, m, r)
    ensures r.Shaped()
    ensures forall b: nat :: r.Pending(b) ==> r.Holds(m, b)
    ensures forall b: nat :: b < |r.into| ==> !r.into[b].isDel
  {
  }

  lemma SwapShrinks<K, V>(r: Move<K, V>, i: nat, key: K, val: V)
    requires r.Shaped() && i < |r.into| && r.Pending(i)
    ensures LiveSet(Swap(r, i, key, val).from) < LiveSet(r.from)
    ensures forall b :: Swap(r, i, key, val).Pending(b) ==> r.Pending(b)
  {
    assert i in LiveSet(r.from) && i !in LiveSet(Swap(r, i, key, val).from);
  }

  /** The outer loop of the rehash, and how many buckets it scans: every old one, once. */
  method MoveEntries<K(==,!new), V>(hash: K -> Hash, n0: nat, n1: nat, flags: array<bv32>, newFlags: array<bv32>,
                                    keys: array<K>, vals: array<V>,
                                    ghost m: map<K, V>, ghost r0: Move<K, V>)
    returns (ghost r: Move<K, V>, ghost turns: nat)
    requires Apart(flags, newFlags, keys, vals)
    requires n0 == |r0.from| && n1 == |r0.into| && WordCount(n0) <= flags.Length && WordCount(n1) <= newFlags.Length
    requires Holding(flags, newFlags, keys, vals, r0)
    requires InFlight(hash, m, r0) && r0.hand == None
    modifies flags, newFlags, keys, vals
    ensures |r.from| == n0 && |r.into| == n1 && Holding(flags, newFlags, keys, vals, r)
    ensures InFlight(hash, m, r) && r.hand == None && forall b :: !r.Pending(b)
    ensures turns == n0
  {
    hide Buckets, Findable, EmptyAt, EitherAt, InFlight;
    Basics(hash, m, r0);
    r, turns := r0, 0;
    var j := 0;
    while j != n0
      invariant turns == j <= n0 == |r.from| && n1 == |r.into|
      invariant Holding(flags, newFlags, keys, vals, r)
      invariant InFlight(hash, m, r) && r.Shaped() && r.hand == None
      invariant forall b :: 0 <= b < j ==> !r.Pending(b)
    {
      if !EitherAt(flags, n0, j) {
        PickUp(hash, m, r, j);
        var key, val := keys[j], vals[j];
        MarkDeleted(flags, n0, j);
        ghost var taken := Take(r, j);
        r := Displace(hash, n0, n1, flags, newFlags, keys, vals, key, val, m, taken);
        Basics(hash, m, r);
      }
      j := j + 1;
      turns := turns + 1;
    }
  }
}
