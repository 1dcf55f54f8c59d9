/** The hash table object of khash.h. Its ghost field M is the finite map it stands for. */
module KMap {
  import opened Wrappers
  import opened Probing
  import opened PrimeTable
  import opened BucketFlags
  import opened HashTable
  import opened Rehash
  import opened Sizing
  import opened TableInvariant
  import opened KHash
  import opened RehashCost

  class Map<K(0,==,!new), V(0)> {
    const hash: K -> Hash
    var nBuckets: nat
    var size: nat
    var nOccupied: nat
    var upperBound: nat
    var flags: array<bv32>
    var keys: array<K>
    var vals: array<V>

    ghost var M: map<K, V>
    ghost var pos: map<K, nat>
    ghost var tier: nat
    /** How many old buckets all rehashes so far have scanned. */
    ghost var scanned: nat

    /** The arrays are separate and sized for n_buckets. A new table, whose arrays are null, is
        modelled with arrays of no buckets. */
    ghost predicate Owned()
      reads this, flags, keys, vals
    {
      && keys as object != vals as object && keys as object != flags && vals as object != flags
      && flags.Length == WordCount(nBuckets) && keys.Length == vals.Length == nBuckets
    }

    /** Each array is the one from before, or a new one. */
    twostate predicate OwnArrays()
      reads this
    {
      && (flags == old(flags) || fresh(flags))
      && (keys == old(keys) || fresh(keys))
      && (vals == old(vals) || fresh(vals))
    }

    ghost function View(): (t: Table<K, V>)
      requires Owned()
      reads this, flags, keys, vals
    {
      Table(Buckets(flags[..], nBuckets), keys[..], vals[..], pos)
    }

    ghost function Count(): Counters
      reads this
    {
      Counters(nBuckets, size, nOccupied, upperBound, tier)
    }

    ghost predicate Valid()
      reads this, flags, keys, vals
    {
      Owned() && Sound(hash, Count(), View(), M)
    }

    /** The counters. */
    function Loaded(): Load
      reads this
    {
      Load(nBuckets, size, nOccupied, upperBound)
    }

    constructor (hash: K -> Hash)
      ensures Valid() && fresh(flags) && fresh(keys) && fresh(vals) && M == map[] && this.hash == hash
      ensures scanned == 0 && Loaded() == Load(0, 0, 0, 0)
    {
      hide Sound, Buckets;
      this.hash := hash;
      nBuckets, size, nOccupied, upperBound := 0, 0, 0, 0;
      var f, ks, vs := new bv32[1], new K[0], new V[0];
      flags, keys, vals := f, ks, vs;
      M, pos, tier, scanned := map[], map[], 0, 0;
      new;
      NewSound<K, V>(hash);
      assert View() == Table([], [], [], map[]);
    }

    /** kh_clear. */
    method Clear()
      requires Valid()
      modifies this, flags, keys, vals
      ensures Valid() && OwnArrays()
      ensures M == map[] && scanned == old(scanned)
      ensures Loaded() == old(Loaded()).(size := 0, occupied := 0)
    {
      hide Sound, Buckets, Represents;
      ghost var c, t := Count(), View();
      TierPositive(hash, c, t, M);
      if nBuckets != 0 {
        ghost var cleared := Table(seq(nBuckets, i => EMPTY), keys[..], vals[..], map[]);
        ClearSound(hash, c, t, M, cleared);
        FillFlags(flags, nBuckets);
        size, nOccupied := 0, 0;
        M, pos := map[], map[];
        assert View() == cleared;
      }
    }

    /** kh_get: the bucket of the key, or n_buckets. The i == last exit is never taken. */
    method Get(key: K) returns (x: nat)
      requires Valid()
      ensures key in M ==> x < nBuckets && View().st[x].Live() && x < keys.Length && x < vals.Length
      ensures key in M ==> keys[x] == key && vals[x] == M[key]
      ensures key !in M ==> x == nBuckets
    {
      hide Buckets, EmptyAt, DelAt, EitherAt, Sound, Represents, Path, Probe;
      TierPositive(hash, Count(), View(), M);
      if nBuckets == 0 {
        return 0;
      }
      ghost var t := View();
      LoadInvariant(hash, Count(), t, M);
      var k := hash(key);
      var i := Home(k, nBuckets);
      var inc := Stride(k, nBuckets);
      var last, exhausted := i, false;
      ghost var j := 0;
      ghost var e := EmptyAhead(t.st, k);
      SearchStarts(t, k, key);
      while !EmptyAt(flags, nBuckets, i) && (DelAt(flags, nBuckets, i) || keys[i] != key)
        invariant j <= e && i == Probe(k, nBuckets, j) && !exhausted
        invariant Path(t.st, k, j) && Missed(t, k, key, j)
        decreases e - j
      {
        SearchStep(t, k, key, j, e);
        i := Advance(i, inc, nBuckets);
        j := j + 1;
        if i == last {
          exhausted := true;
          break;
        }
      }
      assert !exhausted;
      SearchEnds(hash, t, M, key, j, i);
      x := if exhausted || EitherAt(flags, nBuckets, i) then nBuckets else i;
    }

    /** The search of kh_put: the key's bucket, else the last tombstone passed, else the empty
        bucket reached. The i == last exit is never taken. */
    method FindSlot(key: K) returns (x: nat)
      requires Valid() && nBuckets > 0
      ensures x < nBuckets
      ensures key in M ==> View().st[x].Live() && key in pos && pos[key] == x
      ensures 1 < |View().st| <= MAX_BUCKETS
      ensures key !in M ==> !View().st[x].Live() && Belongs(View().st, hash(key), x)
    {
      hide Buckets, EmptyAt, DelAt, EitherAt, Sound, Represents, Path, Probe, Belongs, Passed;
      ghost var t := View();
      LoadInvariant(hash, Count(), t, M);
      var site: nat := nBuckets;
      x := nBuckets;
      var k := hash(key);
      var i := Home(k, nBuckets);
      ghost var j := 0;
      ghost var e := EmptyAhead(t.st, k);
      SearchStarts(t, k, key);
      PassedNothing(t.st, k);
      if EmptyAt(flags, nBuckets, i) {
        x := i;
      } else {
        var inc := Stride(k, nBuckets);
        var last := i;
        while !EmptyAt(flags, nBuckets, i) && (DelAt(flags, nBuckets, i) || keys[i] != key)
          invariant j <= e && i == Probe(k, nBuckets, j) && x == nBuckets
          invariant Path(t.st, k, j) && Missed(t, k, key, j)
          invariant Passed(t.st, k, site, j) && (site == nBuckets || (site < nBuckets && t.st[site].isDel))
          decreases e - j
        {
          PassedStep(t.st, k, site, j);
          if DelAt(flags, nBuckets, i) {
            site := i;
          }
          SearchStep(t, k, key, j, e);
          i := Advance(i, inc, nBuckets);
          j := j + 1;
          if i == last {
            x := site;
            break;
          }
        }
        if x == nBuckets {
          if EmptyAt(flags, nBuckets, i) && site != nBuckets {
            x := site;
          } else {
            x := i;
          }
        }
      }
      SearchEnds(hash, t, M, key, j, i);
      if t.st[i].isEmpty {
        PassedBelongs(t.st, k, site, j);
      }
    }

    /** kh_resize. Unless the load test refuses the size asked for, the table is rebuilt in place
        with the least size above the request: same map, no tombstones. */
    method Resize(want: nat) returns (ghost t: nat)
      requires Valid() && want < Size(LARGEST)
      modifies this, flags, keys, vals
      ensures Valid() && OwnArrays()
      ensures M == old(M) && size == old(size)
      ensures 1 <= t <= LARGEST && Size(t - 1) <= want < Size(t)
      ensures size < UpperBound(Size(t)) ==> Rebuilt(t) && scanned == old(scanned + nBuckets)
      ensures size >= UpperBound(Size(t)) ==> View() == old(View()) && Count() == old(Count()) && scanned == old(scanned)
    {
      hide Buckets, Sound;
      var newN;
      SizeAtMost(LARGEST, 31);
      newN, t := NextSize(want);
      TierIsModelled(t, want);
      if size < UpperBound(newN) {
        Rebuild(newN, t);
      }
    }

    /** The state after a rehash: no tombstones, n_occupied is the number of entries. */
    ghost predicate Rebuilt(t: nat)
      requires Owned() && t < 32
      reads this, flags, keys, vals
    {
      && nBuckets == Size(t) && tier == t && nOccupied == size
      && forall b :: 0 <= b < |View().st| ==> View().st[b].isEmpty || View().st[b].Live()
    }

    method Rebuild(newN: nat, ghost t: nat)
      requires Valid() && 1 <= t <= LARGEST && newN == Size(t) && size < UpperBound(newN)
      modifies this, flags, keys, vals
      ensures Valid() && OwnArrays()
      ensures M == old(M) && size == old(size)
      ensures Rebuilt(t) && scanned == old(scanned + nBuckets)
    {
      hide Buckets, Sound, InFlight, Represents, Findable;
      SizeEqualsCard(hash, Count(), View(), M);
      var newFlags := NewFlags(newN);
      var ks, vs := Widen(keys, vals, nBuckets, newN);
      ghost var r := Move(View().st, Buckets(newFlags[..], newN), ks[..], vs[..], pos, None);
      StartSound(hash, Count(), View(), M, r, t);
      ghost var turns;
      r, turns := MoveEntries(hash, nBuckets, newN, flags, newFlags, ks, vs, M, r);
      FinishSound(hash, M, r, t);
      ks, vs := Shrink(ks, vs, nBuckets, newN);
      Install(newN, newFlags, ks, vs, t, Settled(r), turns);
    }

    /** The last assignments of kh_resize. */
    method Install(newN: nat, newFlags: array<bv32>, ks: array<K>, vs: array<V>, ghost t: nat, ghost tab: Table<K, V>,
                   ghost turns: nat)
      requires newN == ks.Length == vs.Length && newFlags.Length == WordCount(newN)
      requires tab == Table(Buckets(newFlags[..], newN), ks[..], vs[..], tab.pos)
      requires ks as object != vs as object && ks as object != newFlags && vs as object != newFlags
      modifies this`keys, this`vals, this`flags, this`nBuckets, this`nOccupied, this`upperBound
      modifies this`tier, this`pos, this`scanned
      ensures flags == newFlags && keys == ks && vals == vs
      ensures Owned() && View() == tab && Count() == Counters(newN, size, size, UpperBound(newN), t)
      ensures scanned == old(scanned) + turns
    {
      hide Buckets, UpperBound;
      scanned := scanned + turns;
      keys, vals, flags := ks, vs, newFlags;
      nBuckets := newN;
      nOccupied := size;
      upperBound := UpperBound(newN);
      tier, pos := t, tab.pos;
    }

    /** Putting a new key does not outgrow the modelled sizes. */
    ghost predicate HasRoom()
      reads this
    {
      nOccupied < upperBound || nBuckets > 2 * size || nBuckets < Size(LARGEST)
    }

    /** The first statement of kh_put. The rehash it asks for really happens, and afterwards the
        table is below its load limit. */
    method MakeRoom()
      requires Valid() && HasRoom()
      modifies this, flags, keys, vals
      ensures Valid() && OwnArrays() && M == old(M)
      ensures nBuckets > 0 && nOccupied < upperBound
      ensures RoomStep(old(Loaded()), Loaded())
      ensures scanned == old(scanned) + if old(nOccupied >= upperBound) then old(nBuckets) else 0
      ensures old(nOccupied >= upperBound) ==>
                forall b :: 0 <= b < |View().st| ==> View().st[b].isEmpty || View().st[b].Live()
      ensures old(nOccupied < upperBound) ==> View() == old(View())
    {
      hide Sound, Buckets, Size, UpperBound;
      Bounds(hash, Count(), View(), M);
      if nOccupied >= upperBound {
        PutRequestFits(tier, size);
        ghost var c := Count();
        ghost var t;
        if nBuckets > size * 2 {
          t := Resize(nBuckets - 1);
        } else {
          t := Resize(nBuckets + 1);
        }
        PutRequestPasses(c.tier, c.size, t);
        RequestedTier(c.tier, PutRequest(c.n, c.size), t);
        Bounds(hash, Count(), View(), M);
      }
    }

    /** kh_put: the key's bucket, new or old. A new key gets whatever value its bucket held. The
        return code tells a key that was there, an empty bucket and a tombstone apart; after a
        rehash there is no tombstone. */
    method Put(key: K) returns (x: nat, ret: int)
      requires Valid() && HasRoom()
      modifies this, flags, keys, vals
      ensures Valid() && OwnArrays()
      ensures x < nBuckets && key in pos && pos[key] == x
      ensures M == if key in old(M) then old(M) else old(M)[key := vals[x]]
      ensures old(nOccupied < upperBound) ==> x < |old(View()).st|
      ensures ret == if key in old(M) then 0
                     else if old(nOccupied >= upperBound) || old(View()).st[x].isEmpty then 1 else 2
      ensures PutStep(old(Loaded()), Loaded(), ret)
      ensures scanned == old(scanned) + if old(nOccupied >= upperBound) then old(nBuckets) else 0
    {
      hide Sound, Buckets, Findable, Belongs;
      MakeRoom();
      x := FindSlot(key);
      if key !in M {
        BelongsFindable(View().st, hash(key), x);
      }
      ret := Store(key, x);
      Bounds(hash, Count(), View(), M);
    }

    /** The last part of kh_put: what is done at the bucket found. */
    method Store(key: K, x: nat) returns (ret: int)
      requires Valid() && nBuckets > 0 && nOccupied < upperBound && x < nBuckets
      requires key in M ==> View().st[x].Live() && key in pos && pos[key] == x
      requires key !in M ==> !View().st[x].Live() && 1 < |View().st| <= MAX_BUCKETS && Findable(View().st, hash(key), x)
      modifies this`size, this`nOccupied, this`M, this`pos, flags, keys
      ensures Valid() && key in pos && pos[key] == x && Loaded() == Stored(old(Loaded()), ret)
      ensures M == if key in old(M) then old(M) else old(M)[key := vals[x]]
      ensures ret == if key in old(M) then 0 else if old(View().st[x].isEmpty) then 1 else 2
    {
      hide Sound, Buckets, EmptyAt, DelAt, Findable;
      LoadInvariant(hash, Count(), View(), M);
      if EmptyAt(flags, nBuckets, x) {
        Occupy(key, x);
        nOccupied := nOccupied + 1;
        ret := 1;
      } else if DelAt(flags, nBuckets, x) {
        Occupy(key, x);
        ret := 2;
      } else {
        ret := 0;
      }
    }

    /** The statements the two branches of kh_put share. */
    method Occupy(key: K, x: nat)
      requires Valid() && nBuckets > 0 && nOccupied < upperBound && key !in M && x < nBuckets
      requires !View().st[x].Live() && 1 < |View().st| <= MAX_BUCKETS && Findable(View().st, hash(key), x)
      modifies this`size, this`M, this`pos, flags, keys
      ensures Owned() && key in pos && pos[key] == x && size == old(size) + 1
      ensures M == old(M)[key := vals[x]]
      ensures Sound(hash, Count().(occupied := if old(View().st[x].isEmpty) then nOccupied + 1 else nOccupied), View(), M)
    {
      hide Sound, Buckets, Findable, Size, UpperBound, Represents;
      InsertSound(hash, Count(), View(), M, key, x);
      keys[x] := key;
      MarkLive(flags, nBuckets, x);
      size := size + 1;
      M := M[key := vals[x]];
      pos := pos[key := x];
      assert View() == old(Table(View().st[x := LIVE], View().keys[x := key], View().vals, View().pos[key := x]));
    }

    /** kh_del. */
    method Del(x: nat)
      requires Valid() && x <= nBuckets
      modifies this, flags
      ensures Valid() && flags == old(flags) && keys == old(keys) && vals == old(vals)
      ensures M == if x < nBuckets && old(View().st[x].Live()) then old(M) - {keys[x]} else old(M)
      ensures Loaded() == old(Loaded()).(size := |M|) && scanned == old(scanned)
    {
      hide Sound, Buckets, EitherAt;
      if x != nBuckets && !EitherAt(flags, nBuckets, x) {
        DeleteSound(hash, Count(), View(), M, x);
        MarkDeleted(flags, nBuckets, x);
        size := size - 1;
        M, pos := M - {keys[x]}, pos - {keys[x]};
        assert View() == old(Table(View().st[x := DELETED], View().keys, View().vals, View().pos - {View().keys[x]}));
      }
      SizeEqualsCard(hash, Count(), View(), M);
    }

    // ---- hash.c ---------------------------------------------------------------------------

    /** hash_set. */
    method SetKey(key: K, val: V)
      requires Valid() && HasRoom()
      modifies this, flags, keys, vals
      ensures Valid() && OwnArrays()
      ensures M == old(M)[key := val]
      ensures PutStep(old(Loaded()), Loaded(), 0) || PutStep(old(Loaded()), Loaded(), 1)
              || PutStep(old(Loaded()), Loaded(), 2)
      ensures scanned == old(scanned) + if old(nOccupied >= upperBound) then old(nBuckets) else 0
    {
      hide Sound, Buckets, Size, PutStep;
      var x, ret := Put(key);
      UpdateSound(hash, Count(), View(), M, key, val);
      ghost var t := View();
      vals[x] := val;
      M := M[key := val];
      assert View() == t.(vals := t.vals[x := val]);
    }

    /** hash_get: the value, or null. */
    method GetKey(key: K, null_: V) returns (val: V)
      requires Valid()
      ensures val == if key in M then M[key] else null_
    {
      var x := Get(key);
      val := if x == nBuckets then null_ else vals[x];
    }

    /** hash_has. */
    method HasKey(key: K) returns (found: bool)
      requires Valid()
      ensures found <==> key in M
    {
      var x := Get(key);
      found := x != nBuckets;
    }

    /** hash_del. */
    method DelKey(key: K)
      requires Valid()
      modifies this, flags
      ensures Valid() && flags == old(flags) && keys == old(keys) && vals == old(vals)
      ensures M == old(M) - {key}
      ensures Loaded() == old(Loaded()).(size := |M|) && scanned == old(scanned)
    {
      hide Sound, Buckets;
      var x := Get(key);
      Del(x);
    }

    /** hash_size. */
    method SizeOf() returns (n: nat)
      requires Valid()
      ensures n == |M|
    {
      hide Sound;
      SizeEqualsCard(hash, Count(), View(), M);
      n := size;
    }

    /** hash_each, collecting what its block sees: bucket order, every pair once. */
    method Each() returns (pairs: seq<(K, V)>)
      requires Valid()
      ensures Enumerates(pairs, M)
      ensures forall i, j :: 0 <= i < j < |pairs| ==>
                pairs[i].0 in pos && pairs[j].0 in pos && pos[pairs[i].0] < pos[pairs[j].0]
    {
      hide Sound, Buckets, EitherAt, Visited, Enumerates;
      pairs := [];
      ghost var t := View();
      ghost var order: seq<nat> := [];
      VisitStarts(t);
      for k := 0 to nBuckets
        invariant Visited(t, k, order, pairs)
      {
        VisitStep(t, k, order, pairs);
        if !EitherAt(flags, nBuckets, k) {
          pairs := pairs + [(keys[k], vals[k])];
          order := order + [k];
        }
      }
      EachSound(hash, Count(), t, M, order, pairs);
    }
  }
}
