/** Whole runs of the hash table: any sequence of operations from a new table, with any hash
    function, is answered as a finite map answers it, at a bounded rehashing cost. */
module HashRun {
  import opened Probing
  import opened PrimeTable
  import opened HashTable
  import opened Sizing
  import opened TableInvariant
  import opened RehashCost
  import opened KMap

  datatype Op<K, V> = Set(key: K, val: V) | Get(key: K) | Has(key: K) | Del(key: K) | Clear | Size | Each

  datatype Answer<K, V> = Done | Value(val: V) | Found(found: bool) | Count(n: nat) | Pairs(pairs: seq<(K, V)>)

  function Effect<K, V>(m: map<K, V>, op: Op<K, V>): map<K, V> {
    match op
    case Set(k, v) => m[k := v]
    case Del(k) => m - {k}
    case Clear => map[]
    case _ => m
  }

  function MapAfter<K, V>(ops: seq<Op<K, V>>): map<K, V> {
    if ops == [] then map[] else Effect(MapAfter(ops[..|ops| - 1]), ops[|ops| - 1])
  }

  /** Operation i is the last that touches key k, and it sets it. */
  ghost predicate LastSet<K, V>(ops: seq<Op<K, V>>, i: nat, k: K) {
    && i < |ops| && ops[i].Set? && ops[i].key == k
    && forall j :: i < j < |ops| ==> !ops[j].Clear? && (ops[j].Set? || ops[j].Del? ==> ops[j].key != k)
  }

  /** What a run leaves in the map: a key that was set and neither deleted nor cleared afterwards,
      with the value of its last set. */
  lemma {:induction false} MapAfterIs<K, V>(ops: seq<Op<K, V>>, k: K)
    ensures k in MapAfter(ops) <==> exists i: nat :: LastSet(ops, i, k)
    ensures forall i: nat :: LastSet(ops, i, k) ==> k in MapAfter(ops) && MapAfter(ops)[k] == ops[i].val
  {
    if ops != [] {
      var n := |ops| - 1;
      MapAfterIs(ops[..n], k);
      forall i: nat | i < n
        ensures LastSet(ops, i, k) <==> LastSet(ops[..n], i, k) && !ops[n].Clear?
                                        && (ops[n].Set? || ops[n].Del? ==> ops[n].key != k)
      {
        assert forall j :: 0 <= j < n ==> ops[..n][j] == ops[j];
      }
      assert LastSet(ops, n, k) <==> ops[n].Set? && ops[n].key == k;
    }
  }

  function Sets<K, V>(ops: seq<Op<K, V>>): nat {
    if ops == [] then 0 else Sets(ops[..|ops| - 1]) + if ops[|ops| - 1].Set? then 1 else 0
  }

  /** The answer of a finite map m; null stands for the C null pointer. */
  ghost predicate Correct<K, V>(m: map<K, V>, op: Op<K, V>, nil: V, a: Answer<K, V>) {
    match op
    case Get(k) => a == Value(if k in m then m[k] else nil)
    case Has(k) => a == Found(k in m)
    case Size => a == Count(|m|)
    case Each => a.Pairs? && Enumerates(a.pairs, m)
    case _ => a == Done
  }

  /** With fewer live keys than this, a put never asks for the two sizes outside the model. */
  const MAX_KEYS: nat := 805306371

  lemma FewKeysHaveRoom(tier: nat, size: nat)
    requires tier <= LARGEST && size < MAX_KEYS
    ensures PrimeTable.Size(tier) > 2 * size || PrimeTable.Size(tier) < PrimeTable.Size(LARGEST)
  {
    SizeAtMost(tier, LARGEST);
  }

  lemma EffectSize<K, V>(m: map<K, V>, op: Op<K, V>)
    ensures |Effect(m, op)| <= |m| + if op.Set? then 1 else 0
  {
    match op
    case Set(k, v) =>
      assert m[k := v].Keys == m.Keys + {k};
      assert |m[k := v]| == |m.Keys + {k}|;
    case Del(k) =>
      assert (m - {k}).Keys == m.Keys - {k};
      assert |m - {k}| == |m.Keys - {k}|;
    case _ =>
  }

  lemma SetsMonotone<K, V>(ops: seq<Op<K, V>>, i: nat)
    requires i < |ops|
    ensures Sets(ops[..i + 1]) == Sets(ops[..i]) + (if ops[i].Set? then 1 else 0) <= Sets(ops)
    ensures MapAfter(ops[..i + 1]) == Effect(MapAfter(ops[..i]), ops[i])
    decreases |ops| - i
  {
    assert ops[..i + 1][..i] == ops[..i];
    if i + 1 < |ops| {
      SetsMonotone(ops, i + 1);
    } else {
      assert ops[..i + 1] == ops;
    }
  }

  // ---- the counters over a run --------------------------------------------------------------

  /** How an operation moves the counters: a set as a put with one of its return codes, a delete
      by removing one entry or none, a clear by dropping all; the others leave them alone. */
  ghost predicate OpStep<K, V>(op: Op<K, V>, c: Load, c': Load) {
    match op
    case Set(_, _) => PutStep(c, c', 0) || PutStep(c, c', 1) || PutStep(c, c', 2)
    case Del(_) => c' == c || (c.size > 0 && c' == c.(size := c.size - 1))
    case Clear => c' == c.(size := 0, occupied := 0)
    case _ => c' == c
  }

  /** The old buckets an operation scans in a rehash. */
  function Cost<K, V>(op: Op<K, V>, c: Load): nat {
    if op.Set? then PutCost(c) else 0
  }

  /** The counters before each operation and after the last. */
  ghost predicate Traced<K, V>(ops: seq<Op<K, V>>, loads: seq<Load>) {
    && |loads| == |ops| + 1 && loads[0] == Load(0, 0, 0, 0)
    && forall i :: 0 <= i < |ops| ==> OpStep(ops[i], loads[i], loads[i + 1])
  }

  function TotalCost<K, V>(ops: seq<Op<K, V>>, loads: seq<Load>): nat
    requires |loads| == |ops| + 1
  {
    if ops == [] then 0 else
    var n := |ops| - 1;
    TotalCost(ops[..n], loads[..n + 1]) + Cost(ops[n], loads[n])
  }

  lemma StepPaid<K, V>(op: Op<K, V>, c: Load, c': Load, scanned: nat, sets: nat)
    requires InBounds(c) && Paid(c, scanned, sets) && OpStep(op, c, c')
    ensures InBounds(c') && Paid(c', scanned + Cost(op, c), sets + if op.Set? then 1 else 0)
  {
    hide InBounds, Paid, PutStep, PutCost;
    if op.Set? {
      var ret := if PutStep(c, c', 0) then 0 else if PutStep(c, c', 1) then 1 else 2;
      PutPaid(c, c', ret, scanned, sets);
    } else {
      Within(c);
      LessPaid(c, c', scanned, sets);
    }
  }

  lemma Within(c: Load)
    requires InBounds(c)
    ensures c.size <= c.occupied <= c.limit
  {
  }

  /** Along any trace of the counters from a new table, whatever the operations and their return
      codes, the rehashes scan at most four old buckets for each set. */
  lemma {:induction false} CostBound<K, V>(ops: seq<Op<K, V>>, loads: seq<Load>)
    requires Traced(ops, loads)
    ensures TotalCost(ops, loads) <= 4 * Sets(ops)
    ensures InBounds(loads[|ops|]) && Paid(loads[|ops|], TotalCost(ops, loads), Sets(ops))
  {
    hide PutStep, OpStep, Cost;
    if ops == [] {
      assert loads[0].buckets == PrimeTable.Size(0);
    } else {
      var n := |ops| - 1;
      CostBound(ops[..n], loads[..n + 1]);
      StepPaid(ops[n], loads[n], loads[n + 1], TotalCost(ops[..n], loads[..n + 1]), Sets(ops[..n]));
    }
  }

  // ---- runs ---------------------------------------------------------------------------------

  method Step<K(0,==,!new), V(0)>(h: Map<K, V>, op: Op<K, V>, nil: V) returns (a: Answer<K, V>)
    requires h.Valid() && |h.M| < MAX_KEYS
    modifies h, h.flags, h.keys, h.vals
    ensures h.Valid() && h.OwnArrays()
    ensures h.M == Effect(old(h.M), op) && Correct(old(h.M), op, nil, a)
    ensures op.Set? ==> h.M == old(h.M)[op.key := op.val]
    ensures op.Del? ==> h.M == old(h.M) - {op.key}
    ensures op.Clear? ==> h.M == map[]
    ensures op.Get? || op.Has? || op.Size? || op.Each? ==> h.M == old(h.M)
    ensures op.Get? ==> a == Value(if op.key in old(h.M) then old(h.M)[op.key] else nil)
    ensures op.Has? ==> a == Found(op.key in old(h.M))
    ensures op.Size? ==> a == Answer.Count(|old(h.M)|)
    ensures op.Each? ==> a.Pairs? && Enumerates(a.pairs, old(h.M))
    ensures OpStep(op, old(h.Loaded()), h.Loaded())
    ensures h.scanned == old(h.scanned)
                         + if op.Set? && old(h.nOccupied >= h.upperBound) then old(h.nBuckets) else 0
  {
    hide Sound, PutStep;
    SizeEqualsCard(h.hash, h.Count(), h.View(), h.M);
    match op {
      case Set(k, v) =>
        Bounds(h.hash, h.Count(), h.View(), h.M);
        FewKeysHaveRoom(h.tier, h.size);
        h.SetKey(k, v);
        a := Done;
      case Get(k) =>
        var v := h.GetKey(k, nil);
        a := Value(v);
      case Has(k) =>
        var found := h.HasKey(k);
        a := Found(found);
      case Del(k) =>
        h.DelKey(k);
        a := Done;
      case Clear =>
        h.Clear();
        a := Done;
      case Size =>
        var n := h.SizeOf();
        a := Count(n);
      case Each =>
        var pairs := h.Each();
        a := Pairs(pairs);
    }
  }

  /** The answers so far are those of the finite map after the operations before each. */
  ghost predicate Answered<K, V>(ops: seq<Op<K, V>>, nil: V, answers: seq<Answer<K, V>>) {
    |answers| <= |ops| && forall i :: 0 <= i < |answers| ==> Correct(MapAfter(ops[..i]), ops[i], nil, answers[i])
  }

  lemma AnsweredStep<K, V>(ops: seq<Op<K, V>>, nil: V, answers: seq<Answer<K, V>>, a: Answer<K, V>)
    requires Answered(ops, nil, answers) && |answers| < |ops|
    requires Correct(MapAfter(ops[..|answers|]), ops[|answers|], nil, a)
    ensures Answered(ops, nil, answers + [a])
  {
    hide Correct;
  }

  lemma TracedStep<K, V>(ops: seq<Op<K, V>>, loads: seq<Load>, op: Op<K, V>, c: Load)
    requires Traced(ops, loads) && OpStep(op, loads[|ops|], c)
    ensures Traced(ops + [op], loads + [c])
    ensures TotalCost(ops + [op], loads + [c]) == TotalCost(ops, loads) + Cost(op, loads[|ops|])
  {
    hide OpStep, Cost;
    assert (ops + [op])[..|ops|] == ops && (loads + [c])[..|ops| + 1] == loads;
  }

  /** A run has done its first operations: the table is the map after them, they are answered,
      and the counters are traced up to those the table has now. */
  ghost predicate Running<K(0,!new), V(0)>(h: Map<K, V>, ops: seq<Op<K, V>>, nil: V,
                                           answers: seq<Answer<K, V>>, loads: seq<Load>)
    reads h, h.flags, h.keys, h.vals
  {
    var n := |answers|;
    && Answered(ops, nil, answers) && h.Valid() && h.M == MapAfter(ops[..n]) && |h.M| <= Sets(ops[..n])
    && |loads| == n + 1 && Traced(ops[..n], loads) && loads[n] == h.Loaded() && h.scanned == TotalCost(ops[..n], loads)
  }

  method Proceed<K(0,==,!new), V(0)>(h: Map<K, V>, ops: seq<Op<K, V>>, nil: V, answers: seq<Answer<K, V>>,
                                     loads: seq<Load>) returns (a: Answer<K, V>)
    requires Running(h, ops, nil, answers, loads) && |answers| < |ops| && Sets(ops) < MAX_KEYS
    modifies h, h.flags, h.keys, h.vals
    ensures Running(h, ops, nil, answers + [a], loads + [h.Loaded()]) && h.OwnArrays()
  {
    hide Correct, MapAfter, Sets, Effect, Answered, Traced, OpStep, TotalCost, Map.Valid;
    var n := |answers|;
    SetsMonotone(ops, n);
    EffectSize(h.M, ops[n]);
    a := Step(h, ops[n], nil);
    AnsweredStep(ops, nil, answers, a);
    TracedStep(ops[..n], loads, ops[n], h.Loaded());
    assert ops[..n] + [ops[n]] == ops[..n + 1];
  }

  /** Every answer of a run is the finite map's answer after the operations before it. The run
      also gives the counters of the table before and after each operation: they move as traced,
      the table's own account of buckets scanned is the cost of that trace, and so all rehashes
      together scan at most four old buckets for each set. */
  method Run<K(0,==,!new), V(0)>(hash: K -> Hash, ops: seq<Op<K, V>>, nil: V)
    returns (answers: seq<Answer<K, V>>, loads: seq<Load>, h: Map<K, V>)
    requires Sets(ops) < MAX_KEYS
    ensures Answered(ops, nil, answers) && |answers| == |ops|
    ensures h.Valid() && h.M == MapAfter(ops)
    ensures Traced(ops, loads) && loads[|ops|] == h.Loaded()
    ensures h.scanned == TotalCost(ops, loads) <= 4 * Sets(ops)
  {
    hide Running, Answered, MapAfter, Sets, Traced, TotalCost, Map.Valid;
    h := new Map<K, V>(hash);
    answers, loads := [], [h.Loaded()];
    RunStarts(h, ops, nil, loads);
    for i := 0 to |ops|
      invariant fresh(h) && fresh(h.flags) && fresh(h.keys) && fresh(h.vals)
      invariant |answers| == i && Running(h, ops, nil, answers, loads)
    {
      var a := Proceed(h, ops, nil, answers, loads);
      answers, loads := answers + [a], loads + [h.Loaded()];
    }
    RunEnds(h, ops, nil, answers, loads);
    CostBound(ops, loads);
  }

  lemma RunStarts<K(0,!new), V(0)>(h: Map<K, V>, ops: seq<Op<K, V>>, nil: V, loads: seq<Load>)
    requires h.Valid() && h.M == map[] && h.scanned == 0 && h.Loaded() == Load(0, 0, 0, 0) && loads == [h.Loaded()]
    ensures Running(h, ops, nil, [], loads)
  {
    hide Map.Valid;
    assert ops[..0] == [];
  }

  lemma RunEnds<K(0,!new), V(0)>(h: Map<K, V>, ops: seq<Op<K, V>>, nil: V,
                                 answers: seq<Answer<K, V>>, loads: seq<Load>)
    requires Running(h, ops, nil, answers, loads) && |answers| == |ops|
    ensures Answered(ops, nil, answers) && h.Valid() && h.M == MapAfter(ops) && Traced(ops, loads)
    ensures loads[|ops|] == h.Loaded() && h.scanned == TotalCost(ops, loads)
  {
    hide Map.Valid, Answered, Traced, TotalCost, MapAfter;
    assert ops[..|ops|] == ops;
  }
}
