/** The flag words of the hash table: two bits for each bucket, sixteen buckets to a word,
    and the macros that read and change them. The words refine a sequence of buckets. */
module BucketFlags {

  /** What the two bits of a bucket say. A bucket holds an entry when both are clear. */
  datatype Bucket = Bucket(isEmpty: bool, isDel: bool) {
    predicate Live() {
      !isEmpty && !isDel
    }
  }

  const EMPTY := Bucket(true, false)
  const DELETED := Bucket(false, true)
  const LIVE := Bucket(false, false)

  // ---- the macros, on the word that holds bucket i ---------------------------------

  /** (i & 0xf) << 1, spelled out; ShiftIsDoubled is the arithmetic form. */
  function Shift(i: nat): (s: bv32)
    ensures s <= 30
  {
    match i % 16
    case 0 => 0 case 1 => 2 case 2 => 4 case 3 => 6
    case 4 => 8 case 5 => 10 case 6 => 12 case 7 => 14
    case 8 => 16 case 9 => 18 case 10 => 20 case 11 => 22
    case 12 => 24 case 13 => 26 case 14 => 28 case _ => 30
  }

  predicate IsEmpty(w: bv32, i: nat) {
    (w >> Shift(i)) & 2 != 0
  }

  predicate IsDel(w: bv32, i: nat) {
    (w >> Shift(i)) & 1 != 0
  }

  predicate IsEither(w: bv32, i: nat) {
    (w >> Shift(i)) & 3 != 0
  }

  function SetIsDelFalse(w: bv32, i: nat): bv32 {
    Clear(w, 1, Shift(i))
  }

  function SetIsEmptyFalse(w: bv32, i: nat): bv32 {
    Clear(w, 2, Shift(i))
  }

  function SetIsBothFalse(w: bv32, i: nat): bv32 {
    Clear(w, 3, Shift(i))
  }

  function SetIsDelTrue(w: bv32, i: nat): bv32 {
    Set(w, 1, Shift(i))
  }

  /** flag &= ~(m << s) and flag |= m << s. */
  function Clear(w: bv32, m: bv32, s: bv32): bv32
    requires s <= 30
  {
    w & !(m << s)
  }

  function Set(w: bv32, m: bv32, s: bv32): bv32
    requires s <= 30
  {
    w | (m << s)
  }

  const FILL: bv32 := 0xaaaa_aaaa

  /** Number of flag words for n buckets: (n >> 4) + 1. */
  function WordCount(n: nat): (c: nat)
    ensures forall i: nat :: i < n ==> i / 16 < c
  {
    n / 16 + 1
  }

  // ---- bit-level facts ---------------------------------------------------------------

  lemma ShiftIsDoubled(i: nat)
    ensures Shift(i) == ((i % 16) * 2) as bv32
  {
    match i % 16
    case 0 => case 1 => case 2 => case 3 => case 4 => case 5 => case 6 => case 7 =>
    case 8 => case 9 => case 10 => case 11 => case 12 => case 13 => case 14 => case _ =>
  }

  lemma ShiftFacts(i: nat, j: nat)
    ensures Shift(i) <= 30 && Shift(i) & 1 == 0
    ensures Shift(i) == Shift(j) <==> i % 16 == j % 16
  {
  }

  /** The two bits of a word that a shift selects. */
  function PairAt(w: bv32, s: bv32): Bucket
    requires s <= 30
  {
    Bucket((w >> s) & 2 != 0, (w >> s) & 1 != 0)
  }

  /** What clearing, or raising, the bits of a mask does to a bucket. */
  function Cleared(b: Bucket, m: bv32): Bucket {
    Bucket(b.isEmpty && m & 2 == 0, b.isDel && m & 1 == 0)
  }

  function Raised(b: Bucket, m: bv32): Bucket {
    Bucket(b.isEmpty || m & 2 != 0, b.isDel || m & 1 != 0)
  }

  lemma MaskOther(w: bv32, m: bv32, s: bv32, t: bv32)
    requires s <= 30 && t <= 30 && s & 1 == 0 && t & 1 == 0 && s != t && m <= 3
    ensures PairAt(Clear(w, m, s), t) == PairAt(w, t)
    ensures PairAt(Set(w, m, s), t) == PairAt(w, t)
  {
  }

  lemma MaskSame(w: bv32, m: bv32, s: bv32)
    requires s <= 30 && s & 1 == 0 && m <= 3
    ensures PairAt(Clear(w, m, s), s) == Cleared(PairAt(w, s), m)
    ensures PairAt(Set(w, m, s), s) == Raised(PairAt(w, s), m)
  {
  }

  lemma FillPair(s: bv32)
    requires s <= 30 && s & 1 == 0
    ensures PairAt(FILL, s) == EMPTY
  {
  }

  // ---- words as buckets ----------------------------------------------------------------

  function BucketAt(ws: seq<bv32>, i: nat): Bucket
    requires i / 16 < |ws|
  {
    PairAt(ws[i / 16], Shift(i))
  }

  /** The reading macros report exactly the state of the bucket they name. */
  lemma TestsReadBucket(ws: seq<bv32>, i: nat)
    requires i / 16 < |ws|
    ensures IsEmpty(ws[i / 16], i) <==> BucketAt(ws, i).isEmpty
    ensures IsDel(ws[i / 16], i) <==> BucketAt(ws, i).isDel
    ensures IsEither(ws[i / 16], i) <==> !BucketAt(ws, i).Live()
  {
    hide Shift;
  }

  function Buckets(ws: seq<bv32>, n: nat): (s: seq<Bucket>)
    requires WordCount(n) <= |ws|
    ensures |s| == n
  {
    seq(n, i requires 0 <= i < n => BucketAt(ws, i))
  }

  /** A change to one pair of one word changes one bucket. */
  lemma WordChange(ws: seq<bv32>, n: nat, i: nat, w: bv32, b: Bucket)
    requires WordCount(n) <= |ws| && i < n
    requires PairAt(w, Shift(i)) == b
    requires forall j: nat :: j < n && j / 16 == i / 16 && j != i ==> PairAt(w, Shift(j)) == PairAt(ws[i / 16], Shift(j))
    ensures Buckets(ws[i / 16 := w], n) == Buckets(ws, n)[i := b]
  {
    hide Shift, PairAt;
    var ws' := ws[i / 16 := w];
    forall j: nat | j < n
      ensures BucketAt(ws', j) == if j == i then b else BucketAt(ws, j)
    {
    }
  }

  lemma ClearChanges(ws: seq<bv32>, n: nat, i: nat, m: bv32)
    requires WordCount(n) <= |ws| && i < n && m <= 3
    ensures Buckets(ws[i / 16 := Clear(ws[i / 16], m, Shift(i))], n)
         == Buckets(ws, n)[i := Cleared(BucketAt(ws, i), m)]
  {
    hide Shift, PairAt, Clear;
    var w, b := ws[i / 16], BucketAt(ws, i);
    ShiftFacts(i, i);
    MaskSame(w, m, Shift(i));
    forall j: nat | j < n && j / 16 == i / 16 && j != i
      ensures PairAt(Clear(w, m, Shift(i)), Shift(j)) == PairAt(w, Shift(j))
    {
      ShiftFacts(i, j);
      ShiftFacts(j, j);
      MaskOther(w, m, Shift(i), Shift(j));
    }
    WordChange(ws, n, i, Clear(w, m, Shift(i)), Cleared(b, m));
  }

  lemma SetChanges(ws: seq<bv32>, n: nat, i: nat, m: bv32)
    requires WordCount(n) <= |ws| && i < n && m <= 3
    ensures Buckets(ws[i / 16 := Set(ws[i / 16], m, Shift(i))], n)
         == Buckets(ws, n)[i := Raised(BucketAt(ws, i), m)]
  {
    hide Shift, PairAt, Set;
    var w, b := ws[i / 16], BucketAt(ws, i);
    ShiftFacts(i, i);
    MaskSame(w, m, Shift(i));
    forall j: nat | j < n && j / 16 == i / 16 && j != i
      ensures PairAt(Set(w, m, Shift(i)), Shift(j)) == PairAt(w, Shift(j))
    {
      ShiftFacts(i, j);
      ShiftFacts(j, j);
      MaskOther(w, m, Shift(i), Shift(j));
    }
    WordChange(ws, n, i, Set(w, m, Shift(i)), Raised(b, m));
  }

  /** Each writing macro changes one bit or both bits of the bucket it names, and no other
      bucket's. */
  lemma MacrosChangeOneBucket(ws: seq<bv32>, n: nat, i: nat)
    requires WordCount(n) <= |ws| && i < n
    ensures Buckets(ws[i / 16 := SetIsDelFalse(ws[i / 16], i)], n)
         == Buckets(ws, n)[i := Bucket(BucketAt(ws, i).isEmpty, false)]
    ensures Buckets(ws[i / 16 := SetIsEmptyFalse(ws[i / 16], i)], n)
         == Buckets(ws, n)[i := Bucket(false, BucketAt(ws, i).isDel)]
    ensures Buckets(ws[i / 16 := SetIsBothFalse(ws[i / 16], i)], n) == Buckets(ws, n)[i := LIVE]
    ensures Buckets(ws[i / 16 := SetIsDelTrue(ws[i / 16], i)], n)
         == Buckets(ws, n)[i := Bucket(BucketAt(ws, i).isEmpty, true)]
  {
    hide Shift, PairAt, Clear, Set;
    ClearChanges(ws, n, i, 1);
    ClearChanges(ws, n, i, 2);
    ClearChanges(ws, n, i, 3);
    SetChanges(ws, n, i, 1);
  }

  /** Words filled with 0xaa bytes describe empty buckets only. */
  lemma FillIsEmpty(ws: seq<bv32>, n: nat)
    requires |ws| == WordCount(n) && forall k :: 0 <= k < |ws| ==> ws[k] == FILL
    ensures Buckets(ws, n) == seq(n, i => EMPTY)
  {
    forall i: nat | i < n
      ensures BucketAt(ws, i) == EMPTY
    {
      hide Shift, PairAt;
      ShiftFacts(i, i);
      FillPair(Shift(i));
    }
  }

  // ---- the arrays -----------------------------------------------------------------------

  function EmptyAt(flags: array<bv32>, n: nat, i: nat): (r: bool)
    requires WordCount(n) <= flags.Length && i < n
    reads flags
    ensures r == Buckets(flags[..], n)[i].isEmpty
  {
    TestsReadBucket(flags[..], i);
    IsEmpty(flags[i / 16], i)
  }

  function DelAt(flags: array<bv32>, n: nat, i: nat): (r: bool)
    requires WordCount(n) <= flags.Length && i < n
    reads flags
    ensures r == Buckets(flags[..], n)[i].isDel
  {
    TestsReadBucket(flags[..], i);
    IsDel(flags[i / 16], i)
  }

  function EitherAt(flags: array<bv32>, n: nat, i: nat): (r: bool)
    requires WordCount(n) <= flags.Length && i < n
    reads flags
    ensures r == !Buckets(flags[..], n)[i].Live()
  {
    TestsReadBucket(flags[..], i);
    IsEither(flags[i / 16], i)
  }

  method NewFlags(n: nat) returns (flags: array<bv32>)
    ensures fresh(flags) && flags.Length == WordCount(n)
    ensures Buckets(flags[..], n) == seq(n, i => EMPTY)
  {
    flags := new bv32[n / 16 + 1];
    FillFlags(flags, n);
  }

  method FillFlags(flags: array<bv32>, n: nat)
    requires flags.Length == WordCount(n)
    modifies flags
    ensures Buckets(flags[..], n) == seq(n, i => EMPTY)
  {
    for k := 0 to flags.Length
      invariant forall t :: 0 <= t < k ==> flags[t] == FILL
    {
      flags[k] := FILL;
    }
    FillIsEmpty(flags[..], n);
  }

  method MarkNotEmpty(flags: array<bv32>, n: nat, i: nat)
    requires WordCount(n) <= flags.Length && i < n
    modifies flags
    ensures Buckets(flags[..], n) == old(Buckets(flags[..], n)[i := Bucket(false, Buckets(flags[..], n)[i].isDel)])
  {
    hide Shift, PairAt, SetIsEmptyFalse;
    ghost var ws := flags[..];
    MacrosChangeOneBucket(ws, n, i);
    flags[i / 16] := SetIsEmptyFalse(flags[i / 16], i);
    assert flags[..] == ws[i / 16 := SetIsEmptyFalse(ws[i / 16], i)];
  }

  method MarkLive(flags: array<bv32>, n: nat, i: nat)
    requires WordCount(n) <= flags.Length && i < n
    modifies flags
    ensures Buckets(flags[..], n) == old(Buckets(flags[..], n)[i := LIVE])
  {
    hide Shift, PairAt, SetIsBothFalse;
    ghost var ws := flags[..];
    MacrosChangeOneBucket(ws, n, i);
    flags[i / 16] := SetIsBothFalse(flags[i / 16], i);
    assert flags[..] == ws[i / 16 := SetIsBothFalse(ws[i / 16], i)];
  }

  method MarkDeleted(flags: array<bv32>, n: nat, i: nat)
    requires WordCount(n) <= flags.Length && i < n
    modifies flags
    ensures Buckets(flags[..], n) == old(Buckets(flags[..], n)[i := Bucket(Buckets(flags[..], n)[i].isEmpty, true)])
  {
    hide Shift, PairAt, SetIsDelTrue;
    ghost var ws := flags[..];
    MacrosChangeOneBucket(ws, n, i);
    flags[i / 16] := SetIsDelTrue(flags[i / 16], i);
    assert flags[..] == ws[i / 16 := SetIsDelTrue(ws[i / 16], i)];
  }
}
