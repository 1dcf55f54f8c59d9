/** Whole runs of the ring buffer: bytes come out in the order they went in, and none is lost,
    repeated or made up. */
module RingRun {
  import opened RingBuf

  /** What a write of the model takes: less than a whole buffer at a time. */
  type Chunk = s: seq<byte> | |s| < MAX

  datatype Op = Write(data: Chunk) | Read(n: int)

  /** The bytes an operation takes in, and the bytes it gives out, with held in the buffer. */
  function In(held: seq<byte>, op: Op): (s: seq<byte>)
    requires |held| <= MAX
    ensures |held| + |s| <= MAX
  {
    if op.Write? then op.data[..Accepts(|held|, |op.data|)] else []
  }

  function Out(held: seq<byte>, op: Op): (s: seq<byte>)
    requires |held| <= MAX
    ensures |s| <= |held|
  {
    if op.Read? then held[..Delivers(|held|, op.n)] else []
  }

  function Next(held: seq<byte>, op: Op): (s: seq<byte>)
    requires |held| <= MAX
    ensures |s| <= MAX
  {
    held[|Out(held, op)|..] + In(held, op)
  }

  function After(ops: seq<Op>): (held: seq<byte>)
    ensures |held| <= MAX
  {
    if ops == [] then [] else Next(After(ops[..|ops| - 1]), ops[|ops| - 1])
  }

  /** Everything accepted, and everything delivered, by a run. */
  function AllIn(ops: seq<Op>): seq<byte> {
    if ops == [] then [] else AllIn(ops[..|ops| - 1]) + In(After(ops[..|ops| - 1]), ops[|ops| - 1])
  }

  function AllOut(ops: seq<Op>): seq<byte> {
    if ops == [] then [] else AllOut(ops[..|ops| - 1]) + Out(After(ops[..|ops| - 1]), ops[|ops| - 1])
  }

  /** Conservation: what has come out, followed by what is still held, is what went in. */
  lemma {:induction false} Conservation(ops: seq<Op>)
    ensures AllOut(ops) + After(ops) == AllIn(ops)
  {
    hide In, Out, Next;
    if ops != [] {
      var init, op := ops[..|ops| - 1], ops[|ops| - 1];
      Conservation(init);
      StepConserves(AllOut(init), After(init), op);
    }
  }

  lemma StepConserves(sofar: seq<byte>, held: seq<byte>, op: Op)
    requires |held| <= MAX
    ensures (sofar + Out(held, op)) + Next(held, op) == (sofar + held) + In(held, op)
  {
    var o := Out(held, op);
    assert o + held[|o|..] == held;
    assert (sofar + o) + (held[|o|..] + In(held, op)) == (sofar + (o + held[|o|..])) + In(held, op);
  }

  /** A read delivers nothing, although bytes are wanted and held, exactly when the buffer is
      full. */
  lemma ReadBlocked(held: nat, n: int)
    requires 0 < held <= MAX && n > 0
    ensures Delivers(held, n) == 0 <==> held == MAX
  {
  }

  /** A full buffer stays as it is whatever reads, and writes of less than a whole buffer, follow. */
  lemma {:induction false} FullIsStuck(ops: seq<Op>, more: seq<Op>)
    requires |After(ops)| == MAX
    ensures After(ops + more) == After(ops) && AllOut(ops + more) == AllOut(ops)
  {
    hide In, Out, Next;
    if more == [] {
      assert ops + more == ops;
    } else {
      var n := |more| - 1;
      FullIsStuck(ops, more[..n]);
      assert (ops + more)[..|ops| + n] == ops + more[..n];
      assert (ops + more)[|ops| + n] == more[n];
      FullStep(After(ops), more[n]);
      assert AllOut(ops) + [] == AllOut(ops);
    }
  }

  lemma FullStep(held: seq<byte>, op: Op)
    requires |held| == MAX
    ensures Next(held, op) == held && Out(held, op) == []
  {
    assert held[0..] + [] == held;
  }

  /** Two writes are enough to fill it. */
  lemma FullIsReachable(a: Chunk, b: Chunk)
    requires |a| + |b| >= MAX
    ensures |After([Write(a), Write(b)])| == MAX
  {
    var ops := [Write(a), Write(b)];
    assert ops[..1] == [Write(a)] && ops[..1][..0] == [];
    assert After([]) == [];
    assert After(ops[..1]) == a;
  }

  /** What is taken in is as much of the front of the data as there is room for, and what is given
      out is the front of what is held, as far as asked for, held and free allow. */
  lemma MovesMost(held: seq<byte>, data: Chunk, n: int)
    requires |held| <= 1024
    ensures In(held, Write(data)) <= data && Out(held, Read(n)) <= held
    ensures In(held, Write(data)) == data || |held| + |In(held, Write(data))| == 1024
    ensures |Out(held, Read(n))| == if n <= 0 then 0 else Min(n, Min(|held|, 1024 - |held|))
  {
  }

  /** One operation, with the bytes it delivers and the count it returns. */
  method Step(rb: RingBuffer, op: Op) returns (out: seq<byte>, count: int)
    requires rb.Valid()
    modifies rb, rb.buffer
    ensures rb.Valid() && rb.Contents() == Next(old(rb.Contents()), op)
    ensures out == Out(old(rb.Contents()), op)
    ensures count == if op.Write? then |In(old(rb.Contents()), op)| else |out|
  {
    match op {
      case Write(data) =>
        var buf := new byte[|data|](i requires 0 <= i < |data| => data[i]);
        assert buf[..] == data;
        var n := rb.Write(buf, |data|);
        assert buf[..n] == data[..n];
        out, count := [], n;
      case Read(n) =>
        var len := if n > 0 then n else 0;
        var buf := new byte[len];
        ghost var held := rb.Contents();
        var k := rb.Read(buf, n);
        assert buf[..k] == held[..k];
        out, count := buf[..k], k;
    }
  }

  lemma AfterStep(ops: seq<Op>, i: nat)
    requires i < |ops|
    ensures After(ops[..i + 1]) == Next(After(ops[..i]), ops[i])
  {
    assert ops[..i + 1][..i] == ops[..i];
  }

  /** The reads and writes done so far have delivered and returned what those of the queue do. */
  ghost predicate Given(ops: seq<Op>, outs: seq<seq<byte>>, counts: seq<int>) {
    && |counts| == |outs| <= |ops|
    && (forall i :: 0 <= i < |outs| ==> outs[i] == Out(After(ops[..i]), ops[i]))
    && (forall i :: 0 <= i < |outs| ==> counts[i] == if ops[i].Write? then |In(After(ops[..i]), ops[i])| else |outs[i]|)
  }

  lemma GivenStep(ops: seq<Op>, outs: seq<seq<byte>>, counts: seq<int>, out: seq<byte>, count: int)
    requires Given(ops, outs, counts) && |outs| < |ops| && out == Out(After(ops[..|outs|]), ops[|outs|])
    requires count == if ops[|outs|].Write? then |In(After(ops[..|outs|]), ops[|outs|])| else |out|
    ensures Given(ops, outs + [out], counts + [count])
  {
    hide Out, In, After;
  }

  /** Every byte read in a run is the one the queue delivers, every count returned is that of the
      queue, and the buffer ends up holding the rest. */
  method Run(ops: seq<Op>) returns (outs: seq<seq<byte>>, counts: seq<int>, ghost held: seq<byte>)
    ensures Given(ops, outs, counts) && |outs| == |ops|
    ensures AllOut(ops) + held == AllIn(ops)
  {
    hide Given, After, AllIn, AllOut, Out, Next, In, RingBuffer.Valid, RingBuffer.Contents;
    var rb := new RingBuffer();
    outs, counts := [], [];
    NothingGiven(ops);
    for i := 0 to |ops|
      invariant rb.Valid() && fresh(rb) && fresh(rb.buffer)
      invariant rb.Contents() == After(ops[..i])
      invariant |outs| == i && Given(ops, outs, counts)
    {
      AfterStep(ops, i);
      var out, count := Step(rb, ops[i]);
      GivenStep(ops, outs, counts, out, count);
      outs, counts := outs + [out], counts + [count];
    }
    assert ops[..|ops|] == ops;
    Conservation(ops);
    held := rb.Contents();
  }

  lemma NothingGiven(ops: seq<Op>)
    ensures After(ops[..0]) == [] && Given(ops, [], [])
  {
  }
}
