/** rpc_helper.h: the client packs its arguments into a message, the server unpacks them, calls
    the function on the bytes in place, repacks, and the client copies the results back. */
module RpcCall {
  import opened RpcWire

  /** memcpy into a buffer. */
  method Store(mem: array<Byte>, at: nat, bytes: seq<Byte>)
    requires at + |bytes| <= mem.Length
    modifies mem
    ensures mem[..] == old(mem[..at]) + bytes + old(mem[at + |bytes|..])
  {
    forall i | 0 <= i < |bytes| {
      mem[at + i] := bytes[i];
    }
  }

  /** A buffer with given contents. */
  method NewBuffer(bytes: seq<Byte>) returns (mem: array<Byte>)
    ensures fresh(mem) && mem[..] == bytes
  {
    mem := new Byte[|bytes|];
    Store(mem, 0, bytes);
    assert mem[..] == [] + bytes + [];
  }

  // ---- the client's arguments -----------------------------------------------------------------

  /** The pointer variable an out argument refers to. */
  class Pointer {
    var target: array?<Byte>

    constructor ()
      ensures target == null
    {
      target := null;
    }
  }

  /** A client argument: the address passed, and the memory or the pointer at that address. */
  datatype Arg = Sized(address: Long, buf: array<Byte>) | Out(address: Long, ptr: Pointer)

  const OUT_SIZE: nat := 0

  /** The size declared for an argument. */
  function SizeOf(a: Arg): nat {
    if a.Sized? then a.buf.Length else OUT_SIZE
  }

  ghost function PartOf(a: Arg): Part
    reads if a.Sized? then {a.buf} else {}
  {
    Part(a.address, if a.Sized? then a.buf[..] else [])
  }

  ghost function Buffers(args: seq<Arg>): set<object> {
    set i | 0 <= i < |args| && args[i].Sized? :: args[i].buf
  }

  ghost function Pointers(args: seq<Arg>): set<object> {
    set i | 0 <= i < |args| && args[i].Out? :: args[i].ptr
  }

  /** The arguments as they are sent: each with its address, a sized one with the bytes of its
      buffer and an out one with none. */
  ghost function Parts(args: seq<Arg>): (ps: seq<Part>)
    reads Buffers(args)
    ensures |ps| == |args|
    ensures forall i :: 0 <= i < |args| ==> ps[i].ref == args[i].address
    ensures forall i :: 0 <= i < |args| && args[i].Sized? ==> ps[i].data == args[i].buf[..]
    ensures forall i :: 0 <= i < |args| && args[i].Out? ==> ps[i].data == []
  {
    seq(|args|, i requires 0 <= i < |args| reads Buffers(args) => PartOf(args[i]))
  }

  /** Sized arguments occupy disjoint, non-empty buffers; an out argument, whose size 0 is the
      OUT_SIZE mark, comes last. */
  ghost predicate WellFormed(args: seq<Arg>) {
    && (forall i :: 0 <= i < |args| && args[i].Sized? ==> 0 < args[i].buf.Length)
    && (forall i, j :: 0 <= i < j < |args| && args[i].Sized? && args[j].Sized? ==> args[i].buf != args[j].buf)
    && (forall i :: 0 <= i < |args| && args[i].Out? ==> i == |args| - 1)
  }

  /** RPC_CLI_BEGIN and RPC_CLI_ARG_SET: the length of the request. */
  method TotalLength(args: seq<Arg>) returns (len: nat)
    ensures len == |Message(Parts(args))|
  {
    hide Wire;
    ghost var ps := Parts(args);
    len := 0;
    for i := 0 to |args|
      invariant Parts(args) == ps && len == Offset(ps, i)
    {
      OffsetStep(ps, i);
      len := len + SizeOf(args[i]) + HEADER;
    }
    OffsetEnd(ps);
  }

  /** RPC_CLI_CALL, up to the call: the request. */
  method Pack(args: seq<Arg>) returns (buf: array<Byte>)
    requires WellFormed(args) && Fits(Parts(args))
    ensures fresh(buf) && buf[..] == Message(Parts(args))
  {
    hide Wire, Message;
    ghost var ps := Parts(args);
    var len := TotalLength(args);
    assert Parts(args) == ps;
    buf := new Byte[len](_ => 0);
    var offset := 0;
    OffsetEnd(ps);
    for i := 0 to |args|
      invariant Parts(args) == ps && fresh(buf) && buf.Length == len == |Message(ps)|
      invariant offset == Offset(ps, i) <= len && buf[..offset] == Message(ps[..i])
    {
      OffsetStep(ps, i);
      PrefixOfMessage(ps, i + 1);
      assert ps[i] == PartOf(args[i]);
      WriteArgument(buf, offset, args[i].address, if args[i].Sized? then args[i].buf[..] else []);
      offset := offset + SizeOf(args[i]) + HEADER;
    }
    assert buf[..] == buf[..offset];
  }

  lemma OffsetEnd(ps: seq<Part>)
    ensures Offset(ps, 0) == 0 && Message(ps[..0]) == []
    ensures Offset(ps, |ps|) == |Message(ps)| && ps[..|ps|] == ps
  {
    assert ps[..|ps|] == ps;
  }

  /** arg->len, arg->ref and the bytes. */
  method WriteArgument(buf: array<Byte>, at: nat, ref: Long, data: seq<Byte>)
    requires at + HEADER + |data| <= buf.Length && |data| < LONG_LIMIT
    modifies buf
    ensures buf[..] == old(buf[..at]) + Wire(Part(ref, data)) + old(buf[at + HEADER + |data|..])
  {
    hide Word;
    ghost var m := buf[..];
    var first, second := Word(|data|), Word(ref);
    Store(buf, at, first);
    Store(buf, at + 8, second);
    StoreTwice(m, at, first, second);
    Store(buf, at + HEADER, data);
    StoreTwice(m, at, first + second, data);
  }

  lemma StoreTwice(m: seq<Byte>, at: nat, a: seq<Byte>, b: seq<Byte>)
    requires at + |a| + |b| <= |m|
    ensures var m' := m[..at] + a + m[at + |a|..];
      m'[..at + |a|] + b + m'[at + |a| + |b|..] == m[..at] + (a + b) + m[at + |a| + |b|..]
  {
  }

  // ---- the server ------------------------------------------------------------------------------

  /** rpc_arg_t *: a header somewhere in memory. */
  datatype Header = Header(mem: array<Byte>, at: nat)

  /** &_args[i], the address of a slot of the server's argument table. */
  function SlotAddress(i: nat): Long {
    if i < LONG_LIMIT then i else 0
  }

  /** What RPC_SRV_BEGIN leaves in the received message: out arguments refer to their slots. */
  function Linked(ps: seq<Part>, k: nat): (qs: seq<Part>)
    ensures |qs| == |ps|
  {
    seq(|ps|, i requires 0 <= i < |ps| => if i < k && |ps[i].data| == OUT_SIZE then Part(SlotAddress(i), []) else ps[i])
  }

  /** RPC_SRV_BEGIN: the slots point at the arguments. */
  method Unpack(mem: array<Byte>, n: nat, ghost ps: seq<Part>) returns (slots: seq<Header>)
    requires n == |ps| && Fits(ps) && mem[..] == Message(ps)
    modifies mem
    ensures |slots| == n && forall i :: 0 <= i < n ==> slots[i] == Header(mem, Offset(ps, i))
    ensures mem[..] == Message(Linked(ps, n))
    ensures forall i :: 0 <= i <= n ==> Offset(Linked(ps, n), i) == Offset(ps, i)
  {
    hide Wire, Message;
    slots := [];
    var offset := 0;
    OffsetEnd(ps);
    assert Linked(ps, 0) == ps;
    for i := 0 to n
      invariant |slots| == i && forall j :: 0 <= j < i ==> slots[j] == Header(mem, Offset(ps, j))
      invariant offset == Offset(ps, i)
      invariant mem[..] == Message(Linked(ps, i)) && |Message(Linked(ps, i))| == |Message(ps)|
      invariant forall j :: 0 <= j <= n ==> Offset(Linked(ps, i), j) == Offset(ps, j)
    {
      ghost var qs := Linked(ps, i);
      assert qs[i] == ps[i];
      ArgumentAt(qs, i);
      ReadArgument(mem[..], offset, qs[i]);
      slots := slots + [Header(mem, offset)];
      var len := Decode(mem[offset..offset + 8]);
      if len == OUT_SIZE {
        ghost var p := Part(SlotAddress(i), []);
        SetRef(mem, offset, SlotAddress(i), qs, i);
        assert Linked(ps, i + 1) == qs[i := p];
        forall j | 0 <= j <= n
          ensures Offset(qs[i := p], j) == Offset(ps, j)
        {
          OffsetUpdate(qs, i, p, j);
        }
        OffsetEnd(qs[i := p]);
      } else {
        assert Linked(ps, i + 1) == qs;
      }
      OffsetStep(ps, i);
      offset := offset + len + HEADER;
    }
  }

  /** arg->ref = ref, for argument i of the message. */
  method SetRef(mem: array<Byte>, at: nat, ref: Long, ghost ps: seq<Part>, ghost i: nat)
    requires i < |ps| && Fits(ps) && mem[..] == Message(ps) && at == Offset(ps, i)
    requires at + HEADER <= mem.Length
    modifies mem
    ensures mem[..] == Message(ps[i := Part(ref, ps[i].data)])
  {
    hide Word, Message;
    ghost var m := mem[..];
    MessageUpdate(ps, i, Part(ref, ps[i].data));
    WireOfArgument(ps, i);
    Store(mem, at + 8, Word(ref));
    RefInWire(m, at, ps[i], ref);
  }

  lemma RefInWire(m: seq<Byte>, at: nat, p: Part, ref: Long)
    requires at + |Wire(p)| <= |m| && m[at..at + |Wire(p)|] == Wire(p)
    ensures m[..at + 8] + Word(ref) + m[at + 16..] == m[..at] + Wire(Part(ref, p.data)) + m[at + |Wire(p)|..]
  {
    hide Word;
    assert m[..at + 8] == m[..at] + m[at..at + |Wire(p)|][..8];
    assert m[at + 16..] == m[at..at + |Wire(p)|][16..] + m[at + |Wire(p)|..];
  }

  // ---- the served function ------------------------------------------------------------------------

  function Datas(ps: seq<Part>): (xs: seq<seq<Byte>>)
    ensures |xs| == |ps| && forall i :: 0 <= i < |ps| ==> xs[i] == ps[i].data
  {
    seq(|ps|, i requires 0 <= i < |ps| => ps[i].data)
  }

  /** The function served keeps the size of every sized argument; an out argument may get any. */
  ghost predicate KeepsSizes(xs: seq<seq<Byte>>, ys: seq<seq<Byte>>) {
    |ys| == |xs| && forall i :: 0 <= i < |xs| && |xs[i]| != OUT_SIZE ==> |ys[i]| == |xs[i]|
  }

  /** The arguments as the server holds them after the call. A new out buffer has a null ref. */
  function Answered(ps: seq<Part>, ys: seq<seq<Byte>>): (rs: seq<Part>)
    requires |ys| == |ps|
    ensures |rs| == |ps|
  {
    seq(|ps|, i requires 0 <= i < |ps| => Part(if |ps[i].data| == OUT_SIZE then 0 else ps[i].ref, ys[i]))
  }

  /** The received message while the function has written its first i arguments. */
  function Midway(ps: seq<Part>, ys: seq<seq<Byte>>, i: nat): (qs: seq<Part>)
    requires |ys| == |ps|
    ensures |qs| == |ps|
  {
    seq(|ps|, j requires 0 <= j < |ps| =>
      if j < i && |ps[j].data| != OUT_SIZE then Answered(ps, ys)[j] else Linked(ps, |ps|)[j])
  }

  /** The bytes the function sees. */
  method Load(mem: array<Byte>, slots: seq<Header>, ghost ps: seq<Part>) returns (xs: seq<seq<Byte>>)
    requires Fits(ps) && mem[..] == Message(ps) && |slots| == |ps|
    requires forall i :: 0 <= i < |ps| ==> slots[i] == Header(mem, Offset(ps, i))
    ensures xs == Datas(ps)
  {
    hide Wire, Message;
    xs := [];
    for i := 0 to |slots|
      invariant |xs| == i && forall j :: 0 <= j < i ==> xs[j] == ps[j].data
    {
      ArgumentAt(ps, i);
      ReadArgument(mem[..], slots[i].at, ps[i]);
      var at := slots[i].at;
      var len := Decode(mem[at..at + 8]);
      xs := xs + [mem[at + HEADER..at + HEADER + len]];
    }
  }

  /** rpc_arg_malloc: for an out argument, whose ref leads to its slot, the slot gets a new
      buffer; for a sized one nothing happens. */
  method ArgMalloc(slots: seq<Header>, arg: Header, size: nat, ghost i: nat, ghost p: Part) returns (slots': seq<Header>)
    requires i < |slots| && size < LONG_LIMIT && |slots| < LONG_LIMIT
    requires Holds(arg.mem[..], arg.at, p) && (|p.data| == OUT_SIZE ==> p.ref == SlotAddress(i))
    ensures |slots'| == |slots| && (|p.data| != OUT_SIZE ==> slots' == slots)
    ensures |p.data| == OUT_SIZE ==> slots' == slots[i := slots'[i]] && slots'[i].at == 0 && fresh(slots'[i].mem)
    ensures |p.data| == OUT_SIZE ==> slots'[i].mem[..] == Word(size) + Word(0) + seq(size, _ => 0)
  {
    hide Word, Wire;
    ReadArgument(arg.mem[..], arg.at, p);
    slots' := slots;
    if Decode(arg.mem[arg.at..arg.at + 8]) == OUT_SIZE {
      WordRoundTrip(p.ref);
      var k := Decode(arg.mem[arg.at + 8..arg.at + HEADER]);
      var buf := NewBuffer(Word(size) + Word(0) + seq(size, _ => 0));
      slots' := slots[k := Header(buf, 0)];
    }
  }

  /** Half-way through the served function: its first i arguments have been written, sized ones in
      the received message, out ones in new buffers. */
  ghost predicate Serving(mem: array<Byte>, slots: seq<Header>, ps: seq<Part>, ys: seq<seq<Byte>>, i: nat)
    requires |ys| == |ps|
    reads mem, set j | 0 <= j < |slots| :: slots[j].mem
  {
    && |slots| == |ps| && mem[..] == Message(Midway(ps, ys, i))
    && (forall j :: 0 <= j <= |ps| ==> Offset(Midway(ps, ys, i), j) == Offset(ps, j))
    && (forall j :: 0 <= j < |ps| ==> SlotServed(mem, slots[j], ps, ys, i, j))
  }

  ghost predicate SlotServed(mem: array<Byte>, slot: Header, ps: seq<Part>, ys: seq<seq<Byte>>, i: nat, j: nat)
    requires |ys| == |ps| && j < |ps|
    reads slot.mem
  {
    if j < i && |ps[j].data| == OUT_SIZE then
      slot.mem != mem && slot.at == 0 && slot.mem[..] == Wire(Answered(ps, ys)[j])
    else
      slot == Header(mem, Offset(ps, j))
  }

  lemma DataInWire(m: seq<Byte>, at: nat, p: Part, data: seq<Byte>)
    requires |data| == |p.data| && at + |Wire(p)| <= |m| && m[at..at + |Wire(p)|] == Wire(p)
    ensures m[..at + 16] + data + m[at + 16 + |data|..] == m[..at] + Wire(Part(p.ref, data)) + m[at + |Wire(p)|..]
  {
    hide Word;
    assert m[..at + 16] == m[..at] + m[at..at + |Wire(p)|][..16];
  }

  lemma MidwayStep(ps: seq<Part>, ys: seq<seq<Byte>>, i: nat)
    requires i < |ps| && KeepsSizes(Datas(ps), ys)
    ensures |ps[i].data| == OUT_SIZE ==> Midway(ps, ys, i + 1) == Midway(ps, ys, i)
    ensures |ps[i].data| == OUT_SIZE ==> Midway(ps, ys, i)[i] == Part(SlotAddress(i), [])
    ensures |ps[i].data| != OUT_SIZE ==> Midway(ps, ys, i)[i] == ps[i] && |ys[i]| == |ps[i].data|
    ensures |ps[i].data| != OUT_SIZE ==> Midway(ps, ys, i + 1) == Midway(ps, ys, i)[i := Part(ps[i].ref, ys[i])]
  {
  }

  /** The function writes a sized argument where it was received. */
  method ServeSized(mem: array<Byte>, slots: seq<Header>, ghost ps: seq<Part>, ys: seq<seq<Byte>>, i: nat)
    requires i < |ps| && |ps[i].data| != OUT_SIZE && KeepsSizes(Datas(ps), ys) && Fits(ps)
    requires Serving(mem, slots, ps, ys, i)
    modifies mem
    ensures Serving(mem, slots, ps, ys, i + 1)
  {
    hide Wire, Message;
    ghost var qs, m, at := Midway(ps, ys, i), mem[..], Offset(ps, i);
    MidwayStep(ps, ys, i);
    WireOfArgument(qs, i);
    MessageUpdate(qs, i, Part(ps[i].ref, ys[i]));
    DataInWire(m, at, qs[i], ys[i]);
    assert SlotServed(mem, slots[i], ps, ys, i, i);
    Store(mem, slots[i].at + HEADER, ys[i]);
    forall j | 0 <= j <= |ps|
      ensures Offset(Midway(ps, ys, i + 1), j) == Offset(ps, j)
    {
      OffsetUpdate(qs, i, Part(ps[i].ref, ys[i]), j);
    }
    forall j | 0 <= j < |ps|
      ensures SlotServed(mem, slots[j], ps, ys, i + 1, j)
    {
      assert old(SlotServed(mem, slots[j], ps, ys, i, j));
    }
  }

  /** The function asks for room for an out argument and fills it. */
  method ServeOut(mem: array<Byte>, slots: seq<Header>, ghost ps: seq<Part>, ys: seq<seq<Byte>>, i: nat)
    returns (slots': seq<Header>)
    requires i < |ps| < LONG_LIMIT && |ps[i].data| == OUT_SIZE && KeepsSizes(Datas(ps), ys) && Fits(ps)
    requires |ys[i]| < LONG_LIMIT && Serving(mem, slots, ps, ys, i)
    ensures Serving(mem, slots', ps, ys, i + 1)
    ensures |slots'| == |slots| && slots' == slots[i := slots'[i]] && fresh(slots'[i].mem)
  {
    hide Wire, Message, Word;
    ghost var qs := Midway(ps, ys, i);
    MidwayStep(ps, ys, i);
    OffsetEnd(ps);
    OffsetEnd(qs);
    ArgumentAt(qs, i);
    assert SlotServed(mem, slots[i], ps, ys, i, i);
    slots' := ArgMalloc(slots, slots[i], |ys[i]|, i, qs[i]);
    Store(slots'[i].mem, slots'[i].at + HEADER, ys[i]);
    OutWire(slots'[i].mem[..], ys[i]);
    forall j | 0 <= j < |ps|
      ensures SlotServed(mem, slots'[j], ps, ys, i + 1, j)
    {
      assert SlotServed(mem, slots[j], ps, ys, i, j);
    }
  }

  lemma OutWire(m: seq<Byte>, y: seq<Byte>)
    requires |y| < LONG_LIMIT && m == (Word(|y|) + Word(0))[..16] + y + []
    ensures m == Wire(Part(0, y))
  {
  }

  /** The call of the served function: what it is handed is what the client sent, and what it
      writes is where the slots point afterwards. */
  method Invoke(mem: array<Byte>, slots0: seq<Header>, handler: seq<seq<Byte>> -> seq<seq<Byte>>, ghost ps: seq<Part>)
    returns (slots: seq<Header>)
    requires |slots0| == |ps| < LONG_LIMIT && Fits(ps)
    requires forall i :: 0 <= i < |ps| ==> slots0[i] == Header(mem, Offset(ps, i))
    requires mem[..] == Message(Linked(ps, |ps|))
    requires forall i :: 0 <= i <= |ps| ==> Offset(Linked(ps, |ps|), i) == Offset(ps, i)
    requires KeepsSizes(Datas(ps), handler(Datas(ps))) && Fits(Answered(ps, handler(Datas(ps))))
    modifies mem
    ensures |slots| == |ps|
    ensures forall i :: 0 <= i < |ps| ==> Holds(slots[i].mem[..], slots[i].at, Answered(ps, handler(Datas(ps)))[i])
  {
    hide Wire, Message;
    OffsetEnd(ps);
    OffsetEnd(Linked(ps, |ps|));
    assert Datas(Linked(ps, |ps|)) == Datas(ps);
    var xs := Load(mem, slots0, Linked(ps, |ps|));
    var ys := handler(xs);
    slots := slots0;
    assert Midway(ps, ys, 0) == Linked(ps, |ps|);
    for i := 0 to |xs|
      invariant Serving(mem, slots, ps, ys, i)
      invariant forall j :: 0 <= j < |slots| ==> slots[j].mem == mem || fresh(slots[j].mem)
    {
      if |xs[i]| == OUT_SIZE {
        AnswerFits(ps, ys, i);
        slots := ServeOut(mem, slots, ps, ys, i);
      } else {
        ServeSized(mem, slots, ps, ys, i);
      }
    }
    forall i | 0 <= i < |ps|
      ensures Holds(slots[i].mem[..], slots[i].at, Answered(ps, ys)[i])
    {
      assert SlotServed(mem, slots[i], ps, ys, |ps|, i);
      ServedHolds(mem[..], slots[i].mem[..], ps, ys, i);
    }
  }

  lemma AnswerFits(ps: seq<Part>, ys: seq<seq<Byte>>, i: nat)
    requires |ys| == |ps| && i < |ps| && Fits(Answered(ps, ys))
    ensures |ys[i]| < LONG_LIMIT
  {
    WireOfArgument(Answered(ps, ys), i);
  }

  lemma ServedHolds(m: seq<Byte>, own: seq<Byte>, ps: seq<Part>, ys: seq<seq<Byte>>, i: nat)
    requires i < |ps| && KeepsSizes(Datas(ps), ys) && Fits(Answered(ps, ys))
    requires m == Message(Midway(ps, ys, |ps|)) && Fits(ps) && Offset(Midway(ps, ys, |ps|), |ps|) == Offset(ps, |ps|)
    ensures |ps[i].data| == OUT_SIZE && own == Wire(Answered(ps, ys)[i]) ==> Holds(own, 0, Answered(ps, ys)[i])
    ensures |ps[i].data| != OUT_SIZE ==> Holds(m, Offset(Midway(ps, ys, |ps|), i), Answered(ps, ys)[i])
  {
    var qs, rs := Midway(ps, ys, |ps|), Answered(ps, ys);
    WireOfArgument(rs, i);
    OffsetEnd(ps);
    OffsetEnd(qs);
    ArgumentAt(qs, i);
    if own == Wire(rs[i]) {
      assert own[0..|own|] == own;
    }
  }

  /** RPC_SRV_END: the reply, gathered from wherever the slots point. */
  method Repack(slots: seq<Header>, ghost rs: seq<Part>) returns (reply: array<Byte>)
    requires |slots| == |rs| && Fits(rs)
    requires forall i :: 0 <= i < |rs| ==> Holds(slots[i].mem[..], slots[i].at, rs[i])
    ensures fresh(reply) && reply[..] == Message(rs)
  {
    hide Wire, Message;
    var total := 0;
    OffsetEnd(rs);
    for i := 0 to |slots|
      invariant total == Offset(rs, i)
    {
      ReadArgument(slots[i].mem[..], slots[i].at, rs[i]);
      OffsetStep(rs, i);
      total := total + Decode(slots[i].mem[slots[i].at..slots[i].at + 8]) + HEADER;
    }
    reply := new Byte[total](_ => 0);
    var offset := 0;
    for i := 0 to |slots|
      invariant fresh(reply) && reply.Length == total == |Message(rs)|
      invariant forall j :: 0 <= j < |rs| ==> Holds(slots[j].mem[..], slots[j].at, rs[j])
      invariant offset == Offset(rs, i) <= total && reply[..offset] == Message(rs[..i])
    {
      var src, at := slots[i].mem, slots[i].at;
      ReadArgument(src[..], at, rs[i]);
      OffsetStep(rs, i);
      PrefixOfMessage(rs, i + 1);
      var len := Decode(src[at..at + 8]);
      Store(reply, offset, src[at..at + len + HEADER]);
      offset := offset + len + HEADER;
    }
    assert reply[..] == reply[..offset];
  }

  // ---- the client again ------------------------------------------------------------------------------

  /** The caller sees y in the argument: in its buffer, or in the new memory of its pointer. */
  ghost predicate Delivered(a: Arg, y: seq<Byte>)
    reads if a.Sized? then {a.buf} else {a.ptr}
    reads if a.Out? && a.ptr.target != null then {a.ptr.target} else {}
  {
    match a
    case Sized(_, buf) => buf[..] == y
    case Out(_, ptr) => ptr.target != null && ptr.target[..] == y
  }

  /** One turn of the loop of RPC_CLI_END. */
  method CopyOne(a: Arg, reply: array<Byte>, offset: nat, ghost r: Part) returns (len: nat)
    requires Holds(reply[..], offset, r) && (a.Sized? ==> a.buf != reply && 0 < a.buf.Length)
    modifies if a.Sized? then {a.buf} else {a.ptr}
    ensures len == |r.data|
    ensures a.Out? || |r.data| == SizeOf(a) ==> Delivered(a, r.data)
    ensures a.Out? ==> fresh(a.ptr.target)
    ensures a.Sized? && |r.data| != SizeOf(a) ==> a.buf[..] == old(a.buf[..])
  {
    ReadArgument(reply[..], offset, r);
    len := Decode(reply[offset..offset + 8]);
    var data := reply[offset + HEADER..offset + HEADER + len];
    if SizeOf(a) == OUT_SIZE {
      var mem := NewBuffer(data);
      a.ptr.target := mem;
    } else if SizeOf(a) == len {
      Store(a.buf, 0, data);
    }
  }

  /** RPC_CLI_END: copies the results back. A sized argument whose length came back changed is
      left alone. */
  method CopyBack(args: seq<Arg>, reply: array<Byte>, ghost rs: seq<Part>)
    requires WellFormed(args) && |rs| == |args| && Fits(rs) && reply[..] == Message(rs)
    requires reply !in Buffers(args)
    modifies Buffers(args), Pointers(args)
    ensures forall i :: 0 <= i < |args| && |rs[i].data| == SizeOf(args[i]) ==> Delivered(args[i], rs[i].data)
    ensures forall i :: 0 <= i < |args| && args[i].Out? ==> Delivered(args[i], rs[i].data)
    ensures forall i :: 0 <= i < |args| && args[i].Sized? && |rs[i].data| != SizeOf(args[i]) ==>
              args[i].buf[..] == old(args[i].buf[..])
  {
    hide Wire, Message;
    var offset := 0;
    OffsetEnd(rs);
    for i := 0 to |args|
      invariant offset == Offset(rs, i) && reply[..] == Message(rs)
      invariant forall j :: 0 <= j < i && (args[j].Out? || |rs[j].data| == SizeOf(args[j])) ==>
                  Delivered(args[j], rs[j].data)
      invariant forall j :: 0 <= j < |args| && args[j].Sized? && (j >= i || |rs[j].data| != SizeOf(args[j])) ==>
                  args[j].buf[..] == old(args[j].buf[..])
    {
      ArgumentAt(rs, i);
      var len := CopyOne(args[i], reply, offset, rs[i]);
      offset := offset + len + HEADER;
    }
  }

  /** A remote call. The function is handed what was sent: the bytes of each sized argument and
      nothing for an out one. What every argument holds afterwards is what the function made of
      that, exactly as after a local call. */
  method RemoteCall(args: seq<Arg>, handler: seq<seq<Byte>> -> seq<seq<Byte>>, ghost sent: seq<seq<Byte>>)
    requires WellFormed(args) && |args| < LONG_LIMIT && Fits(Parts(args))
    requires |sent| == |args|
    requires forall i :: 0 <= i < |args| && args[i].Sized? ==> sent[i] == args[i].buf[..]
    requires forall i :: 0 <= i < |args| && args[i].Out? ==> sent[i] == []
    requires KeepsSizes(sent, handler(sent)) && Fits(Answered(Parts(args), handler(sent)))
    modifies Buffers(args), Pointers(args)
    ensures forall i :: 0 <= i < |args| && args[i].Sized? ==> args[i].buf[..] == handler(sent)[i]
    ensures forall i :: 0 <= i < |args| && args[i].Out? ==>
              args[i].ptr.target != null && args[i].ptr.target[..] == handler(sent)[i]
  {
    hide Wire, Message;
    ghost var ps := Parts(args);
    assert Datas(ps) == sent;
    var request := Pack(args);
    var received := NewBuffer(request[..]);
    var slots := Unpack(received, |args|, ps);
    slots := Invoke(received, slots, handler, ps);
    ghost var rs := Answered(ps, handler(sent));
    var reply := Repack(slots, rs);
    var answer := NewBuffer(reply[..]);
    CopyBack(args, answer, rs);
    assert forall i :: 0 <= i < |args| ==> Delivered(args[i], handler(sent)[i]);
  }

  /** The function called directly on the caller's memory. */
  method LocalCall(args: seq<Arg>, handler: seq<seq<Byte>> -> seq<seq<Byte>>, ghost sent: seq<seq<Byte>>)
    requires WellFormed(args)
    requires |sent| == |args|
    requires forall i :: 0 <= i < |args| && args[i].Sized? ==> sent[i] == args[i].buf[..]
    requires forall i :: 0 <= i < |args| && args[i].Out? ==> sent[i] == []
    requires KeepsSizes(sent, handler(sent))
    modifies Buffers(args), Pointers(args)
    ensures forall i :: 0 <= i < |args| && args[i].Sized? ==> args[i].buf[..] == handler(sent)[i]
    ensures forall i :: 0 <= i < |args| && args[i].Out? ==>
              args[i].ptr.target != null && args[i].ptr.target[..] == handler(sent)[i]
  {
    var xs: seq<seq<Byte>> := [];
    for i := 0 to |args|
      invariant xs == sent[..i]
    {
      xs := xs + [if args[i].Sized? then args[i].buf[..] else []];
    }
    assert xs == sent;
    var ys := handler(xs);
    for i := 0 to |args|
      invariant forall j :: 0 <= j < i ==> Delivered(args[j], ys[j])
    {
      match args[i] {
        case Sized(_, buf) =>
          assert |sent[i]| == buf.Length;
          Store(buf, 0, ys[i]);
        case Out(_, ptr) =>
          var mem := NewBuffer(ys[i]);
          ptr.target := mem;
      }
    }
    assert forall i :: 0 <= i < |args| ==> Delivered(args[i], ys[i]);
  }
}
