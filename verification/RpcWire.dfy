/** The layout of an RPC message: arguments one after another, each a header (a length and a
    reference, both 64-bit) followed by its bytes. */
module RpcWire {

  type Byte = b: int | 0 <= b < 256

  const LONG_LIMIT: nat := 0x1_0000_0000_0000_0000

  /** A 64-bit word. */
  type Long = x: int | 0 <= x < LONG_LIMIT

  /** RPC_ARG_SIZE. */
  const HEADER: nat := 16

  // ---- little-endian words --------------------------------------------------------------

  function Encode(x: nat, k: nat): (s: seq<Byte>)
    ensures |s| == k
  {
    if k == 0 then [] else [x % 256] + Encode(x / 256, k - 1)
  }

  function Decode(s: seq<Byte>): (x: nat)
  {
    if s == [] then 0 else s[0] + 256 * Decode(s[1..])
  }

  function Limit(k: nat): nat {
    if k == 0 then 1 else 256 * Limit(k - 1)
  }

  lemma {:induction false} DecodeEncode(x: nat, k: nat)
    requires x < Limit(k)
    ensures Decode(Encode(x, k)) == x
  {
    if k > 0 {
      DecodeEncode(x / 256, k - 1);
      assert Encode(x, k)[1..] == Encode(x / 256, k - 1);
    }
  }

  function Word(x: Long): (s: seq<Byte>)
    ensures |s| == 8
  {
    Encode(x, 8)
  }

  lemma WordRoundTrip(x: Long)
    ensures Decode(Word(x)) == x
  {
    assert Limit(8) == LONG_LIMIT;
    DecodeEncode(x, 8);
  }

  // ---- messages -----------------------------------------------------------------------------

  /** One argument of a message. */
  datatype Part = Part(ref: Long, data: seq<Byte>)

  /** The lengths fit the header, and the whole message fits the int offsets of the loops. */
  ghost predicate Fits(ps: seq<Part>) {
    |Message(ps)| < 0x8000_0000
  }

  function Length(p: Part): Long {
    if |p.data| < LONG_LIMIT then |p.data| else 0
  }

  function Wire(p: Part): (s: seq<Byte>)
    ensures |s| == HEADER + |p.data|
  {
    Word(Length(p)) + Word(p.ref) + p.data
  }

  function Message(ps: seq<Part>): seq<Byte> {
    if ps == [] then [] else Message(ps[..|ps| - 1]) + Wire(ps[|ps| - 1])
  }

  /** Where argument i starts: every loop of the protocol walks these offsets. */
  function Offset(ps: seq<Part>, i: nat): nat
    requires i <= |ps|
  {
    |Message(ps[..i])|
  }

  lemma OffsetStep(ps: seq<Part>, i: nat)
    requires i < |ps|
    ensures Message(ps[..i + 1]) == Message(ps[..i]) + Wire(ps[i])
    ensures Offset(ps, i + 1) == Offset(ps, i) + HEADER + |ps[i].data|
    ensures Offset(ps, 0) == 0 && Offset(ps, |ps|) == |Message(ps)|
  {
    assert ps[..i + 1][..i] == ps[..i];
    assert ps[..|ps|] == ps && ps[..0] == [];
  }

  lemma {:induction false} PrefixOfMessage(ps: seq<Part>, i: nat)
    requires i <= |ps|
    ensures Offset(ps, i) <= |Message(ps)| && Message(ps)[..Offset(ps, i)] == Message(ps[..i])
    decreases |ps| - i
  {
    if i < |ps| {
      PrefixOfMessage(ps, i + 1);
      OffsetStep(ps, i);
      assert Message(ps)[..Offset(ps, i + 1)][..Offset(ps, i)] == Message(ps[..i]);
    } else {
      assert ps[..i] == ps;
    }
  }

  lemma SubSlice<T>(s: seq<T>, a: nat, b: nat, c: nat, d: nat)
    requires a <= b <= |s| && c <= d <= b - a
    ensures s[a..b][c..d] == s[a + c..a + d]
  {
    var x, y := s[a..b][c..d], s[a + c..a + d];
    forall i | 0 <= i < d - c
      ensures x[i] == y[i]
    {
      assert x[i] == s[a..b][c + i] == s[a + (c + i)];
    }
  }

  lemma WireOfArgument(ps: seq<Part>, i: nat)
    requires i < |ps|
    ensures Offset(ps, i) + |Wire(ps[i])| == Offset(ps, i + 1) <= |Message(ps)|
    ensures Message(ps)[Offset(ps, i)..Offset(ps, i + 1)] == Wire(ps[i])
  {
    var o, o' := Offset(ps, i), Offset(ps, i + 1);
    OffsetStep(ps, i);
    PrefixOfMessage(ps, i + 1);
    SubSlice(Message(ps), 0, o', o, o');
    assert Message(ps[..i + 1])[o..] == Wire(ps[i]);
  }

  /** The memory from o on starts with argument p. */
  ghost predicate Holds(m: seq<Byte>, o: nat, p: Part) {
    |p.data| < LONG_LIMIT && o + |Wire(p)| <= |m| && m[o..o + |Wire(p)|] == Wire(p)
  }

  /** What the header fields and the bytes of an argument read as. */
  lemma ReadArgument(m: seq<Byte>, o: nat, p: Part)
    requires Holds(m, o, p)
    ensures o + HEADER + |p.data| <= |m|
    ensures Decode(m[o..o + 8]) == |p.data|
    ensures m[o + 8..o + HEADER] == Word(p.ref)
    ensures m[o + HEADER..o + HEADER + |p.data|] == p.data
  {
    hide Word;
    var e := o + |Wire(p)|;
    SubSlice(m, o, e, 0, 8);
    SubSlice(m, o, e, 8, 16);
    SubSlice(m, o, e, 16, e - o);
    assert Wire(p)[..8] == Word(Length(p)) && Wire(p)[8..16] == Word(p.ref) && Wire(p)[16..] == p.data;
    WordRoundTrip(Length(p));
  }

  /** Every argument of a message is held at its offset. */
  lemma ArgumentAt(ps: seq<Part>, i: nat)
    requires i < |ps| && Fits(ps)
    ensures Holds(Message(ps), Offset(ps, i), ps[i])
    ensures Offset(ps, i) + HEADER + |ps[i].data| == Offset(ps, i + 1) <= |Message(ps)|
  {
    WireOfArgument(ps, i);
  }

  lemma {:induction false} MessageConcat(a: seq<Part>, b: seq<Part>)
    ensures Message(a + b) == Message(a) + Message(b)
  {
    if b == [] {
      assert a + b == a;
    } else {
      var n := |b| - 1;
      assert (a + b)[..|a + b| - 1] == a + b[..n];
      MessageConcat(a, b[..n]);
      assert Message(a) + Message(b[..n]) + Wire(b[n]) == Message(a) + (Message(b[..n]) + Wire(b[n]));
    }
  }

  lemma MessageSplit(ps: seq<Part>, i: nat)
    requires i < |ps|
    ensures Message(ps) == Message(ps[..i]) + Wire(ps[i]) + Message(ps[i + 1..])
  {
    assert ps == ps[..i + 1] + ps[i + 1..];
    MessageConcat(ps[..i + 1], ps[i + 1..]);
    OffsetStep(ps, i);
  }

  /** Overwriting argument i by one of the same size moves no offset. */
  lemma OffsetUpdate(ps: seq<Part>, i: nat, p: Part, j: nat)
    requires i < |ps| && j <= |ps| && |p.data| == |ps[i].data|
    ensures Offset(ps[i := p], j) == Offset(ps, j)
  {
    var qs := ps[i := p];
    if j <= i {
      assert qs[..j] == ps[..j];
    } else {
      MessageSplit(ps[..j], i);
      MessageSplit(qs[..j], i);
      assert ps[..j][..i] == qs[..j][..i] && ps[..j][i + 1..] == qs[..j][i + 1..];
    }
  }

  /** Overwriting argument i in place by one of the same size changes the message there only. */
  lemma MessageUpdate(ps: seq<Part>, i: nat, p: Part)
    requires i < |ps| && |p.data| == |ps[i].data|
    ensures Offset(ps, i) <= Offset(ps, i + 1) <= |Message(ps)|
    ensures Message(ps[i := p]) == Message(ps)[..Offset(ps, i)] + Wire(p) + Message(ps)[Offset(ps, i + 1)..]
  {
    var qs := ps[i := p];
    MessageSplit(ps, i);
    MessageSplit(qs, i);
    assert ps[..i] == qs[..i] && ps[i + 1..] == qs[i + 1..];
    WireOfArgument(ps, i);
    PrefixOfMessage(ps, i);
    assert Message(ps)[Offset(ps, i + 1)..] == Message(ps[i + 1..]);
  }
}
