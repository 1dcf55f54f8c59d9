/** ringbuf.c: a byte queue in a circular buffer of fixed size. */
module RingBuf {
  import opened Wrappers

  const MAX: nat := 1024

  type byte = bv8

  function Min(a: int, b: int): (c: int)
    ensures c <= a && c <= b && (c == a || c == b)
  {
    if a < b then a else b
  }

  /** How many bytes a write of n bytes accepts, with held bytes in the buffer. */
  function Accepts(held: nat, n: int): nat
    requires held <= MAX
  {
    if n <= 0 then 0 else Min(n, MAX - held)
  }

  /** How many bytes a read of n bytes delivers: no more than are held, and also no more than
      there is free space. */
  function Delivers(held: nat, n: int): nat
    requires held <= MAX
  {
    if n <= 0 then 0 else Min(Min(n, MAX - held), held)
  }

  /** memcpy between different buffers. */
  method Copy(dst: array<byte>, d: nat, src: array<byte>, s: nat, n: nat)
    requires dst != src && d + n <= dst.Length && s + n <= src.Length
    modifies dst
    ensures dst[..] == old(dst[..d]) + src[s..s + n] + old(dst[d + n..])
  {
    forall i | 0 <= i < n {
      dst[d + i] := src[s + i];
    }
  }

  // ---- the queue as a sequence ------------------------------------------------------------

  /** The size bytes from place r, around the buffer. */
  function Ring(b: seq<byte>, r: nat, size: nat): (s: seq<byte>)
    requires |b| == MAX && r < MAX && size <= MAX
    ensures |s| == size
  {
    if r + size <= MAX then b[r..r + size] else b[r..] + b[..r + size - MAX]
  }

  function Wrap(p: nat): nat {
    if p < MAX then p else p - MAX
  }

  lemma RingAt(b: seq<byte>, r: nat, size: nat, i: nat)
    requires |b| == MAX && r < MAX && i < size <= MAX
    ensures Ring(b, r, size)[i] == b[Wrap(r + i)]
  {
  }

  /** Taking n bytes off the front moves the read cursor by n. */
  lemma RingFront(b: seq<byte>, r: nat, size: nat, n: nat)
    requires |b| == MAX && r < MAX && n <= size <= MAX && n < MAX
    ensures Ring(b, r, size) == Ring(b, r, n) + Ring(b, Wrap(r + n), size - n)
  {
    hide Ring;
    var whole, front, back := Ring(b, r, size), Ring(b, r, n), Ring(b, Wrap(r + n), size - n);
    forall i | 0 <= i < size
      ensures whole[i] == (front + back)[i]
    {
      RingAt(b, r, size, i);
      if i < n {
        RingAt(b, r, n, i);
      } else {
        RingAt(b, Wrap(r + n), size - n, i - n);
      }
    }
  }

  /** b' is b with data written from place w on, around the buffer. */
  ghost predicate Written(b: seq<byte>, b': seq<byte>, w: nat, data: seq<byte>) {
    && |b| == |b'| == MAX && w < MAX && |data| <= MAX
    && b' == if w + |data| <= MAX then b[..w] + data + b[w + |data|..]
             else data[MAX - w..] + b[w + |data| - MAX..w] + data[..MAX - w]
  }

  /** Writing at the end of the queue, into free space, appends. */
  lemma RingBack(b: seq<byte>, b': seq<byte>, r: nat, size: nat, data: seq<byte>)
    requires r < MAX && size + |data| <= MAX && |b| == |b'| == MAX && Written(b, b', Wrap(r + size), data)
    ensures Ring(b', r, size + |data|) == Ring(b, r, size) + data
  {
    hide Ring, Written;
    var after, before := Ring(b', r, size + |data|), Ring(b, r, size);
    forall i | 0 <= i < size + |data|
      ensures after[i] == (before + data)[i]
    {
      RingAt(b', r, size + |data|, i);
      if i < size {
        RingAt(b, r, size, i);
        WrittenElsewhere(b, b', Wrap(r + size), data, r, size, i);
      } else {
        WrittenAt(b, b', Wrap(r + size), data, i - size);
      }
    }
  }

  lemma WrittenAt(b: seq<byte>, b': seq<byte>, w: nat, data: seq<byte>, i: nat)
    requires Written(b, b', w, data) && i < |data|
    ensures b'[Wrap(w + i)] == data[i]
  {
  }

  lemma WrittenElsewhere(b: seq<byte>, b': seq<byte>, w: nat, data: seq<byte>, r: nat, size: nat, i: nat)
    requires Written(b, b', w, data) && r < MAX && w == Wrap(r + size) && i < size && size + |data| <= MAX
    ensures b'[Wrap(r + i)] == b[Wrap(r + i)]
  {
  }

  class RingBuffer {
    const buffer: array<byte>
    var size: int
    var r: int
    var w: int

    /** The write cursor is the read cursor plus the size, around the buffer. */
    ghost predicate Valid()
      reads this
    {
      buffer.Length == MAX && 0 <= size <= MAX && 0 <= r < MAX && 0 <= w < MAX && w == Wrap(r + size)
    }

    ghost function Contents(): (s: seq<byte>)
      requires Valid()
      reads this, buffer
      ensures |s| == size
    {
      Ring(buffer[..], r, size)
    }

    constructor ()
      ensures Valid() && Contents() == [] && fresh(buffer)
    {
      buffer := new byte[MAX];
      size, r, w := 0, 0, 0;
    }

    /** ringbuf_r_offset: the place offset bytes after the read cursor. */
    function ROffset(offset: int): Option<int>
      reads this
    {
      if offset < 0 then None else
      var o := if offset >= MAX then offset - MAX else offset;
      var p := if o > size then size else o;
      Some(if r + p < MAX then r + p else r + p - MAX)
    }

    /** ringbuf_w_offset. */
    function WOffset(offset: int): Option<int>
      reads this
    {
      if offset < 0 then None else
      var o := if offset >= MAX then offset - MAX else offset;
      Some(if w + o < MAX then w + o else w + o - MAX)
    }

    /** ringbuf_find: the first place of a byte in the queue, or -1. */
    method Find(separator: byte) returns (at: int)
      requires Valid()
      ensures -1 <= at < size
      ensures at >= 0 ==> Contents()[at] == separator && separator !in Contents()[..at]
      ensures at == -1 ==> separator !in Contents()
    {
      for i := 0 to size
        invariant separator !in Contents()[..i]
      {
        RingAt(buffer[..], r, size, i);
        if buffer[ROffset(i).value] == separator {
          return i;
        }
      }
      at := -1;
    }

    lemma Pieces(front: seq<byte>, before: seq<byte>, after: seq<byte>, n: nat)
      requires |front| <= n <= |before| && after == front + before[|front|..]
      ensures after[..|front|] == front && after[n..] == before[n..]
    {
    }

    /** The copying part of ringbuf_read, in one or two pieces. */
    method CopyOut(buf: array<byte>, n: nat)
      requires buffer.Length == MAX && 0 <= r < MAX && n <= MAX && buf != buffer && n <= buf.Length
      modifies buf
      ensures buf[..] == Ring(buffer[..], r, n) + old(buf[n..])
    {
      if r + n > MAX {
        var part := MAX - r;
        ghost var before := buf[..];
        Copy(buf, 0, buffer, r, part);
        Pieces(buffer[r..], before, buf[..], n);
        Copy(buf, part, buffer, 0, n - part);
      } else {
        Copy(buf, 0, buffer, r, n);
      }
    }

    /** ringbuf_read. */
    method Read(buf: array<byte>, size: int) returns (n: int)
      requires Valid() && buf != buffer && size <= buf.Length
      modifies this, buf
      ensures Valid() && n == Delivers(old(this.size), size)
      ensures size <= 0 ==> n == 0
      ensures size > 0 ==> 0 <= n <= size && n <= old(|Contents()|) && n <= 1024 - old(|Contents()|)
      ensures size > 0 ==> n == size || n == old(|Contents()|) || n == 1024 - old(|Contents()|)
      ensures buf[..] == old(Contents())[..n] + old(buf[n..])
      ensures Contents() == old(Contents())[n..]
    {
      hide Ring;
      if size <= 0 {
        return 0;
      }
      n := size;
      if n > MAX - this.size {
        n := MAX - this.size;
      }
      if n > this.size {
        n := this.size;
      }
      RingFront(buffer[..], r, this.size, n);
      CopyOut(buf, n);
      r := ROffset(n).value;
      this.size := this.size - n;
    }

    /** The copying part of ringbuf_write, in one or two pieces. */
    method CopyIn(buf: array<byte>, n: nat)
      requires buffer.Length == MAX && 0 <= w < MAX && n < MAX && buf != buffer && n <= buf.Length
      modifies buffer
      ensures Written(old(buffer[..]), buffer[..], w, buf[..n])
    {
      if w + n <= MAX {
        Copy(buffer, w, buf, 0, n);
      } else {
        var part := MAX - w;
        Copy(buffer, w, buf, 0, part);
        Copy(buffer, 0, buf, part, n - part);
      }
    }

    /** ringbuf_write, for less than a whole buffer at a time. */
    method Write(buf: array<byte>, size: int) returns (n: int)
      requires Valid() && buf != buffer && size <= buf.Length && size < MAX
      modifies this, buffer
      ensures Valid() && n == Accepts(old(this.size), size)
      ensures size <= 0 ==> n == 0
      ensures size > 0 ==> 0 <= n <= size && (n == size || |Contents()| == 1024)
      ensures Contents() == old(Contents()) + buf[..n]
    {
      hide Ring, Written;
      if size <= 0 {
        return 0;
      }
      n := size;
      if this.size + n > MAX {
        n := MAX - this.size;
      }
      CopyIn(buf, n);
      RingBack(old(buffer[..]), buffer[..], r, this.size, buf[..n]);
      w := WOffset(n).value;
      this.size := this.size + n;
    }
  }
}
