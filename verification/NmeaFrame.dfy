/** minmea.c: the checksum and the acceptance of a sentence, on bytes. A sentence is a C string:
    reading behind its last byte finds a zero byte. */
module NmeaFrame {
  import opened Wrappers

  type byte = bv8

  const DOLLAR: byte := 0x24
  const STAR: byte := 0x2a
  const CR: byte := 0x0d
  const LF: byte := 0x0a

  /** MINMEA_MAX_LENGTH + 3. */
  const LIMIT: nat := 83

  predicate IsPrint(c: byte) {
    0x20 <= c <= 0x7e
  }

  ghost predicate IsCString(s: seq<byte>) {
    0 !in s
  }

  function At(s: seq<byte>, i: nat): byte {
    if i < |s| then s[i] else 0
  }

  function HexToInt(c: byte): Option<byte> {
    if 0x30 <= c <= 0x39 then Some(c - 0x30)
    else if 0x41 <= c <= 0x46 then Some(c - 0x41 + 10)
    else if 0x61 <= c <= 0x66 then Some(c - 0x61 + 10)
    else None
  }

  const UPPER: seq<byte> :=
    [0x30, 0x31, 0x32, 0x33, 0x34, 0x35, 0x36, 0x37, 0x38, 0x39, 0x41, 0x42, 0x43, 0x44, 0x45, 0x46]
  const LOWER: seq<byte> :=
    [0x30, 0x31, 0x32, 0x33, 0x34, 0x35, 0x36, 0x37, 0x38, 0x39, 0x61, 0x62, 0x63, 0x64, 0x65, 0x66]

  /** A byte reads as n exactly when it is the n-th of the upper-case or of the lower-case digits. */
  lemma HexToIntIs(c: byte, n: byte)
    ensures HexToInt(c) == Some(n) <==> n < 16 && (UPPER[n as nat] == c || LOWER[n as nat] == c)
  {
    if n < 16 {
      var k := n as nat;
      assert k == 0 || k == 1 || k == 2 || k == 3 || k == 4 || k == 5 || k == 6 || k == 7
        || k == 8 || k == 9 || k == 10 || k == 11 || k == 12 || k == 13 || k == 14 || k == 15;
    }
  }

  function Xor(s: seq<byte>): byte {
    if s == [] then 0 else Xor(s[..|s| - 1]) ^ s[|s| - 1]
  }

  /** The XOR of a text is that of its pieces, and the XOR of a single byte is that byte, which
      determines it. */
  lemma {:induction false} XorConcat(a: seq<byte>, b: seq<byte>, c: byte)
    ensures Xor(a + b) == Xor(a) ^ Xor(b)
    ensures Xor([c]) == c && Xor([]) == 0
  {
    assert [c][..0] == [];
    if b == [] {
      assert a + b == a;
    } else {
      var n := |b| - 1;
      assert (a + b)[..|a| + n] == a + b[..n];
      XorConcat(a, b[..n], c);
    }
  }

  /** Exchanging one byte changes the XOR of a text. */
  lemma {:induction false} XorChanges(s: seq<byte>, i: nat, c: byte)
    requires i < |s| && c != s[i]
    ensures Xor(s[i := c]) != Xor(s)
  {
    var n := |s| - 1;
    if i < n {
      assert s[i := c][..n] == s[..n][i := c];
      XorChanges(s[..n], i, c);
      XorLeft(Xor(s[i := c][..n]), Xor(s[..n]), s[n]);
    } else {
      assert s[i := c][..n] == s[..n];
      XorRight(Xor(s[..n]), c, s[n]);
    }
  }

  lemma XorLeft(a: byte, b: byte, c: byte)
    requires a != b
    ensures a ^ c != b ^ c
  {
  }

  lemma XorRight(a: byte, c: byte, d: byte)
    requires c != d
    ensures a ^ c != a ^ d
  {
  }

  // ---- minmea_checksum ---------------------------------------------------------------

  /** The text a checksum covers: from behind an optional $ to a * or the end. */
  function Covered(s: seq<byte>): seq<byte> {
    UpToStar(if s != [] && s[0] == DOLLAR then s[1..] else s)
  }

  function UpToStar(s: seq<byte>): seq<byte> {
    if s == [] || s[0] == STAR then [] else [s[0]] + UpToStar(s[1..])
  }

  lemma {:induction false} UpToStarIs(s: seq<byte>, k: nat)
    requires k <= |s| && STAR !in s[..k] && (k == |s| || s[k] == STAR)
    ensures UpToStar(s) == s[..k]
  {
    if k > 0 {
      assert s[1..][..k - 1] == s[..k][1..];
      UpToStarIs(s[1..], k - 1);
    }
  }

  /** With or without a $ before it, and with or without a * and anything else behind it, a text
      without a * is what is covered. */
  lemma CoversText(text: seq<byte>, rest: seq<byte>)
    requires STAR !in text && (text == [] || text[0] != DOLLAR)
    ensures Covered([0x24] + text) == Covered([0x24] + text + [0x2a] + rest) == text
    ensures Covered(text) == Covered(text + [0x2a] + rest) == text
  {
    UpToStarIs(text, |text|);
    assert text[..|text|] == text == (text + [0x2a] + rest)[..|text|];
    UpToStarIs(text + [0x2a] + rest, |text|);
    assert ([0x24] + text)[1..] == text;
    assert ([0x24] + text + [0x2a] + rest)[1..] == text + [0x2a] + rest;
  }

  lemma XorNext(s: seq<byte>, start: nat, i: nat)
    requires start <= i < |s|
    ensures Xor(s[start..i + 1]) == Xor(s[start..i]) ^ s[i]
  {
    assert s[start..i + 1][..i - start] == s[start..i];
  }

  lemma PieceOf(s: seq<byte>, start: nat, i: nat)
    requires start <= i <= |s|
    ensures s[start..][..i - start] == s[start..i]
  {
  }

  method Checksum(s: seq<byte>) returns (checksum: byte)
    requires IsCString(s)
    ensures checksum == Xor(Covered(s))
  {
    var start := if At(s, 0) == DOLLAR then 1 else 0;
    var i := start;
    checksum := 0;
    while At(s, i) != 0 && At(s, i) != STAR
      invariant start <= i <= |s| && checksum == Xor(s[start..i])
      invariant forall k :: start <= k < i ==> s[k] != STAR
      decreases |s| - i
    {
      XorNext(s, start, i);
      checksum := checksum ^ s[i];
      i := i + 1;
    }
    PieceOf(s, start, i);
    UpToStarIs(s[start..], i - start);
  }

  // ---- minmea_check --------------------------------------------------------------------

  predicate Legal(c: byte) {
    IsPrint(c) && c != STAR
  }

  ghost predicate IsBody(body: seq<byte>) {
    forall i :: 0 <= i < |body| ==> Legal(body[i])
  }

  predicate IsEnding(tail: seq<byte>) {
    tail == [] || tail == [LF] || tail == [CR, LF]
  }

  /** The checksum field, two hexadecimal digits of either case, for a given value. */
  predicate IsField(u: byte, l: byte, sum: byte) {
    HexToInt(u).Some? && HexToInt(l).Some? && (HexToInt(u).value << 4) | HexToInt(l).value == sum
  }

  ghost predicate Checksummed(s: seq<byte>, body: seq<byte>, u: byte, l: byte, tail: seq<byte>) {
    s == [DOLLAR] + body + [STAR, u, l] + tail && IsBody(body) && IsField(u, l, Xor(body)) && IsEnding(tail)
  }

  ghost predicate Bare(s: seq<byte>, body: seq<byte>, tail: seq<byte>) {
    s == [DOLLAR] + body + tail && IsBody(body) && IsEnding(tail)
  }

  /** The sentences accepted: $, a printable body, then the checksum field, which only strict
      mode demands, and at most a line end; no more than 83 bytes in all. */
  ghost predicate Accepted(s: seq<byte>, strict: bool) {
    |s| <= LIMIT &&
    ((exists body, u, l, tail :: Checksummed(s, body, u, l, tail)) || (!strict && exists body, tail :: Bare(s, body, tail)))
  }

  /** The body of a sentence is the longest one possible, so it is unique. */
  lemma BodyUnique(s: seq<byte>, k: nat, body: seq<byte>, rest: seq<byte>)
    requires 1 <= k <= |s| && IsBody(s[1..k]) && !Legal(At(s, k))
    requires s == [DOLLAR] + body + rest && IsBody(body) && !Legal(At(rest, 0))
    ensures body == s[1..k] && rest == s[k..]
  {
    assert forall i :: 1 <= i < k ==> s[i] == s[1..k][i - 1];
    assert 1 + |body| < |s| ==> s[1 + |body|] == At(rest, 0);
    assert 1 + |body| == k;
    assert body == s[1..k];
  }

  /** What may follow the longest body, at position k, when its bytes XOR to sum. */
  predicate GoodEnd(s: seq<byte>, strict: bool, k: nat, sum: byte)
    requires k <= |s|
  {
    if At(s, k) == STAR then
      k + 3 <= |s| && IsField(s[k + 1], s[k + 2], sum) && IsEnding(s[k + 3..])
    else
      !strict && IsEnding(s[k..])
  }

  lemma AcceptedHasGoodEnd(s: seq<byte>, strict: bool, k: nat)
    requires 1 <= k <= |s| && IsBody(s[1..k]) && !Legal(At(s, k)) && Accepted(s, strict)
    ensures GoodEnd(s, strict, k, Xor(s[1..k]))
  {
    if body, u, l, tail :| Checksummed(s, body, u, l, tail) {
      var rest := [STAR, u, l] + tail;
      assert s == [DOLLAR] + body + rest;
      BodyUnique(s, k, body, rest);
      assert s[k] == rest[0] && s[k + 1] == rest[1] && s[k + 2] == rest[2] && s[k + 3..] == rest[3..] == tail;
    } else {
      var body, tail :| Bare(s, body, tail);
      BodyUnique(s, k, body, tail);
    }
  }

  lemma GoodEndIsAccepted(s: seq<byte>, strict: bool, k: nat)
    requires |s| <= LIMIT && 1 <= k <= |s| && s[0] == DOLLAR && IsBody(s[1..k])
    requires GoodEnd(s, strict, k, Xor(s[1..k]))
    ensures Accepted(s, strict)
  {
    hide Xor, IsBody, IsField, IsEnding;
    if At(s, k) == STAR {
      assert s == [DOLLAR] + s[1..k] + [STAR, s[k + 1], s[k + 2]] + s[k + 3..];
      assert Checksummed(s, s[1..k], s[k + 1], s[k + 2], s[k + 3..]);
    } else {
      assert s == [DOLLAR] + s[1..k] + s[k..];
      assert Bare(s, s[1..k], s[k..]);
    }
  }

  lemma AcceptedIsGoodEnd(s: seq<byte>, strict: bool, k: nat)
    requires |s| <= LIMIT && 1 <= k <= |s| && s[0] == DOLLAR
    requires IsBody(s[1..k]) && !Legal(At(s, k))
    ensures Accepted(s, strict) <==> GoodEnd(s, strict, k, Xor(s[1..k]))
  {
    hide *;
    if Accepted(s, strict) {
      AcceptedHasGoodEnd(s, strict, k);
    }
    if GoodEnd(s, strict, k, Xor(s[1..k])) {
      GoodEndIsAccepted(s, strict, k);
    }
  }

  /** minmea_check from the end of the body on. */
  method CheckEnd(s: seq<byte>, strict: bool, k: nat, checksum: byte) returns (ok: bool)
    requires IsCString(s) && k <= |s|
    ensures ok <==> GoodEnd(s, strict, k, checksum)
  {
    var i := k;
    if At(s, i) == STAR {
      i := i + 1;
      var upper := HexToInt(At(s, i));
      if upper.None? {
        return false;
      }
      i := i + 1;
      var lower := HexToInt(At(s, i));
      if lower.None? {
        return false;
      }
      i := i + 1;
      if checksum != (upper.value << 4) | lower.value {
        return false;
      }
    } else if strict {
      return false;
    }
    ok := IsEnding(s[i..]);
  }

  method Check(s: seq<byte>, strict: bool) returns (ok: bool)
    requires IsCString(s)
    ensures ok <==> Accepted(s, strict)
  {
    if |s| > LIMIT {
      return false;
    }
    if At(s, 0) != DOLLAR {
      return false;
    }
    var i := 1;
    var checksum: byte := 0;
    while At(s, i) != 0 && At(s, i) != STAR && IsPrint(At(s, i))
      invariant 1 <= i <= |s| && checksum == Xor(s[1..i])
      invariant forall k :: 1 <= k < i ==> Legal(s[k])
      decreases |s| - i
    {
      XorNext(s, 1, i);
      checksum := checksum ^ s[i];
      i := i + 1;
    }
    AcceptedIsGoodEnd(s, strict, i);
    ok := CheckEnd(s, strict, i, checksum);
  }

  // ---- what is accepted, byte for byte -----------------------------------------------------

  /** A field of either case is good exactly when its digits are those of the sum. */
  lemma FieldIs(u: byte, l: byte, sum: byte)
    ensures sum >> 4 < 16 && sum & 0xf < 16
    ensures IsField(u, l, sum) <==>
              (u == UPPER[(sum >> 4) as nat] || u == LOWER[(sum >> 4) as nat])
              && (l == UPPER[(sum & 0xf) as nat] || l == LOWER[(sum & 0xf) as nat])
  {
    hide HexToInt;
    NibblesJoin(sum);
    HexToIntIs(u, sum >> 4);
    HexToIntIs(l, sum & 0xf);
    if IsField(u, l, sum) {
      HexToIntIs(u, HexToInt(u).value);
      HexToIntIs(l, HexToInt(l).value);
      NibblesPart(HexToInt(u).value, HexToInt(l).value);
    }
  }

  lemma NibblesPart(hi: byte, lo: byte)
    requires hi < 16 && lo < 16
    ensures ((hi << 4) | lo) >> 4 == hi && ((hi << 4) | lo) & 0xf == lo
  {
  }

  lemma NotASentence(s: seq<byte>, strict: bool)
    requires |s| > 83 || s == [] || s[0] != 0x24
    ensures !Accepted(s, strict)
  {
  }

  /** A sentence with a checksum field passes, in either mode, exactly when the field is that of
      its body, nothing but a line end follows and it has at most 83 bytes. */
  lemma FieldDecides(body: seq<byte>, u: byte, l: byte, tail: seq<byte>, strict: bool)
    requires IsBody(body)
    ensures Accepted([0x24] + body + [0x2a, u, l] + tail, strict)
       <==> |body| + 4 + |tail| <= 83 && IsField(u, l, Xor(body))
            && (tail == [] || tail == [0x0a] || tail == [0x0d, 0x0a])
  {
    hide Xor, IsField, Accepted;
    var s, k := [0x24] + body + [0x2a, u, l] + tail, 1 + |body|;
    assert |s| == |body| + 4 + |tail| && s[0] == DOLLAR;
    assert s[1..k] == body && s[k] == STAR && s[k + 1] == u && s[k + 2] == l && s[k + 3..] == tail;
    if |s| > LIMIT {
      NotASentence(s, strict);
    }
    if |s| <= LIMIT {
      AcceptedIsGoodEnd(s, strict, k);
    }
  }

  /** One without passes exactly in lax mode, under the same conditions. */
  lemma BareDecides(body: seq<byte>, tail: seq<byte>, strict: bool)
    requires IsBody(body) && (tail == [] || !IsPrint(tail[0]))
    ensures Accepted([0x24] + body + tail, strict)
       <==> !strict && 1 + |body| + |tail| <= 83 && (tail == [] || tail == [0x0a] || tail == [0x0d, 0x0a])
  {
    hide Xor, IsField, Accepted;
    var s, k := [0x24] + body + tail, 1 + |body|;
    if |s| > LIMIT {
      NotASentence(s, strict);
    }
    assert s[1..k] == body && s[k..] == tail && At(s, k) == At(tail, 0);
    if |s| <= LIMIT {
      AcceptedIsGoodEnd(s, strict, k);
    }
  }

  /** Any printable byte but * may stand in a body, and no other. */
  lemma BodyByte(c: byte, u: byte, l: byte, strict: bool)
    ensures Accepted([0x24, c, 0x2a, u, l], strict) <==> 0x20 <= c <= 0x7e && c != 0x2a && IsField(u, l, c)
  {
    hide IsField, Xor;
    var s := [0x24, c, 0x2a, u, l];
    if Legal(c) {
      XorConcat([], [], c);
      assert s == [0x24] + [c] + [0x2a, u, l] + [];
      FieldDecides([c], u, l, [], strict);
    } else {
      assert s[1..1] == [];
      AcceptedIsGoodEnd(s, strict, 1);
      StarIsNoDigit(u, Xor(s[1..1]));
    }
  }

  lemma StarIsNoDigit(l: byte, sum: byte)
    ensures !IsField(0x2a, l, sum)
  {
  }

  /** "$A*41", and "$J*4a" with its field in either case and a line end. */
  lemma Examples(strict: bool)
    ensures Accepted([0x24, 0x41, 0x2a, 0x34, 0x31], strict)
    ensures Accepted([0x24, 0x4a, 0x2a, 0x34, 0x61, 0x0a], strict)
    ensures Accepted([0x24, 0x4a, 0x2a, 0x34, 0x41, 0x0d, 0x0a], strict)
    ensures !Accepted([0x24, 0x41, 0x2a, 0x34, 0x32], strict)
  {
    BodyByte(0x41, 0x34, 0x31, strict);
    BodyByte(0x41, 0x34, 0x32, strict);
    XorConcat([], [], 0x4a);
    hide Accepted, Xor;
    var lower: seq<byte> := [0x24, 0x4a, 0x2a, 0x34, 0x61, 0x0a];
    var upper: seq<byte> := [0x24, 0x4a, 0x2a, 0x34, 0x41, 0x0d, 0x0a];
    assert lower == [0x24] + [0x4a] + [0x2a, 0x34, 0x61] + [0x0a];
    assert upper == [0x24] + [0x4a] + [0x2a, 0x34, 0x41] + [0x0d, 0x0a];
    FieldDecides([0x4a], 0x34, 0x61, [0x0a], strict);
    FieldDecides([0x4a], 0x34, 0x41, [0x0d, 0x0a], strict);
  }

  // ---- framing and error detection -------------------------------------------------------

  function HexDigit(n: byte): (c: byte)
    requires n < 16
    ensures HexToInt(c) == Some(n) && c != STAR && c != 0
  {
    if n < 10 then 0x30 + n else 0x41 + (n - 10)
  }

  /** The sentence section 5.3 of NMEA 0183 prescribes for a body. */
  function Frame(body: seq<byte>): seq<byte> {
    [DOLLAR] + body + [STAR, HexDigit(Xor(body) >> 4), HexDigit(Xor(body) & 0xf)]
  }

  lemma NibblesJoin(b: byte)
    ensures b >> 4 < 16 && b & 0xf < 16 && ((b >> 4) << 4) | (b & 0xf) == b
  {
  }

  /** Framing a body makes a sentence that both modes accept exactly when it fits, and whose
      checksum, taken over the frame or over the body alone, is the one in the frame. */
  lemma FramingRoundTrip(body: seq<byte>, strict: bool)
    requires IsBody(body)
    ensures Accepted(Frame(body), strict) <==> |body| + 4 <= 83
    ensures Covered(Frame(body)) == body
  {
    var s := Frame(body);
    var k := 1 + |body|;
    assert s[1..k] == body && s[k] == STAR;
    NibblesJoin(Xor(body));
    assert s[k + 3..] == [];
    if |s| <= LIMIT {
      AcceptedIsGoodEnd(s, strict, k);
    }
    assert s[1..][..|body|] == body && s[1..][|body|] == STAR;
    assert STAR !in body;
    UpToStarIs(s[1..], |body|);
  }

  /** Changing one byte of the body of an accepted sentence with a checksum, to another byte a
      body may hold, makes both modes reject it. */
  lemma SingleErrorDetected(s: seq<byte>, body: seq<byte>, u: byte, l: byte, tail: seq<byte>, i: nat, c: byte, strict: bool)
    requires Checksummed(s, body, u, l, tail) && i < |body| && Legal(c) && c != body[i]
    ensures !Accepted(s[1 + i := c], strict)
  {
    var t := s[1 + i := c];
    var k := 1 + |body|;
    assert s[k] == STAR && s[k + 1] == u && s[k + 2] == l;
    assert t[1..k] == body[i := c];
    XorChanges(body, i, c);
    if |t| <= LIMIT {
      assert Legal(body[0]);
      AcceptedIsGoodEnd(t, strict, k);
    }
  }
}
