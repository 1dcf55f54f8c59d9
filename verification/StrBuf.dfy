/** str.c: strings with a length in front and a capacity, changed in place or moved to a larger
    buffer. Arguments that are C strings are given by their characters, without the zero. */
module StrBuf {
  import opened Wrappers
  import Strings

  const NUL: char := '\0'

  /** DEFAULT_STRING_LEN. */
  const MIN_CAPACITY: int := 64

  ghost predicate IsCString(s: string) {
    NUL !in s
  }

  function Zeros(n: nat): (z: string)
    ensures |z| == n
  {
    seq(n, _ => NUL)
  }

  /** memcpy. */
  method Memcpy(dst: array<char>, at: nat, src: string)
    requires at + |src| <= dst.Length
    modifies dst
    ensures dst[..] == old(dst[..at]) + src + old(dst[at + |src|..])
  {
    forall k | 0 <= k < |src| {
      dst[at + k] := src[k];
    }
  }

  /** strcpy. */
  method Strcpy(dst: array<char>, at: nat, src: string)
    requires at + |src| < dst.Length
    modifies dst
    ensures dst[..at + |src|] == old(dst[..at]) + src && dst[at + |src|] == NUL
    ensures forall k :: at + |src| < k < dst.Length ==> dst[k] == old(dst[k])
  {
    Memcpy(dst, at, src);
    assert dst[..at + |src|] == old(dst[..at]) + src;
    assert forall k :: at + |src| <= k < dst.Length ==> dst[..][k] == old(dst[at + |src|..])[k - at - |src|];
    dst[at + |src|] := NUL;
  }

  method Memcpy3(dst: array<char>, a: string, b: string, c: string)
    requires |a| + |b| + |c| <= dst.Length
    modifies dst
    ensures dst[..|a| + |b| + |c|] == a + b + c
  {
    Memcpy(dst, 0, a);
    assert dst[..|a|] == a;
    Memcpy(dst, |a|, b);
    assert dst[..|a| + |b|] == a + b;
    Memcpy(dst, |a| + |b|, c);
  }

  function Larger(a: int, b: int): (c: int)
    ensures c >= a && c >= b && (c == a || c == b)
  {
    if a < b then b else a
  }

  function Smaller(a: int, b: int): (c: int)
    ensures c <= a && c <= b && (c == a || c == b)
  {
    if a < b then a else b
  }

  class StrBuf {
    var capacity: nat
    var length: nat
    var buf: array<char>

    ghost predicate Shaped()
      reads this
    {
      MIN_CAPACITY <= capacity && buf.Length == capacity + 1 && length <= capacity
    }

    ghost predicate Valid()
      reads this, buf
    {
      Shaped() && buf[length] == NUL
    }

    ghost function Contents(): (s: string)
      requires Shaped()
      reads this, buf
    {
      buf[..length]
    }

    ghost predicate Holds(text: string)
      reads this, buf
    {
      Valid() && Contents() == text
    }

    /** str_new__len. */
    constructor WithLength(len: int)
      ensures Valid() && fresh(buf) && Contents() == "" && capacity == Larger(len, 64)
      ensures buf[..] == Zeros(capacity + 1)
    {
      var n: nat := Larger(len, MIN_CAPACITY);
      capacity := n;
      length := 0;
      buf := new char[n + 1](_ => NUL);
    }

    /** str_new__cstr2: the first len characters of a C string, or all of it. */
    constructor FromPrefix(cstr: string, len: nat)
      requires IsCString(cstr)
      ensures Holds(cstr[..Smaller(len, |cstr|)]) && fresh(buf)
    {
      var size: nat := Smaller(len, |cstr|);
      var n: nat := Larger(size, MIN_CAPACITY);
      capacity := n;
      length := 0;
      buf := new char[n + 1](_ => NUL);
      new;
      Memcpy(buf, 0, cstr[..size]);
      Resize(size);
    }

    /** str_realloc: a larger buffer, the string copied and the rest zero. */
    method Realloc(size: int)
      requires Shaped()
      modifies this`capacity, this`buf
      ensures Shaped() && Contents() == old(Contents()) && capacity == Larger(size, old(capacity))
      ensures size <= old(capacity) ==> buf == old(buf)
      ensures size > old(capacity) ==> fresh(buf) && buf[..] == old(Contents()) + Zeros(size + 1 - length)
    {
      if capacity < size {
        var n: nat := Larger(size, MIN_CAPACITY);
        var grown := new char[n + 1](_ => NUL);
        Memcpy(grown, 0, buf[..length]);
        grown[length] := NUL;
        buf, capacity := grown, n;
      }
    }

    /** str_resize: a longer string gets what the buffer happens to hold behind the old one. */
    method Resize(size: int)
      requires Shaped()
      modifies this, buf
      ensures Shaped() && length == if size < 0 then old(length) else size
      ensures capacity == Larger(size, old(capacity))
      ensures size >= 0 ==> Valid()
      ensures size < 0 ==> buf == old(buf) && buf[..] == old(buf[..])
      ensures 0 <= size <= old(capacity) ==> buf == old(buf) && buf[..] == old(buf[..])[size := NUL]
      ensures size > old(capacity) ==> fresh(buf) && Contents() == old(Contents()) + Zeros(size - old(length))
    {
      if size < 0 {
        return;
      }
      if size > capacity {
        Realloc(size);
      }
      buf[size] := NUL;
      length := size;
    }

    // ---- appending and inserting ------------------------------------------------------------

    /** _str_append, with the arguments up to the null pointer that ends them. */
    method Append(cstrs: seq<string>)
      requires Valid() && forall cs :: cs in cstrs ==> IsCString(cs)
      modifies this, buf
      ensures Valid() && Contents() == old(Contents()) + Concat(cstrs)
      ensures |cstrs| == 1 ==> Contents() == old(Contents()) + cstrs[0]
      ensures buf == old(buf) || fresh(buf)
      ensures buf == old(buf) <==> |old(Contents()) + Concat(cstrs)| <= old(capacity)
    {
      var end := length;
      var len := length;
      var i := 0;
      while i < |cstrs|
        invariant i <= |cstrs| && len == length + |Concat(cstrs[..i])|
        modifies {}
      {
        ConcatNext(cstrs, i);
        len := len + |cstrs[i]|;
        i := i + 1;
      }
      assert cstrs[..|cstrs|] == cstrs;
      if |cstrs| == 1 {
        ConcatIs([], [], cstrs[0]);
        assert cstrs == [cstrs[0]];
      }
      Resize(len);
      assert buf[..end] == old(Contents());
      CopyAll(end, cstrs);
    }

    /** The second loop of _str_append. */
    method CopyAll(start: nat, cstrs: seq<string>)
      requires Valid() && start + |Concat(cstrs)| == length
      modifies buf
      ensures Valid() && Contents() == old(buf[..start]) + Concat(cstrs)
    {
      var end := start;
      var i := 0;
      assert buf[..start] == buf[..start] + Concat(cstrs[..0]);
      while i < |cstrs|
        invariant i <= |cstrs| && Valid()
        invariant end == start + |Concat(cstrs[..i])| <= length
        invariant buf[..end] == old(buf[..start]) + Concat(cstrs[..i])
      {
        ConcatNext(cstrs, i);
        ConcatPrefix(cstrs, i + 1);
        hide Concat;
        Strcpy(buf, end, cstrs[i]);
        end := end + |cstrs[i]|;
        i := i + 1;
      }
      assert cstrs[..i] == cstrs;
    }

    /** str_insert: the string with another put in at an index, in a new buffer, or nothing done
        when the index lies behind its end. */
    method Insert(index: nat, cstr: string) returns (ok: bool)
      requires Valid() && IsCString(cstr)
      modifies this
      ensures Valid() && (ok <==> index <= old(length))
      ensures ok ==> fresh(buf) && Contents() == old(Contents()[..index]) + cstr + old(Contents()[index..])
      ensures !ok ==> buf == old(buf) && Contents() == old(Contents())
    {
      if index > length {
        return false;
      }
      var size := length + |cstr|;
      var other := new StrBuf.WithLength(size);
      Memcpy3(other.buf, buf[..index], cstr, buf[index..length]);
      other.Resize(size);
      capacity, length, buf := other.capacity, other.length, other.buf;
      ok := true;
    }

    // ---- replacing ----------------------------------------------------------------------------

    /** str_replace, in place: the size is computed first, then the parts and the replacements
        are written over the old characters. */
    method Replace(sub: string, rep: string)
      requires Valid() && IsCString(Contents()) && IsCString(sub) && IsCString(rep) && sub != ""
      modifies this, buf
      ensures Valid() && Contents() == Strings.Replaced(old(Contents()), sub, rep)
      ensures buf == old(buf) || fresh(buf)
    {
      ghost var parts := Strings.Pieces(Contents(), sub);
      Strings.ReplacedSize(Contents(), sub, rep);
      var num := Count(Some(buf[..length]), Some(sub));
      var splits := Split(Some(buf[..length]), Some(sub));
      var size := length + (|rep| - |sub|) * num;
      assert size == |Strings.Join(parts, rep)|;
      Resize(size);
      WriteParts(splits.value, parts, rep);
    }

    /** The loop of str_replace. */
    method WriteParts(splits: seq<StrBuf>, ghost parts: seq<string>, rep: string)
      requires Valid() && |splits| == |parts| > 0 && length == |Strings.Join(parts, rep)|
      requires forall k :: 0 <= k < |splits| ==> splits[k].Holds(parts[k]) && splits[k] != this && splits[k].buf != buf
      modifies buf
      ensures Valid() && Contents() == Strings.Join(parts, rep)
    {
      var pos: nat := 0;
      var i := 0;
      assert Written(parts, 0, rep, 0);
      hide *;
      while i < |splits|
        invariant 0 <= i <= |splits| && Valid() && Written(parts, i, rep, pos)
        invariant forall k :: i <= k < |splits| ==> splits[k].Holds(parts[k])
      {
        pos := WritePart(splits[i], parts, i, rep, pos);
        i := i + 1;
      }
      AllWritten(parts, rep, pos);
    }

    lemma AllWritten(parts: seq<string>, rep: string, pos: nat)
      requires Valid() && parts != [] && length == |Strings.Join(parts, rep)| && Written(parts, |parts|, rep, pos)
      ensures Contents() == Strings.Join(parts, rep)
    {
    }

    /** What stands in the buffer before part i of a join is written. */
    ghost predicate Written(parts: seq<string>, i: nat, rep: string, pos: nat)
      requires i <= |parts| && parts != []
      reads this, buf
    {
      pos <= length < buf.Length
      && buf[..pos] == if i < |parts| then Strings.Trail(parts, i, rep) else Strings.Join(parts, rep)
    }

    method WritePart(slice: StrBuf, ghost parts: seq<string>, ghost i: nat, rep: string, pos: nat) returns (next: nat)
      requires Valid() && i < |parts| && Written(parts, i, rep, pos) && length == |Strings.Join(parts, rep)|
      requires slice.Holds(parts[i]) && slice.buf != buf
      modifies buf
      ensures Valid() && Written(parts, i + 1, rep, next)
    {
      Strings.TrailStep(parts, i, rep);
      hide Strings.Trail, Strings.Join;
      next := Put(pos, slice.buf[..slice.length]);
      if next < length {
        next := Put(next, rep);
      }
    }

    /** memcpy into the string, and on to the place behind. */
    method Put(pos: nat, text: string) returns (next: nat)
      requires Valid() && pos + |text| <= length
      modifies buf
      ensures Valid() && next == pos + |text| && buf[..next] == old(buf[..pos]) + text
    {
      Memcpy(buf, pos, text);
      next := pos + |text|;
      assert buf[..][length] == buf[length];
    }
  }

  // ---- counting and splitting ---------------------------------------------------------------

  method Count(str: Option<string>, sub: Option<string>) returns (n: int)
    requires (str.Some? ==> IsCString(str.value)) && (sub.Some? ==> IsCString(sub.value))
    ensures n == if str.None? || sub.None? then -1 else Strings.Count(str.value, sub.value)
    ensures str.Some? && sub == Some("") ==> n == 0
  {
    if str.None? || sub.None? {
      return -1;
    }
    var s, len := str.value, |sub.value|;
    if len == 0 {
      return 0;
    }
    n := 0;
    var pos := 0;
    ghost var rest := s;
    hide *;
    while true
      invariant pos <= |s| && rest == s[pos..] && Strings.Count(s, sub.value) == n + Strings.Count(rest, sub.value)
      decreases |s| - pos
    {
      Strings.PiecesStep(rest, sub.value);
      var found := Strings.Find(s[pos..], sub.value);
      if found.None? {
        break;
      }
      rest := rest[found.value + len..];
      pos := pos + found.value + len;
      n := n + 1;
    }
  }

  /** What str_split gives; an empty separator gives one empty part. */
  ghost function Parts(s: string, separator: string): seq<string> {
    if separator == "" then [""] else Strings.Pieces(s, separator)
  }

  /** How far str_split is: the texts cut off so far and, with so many separators left, what
      is still to be cut. */
  ghost predicate Progress(s: string, sep: string, left: int, rest: string, texts: seq<string>) {
    if left >= 0 then
      Strings.Count(rest, sep) == left && Parts(s, sep) == texts + Parts(rest, sep)
    else
      texts == Parts(s, sep)
  }

  lemma FindEmpty(s: string)
    ensures Strings.Find(s, "") == Some(0)
  {
    assert Strings.Occurs(s, 0, "");
  }

  lemma SplitFound(s: string, sep: string, left: nat, rest: string, texts: seq<string>)
    requires Progress(s, sep, left, rest, texts) && Strings.Find(rest, sep).Some?
    ensures var k := Strings.Find(rest, sep).value;
      k + |sep| <= |rest| && (sep != "" ==> left > 0)
      && Progress(s, sep, left - 1, rest[k + |sep|..], texts + [rest[..k]])
  {
    var k := Strings.Find(rest, sep).value;
    if sep == "" {
      FindEmpty(rest);
    } else {
      Strings.PiecesStep(rest, sep);
      hide Strings.Find, Strings.Occurs, Strings.Count, Strings.Pieces;
      assert texts + ([rest[..k]] + Parts(rest[k + |sep|..], sep)) == texts + [rest[..k]] + Parts(rest[k + |sep|..], sep);
    }
  }

  lemma SplitMissed(s: string, sep: string, left: nat, rest: string, texts: seq<string>)
    requires Progress(s, sep, left, rest, texts) && Strings.Find(rest, sep).None?
    ensures sep != "" && left == 0 && Progress(s, sep, -1, "", texts + [rest])
  {
    FindEmpty(rest);
    if sep != "" {
      Strings.PiecesStep(rest, sep);
    }
  }

  lemma SplitStarts(s: string, sep: string)
    ensures Progress(s, sep, Strings.Count(s, sep), s, [])
  {
  }

  lemma SplitEnds(s: string, sep: string, rest: string, texts: seq<string>)
    requires Progress(s, sep, -1, rest, texts)
    ensures texts == Parts(s, sep)
  {
  }

  /** What is still to be cut from start on, with so many separators left. */
  ghost function Uncut(s: string, left: int, start: nat): string {
    if left >= 0 && start <= |s| then s[start..] else ""
  }

  /** The end of the next part: the next separator, or where there is none, which happens only
      after the last one, the end of the string. */
  method PartEnd(s: string, separator: string, start: nat, ghost left: nat, ghost texts: seq<string>)
    returns (end: nat, found: bool)
    requires start <= |s| && Progress(s, separator, left, Uncut(s, left, start), texts)
    ensures start <= end <= |s| && (!found <==> separator != "" && left == 0)
    ensures left > 0 ==> end + |separator| <= |s|
    ensures Progress(s, separator, left - 1, Uncut(s, left - 1, end + |separator|), texts + [s[start..end]])
  {
    hide Strings.Find, Strings.Occurs, Strings.Count, Parts;
    var place := Strings.Find(s[start..], separator);
    if place.Some? {
      SplitFound(s, separator, left, s[start..], texts);
      end := start + place.value;
      assert s[start..][place.value + |separator|..] == s[end + |separator|..];
      assert s[start..][..place.value] == s[start..end];
    } else {
      SplitMissed(s, separator, left, s[start..], texts);
      end := |s|;
      assert s[start..] == s[start..end];
    }
    found := place.Some?;
  }

  /** One iteration of str_split. */
  method NextPart(s: string, separator: string, start: nat, ghost left: nat, ghost texts: seq<string>)
    returns (part: StrBuf, next: nat, ghost text: string)
    requires IsCString(s) && start <= |s| && Progress(s, separator, left, Uncut(s, left, start), texts)
    ensures fresh(part) && fresh(part.buf) && part.Holds(text)
    ensures left > 0 ==> next <= |s|
    ensures Progress(s, separator, left - 1, Uncut(s, left - 1, next), texts + [text])
  {
    hide Progress, Uncut;
    var end, found := PartEnd(s, separator, start, left, texts);
    text := s[start..end];
    assert s[start..][..end - start] == text;
    part := new StrBuf.FromPrefix(s[start..], end - start);
    next := end + |separator|;
  }

  /** The loop of str_split. */
  method Cut(s: string, separator: string) returns (parts: seq<StrBuf>)
    requires IsCString(s) && IsCString(separator)
    ensures |parts| == |Parts(s, separator)|
    ensures forall k :: 0 <= k < |parts| ==>
              fresh(parts[k]) && fresh(parts[k].buf) && parts[k].Holds(Parts(s, separator)[k])
  {
    var num := Count(Some(s), Some(separator));
    parts := [];
    var start: nat := 0;
    var i := 0;
    ghost var texts: seq<string> := [];
    SplitStarts(s, separator);
    assert s[0..] == s;
    while i <= num
      invariant 0 <= i <= num + 1 && |parts| == i == |texts|
      invariant forall k :: 0 <= k < i ==> fresh(parts[k]) && fresh(parts[k].buf) && parts[k].Holds(texts[k])
      invariant i <= num ==> start <= |s|
      invariant Progress(s, separator, num - i, Uncut(s, num - i, start), texts)
    {
      hide *;
      var part, next, text := NextPart(s, separator, start, num - i, texts);
      parts, texts := parts + [part], texts + [text];
      start := next;
      i := i + 1;
    }
    SplitEnds(s, separator, Uncut(s, -1, start), texts);
  }

  /** str_split. */
  method Split(str: Option<string>, separator: Option<string>) returns (parts: Option<seq<StrBuf>>)
    requires (str.Some? ==> IsCString(str.value)) && (separator.Some? ==> IsCString(separator.value))
    ensures parts.Some? <==> str.Some? && separator.Some?
    ensures parts.Some? ==>
      var ps, texts := parts.value, Parts(str.value, separator.value);
      |ps| == |texts| && forall k :: 0 <= k < |ps| ==> fresh(ps[k]) && fresh(ps[k].buf) && ps[k].Holds(texts[k])
    ensures parts.Some? && separator == Some("") ==> |parts.value| == 1 && parts.value[0].Holds("")
  {
    if str.None? || separator.None? {
      return None;
    }
    var ps := Cut(str.value, separator.value);
    parts := Some(ps);
  }

  function Concat(cstrs: seq<string>): string {
    if cstrs == [] then "" else Concat(cstrs[..|cstrs| - 1]) + cstrs[|cstrs| - 1]
  }

  /** The arguments stand one behind the other, each whole: none, one, or those of two calls. */
  lemma {:induction false} ConcatIs(a: seq<string>, b: seq<string>, cstr: string)
    ensures Concat([]) == "" && Concat([cstr]) == cstr
    ensures Concat(a + b) == Concat(a) + Concat(b)
  {
    assert [cstr][..0] == [];
    if b == [] {
      assert a + b == a;
    } else {
      var n := |b| - 1;
      assert (a + b)[..|a| + n] == a + b[..n];
      ConcatIs(a, b[..n], cstr);
    }
  }

  lemma ConcatNext(cstrs: seq<string>, i: nat)
    requires i < |cstrs|
    ensures Concat(cstrs[..i + 1]) == Concat(cstrs[..i]) + cstrs[i]
  {
    assert cstrs[..i + 1][..i] == cstrs[..i];
  }

  lemma {:induction false} ConcatPrefix(cstrs: seq<string>, i: nat)
    requires i <= |cstrs|
    ensures |Concat(cstrs[..i])| <= |Concat(cstrs)|
    decreases |cstrs| - i
  {
    if i == |cstrs| {
      assert cstrs[..i] == cstrs;
    } else {
      ConcatNext(cstrs, i);
      ConcatPrefix(cstrs, i + 1);
    }
  }
}
