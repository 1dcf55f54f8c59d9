/** The fields of a sentence, and decimal digits as numbers (minmea.c). */
module NmeaNumber {
  import opened NmeaFrame

  const COMMA: byte := 0x2c

  /** minmea_isfield. */
  predicate FieldByte(c: byte) {
    IsPrint(c) && c != COMMA && c != STAR
  }

  ghost predicate IsText(text: seq<byte>) {
    forall i :: 0 <= i < |text| ==> FieldByte(text[i])
  }

  /** The field a pointer at the start of s points to: the longest run of field bytes. */
  function FieldText(s: seq<byte>): (text: seq<byte>)
    ensures |text| <= |s| && text == s[..|text|] && IsText(text) && !FieldByte(At(s, |text|))
  {
    if s == [] || !FieldByte(s[0]) then [] else [s[0]] + FieldText(s[1..])
  }

  /** Stepping over a field byte leaves the rest of the field. */
  lemma FieldTextTail(s: seq<byte>, i: nat)
    requires i < |s| && FieldByte(s[i])
    ensures FieldText(s[i..]) == [s[i]] + FieldText(s[i + 1..])
  {
    assert s[i..][1..] == s[i + 1..];
  }

  /** A field reaches as far as its bytes are field bytes. */
  lemma TextReaches(s: seq<byte>, n: nat)
    requires n <= |s|
    ensures IsText(s[..n]) ==> |FieldText(s)| >= n
    ensures !FieldByte(At(s, n)) ==> |FieldText(s)| <= n
  {
    var m := |FieldText(s)|;
    assert m < n ==> At(s, m) == s[..n][m];
    assert n < m ==> At(s, n) == FieldText(s)[n];
  }

  predicate IsDigit(c: byte) {
    0x30 <= c <= 0x39
  }

  ghost predicate IsDigits(ds: seq<byte>) {
    forall i :: 0 <= i < |ds| ==> IsDigit(ds[i])
  }

  function Digit(c: byte): (d: nat)
    requires IsDigit(c)
    ensures d <= 9
  {
    (c - 0x30) as nat
  }

  function Pow10(n: nat): (p: nat)
    ensures p > 0
  {
    if n == 0 then 1 else 10 * Pow10(n - 1)
  }

  lemma {:induction false} Pow10Sum(m: nat, n: nat)
    ensures Pow10(m + n) == Pow10(m) * Pow10(n)
  {
    if n > 0 {
      Pow10Sum(m, n - 1);
    }
  }

  function Number(ds: seq<byte>): nat
    requires IsDigits(ds)
  {
    if ds == [] then 0 else 10 * Number(ds[..|ds| - 1]) + Digit(ds[|ds| - 1])
  }

  lemma {:induction false} NumberBound(ds: seq<byte>)
    requires IsDigits(ds)
    ensures Number(ds) < Pow10(|ds|)
  {
    if ds != [] {
      NumberBound(ds[..|ds| - 1]);
    }
  }

  lemma NumberAppend(ds: seq<byte>, c: byte)
    requires IsDigits(ds) && IsDigit(c)
    ensures IsDigits(ds + [c]) && Number(ds + [c]) == 10 * Number(ds) + Digit(c)
  {
    assert (ds + [c])[..|ds|] == ds;
  }

  lemma Widen(x: nat, p: nat, y: nat, d: nat)
    requires x * p <= y < (x + 1) * p && d <= 9
    ensures x * (10 * p) <= 10 * y + d < (x + 1) * (10 * p)
  {
    assert x * (10 * p) == 10 * (x * p);
    assert (x + 1) * (10 * p) == 10 * ((x + 1) * p);
  }

  /** Cutting off trailing digits rounds down. */
  lemma {:induction false} Truncates(a: seq<byte>, b: seq<byte>)
    requires IsDigits(a) && IsDigits(b)
    ensures IsDigits(a + b) && Number(a) * Pow10(|b|) <= Number(a + b) < (Number(a) + 1) * Pow10(|b|)
  {
    if b == [] {
      assert a + b == a;
    } else {
      var c, last := b[..|b| - 1], b[|b| - 1];
      Truncates(a, c);
      NumberAppend(a + c, last);
      assert a + c + [last] == a + b;
      Widen(Number(a), Pow10(|c|), Number(a + c), Digit(last));
    }
  }

  lemma TimesAtLeast(x: nat, p: nat)
    requires p > 0
    ensures x <= x * p
  {
  }

  /** More digits never make a smaller number. */
  lemma Grows(a: seq<byte>, b: seq<byte>)
    requires IsDigits(a) && IsDigits(b)
    ensures IsDigits(a + b) && Number(a) <= Number(a + b)
  {
    Truncates(a, b);
    TimesAtLeast(Number(a), Pow10(|b|));
  }
}
