/** minmea.c: what a field written for a directive is read as, and what a whole sentence written
    for a format is scanned as. Fields are given byte for byte. */
module NmeaMeaning {
  import opened NmeaFrame
  import opened NmeaNumber
  import opened NmeaScan
  import opened NmeaAlignment
  import NmeaFloat
  import NmeaInteger

  // ---- numbers in decimal ----------------------------------------------------------------

  function DigitByte(d: nat): (c: byte)
    requires d < 10
    ensures IsDigit(c) && Digit(c) == d
  {
    match d
    case 0 => 0x30 case 1 => 0x31 case 2 => 0x32 case 3 => 0x33 case 4 => 0x34
    case 5 => 0x35 case 6 => 0x36 case 7 => 0x37 case 8 => 0x38 case _ => 0x39
  }

  /** The last k decimal digits of a number. */
  function Padded(n: nat, k: nat): (s: seq<byte>)
    ensures |s| == k && IsDigits(s)
  {
    if k == 0 then [] else Padded(n / 10, k - 1) + [DigitByte(n % 10)]
  }

  /** A number without leading zeros. */
  function Numeral(n: nat): (s: seq<byte>)
    ensures s != [] && IsDigits(s)
  {
    (if n < 10 then [] else Numeral(n / 10)) + [DigitByte(n % 10)]
  }

  lemma {:induction false} PaddedIs(n: nat, k: nat)
    requires n < Pow10(k)
    ensures Number(Padded(n, k)) == n
  {
    hide Digit;
    if k > 0 {
      PaddedIs(n / 10, k - 1);
      NumberAppend(Padded(n / 10, k - 1), DigitByte(n % 10));
    }
  }

  lemma {:induction false} NumeralIs(n: nat)
    ensures Number(Numeral(n)) == n
  {
    hide Digit;
    if n < 10 {
      NumberAppend([], DigitByte(n % 10));
    } else {
      NumeralIs(n / 10);
      NumberAppend(Numeral(n / 10), DigitByte(n % 10));
    }
  }

  /** Digits behind digits. */
  lemma {:induction false} NumberConcat(a: seq<byte>, b: seq<byte>)
    requires IsDigits(a) && IsDigits(b)
    ensures IsDigits(a + b) && Number(a + b) == Number(a) * Pow10(|b|) + Number(b)
  {
    hide Digit;
    if b == [] {
      assert a + b == a;
    } else {
      var n := |b| - 1;
      NumberConcat(a, b[..n]);
      assert (a + b)[..|a| + n] == a + b[..n];
      assert Number(a) * (10 * Pow10(n)) == 10 * (Number(a) * Pow10(n));
    }
  }

  // ---- single directives ------------------------------------------------------------------

  /** c: the first byte of the field, or zero. s: all of it. */
  lemma CharAndText(f: seq<byte>)
    requires IsText(f)
    ensures See('c', []) == Sees([Char(0)])
    ensures f != [] ==> See('c', f) == Sees([Char(f[0])])
    ensures See('s', f) == Sees([Text(f)]) && See('_', f) == Sees([])
  {
    TextOfText(f);
  }

  /** d: nothing is 0; by its first byte, N and E are 1, S and W are -1, and no other letter is
      accepted. */
  lemma DirectionMeans(c: byte, rest: seq<byte>)
    requires IsText([c] + rest)
    ensures See('d', []) == Sees([Direction(0)])
    ensures c == 0x4e || c == 0x45 ==> See('d', [c] + rest) == Sees([Direction(1)])
    ensures c == 0x53 || c == 0x57 ==> See('d', [c] + rest) == Sees([Direction(-1)])
    ensures c != 0x4e && c != 0x45 && c != 0x53 && c != 0x57 ==> See('d', [c] + rest) == Fails
  {
    TextOfText([c] + rest);
  }

  /** t: $ and five bytes, whatever follows them; nothing else is accepted. */
  lemma TalkerMeans(id: seq<byte>, rest: seq<byte>, f: seq<byte>)
    requires |id| == 5 && IsText(id) && IsText(rest) && IsText(f)
    ensures See('t', [0x24] + id + rest) == Sees([Talker(id)])
    ensures |f| < 6 || f[0] != 0x24 ==> See('t', f) == Fails
  {
    var g := [0x24] + id + rest;
    TextOfText(g);
    TextOfText(f);
    assert g[1..6] == id;
  }

  lemma SixPairs(f: seq<byte>, a: nat, b: nat, c: nat, rest: seq<byte>)
    requires a < 100 && b < 100 && c < 100 && IsText(rest) && f == Padded(a, 2) + Padded(b, 2) + Padded(c, 2) + rest
    ensures |f| >= 6 && f != [] && IsText(f) && SixDigits(f)
    ensures Pair(f, 0) == a && Pair(f, 2) == b && Pair(f, 4) == c
    ensures At(f, 6) == At(rest, 0) && f[6..] == rest
  {
    hide Number, Digit, Padded;
    assert Pow10(2) == 100;
    PaddedIs(a, 2);
    PaddedIs(b, 2);
    PaddedIs(c, 2);
    assert f[0..2] == Padded(a, 2) && f[2..4] == Padded(b, 2) && f[4..6] == Padded(c, 2);
  }

  /** D: day, month and year in this order, two digits each. */
  lemma DateMeans(day: nat, month: nat, year: nat, rest: seq<byte>)
    requires day < 100 && month < 100 && year < 100 && IsText(rest)
    ensures See('D', []) == Sees([Date(-1, -1, -1)])
    ensures See('D', Padded(day, 2) + Padded(month, 2) + Padded(year, 2) + rest) == Sees([Date(day, month, year)])
  {
    hide Padded, Pair, SixDigits, IsText, FieldText, IsDigits, IsDigit;
    var f := Padded(day, 2) + Padded(month, 2) + Padded(year, 2) + rest;
    SixPairs(f, day, month, year, rest);
    TextOfText(f);
    assert FieldText([]) == [];
  }

  /** D and T: a field that does not begin with six digits is not accepted, unless it is empty. */
  lemma SixDigitsNeeded(f: seq<byte>)
    requires IsText(f) && f != [] && (|f| < 6 || exists i :: 0 <= i < 6 && !IsDigit(f[i]))
    ensures See('D', f) == See('T', f) == Fails
  {
    TextOfText(f);
  }

  /** T: hours, minutes and seconds in this order, two digits each, and behind a point the
      microseconds; MicrosRoundDown says which. */
  lemma TimeMeans(h: nat, m: nat, s: nat, rest: seq<byte>)
    requires h < 100 && m < 100 && s < 100 && IsText(rest)
    ensures See('T', []) == Sees([Time(-1, -1, -1, -1)])
    ensures At(rest, 0) != 0x2e ==>
              See('T', Padded(h, 2) + Padded(m, 2) + Padded(s, 2) + rest) == Sees([Time(h, m, s, 0)])
    ensures See('T', Padded(h, 2) + Padded(m, 2) + Padded(s, 2) + ([0x2e] + rest)) == Sees([Time(h, m, s, Micros(rest))])
  {
    assert FieldText([]) == [];
    TimeOf(Padded(h, 2) + Padded(m, 2) + Padded(s, 2) + rest, h, m, s, rest);
    PointIsText(rest);
    TimeOf(Padded(h, 2) + Padded(m, 2) + Padded(s, 2) + ([0x2e] + rest), h, m, s, [0x2e] + rest);
    assert ([0x2e] + rest)[1..] == rest;
  }

  lemma PointIsText(rest: seq<byte>)
    requires IsText(rest)
    ensures IsText([0x2e] + rest)
  {
  }

  lemma TimeOf(f: seq<byte>, h: nat, m: nat, s: nat, rest: seq<byte>)
    requires h < 100 && m < 100 && s < 100 && IsText(rest) && f == Padded(h, 2) + Padded(m, 2) + Padded(s, 2) + rest
    ensures See('T', f) == Sees([Time(h, m, s, if At(rest, 0) == 0x2e then Micros(rest[1..]) else 0)])
  {
    hide Padded, Pair, SixDigits, Micros, IsText, FieldText, IsDigits, IsDigit;
    SixPairs(f, h, m, s, rest);
    assert |rest| > 0 ==> f[7..] == f[6..][1..] == rest[1..];
    TextOfText(f);
  }

  /** Up to six digits behind the point are microseconds as they stand, filled up with zeros. */
  lemma MicrosAreDigits(ds: seq<byte>, rest: seq<byte>)
    requires IsDigits(ds) && |ds| <= 6 && !IsDigit(At(rest, 0))
    ensures Micros(ds + rest) == Number(ds) * Pow10(6 - |ds|)
  {
    hide Number, Pow10, Micros, IsDigits, IsDigit;
    assert At(ds + rest, |ds|) == At(rest, 0) && (ds + rest)[..|ds|] == ds;
    MicrosAre(ds + rest, |ds|);
  }

  lemma EmptyReads()
    ensures NmeaInteger.Read([]) == NmeaInteger.Integer(0)
    ensures NmeaFloat.Read([]) == NmeaFloat.Fraction(0, 0) && FieldText([]) == []
  {
  }

  function Sign(n: int): seq<byte> {
    if n < 0 then [0x2d] else []
  }

  function Abs(n: int): nat {
    if n < 0 then -n else n
  }

  /** A sign before a number: - before a negative one, and + or none before any other. */
  predicate SignOf(sign: seq<byte>, n: int) {
    if n < 0 then sign == [0x2d] else sign == [] || sign == [0x2b]
  }

  lemma IntRead(spaces: nat, sign: seq<byte>, n: int)
    requires SignOf(sign, n)
    ensures NmeaInteger.Read(seq(spaces, _ => 0x20) + sign + Numeral(Abs(n)))
         == NmeaInteger.Integer(NmeaInteger.ToInt(NmeaInteger.Capped(n)))
  {
    hide Numeral, Number, NmeaInteger.Read, IsDigits, NmeaInteger.ToInt, NmeaInteger.Capped;
    NumeralIs(Abs(n));
    NmeaInteger.ReadsNumber(spaces, sign, Numeral(Abs(n)));
    assert seq(spaces, _ => NmeaInteger.SPACE) == seq(spaces, _ => 0x20);
  }

  /** i: a number in decimal behind spaces, or nothing, which is 0. */
  lemma IntMeans(spaces: nat, sign: seq<byte>, n: int)
    requires SignOf(sign, n) && -0x8000_0000 <= n <= 0x7fff_ffff
    ensures See('i', []) == Sees([Int(0)])
    ensures See('i', seq(spaces, _ => 0x20) + sign + Numeral(Abs(n))) == Sees([Int(n)])
  {
    hide Numeral, NmeaInteger.Read;
    IntRead(spaces, sign, n);
    EmptyReads();
  }

  /** i: a number that a long holds and an int does not is taken modulo 2^32; behind the ends of a
      long every number reads as -1, or below them as 0. */
  lemma IntWraps(spaces: nat, sign: seq<byte>, n: int)
    requires SignOf(sign, n)
    ensures var r := See('i', seq(spaces, _ => 0x20) + sign + Numeral(Abs(n)));
      if n > 0x7fff_ffff_ffff_ffff then r == Sees([Int(-1)])
      else if n < -0x8000_0000_0000_0000 then r == Sees([Int(0)])
      else r.Sees? && |r.values| == 1 && r.values[0].Int? && -0x8000_0000 <= r.values[0].n <= 0x7fff_ffff
           && (r.values[0].n - n) % 0x1_0000_0000 == 0
  {
    hide Numeral, NmeaInteger.Read;
    IntRead(spaces, sign, n);
  }

  /** Any other directive is an error. */
  lemma UnknownDirective(c: char, f: seq<byte>)
    requires c !in "cdfistDT_"
    ensures See(c, f) == Fails
  {
    assert 'c' in "cdfistDT_" && 'd' in "cdfistDT_" && 'f' in "cdfistDT_" && 'i' in "cdfistDT_";
    assert 's' in "cdfistDT_" && 't' in "cdfistDT_" && 'D' in "cdfistDT_" && 'T' in "cdfistDT_" && '_' in "cdfistDT_";
  }

  function Quotient(n: nat, p: nat): (q: nat)
    requires p > 0
  {
    n / p
  }

  function Remainder(n: nat, p: nat): (r: nat)
    requires p > 0
    ensures r < p && n == Quotient(n, p) * p + r
  {
    n % p
  }

  /** A value with its last k decimal digits behind a point. */
  function Fractional(value: nat, k: nat): (s: seq<byte>) {
    Numeral(Quotient(value, Pow10(k))) + if k == 0 then [] else [0x2e] + Padded(Remainder(value, Pow10(k)), k)
  }

  lemma FractionalIs(value: nat, k: nat, q: nat, r: nat)
    requires q == Quotient(value, Pow10(k)) && r == Remainder(value, Pow10(k))
    ensures Number(Numeral(q) + Padded(r, k)) == value
  {
    hide Number, Numeral, Padded, Pow10, Quotient, Remainder;
    NumeralIs(q);
    PaddedIs(r, k);
    NumberConcat(Numeral(q), Padded(r, k));
  }

  /** A field for a value with k fraction digits. */
  function Signed(spaces: nat, sign: seq<byte>, value: nat, k: nat): seq<byte> {
    seq(spaces, _ => 0x20) + (sign + Fractional(value, k))
  }

  /** f: a value with k fraction digits behind spaces, the scale being 10^k; or nothing, which is
      0 and 0. */
  lemma FractionMeans(spaces: nat, sign: seq<byte>, value: int, k: nat)
    requires SignOf(sign, value) && -0x7fff_ffff <= value <= 0x7fff_ffff && k <= 9
    ensures See('f', []) == Sees([Fraction(0, 0)])
    ensures IsText(Signed(spaces, sign, Abs(value), k))
    ensures See('f', Signed(spaces, sign, Abs(value), k)) == Sees([Fraction(value, Pow10(k))])
  {
    hide Number, Numeral, Padded, Pow10, NmeaFloat.Meaning, NmeaFloat.Read, NmeaFloat.Written, IsText, IsDigits, FieldText;
    EmptyReads();
    FractionRead(spaces, sign, value, k);
    TextOfText(Signed(spaces, sign, Abs(value), k));
  }

  lemma KeptAll(whole: seq<byte>, fraction: seq<byte>)
    requires IsDigits(whole) && IsDigits(fraction) && Number(whole + fraction) <= NmeaFloat.MAX
    ensures Number(whole) <= NmeaFloat.MAX && NmeaFloat.Keep(whole, fraction) == |fraction|
  {
    hide Number, NmeaFloat.Keep;
    Grows(whole, fraction);
    assert fraction[..|fraction|] == fraction;
    NmeaFloat.KeepIsLongest(whole, fraction, |fraction|);
  }

  lemma WrittenIs(d: NmeaFloat.Decimal, value: int, k: nat)
    requires SignOf(d.sign, value)
    requires d == NmeaFloat.Decimal(d.spaces, d.sign, Numeral(Quotient(Abs(value), Pow10(k))), k > 0,
                                    Padded(Remainder(Abs(value), Pow10(k)), k))
    ensures NmeaFloat.WellFormed(d) && NmeaFloat.Written(d) == Signed(d.spaces, d.sign, Abs(value), k)
  {
    hide Numeral, Padded, Pow10, IsDigits, Quotient, Remainder;
    assert NmeaFloat.Spaces(d.spaces) == seq(d.spaces, _ => 0x20);
  }

  lemma DigitsAreText(ds: seq<byte>)
    requires IsDigits(ds)
    ensures IsText(ds)
  {
  }

  lemma SignedIsText(spaces: nat, sign: seq<byte>, value: int, k: nat)
    requires SignOf(sign, value)
    ensures IsText(Signed(spaces, sign, Abs(value), k))
  {
    hide Numeral, Padded, Pow10, Quotient, Remainder;
    DigitsAreText(Numeral(Quotient(Abs(value), Pow10(k))));
    DigitsAreText(Padded(Remainder(Abs(value), Pow10(k)), k));
  }

  lemma MeaningIs(d: NmeaFloat.Decimal, value: int, k: nat)
    requires NmeaFloat.WellFormed(d) && SignOf(d.sign, value) && d.whole != [] && |d.fraction| == k <= 9
    requires Number(d.whole + d.fraction) == Abs(value) <= NmeaFloat.MAX
    ensures NmeaFloat.Meaning(d) == NmeaFloat.Fraction(value, Pow10(k))
  {
    hide Number, Pow10, NmeaFloat.Keep, IsDigits;
    KeptAll(d.whole, d.fraction);
    assert d.fraction[..k] == d.fraction;
  }

  lemma FractionRead(spaces: nat, sign: seq<byte>, value: int, k: nat)
    requires SignOf(sign, value) && -0x7fff_ffff <= value <= 0x7fff_ffff && k <= 9
    ensures IsText(Signed(spaces, sign, Abs(value), k))
    ensures NmeaFloat.Read(Signed(spaces, sign, Abs(value), k)) == NmeaFloat.Fraction(value, Pow10(k))
  {
    hide Number, Numeral, Padded, Pow10, Signed, Fractional, IsText, IsDigits, Quotient, Remainder;
    hide NmeaFloat.Meaning, NmeaFloat.Read, NmeaFloat.Written;
    SignedIsText(spaces, sign, value, k);
    var q, r := Quotient(Abs(value), Pow10(k)), Remainder(Abs(value), Pow10(k));
    var d := NmeaFloat.Decimal(spaces, sign, Numeral(q), k > 0, Padded(r, k));
    WrittenIs(d, value, k);
    FractionalIs(Abs(value), k, q, r);
    MeaningIs(d, value, k);
    NmeaFloat.ReadDecimal(d);
  }
}
