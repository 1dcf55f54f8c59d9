/** minmea.c: values written as a sentence are accepted and scanned back. */
module NmeaRoundTrip {
  import opened NmeaFrame
  import opened NmeaNumber
  import opened NmeaFields
  import opened NmeaScan
  import opened NmeaAlignment
  import opened NmeaMeaning
  import NmeaInteger

  // ---- values as fields --------------------------------------------------------------------

  /** The directive that stores a value of this kind. */
  function DirectiveOf(v: Value): char {
    match v
    case Char(_) => 'c'
    case Direction(_) => 'd'
    case Fraction(_, _) => 'f'
    case Int(_) => 'i'
    case Text(_) => 's'
    case Talker(_) => 't'
    case Date(_, _, _) => 'D'
    case Time(_, _, _, _) => 'T'
  }

  ghost predicate IsScale(scale: int, k: nat) {
    k <= 9 && scale == Pow10(k)
  }

  /** A value that a sentence can carry. */
  ghost predicate Printable(v: Value) {
    match v
    case Char(c) => c == 0 || FieldByte(c)
    case Direction(d) => -1 <= d <= 1
    case Fraction(value, scale) =>
      (value == 0 && scale == 0) || (-0x7fff_ffff <= value <= 0x7fff_ffff && exists k :: IsScale(scale, k))
    case Int(n) => -0x8000_0000 <= n <= 0x7fff_ffff
    case Text(text) => IsText(text)
    case Talker(id) => |id| == 5 && IsText(id)
    case Date(d, m, y) => (d == m == y == -1) || (0 <= d < 100 && 0 <= m < 100 && 0 <= y < 100)
    case Time(h, m, s, u) =>
      (h == m == s == u == -1) || (0 <= h < 100 && 0 <= m < 100 && 0 <= s < 100 && 0 <= u < 1_000_000)
  }

  /** The field for a value: missing ones are empty. */
  ghost function Printed(v: Value): seq<byte>
    requires Printable(v)
  {
    match v
    case Char(c) => if c == 0 then [] else [c]
    case Direction(d) => if d == 0 then [] else if d == 1 then [0x4e] else [0x53]
    case Fraction(value, scale) =>
      if scale == 0 then [] else
      var k :| IsScale(scale, k);
      Signed(0, Sign(value), Abs(value), k)
    case Int(n) => Sign(n) + Numeral(Abs(n))
    case Text(text) => text
    case Talker(id) => [0x24] + id + []
    case Date(d, m, y) => if d == -1 then [] else Padded(d, 2) + Padded(m, 2) + Padded(y, 2) + []
    case Time(h, m, s, u) =>
      if h == -1 then [] else Padded(h, 2) + Padded(m, 2) + Padded(s, 2) + ([0x2e] + Padded(u, 6))
  }

  lemma TimePrinted(h: nat, m: nat, s: nat, u: nat)
    requires h < 100 && m < 100 && s < 100 && u < 1_000_000
    ensures IsText(Printed(Time(h, m, s, u))) && See('T', Printed(Time(h, m, s, u))) == Sees([Time(h, m, s, u)])
  {
    hide Padded, Number, See, Micros, IsText;
    assert Pow10(6) == 1_000_000 && Pow10(0) == 1;
    DigitsAreText(Padded(u, 6));
    PointIsText(Padded(u, 6));
    SixPairs(Printed(Time(h, m, s, u)), h, m, s, [0x2e] + Padded(u, 6));
    TimeMeans(h, m, s, Padded(u, 6));
    MicrosAreDigits(Padded(u, 6), []);
    assert Padded(u, 6) + [] == Padded(u, 6);
    PaddedIs(u, 6);
  }

  lemma DatePrinted(d: nat, m: nat, y: nat)
    requires d < 100 && m < 100 && y < 100
    ensures IsText(Printed(Date(d, m, y))) && See('D', Printed(Date(d, m, y))) == Sees([Date(d, m, y)])
  {
    hide Padded, See;
    SixPairs(Printed(Date(d, m, y)), d, m, y, []);
    DateMeans(d, m, y, []);
  }

  lemma NumberPrinted(v: Value)
    requires Printable(v) && (v.Int? || v.Fraction?)
    ensures IsText(Printed(v)) && See(DirectiveOf(v), Printed(v)) == Sees([v])
  {
    hide Numeral, Padded, See, Pow10, Signed;
    match v
    case Int(n) =>
      IntMeans(0, Sign(n), n);
      assert seq(0, _ => 0x20) + Sign(n) + Numeral(Abs(n)) == Printed(v);
      DigitsAreText(Numeral(Abs(n)));
    case Fraction(value, scale) =>
      if scale == 0 {
        FractionMeans(0, [], 0, 0);
      } else {
        var k :| IsScale(scale, k) && Printed(v) == Signed(0, Sign(value), Abs(value), k);
        FractionMeans(0, Sign(value), value, k);
      }
  }

  lemma TextPrinted(v: Value)
    requires Printable(v) && (v.Char? || v.Direction? || v.Text? || v.Talker?)
    ensures IsText(Printed(v)) && See(DirectiveOf(v), Printed(v)) == Sees([v])
  {
    hide See;
    match v
    case Char(c) => CharAndText(Printed(v));
    case Direction(d) =>
      var c: byte := if d == 1 then 0x4e else 0x53;
      assert [c] + [] == [c];
      DirectionMeans(c, []);
    case Text(text) => CharAndText(text);
    case Talker(id) => TalkerMeans(id, [], []);
  }

  /** Each directive reads back what was written for it. */
  lemma PrintedIsSeen(v: Value)
    requires Printable(v)
    ensures IsText(Printed(v)) && See(DirectiveOf(v), Printed(v)) == Sees([v])
  {
    hide See, Printed, IsText;
    match v
    case Int(n) => NumberPrinted(v);
    case Fraction(_, _) => NumberPrinted(v);
    case Date(d, m, y) => if d >= 0 { DatePrinted(d, m, y); } else { NothingSeen(); }
    case Time(h, m, s, u) => if h >= 0 { TimePrinted(h, m, s, u); } else { NothingSeen(); }
    case _ => TextPrinted(v);
  }

  lemma NothingSeen()
    ensures Printed(Date(-1, -1, -1)) == Printed(Time(-1, -1, -1, -1)) == [] && IsText([])
    ensures See('D', []) == Sees([Date(-1, -1, -1)]) && See('T', []) == Sees([Time(-1, -1, -1, -1)])
  {
    DateMeans(0, 0, 0, []);
    TimeMeans(0, 0, 0, []);
  }

  // ---- lists of values -----------------------------------------------------------------------

  ghost predicate AllPrintable(values: seq<Value>) {
    forall i :: 0 <= i < |values| ==> Printable(values[i])
  }

  function Format(values: seq<Value>): (format: string)
    ensures |format| == |values|
  {
    seq(|values|, i requires 0 <= i < |values| => DirectiveOf(values[i]))
  }

  ghost function Columns(values: seq<Value>): (fields: seq<seq<byte>>)
    requires AllPrintable(values)
    ensures |fields| == |values|
  {
    seq(|values|, i requires 0 <= i < |values| => Printed(values[i]))
  }

  lemma RestOf(values: seq<Value>)
    requires values != [] && AllPrintable(values)
    ensures AllPrintable(values[1..])
    ensures Format(values) == [DirectiveOf(values[0])] + Format(values[1..])
    ensures Columns(values) == [Printed(values[0])] + Columns(values[1..])
  {
    hide Printed, Printable;
  }

  /** Fields written for a list of values and read with its format. */
  lemma {:induction false} ColumnsAreRead(values: seq<Value>)
    requires AllPrintable(values)
    ensures Reads(Columns(values), Format(values), false) == Outcome(Success, values)
  {
    hide See, Printed, Format, Columns;
    if values != [] {
      RestOf(values);
      PrintedIsSeen(values[0]);
      ColumnsAreRead(values[1..]);
      var first, rest := values[0], values[1..];
      ReadsFirst(Printed(first), Columns(rest), DirectiveOf(first), Format(rest), first, rest);
      assert values == [values[0]] + values[1..];
    } else {
      assert Format(values) == "";
    }
  }

  lemma ReadsFirst(f: seq<byte>, fields: seq<seq<byte>>, c: char, format: string, v: Value, values: seq<Value>)
    requires c != ';' && See(c, f) == Sees([v]) && Reads(fields, format, false) == Outcome(Success, values)
    ensures Reads([f] + fields, [c] + format, false) == Outcome(Success, [v] + values)
  {
    hide See;
    assert ([f] + fields)[1..] == fields && ([c] + format)[1..] == format;
  }

  // ---- fields joined to a text ---------------------------------------------------------------

  lemma {:induction false} SplitText(f: seq<byte>, rest: seq<byte>)
    requires COMMA !in f
    ensures Split(f) == [f] && Split(f + [COMMA] + rest) == [f] + Split(rest)
  {
    var s := f + [COMMA] + rest;
    if f == [] {
      assert s[1..] == rest;
    } else {
      SplitText(f[1..], rest);
      assert s[1..] == f[1..] + [COMMA] + rest && s[0] == f[0];
      assert [f[0]] + f[1..] == f;
    }
  }

  /** Joining comma-free fields and splitting the text gives them back. */
  lemma {:induction false} SplitsBack(fields: seq<seq<byte>>)
    requires fields != [] && forall k :: 0 <= k < |fields| ==> COMMA !in fields[k]
    ensures Split(Join(fields)) == fields
  {
    SplitText(fields[0], if |fields| == 1 then [] else Join(fields[1..]));
    if |fields| > 1 {
      SplitsBack(fields[1..]);
    }
  }

  ghost predicate AllLegal(text: seq<byte>) {
    forall i :: 0 <= i < |text| ==> Legal(text[i])
  }

  /** A scan gets as far as the first byte a text cannot hold. */
  lemma {:induction false} ReachIs(text: seq<byte>, rest: seq<byte>)
    requires AllLegal(text) && (rest == [] || !Legal(rest[0]))
    ensures Reach(text + rest) == text
  {
    if text == [] {
      assert text + rest == rest;
    } else {
      assert (text + rest)[1..] == text[1..] + rest;
      ReachIs(text[1..], rest);
    }
  }

  lemma {:induction false} JoinIsLegal(fields: seq<seq<byte>>)
    requires fields != [] && forall k :: 0 <= k < |fields| ==> IsText(fields[k])
    ensures AllLegal(Join(fields))
  {
    assert IsText(fields[0]);
    if |fields| > 1 {
      JoinIsLegal(fields[1..]);
    }
  }

  lemma TextHasNoComma(f: seq<byte>)
    requires IsText(f)
    ensures COMMA !in f
  {
  }

  lemma ColumnsAreText(values: seq<Value>)
    requires AllPrintable(values)
    ensures forall k :: 0 <= k < |values| ==> IsText(Columns(values)[k]) && COMMA !in Columns(values)[k]
  {
    hide Printed, IsText, See;
    forall k | 0 <= k < |values|
      ensures IsText(Columns(values)[k]) && COMMA !in Columns(values)[k]
    {
      PrintedIsSeen(values[k]);
      TextHasNoComma(Columns(values)[k]);
    }
  }

  // ---- no number runs on -----------------------------------------------------------------------

  lemma NumbersStay(v: seq<byte>, n: int)
    requires FieldText(v) == Sign(n) + Numeral(Abs(n))
    ensures !NmeaInteger.RunsOn(v)
  {
    hide Numeral;
    var c := FieldText(v)[0];
    assert c == 0x2d || IsDigit(c);
    assert v[0] == c && NmeaInteger.Blanks(v) == 0;
  }

  lemma {:induction false} NeverMisread(views: seq<seq<byte>>, values: seq<Value>)
    requires AllPrintable(values) && Show(views, Columns(values))
    ensures !Misreads(views, Format(values))
  {
    hide Printed, NmeaInteger.RunsOn, FieldText, See;
    if values != [] {
      RestOf(values);
      NeverMisread(views[1..], values[1..]);
      if values[0].Int? {
        IntPrinted(values[0].n);
        NumbersStay(views[0], values[0].n);
      }
      assert Format(values)[1..] == Format(values[1..]);
    }
  }

  lemma IntPrinted(n: int)
    requires Printable(Int(n))
    ensures Printed(Int(n)) == Sign(n) + Numeral(Abs(n))
  {
  }

  // ---- the round trip -----------------------------------------------------------------------------

  /** The text of a list of values. */
  ghost function TextOf(values: seq<Value>): seq<byte>
    requires values != [] && AllPrintable(values)
  {
    Join(Columns(values))
  }

  /** Scanning the text of any values with their format gives them back, whatever follows that
      is not part of it. */
  lemma ScanRoundTrip(values: seq<Value>, rest: seq<byte>)
    requires values != [] && AllPrintable(values) && (rest == [] || !Legal(rest[0]))
    ensures Reads(Suffixes(TextOf(values) + rest), Format(values), false) == Outcome(Success, values)
  {
    hide Columns, Printable, Format, Reads, Reach, Suffixes, Misreads, Join, Split, IsText, FieldText, Legal;
    var s := TextOf(values) + rest;
    ColumnsAreText(values);
    JoinIsLegal(Columns(values));
    ReachIs(TextOf(values), rest);
    SplitsBack(Columns(values));
    SuffixesAreFields(s);
    NeverMisread(Suffixes(s), values);
    Aligned(s, Format(values));
    ColumnsAreRead(values);
  }

  lemma JoinBegins(f: seq<byte>, fields: seq<seq<byte>>)
    requires f != []
    ensures Join([f] + fields) != [] && Join([f] + fields)[0] == f[0]
  {
  }

  lemma FrameOf(text: seq<byte>, tail: seq<byte>)
    requires text != [] && text[0] == 0x24
    ensures Frame(text[1..]) + tail
         == text + ([STAR, HexDigit(Xor(text[1..]) >> 4), HexDigit(Xor(text[1..]) & 0xf)] + tail)
  {
    hide Xor, HexDigit;
    assert [DOLLAR] + text[1..] == text;
  }

  lemma FrameAccepted(body: seq<byte>, tail: seq<byte>, strict: bool)
    requires IsBody(body)
    ensures Accepted(Frame(body) + tail, strict)
       <==> |body| + 4 + |tail| <= 83 && (tail == [] || tail == [0x0a] || tail == [0x0d, 0x0a])
  {
    hide Accepted, Xor;
    NibblesJoin(Xor(body));
    var u, l := HexDigit(Xor(body) >> 4), HexDigit(Xor(body) & 0xf);
    FieldDecides(body, u, l, tail, strict);
    assert Frame(body) + tail == [0x24] + body + [0x2a, u, l] + tail;
  }

  /** The sentence of a talker and any values: its text, framed with its checksum. It passes both
      modes whenever it fits and at most a line end follows, and scanning it with the format of
      these values gives exactly them back. */
  lemma SentenceRoundTrip(id: seq<byte>, values: seq<Value>, tail: seq<byte>, strict: bool)
    requires Printable(Talker(id)) && AllPrintable(values)
    ensures var all := [Talker(id)] + values;
      AllPrintable(all) && TextOf(all) != [] && TextOf(all)[0] == 0x24
      && var s := Frame(TextOf(all)[1..]) + tail;
      && (Accepted(s, strict)
          <==> |TextOf(all)| + 3 + |tail| <= 83 && (tail == [] || tail == [0x0a] || tail == [0x0d, 0x0a]))
      && Reads(Suffixes(s), Format(all), false) == Outcome(Success, all)
  {
    hide Printable, Columns, Format, Reads, Suffixes, Accepted, Frame, IsText, Join;
    var all := [Talker(id)] + values;
    assert AllPrintable(all);
    TalkerFirst(all);
    ColumnsAreText(all);
    JoinIsLegal(Columns(all));
    var text := TextOf(all);
    var field := [STAR, HexDigit(Xor(text[1..]) >> 4), HexDigit(Xor(text[1..]) & 0xf)];
    FrameOf(text, tail);
    ScanRoundTrip(all, field + tail);
    FrameAccepted(text[1..], tail, strict);
  }

  lemma TalkerFirst(all: seq<Value>)
    requires all != [] && AllPrintable(all) && all[0].Talker?
    ensures TextOf(all) != [] && TextOf(all)[0] == 0x24
  {
    hide Format;
    RestOf(all);
    JoinBegins(Printed(all[0]), Columns(all[1..]));
  }
}
