/** minmea.c: minmea_scan, which reads a sentence field by field as a format string directs. */
module NmeaScan {
  import opened Wrappers
  import opened NmeaFrame
  import opened NmeaNumber
  import opened NmeaFields
  import NmeaFloat
  import NmeaInteger

  /** What a directive stores. */
  datatype Value =
    | Char(c: byte)
    | Direction(d: int)
    | Fraction(value: int, scale: int)
    | Int(n: int)
    | Text(text: seq<byte>)
    | Talker(id: seq<byte>)
    | Date(day: int, month: int, year: int)
    | Time(hours: int, minutes: int, seconds: int, microseconds: int)

  /** The outcome of one directive: nothing or one value stored, a parse error, or undefined. */
  datatype Sight = Sees(values: seq<Value>) | Fails | Lost

  datatype Status = Success | ParseError | Undefined

  datatype Outcome = Outcome(status: Status, stored: seq<Value>)

  // ---- what each directive sees ---------------------------------------------------------

  function SeeChar(v: seq<byte>): Sight {
    Sees([Char(if FieldText(v) == [] then 0 else FieldText(v)[0])])
  }

  function SeeDirection(v: seq<byte>): Sight {
    if FieldText(v) == [] then Sees([Direction(0)])
    else
      var c := FieldText(v)[0];
      if c == 0x4e || c == 0x45 then Sees([Direction(1)])
      else if c == 0x53 || c == 0x57 then Sees([Direction(-1)])
      else Fails
  }

  function SeeFraction(v: seq<byte>): Sight {
    match NmeaFloat.Read(FieldText(v))
    case Bad => Fails
    case Overflow => Lost
    case Fraction(value, scale) => Sees([Fraction(value, scale)])
  }

  function SeeInt(v: seq<byte>): Sight {
    match NmeaInteger.Read(v)
    case Bad => Fails
    case Integer(value) => Sees([Int(value)])
  }

  function SeeTalker(v: seq<byte>): Sight {
    var text := FieldText(v);
    if |text| >= 6 && text[0] == DOLLAR then Sees([Talker(text[1..6])]) else Fails
  }

  predicate SixDigits(text: seq<byte>) {
    |text| >= 6 && forall i :: 0 <= i < 6 ==> IsDigit(text[i])
  }

  /** Two digits as a number. */
  function Pair(text: seq<byte>, i: nat): (n: nat)
    requires i + 2 <= |text| && IsDigit(text[i]) && IsDigit(text[i + 1])
    ensures n == 10 * Digit(text[i]) + Digit(text[i + 1])
  {
    assert text[i..i + 2][..1] == [] + [text[i]] && text[i..i + 2] == [text[i]] + [text[i + 1]];
    NumberAppend([], text[i]);
    NumberAppend([text[i]], text[i + 1]);
    Number(text[i..i + 2])
  }

  function SeeDate(v: seq<byte>): Sight {
    var text := FieldText(v);
    if text == [] then Sees([Date(-1, -1, -1)])
    else if SixDigits(text) then Sees([Date(Pair(text, 0), Pair(text, 2), Pair(text, 4))])
    else Fails
  }

  function SeeTime(v: seq<byte>): Sight {
    var text := FieldText(v);
    if text == [] then Sees([Time(-1, -1, -1, -1)])
    else if SixDigits(text) then
      var micros := if At(text, 6) == NmeaFloat.POINT then Micros(text[7..]) else 0;
      Sees([Time(Pair(text, 0), Pair(text, 2), Pair(text, 4), micros)])
    else Fails
  }

  /** The leading digits, no more than six. */
  function Leading(s: seq<byte>): (ds: seq<byte>)
    ensures IsDigits(ds) && |ds| <= 6
  {
    s[..if NmeaInteger.DigitRun(s) < 6 then NmeaInteger.DigitRun(s) else 6]
  }

  /** They are a fraction of a second, kept as microseconds. */
  function Micros(s: seq<byte>): nat {
    Number(Leading(s)) * Pow10(6 - |Leading(s)|)
  }

  function See(directive: char, v: seq<byte>): Sight {
    if directive == 'c' then SeeChar(v)
    else if directive == 'd' then SeeDirection(v)
    else if directive == 'f' then SeeFraction(v)
    else if directive == 'i' then SeeInt(v)
    else if directive == 's' then Sees([Text(FieldText(v))])
    else if directive == 't' then SeeTalker(v)
    else if directive == 'D' then SeeDate(v)
    else if directive == 'T' then SeeTime(v)
    else if directive == '_' then Sees([])
    else Fails
  }

  /** Reading one view per directive: the k-th directive other than ';' reads the k-th view. A
      directive without a view is an error before a ';' and reads an empty field behind one. */
  function Reads(views: seq<seq<byte>>, format: string, optional: bool): Outcome {
    if format == "" then Outcome(Success, [])
    else if format[0] == ';' then Reads(views, format[1..], true)
    else if views == [] && !optional then Outcome(ParseError, [])
    else
      match See(format[0], if views == [] then [] else views[0])
      case Fails => Outcome(ParseError, [])
      case Lost => Outcome(Undefined, [])
      case Sees(values) =>
        var rest := Reads(if views == [] then [] else views[1..], format[1..], optional);
        Outcome(rest.status, values + rest.stored)
  }

  // ---- the directives -------------------------------------------------------------------

  /** What a field pointer sees; a null pointer sees what the end of a sentence shows. */
  function View(s: seq<byte>, field: Option<nat>): seq<byte>
    requires field.Some? ==> field.value <= |s|
  {
    if field.Some? then s[field.value..] else []
  }

  ghost predicate Points(s: seq<byte>, field: Option<nat>) {
    IsCString(s) && (field.Some? ==> field.value <= |s|)
  }

  method ReadText(s: seq<byte>, field: Option<nat>) returns (r: Sight)
    requires Points(s, field)
    ensures r == See('s', View(s, field))
    ensures r == Sees([Text(FieldText(View(s, field)))])
  {
    var buf := [];
    if field.Some? {
      buf := CopyText(s, field.value);
    }
    r := Sees([Text(buf)]);
  }

  method CopyText(s: seq<byte>, p: nat) returns (buf: seq<byte>)
    requires IsCString(s) && p <= |s|
    ensures buf == FieldText(s[p..])
  {
    hide FieldText, FieldByte;
    buf := [];
    var i := p;
    while FieldByte(At(s, i))
      invariant p <= i <= |s| && buf + FieldText(s[i..]) == FieldText(s[p..])
      decreases |s| - i
    {
      FieldTextTail(s, i);
      assert buf + [s[i]] + FieldText(s[i + 1..]) == buf + FieldText(s[i..]);
      buf := buf + [s[i]];
      i := i + 1;
    }
    TextReaches(s[i..], 0);
    assert buf + FieldText(s[i..]) == buf;
  }

  lemma TalkerSlice(s: seq<byte>, p: nat, text: seq<byte>)
    requires p <= |s| && 6 <= |text| <= |s| - p && text == s[p..][..|text|]
    ensures text[0] == s[p] && text[1..6] == s[p + 1..p + 6]
  {
    forall i | 0 <= i < 6 ensures text[i] == s[p + i] {
      assert s[p..][..|text|][i] == s[p..][i];
    }
  }

  method ReadTalker(s: seq<byte>, field: Option<nat>) returns (r: Sight)
    requires Points(s, field)
    ensures r == See('t', View(s, field))
    ensures var f := FieldText(View(s, field));
      if |f| >= 6 && f[0] == 0x24 then r == Sees([Talker(f[1..6])]) else r == Fails
  {
    if field.None? {
      return Fails;
    }
    var p := field.value;
    if At(s, p) != DOLLAR {
      return Fails;
    }
    var f := 0;
    while f < 5
      invariant 0 <= f <= 5 && p + 1 + f <= |s|
      invariant IsText(s[p..][..1 + f])
    {
      assert At(s[p..], 1 + f) == At(s, p + 1 + f);
      if !FieldByte(At(s, p + 1 + f)) {
        TextReaches(s[p..], 1 + f);
        return Fails;
      }
      f := f + 1;
    }
    TextReaches(s[p..], 6);
    TalkerSlice(s, p, FieldText(s[p..]));
    r := Sees([Talker(s[p + 1..p + 6])]);
  }

  method ReadSixDigits(s: seq<byte>, p: nat) returns (ok: bool)
    requires IsCString(s) && p <= |s|
    ensures ok <==> SixDigits(FieldText(s[p..]))
  {
    var f := 0;
    while f < 6
      invariant 0 <= f <= 6 && p + f <= |s|
      invariant forall i :: 0 <= i < f ==> IsDigit(s[p..][i])
    {
      assert At(s[p..], f) == At(s, p + f);
      if !IsDigit(At(s, p + f)) {
        return false;
      }
      f := f + 1;
    }
    TextReaches(s[p..], 6);
    ok := true;
  }

  method ReadDate(s: seq<byte>, field: Option<nat>) returns (r: Sight)
    requires Points(s, field)
    ensures r == See('D', View(s, field))
    ensures var f := FieldText(View(s, field));
      if f == [] then r == Sees([Date(-1, -1, -1)])
      else if SixDigits(f) then r == Sees([Date(Pair(f, 0), Pair(f, 2), Pair(f, 4))])
      else r == Fails
  {
    var d: int, m: int, y: int := -1, -1, -1;
    if field.Some? && FieldByte(At(s, field.value)) {
      var p := field.value;
      assert FieldText(s[p..]) != [];
      var ok := ReadSixDigits(s, p);
      if !ok {
        return Fails;
      }
      var text := FieldText(s[p..]);
      d, m, y := Pair(text, 0), Pair(text, 2), Pair(text, 4);
    }
    r := Sees([Date(d, m, y)]);
  }

  method ReadTime(s: seq<byte>, field: Option<nat>) returns (r: Sight)
    requires Points(s, field)
    ensures r == See('T', View(s, field))
    ensures var f := FieldText(View(s, field));
      if f == [] then r == Sees([Time(-1, -1, -1, -1)])
      else if SixDigits(f) then
        r == Sees([Time(Pair(f, 0), Pair(f, 2), Pair(f, 4), if At(f, 6) == 0x2e then Micros(f[7..]) else 0)])
      else r == Fails
  {
    var h: int, i: int, sec: int, u: int := -1, -1, -1, -1;
    if field.Some? && FieldByte(At(s, field.value)) {
      var p := field.value;
      var ok := ReadSixDigits(s, p);
      if !ok {
        return Fails;
      }
      var text := FieldText(s[p..]);
      h, i, sec := Pair(text, 0), Pair(text, 2), Pair(text, 4);
      u := ReadMicros(s, p);
    }
    r := Sees([Time(h, i, sec, u)]);
  }

  method ReadMicros(s: seq<byte>, p: nat) returns (u: nat)
    requires IsCString(s) && p <= |s| && SixDigits(FieldText(s[p..]))
    ensures var text := FieldText(s[p..]); u == if At(text, 6) == NmeaFloat.POINT then Micros(text[7..]) else 0
  {
    PointInField(s[p..]);
    assert At(s[p..], 6) == At(s, p + 6);
    if At(s, p + 6) == NmeaFloat.POINT {
      PointInside(s[p..]);
      assert s[p..][7..] == s[p + 7..];
      u := ReadFraction(s, p + 7);
    } else {
      u := 0;
    }
  }

  lemma LeadingOfPrefix(v: seq<byte>, length: nat)
    requires length <= |v| && NmeaInteger.DigitRun(v[..length]) == NmeaInteger.DigitRun(v)
    ensures Leading(v[..length]) == Leading(v)
  {
    hide NmeaInteger.DigitRun;
    assert v[..length][..|Leading(v)|] == v[..|Leading(v)|];
  }

  lemma PointInField(v: seq<byte>)
    requires SixDigits(FieldText(v))
    ensures At(v, 6) == NmeaFloat.POINT <==> At(FieldText(v), 6) == NmeaFloat.POINT
    ensures !IsDigit(At(v, |FieldText(v)|))
  {
    assert FieldByte(NmeaFloat.POINT);
    assert |FieldText(v)| > 6 ==> At(v, 6) == At(FieldText(v), 6);
  }

  lemma PointInside(v: seq<byte>)
    requires SixDigits(FieldText(v)) && At(v, 6) == NmeaFloat.POINT
    ensures 7 <= |FieldText(v)| && Leading(v[7..]) == Leading(FieldText(v)[7..])
  {
    PointInField(v);
    hide Leading, FieldText, FieldByte, IsDigit, NmeaInteger.DigitRun;
    var length := |FieldText(v)|;
    NmeaInteger.RunsInside(v, 7, length);
    assert v[..length][7..] == v[7..][..length - 7];
    LeadingOfPrefix(v[7..], length - 7);
  }

  /** The digits behind the point, as far as microseconds go. */
  method ReadFraction(s: seq<byte>, p: nat) returns (u: nat)
    requires IsCString(s) && p <= |s|
    ensures u == Micros(s[p..])
  {
    var value: nat, scale, m := 0, 1_000_000, 0;
    ghost var v := s[p..];
    assert Pow10(6) == scale;
    while IsDigit(At(s, p + m)) && scale > 1
      invariant 0 <= m <= 6 && p + m <= |s| && scale == Pow10(6 - m)
      invariant IsDigits(v[..m]) && value == Number(v[..m])
    {
      NumberAppend(v[..m], s[p + m]);
      assert v[..m] + [s[p + m]] == v[..m + 1];
      value := value * 10 + Digit(At(s, p + m));
      scale := scale / 10;
      m := m + 1;
    }
    assert At(v, m) == At(s, p + m);
    MicrosAre(v, m);
    u := value * scale;
  }

  lemma MicrosAre(v: seq<byte>, m: nat)
    requires m <= 6 && m <= |v| && IsDigits(v[..m]) && (IsDigit(At(v, m)) ==> m == 6)
    ensures Micros(v) == Number(v[..m]) * Pow10(6 - m)
  {
    assert forall i :: 0 <= i < m ==> v[..m][i] == v[i];
    hide Number, Pow10;
    assert Leading(v) == v[..m];
  }

  lemma ExactRounds(value: nat, p: nat, unit: nat)
    requires p * unit == 1_000_000 && value < unit
    ensures value * p < 1_000_000 && NmeaFloat.RoundsDown(value * p, 1_000_000, value, unit)
  {
    NmeaFloat.Monotone(value + 1, unit, p);
    assert (value * p) * unit == value * (p * unit);
    assert (value * p + 1) * unit == (value * p) * unit + unit;
  }

  /** They are the fraction of a second rounded down. */
  lemma MicrosRoundDown(ds: seq<byte>)
    requires IsDigits(ds)
    ensures Micros(ds) < 1_000_000 && NmeaFloat.RoundsDown(Micros(ds), 1_000_000, Number(ds), Pow10(|ds|))
  {
    NmeaInteger.AllDigitsRun(ds);
    hide *;
    if |ds| <= 6 {
      FewDigits(ds);
    } else {
      ManyDigits(ds);
    }
  }

  lemma FewDigits(ds: seq<byte>)
    requires IsDigits(ds) && |ds| <= 6
    ensures Micros(ds) < 1_000_000 && NmeaFloat.RoundsDown(Micros(ds), 1_000_000, Number(ds), Pow10(|ds|))
  {
    PowerOfSix();
    MicrosAre(ds, |ds|);
    assert ds[..|ds|] == ds;
    NumberBound(ds);
    var p, unit := Pow10(6 - |ds|), Pow10(|ds|);
    Pow10Sum(6 - |ds|, |ds|);
    hide *;
    ExactRounds(Number(ds), p, unit);
  }

  lemma ManyDigits(ds: seq<byte>)
    requires IsDigits(ds) && |ds| > 6
    ensures Micros(ds) < 1_000_000 && NmeaFloat.RoundsDown(Micros(ds), 1_000_000, Number(ds), Pow10(|ds|))
  {
    PowerOfSix();
    MicrosAre(ds, 6);
    NumberBound(ds[..6]);
    Pow10Sum(6, |ds| - 6);
    CutRounds(ds);
    hide *;
  }

  lemma PowerOfSix()
    ensures Pow10(6) == 1_000_000 && Pow10(0) == 1
  {
  }

  lemma CutRounds(ds: seq<byte>)
    requires IsDigits(ds) && |ds| > 6
    ensures NmeaFloat.RoundsDown(Number(ds[..6]), 1_000_000, Number(ds), 1_000_000 * Pow10(|ds| - 6))
  {
    hide Number, Pow10;
    assert ds[..6] + ds[6..] == ds;
    Truncates(ds[..6], ds[6..]);
    NmeaFloat.Scaled(Number(ds[..6]), Pow10(|ds| - 6), Number(ds), 1_000_000);
  }

  method ReadChar(s: seq<byte>, field: Option<nat>) returns (r: Sight)
    requires Points(s, field)
    ensures r == See('c', View(s, field))
    ensures var f := FieldText(View(s, field)); r == Sees([Char(if f == [] then 0 else f[0])])
  {
    var value: byte := 0;
    if field.Some? && FieldByte(At(s, field.value)) {
      value := At(s, field.value);
    }
    r := Sees([Char(value)]);
  }

  method ReadDirection(s: seq<byte>, field: Option<nat>) returns (r: Sight)
    requires Points(s, field)
    ensures r == See('d', View(s, field))
    ensures var f := FieldText(View(s, field));
      if f == [] then r == Sees([Direction(0)])
      else if f[0] == 0x4e || f[0] == 0x45 then r == Sees([Direction(1)])
      else if f[0] == 0x53 || f[0] == 0x57 then r == Sees([Direction(-1)])
      else r == Fails
  {
    var value := 0;
    if field.Some? && FieldByte(At(s, field.value)) {
      var c := At(s, field.value);
      if c == 0x4e || c == 0x45 {
        value := 1;
      } else if c == 0x53 || c == 0x57 {
        value := -1;
      } else {
        return Fails;
      }
    }
    r := Sees([Direction(value)]);
  }

  method ReadFixed(s: seq<byte>, field: Option<nat>) returns (r: Sight)
    requires Points(s, field)
    ensures r == See('f', View(s, field))
  {
    if field.None? {
      return Sees([Fraction(0, 0)]);
    }
    var reading := NmeaFloat.Scan(s, field.value);
    match reading
    case Bad => r := Fails;
    case Overflow => r := Lost;
    case Fraction(value, scale) => r := Sees([Fraction(value, scale)]);
  }

  method ReadInt(s: seq<byte>, field: Option<nat>) returns (r: Sight)
    requires Points(s, field)
    ensures r == See('i', View(s, field))
  {
    var value := 0;
    if field.Some? {
      var (long, end) := NmeaInteger.Strtol(s[field.value..]);
      value := NmeaInteger.ToInt(long);
      if FieldByte(At(s, field.value + end)) {
        return Fails;
      }
    }
    r := Sees([Int(value)]);
  }

  method Direct(directive: char, s: seq<byte>, field: Option<nat>) returns (r: Sight)
    requires Points(s, field)
    ensures r == See(directive, View(s, field))
  {
    match directive
    case 'c' => r := ReadChar(s, field);
    case 'd' => r := ReadDirection(s, field);
    case 'f' => r := ReadFixed(s, field);
    case 'i' => r := ReadInt(s, field);
    case 's' => r := ReadText(s, field);
    case 't' => r := ReadTalker(s, field);
    case 'D' => r := ReadDate(s, field);
    case 'T' => r := ReadTime(s, field);
    case '_' => r := Sees([]);
    case _ => r := Fails;
  }

  // ---- the scan -------------------------------------------------------------------------

  /** The views still ahead of a field pointer. */
  function Ahead(s: seq<byte>, field: Option<nat>): seq<seq<byte>>
    requires field.Some? ==> field.value <= |s|
  {
    if field.Some? then Suffixes(s[field.value..]) else []
  }

  lemma AheadStep(s: seq<byte>, p: nat)
    requires p <= |s|
    ensures var end := p + |FieldText(s[p..])|;
      !FieldByte(At(s, end)) &&
      Ahead(s, Some(p)) == [s[p..]] + if At(s, end) == COMMA then Ahead(s, Some(end + 1)) else []
  {
    var n := |FieldText(s[p..])|;
    assert At(s[p..], n) == At(s, p + n);
    assert At(s, p + n) == COMMA ==> s[p..][n + 1..] == s[p + n + 1..];
  }

  method SkipField(s: seq<byte>, sentence: nat) returns (i: nat)
    requires IsCString(s) && sentence <= |s|
    ensures i == sentence + |FieldText(s[sentence..])| <= |s|
  {
    i := sentence;
    while FieldByte(At(s, i))
      invariant sentence <= i <= |s|
      invariant |FieldText(s[sentence..])| == i - sentence + |FieldText(s[i..])|
      decreases |s| - i
    {
      FieldTextTail(s, i);
      i := i + 1;
    }
  }

  /** next_field. */
  method NextField(s: seq<byte>, sentence: nat, field: Option<nat>) returns (sentence': nat, field': Option<nat>)
    requires Points(s, field) && sentence <= |s|
    requires if field.Some? then field.value == sentence else !FieldByte(At(s, sentence)) && At(s, sentence) != COMMA
    ensures sentence' <= |s|
    ensures field'.Some? ==> field.Some? && field'.value == sentence'
    ensures field'.Some? ==> Ahead(s, field) == [View(s, field)] + Ahead(s, field')
    ensures field'.None? ==> !FieldByte(At(s, sentence')) && At(s, sentence') != COMMA
    ensures field'.None? && field.Some? ==> Ahead(s, field) == [View(s, field)]
  {
    AheadStep(s, sentence);
    var i := SkipField(s, sentence);
    assert At(s[sentence..], 0) == At(s, sentence);
    hide Suffixes, FieldByte;
    if At(s, i) == COMMA {
      return i + 1, Some(i + 1);
    }
    return i, None;
  }

  function Behind(stored: seq<Value>, o: Outcome): Outcome {
    o.(stored := stored + o.stored)
  }

  /** The first of the views ahead, an empty one when there is none, and those behind it. */
  function First(views: seq<seq<byte>>): seq<byte> {
    if views == [] then [] else views[0]
  }

  function Others(views: seq<seq<byte>>): seq<seq<byte>> {
    if views == [] then [] else views[1..]
  }

  lemma ReadsStep(views: seq<seq<byte>>, format: string, j: nat, optional: bool)
    requires j < |format|
    ensures Reads(views, format[j..], optional)
      == if format[j] == ';' then Reads(views, format[j + 1..], true)
         else if views == [] && !optional then Outcome(ParseError, [])
         else
           match See(format[j], First(views))
           case Fails => Outcome(ParseError, [])
           case Lost => Outcome(Undefined, [])
           case Sees(values) => Behind(values, Reads(Others(views), format[j + 1..], optional))
  {
    assert format[j..][1..] == format[j + 1..];
  }

  lemma BehindTwice(first: seq<Value>, second: seq<Value>, o: Outcome)
    ensures Behind(first, Behind(second, o)) == Behind(first + second, o)
  {
    assert first + (second + o.stored) == first + second + o.stored;
  }

  method Scan(s: seq<byte>, format: string) returns (r: Outcome)
    requires IsCString(s)
    ensures r == Reads(Suffixes(s), format, false)
  {
    var sentence: nat, field, optional, stored, j := 0, Some(0), false, [], 0;
    assert s[0..] == s;
    ghost var goal := Reads(Suffixes(s), format, false);
    assert Behind([], goal) == goal && format[0..] == format;
    hide Reads, See, FieldByte, Suffixes;
    while j < |format|
      invariant j <= |format| && sentence <= |s| && Points(s, field)
      invariant if field.Some? then field.value == sentence else !FieldByte(At(s, sentence)) && At(s, sentence) != COMMA
      invariant goal == Behind(stored, Reads(Ahead(s, field), format[j..], optional))
    {
      var directive := format[j];
      ReadsStep(Ahead(s, field), format, j, optional);
      j := j + 1;
      if directive == ';' {
        optional := true;
        continue;
      }
      if field.None? && !optional {
        return Outcome(ParseError, stored);
      }
      var sight := Direct(directive, s, field);
      assert First(Ahead(s, field)) == View(s, field);
      match sight
      case Fails => return Outcome(ParseError, stored);
      case Lost => return Outcome(Undefined, stored);
      case Sees(values) =>
        ghost var ahead := Ahead(s, field);
        BehindTwice(stored, values, Reads(Others(ahead), format[j..], optional));
        stored := stored + values;
        sentence, field := NextField(s, sentence, field);
        assert Others(ahead) == Ahead(s, field);
    }
    ReadsEnd(Ahead(s, field), optional);
    r := Outcome(Success, stored);
  }

  lemma ReadsEnd(views: seq<seq<byte>>, optional: bool)
    ensures Reads(views, [], optional) == Outcome(Success, [])
  {
  }
}
