/** minmea.c: directives stay aligned with fields. */
module NmeaAlignment {
  import opened NmeaFrame
  import opened NmeaNumber
  import opened NmeaFields
  import opened NmeaScan
  import NmeaFloat
  import NmeaInteger

  lemma {:induction false} TextOfText(text: seq<byte>)
    requires IsText(text)
    ensures FieldText(text) == text
  {
    if text != [] {
      TextOfText(text[1..]);
    }
  }

  /** A directive sees its own field and nothing of what follows; an i whose number runs on is
      the one exception. */
  lemma SeesItsField(directive: char, v: seq<byte>)
    ensures See(directive, v) == See(directive, FieldText(v)) <==> !(directive == 'i' && NmeaInteger.RunsOn(v))
  {
    hide SeeChar, SeeDirection, SeeFraction, SeeTalker, SeeDate, SeeTime, FieldText, NmeaInteger.RunsOn, NmeaInteger.Read;
    if directive == 'i' {
      NmeaInteger.ReadsField(v);
    } else {
      TextOfText(FieldText(v));
      OthersSeeTheirField(v);
    }
  }

  lemma OthersSeeTheirField(v: seq<byte>)
    ensures var text := FieldText(v);
      SeeChar(v) == SeeChar(text) && SeeDirection(v) == SeeDirection(text) && SeeFraction(v) == SeeFraction(text)
      && SeeTalker(v) == SeeTalker(text) && SeeDate(v) == SeeDate(text) && SeeTime(v) == SeeTime(text)
  {
    TextOfText(FieldText(v));
    hide FieldText, Number, Micros, SixDigits, Pair, NmeaFloat.Read;
  }

  lemma OnlyOneValue(directive: char, v: seq<byte>)
    ensures See(directive, v).Sees? ==> |See(directive, v).values| == if directive == '_' then 0 else 1
  {
    hide FieldText, Number, Micros, SixDigits, Pair, NmeaFloat.Read, NmeaInteger.Read;
  }

  /** Some i directive that the scan gets to reads a number from behind its field. */
  predicate Misreads(views: seq<seq<byte>>, format: string) {
    views != [] && format != "" &&
    if format[0] == ';' then
      Misreads(views, format[1..])
    else
      (format[0] == 'i' && NmeaInteger.RunsOn(views[0]))
      || (See(format[0], views[0]).Sees? && Misreads(views[1..], format[1..]))
  }

  ghost predicate Show(views: seq<seq<byte>>, fields: seq<seq<byte>>) {
    |views| == |fields| && forall k :: 0 <= k < |views| ==> FieldText(views[k]) == fields[k]
  }

  lemma {:induction false} AlignedViews(views: seq<seq<byte>>, fields: seq<seq<byte>>, format: string, optional: bool)
    requires Show(views, fields)
    ensures Reads(views, format, optional) == Reads(fields, format, optional) <==> !Misreads(views, format)
  {
    if format == "" || views == [] {
      assert views == [] ==> fields == [];
    } else if format[0] == ';' {
      AlignedViews(views, fields, format[1..], true);
    } else {
      hide See, FieldText, NmeaInteger.RunsOn, NmeaInteger.Read;
      SeesItsField(format[0], views[0]);
      AlignedViews(views[1..], fields[1..], format[1..], optional);
      var x, y := See(format[0], views[0]), See(format[0], fields[0]);
      if x.Sees? && y.Sees? {
        OnlyOneValue(format[0], views[0]);
        OnlyOneValue(format[0], fields[0]);
        var a, b := Reads(views[1..], format[1..], optional), Reads(fields[1..], format[1..], optional);
        Cancels(x.values, y.values, a.stored, b.stored);
      }
    }
  }

  lemma Cancels<T>(p: seq<T>, q: seq<T>, a: seq<T>, b: seq<T>)
    requires |p| == |q|
    ensures p + a == q + b <==> p == q && a == b
  {
    if p + a == q + b {
      assert p == (p + a)[..|p|] && q == (q + b)[..|q|];
      assert a == (p + a)[|p|..] && b == (q + b)[|q|..];
    }
  }

  /** A scan reads the fields of the sentence, whatever earlier directives did, and nothing
      behind them, exactly when no i directive in its reach runs on. */
  lemma Aligned(s: seq<byte>, format: string)
    ensures Reads(Suffixes(s), format, false) == Reads(Fields(s), format, false) <==> !Misreads(Suffixes(s), format)
  {
    SuffixesAreFields(s);
    AlignedViews(Suffixes(s), Fields(s), format, false);
  }

  // ---- one directive, one field ---------------------------------------------------------

  /** How many of the first j characters of a format ask for a field. */
  function Rank(format: string, j: nat): nat
    requires j <= |format|
  {
    if j == 0 then 0 else (if format[0] == ';' then 0 else 1) + Rank(format[1..], j - 1)
  }

  /** How many of them store a value. */
  function Slot(format: string, j: nat): nat
    requires j <= |format|
  {
    if j == 0 then 0 else (if format[0] == ';' || format[0] == '_' then 0 else 1) + Slot(format[1..], j - 1)
  }

  function Nth(fields: seq<seq<byte>>, k: nat): seq<byte> {
    if k < |fields| then fields[k] else []
  }

  /** The directive at position j has a field or may do without, and likes what it sees there. */
  predicate Satisfied(fields: seq<seq<byte>>, format: string, optional: bool, j: nat)
    requires j < |format|
  {
    (Rank(format, j) < |fields| || optional || ';' in format[..j])
    && See(format[j], Nth(fields, Rank(format, j))).Sees?
  }

  lemma SatisfiedStep(fields: seq<seq<byte>>, format: string, optional: bool, j: nat)
    requires j < |format|
    ensures j > 0 ==>
      Satisfied(fields, format, optional, j)
      == if format[0] == ';' then Satisfied(fields, format[1..], true, j - 1)
         else Satisfied(Others(fields), format[1..], optional, j - 1)
    ensures j == 0 && format[0] != ';' ==>
      Satisfied(fields, format, optional, j) == ((fields != [] || optional) && See(format[0], First(fields)).Sees?)
  {
    hide See;
    if j > 0 {
      assert format[..j] == [format[0]] + format[1..][..j - 1];
      var k := Rank(format[1..], j - 1);
      assert format[0] != ';' ==> Nth(fields, k + 1) == Nth(Others(fields), k);
    }
  }

  /** A scan succeeds exactly when every directive is satisfied with its own field. */
  lemma {:induction false} SuccessIff(fields: seq<seq<byte>>, format: string, optional: bool)
    ensures Reads(fields, format, optional).status == Success
      <==> forall j :: 0 <= j < |format| && format[j] != ';' ==> Satisfied(fields, format, optional, j)
  {
    if format != "" {
      hide See, Satisfied, Rank;
      var optional', fields' := optional || format[0] == ';', if format[0] == ';' then fields else Others(fields);
      SuccessIff(fields', format[1..], optional');
      SatisfiedStep(fields, format, optional, 0);
      forall j | 0 < j < |format|
        ensures Satisfied(fields, format, optional, j) == Satisfied(fields', format[1..], optional', j - 1)
      {
        SatisfiedStep(fields, format, optional, j);
      }
      assert forall j :: 0 <= j < |format| - 1 ==> format[1..][j] == format[j + 1];
    }
  }

  /** Where a scan first fails, it has stored what the directives before have, and reports a parse
      error, unless the field of that directive leaves the f directive undefined. */
  lemma {:induction false} StopsAt(fields: seq<seq<byte>>, format: string, optional: bool, j: nat)
    requires j < |format| && format[j] != ';' && !Satisfied(fields, format, optional, j)
    requires forall i :: 0 <= i < j && format[i] != ';' ==> Satisfied(fields, format, optional, i)
    ensures Reads(fields, format[..j], optional).status == Success
    ensures Reads(fields, format, optional).stored == Reads(fields, format[..j], optional).stored
    ensures Reads(fields, format, optional).status
         == if (Rank(format, j) < |fields| || optional || ';' in format[..j])
               && See(format[j], Nth(fields, Rank(format, j))).Lost? then Undefined else ParseError
  {
    hide See, Satisfied;
    if j == 0 {
      SatisfiedNow(fields, format, optional);
    } else {
      var optional', fields' := optional || format[0] == ';', if format[0] == ';' then fields else Others(fields);
      forall i | 0 < i <= j
        ensures Satisfied(fields, format, optional, i) == Satisfied(fields', format[1..], optional', i - 1)
      {
        SatisfiedStep(fields, format, optional, i);
      }
      forall i | 0 <= i < j - 1 && format[1..][i] != ';'
        ensures Satisfied(fields', format[1..], optional', i)
      {
        assert format[i + 1] != ';' && Satisfied(fields, format, optional, i + 1);
      }
      StopsAt(fields', format[1..], optional', j - 1);
      SatisfiedStep(fields, format, optional, 0);
      assert format[..j] == [format[0]] + format[1..][..j - 1];
      assert format[..j][1..] == format[1..][..j - 1];
      var k := Rank(format[1..], j - 1);
      assert format[0] != ';' ==> Nth(fields, k + 1) == Nth(Others(fields), k);
    }
  }

  lemma SatisfiedNow(fields: seq<seq<byte>>, format: string, optional: bool)
    requires format != "" && format[0] != ';' && !Satisfied(fields, format, optional, 0)
    ensures (fields == [] && !optional) || !See(format[0], First(fields)).Sees?
  {
    hide See;
    SatisfiedStep(fields, format, optional, 0);
  }

  /** Then the directive at position j has stored what it sees of the field of its rank, in
      the place its own order gives it. */
  lemma {:induction false} StoresItsField(fields: seq<seq<byte>>, format: string, optional: bool, j: nat)
    requires Reads(fields, format, optional).status == Success
    requires j < |format| && format[j] != ';' && format[j] != '_'
    ensures var stored := Reads(fields, format, optional).stored;
      Slot(format, j) < |stored| && See(format[j], Nth(fields, Rank(format, j))) == Sees([stored[Slot(format, j)]])
  {
    hide See;
    if format[0] == ';' {
      StoresItsField(fields, format[1..], true, j - 1);
    } else {
      OnlyOneValue(format[0], First(fields));
      if j > 0 {
        StoresItsField(Others(fields), format[1..], optional, j - 1);
        var k := Rank(format[1..], j - 1);
        assert Nth(fields, k + 1) == Nth(Others(fields), k);
      }
    }
  }

  // ---- sentences that minmea_check accepts ----------------------------------------------

  predicate Ends(v: seq<byte>, n: nat) {
    At(v, n) == STAR || n == |v| || (At(v, n) == LF && n + 1 == |v|)
    || (At(v, n) == CR && At(v, n + 1) == LF && n + 2 == |v|)
  }

  /** Bytes a body may hold, then a checksum field, a line end or nothing. */
  ghost predicate Clean(v: seq<byte>) {
    exists n :: 0 <= n <= |v| && (forall i :: 0 <= i < n ==> Legal(v[i])) && Ends(v, n)
  }

  lemma AcceptedIsClean(s: seq<byte>, strict: bool)
    requires Accepted(s, strict)
    ensures Clean(s)
  {
    if body, u, l, tail :| Checksummed(s, body, u, l, tail) {
      assert Ends(s, 1 + |body|);
    } else {
      var body, tail :| Bare(s, body, tail);
      assert Ends(s, 1 + |body|);
    }
  }

  /** Behind the last field nothing but a line end can follow that strtol would skip. */
  lemma CleanStops(v: seq<byte>)
    requires Clean(v)
    ensures !NmeaInteger.RunsOn(v)
  {
    var length := |FieldText(v)|;
    if length < NmeaInteger.Blanks(v) {
      assert NmeaInteger.IsSpace(v[length]) && v[length] == At(v, length);
      NmeaInteger.BlanksAre(v, |v|);
      assert NmeaInteger.DigitsEnd(v) == |v|;
    }
  }

  lemma CleanSuffix(v: seq<byte>)
    requires Clean(v) && At(v, |FieldText(v)|) == COMMA
    ensures Clean(v[|FieldText(v)| + 1..])
  {
    var n :| 0 <= n <= |v| && (forall i :: 0 <= i < n ==> Legal(v[i])) && Ends(v, n);
    var rest := v[|FieldText(v)| + 1..];
    assert Ends(rest, n - |FieldText(v)| - 1);
  }

  lemma {:induction false} CleanNeverMisreads(v: seq<byte>, format: string)
    requires Clean(v)
    ensures !Misreads(Suffixes(v), format)
    decreases |format|
  {
    if format != "" && format[0] == ';' {
      CleanNeverMisreads(v, format[1..]);
    } else if format != "" {
      CleanStops(v);
      if At(v, |FieldText(v)|) == COMMA {
        CleanSuffix(v);
        CleanNeverMisreads(v[|FieldText(v)| + 1..], format[1..]);
      }
    }
  }

  /** On every sentence that minmea_check accepts, in either mode, every scan stays aligned. */
  lemma CheckedIsAligned(s: seq<byte>, strict: bool, format: string)
    requires Accepted(s, strict)
    ensures Reads(Suffixes(s), format, false) == Reads(Fields(s), format, false)
  {
    AcceptedIsClean(s, strict);
    CleanNeverMisreads(s, format);
    Aligned(s, format);
  }

  const NEXT_LINE: seq<byte> := [0x0a, 0x37]
  const TORN: seq<byte> := [0x24, 0x47, 0x50, 0x47, 0x47, 0x41, 0x2c] + NEXT_LINE

  lemma TornFields()
    ensures FieldText(TORN) == TORN[..6] && Suffixes(TORN) == [TORN, NEXT_LINE] && Fields(TORN) == [TORN[..6], []]
  {
    TextReaches(TORN, 6);
    assert TORN[7..] == NEXT_LINE && FieldText(NEXT_LINE) == [];
    assert Suffixes(NEXT_LINE) == [NEXT_LINE];
    SuffixesAreFields(TORN);
  }

  lemma NextLineNumber()
    ensures NmeaInteger.Strtol(NEXT_LINE) == (7, 2) && NmeaInteger.RunsOn(NEXT_LINE)
  {
    NmeaInteger.BlanksAre(NEXT_LINE, 1);
    assert NEXT_LINE[1..] == [0x37];
    NmeaInteger.AllDigitsRun(NEXT_LINE[1..]);
    assert NEXT_LINE[1..2] == [] + [0x37];
    NumberAppend([], 0x37);
  }

  lemma TornSeen()
    ensures See('t', TORN) == See('t', TORN[..6]) == Sees([Talker(TORN[1..6])])
    ensures See('i', NEXT_LINE) == Sees([Int(7)]) && See('i', []) == Sees([Int(0)])
  {
    TornFields();
    NextLineNumber();
    TextOfText(TORN[..6]);
    assert TORN[..6][1..6] == TORN[1..6];
  }

  /** A sentence minmea_check refuses: its second field is empty, and the 7 on the next line is
      read for it. */
  lemma MisreadExample()
    ensures Misreads(Suffixes(TORN), "ti")
    ensures Reads(Suffixes(TORN), "ti", false) == Outcome(Success, [Talker(TORN[1..6]), Int(7)])
    ensures Reads(Fields(TORN), "ti", false) == Outcome(Success, [Talker(TORN[1..6]), Int(0)])
  {
    hide FieldText, Suffixes, Fields, NmeaInteger.RunsOn, See;
    TornFields();
    NextLineNumber();
    TornSeen();
    assert "ti"[1..] == "i" && "i"[1..] == "";
    assert Reads([[]], "i", false) == Outcome(Success, [Int(0)] + []);
    assert Reads([NEXT_LINE], "i", false) == Outcome(Success, [Int(7)] + []);
  }
}
