/** minmea.c: the i directive, which hands the rest of the sentence to strtol. */
module NmeaInteger {
  import opened NmeaFrame
  import opened NmeaNumber

  const PLUS: byte := 0x2b
  const MINUS: byte := 0x2d
  const SPACE: byte := 0x20

  /** A 64-bit long. */
  const LONG_MAX: int := 0x7fff_ffff_ffff_ffff

  /** isspace. */
  predicate IsSpace(c: byte) {
    c == SPACE || 0x09 <= c <= 0x0d
  }

  function Blanks(s: seq<byte>): (n: nat)
    ensures n <= |s| && !IsSpace(At(s, n)) && forall i :: 0 <= i < n ==> IsSpace(s[i])
  {
    if s == [] || !IsSpace(s[0]) then 0 else 1 + Blanks(s[1..])
  }

  function DigitRun(s: seq<byte>): (n: nat)
    ensures n <= |s| && !IsDigit(At(s, n)) && forall i :: 0 <= i < n ==> IsDigit(s[i])
  {
    if s == [] || !IsDigit(s[0]) then 0 else 1 + DigitRun(s[1..])
  }

  /** Where the digits of a number behind white space would start. */
  function DigitsStart(s: seq<byte>): (n: nat)
    ensures n <= |s|
  {
    var n := Blanks(s);
    if At(s, n) == PLUS || At(s, n) == MINUS then n + 1 else n
  }

  function DigitsEnd(s: seq<byte>): (n: nat)
    ensures DigitsStart(s) <= n <= |s|
  {
    DigitsStart(s) + DigitRun(s[DigitsStart(s)..])
  }

  predicate HasNumber(s: seq<byte>) {
    DigitsEnd(s) > DigitsStart(s)
  }

  function Capped(n: int): (v: int)
    ensures -LONG_MAX - 1 <= v <= LONG_MAX && (-LONG_MAX - 1 <= n <= LONG_MAX ==> v == n)
  {
    if n > LONG_MAX then LONG_MAX else if n < -LONG_MAX - 1 then -LONG_MAX - 1 else n
  }

  /** The value strtol reports, capped at the ends of a long, and where it stops; where there
      are no digits, zero and the start. */
  function Strtol(s: seq<byte>): (result: (int, nat))
    ensures result.1 <= |s|
  {
    var start, end := DigitsStart(s), DigitsEnd(s);
    if HasNumber(s) then
      assert s[start..end] == s[start..][..end - start];
      var n: int := Number(s[start..end]);
      (Capped(if s[Blanks(s)] == MINUS then -n else n), end)
    else
      (0, 0)
  }

  /** A long stored in a 32-bit int. */
  function ToInt(v: int): (r: int)
    ensures -0x8000_0000 <= r <= 0x7fff_ffff && (v - r) % 0x1_0000_0000 == 0
    ensures -0x8000_0000 <= v <= 0x7fff_ffff ==> r == v
  {
    (v + 0x8000_0000) % 0x1_0000_0000 - 0x8000_0000
  }

  datatype Reading = Bad | Integer(value: int)

  function Read(s: seq<byte>): Reading {
    var (value, end) := Strtol(s);
    if FieldByte(At(s, end)) then Bad else Integer(ToInt(value))
  }

  // ---- what it makes of a field ---------------------------------------------------------

  /** The field holds spaces alone, strtol runs on over white space behind it, finds a number
      there, and the outcome shows. */
  predicate RunsOn(s: seq<byte>) {
    var length := |FieldText(s)|;
    length < Blanks(s) && HasNumber(s)
    && if length == 0 then FieldByte(At(s, DigitsEnd(s))) || ToInt(Strtol(s).0) != 0
       else !FieldByte(At(s, DigitsEnd(s)))
  }

  lemma {:induction false} BlanksOfPrefix(s: seq<byte>, length: nat)
    requires length <= |s|
    ensures Blanks(s[..length]) == if Blanks(s) < length then Blanks(s) else length
  {
    if length > 0 && IsSpace(s[0]) {
      assert s[..length][1..] == s[1..][..length - 1];
      BlanksOfPrefix(s[1..], length - 1);
    }
  }

  lemma {:induction false} DigitRunOfPrefix(s: seq<byte>, length: nat)
    requires length <= |s|
    ensures DigitRun(s[..length]) == if DigitRun(s) < length then DigitRun(s) else length
  {
    if length > 0 && IsDigit(s[0]) {
      assert s[..length][1..] == s[1..][..length - 1];
      DigitRunOfPrefix(s[1..], length - 1);
    }
  }

  lemma StartInside(s: seq<byte>)
    requires Blanks(s) < |FieldText(s)|
    ensures Blanks(FieldText(s)) == Blanks(s) && DigitsStart(FieldText(s)) == DigitsStart(s) <= |FieldText(s)|
  {
    hide FieldByte, IsSpace;
    BlanksOfPrefix(s, |FieldText(s)|);
    assert At(FieldText(s), Blanks(s)) == At(s, Blanks(s));
  }

  lemma RunsInside(s: seq<byte>, start: nat, length: nat)
    requires start <= length <= |s| && !IsDigit(At(s, length))
    ensures DigitRun(s[..length][start..]) == DigitRun(s[start..]) <= length - start
  {
    assert s[..length][start..] == s[start..][..length - start];
    assert At(s[start..], length - start) == At(s, length);
    hide IsDigit;
    DigitRunOfPrefix(s[start..], length - start);
  }

  /** A number inside the field ends inside it. */
  lemma NumberInside(s: seq<byte>)
    requires Blanks(s) < |FieldText(s)|
    ensures DigitsEnd(FieldText(s)) == DigitsEnd(s) <= |FieldText(s)|
  {
    assert !IsDigit(At(s, |FieldText(s)|));
    hide IsDigit, FieldByte, DigitsStart, Blanks, IsPrint, DigitRun;
    StartInside(s);
    RunsInside(s, DigitsStart(s), |FieldText(s)|);
    assert FieldText(s) == s[..|FieldText(s)|];
  }

  /** Up to the end of a field, the field and the sentence show the same field bytes. */
  lemma SameStop(s: seq<byte>, i: nat)
    requires i <= |FieldText(s)|
    ensures FieldByte(At(s, i)) == FieldByte(At(FieldText(s), i))
  {
  }

  lemma SameNumber(s: seq<byte>)
    requires Blanks(s) < |FieldText(s)|
    ensures Strtol(FieldText(s)) == Strtol(s) && Strtol(s).1 <= |FieldText(s)|
  {
    hide FieldText, Blanks, DigitsStart, DigitsEnd, Number, Capped;
    StartInside(s);
    NumberInside(s);
    var text := FieldText(s);
    assert text == s[..|text|];
    assert text[DigitsStart(s)..DigitsEnd(s)] == s[DigitsStart(s)..DigitsEnd(s)];
  }

  lemma StaysInside(s: seq<byte>)
    requires Blanks(s) < |FieldText(s)|
    ensures Read(s) == Read(FieldText(s))
  {
    hide FieldText, FieldByte, Strtol, ToInt;
    SameNumber(s);
    SameStop(s, Strtol(s).1);
  }

  /** A field of spaces alone holds no number, and one next to it is not adjacent. */
  lemma NoNumberInside(s: seq<byte>)
    requires Blanks(s) >= |FieldText(s)|
    ensures Strtol(FieldText(s)) == (0, 0)
    ensures HasNumber(s) ==> Blanks(s) > |FieldText(s)|
  {
    BlanksOfPrefix(s, |FieldText(s)|);
  }

  /** The directive reads a field as if the sentence ended with it, except exactly where strtol
      runs on. */
  lemma ReadsField(s: seq<byte>)
    ensures Read(s) == Read(FieldText(s)) <==> !RunsOn(s)
  {
    hide FieldText, Blanks, DigitsEnd, Number;
    if Blanks(s) < |FieldText(s)| {
      StaysInside(s);
    } else {
      NoNumberInside(s);
    }
  }

  // ---- what it makes of a number --------------------------------------------------------

  lemma {:induction false} BlanksAre(s: seq<byte>, n: nat)
    requires n <= |s| && !IsSpace(At(s, n)) && forall i :: 0 <= i < n ==> IsSpace(s[i])
    ensures Blanks(s) == n
  {
    if n > 0 {
      BlanksAre(s[1..], n - 1);
    }
  }

  lemma {:induction false} AllDigitsRun(ds: seq<byte>)
    requires IsDigits(ds)
    ensures DigitRun(ds) == |ds|
  {
    if ds != [] {
      AllDigitsRun(ds[1..]);
    }
  }

  /** A number behind spaces is read as itself whenever an int holds it. */
  lemma ReadsNumber(spaces: nat, sign: seq<byte>, digits: seq<byte>)
    requires sign in [[], [PLUS], [MINUS]] && IsDigits(digits) && digits != []
    ensures var n: int := Number(digits);
      Read(seq(spaces, _ => SPACE) + sign + digits) == Integer(ToInt(Capped(if sign == [MINUS] then -n else n)))
  {
    hide Number, Digit, ToInt;
    var s := seq(spaces, _ => SPACE) + sign + digits;
    NumberPlace(s, spaces, sign, digits);
    assert s[spaces + |sign|..|s|] == digits;
  }

  lemma NumberPlace(s: seq<byte>, spaces: nat, sign: seq<byte>, digits: seq<byte>)
    requires sign in [[], [PLUS], [MINUS]] && IsDigits(digits) && digits != []
    requires s == seq(spaces, _ => SPACE) + sign + digits
    ensures Blanks(s) == spaces && DigitsStart(s) == spaces + |sign| && DigitsEnd(s) == |s|
  {
    hide Blanks, DigitRun;
    assert IsDigit(digits[0]);
    assert At(s, spaces) == if sign == [] then digits[0] else sign[0];
    BlanksAre(s, spaces);
    AllDigitsRun(digits);
    assert s[spaces + |sign|..] == digits;
  }

  ghost predicate IsNumber(text: seq<byte>, spaces: nat, sign: seq<byte>, digits: seq<byte>) {
    sign in [[], [PLUS], [MINUS]] && IsDigits(digits) && digits != [] && text == seq(spaces, _ => SPACE) + sign + digits
  }

  /** A field is accepted if and only if it is empty or a number behind spaces: no other byte may
      stand before, in or behind the digits. */
  lemma AcceptsNumbers(text: seq<byte>)
    requires IsText(text)
    ensures Read(text) != Bad <==> text == [] || exists spaces: nat, sign, digits :: IsNumber(text, spaces, sign, digits)
  {
    hide Number, Digit, ToInt, Capped;
    if spaces: nat, sign, digits :| IsNumber(text, spaces, sign, digits) {
      ReadsNumber(spaces, sign, digits);
    }
    if Read(text) != Bad && text != [] {
      NumberFound(text);
    }
  }

  lemma NumberFound(text: seq<byte>)
    requires IsText(text) && text != [] && Read(text) != Bad
    ensures exists spaces: nat, sign, digits :: IsNumber(text, spaces, sign, digits)
  {
    hide Number, Digit, ToInt, Capped;
    var blanks, start, end := Blanks(text), DigitsStart(text), DigitsEnd(text);
    assert end == |text| && HasNumber(text);
    var sign, digits := text[blanks..start], text[start..];
    forall i | 0 <= i < |digits|
      ensures IsDigit(digits[i])
    {
    }
    assert sign in [[], [PLUS], [MINUS]] by {
      assert sign == if start == blanks then [] else [At(text, blanks)];
    }
    SpacesOnly(text);
    assert text == text[..blanks] + sign + digits;
    assert IsNumber(text, blanks, sign, digits);
  }

  lemma SpacesOnly(text: seq<byte>)
    requires IsText(text)
    ensures text[..Blanks(text)] == seq(Blanks(text), _ => SPACE)
  {
  }
}
