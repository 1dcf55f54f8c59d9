/** minmea.c: the f directive, a fixed-point number kept in two 32-bit integers. */
module NmeaFloat {
  import opened NmeaFrame
  import opened NmeaNumber

  const PLUS: byte := 0x2b
  const MINUS: byte := 0x2d
  const POINT: byte := 0x2e
  const SPACE: byte := 0x20

  /** INT_LEAST32_MAX. */
  const MAX: int := 0x7fff_ffff

  /** What the directive makes of a field. Overflow: the scale has left its 32 bits, which in C
      is undefined. */
  datatype Reading = Bad | Overflow | Fraction(value: int, scale: int)

  datatype Acc = Acc(sign: int, value: int, scale: int)

  /** Where the loop is after some bytes: still going, ended early with the precision used up,
      or failed. */
  datatype Fate = Going(acc: Acc) | Full(acc: Acc) | Rejected | ScaleLost

  function Step(a: Acc, c: byte): Fate {
    if c == PLUS && a.sign == 0 && a.value == -1 then Going(a.(sign := 1))
    else if c == MINUS && a.sign == 0 && a.value == -1 then Going(a.(sign := -1))
    else if IsDigit(c) then Push(a, Digit(c))
    else if c == POINT && a.scale == 0 then Going(a.(scale := 1))
    else if c == SPACE && a == Acc(0, -1, 0) then Going(a)
    else Rejected
  }

  function Push(a: Acc, digit: nat): Fate {
    var value := if a.value == -1 then 0 else a.value;
    if 10 * value + digit > MAX then
      if a.scale != 0 then Full(a.(value := value)) else Rejected
    else if 10 * a.scale > MAX then ScaleLost
    else Going(Acc(a.sign, 10 * value + digit, 10 * a.scale))
  }

  function Eat(text: seq<byte>, a: Acc): Fate {
    if text == [] then Going(a)
    else
      match Step(a, text[0])
      case Going(b) => Eat(text[1..], b)
      case other => other
  }

  function Finish(f: Fate): Reading {
    match f
    case Rejected => Bad
    case ScaleLost => Overflow
    case Going(a) => Close(a)
    case Full(a) => Close(a)
  }

  function Close(a: Acc): Reading {
    if a.value == -1 then
      if a.sign != 0 || a.scale != 0 then Bad else Fraction(0, 0)
    else
      Fraction(if a.sign != 0 then a.value * a.sign else a.value, if a.scale == 0 then 1 else a.scale)
  }

  function Read(text: seq<byte>): Reading {
    Finish(Eat(text, Acc(0, -1, 0)))
  }

  /** One round of the loop, seen from the field. */
  lemma EatStep(s: seq<byte>, i: nat, a: Acc)
    requires i < |s| && FieldByte(s[i])
    ensures Eat(FieldText(s[i..]), a) ==
      match Step(a, s[i])
      case Going(b) => Eat(FieldText(s[i + 1..]), b)
      case other => other
  {
    FieldTextTail(s, i);
  }

  lemma EatEnd(s: seq<byte>, i: nat, a: Acc)
    requires i <= |s|
    ensures !FieldByte(At(s, i)) ==> Eat(FieldText(s[i..]), a) == Going(a)
  {
  }

  /** The guard is the overflow test it is meant to be. */
  lemma GuardIsExact(value: int, digit: nat)
    requires digit <= 9
    ensures value > (MAX - digit) / 10 <==> 10 * value + digit > MAX
  {
  }

  method Scan(s: seq<byte>, start: nat) returns (r: Reading)
    requires IsCString(s) && start <= |s|
    ensures r == Read(FieldText(s[start..]))
  {
    hide Eat, FieldText, FieldByte, IsDigit, Digit;
    var sign, value, scale := 0, -1, 0;
    var i := start;
    var full := false;
    ghost var goal := Read(FieldText(s[start..]));
    while FieldByte(At(s, i)) && !full
      invariant start <= i <= |s| && -1 <= value <= MAX && 0 <= scale <= MAX && -1 <= sign <= 1
      invariant goal == if full then Close(Acc(sign, value, scale))
                        else Finish(Eat(FieldText(s[i..]), Acc(sign, value, scale)))
      decreases |s| - i, if full then 0 else 1
    {
      var c := At(s, i);
      EatStep(s, i, Acc(sign, value, scale));
      if c == PLUS && sign == 0 && value == -1 {
        sign := 1;
      } else if c == MINUS && sign == 0 && value == -1 {
        sign := -1;
      } else if IsDigit(c) {
        var digit := Digit(c);
        if value == -1 {
          value := 0;
        }
        GuardIsExact(value, digit);
        if value > (MAX - digit) / 10 {
          if scale != 0 {
            full := true;
          } else {
            return Bad;
          }
        } else {
          value := 10 * value + digit;
          if scale != 0 {
            if scale * 10 > MAX {
              return Overflow;
            }
            scale := scale * 10;
          }
        }
      } else if c == POINT && scale == 0 {
        scale := 1;
      } else if c == SPACE {
        if sign != 0 || value != -1 || scale != 0 {
          return Bad;
        }
      } else {
        return Bad;
      }
      if !full {
        i := i + 1;
      }
    }
    EatEnd(s, i, Acc(sign, value, scale));
    if (sign != 0 || scale != 0) && value == -1 {
      return Bad;
    }
    if value == -1 {
      value, scale := 0, 0;
    } else if scale == 0 {
      scale := 1;
    }
    if sign != 0 {
      value := value * sign;
    }
    return Fraction(value, scale);
  }

  // ---- what it makes of a decimal --------------------------------------------------------

  datatype Decimal = Decimal(spaces: nat, sign: seq<byte>, whole: seq<byte>, point: bool, fraction: seq<byte>)

  ghost predicate WellFormed(d: Decimal) {
    d.sign in [[], [PLUS], [MINUS]] && IsDigits(d.whole) && IsDigits(d.fraction) && (!d.point ==> d.fraction == [])
  }

  function Spaces(n: nat): seq<byte> {
    seq(n, _ => SPACE)
  }

  /** The part of the field behind the whole digits. */
  function Tail(d: Decimal): seq<byte> {
    if d.point then [POINT] + d.fraction else []
  }

  /** Spaces, a sign, digits, a point, digits. */
  function Written(d: Decimal): seq<byte> {
    Spaces(d.spaces) + (d.sign + (d.whole + Tail(d)))
  }

  function Signed(sign: seq<byte>): int {
    if sign == [PLUS] then 1 else if sign == [MINUS] then -1 else 0
  }

  /** How many of the next digits can follow those before them without leaving 32 bits. */
  function Keep(before: seq<byte>, digits: seq<byte>): (k: nat)
    requires IsDigits(before) && IsDigits(digits)
    ensures k <= |digits|
    decreases |digits|
  {
    if digits == [] || Number(before + [digits[0]]) > MAX then 0 else 1 + Keep(before + [digits[0]], digits[1..])
  }

  /** It is the longest prefix that fits: the numbers up to it do, those beyond do not. */
  lemma {:induction false} KeepIsLongest(before: seq<byte>, digits: seq<byte>, n: nat)
    requires IsDigits(before) && IsDigits(digits) && Number(before) <= MAX && n <= |digits|
    ensures Number(before + digits[..n]) <= MAX <==> n <= Keep(before, digits)
    decreases |digits|
  {
    if n == 0 {
      assert before + digits[..n] == before;
    } else {
      var longer := before + [digits[0]];
      assert before + digits[..n] == longer + digits[1..][..n - 1];
      if Number(longer) <= MAX {
        KeepIsLongest(longer, digits[1..], n - 1);
      } else {
        Grows(longer, digits[1..][..n - 1]);
      }
    }
  }

  function Shown(digits: seq<byte>): int
    requires IsDigits(digits)
  {
    if digits == [] then -1 else Number(digits)
  }

  lemma {:induction false} EatSpaces(n: nat, rest: seq<byte>)
    ensures Eat(Spaces(n) + rest, Acc(0, -1, 0)) == Eat(rest, Acc(0, -1, 0))
  {
    if n == 0 {
      assert Spaces(n) + rest == rest;
    } else {
      assert (Spaces(n) + rest)[1..] == Spaces(n - 1) + rest;
      EatSpaces(n - 1, rest);
    }
  }

  lemma EatSign(sign: seq<byte>, rest: seq<byte>)
    requires sign in [[], [PLUS], [MINUS]]
    ensures Eat(sign + rest, Acc(0, -1, 0)) == Eat(rest, Acc(Signed(sign), -1, 0))
  {
    if sign == [] {
      assert sign + rest == rest;
    } else {
      assert (sign + rest)[1..] == rest;
    }
  }

  lemma StepDigit(before: seq<byte>, c: byte, sign: int, scale: int)
    requires IsDigits(before) && IsDigit(c) && Number(before) <= MAX
    ensures IsDigits(before + [c]) && before + [c] != []
    ensures Step(Acc(sign, Shown(before), scale), c)
         == if Number(before + [c]) > MAX then if scale != 0 then Full(Acc(sign, Shown(before), scale)) else Rejected
            else if 10 * scale > MAX then ScaleLost
            else Going(Acc(sign, Shown(before + [c]), 10 * scale))
  {
    NumberAppend(before, c);
    assert Number([]) == 0;
    hide Number, Digit;
  }

  lemma {:induction false} EatWhole(before: seq<byte>, digits: seq<byte>, rest: seq<byte>, sign: int)
    requires IsDigits(before) && IsDigits(digits) && Number(before) <= MAX
    ensures Eat(digits + rest, Acc(sign, Shown(before), 0))
         == if Number(before + digits) <= MAX then Eat(rest, Acc(sign, Shown(before + digits), 0)) else Rejected
    decreases |digits|
  {
    hide Number, Digit, Step, Push;
    if digits == [] {
      assert digits + rest == rest && before + digits == before;
    } else {
      var longer := before + [digits[0]];
      StepDigit(before, digits[0], sign, 0);
      assert (digits + rest)[1..] == digits[1..] + rest && before + digits == longer + digits[1..];
      if Number(longer) <= MAX {
        EatWhole(longer, digits[1..], rest, sign);
      } else {
        Grows(longer, digits[1..]);
      }
    }
  }

  /** What is read from the digits behind the point, the scale being 10^k before them. */
  function AfterPoint(before: seq<byte>, digits: seq<byte>, sign: int, k: nat): Reading
    requires IsDigits(before) && IsDigits(digits)
  {
    var n := Keep(before, digits);
    if k + n > 9 then Overflow else Close(Acc(sign, Shown(before + digits[..n]), Pow10(k + n)))
  }

  lemma AfterPointStep(before: seq<byte>, digits: seq<byte>, sign: int, k: nat)
    requires IsDigits(before) && IsDigits(digits) && k <= 9
    ensures digits == [] ==> AfterPoint(before, digits, sign, k) == Close(Acc(sign, Shown(before), Pow10(k)))
    ensures digits != [] ==> (
      AfterPoint(before, digits, sign, k)
      == if Number(before + [digits[0]]) > MAX then Close(Acc(sign, Shown(before), Pow10(k)))
         else if k == 9 then Overflow
         else AfterPoint(before + [digits[0]], digits[1..], sign, k + 1))
  {
    hide Number, Digit, Pow10, Close, Shown;
    assert before + digits[..0] == before;
    if digits != [] && Number(before + [digits[0]]) <= MAX {
      var n := Keep(before + [digits[0]], digits[1..]);
      assert before + digits[..1 + n] == before + [digits[0]] + digits[1..][..n];
    }
  }

  lemma {:induction false} EatFraction(before: seq<byte>, digits: seq<byte>, sign: int, k: nat)
    requires IsDigits(before) && IsDigits(digits) && Number(before) <= MAX && k <= 9
    ensures Finish(Eat(digits, Acc(sign, Shown(before), Pow10(k)))) == AfterPoint(before, digits, sign, k)
    decreases |digits|
  {
    PowerFits(k);
    PowerStep(k);
    hide Number, Digit, Step, Push, Pow10, Close, Shown, Keep, AfterPoint;
    AfterPointStep(before, digits, sign, k);
    if digits != [] {
      StepDigit(before, digits[0], sign, Pow10(k));
      if Number(before + [digits[0]]) <= MAX && k < 9 {
        EatFraction(before + [digits[0]], digits[1..], sign, k + 1);
      }
    }
  }

  lemma PowerStep(k: nat)
    ensures Pow10(k + 1) == 10 * Pow10(k)
  {
  }

  /** 10^9 is the largest power of ten in 32 bits. */
  lemma PowerFits(k: nat)
    requires k <= 9
    ensures Pow10(k) <= MAX && (10 * Pow10(k) > MAX <==> k == 9)
  {
    if k < 9 {
      PowerBelow(k);
    }
  }

  lemma {:induction false} PowerBelow(k: nat)
    requires k <= 9
    ensures Pow10(k) * Pow10(9 - k) == 1_000_000_000
  {
    if k == 0 {
      assert Pow10(3) == 1000 && Pow10(6) == 1_000_000 && Pow10(9) == 1_000_000_000;
    } else {
      PowerBelow(k - 1);
      assert Pow10(9 - (k - 1)) == 10 * Pow10(9 - k);
    }
  }

  // ---- the meaning of a decimal ---------------------------------------------------------

  /** Every digit before the point has to fit, and at least one digit has to be there once
      anything is. Behind the point, the digits that do not fit any more are dropped. */
  function Meaning(d: Decimal): Reading
    requires WellFormed(d)
  {
    var kept := Keep(d.whole, d.fraction);
    if d.whole + d.fraction == [] then
      if d.sign != [] || d.point then Bad else Fraction(0, 0)
    else if Number(d.whole) > MAX then Bad
    else if kept > 9 then Overflow
    else
      var magnitude: int := Number(d.whole + d.fraction[..kept]);
      Fraction(if d.sign == [MINUS] then -magnitude else magnitude, Pow10(kept))
  }

  lemma EatTail(d: Decimal, sign: int)
    requires WellFormed(d) && Number(d.whole) <= MAX
    ensures Finish(Eat(Tail(d), Acc(sign, Shown(d.whole), 0)))
         == var n := Keep(d.whole, d.fraction);
            if n > 9 then Overflow
            else Close(Acc(sign, Shown(d.whole + d.fraction[..n]), if d.point then Pow10(n) else 0))
  {
    hide Number, Digit;
    if d.point {
      assert Tail(d)[1..] == d.fraction;
      EatFraction(d.whole, d.fraction, sign, 0);
    } else {
      assert d.whole + d.fraction[..0] == d.whole;
    }
  }

  /** The first digit always fits. */
  lemma KeepsFirst(digits: seq<byte>)
    requires IsDigits(digits) && digits != []
    ensures Keep([], digits) > 0
  {
    NumberAppend([], digits[0]);
  }

  lemma ReadsTail(d: Decimal)
    requires WellFormed(d)
    ensures Read(Written(d))
         == if Number(d.whole) <= MAX then Finish(Eat(Tail(d), Acc(Signed(d.sign), Shown(d.whole), 0))) else Bad
  {
    EatSpaces(d.spaces, d.sign + (d.whole + Tail(d)));
    EatSign(d.sign, d.whole + Tail(d));
    assert Number([]) == 0;
    hide Eat, Number, Spaces, Tail, Digit;
    EatWhole([], d.whole, Tail(d), Signed(d.sign));
    assert [] + d.whole == d.whole;
  }

  lemma ReadDecimal(d: Decimal)
    requires WellFormed(d)
    ensures Read(Written(d)) == Meaning(d)
  {
    assert Number([]) == 0;
    hide Eat, Number, Keep, Pow10, Read, Written, Tail, Digit, Step, Push;
    ReadsTail(d);
    if Number(d.whole) <= MAX {
      EatTail(d, Signed(d.sign));
      var kept := Keep(d.whole, d.fraction);
      if d.whole + d.fraction[..kept] == [] && d.fraction != [] {
        KeepsFirst(d.fraction);
        assert false;
      }
      if !d.point {
        assert Pow10(0) == 1;
      }
    }
  }

  function Magnitude(x: int): nat {
    if x < 0 then -x else x
  }

  /** exact / unit is value / scale or above it by less than 1 / scale. */
  predicate RoundsDown(value: nat, scale: nat, exact: nat, unit: nat) {
    value * unit <= exact * scale < (value + 1) * unit
  }

  /** The number read is the decimal rounded towards zero to a multiple of 1 / scale, and
      neither of its two integers leaves 32 bits. */
  lemma ReadRoundsDown(d: Decimal)
    requires WellFormed(d) && d.whole + d.fraction != [] && Read(Written(d)).Fraction?
    ensures var r := Read(Written(d));
            0 < r.scale <= MAX && Magnitude(r.value) <= MAX
            && RoundsDown(Magnitude(r.value), r.scale, Number(d.whole + d.fraction), Pow10(|d.fraction|))
            && (r.value < 0 ==> d.sign == [MINUS]) && (r.value > 0 ==> d.sign != [MINUS])
  {
    hide Keep, Number, Pow10, Read, Written, RoundsDown;
    ReadDecimal(d);
    var kept := Keep(d.whole, d.fraction);
    KeepIsLongest(d.whole, d.fraction, kept);
    PowerFits(kept);
    KeptRoundsDown(d.whole, d.fraction, kept);
  }

  lemma KeptRoundsDown(whole: seq<byte>, fraction: seq<byte>, kept: nat)
    requires IsDigits(whole) && IsDigits(fraction) && kept <= |fraction|
    ensures RoundsDown(Number(whole + fraction[..kept]), Pow10(kept), Number(whole + fraction), Pow10(|fraction|))
  {
    hide Number, Pow10;
    var taken, dropped := whole + fraction[..kept], fraction[kept..];
    assert taken + dropped == whole + fraction;
    Truncates(taken, dropped);
    Pow10Sum(kept, |dropped|);
    Scaled(Number(taken), Pow10(|dropped|), Number(taken + dropped), Pow10(kept));
  }

  lemma Scaled(x: nat, p: nat, y: nat, q: nat)
    requires x * p <= y < (x + 1) * p && q > 0
    ensures x * (q * p) <= y * q < (x + 1) * (q * p)
  {
    assert x * (q * p) == (x * p) * q;
    assert (x + 1) * (q * p) == ((x + 1) * p) * q;
    Monotone(x * p, y, q);
    Strictly(y, (x + 1) * p, q);
  }

  lemma Monotone(a: nat, b: nat, q: nat)
    requires a <= b
    ensures a * q <= b * q
  {
  }

  lemma Strictly(a: nat, b: nat, q: nat)
    requires a < b && q > 0
    ensures a * q < b * q
  {
  }

  /** The scale leaves its 32 bits exactly when ten fraction digits fit the value; no decimal
      with a nonzero whole part, and none with up to nine fraction digits, gets there. */
  lemma ScaleOverflows(d: Decimal)
    requires WellFormed(d)
    ensures Read(Written(d)) == Overflow
      <==> Number(d.whole) <= MAX && |d.fraction| >= 10 && Number(d.whole + d.fraction[..10]) <= MAX
    ensures Read(Written(d)) == Overflow ==> Number(d.whole) == 0 && |d.fraction| > 9
  {
    ReadDecimal(d);
    if Number(d.whole) <= MAX && |d.fraction| >= 10 {
      KeepIsLongest(d.whole, d.fraction, 10);
      Truncates(d.whole, d.fraction[..10]);
      PowerBelow(9);
      if Number(d.whole) >= 1 {
        Monotone(1, Number(d.whole), Pow10(10));
      }
    }
  }

  const ZERO: byte := 0x30
  const ONE: byte := 0x31
  const NINE: byte := 0x39

  lemma {:induction false} NumberZeros(n: nat)
    ensures Number(seq(n, _ => ZERO)) == 0
  {
    if n > 0 {
      assert seq(n, _ => ZERO)[..n - 1] == seq(n - 1, _ => ZERO);
      NumberZeros(n - 1);
    }
  }

  lemma {:induction false} NumberNines(n: nat)
    ensures IsDigits([ZERO] + seq(n, _ => NINE)) && Number([ZERO] + seq(n, _ => NINE)) == Pow10(n) - 1
  {
    if n == 0 {
      assert [ZERO] + seq(n, _ => NINE) == [] + [ZERO];
      NumberAppend([], ZERO);
    } else {
      NumberNines(n - 1);
      assert [ZERO] + seq(n, _ => NINE) == [ZERO] + seq(n - 1, _ => NINE) + [NINE];
      NumberAppend([ZERO] + seq(n - 1, _ => NINE), NINE);
    }
  }

  /** On 0.0000000001 the scale leaves its 32 bits. */
  lemma TinyOverflows()
    ensures Read([ZERO, POINT] + seq(9, _ => ZERO) + [ONE]) == Overflow
  {
    hide Read, Number, Digit, Pow10;
    var d := Decimal(0, [], [ZERO], true, seq(9, _ => ZERO) + [ONE]);
    assert Written(d) == [ZERO, POINT] + seq(9, _ => ZERO) + [ONE];
    NumberZeros(1);
    NumberZeros(10);
    assert d.whole == seq(1, _ => ZERO);
    assert d.whole + d.fraction[..10] == seq(10, _ => ZERO) + [ONE];
    NumberAppend(seq(10, _ => ZERO), ONE);
    ScaleOverflows(d);
  }

  /** On 0.9999999999, with as many digits, it does not: the tenth digit no longer fits. */
  lemma NinesFit()
    ensures Read([ZERO, POINT] + seq(10, _ => NINE)) == Fraction(999_999_999, 1_000_000_000)
  {
    hide Read, Number, Digit, Pow10, Keep;
    var d := Decimal(0, [], [ZERO], true, seq(10, _ => NINE));
    assert Written(d) == [ZERO, POINT] + seq(10, _ => NINE);
    ReadDecimal(d);
    NumberZeros(1);
    assert d.whole == seq(1, _ => ZERO);
    NumberNines(9);
    NumberNines(10);
    BillionIs();
    assert d.whole + d.fraction[..9] == [ZERO] + seq(9, _ => NINE);
    assert d.whole + d.fraction[..10] == [ZERO] + seq(10, _ => NINE);
    KeepIsLongest(d.whole, d.fraction, 9);
    KeepIsLongest(d.whole, d.fraction, 10);
  }

  lemma BillionIs()
    ensures Pow10(9) == 1_000_000_000 && Pow10(10) == 10_000_000_000
  {
    PowerBelow(9);
  }

  /** A number that does not fit before the point is refused whatever follows the point, and
      nothing else about a decimal with digits makes it bad. */
  lemma WholeOverflowIsBad(d: Decimal)
    requires WellFormed(d) && d.whole + d.fraction != []
    ensures Read(Written(d)) == Bad <==> Number(d.whole) > 0x7fff_ffff
  {
    ReadDecimal(d);
  }
}
