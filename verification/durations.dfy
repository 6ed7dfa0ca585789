/** Duration strings such as `5m`, `10s`, `1h`. */
module Durations {
  import opened Wrappers
  import opened Text

  const MAX_DURATION_SECS: nat := 86_400
  const U64_MAX: nat := 0xFFFF_FFFF_FFFF_FFFF

  datatype DurationError = Empty | NonAscii | BadValue | BadUnit | Overflow | TooLong

  predicate IsAscii(s: string) {
    forall i :: 0 <= i < |s| ==> s[i] as int < 128
  }

  function Multiplier(unit: char): Option<nat> {
    match unit
    case 's' => Some(1)
    case 'm' => Some(60)
    case 'h' => Some(3600)
    case _ => None
  }

  /** An unsigned 64-bit product, if it fits. */
  function CheckedMul(a: nat, b: nat): Option<nat> {
    if a * b <= U64_MAX then Some(a * b) else None
  }

  function ParseDuration(text: string): Result<nat, DurationError> {
    var s := Trim(text);
    if s == "" then Err(Empty)
    else if !IsAscii(s) then Err(NonAscii)
    else
      match ParseUnsigned(s[..|s| - 1], U64_MAX)
      case None => Err(BadValue)
      case Some(value) =>
        match Multiplier(s[|s| - 1])
        case None => Err(BadUnit)
        case Some(multiplier) =>
          match CheckedMul(value, multiplier)
          case None => Err(Overflow)
          case Some(seconds) => if seconds > MAX_DURATION_SECS then Err(TooLong) else Ok(seconds)
  }

  // ---------------------------------------------------------------------------------------------
  // What is accepted
  // ---------------------------------------------------------------------------------------------

  /** The shape of a duration, with no machine width in sight. */
  ghost predicate DurationText(text: string, value: nat, unit: char) {
    exists number :: Decimal(number, value) && Padded(text, number + [unit])
  }

  /** The text spells a number and a unit worth that many seconds, at most a day. */
  ghost predicate AmountsTo(text: string, value: nat, unit: char, seconds: nat) {
    && DurationText(text, value, unit) && Multiplier(unit).Some?
    && seconds == value * Multiplier(unit).value <= MAX_DURATION_SECS
  }

  lemma DecimalEnds(s: string, value: nat)
    requires Decimal(s, value)
    ensures |s| > 0 && !IsSpace(s[0]) && IsAscii(s)
  {
    var digits :| && (s == digits || s == "+" + digits) && |digits| > 0 && AllDigits(digits)
                  && DigitsValue(digits) == value;
    forall i | 0 <= i < |s| ensures s[i] == '+' || IsDigit(s[i]) {
      if s != digits && i > 0 {
        assert s[i] == digits[i - 1];
      }
    }
  }

  /** Trimming leaves a number and its unit exactly when the text is one of each, padded. */
  lemma TrimmedShape(text: string, number: string, value: nat, unit: char)
    requires Decimal(number, value) && Multiplier(unit).Some?
    ensures Padded(text, number + [unit]) <==> Trim(text) == number + [unit]
  {
    DecimalEnds(number, value);
    TrimMeaning(text, number + [unit]);
  }

  lemma AcceptedHasShape(text: string, seconds: nat)
    requires ParseDuration(text) == Ok(seconds)
    ensures exists value: nat, unit :: AmountsTo(text, value, unit, seconds)
  {
    var s := Trim(text);
    var number, unit := s[..|s| - 1], s[|s| - 1];
    assert s == number + [unit];
    var value := ParseUnsigned(number, U64_MAX).value;
    ParseUnsignedIff(number, U64_MAX, value);
    TrimmedShape(text, number, value, unit);
    assert AmountsTo(text, value, unit, seconds);
  }

  /** What the end of the parse makes of a number of seconds. */
  function Bounded(seconds: nat): Result<nat, DurationError> {
    if seconds > U64_MAX then Err(Overflow)
    else if seconds > MAX_DURATION_SECS then Err(TooLong)
    else Ok(seconds)
  }

  lemma ShapeDecides(text: string, value: nat, unit: char)
    requires DurationText(text, value, unit) && Multiplier(unit).Some?
    ensures ParseDuration(text) ==
            if value > U64_MAX then Err(BadValue) else Bounded(value * Multiplier(unit).value)
  {
    hide ParseDuration;
    hide Trim;
    var number :| Decimal(number, value) && Padded(text, number + [unit]);
    TrimmedShape(text, number, value, unit);
    DecimalEnds(number, value);
    NumberDecides(text, number, value, unit, Multiplier(unit).value, value * Multiplier(unit).value);
  }

  lemma NumberDecides(text: string, number: string, value: nat, unit: char, multiplier: nat, seconds: nat)
    requires Trim(text) == number + [unit] && IsAscii(number) && Decimal(number, value)
    requires Multiplier(unit) == Some(multiplier) && seconds == value * multiplier
    ensures ParseDuration(text) == if value > U64_MAX then Err(BadValue) else Bounded(seconds)
  {
    hide Trim;
    hide Decimal;
    hide ParseUnsigned;
    var s := Trim(text);
    assert s[..|s| - 1] == number && s[|s| - 1] == unit && IsAscii(s);
    if value > U64_MAX {
      ParsesToNone(number, value);
    } else {
      ParseUnsignedIff(number, U64_MAX, value);
      assert CheckedMul(value, multiplier) == if seconds <= U64_MAX then Some(seconds) else None;
    }
  }

  lemma ParsesToNone(number: string, value: nat)
    requires Decimal(number, value) && value > U64_MAX
    ensures ParseUnsigned(number, U64_MAX) == None
  {
    ParseUnsignedIff(number, value, value);
  }

  /**
   Parsing accepts exactly a decimal and a unit whose mathematical product is at most a day, and returns
   that product: neither the ASCII check, the 64-bit width nor the overflow check turns anything else away.
   */
  lemma AcceptsExactly(text: string, seconds: nat)
    ensures ParseDuration(text) == Ok(seconds) <==> exists value: nat, unit :: AmountsTo(text, value, unit, seconds)
  {
    if ParseDuration(text) == Ok(seconds) {
      AcceptedHasShape(text, seconds);
    }
    if value: nat, unit :| AmountsTo(text, value, unit, seconds) {
      ShapeDecides(text, value, unit);
      assert value <= value * Multiplier(unit).value;
    }
  }

  /** Parsing inverts printing, in every unit and inside any whitespace. */
  lemma ParseInvertsPrintedDuration(n: nat, unit: char, before: string, after: string)
    requires Multiplier(unit).Some? && AllSpace(before) && AllSpace(after)
    requires n * Multiplier(unit).value <= MAX_DURATION_SECS
    ensures ParseDuration(before + (Print(n) + [unit]) + after) == Ok(n * Multiplier(unit).value)
  {
    hide ParseDuration;
    PrintedText(n, unit, before, after);
    ShapeDecides(before + (Print(n) + [unit]) + after, n, unit);
    assert n <= n * Multiplier(unit).value;
  }

  lemma PrintedText(n: nat, unit: char, before: string, after: string)
    requires AllSpace(before) && AllSpace(after)
    ensures DurationText(before + (Print(n) + [unit]) + after, n, unit)
  {
    PrintValue(n);
    var number := Print(n);
    assert Decimal(number, n);
    hide Print;
    hide DigitsValue;
    assert Padded(before + (number + [unit]) + after, number + [unit]);
  }

  /** What each unit is worth; no other character is a unit, and a day is the limit in each. */
  lemma UnitsAreWorth(n: nat, unit: char)
    ensures unit !in {'s', 'm', 'h'} ==> ParseDuration(Print(n) + [unit]).Err?
    ensures ParseDuration(Print(n) + ['s']).Ok? <==> n <= 86_400
    ensures n <= 86_400 ==> ParseDuration(Print(n) + ['s']) == Ok(n)
    ensures ParseDuration(Print(n) + ['m']).Ok? <==> n <= 1_440
    ensures n <= 1_440 ==> ParseDuration(Print(n) + ['m']) == Ok(60 * n)
    ensures ParseDuration(Print(n) + ['h']).Ok? <==> n <= 24
    ensures n <= 24 ==> ParseDuration(Print(n) + ['h']) == Ok(3_600 * n)
  {
    hide ParseDuration;
    hide Print;
    UnitIsWorth(n, 's');
    UnitIsWorth(n, 'm');
    UnitIsWorth(n, 'h');
    if unit !in {'s', 'm', 'h'} {
      NoOtherUnit(Print(n), unit);
    }
  }

  lemma UnitIsWorth(n: nat, unit: char)
    requires Multiplier(unit).Some?
    ensures ParseDuration(Print(n) + [unit]) ==
            if n > U64_MAX then Err(BadValue) else Bounded(n * Multiplier(unit).value)
  {
    hide ParseDuration;
    PrintedText(n, unit, "", "");
    assert "" + (Print(n) + [unit]) + "" == Print(n) + [unit];
    ShapeDecides(Print(n) + [unit], n, unit);
  }

  /** Whatever is accepted ends, but for white space, in one of the three units. */
  lemma NoOtherUnit(number: string, unit: char)
    requires unit !in {'s', 'm', 'h'} && |number| > 0 && AllDigits(number)
    ensures ParseDuration(number + [unit]).Err?
  {
    var text := number + [unit];
    assert IsDigit(number[0]) && IsDigit(number[|number| - 1]);
    DigitIsNoSpace(number[0]);
    DigitIsNoSpace(number[|number| - 1]);
    hide IsSpace;
    if IsSpace(unit) {
      PaddedBy(text, "", number, [unit]);
      TrimMeaning(text, number);
      LastIsUnit(text, number);
    } else {
      PaddedBy(text, "", text, "");
      TrimMeaning(text, text);
      LastIsUnit(text, text);
    }
  }

  lemma DigitIsNoSpace(c: char)
    ensures IsDigit(c) ==> !IsSpace(c) && c !in {'s', 'm', 'h'}
  {
  }

  lemma LastIsUnit(text: string, s: string)
    requires Trim(text) == s && |s| > 0 && s[|s| - 1] !in {'s', 'm', 'h'}
    ensures ParseDuration(text).Err?
  {
    hide Trim;
    hide ParseUnsigned;
  }

  /** A decimal that fits 64 bits. */
  ghost predicate WordDecimal(s: string) {
    exists n: nat :: n <= 0xFFFF_FFFF_FFFF_FFFF && Decimal(s, n)
  }

  /** Why a text is turned away: blank, then not ASCII, then no number, then no unit. */
  lemma DurationFaults(text: string)
    ensures ParseDuration(text) == Err(Empty) <==> AllSpace(text)
    ensures !AllSpace(text) ==> Trim(text) != ""
    ensures !AllSpace(text) ==>
              var s := Trim(text);
              var number, unit := s[..|s| - 1], s[|s| - 1];
              && (ParseDuration(text) == Err(NonAscii) <==> exists i :: 0 <= i < |s| && s[i] as int >= 128)
              && (IsAscii(s) ==> (ParseDuration(text) == Err(BadValue) <==> !WordDecimal(number)))
              && (IsAscii(s) ==>
                    (ParseDuration(text) == Err(BadUnit) <==> WordDecimal(number) && unit !in {'s', 'm', 'h'}))
  {
    hide Trim;
    hide ParseUnsigned;
    hide IsSpace;
    hide AllSpace;
    hide WordDecimal;
    BlankIff(text);
    if Trim(text) != "" {
      WordDecimalIff(Trim(text)[..|Trim(text)| - 1]);
    }
  }

  lemma BlankIff(text: string)
    ensures Trim(text) == "" <==> AllSpace(text)
  {
    TrimMeaning(text, "");
    hide Trim;
    hide IsSpace;
    if AllSpace(text) {
      assert AllSpace("");
      PaddedBy(text, text, "", "");
    }
    if a, b :| AllSpace(a) && AllSpace(b) && text == a + "" + b {
      assert forall c :: c in text ==> c in a || c in b;
    }
  }

  lemma WordDecimalIff(s: string)
    ensures WordDecimal(s) <==> ParseUnsigned(s, U64_MAX).Some?
  {
    if ParseUnsigned(s, U64_MAX).Some? {
      ParseUnsignedIff(s, U64_MAX, ParseUnsigned(s, U64_MAX).value);
    }
    if n: nat :| n <= U64_MAX && Decimal(s, n) {
      ParseUnsignedIff(s, U64_MAX, n);
    }
  }
}
