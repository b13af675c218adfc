/**
 The number pre-scan: before any parsing, every number token of a JSON text is
 found and judged by its bytes alone. The characters of a text stand for its
 UTF-8 bytes.
 */
module NumberScan {
  import opened Prelude

  datatype NumberError = NonIntegerNumber | UnsafeInteger

  // ------------------------------------------------------ character classes

  predicate IsDigit(c: char) { '0' <= c <= '9' }

  predicate IsSpace(c: char) { c == ' ' || c == '\t' || c == '\n' || c == '\r' }

  predicate IsDelimiter(c: char) { IsSpace(c) || c == ',' || c == ']' || c == '}' }

  predicate IsNumberStart(c: char) { c == '-' || IsDigit(c) }

  predicate IsValuePosition(previous: Option<char>) {
    match previous
    case None => true
    case Some(c) => c == '[' || c == ':' || c == ','
  }

  // ------------------------------------------------------------ one number

  /** Offsets of a number token from its first character. */
  datatype NumberToken = NumberToken(end: nat, integerStart: nat, integerEnd: nat, nonInteger: bool)

  predicate DigitAt(text: string, i: nat) { i < |text| && IsDigit(text[i]) }

  predicate CharAt(text: string, i: nat, c: char) { i < |text| && text[i] == c }

  /** The first place from `i` on that holds no digit. */
  function DigitsEnd(text: string, i: nat): (end: nat)
    requires i <= |text|
    ensures i <= end <= |text|
    decreases |text| - i
  {
    if DigitAt(text, i) then DigitsEnd(text, i + 1) else i
  }

  /** The end of an optional fraction, or nothing when it has no digits. */
  function FractionEnd(text: string, i: nat): (end: Option<nat>)
    requires i <= |text|
    ensures end.Some? ==> i <= end.value <= |text|
  {
    if !CharAt(text, i, '.') then Some(i)
    else if DigitAt(text, i + 1) then Some(DigitsEnd(text, i + 1))
    else None
  }

  /** The end of an optional exponent, or nothing when it has no digits. */
  function ExponentEnd(text: string, i: nat): (end: Option<nat>)
    requires i <= |text|
    ensures end.Some? ==> i <= end.value <= |text|
  {
    if !(CharAt(text, i, 'e') || CharAt(text, i, 'E')) then Some(i)
    else
      var j := if CharAt(text, i + 1, '+') || CharAt(text, i + 1, '-') then i + 2 else i + 1;
      if DigitAt(text, j) then Some(DigitsEnd(text, j)) else None
  }

  function IntegerEnd(text: string, i: nat): (end: Option<nat>)
    requires i <= |text|
    ensures end.Some? ==> i < end.value <= |text|
  {
    if CharAt(text, i, '0') then Some(i + 1)
    else if DigitAt(text, i) then Some(DigitsEnd(text, i + 1))
    else None
  }

  /** The number token at the front of a text, if a delimited one stands there. */
  function Scan(text: string): (token: Option<NumberToken>)
    ensures token.Some? ==> 0 < token.value.end <= |text| && token.value.integerStart <= token.value.integerEnd <= |text|
  {
    var start: nat := if CharAt(text, 0, '-') then 1 else 0;
    match IntegerEnd(text, start)
    case None => None
    case Some(integerEnd) =>
      match FractionEnd(text, integerEnd)
      case None => None
      case Some(fractionEnd) =>
        match ExponentEnd(text, fractionEnd)
        case None => None
        case Some(end) =>
          if end < |text| && !IsDelimiter(text[end]) then None
          else Some(NumberToken(end, start, integerEnd, end != integerEnd))
  }

  const MAX_SAFE_DIGITS := "9007199254740991"

  /** Lexicographic order of two strings of equal length. */
  predicate Above(a: string, b: string)
    requires |a| == |b|
  {
    a != [] && (a[0] > b[0] || (a[0] == b[0] && Above(a[1..], b[1..])))
  }

  predicate ExceedsSafeRange(digits: string) {
    |digits| > |MAX_SAFE_DIGITS| || (|digits| == |MAX_SAFE_DIGITS| && Above(digits, MAX_SAFE_DIGITS))
  }

  // -------------------------------------------------------------- pre-scan

  /** What the pre-scan finds in the rest of a text. */
  function Classify(text: string, inString: bool, escaped: bool, previous: Option<char>): Result<(), NumberError>
    decreases |text|
  {
    if text == [] then Ok(())
    else if inString then
      if escaped then Classify(text[1..], true, false, previous)
      else if text[0] == '\\' then Classify(text[1..], true, true, previous)
      else if text[0] == '"' then Classify(text[1..], false, false, Some('"'))
      else Classify(text[1..], true, false, previous)
    else if text[0] == '"' then Classify(text[1..], true, escaped, previous)
    else if IsSpace(text[0]) then Classify(text[1..], false, escaped, previous)
    else if IsNumberStart(text[0]) && IsValuePosition(previous) && Scan(text).Some? then
      var token := Scan(text).value;
      if token.nonInteger then Err(NonIntegerNumber)
      else if ExceedsSafeRange(text[token.integerStart..token.integerEnd]) then Err(UnsafeInteger)
      else Classify(text[token.end..], false, escaped, Some(text[token.end - 1]))
    else Classify(text[1..], false, escaped, Some(text[0]))
  }

  method ConsumeDigits(text: string, start: nat) returns (index: nat)
    requires start <= |text|
    ensures index == DigitsEnd(text, start)
  {
    index := start;
    while index < |text| && IsDigit(text[index])
      invariant index <= |text| && DigitsEnd(text, index) == DigitsEnd(text, start)
    {
      index := index + 1;
    }
  }

  /** Scans one number token, moving an index over its parts. */
  method ScanNumber(bytes: string, start: nat) returns (r: Option<NumberToken>)
    requires start < |bytes|
    ensures r == Scan(bytes[start..])
  {
    var text := bytes[start..];
    var index := 0;
    if text[index] == '-' {
      index := index + 1;
    }
    var integerStart := index;
    if index >= |text| {
      return None;
    }
    if text[index] == '0' {
      index := index + 1;
    } else if '1' <= text[index] <= '9' {
      index := ConsumeDigits(text, index + 1);
    } else {
      return None;
    }
    var integerEnd := index;
    var fraction := SkipFraction(text, index);
    if fraction.None? {
      return None;
    }
    var exponent := SkipExponent(text, fraction.value);
    if exponent.None? {
      return None;
    }
    index := exponent.value;
    if index < |text| && !IsDelimiter(text[index]) {
      return None;
    }
    return Some(NumberToken(index, integerStart, integerEnd, index != integerEnd));
  }

  /** Moves over a fraction, if one stands here. */
  method SkipFraction(text: string, start: nat) returns (end: Option<nat>)
    requires start <= |text|
    ensures end == FractionEnd(text, start)
  {
    var index := start;
    if index < |text| && text[index] == '.' {
      index := index + 1;
      if !(index < |text| && IsDigit(text[index])) {
        return None;
      }
      index := ConsumeDigits(text, index);
    }
    return Some(index);
  }

  /** Moves over an exponent, if one stands here. */
  method SkipExponent(text: string, start: nat) returns (end: Option<nat>)
    requires start <= |text|
    ensures end == ExponentEnd(text, start)
  {
    var index := start;
    if index < |text| && (text[index] == 'e' || text[index] == 'E') {
      index := index + 1;
      if index < |text| && (text[index] == '+' || text[index] == '-') {
        index := index + 1;
      }
      if !(index < |text| && IsDigit(text[index])) {
        return None;
      }
      index := ConsumeDigits(text, index);
    }
    return Some(index);
  }

  /** Walks a text once, outside and inside strings, and judges each number token. */
  method ClassifyNumbers(text: string) returns (r: Result<(), NumberError>)
    ensures r == Classify(text, false, false, None)
  {
    var index: nat := 0;
    var inString, escaped := false, false;
    var previousSignificant: Option<char> := None;
    assert text[0..] == text;
    while index < |text|
      invariant index <= |text| && (escaped ==> inString)
      invariant Classify(text, false, false, None) == Classify(text[index..], inString, escaped, previousSignificant)
    {
      var byte := text[index];
      assert text[index..][0] == byte && text[index..][1..] == text[index + 1..];
      if inString {
        if escaped {
          escaped := false;
        } else if byte == '\\' {
          escaped := true;
        } else if byte == '"' {
          inString := false;
          previousSignificant := Some(byte);
        }
        index := index + 1;
        continue;
      }
      if byte == '"' {
        inString := true;
        index := index + 1;
        continue;
      }
      if IsSpace(byte) {
        index := index + 1;
        continue;
      }
      if IsNumberStart(byte) && IsValuePosition(previousSignificant) {
        var number := ScanNumber(text, index);
        if number.Some? {
          var token := number.value;
          var digits := text[index + token.integerStart..index + token.integerEnd];
          assert digits == text[index..][token.integerStart..token.integerEnd];
          if token.nonInteger {
            return Err(NonIntegerNumber);
          }
          if ExceedsSafeRange(digits) {
            return Err(UnsafeInteger);
          }
          assert text[index..][token.end..] == text[index + token.end..];
          previousSignificant := Some(text[index + token.end - 1]);
          index := index + token.end;
          continue;
        }
      }
      previousSignificant := Some(byte);
      index := index + 1;
    }
    return Ok(());
  }

  // --------------------------------------------------------------- grammar

  /** The sign of an exponent. */
  datatype ExponentSign = Unsigned | Plus | Minus

  datatype Exponent = Exponent(upper: bool, sign: ExponentSign, digits: string)

  /** A number as section 6 of RFC 8259 spells it. */
  datatype Number = Number(negative: bool, digits: string, fraction: Option<string>, exponent: Option<Exponent>)

  predicate Digits(s: string) {
    s != [] && forall i :: 0 <= i < |s| ==> IsDigit(s[i])
  }

  predicate WellFormed(n: Number) {
    && Digits(n.digits) && (n.digits[0] == '0' ==> |n.digits| == 1)
    && (n.fraction.Some? ==> Digits(n.fraction.value))
    && (n.exponent.Some? ==> Digits(n.exponent.value.digits))
  }

  function PrintFraction(fraction: Option<string>): string {
    if fraction.None? then "" else "." + fraction.value
  }

  function PrintSign(sign: ExponentSign): string {
    match sign case Unsigned => "" case Plus => "+" case Minus => "-"
  }

  function PrintExponent(exponent: Option<Exponent>): string {
    if exponent.None? then "" else
      (if exponent.value.upper then "E" else "e") + PrintSign(exponent.value.sign) + exponent.value.digits
  }

  function PrintMinus(negative: bool): string { if negative then "-" else "" }

  function PrintNumber(n: Number): string {
    PrintMinus(n.negative) + n.digits + PrintFraction(n.fraction) + PrintExponent(n.exponent)
  }

  function DigitValue(c: char): nat { if IsDigit(c) then c as int - '0' as int else 0 }

  function Pow10(n: nat): (p: nat)
    ensures p >= 1
  {
    if n == 0 then 1 else 10 * Pow10(n - 1)
  }

  /** The value of a digit string, most significant digit first. */
  function DecimalValue(digits: string): nat {
    if digits == [] then 0 else DigitValue(digits[0]) * Pow10(|digits| - 1) + DecimalValue(digits[1..])
  }

  const MAX_SAFE: nat := 0x1F_FFFF_FFFF_FFFF

  /** What must be reported for a number: a fraction or exponent, or a magnitude above 2^53 - 1. */
  function Offence(n: Number): Option<NumberError>
    requires WellFormed(n)
  {
    if n.fraction.Some? || n.exponent.Some? then Some(NonIntegerNumber)
    else if DecimalValue(n.digits) > MAX_SAFE then Some(UnsafeInteger)
    else None
  }

  // -------------------------------------------- digit strings as numbers

  lemma {:induction false} DecimalBound(digits: string)
    ensures DecimalValue(digits) < Pow10(|digits|)
  {
    if digits != [] {
      DecimalBound(digits[1..]);
      LeadingDigit(DigitValue(digits[0]), Pow10(|digits| - 1), DecimalValue(digits[1..]));
    }
  }

  lemma LeadingDigit(d: nat, p: nat, rest: nat)
    requires d <= 9 && rest < p
    ensures d * p + rest < 10 * p
  {
    assert d * p <= 9 * p;
  }

  lemma {:induction false} Pow10Grows(a: nat, b: nat)
    requires a <= b
    ensures Pow10(a) <= Pow10(b)
    decreases b
  {
    if a < b {
      Pow10Grows(a, b - 1);
    }
  }

  lemma HigherDigit(x: nat, y: nat, p: nat, low: nat, high: nat)
    requires x > y && high < p
    ensures x * p + low > y * p + high
  {
    assert x * p >= (y + 1) * p == y * p + p;
  }

  /** On digit strings of one length, lexicographic order is numeric order. */
  lemma {:induction false} AboveIsGreater(a: string, b: string)
    requires |a| == |b| && (forall i :: 0 <= i < |a| ==> IsDigit(a[i]) && IsDigit(b[i]))
    ensures Above(a, b) <==> DecimalValue(a) > DecimalValue(b)
  {
    if a != [] {
      var p := Pow10(|a| - 1);
      DecimalBound(a[1..]);
      DecimalBound(b[1..]);
      AboveIsGreater(a[1..], b[1..]);
      var x, y := DigitValue(a[0]), DigitValue(b[0]);
      if x > y {
        HigherDigit(x, y, p, DecimalValue(a[1..]), DecimalValue(b[1..]));
      } else if y > x {
        HigherDigit(y, x, p, DecimalValue(b[1..]), DecimalValue(a[1..]));
      }
    }
  }

  lemma DecimalFrom(s: string, i: nat)
    requires i < |s|
    ensures DecimalValue(s[i..]) == DigitValue(s[i]) * Pow10(|s| - i - 1) + DecimalValue(s[i + 1..])
  {
    assert s[i..][1..] == s[i + 1..];
  }

  /** The sixteen digits of the literal bound. */
  predicate SafeDigits(s: string) {
    && |s| == 16
    && s[0] == '9' && s[1] == '0' && s[2] == '0' && s[3] == '7' && s[4] == '1' && s[5] == '9' && s[6] == '9' && s[7] == '2'
    && s[8] == '5' && s[9] == '4' && s[10] == '7' && s[11] == '4' && s[12] == '0' && s[13] == '9' && s[14] == '9' && s[15] == '1'
  }

  lemma SafeLowDigits(s: string)
    requires SafeDigits(s)
    ensures DecimalValue(s[8..]) == 54740991
  {
    PowersOfTen();
    DecimalFrom(s, 8);
    DecimalFrom(s, 9);
    DecimalFrom(s, 10);
    DecimalFrom(s, 11);
    DecimalFrom(s, 12);
    DecimalFrom(s, 13);
    DecimalFrom(s, 14);
    DecimalFrom(s, 15);
  }

  lemma PowersOfTen()
    ensures Pow10(0) == 1 && Pow10(1) == 10 && Pow10(2) == 100 && Pow10(3) == 1000 && Pow10(4) == 10_000
    ensures Pow10(5) == 100_000 && Pow10(6) == 1_000_000 && Pow10(7) == 10_000_000
    ensures Pow10(8) == 100_000_000 && Pow10(9) == 1_000_000_000 && Pow10(10) == 10_000_000_000
    ensures Pow10(11) == 100_000_000_000 && Pow10(12) == 1_000_000_000_000 && Pow10(13) == 10_000_000_000_000
    ensures Pow10(14) == 100_000_000_000_000 && Pow10(15) == 1_000_000_000_000_000 && Pow10(16) == 10_000_000_000_000_000
  {
    assert Pow10(4) == 10_000;
    assert Pow10(8) == 100_000_000;
    assert Pow10(12) == 1_000_000_000_000;
  }

  lemma MaxSafeIsDigits()
    ensures |MAX_SAFE_DIGITS| == 16 && forall i :: 0 <= i < 16 ==> IsDigit(MAX_SAFE_DIGITS[i])
  {
    var low, high := "90071992", "54740991";
    assert forall i :: 0 <= i < 8 ==> IsDigit(low[i]);
    assert forall i :: 0 <= i < 8 ==> IsDigit(high[i]);
    assert MAX_SAFE_DIGITS == low + high;
  }

  lemma SafeHighDigits(s: string)
    requires SafeDigits(s)
    ensures DecimalValue(s) == MAX_SAFE
  {
    SafeLowDigits(s);
    PowersOfTen();
    assert s[0..] == s;
    DecimalFrom(s, 0);
    DecimalFrom(s, 1);
    DecimalFrom(s, 2);
    DecimalFrom(s, 3);
    DecimalFrom(s, 4);
    DecimalFrom(s, 5);
    DecimalFrom(s, 6);
    DecimalFrom(s, 7);
  }

  /** The literal bound is 2^53 - 1. */
  lemma MaxSafeDigits()
    ensures DecimalValue(MAX_SAFE_DIGITS) == MAX_SAFE
  {
    SafeHighDigits(MAX_SAFE_DIGITS);
  }

  /** The byte comparison decides the magnitude of every number the grammar allows. */
  lemma ExceedsMeansUnsafe(digits: string)
    requires Digits(digits) && (digits[0] == '0' ==> |digits| == 1)
    ensures ExceedsSafeRange(digits) <==> DecimalValue(digits) > MAX_SAFE
  {
    MaxSafeDigits();
    MaxSafeIsDigits();
    if |digits| == 16 {
      AboveIsGreater(digits, MAX_SAFE_DIGITS);
    } else if |digits| < 16 {
      FewDigits(digits);
    } else {
      ManyDigits(digits);
    }
  }

  lemma FewDigits(digits: string)
    requires |digits| <= 15
    ensures DecimalValue(digits) < 1_000_000_000_000_000
  {
    DecimalBound(digits);
    Pow10Grows(|digits|, 15);
    PowersOfTen();
  }

  lemma ManyDigits(digits: string)
    requires |digits| >= 17 && Digits(digits) && digits[0] != '0'
    ensures DecimalValue(digits) >= 10_000_000_000_000_000
  {
    Pow10Grows(16, |digits| - 1);
    PowersOfTen();
    LeadingDigitCounts(DigitValue(digits[0]), Pow10(|digits| - 1));
  }

  lemma LeadingDigitCounts(d: nat, p: nat)
    requires d >= 1
    ensures d * p >= p
  {
  }

  // ------------------------------------------------------- reading a number

  /** `part` stands at place `i` of a text. */
  predicate Stands(text: string, i: nat, part: string) {
    i + |part| <= |text| && text[i..i + |part|] == part
  }

  lemma {:induction false} DigitsAreConsumed(text: string, i: nat, digits: string)
    requires Stands(text, i, digits) && (forall k :: 0 <= k < |digits| ==> IsDigit(digits[k]))
    requires !DigitAt(text, i + |digits|)
    ensures DigitsEnd(text, i) == i + |digits|
    decreases |digits|
  {
    if digits != [] {
      assert text[i] == text[i..i + |digits|][0];
      assert text[i + 1..i + |digits|] == digits[1..];
      DigitsAreConsumed(text, i + 1, digits[1..]);
    }
  }

  lemma IntegerIsRead(text: string, i: nat, digits: string)
    requires Digits(digits) && (digits[0] == '0' ==> |digits| == 1)
    requires Stands(text, i, digits) && !DigitAt(text, i + |digits|)
    ensures IntegerEnd(text, i) == Some(i + |digits|)
  {
    assert text[i] == text[i..i + |digits|][0];
    DigitsAreConsumed(text, i, digits);
  }

  /** Where a part stands, its two halves stand one behind the other. */
  lemma HalvesStand(text: string, i: nat, lead: string, rest: string)
    requires Stands(text, i, lead + rest)
    ensures Stands(text, i, lead) && Stands(text, i + |lead|, rest)
    ensures lead != "" ==> text[i] == lead[0]
    ensures rest != "" ==> text[i + |lead|] == rest[0]
  {
    var part := text[i..i + |lead + rest|];
    assert part[..|lead|] == lead && part[|lead|..] == rest;
    assert text[i..i + |lead|] == part[..|lead|] && text[i + |lead|..i + |lead + rest|] == part[|lead|..];
  }

  lemma FractionIsRead(text: string, i: nat, fraction: Option<string>, end: nat)
    requires fraction.Some? ==> Digits(fraction.value)
    requires Stands(text, i, PrintFraction(fraction)) && end == i + |PrintFraction(fraction)|
    requires !DigitAt(text, end) && !CharAt(text, end, '.')
    ensures FractionEnd(text, i) == Some(end)
  {
    if fraction.Some? {
      HalvesStand(text, i, ".", fraction.value);
      DigitsAreConsumed(text, i + 1, fraction.value);
    }
  }

  /** Behind its letter and its sign, an exponent is its digits. */
  lemma SignedDigitsAreRead(text: string, i: nat, sign: ExponentSign, digits: string, end: nat)
    requires i <= |text| && (CharAt(text, i, 'e') || CharAt(text, i, 'E'))
    requires Digits(digits) && Stands(text, i + 1 + |PrintSign(sign)|, digits) && end == i + 1 + |PrintSign(sign)| + |digits|
    requires sign.Plus? ==> CharAt(text, i + 1, '+')
    requires sign.Minus? ==> CharAt(text, i + 1, '-')
    requires text[i + 1 + |PrintSign(sign)|] == digits[0] && !DigitAt(text, end)
    ensures ExponentEnd(text, i) == Some(end)
  {
    DigitsAreConsumed(text, i + 1 + |PrintSign(sign)|, digits);
  }

  lemma ExponentIsRead(text: string, i: nat, exponent: Option<Exponent>, end: nat)
    requires exponent.Some? ==> Digits(exponent.value.digits)
    requires Stands(text, i, PrintExponent(exponent)) && end == i + |PrintExponent(exponent)|
    requires !DigitAt(text, end) && !CharAt(text, end, 'e') && !CharAt(text, end, 'E')
    ensures ExponentEnd(text, i) == Some(end)
  {
    if exponent.Some? {
      var lead, sign := if exponent.value.upper then "E" else "e", PrintSign(exponent.value.sign);
      HalvesStand(text, i, lead + sign, exponent.value.digits);
      HalvesStand(text, i, lead, sign);
      SignedDigitsAreRead(text, i, exponent.value.sign, exponent.value.digits, end);
    }
  }

  /** A value is over at the end of a text or before a delimiter. */
  predicate Delimited(tail: string) { tail == [] || IsDelimiter(tail[0]) }

  lemma PartsStand(minus: string, digits: string, fraction: string, exponent: string, tail: string)
    ensures var text, b, c := minus + digits + fraction + exponent + tail, |minus| + |digits|, |minus| + |digits| + |fraction|;
            && (minus != "" ==> text[0] == minus[0])
            && Stands(text, |minus|, digits) && Stands(text, b, fraction) && Stands(text, c, exponent)
            && text[c + |exponent|..] == tail
  {
  }

  /** The first character of what follows a part. */
  function Next(part: string, after: Option<char>): Option<char> {
    if part == "" then after else Some(part[0])
  }

  function CharOf(text: string, i: nat): Option<char> {
    if i < |text| then Some(text[i]) else None
  }

  lemma StandsNext(text: string, i: nat, part: string)
    requires Stands(text, i, part)
    ensures CharOf(text, i) == Next(part, CharOf(text, i + |part|))
  {
    if part != "" {
      assert text[i] == text[i..i + |part|][0];
    }
  }

  /** The offsets at which the parts of a printed number begin. */
  function DigitsFrom(n: Number): nat { |PrintMinus(n.negative)| }

  function FractionFrom(n: Number): nat { DigitsFrom(n) + |n.digits| }

  function ExponentFrom(n: Number): nat { FractionFrom(n) + |PrintFraction(n.fraction)| }

  function NumberEnd(n: Number): nat { ExponentFrom(n) + |PrintExponent(n.exponent)| }

  /** A number stands at the front of a text, properly delimited. */
  predicate NumberStands(text: string, n: Number) {
    && CharAt(text, 0, '-') == n.negative
    && Stands(text, DigitsFrom(n), n.digits)
    && Stands(text, FractionFrom(n), PrintFraction(n.fraction))
    && Stands(text, ExponentFrom(n), PrintExponent(n.exponent))
    && (NumberEnd(n) < |text| ==> IsDelimiter(text[NumberEnd(n)]))
  }

  /** What follows a part never belongs to it. */
  lemma PartsEnd(text: string, n: Number)
    requires WellFormed(n) && NumberStands(text, n)
    ensures !DigitAt(text, FractionFrom(n))
    ensures !DigitAt(text, ExponentFrom(n)) && !CharAt(text, ExponentFrom(n), '.')
    ensures !DigitAt(text, NumberEnd(n)) && !CharAt(text, NumberEnd(n), 'e') && !CharAt(text, NumberEnd(n), 'E')
  {
    StandsNext(text, FractionFrom(n), PrintFraction(n.fraction));
    StandsNext(text, ExponentFrom(n), PrintExponent(n.exponent));
  }

  lemma IntegerEnds(text: string, n: Number)
    requires WellFormed(n) && NumberStands(text, n)
    ensures DigitsFrom(n) <= |text| && IntegerEnd(text, DigitsFrom(n)) == Some(FractionFrom(n))
  {
    PartsEnd(text, n);
    IntegerIsRead(text, DigitsFrom(n), n.digits);
  }

  lemma FractionEnds(text: string, n: Number)
    requires WellFormed(n) && NumberStands(text, n)
    ensures FractionFrom(n) <= |text| && FractionEnd(text, FractionFrom(n)) == Some(ExponentFrom(n))
  {
    PartsEnd(text, n);
    FractionIsRead(text, FractionFrom(n), n.fraction, ExponentFrom(n));
  }

  lemma ExponentEnds(text: string, n: Number)
    requires WellFormed(n) && NumberStands(text, n)
    ensures ExponentFrom(n) <= |text| && ExponentEnd(text, ExponentFrom(n)) == Some(NumberEnd(n))
  {
    PartsEnd(text, n);
    ExponentIsRead(text, ExponentFrom(n), n.exponent, NumberEnd(n));
  }

  /** A number goes beyond its digits exactly when it has a fraction or an exponent. */
  lemma OnlyPartsLengthen(n: Number)
    requires WellFormed(n)
    ensures NumberEnd(n) != FractionFrom(n) <==> n.fraction.Some? || n.exponent.Some?
  {
  }

  /** Scanning puts together what its parts read. */
  lemma ScanOfParts(text: string, start: nat, integerEnd: nat, fractionEnd: nat, end: nat)
    requires start == (if CharAt(text, 0, '-') then 1 else 0) <= |text| && IntegerEnd(text, start) == Some(integerEnd)
    requires integerEnd <= |text| && FractionEnd(text, integerEnd) == Some(fractionEnd)
    requires fractionEnd <= |text| && ExponentEnd(text, fractionEnd) == Some(end)
    requires end < |text| ==> IsDelimiter(text[end])
    ensures Scan(text) == Some(NumberToken(end, start, integerEnd, end != integerEnd))
  {
  }

  lemma StandingIsScanned(text: string, n: Number)
    requires WellFormed(n) && NumberStands(text, n)
    ensures Scan(text) ==
            Some(NumberToken(NumberEnd(n), DigitsFrom(n), FractionFrom(n), n.fraction.Some? || n.exponent.Some?))
  {
    IntegerEnds(text, n);
    FractionEnds(text, n);
    ExponentEnds(text, n);
    OnlyPartsLengthen(n);
    ScanOfParts(text, DigitsFrom(n), FractionFrom(n), ExponentFrom(n), NumberEnd(n));
  }

  /** A number the grammar prints is scanned as exactly that number. */
  lemma NumberIsScanned(n: Number, tail: string)
    requires WellFormed(n) && Delimited(tail)
    ensures |PrintNumber(n)| == NumberEnd(n)
    ensures Scan(PrintNumber(n) + tail) ==
            Some(NumberToken(|PrintNumber(n)|, DigitsFrom(n), FractionFrom(n), n.fraction.Some? || n.exponent.Some?))
    ensures (PrintNumber(n) + tail)[DigitsFrom(n)..FractionFrom(n)] == n.digits
    ensures (PrintNumber(n) + tail)[NumberEnd(n)..] == tail
  {
    var text := PrintNumber(n) + tail;
    PartsStand(PrintMinus(n.negative), n.digits, PrintFraction(n.fraction), PrintExponent(n.exponent), tail);
    assert CharOf(text, NumberEnd(n)) == CharOf(text[NumberEnd(n)..], 0);
    StandsNext(text, DigitsFrom(n), n.digits);
    StandingIsScanned(text, n);
  }

  // ------------------------------------------------ only numbers are scanned

  lemma {:induction false} ConsumedAreDigits(text: string, i: nat, k: nat)
    requires i <= k < |text| && k < DigitsEnd(text, i)
    ensures IsDigit(text[k])
    decreases |text| - i
  {
    if i < k {
      ConsumedAreDigits(text, i + 1, k);
    }
  }

  lemma SpanIsDigits(text: string, i: nat, end: nat)
    requires DigitAt(text, i) && end == DigitsEnd(text, i + 1)
    ensures Digits(text[i..end])
  {
    forall k | i < k < end ensures IsDigit(text[k]) {
      ConsumedAreDigits(text, i + 1, k);
    }
  }

  lemma IntegerFound(text: string, i: nat, end: nat) returns (digits: string)
    requires i <= |text| && IntegerEnd(text, i) == Some(end)
    ensures digits == text[i..end] && Digits(digits) && (digits[0] == '0' ==> |digits| == 1)
  {
    digits := text[i..end];
    if text[i] != '0' {
      SpanIsDigits(text, i, end);
    }
  }

  lemma FractionFound(text: string, i: nat, end: nat) returns (fraction: Option<string>)
    requires i <= |text| && FractionEnd(text, i) == Some(end)
    ensures PrintFraction(fraction) == text[i..end] && (fraction.Some? ==> Digits(fraction.value))
  {
    fraction := None;
    if end != i {
      SpanIsDigits(text, i + 1, end);
      fraction := Some(text[i + 1..end]);
    }
  }

  lemma ThreeParts(text: string, i: nat, a: nat, b: nat, end: nat)
    requires i <= a <= b <= end <= |text|
    ensures text[i..end] == text[i..a] + text[a..b] + text[b..end]
  {
  }

  lemma SignFound(text: string, i: nat) returns (sign: ExponentSign)
    requires i <= |text|
    ensures var j := if CharAt(text, i, '+') || CharAt(text, i, '-') then i + 1 else i;
            j == i + |PrintSign(sign)| && text[i..j] == PrintSign(sign)
  {
    sign := if CharAt(text, i, '+') then Plus else if CharAt(text, i, '-') then Minus else Unsigned;
  }

  lemma LetterFound(text: string, i: nat)
    requires CharAt(text, i, 'e') || CharAt(text, i, 'E')
    ensures text[i..i + 1] == if text[i] == 'E' then "E" else "e"
  {
  }

  lemma ExponentFound(text: string, i: nat, end: nat) returns (exponent: Option<Exponent>)
    requires i <= |text| && ExponentEnd(text, i) == Some(end)
    ensures PrintExponent(exponent) == text[i..end] && (exponent.Some? ==> Digits(exponent.value.digits))
  {
    exponent := None;
    if end != i {
      var sign := SignFound(text, i + 1);
      var j := i + 1 + |PrintSign(sign)|;
      SpanIsDigits(text, j, end);
      LetterFound(text, i);
      ThreeParts(text, i, i + 1, j, end);
      exponent := Some(Exponent(text[i] == 'E', sign, text[j..end]));
    }
  }

  /** A text begins with a number that is over where it ends. */
  predicate BeginsWith(text: string, n: Number) {
    PrintNumber(n) <= text && Delimited(text[|PrintNumber(n)|..])
  }

  lemma FourParts(text: string, a: nat, b: nat, c: nat, d: nat)
    requires a <= b <= c <= d <= |text|
    ensures text[..d] == text[..a] + text[a..b] + text[b..c] + text[c..d]
  {
    ThreeParts(text, a, b, c, d);
  }

  lemma ScannedBegins(text: string) returns (n: Number)
    requires Scan(text).Some?
    ensures WellFormed(n) && BeginsWith(text, n)
  {
    var start: nat := if CharAt(text, 0, '-') then 1 else 0;
    var integerEnd := IntegerEnd(text, start).value;
    var fractionEnd := FractionEnd(text, integerEnd).value;
    var end := ExponentEnd(text, fractionEnd).value;
    var digits := IntegerFound(text, start, integerEnd);
    var fraction := FractionFound(text, integerEnd, fractionEnd);
    var exponent := ExponentFound(text, fractionEnd, end);
    n := Number(start == 1, digits, fraction, exponent);
    FourParts(text, start, integerEnd, fractionEnd, end);
    assert text[..start] == PrintMinus(n.negative);
  }

  /** A token is scanned exactly where a text begins with a number of the grammar. */
  lemma ScansExactly(text: string)
    ensures Scan(text).Some? <==> exists n :: WellFormed(n) && BeginsWith(text, n)
  {
    if Scan(text).Some? {
      var n := ScannedBegins(text);
    }
    forall n | WellFormed(n) && BeginsWith(text, n) ensures Scan(text).Some? {
      var tail := text[|PrintNumber(n)|..];
      assert text == PrintNumber(n) + tail;
      NumberIsScanned(n, tail);
    }
  }
}
