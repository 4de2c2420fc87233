/** Decimal columns: numeral text scaled to a 128-bit integer of a declared precision and scale. */
module Decimal128 {
  import opened Chars
  import opened Numbers
  import opened Wrappers

  const TWO_127: int := 0x8000_0000_0000_0000_0000_0000_0000_0000
  const MAX_EXPONENT: nat := 76

  predicate IsInt128(n: int) {
    -TWO_127 <= n < TWO_127
  }

  predicate Supported(precision: int, scale: int) {
    precision > 0 && precision <= 38 && scale >= 0 && scale <= precision
  }

  /* ---- Numerals ---- */

  predicate IsSign(s: string) {
    s == "" || s == "+" || s == "-"
  }

  /** The parts of a numeral: sign, digits, an optional dot with digits, and an optional exponent. */
  datatype Numeral = Numeral(sign: string, whole: string, dot: bool, fraction: string,
                             mark: string, expSign: string, expDigits: string)
  {
    predicate Valid() {
      && IsSign(sign) && Digits(whole) && Digits(fraction) && (dot || fraction == "") && whole + fraction != ""
      && ValidExponent(mark, expSign, expDigits)
    }

    function Show(): string {
      sign + (whole + ((if dot then "." + fraction else "") + (mark + expSign + expDigits)))
    }

    function Exponent(): int
      requires Digits(expDigits)
    {
      Signed(expSign == "-", NatValue(expDigits))
    }

    /** The digits as a number, with the sign. */
    function Coefficient(): int
      requires Digits(whole + fraction)
    {
      Signed(sign == "-", NatValue(whole + fraction))
    }

    /** The numeral denotes the coefficient divided by ten to the power of the scale. */
    function Scale(): int
      requires Digits(expDigits)
    {
      |fraction| - Exponent()
    }
  }

  predicate ValidExponent(mark: string, expSign: string, expDigits: string) {
    && Digits(expDigits)
    && if mark == "" then expSign == expDigits == ""
       else (mark == "e" || mark == "E") && IsSign(expSign) && expDigits != ""
  }

  function Signed(negative: bool, n: nat): int {
    if negative then -(n as int) else n
  }

  function SignOf(s: string): (sign: string)
    ensures IsSign(sign) && sign <= s
  {
    if s != "" && s[0] in "+-" then s[..1] else ""
  }

  /** The digits around an optional dot at the start of a text, and the text behind them. */
  datatype Mantissa = Mantissa(whole: string, dot: bool, fraction: string, rest: string)

  function MantissaOf(s: string): Mantissa {
    var w := DigitRun(s);
    if w < |s| && s[w] == '.' then
      var t := s[w + 1..];
      Mantissa(s[..w], true, t[..DigitRun(t)], t[DigitRun(t)..])
    else Mantissa(s[..w], false, "", s[w..])
  }

  /** The mark, the sign and the digits of an exponent that takes up all of the text. */
  function ExponentOf(s: string): Option<(string, string, string)> {
    if s == "" then Some(("", "", ""))
    else if s[0] !in "eE" then None
    else
      var sign := SignOf(s[1..]);
      var digits := s[1..][|sign|..];
      if digits == "" || !Digits(digits) then None else Some((s[..1], sign, digits))
  }

  function Parse(s: string): Option<Numeral> {
    var sign := SignOf(s);
    var m := MantissaOf(s[|sign|..]);
    var exp := ExponentOf(m.rest);
    if m.whole + m.fraction == "" || exp == None then None
    else Some(Numeral(sign, m.whole, m.dot, m.fraction, exp.value.0, exp.value.1, exp.value.2))
  }

  lemma SignShown(sign: string, rest: string)
    requires IsSign(sign) && (rest != "" ==> rest[0] !in "+-")
    ensures SignOf(sign + rest) == sign && (sign + rest)[|sign|..] == rest
  {
  }

  lemma ExponentShown(mark: string, expSign: string, expDigits: string)
    requires ValidExponent(mark, expSign, expDigits)
    ensures ExponentOf(mark + expSign + expDigits) == Some((mark, expSign, expDigits))
  {
    var s := mark + expSign + expDigits;
    if mark != "" {
      assert s[1..] == expSign + expDigits && s[..1] == mark;
      SignShown(expSign, expDigits);
    }
  }

  lemma MantissaShown(whole: string, dot: bool, fraction: string, rest: string)
    requires Digits(whole) && Digits(fraction) && (dot || fraction == "")
    requires rest != "" ==> rest[0] in "eE"
    ensures MantissaOf(whole + ((if dot then "." + fraction else "") + rest)) == Mantissa(whole, dot, fraction, rest)
  {
    var t := (if dot then "." + fraction else "") + rest;
    RunOf(whole, t);
    if dot {
      assert (whole + t)[|whole| + 1..] == fraction + rest;
      RunOf(fraction, rest);
    } else {
      assert t == rest;
    }
  }

  lemma MantissaRead(s: string)
    ensures var m := MantissaOf(s);
      && Digits(m.whole) && Digits(m.fraction) && (m.dot || m.fraction == "")
      && s == m.whole + ((if m.dot then "." + m.fraction else "") + m.rest)
  {
    hide DigitRun;
    var w := DigitRun(s);
    Cut(s, w);
    if w < |s| && s[w] == '.' {
      var t := s[w + 1..];
      Cut(t, DigitRun(t));
      assert s[w..] == "." + t;
      hide *;
      Associate(s[..w], t[..DigitRun(t)], t[DigitRun(t)..]);
    }
  }

  lemma Cut(s: string, n: nat)
    requires n <= |s|
    ensures s == s[..n] + s[n..]
  {
  }

  lemma Associate(a: string, b: string, c: string)
    ensures a + ("." + (b + c)) == a + (("." + b) + c)
  {
  }

  lemma ExponentRead(s: string)
    requires ExponentOf(s).Some?
    ensures var (mark, sign, digits) := ExponentOf(s).value;
      ValidExponent(mark, sign, digits) && s == mark + sign + digits
  {
  }

  /** Parsing what a numeral shows gives the numeral. */
  lemma ParseShow(n: Numeral)
    requires n.Valid()
    ensures Parse(n.Show()) == Some(n)
  {
    hide MantissaOf, ExponentOf, SignOf, Digits;
    var exp := n.mark + n.expSign + n.expDigits;
    assert exp != "" ==> exp[0] in "eE";
    MantissaShown(n.whole, n.dot, n.fraction, exp);
    ExponentShown(n.mark, n.expSign, n.expDigits);
    var t := n.whole + ((if n.dot then "." + n.fraction else "") + exp);
    assert t[0] !in "+-" by {
      MantissaStart(n.whole, n.dot, n.fraction, exp);
    }
    SignShown(n.sign, t);
  }

  lemma MantissaStart(whole: string, dot: bool, fraction: string, rest: string)
    requires Digits(whole) && whole + fraction != "" && (dot || fraction == "")
    ensures var t := whole + ((if dot then "." + fraction else "") + rest); t != "" && t[0] !in "+-"
  {
  }

  /** Only what a numeral shows is parsed as that numeral. */
  lemma ShowParse(s: string)
    requires Parse(s).Some?
    ensures Parse(s).value.Valid() && Parse(s).value.Show() == s
  {
    hide MantissaOf, ExponentOf, SignOf, Digits, ValidExponent;
    var sign := SignOf(s);
    var m := MantissaOf(s[|sign|..]);
    MantissaRead(s[|sign|..]);
    ExponentRead(m.rest);
    assert s == sign + s[|sign|..];
  }

  /* ---- Reading a numeral ---- */

  function TrimEnd(s: string): string {
    if s != "" && IsSpace(s[|s| - 1]) then TrimEnd(s[..|s| - 1]) else s
  }

  /** The text without the white space around it. */
  function Trim(s: string): string {
    TrimEnd(SkipSpace(s))
  }

  datatype Reason =
    | NotAvailable | Empty | NoDigit | BadExponent | ExponentTooLarge | UnexpectedCharacter
    | TooManyDigits | LosesPrecision | ExceedsPrecision

  datatype Reading = Read(negative: bool, digits: string, fractional: nat, exponent: int) | Unreadable(reason: Reason)

  predicate Readable(s: string) {
    Parse(s).Some? && NatValue(Parse(s).value.expDigits) <= MAX_EXPONENT
  }

  function ReadingOf(n: Numeral): Reading
    requires n.Valid()
  {
    Read(n.sign == "-", n.whole + n.fraction, |n.fraction|, n.Exponent())
  }

  method FindBody(input: string) returns (begin: nat, end: nat)
    ensures begin <= end <= |input| && input[begin..end] == Trim(input)
  {
    hide TrimEnd;
    begin := 0;
    assert input[0..] == input;
    while begin < |input| && IsSpace(input[begin])
      invariant begin <= |input| && SkipSpace(input) == SkipSpace(input[begin..])
    {
      assert input[begin..][1..] == input[begin + 1..];
      begin := begin + 1;
    }
    hide SkipSpace;
    end := FindEnd(input, begin);
  }

  method FindEnd(input: string, begin: nat) returns (end: nat)
    requires begin <= |input|
    ensures begin <= end <= |input| && input[begin..end] == TrimEnd(input[begin..])
  {
    end := |input|;
    assert input[begin..end] == input[begin..];
    while end > begin && IsSpace(input[end - 1])
      invariant begin <= end <= |input| && TrimEnd(input[begin..]) == TrimEnd(input[begin..end])
    {
      assert input[begin..end][..end - begin - 1] == input[begin..end - 1];
      end := end - 1;
    }
  }

  predicate DigitsBetween(s: string, i: nat, j: nat) {
    i <= j <= |s| && forall k :: i <= k < j ==> IsDigit(s[k])
  }

  /** Reads digits and at most one dot among them. */
  method ReadMantissa(s: string, start: nat) returns (pos: nat, digits: string, fractional: nat)
    requires start <= |s|
    ensures pos <= |s|
    ensures var m := MantissaOf(s[start..]);
      digits == m.whole + m.fraction && fractional == |m.fraction| && s[pos..] == m.rest
  {
    hide MantissaOf;
    var seenDot := false;
    ghost var dot := start;
    pos, digits, fractional := start, "", 0;
    while pos < |s| && (IsDigit(s[pos]) || (s[pos] == '.' && !seenDot))
      invariant start <= pos <= |s|
      invariant !seenDot ==> DigitsBetween(s, start, pos) && digits == s[start..pos] && fractional == 0
      invariant seenDot ==>
        && start <= dot < pos && s[dot] == '.' && DigitsBetween(s, start, dot) && DigitsBetween(s, dot + 1, pos)
        && digits == s[start..dot] + s[dot + 1..pos] && fractional == pos - dot - 1
    {
      if IsDigit(s[pos]) {
        digits := digits + [s[pos]];
        if seenDot {
          fractional := fractional + 1;
        }
      } else {
        seenDot, dot := true, pos;
      }
      pos := pos + 1;
    }
    MantissaRuns(s, start, if seenDot then Some(dot) else None, pos);
  }

  lemma MantissaRuns(s: string, start: nat, dot: Option<nat>, pos: nat)
    requires start <= pos <= |s| && (pos < |s| ==> !IsDigit(s[pos]))
    requires dot == None ==> DigitsBetween(s, start, pos) && (pos < |s| ==> s[pos] != '.')
    requires dot.Some? ==>
      dot.value < pos && s[dot.value] == '.' && DigitsBetween(s, start, dot.value)
        && DigitsBetween(s, dot.value + 1, pos)
    ensures MantissaOf(s[start..]) ==
      match dot
      case None => Mantissa(s[start..pos], false, "", s[pos..])
      case Some(d) => Mantissa(s[start..d], true, s[d + 1..pos], s[pos..])
  {
    hide DigitRun, DigitsBetween;
    if dot.Some? {
      RunBetween(s, start, dot.value);
      RunBetween(s, dot.value + 1, pos);
      assert s[start..][dot.value - start + 1..] == s[dot.value + 1..];
    } else {
      RunBetween(s, start, pos);
    }
  }

  lemma RunBetween(s: string, i: nat, j: nat)
    requires DigitsBetween(s, i, j) && (j < |s| ==> !IsDigit(s[j]))
    ensures i <= j <= |s| && DigitRun(s[i..]) == j - i && s[i..][..j - i] == s[i..j] && s[i..][j - i..] == s[j..]
  {
    assert s[i..] == s[i..j] + s[j..];
    RunOf(s[i..j], s[j..]);
  }

  lemma {:induction false} PrefixValue(s: string, k: nat)
    requires Digits(s) && k <= |s|
    ensures NatValue(s[..k]) <= NatValue(s)
  {
    if k < |s| {
      PrefixValue(s[..|s| - 1], k);
      assert s[..|s| - 1][..k] == s[..k];
    } else {
      assert s[..k] == s;
    }
  }

  /** Reads the digits of an exponent as long as it is not too large. */
  method ReadDigits(s: string, start: nat) returns (pos: nat, n: nat)
    requires start <= |s|
    ensures start <= pos <= |s|
    ensures n <= MAX_EXPONENT ==>
      DigitsBetween(s, start, pos) && n == NatValue(s[start..pos]) && (pos < |s| ==> !IsDigit(s[pos]))
    ensures n > MAX_EXPONENT && Digits(s[start..]) ==> NatValue(s[start..]) > MAX_EXPONENT
  {
    pos, n := start, 0;
    while pos < |s| && IsDigit(s[pos]) && n <= MAX_EXPONENT
      invariant start <= pos <= |s| && DigitsBetween(s, start, pos) && n == NatValue(s[start..pos])
    {
      assert s[start..pos + 1][..pos - start] == s[start..pos];
      n := n * 10 + DigitValue(s[pos]);
      pos := pos + 1;
    }
    hide NatValue, DigitsBetween;
    if Digits(s[start..]) {
      PrefixValue(s[start..], pos - start);
      assert s[start..][..pos - start] == s[start..pos];
    }
  }

  /** Reads an exponent up to the end of the text. */
  method ReadExponent(s: string, start: nat) returns (exponent: int, failure: Option<Reason>)
    requires start <= |s|
    ensures match ExponentOf(s[start..])
      case None => failure.Some?
      case Some((mark, sign, digits)) =>
        && (failure == None <==> NatValue(digits) <= MAX_EXPONENT)
        && (failure == None ==> exponent == Signed(sign == "-", NatValue(digits)))
  {
    if start < |s| && (s[start] == 'e' || s[start] == 'E') {
      exponent, failure := ReadMarked(s, start);
    } else {
      exponent, failure := 0, if start == |s| then None else Some(UnexpectedCharacter);
    }
  }

  lemma DigitsRead(s: string, first: nat, pos: nat)
    requires DigitsBetween(s, first, pos) && (pos < |s| ==> !IsDigit(s[pos]))
    ensures if pos == |s| then s[first..pos] == s[first..] && Digits(s[first..]) else !Digits(s[first..])
  {
    assert pos < |s| ==> s[first..][pos - first] == s[pos];
  }

  method ReadMarked(s: string, start: nat) returns (exponent: int, failure: Option<Reason>)
    requires start < |s| && s[start] in "eE"
    ensures match ExponentOf(s[start..])
      case None => failure.Some?
      case Some((mark, sign, digits)) =>
        && (failure == None <==> NatValue(digits) <= MAX_EXPONENT)
        && (failure == None ==> exponent == Signed(sign == "-", NatValue(digits)))
  {
    var pos, negative := start + 1, false;
    exponent, failure := 0, None;
    if pos < |s| && (s[pos] == '+' || s[pos] == '-') {
      negative := s[pos] == '-';
      pos := pos + 1;
    }
    ghost var first := pos;
    ExponentParts(s, start, first);
    hide ExponentOf, SignOf, NatValue;
    if pos == |s| || !IsDigit(s[pos]) {
      assert pos < |s| ==> s[first..][0] == s[pos];
      return exponent, Some(BadExponent);
    }
    var n;
    pos, n := ReadDigits(s, pos);
    if n > MAX_EXPONENT {
      return exponent, Some(ExponentTooLarge);
    }
    DigitsRead(s, first, pos);
    hide DigitsBetween, Digits;
    exponent := if negative then -(n as int) else n;
    if pos != |s| {
      failure := Some(UnexpectedCharacter);
    }
  }

  lemma ExponentParts(s: string, start: nat, first: nat)
    requires start < |s| && s[start] in "eE"
    requires first == if start + 1 < |s| && s[start + 1] in "+-" then start + 2 else start + 1
    ensures ExponentOf(s[start..]) ==
      if s[first..] == "" || !Digits(s[first..]) then None
      else Some((s[start..start + 1], s[start + 1..first], s[first..]))
    ensures s[start + 1..first] == "-" <==> start + 1 < |s| && s[start + 1] == '-'
  {
    assert s[start..][1..] == s[start + 1..] && s[start..][..1] == s[start..start + 1];
    var sign := SignOf(s[start + 1..]);
    assert sign == s[start + 1..first];
    assert s[start + 1..][|sign|..] == s[first..];
  }

  /** Reads a numeral with white space around it. */
  method ReadNumeral(input: string) returns (r: Reading)
    ensures r.Read? <==> Readable(Trim(input))
    ensures r.Read? ==> Parse(Trim(input)).value.Valid() && r == ReadingOf(Parse(Trim(input)).value)
  {
    hide MantissaOf, ExponentOf, ValidExponent, Digits;
    var begin, end := FindBody(input);
    if begin == end {
      EmptyText();
      return Unreadable(Empty);
    }
    var s := input[begin..end];
    var negative, pos := false, 0;
    if s[pos] == '+' || s[pos] == '-' {
      negative := s[pos] == '-';
      pos := pos + 1;
    }
    assert s[pos..] == s[|SignOf(s)|..];
    var digits, fractional;
    pos, digits, fractional := ReadMantissa(s, pos);
    if digits == "" {
      return Unreadable(NoDigit);
    }
    var exponent, failure := ReadExponent(s, pos);
    if failure.Some? {
      return Unreadable(failure.value);
    }
    ShowParse(s);
    r := Read(negative, digits, fractional, exponent);
  }

  lemma EmptyText()
    ensures Parse("") == None
  {
  }

  /* ---- Scaling ---- */

  function Abs(n: int): nat {
    if n < 0 then -n else n
  }

  function Over(a: int, b: int): nat {
    if a > b then a - b else 0
  }

  /** The integer `v` with `scale` decimal places is the number `coefficient` with `source` decimal places. */
  predicate Denotes(coefficient: int, source: int, scale: nat, v: int) {
    v * Pow10(Over(source, scale)) == coefficient * Pow10(Over(scale, source))
  }

  predicate Fits(coefficient: int, source: int, precision: nat, scale: nat, v: int) {
    Denotes(coefficient, source, scale, v) && Abs(v) < Pow10(precision)
  }

  /** The coefficient with the zeros that a negative scale stands for. */
  function Padded(coefficient: int, source: int): int {
    coefficient * Pow10(Over(0, source))
  }

  lemma DenotesPadded(coefficient: int, source: int, scale: nat, v: int)
    ensures Denotes(coefficient, source, scale, v) <==> Denotes(Padded(coefficient, source), Over(source, 0), scale, v)
  {
    if source < 0 {
      Pow10Sum(-source, scale);
      Reassociate(coefficient, Pow10(-source), Pow10(scale));
    }
  }

  lemma Reassociate(x: int, y: int, z: int)
    ensures x * (y * z) == (x * y) * z
  {
  }

  lemma PowersFit()
    ensures Pow10(38) < TWO_127 <= Pow10(39)
  {
    PowersOfTen();
    assert Pow10(39) == 10 * Pow10(38);
  }

  /** Powers of ten fit 128 bits up to 38. */
  method Power10(exponent: nat) returns (rv: Option<int>)
    ensures rv == if exponent <= 38 then Some(Pow10(exponent)) else None
  {
    PowersFit();
    var p := 1;
    for i := 0 to exponent
      invariant i <= 38 && p == Pow10(i)
    {
      if !IsInt128(p * 10) {
        if i < 38 {
          Pow10Grows(i + 1, 38);
        }
        return None;
      }
      p := p * 10;
    }
    rv := Some(p);
  }

  /** How many decimal digits an integer has. */
  method Precision(value: int) returns (rv: nat)
    ensures rv > 0 && forall k :: k > 0 ==> (rv <= k <==> Abs(value) < Pow10(k))
  {
    var v := Abs(value);
    rv := 1;
    while v >= 10
      invariant rv > 0 && v * Pow10(rv - 1) <= Abs(value) < (v + 1) * Pow10(rv - 1)
      invariant v > 0 || rv == 1
    {
      Tenth(v, v / 10, Pow10(rv - 1), Abs(value));
      v := v / 10;
      rv := rv + 1;
    }
    DigitCount(v, rv, Abs(value));
  }

  lemma Tenth(v: int, q: int, p: int, n: int)
    requires 0 < p && v * p <= n < (v + 1) * p && 10 * q <= v < 10 * (q + 1)
    ensures q * (10 * p) <= n < (q + 1) * (10 * p)
  {
    Product(10 * q, v, p);
    Product(v + 1, 10 * (q + 1), p);
    Reassociate(q, 10, p);
    Reassociate(q + 1, 10, p);
  }

  lemma DigitCount(v: nat, rv: nat, n: nat)
    requires 0 < rv && v < 10 && v * Pow10(rv - 1) <= n < (v + 1) * Pow10(rv - 1) && (v > 0 || rv == 1)
    ensures forall k :: k > 0 ==> (rv <= k <==> n < Pow10(k))
  {
    Product(v + 1, 10, Pow10(rv - 1));
    assert n < Pow10(rv);
    if v > 0 {
      Product(1, v, Pow10(rv - 1));
    }
    forall k: nat | k > 0 ensures rv <= k <==> n < Pow10(k) {
      if rv <= k {
        Pow10Grows(rv, k);
      } else {
        Pow10Grows(k, rv - 1);
      }
    }
  }

  datatype Outcome = Stored(low: int, high: int) | Rejected(reason: Reason) | Overflow
  {
    /** The integer that the two halves store. */
    function Value(): int
      requires Stored?
    {
      high * TWO_64 + low
    }
  }

  /** Stores a 128-bit integer as an unsigned low half and a signed high half. */
  function Store(value: int): (r: Outcome)
    requires IsInt128(value)
    ensures r.Stored? && r.Value() == value && 0 <= r.low < TWO_64 && IsInt64(r.high)
  {
    var bits := if value < 0 then value + 2 * TWO_127 else value;
    var high := bits / TWO_64;
    Stored(bits % TWO_64, if high > INT64_MAX then high - TWO_64 else high)
  }

  /** The value of up to 38 digits; no step of the sum leaves 128 bits. */
  method Accumulate(digits: string) returns (unscaled: int)
    requires Digits(digits) && |digits| <= 38
    ensures unscaled == NatValue(digits) && IsInt128(unscaled) && unscaled < Pow10(38)
  {
    PowersFit();
    unscaled := 0;
    for i := 0 to |digits|
      invariant unscaled == NatValue(digits[..i]) && IsInt128(unscaled)
    {
      assert digits[..i + 1][..i] == digits[..i];
      unscaled := unscaled * 10 + DigitValue(digits[i]);
      Bounded(digits[..i + 1]);
      Pow10Grows(i + 1, 38);
    }
    assert digits[..|digits|] == digits;
    Bounded(digits);
    Pow10Grows(|digits|, 38);
  }

  /** What takes the arithmetic out of 128 bits: the scaled value, or a divisor of more than 38 zeros. */
  predicate Overflows(unscaled: int, source: nat, scale: nat) {
    !IsInt128(unscaled * Pow10(Over(scale, source))) || Over(source, scale) > 38
  }

  lemma DenotesUp(unscaled: int, source: nat, scale: nat)
    requires source <= scale
    ensures forall v :: Denotes(unscaled, source, scale, v) <==> v == unscaled * Pow10(scale - source)
  {
    assert Pow10(0) == 1;
  }

  lemma DenotesDown(unscaled: int, source: nat, scale: nat)
    requires scale <= source
    ensures forall v :: Denotes(unscaled, source, scale, v) <==> v * Pow10(source - scale) == unscaled
  {
    assert Pow10(0) == 1;
  }

  /** Brings an integer with `source` decimal places to `scale` decimal places. */
  method Rescale(unscaled: int, source: nat, scale: nat) returns (r: Option<int>, overflow: bool)
    requires Abs(unscaled) < Pow10(38) && scale <= 38
    ensures overflow <==> Overflows(unscaled, source, scale)
    ensures r.Some? ==> !overflow && IsInt128(r.value) && Denotes(unscaled, source, scale, r.value)
    ensures r == None && !overflow ==> forall v :: !Denotes(unscaled, source, scale, v)
  {
    PowersFit();
    if source <= scale {
      DenotesUp(unscaled, source, scale);
    } else {
      DenotesDown(unscaled, source, scale);
    }
    assert Pow10(0) == 1;
    hide Pow10, Denotes;
    r, overflow := Some(unscaled), false;
    if source < scale {
      var p := Power10(scale - source);
      overflow := !IsInt128(unscaled * p.value);
      r := if overflow then None else Some(unscaled * p.value);
    } else if source > scale {
      var p := Power10(source - scale);
      overflow := p == None;
      r := None;
      if !overflow {
        r := DivideExactly(unscaled, p.value);
      }
    }
  }

  /** Division that truncates towards zero, if it leaves no remainder. */
  method DivideExactly(n: int, p: int) returns (r: Option<int>)
    requires p > 0
    ensures r.Some? ==> r.value * p == n && Abs(r.value) <= Abs(n)
    ensures r == None ==> forall v :: v * p != n
  {
    var q := Abs(n) / p;
    Quotient(Abs(n), p);
    if Abs(n) % p != 0 {
      forall v ensures v * p != n {
        if v * p == n {
          Exact(if n < 0 then -v else v, q, Abs(n) % p, p);
        }
      }
      return None;
    }
    r := Some(if n < 0 then -q else q);
  }

  lemma Quotient(n: nat, p: int)
    requires p > 0
    ensures n == (n / p) * p + n % p && 0 <= n / p <= n
  {
    var q := n / p;
    assert n == p * q + n % p;
    Times(q, p);
  }

  lemma Times(q: int, p: int)
    requires q >= 0 && p > 0
    ensures q <= q * p && p * q == q * p
  {
  }

  lemma Exact(w: int, q: int, r: int, p: int)
    requires p > 0 && 0 <= r < p && w * p == q * p + r
    ensures w == q && r == 0
  {
    if w > q {
      Product(q + 1, w, p);
    } else if w < q {
      Product(w + 1, q, p);
    }
  }

  lemma Product(a: int, b: int, p: int)
    requires a <= b && p > 0
    ensures a * p <= b * p && (a - 1) * p == a * p - p
  {
  }

  /** A number that fits the column never leaves 128 bits on the way. */
  lemma FitsStaysInside(unscaled: int, source: nat, precision: nat, scale: nat, v: int)
    requires 0 < Abs(unscaled) < Pow10(38) && precision <= 38 && Fits(unscaled, source, precision, scale, v)
    ensures !Overflows(unscaled, source, scale)
  {
    PowersFit();
    Pow10Grows(precision, 38);
    assert Pow10(0) == 1;
    if source > scale + 38 {
      Pow10Grows(39, source - scale);
      hide Pow10;
      NoMultiple(v, unscaled, Pow10(source - scale));
    }
  }

  /** One that does not fit can leave them: 10 scaled to 38 places. */
  lemma ScalingOverflows()
    ensures Overflows(10, 0, 38) && Abs(10) < Pow10(38)
  {
    PowersFit();
    assert 10 * Pow10(38) == Pow10(39);
    Pow10Grows(2, 38);
  }

  lemma NoMultiple(v: int, n: int, p: int)
    requires 0 < Abs(n) < p
    ensures v * p != n
  {
    if v > 0 {
      Product(1, v, p);
    } else if v < 0 {
      Product(v, -1, p);
    }
  }

  lemma ZeroProduct(a: nat, p: nat)
    requires p > 0
    ensures a * p == 0 <==> a == 0
  {
  }

  /** What a conversion gives for a number with `source` decimal places. */
  ghost predicate Converted(coefficient: int, source: int, precision: nat, scale: nat, r: Outcome) {
    && (r == Overflow <==> LeavesRange(coefficient, source, scale))
    && match r
       case Stored(_, _) =>
         Fits(coefficient, source, precision, scale, r.Value()) && Abs(Padded(coefficient, source)) < Pow10(38)
       case Overflow => true
       case Rejected(reason) =>
         && coefficient != 0
         && match reason
            case TooManyDigits => Abs(Padded(coefficient, source)) >= Pow10(38)
            case LosesPrecision => forall v :: !Denotes(coefficient, source, scale, v)
            case ExceedsPrecision => exists v :: Denotes(coefficient, source, scale, v) && Abs(v) >= Pow10(precision)
            case _ => false
  }

  /** A number of at most 38 digits that takes the arithmetic out of 128 bits. */
  predicate LeavesRange(coefficient: int, source: int, scale: nat) {
    && coefficient != 0 && Abs(Padded(coefficient, source)) < Pow10(38)
    && Overflows(Padded(coefficient, source), Over(source, 0), scale)
  }

  method Fit(unscaled: int, ghost coefficient: int, source: int, precision: nat, scale: nat) returns (r: Outcome)
    requires Supported(precision, scale)
    requires unscaled == Padded(coefficient, source) && coefficient != 0 && Abs(unscaled) < Pow10(38)
    ensures Converted(coefficient, source, precision, scale, r)
  {
    hide Padded, Denotes, Overflows, Pow10;
    var scaled, overflow := Rescale(unscaled, Over(source, 0), scale);
    if overflow {
      return Overflow;
    }
    if scaled == None {
      forall v ensures !Denotes(coefficient, source, scale, v) {
        DenotesPadded(coefficient, source, scale, v);
      }
      return Rejected(LosesPrecision);
    }
    DenotesPadded(coefficient, source, scale, scaled.value);
    var digits := Precision(scaled.value);
    r := if digits > precision then Rejected(ExceedsPrecision) else Store(scaled.value);
  }

  /** The integer that the digits, with the zeros that a negative scale stands for, denote; None if it has more
      than 38 significant digits. */
  method Unscaled(n: Reading, source: int) returns (r: Option<int>)
    requires n.Read? && Digits(n.digits)
    ensures r.Some? ==> r.value == Padded(Signed(n.negative, NatValue(n.digits)), source)
    ensures r.Some? <==> Abs(Padded(Signed(n.negative, NatValue(n.digits)), source)) < Pow10(38)
  {
    ghost var magnitude := NatValue(n.digits);
    var digits := n.digits + Zeros(Over(0, source));
    ZerosAppended(n.digits, Over(0, source));
    PaddedValue(n.negative, magnitude, source);
    var first := FirstNonZero(digits);
    Significant(digits, 38);
    hide Padded, NatValue, Pow10;
    r := None;
    if first == |digits| {
      r := Some(0);
    } else if |digits| - first <= 38 {
      var unscaled := Accumulate(digits[first..]);
      r := Some(Signed(n.negative, unscaled));
    }
  }

  /** Stores digits, a sign and a scale as an integer of the column's precision and scale. */
  method Convert(n: Reading, precision: nat, scale: nat) returns (r: Outcome)
    requires n.Read? && Digits(n.digits) && Supported(precision, scale)
    ensures Converted(Signed(n.negative, NatValue(n.digits)), n.fractional - n.exponent, precision, scale, r)
  {
    hide Padded, NatValue, Pow10, Denotes, Overflows;
    var source := n.fractional - n.exponent;
    ghost var coefficient := Signed(n.negative, NatValue(n.digits));
    PaddedZero(coefficient, source);
    var unscaled := Unscaled(n, source);
    if unscaled == None {
      r := Rejected(TooManyDigits);
    } else if unscaled.value == 0 {
      ZeroFits(source, precision, scale);
      r := Store(0);
    } else {
      r := Fit(unscaled.value, coefficient, source, precision, scale);
    }
  }

  lemma PaddedZero(coefficient: int, source: int)
    ensures Padded(coefficient, source) == 0 <==> coefficient == 0
  {
  }

  lemma ZeroFits(source: int, precision: nat, scale: nat)
    ensures Fits(0, source, precision, scale, 0) && Padded(0, source) == 0
  {
  }

  lemma ZerosAppended(s: string, n: nat)
    requires Digits(s)
    ensures Digits(s + Zeros(n)) && NatValue(s + Zeros(n)) == NatValue(s) * Pow10(n)
  {
    Joined(s, Zeros(n));
    ZerosValue(n);
  }

  lemma PaddedValue(negative: bool, magnitude: nat, source: int)
    ensures Padded(Signed(negative, magnitude), source) == Signed(negative, magnitude * Pow10(Over(0, source)))
    ensures Abs(Padded(Signed(negative, magnitude), source)) == magnitude * Pow10(Over(0, source))
  {
  }

  /** What a conversion of a text gives: readable text is converted, and any other is rejected. */
  ghost predicate Parsed(input: Option<string>, precision: nat, scale: nat, r: Outcome) {
    if input.Some? && Readable(Trim(input.value)) then
      var n := Parse(Trim(input.value)).value;
      n.Valid() && Converted(n.Coefficient(), n.Scale(), precision, scale, r)
    else r.Rejected?
  }

  lemma ReadingConverted(m: Numeral, precision: nat, scale: nat, r: Outcome)
    requires m.Valid()
    ensures var n := ReadingOf(m);
      && Digits(n.digits)
      && (Converted(Signed(n.negative, NatValue(n.digits)), n.fractional - n.exponent, precision, scale, r) <==>
          Converted(m.Coefficient(), m.Scale(), precision, scale, r))
  {
    hide Converted, NatValue;
  }

  /** Converts the text of a number to a 128-bit integer of the column's precision and scale. */
  method ParseDecimal128(input: Option<string>, precision: nat, scale: nat) returns (r: Outcome)
    requires Supported(precision, scale)
    ensures Parsed(input, precision, scale, r)
  {
    hide Converted, Trim, Parse, Digits, ReadingOf, NatValue, ValidExponent;
    if input == None {
      return Rejected(NotAvailable);
    }
    var n := ReadNumeral(input.value);
    if n.Unreadable? {
      return Rejected(n.reason);
    }
    ghost var m := Parse(Trim(input.value)).value;
    ReadingConverted(m, precision, scale, Overflow);
    r := Convert(n, precision, scale);
    ReadingConverted(m, precision, scale, r);
  }

  /** A number of at most 38 digits is stored exactly if it fits the column; what is stored is that number, and
      the arithmetic leaves 128 bits only for numbers that do not fit. */
  lemma StoredIffFits(coefficient: int, source: int, precision: nat, scale: nat, r: Outcome)
    requires Supported(precision, scale) && Converted(coefficient, source, precision, scale, r)
    ensures r.Stored? <==>
      Abs(Padded(coefficient, source)) < Pow10(38) && exists v :: Fits(coefficient, source, precision, scale, v)
    ensures forall v :: r.Stored? && Fits(coefficient, source, precision, scale, v) ==> v == r.Value()
  {
    forall v | Fits(coefficient, source, precision, scale, v) && Abs(Padded(coefficient, source)) < Pow10(38)
      ensures r.Stored? && v == r.Value()
    {
      FitsOnlyStored(coefficient, source, precision, scale, r, v);
    }
  }

  lemma FitsOnlyStored(coefficient: int, source: int, precision: nat, scale: nat, r: Outcome, v: int)
    requires Supported(precision, scale) && Converted(coefficient, source, precision, scale, r)
    requires Fits(coefficient, source, precision, scale, v) && Abs(Padded(coefficient, source)) < Pow10(38)
    ensures r.Stored? && v == r.Value()
  {
    if r.Stored? {
      DenotesOne(coefficient, source, scale, v, r.Value());
    } else if r == Overflow {
      DenotesPadded(coefficient, source, scale, v);
      PaddedValue(coefficient < 0, Abs(coefficient), source);
      ZeroProduct(Abs(coefficient), Pow10(Over(0, source)));
      FitsStaysInside(Padded(coefficient, source), Over(source, 0), precision, scale, v);
    } else if r.reason == ExceedsPrecision {
      var w :| Denotes(coefficient, source, scale, w) && Abs(w) >= Pow10(precision);
      DenotesOne(coefficient, source, scale, v, w);
    }
  }

  lemma DenotesOne(coefficient: int, source: int, scale: nat, v: int, w: int)
    requires Denotes(coefficient, source, scale, v) && Denotes(coefficient, source, scale, w)
    ensures v == w
  {
    var p := Pow10(Over(source, scale));
    assert (v - w) * p == 0;
  }

  /** The text is this numeral, with an exponent of at most 76 and 38 significant digits, and it fits the column. */
  ghost predicate Storable(input: string, n: Numeral, precision: nat, scale: nat) {
    && n.Valid() && n.Show() == Trim(input) && NatValue(n.expDigits) <= MAX_EXPONENT
    && Abs(Padded(n.Coefficient(), n.Scale())) < Pow10(38)
    && exists v :: Fits(n.Coefficient(), n.Scale(), precision, scale, v)
  }

  /** A text is stored if and only if it is a numeral that can be stored, and then as the number it denotes. */
  lemma StoredIffStorable(input: string, precision: nat, scale: nat, r: Outcome)
    requires Supported(precision, scale) && Parsed(Some(input), precision, scale, r)
    ensures r.Stored? <==> exists n :: Storable(input, n, precision, scale)
    ensures forall n: Numeral, v ::
      (r.Stored? && Storable(input, n, precision, scale) && Fits(n.Coefficient(), n.Scale(), precision, scale, v)
       ==> v == r.Value())
  {
    hide Trim, Parse, Converted, Fits, Padded, Pow10, NatValue, Numeral.Show;
    var body := Trim(input);
    forall n: Numeral | n.Valid() && n.Show() == body ensures Parse(body) == Some(n) {
      ParseShow(n);
    }
    if Parse(body).Some? {
      var n := Parse(body).value;
      ShowParse(body);
      if NatValue(n.expDigits) <= MAX_EXPONENT {
        StoredIffFits(n.Coefficient(), n.Scale(), precision, scale, r);
        assert r.Stored? ==> Storable(input, n, precision, scale);
      }
    }
  }
}
