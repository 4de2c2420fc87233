/** Powers of ten, the values of digit strings, and integers of 64 and 128 bits. */
module Numbers {
  import opened Chars
  import opened Wrappers

  function Pow10(n: nat): (p: nat)
    ensures p > 0
  {
    if n == 0 then 1 else 10 * Pow10(n - 1)
  }

  lemma {:induction false} Pow10Sum(a: nat, b: nat)
    ensures Pow10(a + b) == Pow10(a) * Pow10(b)
  {
    if a > 0 {
      Pow10Sum(a - 1, b);
    }
  }

  lemma {:induction false} Pow10Grows(a: nat, b: nat)
    requires a <= b
    ensures Pow10(a) <= Pow10(b)
  {
    if a < b {
      Pow10Grows(a, b - 1);
    }
  }

  function Zeros(n: nat): (s: string)
    ensures |s| == n && Digits(s)
  {
    seq(n, _ => '0')
  }

  lemma {:induction false} ZerosValue(n: nat)
    ensures NatValue(Zeros(n)) == 0
  {
    if n > 0 {
      ZerosValue(n - 1);
      assert Zeros(n)[..n - 1] == Zeros(n - 1);
    }
  }

  lemma {:induction false} Joined(a: string, b: string)
    requires Digits(a) && Digits(b)
    ensures Digits(a + b) && NatValue(a + b) == NatValue(a) * Pow10(|b|) + NatValue(b)
  {
    if b == "" {
      assert a + b == a;
    } else {
      var n := |b| - 1;
      Joined(a, b[..n]);
      assert (a + b)[..|a + b| - 1] == a + b[..n] && (a + b)[|a + b| - 1] == b[n];
      Horner(NatValue(a), Pow10(n), NatValue(b[..n]), DigitValue(b[n]));
    }
  }

  lemma Horner(x: nat, p: nat, y: nat, d: nat)
    ensures 10 * (x * p + y) + d == x * (10 * p) + (10 * y + d)
  {
  }

  lemma {:induction false} Bounded(s: string)
    requires Digits(s)
    ensures NatValue(s) < Pow10(|s|)
  {
    if s != "" {
      Bounded(s[..|s| - 1]);
    }
  }

  /** A digit string that does not start with a zero has a value of its length. */
  lemma {:induction false} LeadingDigit(s: string)
    requires Digits(s) && s != "" && s[0] != '0'
    ensures Pow10(|s| - 1) <= NatValue(s)
  {
    if |s| > 1 {
      LeadingDigit(s[..|s| - 1]);
    } else {
      assert s[..0] == "";
    }
  }

  /** find_first_not_of('0'); the length of the string if there is no such digit. */
  function FirstNonZero(s: string): (n: nat)
    ensures n <= |s| && (forall i :: 0 <= i < n ==> s[i] == '0') && (n < |s| ==> s[n] != '0')
  {
    if s == "" || s[0] != '0' then 0 else 1 + FirstNonZero(s[1..])
  }

  /** Leading zeros do not count: what remains is as long as the value needs. */
  lemma Significant(s: string, k: nat)
    requires Digits(s)
    ensures var n := FirstNonZero(s);
      && NatValue(s) == NatValue(s[n..])
      && (NatValue(s) == 0 <==> n == |s|)
      && (n < |s| ==> (NatValue(s) < Pow10(k) <==> |s| - n <= k))
  {
    var n := FirstNonZero(s);
    SkipZeros(s);
    if n < |s| {
      Bounded(s[n..]);
      LeadingDigit(s[n..]);
      if |s| - n <= k {
        Pow10Grows(|s| - n, k);
      } else {
        Pow10Grows(k, |s| - n - 1);
      }
    }
  }

  lemma SkipZeros(s: string)
    requires Digits(s)
    ensures NatValue(s) == NatValue(s[FirstNonZero(s)..])
  {
    var n := FirstNonZero(s);
    assert s[..n] == Zeros(n) && s == Zeros(n) + s[n..];
    ZerosValue(n);
    Joined(Zeros(n), s[n..]);
  }

  /* ---- 64-bit integers ---- */

  const TWO_64: int := 0x1_0000_0000_0000_0000
  const INT64_MAX: int := 0x7fff_ffff_ffff_ffff

  predicate IsInt64(n: int) {
    -INT64_MAX - 1 <= n <= INT64_MAX
  }

  /** The digits behind an optional minus sign. */
  function Magnitude(text: string): string {
    if text != "" && text[0] == '-' then text[1..] else text
  }

  predicate IsInteger(text: string) {
    Magnitude(text) != "" && Digits(Magnitude(text))
  }

  function IntegerValue(text: string): int
    requires IsInteger(text)
  {
    if text[0] == '-' then -(NatValue(Magnitude(text)) as int) else NatValue(Magnitude(text))
  }

  /** The nearest 64-bit integer. */
  function Clamp(n: int): int {
    if n < -INT64_MAX - 1 then -INT64_MAX - 1 else if n > INT64_MAX then INT64_MAX else n
  }

  /** The length of the longest run of digits at the start of `s`. */
  function DigitRun(s: string): (n: nat)
    ensures n <= |s| && Digits(s[..n]) && (n < |s| ==> !IsDigit(s[n]))
  {
    if s == "" || !IsDigit(s[0]) then 0
    else
      assert s[..1 + DigitRun(s[1..])] == [s[0]] + s[1..][..DigitRun(s[1..])];
      1 + DigitRun(s[1..])
  }

  lemma {:induction false} RunOf(word: string, rest: string)
    requires Digits(word) && (rest != "" ==> !IsDigit(rest[0]))
    ensures DigitRun(word + rest) == |word|
  {
    if word == "" {
      assert word + rest == rest;
    } else {
      assert (word + rest)[1..] == word[1..] + rest;
      RunOf(word[1..], rest);
    }
  }

  /** The text behind leading white space. */
  function SkipSpace(s: string): string {
    if s != "" && IsSpace(s[0]) then SkipSpace(s[1..]) else s
  }

  /** The result of strtoll(): the number, the text behind it, and whether it fits 64 bits. */
  datatype LongLong = LongLong(n: int, rest: string, fits: bool)

  function StrToLL(text: string): LongLong {
    var s := SkipSpace(text);
    var unsigned := if s != "" && s[0] in "+-" then s[1..] else s;
    var len := DigitRun(unsigned);
    if len == 0 then LongLong(0, text, true)
    else
      var n: int := NatValue(unsigned[..len]);
      var value := if s[0] == '-' then -n else n;
      LongLong(Clamp(value), unsigned[len..], IsInt64(value))
  }

  lemma IntegerRead(text: string)
    requires IsInteger(text)
    ensures StrToLL(text) == LongLong(Clamp(IntegerValue(text)), "", IsInt64(IntegerValue(text)))
  {
    var s := Magnitude(text);
    RunOf(s, "");
    assert s + "" == s && s[..|s|] == s;
    assert text[0] != '-' ==> text[0] == s[0];
  }

  /** An integer numeral without needless zeros, as the server writes it. */
  predicate Canonical(text: string) {
    IsInteger(text) && (Magnitude(text)[0] == '0' ==> text == "0")
  }

  /** The order of strcmp(). */
  predicate AtMost(a: string, b: string) {
    a == "" || (b != "" && (a[0] < b[0] || (a[0] == b[0] && AtMost(a[1..], b[1..]))))
  }

  /** Digit strings of the same length are ordered as their values. */
  lemma {:induction false} OrderedAsValues(a: string, b: string)
    requires Digits(a) && Digits(b) && |a| == |b|
    ensures AtMost(a, b) <==> NatValue(a) <= NatValue(b)
  {
    if a != "" {
      OrderedAsValues(a[1..], b[1..]);
      FirstDigit(a);
      FirstDigit(b);
      Carries(DigitValue(a[0]), DigitValue(b[0]), Pow10(|a| - 1), NatValue(a[1..]), NatValue(b[1..]));
      Carries(DigitValue(b[0]), DigitValue(a[0]), Pow10(|a| - 1), NatValue(b[1..]), NatValue(a[1..]));
    }
  }

  lemma FirstDigit(s: string)
    requires Digits(s) && s != ""
    ensures NatValue(s) == DigitValue(s[0]) * Pow10(|s| - 1) + NatValue(s[1..])
    ensures NatValue(s[1..]) < Pow10(|s| - 1)
  {
    var first, rest := [s[0]], s[1..];
    assert s == first + rest && Digits(first) && Digits(rest);
    assert NatValue(first) == DigitValue(s[0]) by {
      assert first[..0] == "";
    }
    hide *;
    Joined(first, rest);
    Bounded(rest);
  }

  lemma Carries(c: nat, d: nat, p: nat, x: nat, y: nat)
    requires x < p && y < p
    ensures c < d ==> c * p + x < d * p + y
  {
    if c < d {
      assert (c + 1) * p <= d * p;
    }
  }

  datatype Number = IntNumber(n: int) | TextNumber(text: string)

  /** The numerals of the largest and the smallest 64-bit integer. */
  function MaxText(): string {
    DecimalText(INT64_MAX)
  }

  function MinText(): string {
    "-" + DecimalText(INT64_MAX + 1)
  }

  predicate Short(text: string) {
    var len, sign := |Magnitude(text)|, text != "" && text[0] == '-';
    len < 19 || (len == 19 && ((!sign && AtMost(text, MaxText())) || (sign && AtMost(text, MinText()))))
  }

  /** getNumberOptimal(): how a list column holds a number. */
  function NumberOptimal(text: string): Number {
    if '.' !in text && Short(text) then IntNumber(StrToLL(text).n) else TextNumber(text)
  }

  /** The value that a column of 64-bit integers holds, if it can hold it. */
  function ParseInt64(text: string): Option<int> {
    if text == "" || '.' in text || 'e' in text || 'E' in text then None
    else
      var r := StrToLL(text);
      if !r.fits || r.rest != "" then None else Some(r.n)
  }

  lemma PowersOfTen()
    ensures Pow10(18) == 1_000_000_000_000_000_000 && Pow10(19) == 10_000_000_000_000_000_000
    ensures Pow10(38) == 100_000_000_000_000_000_000_000_000_000_000_000_000
  {
    Pow10Sum(2, 2);
    Pow10Sum(4, 4);
    Pow10Sum(8, 8);
    Pow10Sum(16, 2);
    Pow10Sum(18, 1);
    Pow10Sum(19, 19);
  }

  lemma {:induction false} DecimalTextStart(n: nat)
    requires n > 0
    ensures DecimalText(n)[0] != '0'
  {
    if n >= 10 {
      DecimalTextStart(n / 10);
    }
  }

  lemma DecimalTextLength(n: nat, k: nat)
    requires k > 0 && Pow10(k - 1) <= n < Pow10(k)
    ensures |DecimalText(n)| == k && NatValue(DecimalText(n)) == n
  {
    var s := DecimalText(n);
    DecimalTextValue(n);
    DecimalTextStart(n);
    LeadingDigit(s);
    Bounded(s);
    if |s| < k {
      Pow10Grows(|s|, k - 1);
    } else if |s| > k {
      Pow10Grows(k, |s| - 1);
    }
  }

  /** 19 digits are compared with a limit of 19 digits by their text, with or without leading zeros. */
  lemma NineteenDigits(s: string, limit: nat)
    requires Digits(s) && |s| == 19 && Pow10(18) <= limit < Pow10(19)
    ensures AtMost(s, DecimalText(limit)) <==> NatValue(s) <= limit
  {
    DecimalTextLength(limit, 19);
    OrderedAsValues(s, DecimalText(limit));
  }

  /** A number of up to 19 digits is compared with a limit of 19 digits by its text. */
  lemma MagnitudeFits(s: string, limit: nat)
    requires Digits(s) && s != "" && (s[0] == '0' ==> s == "0")
    requires 1_000_000_000_000_000_000 <= limit < 10_000_000_000_000_000_000
    ensures NatValue(s) <= limit <==> |s| < 19 || (|s| == 19 && AtMost(s, DecimalText(limit)))
  {
    PowersOfTen();
    hide AtMost, DecimalText;
    if s == "0" {
      assert s[..0] == "";
    } else {
      LeadingDigit(s);
      Bounded(s);
      if |s| < 19 {
        Pow10Grows(|s|, 18);
      } else if |s| == 19 {
        NineteenDigits(s, limit);
      } else {
        Pow10Grows(19, |s| - 1);
      }
    }
  }

  /** A canonical number fits 64 bits exactly if getNumberOptimal() takes it for short, although one looks at the
      value and the other at the text. */
  lemma ShortIffFits(text: string)
    requires Canonical(text)
    ensures Short(text) <==> IsInt64(IntegerValue(text))
  {
    hide NatValue, DecimalText;
    var s := Magnitude(text);
    MagnitudeFits(s, INT64_MAX);
    MagnitudeFits(s, INT64_MAX + 1);
    assert MinText()[1..] == DecimalText(INT64_MAX + 1);
  }

  /** An integer of 19 digits is short if and only if it fits 64 bits. */
  lemma NineteenShort(text: string)
    requires IsInteger(text) && |Magnitude(text)| == 19
    ensures Short(text) <==> IsInt64(IntegerValue(text))
  {
    PowersOfTen();
    hide NatValue, DecimalText, Pow10;
    NineteenDigits(Magnitude(text), INT64_MAX);
    NineteenDigits(Magnitude(text), INT64_MAX + 1);
    assert MinText()[1..] == DecimalText(INT64_MAX + 1);
  }

  /** A text that holds a 64-bit integer is short if and only if it has at most 19 characters behind a minus sign. */
  lemma ShortIffFew(text: string)
    requires ParseInt64(text).Some?
    ensures Short(text) <==> |Magnitude(text)| <= 19
  {
    if |Magnitude(text)| == 19 {
      ReadsAll(text);
      hide SkipSpace, DigitRun, NatValue;
      if Digits(Magnitude(text)) {
        IntegerRead(text);
        NineteenShort(text);
      } else {
        assert IsDigit(MaxText()[0]);
      }
    }
  }

  /** A text that is read completely is a number behind white space and a sign; one that starts with something else
      than a digit or a minus sign starts with a character below the digits. */
  lemma ReadsAll(text: string)
    requires ParseInt64(text).Some?
    ensures text != "" && (Digits(Magnitude(text)) || (text[0] != '-' && text[0] < '0'))
  {
    if !IsSpace(text[0]) {
      assert SkipSpace(text) == text;
      var unsigned := if text[0] in "+-" then text[1..] else text;
      assert unsigned[..|unsigned|] == unsigned;
    }
  }

  /** So a typed column and a list column agree on a text, that is, one that is an integer for the typed column is the
      same integer in a list, if and only if the text has at most 19 characters behind a minus sign or is not a 64-bit
      integer. */
  lemma ReadingsAgree(text: string)
    ensures (forall n :: ParseInt64(text) == Some(n) ==> NumberOptimal(text) == IntNumber(n)) <==>
      |Magnitude(text)| <= 19 || ParseInt64(text) == None
  {
    if ParseInt64(text).Some? {
      ShortIffFew(text);
      assert ParseInt64(text) == Some(StrToLL(text).n);
    }
  }

  /** For the text of an integer, that is if and only if it has at most 19 digits or does not fit 64 bits; and then
      they agree in both directions. */
  lemma ReadingsAgreeOnIntegers(text: string)
    requires IsInteger(text)
    ensures AgreeOn(text) <==> |Magnitude(text)| <= 19 || !IsInt64(IntegerValue(text))
  {
    IntegerRead(text);
    NoMarks(text);
    ReadingsAgree(text);
    if ParseInt64(text).Some? {
      ShortIffFew(text);
    } else {
      LongOrLarge(text);
    }
  }

  /** Both readings give the integer, or neither gives one. */
  predicate AgreeOn(text: string)
    requires IsInteger(text)
  {
    match ParseInt64(text)
    case Some(n) => NumberOptimal(text) == IntNumber(n) && n == IntegerValue(text)
    case None => NumberOptimal(text) == TextNumber(text)
  }

  /** An integer that does not fit 64 bits is never short. */
  lemma LongOrLarge(text: string)
    requires IsInteger(text) && !IsInt64(IntegerValue(text))
    ensures !Short(text)
  {
    var s := Magnitude(text);
    PowersOfTen();
    Bounded(s);
    if |s| < 19 {
      Pow10Grows(|s|, 18);
    } else if |s| == 19 {
      NineteenShort(text);
    }
  }

  /** The server writes integers in canonical form, on which they agree always. */
  lemma ColumnsAgree(text: string)
    requires Canonical(text)
    ensures AgreeOn(text)
  {
    IntegerRead(text);
    NoMarks(text);
    ShortIffFits(text);
  }

  lemma NoMarks(text: string)
    requires IsInteger(text)
    ensures '.' !in text && 'e' !in text && 'E' !in text
  {
    forall i | 0 <= i < |text| ensures text[i] !in ".eE" {
      if text[0] == '-' && i > 0 {
        assert text[i] == Magnitude(text)[i - 1];
      }
    }
  }

  /** Nineteen leading zeros make them disagree. */
  lemma LeadingZerosDisagree()
    ensures var text := Zeros(19) + "1"; ParseInt64(text) == Some(1) && NumberOptimal(text) == TextNumber(text)
  {
    var text := Zeros(19) + "1";
    ZerosValue(19);
    assert "1"[..0] == "" && NatValue("1") == 1;
    Joined(Zeros(19), "1");
    IntegerRead(text);
    NoMarks(text);
  }
}
