/** What the list path makes of the numerals that a number column holds. */
module NumberLaws {
  import opened Chars
  import opened Decimal128
  import opened Numbers
  import opened Wrappers

  /** The integer is the number that the numeral denotes. */
  predicate Denotes(n: int, num: Numeral)
    requires num.Valid()
  {
    if num.Exponent() >= |num.fraction| then n == num.Coefficient() * Pow10(num.Exponent() - |num.fraction|)
    else n * Pow10(|num.fraction| - num.Exponent()) == num.Coefficient()
  }

  lemma DotShown(num: Numeral)
    requires num.Valid() && num.dot
    ensures '.' in num.Show()
  {
    var text := num.Show();
    assert text[|num.sign| + |num.whole|] == '.';
  }

  lemma NoDotShown(num: Numeral)
    requires num.Valid() && !num.dot
    ensures num.Show() == num.sign + (num.whole + (num.mark + num.expSign + num.expDigits)) && '.' !in num.Show()
  {
  }

  /** strtoll() reads a sign and the digits behind it. */
  lemma LongLongOf(sign: string, whole: string, rest: string)
    requires IsSign(sign) && Digits(whole) && whole != "" && (rest != "" ==> !IsDigit(rest[0]))
    ensures var n := Signed(sign == "-", NatValue(whole));
      StrToLL(sign + (whole + rest)) == LongLong(Clamp(n), rest, IsInt64(n))
  {
    hide NatValue, Clamp, DigitRun;
    RunOf(whole, rest);
    var text := sign + (whole + rest);
    assert (whole + rest)[..|whole|] == whole;
    assert text[0] == if sign == "" then whole[0] else sign[0];
    assert SkipSpace(text) == text;
    assert text[|sign|..] == whole + rest && (whole + rest)[|whole|..] == rest;
  }

  /** Without a dot, the leading integer is the coefficient. */
  lemma LeadingInteger(num: Numeral)
    requires num.Valid() && !num.dot
    ensures StrToLL(num.Show()).n == Clamp(num.Coefficient())
  {
    hide StrToLL, NatValue, Clamp;
    NoDotShown(num);
    assert num.whole + num.fraction == num.whole && num.whole != "";
    LongLongOf(num.sign, num.whole, num.mark + num.expSign + num.expDigits);
  }

  lemma ShortFits(num: Numeral)
    requires num.Valid() && !num.dot && Short(num.Show())
    ensures IsInt64(num.Coefficient())
  {
    NoDotShown(num);
    var text, rest := num.Show(), num.mark + num.expSign + num.expDigits;
    assert num.whole + num.fraction == num.whole;
    PowersOfTen();
    Bounded(num.whole);
    if |num.whole| < 19 {
      Pow10Grows(|num.whole|, 18);
    } else {
      hide NatValue, DecimalText, Pow10;
      assert text == num.sign + num.whole && num.sign != "+";
      assert Magnitude(text) == num.whole;
      NineteenShort(text);
    }
  }

  /** In a list, a numeral with a dot stays the text that it is, and so does one that is not short. A short one without
      a dot becomes an integer, which is the number that it denotes if and only if it has no exponent other than 0 or
      its digits are zeros. */
  lemma ListedNumeral(num: Numeral)
    requires num.Valid()
    ensures match NumberOptimal(num.Show())
      case TextNumber(t) => t == num.Show() && (num.dot || !Short(num.Show()))
      case IntNumber(n) =>
        !num.dot && Short(num.Show()) && (Denotes(n, num) <==> num.Exponent() == 0 || num.Coefficient() == 0)
  {
    if num.dot {
      DotShown(num);
    } else {
      NoDotShown(num);
      LeadingInteger(num);
      if Short(num.Show()) {
        ShortFits(num);
        assert num.fraction == "";
        hide *;
        Scaled(num);
      }
    }
  }

  lemma Scaled(num: Numeral)
    requires num.Valid() && num.fraction == ""
    ensures Denotes(num.Coefficient(), num) <==> num.Exponent() == 0 || num.Coefficient() == 0
  {
    hide Numeral.Coefficient, Numeral.Exponent;
    var c, e := num.Coefficient(), num.Exponent();
    if e > 0 {
      Larger(c, e);
    } else if e < 0 {
      Larger(c, -e);
    }
  }

  lemma Larger(c: int, k: nat)
    requires k > 0
    ensures c == c * Pow10(k) <==> c == 0
    ensures c * Pow10(k) == c <==> c == 0
  {
    Pow10Grows(1, k);
    assert Pow10(1) == 10 * Pow10(0);
    if c > 0 {
      assert c * Pow10(k) >= c * 10;
    } else if c < 0 {
      assert c * Pow10(k) <= c * 10;
    }
  }

  /** A typed column holds a numeral if and only if it is an integer of 64 bits without a dot and an exponent, and holds
      it as the number that it denotes. */
  lemma TypedNumeral(num: Numeral)
    requires num.Valid()
    ensures ParseInt64(num.Show()) ==
      if !num.dot && num.mark == "" && IsInt64(num.Coefficient()) then Some(num.Coefficient()) else None
    ensures ParseInt64(num.Show()).Some? ==> Denotes(ParseInt64(num.Show()).value, num)
  {
    hide StrToLL, NatValue;
    if num.dot {
      DotShown(num);
    } else {
      NoDotShown(num);
      assert num.whole + num.fraction == num.whole && num.whole != "";
      LongLongOf(num.sign, num.whole, num.mark + num.expSign + num.expDigits);
      if num.mark != "" {
        MarkShown(num);
      } else {
        NoMarkShown(num);
      }
    }
  }

  lemma MarkShown(num: Numeral)
    requires num.Valid() && num.mark != ""
    ensures 'e' in num.Show() || 'E' in num.Show()
  {
    var text := num.Show();
    var i := |num.sign| + |num.whole| + if num.dot then 1 + |num.fraction| else 0;
    assert text[i] == num.mark[0];
  }

  lemma NoMarkShown(num: Numeral)
    requires num.Valid() && !num.dot && num.mark == ""
    ensures 'e' !in num.Show() && 'E' !in num.Show() && num.Exponent() == 0 && Pow10(0) == 1
    ensures num.mark + num.expSign + num.expDigits == ""
  {
  }

  /** An exponent without a dot is passed over: "1E5" is listed as the integer 1. */
  lemma ExponentLost()
    ensures NumberOptimal("1E5") == IntNumber(1)
  {
    assert NatValue("1") == 1 by {
      assert "1"[..0] == "";
    }
    hide NatValue, StrToLL, AtMost, DecimalText;
    LongLongOf("", "1", "E5");
    assert "" + ("1" + "E5") == "1E5";
  }
}
