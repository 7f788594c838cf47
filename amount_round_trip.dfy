/**
 * Amounts written the way the expense file writes them (an optional `-`, the units,
 * and optionally a decimal mark and the fraction digits) and what `validateAmount`
 * reads back from them.
 */
module AmountRoundTrip {
  import opened Wrappers
  import opened JsText
  import opened Validators

  /** An amount in cents written with two decimals, a leading `-` when negative, and `sep` as the decimal mark. */
  function FormatCents(cents: int, sep: char): string {
    var magnitude := if cents < 0 then -cents else cents;
    Written(cents < 0, NatToDigits(magnitude / 100), sep, TwoDigits(magnitude % 100))
  }

  /** `body` after a `-` when `negative`. */
  function Signed(negative: bool, body: string): string {
    (if negative then "-" else "") + body
  }

  /** An optional `-`, the units, the decimal mark and the fraction digits. */
  function Written(negative: bool, units: string, sep: char, fraction: string): string {
    Signed(negative, units + [sep] + fraction)
  }

  lemma DigitsHaveNoComma(ds: string)
    requires AllDigits(ds)
    ensures ',' !in ds
  {
  }

  lemma DigitIsPlain(c: char)
    requires IsDigit(c)
    ensures !IsWhiteSpace(c) && c != '-' && c != '+' && c != 'I'
  {
  }

  lemma TrimStartKeeps(s: string)
    requires |s| > 0 && !IsWhiteSpace(s[0])
    ensures TrimStart(s) == s
  {
  }

  /** Text that starts with an optional `-` and then a digit has no white space and a sign prefix of just that `-`. */
  lemma SignedDigitsPrefix(negative: bool, body: string)
    requires |body| > 0 && IsDigit(body[0])
    ensures TrimStart(Signed(negative, body)) == Signed(negative, body)
    ensures SignPrefix(Signed(negative, body)) == (negative, body)
  {
    DigitIsPlain(body[0]);
    var text := Signed(negative, body);
    if negative {
      assert text[0] == '-' && text[1..] == body;
    } else {
      assert text == body;
    }
    TrimStartKeeps(text);
  }

  /** `parseFloat` of an optional `-` followed by a literal that starts with a digit is that literal's value, signed. */
  lemma ParseFloatOfLiteral(negative: bool, body: string, lit: DecimalLiteral)
    requires |body| > 0 && IsDigit(body[0])
    requires DecimalPrefix(body) == Some(lit)
    ensures AllDigits(lit.intDigits) && AllDigits(lit.fracDigits)
    ensures ParseFloat(Signed(negative, body)) == Finite(SignedLiteral(negative, lit))
  {
    SignedDigitsPrefix(negative, body);
    DigitIsPlain(body[0]);
    assert InfinityText()[0] == 'I';
    assert !StartsWithInfinity(body);
  }

  /** The literal `<units>.<two digits>` is worth its number of hundredths divided by 100. */
  lemma {:induction false} CentsLiteralValue(units: nat, hundredths: nat)
    requires hundredths < 100
    ensures LiteralValue(DecimalLiteral(NatToDigits(units), TwoDigits(hundredths), 0))
            == (units * 100 + hundredths) as real / 100.0
  {
    var ip, fp := NatToDigits(units), TwoDigits(hundredths);
    NatToDigitsRoundTrip(units);
    var all := ip + fp;
    assert all[..|all| - 1] == ip + [fp[0]];
    assert (ip + [fp[0]])[..|ip|] == ip;
    assert fp[..1] == [fp[0]] && fp[..1][..0] == [];
    assert DigitsValue(all) == units * 100 + hundredths;
    assert Scale(-2) == 1.0 / 100.0;
  }

  /** A whole number of hundredths, written as units, `.` and two digits, is worth a hundredth of it. */
  lemma HundredthsValue(m: nat)
    ensures LiteralValue(DecimalLiteral(NatToDigits(m / 100), TwoDigits(m % 100), 0)) * 100.0 == m as real
  {
    CentsLiteralValue(m / 100, m % 100);
    assert (m / 100) * 100 + m % 100 == m;
  }

  /** Two numbers with the same number of hundredths are equal. */
  lemma SameHundredths(a: real, b: real)
    requires a * 100.0 == b * 100.0
    ensures a == b
  {
  }

  /** The value of `lit`, negated when `negative`. */
  function SignedLiteral(negative: bool, lit: DecimalLiteral): real
    requires AllDigits(lit.intDigits) && AllDigits(lit.fracDigits)
  {
    var v := LiteralValue(lit);
    if negative then -v else v
  }

  /** The value of the literal `<units>.<fraction>`, negated when `negative`. */
  function SignedValue(negative: bool, units: string, fraction: string): real
    requires AllDigits(units) && AllDigits(fraction)
  {
    SignedLiteral(negative, DecimalLiteral(units, fraction, 0))
  }

  /** The value of the literal `FormatCents` writes for `cents`. */
  function CentsValue(cents: int): real {
    var magnitude := if cents < 0 then -cents else cents;
    SignedValue(cents < 0, NatToDigits(magnitude / 100), TwoDigits(magnitude % 100))
  }

  /** That literal is worth `cents` hundredths. */
  lemma CentsValueHundredths(cents: int)
    ensures CentsValue(cents) * 100.0 == cents as real
  {
    var magnitude := if cents < 0 then -cents else cents;
    HundredthsValue(magnitude);
  }

  /**
   * Any amount written as an optional `-`, digits, a comma or a period, and any number
   * of fraction digits ("10,5", "-1234.56", "7,") is accepted and read as the value of
   * that decimal literal, negated after a `-`.
   */
  lemma ValidateWrittenAmount(negative: bool, units: string, sep: char, fraction: string)
    requires AllDigits(units) && |units| > 0 && AllDigits(fraction)
    requires sep == ',' || sep == '.'
    ensures ValidateAmount(Some(Written(negative, units, sep, fraction))) == Some(SignedValue(negative, units, fraction))
  {
    FormattedParse(negative, units, sep, fraction);
    AmountReadAs(Written(negative, units, sep, fraction), SignedValue(negative, units, fraction));
  }

  /** The value of the digit run `units`, negated when `negative`. */
  function WholeValue(negative: bool, units: string): real
    requires AllDigits(units)
  {
    if negative then -(DigitsValue(units) as real) else DigitsValue(units) as real
  }

  /** An amount written as an optional `-` and digits only ("42", "-7") is accepted as that whole number. */
  lemma ValidateWholeAmount(negative: bool, units: string)
    requires AllDigits(units) && |units| > 0
    ensures ValidateAmount(Some(Signed(negative, units))) == Some(WholeValue(negative, units))
  {
    WholeParse(negative, units);
    AmountReadAs(Signed(negative, units), WholeValue(negative, units));
  }

  /** `parseFloat` reads a whole amount as its digits' value, negated after a `-`. */
  lemma WholeParse(negative: bool, units: string)
    requires AllDigits(units) && |units| > 0
    ensures ParseFloat(NormalizeAmount(Signed(negative, units))) == Finite(WholeValue(negative, units))
  {
    WholeNormalize(negative, units);
    DecimalPrefixOfDigits(units);
    assert IsDigit(units[0]);
    ParseFloatOfLiteral(negative, units, DecimalLiteral(units, [], 0));
    WholeLiteral(units);
  }

  /** A literal with no fraction and no exponent is worth its digits. */
  lemma WholeLiteral(units: string)
    requires AllDigits(units)
    ensures LiteralValue(DecimalLiteral(units, [], 0)) == DigitsValue(units) as real
  {
    assert units + [] == units;
  }

  /** A whole amount has no surrounding white space and no comma, so normalizing keeps it. */
  lemma WholeNormalize(negative: bool, units: string)
    requires AllDigits(units) && |units| > 0
    ensures NormalizeAmount(Signed(negative, units)) == Signed(negative, units)
  {
    var text := Signed(negative, units);
    assert text[0] == (if negative then '-' else units[0]);
    assert text[|text| - 1] == units[|units| - 1];
    DigitIsPlain(units[|units| - 1]);
    DigitIsPlain(units[0]);
    assert ',' !in text by {
      DigitsHaveNoComma(units);
    }
    NormalizeKeeps(text);
  }

  /**
   * Round trip: an amount in cents written with a comma (the file's convention) or a
   * period as the decimal mark is accepted and read back as the exact amount.
   */
  lemma ValidateFormattedAmount(cents: int, sep: char, amount: real)
    requires sep == ',' || sep == '.'
    requires amount * 100.0 == cents as real
    ensures ValidateAmount(Some(FormatCents(cents, sep))) == Some(amount)
  {
    var magnitude := if cents < 0 then -cents else cents;
    ValidateWrittenAmount(cents < 0, NatToDigits(magnitude / 100), sep, TwoDigits(magnitude % 100));
    CentsValueHundredths(cents);
    SameHundredths(CentsValue(cents), amount);
  }

  /** `parseFloat` reads a formatted amount as its literal, negated after a `-`. */
  lemma FormattedParse(negative: bool, ip: string, sep: char, fp: string)
    requires AllDigits(ip) && |ip| > 0 && AllDigits(fp)
    requires sep == ',' || sep == '.'
    ensures ParseFloat(NormalizeAmount(Written(negative, ip, sep, fp))) == Finite(SignedValue(negative, ip, fp))
  {
    var body := ip + "." + fp;
    FormattedNormalize(negative, ip, sep, fp);
    DecimalPrefixOfPointed(ip, fp);
    assert IsDigit(body[0]) by {
      assert body[0] == ip[0];
    }
    ParseFloatOfLiteral(negative, body, DecimalLiteral(ip, fp, 0));
  }

  lemma AmountReadAs(text: string, v: real)
    requires ParseFloat(NormalizeAmount(text)) == Finite(v)
    ensures ValidateAmount(Some(text)) == Some(v)
  {
  }

  /** Trimming and replacing the first `,` turn a written amount into `-`, digits, `.`, digits. */
  lemma FormattedNormalize(negative: bool, ip: string, sep: char, fp: string)
    requires AllDigits(ip) && |ip| > 0 && AllDigits(fp)
    requires sep == ',' || sep == '.'
    ensures NormalizeAmount(Written(negative, ip, sep, fp)) == Signed(negative, ip + "." + fp)
  {
    WrittenIsTrimmed(negative, ip, sep, fp);
    WrittenPointed(negative, ip, sep, fp);
  }

  /** Replacing the first `,` of a written amount leaves `.` as its decimal mark. */
  lemma WrittenPointed(negative: bool, ip: string, sep: char, fp: string)
    requires AllDigits(ip) && AllDigits(fp)
    requires sep == ',' || sep == '.'
    ensures ReplaceFirst(Written(negative, ip, sep, fp), ',', '.') == Signed(negative, ip + "." + fp)
  {
    var sign := if negative then "-" else "";
    var text := sign + ip + [sep] + fp;
    assert Written(negative, ip, sep, fp) == text;
    assert Signed(negative, ip + "." + fp) == sign + ip + "." + fp;
    assert ',' !in sign + ip by {
      DigitsHaveNoComma(ip);
    }
    if sep == ',' {
      ReplaceFirstSpec(sign + ip, ',', '.', fp);
    } else {
      assert ',' !in text by {
        DigitsHaveNoComma(fp);
      }
      ReplaceFirstSpec(text, ',', '.', []);
      assert text + [] == text;
    }
  }

  lemma WrittenIsTrimmed(negative: bool, ip: string, sep: char, fp: string)
    requires AllDigits(ip) && |ip| > 0 && AllDigits(fp)
    requires sep == ',' || sep == '.'
    ensures Trim(Written(negative, ip, sep, fp)) == Written(negative, ip, sep, fp)
  {
    var text := Written(negative, ip, sep, fp);
    var last := if |fp| > 0 then fp[|fp| - 1] else sep;
    assert text[|text| - 1] == last;
    assert !IsWhiteSpace(last) by {
      if |fp| > 0 {
        DigitIsPlain(fp[|fp| - 1]);
      }
    }
    assert text[0] == (if negative then '-' else ip[0]);
    DigitIsPlain(ip[0]);
    TrimOfTrimmed(text);
  }
}
